/** Recursive disassembly of an STCM tree: every code and data label of an instruction is followed. */
module Stcm {
  import opened Bytes
  import opened Words
  import opened Numbers
  import I = Items
  import P = StcmParams
  import opened StcmInstructions
  import opened StcmFormat
  import opened StcmStrings
  import opened Trees
  import opened Relink
  import opened TreeEdits
  import opened TreeHeaps
  import opened TreeSplits
  import opened StcmContexts
  import opened StcmClosure
  import opened StcmPieces
  import opened StcmCuts

  /** The tree is sound and stands for the file, its instructions are closed but those still being worked on,
      and no data item that could be taken for something else is left. */
  ghost predicate Visitable(ctx: Context, gs: Guesses, pending: set<Item>)
    reads ctx, ctx.root, ctx.repr
  {
    && ctx.Parsable() && Faithful(ctx.shape, 0, PositionsOf(ctx.labels), ctx.file)
    && ClosedBut(ctx.shape, ctx.labels, pending) && AllGuessed(gs, ctx.shape) && AllRanged(ctx.shape, PositionsOf(ctx.labels))
    && AllSought(ctx.shape, ctx.file, ctx.starts)
  }

  /** An instruction is as long as its words say, and it has been asked for, as have data items and strings. */
  ghost predicate SoughtItem(f: Forest, n: Item, file: seq<byte>, starts: Starts) {
    && (BodyOf(f, n).Instruction? ==>
         CodeSought(file, starts, Start(f, n)) && Start(f, n) + 16 <= |file| && Four(file, Start(f, n) + 12) == Size(Sub(f, n)))
    && (BodyOf(f, n).Data? || BodyOf(f, n).StringData? ==> DataSought(file, starts, Start(f, n)))
  }

  ghost predicate AllSought(f: Forest, file: seq<byte>, starts: Starts) {
    forall n {:trigger n in Nodes(f)} :: n in Nodes(f) ==> SoughtItem(f, n, file, starts)
  }

  lemma SoughtNew(f: Forest, g: Forest, x: Item, at: nat, span: nat, file: seq<byte>, starts: Starts)
    requires AllSought(f, file, starts) && OnlyNew(f, g, x) && StartsKept(f, g, x, at, span)
    requires BodyOf(g, x).Instruction? ==> CodeSought(file, starts, at) && at + 16 <= |file| && Four(file, at + 12) == span
    requires BodyOf(g, x).Data? || BodyOf(g, x).StringData? ==> DataSought(file, starts, at)
    ensures AllSought(g, file, starts)
  {
    hide Nodes, BodyOf, Start, Size, Sub, CodeSought, DataSought, Four;
    forall n | n in Nodes(g)
      ensures SoughtItem(g, n, file, starts)
    {
      if n != x && Typed(BodyOf(g, n)) {
        assert n in Nodes(f) && SoughtItem(f, n, file, starts);
        assert Start(g, n) == Start(f, n);
      }
    }
  }

  /** The words an instruction being worked on was read from. */
  lemma WorkingSays(ctx: Context, gs: Guesses, x: Item, i: Instr<string>, pending: set<Item>)
    requires Visitable(ctx, gs, pending) && Working(ctx, x, i)
    ensures SaysInstr(i, ctx.file, Start(ctx.shape, x), Size(Sub(ctx.shape, x)), PositionsOf(ctx.labels))
    ensures CodeSought(ctx.file, ctx.starts, Start(ctx.shape, x)) && x.position == Start(ctx.shape, x)
    ensures PositionsOf(ctx.labels).Keys == ctx.labels.Keys
  {
    hide Live, Distinct, Leaves, Placed, Size, Start, AllRefsKnown, Own, Faithful, ClosedBut, AllGuessed, CodeSought, Four, SaysInstr, Ranged, InstrBytes, RefsKnown, PositionsOf;
    hide ctx.RawsIndexed, ctx.EntriesRight, ctx.LabelsInside;
    var f, pos := ctx.shape, PositionsOf(ctx.labels);
    PositionKeys(ctx.labels);
    assert SoughtItem(f, x, ctx.file, ctx.starts) && Ranged(i, pos);
    FaithfulAt(f, x, 0, pos, ctx.file);
    LoneParts(f, x, i);
    RefsOf(f, x, ctx.labels.Keys);
    PlacedAtStart(f, x, 0);
    WordBelow(ctx.file, Start(f, x) + 12);
    HeldSays(i, ctx.file, Start(f, x), Size(Sub(f, x)), pos);
  }

  lemma PositionKeys(labels: map<string, Ptr>)
    ensures PositionsOf(labels).Keys == labels.Keys
    ensures forall l {:trigger At(PositionsOf(labels), l)} :: l in labels ==> At(PositionsOf(labels), l) == labels[l].item.position + labels[l].offset
  {
  }

  lemma WordBelow(file: seq<byte>, at: nat)
    requires at + 4 <= |file|
    ensures Four(file, at) < 0x1_0000_0000
  {
  }

  lemma LoneParts(f: Forest, x: Item, i: Instr<string>)
    requires x in Nodes(f) && BodyOf(f, x) == Instruction(i)
    ensures Sub(f, x).body == Instruction(i) && Size(Sub(f, x)) == Own(Instruction(i)) + Size(Sub(f, x).kids)
    ensures Own(Instruction(i)) == FixedSize(i) <= Size(Sub(f, x))
    ensures forall size, pos :: OwnBytes(Instruction(i), size, pos) == InstrBytes(Resolve(i, pos), size)
  {
  }

  /** What the parameters ask for, one of them asks for. */
  lemma {:induction false} DemandOfParam(ps: seq<P.Param<string>>, d: Demand) returns (k: nat)
    requires d in ParamsDemands(ps)
    ensures k < |ps| && d in ParamDemands(ps[k])
  {
    var n := |ps| - 1;
    if d in ParamDemands(ps[n]) {
      k := n;
    } else {
      k := DemandOfParam(ps[..n], d);
    }
  }

  lemma CallFrom(i: Instr<string>, file: seq<byte>, p: nat, size: nat, pos: Positions)
    requires SaysInstr(i, file, p, size, pos) && i.target.Call?
    ensures i.target.target in pos && CodeFrom(file, p, pos[i.target.target])
  {
    hide Four, SaysParam;
  }

  lemma ParamFrom(i: Instr<string>, file: seq<byte>, p: nat, size: nat, pos: Positions, k: nat, d: Demand)
    requires SaysInstr(i, file, p, size, pos) && k < |i.params| && d in ParamDemands(i.params[k])
    ensures d.lbl in pos && (d.Code? ==> CodeFrom(file, p, pos[d.lbl])) && (d.Datum? ==> DataFrom(file, p, pos[d.lbl]))
  {
    ParamWords3(i, file, p, size, pos, k);
    hide Four, SaysParam, ParamCode, ParamData;
  }

  /** Where a label points has been asked for. */
  ghost predicate SoughtAt(file: seq<byte>, starts: Starts, pos: Positions, d: Demand) {
    if d.Code? then CodeSought(file, starts, At(pos, d.lbl)) else DataSought(file, starts, At(pos, d.lbl))
  }

  /** What an instruction asks for its words ask for. */
  lemma AskedSought(ctx: Context, gs: Guesses, x: Item, i: Instr<string>, d: Demand, pending: set<Item>)
    requires Visitable(ctx, gs, pending) && Working(ctx, x, i) && d in Demands(i)
    ensures d.lbl in ctx.labels && SoughtAt(ctx.file, ctx.starts, PositionsOf(ctx.labels), d)
  {
    hide Visitable, SaysInstr, CodeSought, DataSought, CodeFrom, DataFrom, PositionsOf;
    WorkingSays(ctx, gs, x, i, pending);
    PositionKeys(ctx.labels);
    var at, size, pos := Start(ctx.shape, x), Size(Sub(ctx.shape, x)), PositionsOf(ctx.labels);
    if i.target.Call? && d == Code(i.target.target) {
      CallFrom(i, ctx.file, at, size, pos);
      CodeStep(ctx.file, ctx.starts, at, pos[d.lbl]);
    } else {
      var k := DemandOfParam(i.params, d);
      ParamFrom(i, ctx.file, at, size, pos, k, d);
      if d.Code? {
        CodeStep(ctx.file, ctx.starts, at, pos[d.lbl]);
      } else {
        DataStep(ctx.file, ctx.starts, at, pos[d.lbl]);
      }
    }
  }

  lemma {:induction false} BehindStart(f: Forest, x: Item)
    requires Distinct(f) && x in Nodes(f) && Behind(f, x).Cons?
    ensures Behind(f, x).item in Nodes(f) && Start(f, Behind(f, x).item) == Start(f, x) + Size(Sub(f, x))
  {
    hide Own;
    if f.item != x {
      if x in Nodes(f.kids) {
        BehindStart(f.kids, x);
      } else {
        BehindStart(f.rest, x);
      }
    }
  }

  lemma NextFrom(i: Instr<string>, file: seq<byte>, p: nat, size: nat, pos: Positions)
    requires SaysInstr(i, file, p, size, pos) && FallsThrough(i)
    ensures CodeFrom(file, p, p + size)
  {
    hide Four, SaysParam;
  }

  /** The item behind an instruction that goes on has been asked for. */
  lemma NextSought(ctx: Context, gs: Guesses, x: Item, i: Instr<string>, pending: set<Item>)
    requires Visitable(ctx, gs, pending) && Working(ctx, x, i) && FallsThrough(i) && Behind(ctx.shape, x).Cons?
    ensures CodeSought(ctx.file, ctx.starts, Behind(ctx.shape, x).item.position)
  {
    hide SaysInstr, CodeSought, CodeFrom, PositionsOf, Live, Leaves, Placed, Size, Start, Sub, AllRefsKnown, Own, Faithful, ClosedBut, AllGuessed, AllRanged, AllSought, Nodes, Distinct, Behind;
    hide ctx.RawsIndexed, ctx.EntriesRight, ctx.LabelsInside;
    WorkingSays(ctx, gs, x, i, pending);
    BehindStart(ctx.shape, x);
    PlacedAtStart(ctx.shape, Behind(ctx.shape, x).item, 0);
    NextFrom(i, ctx.file, Start(ctx.shape, x), Size(Sub(ctx.shape, x)), PositionsOf(ctx.labels));
    CodeStep(ctx.file, ctx.starts, Start(ctx.shape, x), Behind(ctx.shape, x).item.position);
  }

  /** Everything in the instructions is in range of the words they are read from. */
  ghost predicate AllRanged(f: Forest, pos: Positions) {
    forall n {:trigger n in Nodes(f)} :: n in Nodes(f) && BodyOf(f, n).Instruction? ==> Ranged(BodyOf(f, n).instr, pos)
  }

  lemma RangedNew(f: Forest, g: Forest, x: Item, pos: Positions)
    requires AllRanged(f, pos) && OnlyNew(f, g, x) && (BodyOf(g, x).Instruction? ==> Ranged(BodyOf(g, x).instr, pos))
    ensures AllRanged(g, pos)
  {
    hide Ranged, Nodes, BodyOf;
  }

  lemma RangedAgrees(i: Instr<string>, known: set<string>, pos: Positions, pos': Positions)
    requires Ranged(i, pos) && RefsKnown(Instruction(i), known) && Agree(known, pos, pos')
    ensures Ranged(i, pos')
  {
    hide P.Fits, ResolveParam, KnownOpcode, LabelsOfParam, AllIn;
    forall k | 0 <= k < |i.params|
      ensures P.Fits(ResolveParam(i.params[k], pos'), Anywhere)
    {
      ParamAgrees(i.params[k], known, pos, pos');
    }
  }

  lemma AllRangedAgrees(f: Forest, known: set<string>, pos: Positions, pos': Positions)
    requires AllRanged(f, pos) && AllRefsKnown(f, known) && Agree(known, pos, pos')
    ensures AllRanged(f, pos')
  {
    hide Ranged, Nodes, BodyOf, RefsKnown, Agree;
    forall n | n in Nodes(f) && BodyOf(f, n).Instruction?
      ensures Ranged(BodyOf(f, n).instr, pos')
    {
      RefsOf(f, n, known);
      RangedAgrees(BodyOf(f, n).instr, known, pos, pos');
    }
  }

  /** Labels to a place of a raw item are served, and so is an instruction right before it. */
  ghost predicate Served(d: Demand, f: Forest, a: map<string, Ptr>, raw: Item, offset: nat, f': Forest, b: map<string, Ptr>) {
    && (forall l {:trigger l in a} :: l in a && a[l] == Ptr(raw, offset) ==> l in b && b[l].offset == 0 && Suits(d, BodyOf(f', b[l].item)))
    && (offset == 0 && d.Code? ==> forall n {:trigger Behind(f, n)} :: n in Nodes(f) && !BodyOf(f, n).Raw? && Behind(f, n).Cons? && Behind(f, n).item == raw ==>
         Followed(f', n))
  }

  lemma AfterInsert(f: Forest, a: map<string, Ptr>, g: Forest, b: map<string, Ptr>, pending: set<Item>, x: Item)
    requires Onward(f, a, g, b) && ClosedBut(f, a, pending)
    requires OnlyNew(f, g, x)
    ensures ClosedBut(g, b, pending + {x})
  {
    hide Onward, Closed;
    ClosedButStays(f, a, g, b, pending, x);
  }

  /** Labels to a place of a raw item now point to what its bytes become; or these become nothing, or a string
      while other labels point into the raw item. */
  ghost predicate DataDone(ok: bool, m: Option<Body>, a: map<string, Ptr>, raw: Item, offset: nat, f: Forest, b: map<string, Ptr>) {
    if ok then m.Some? && forall l {:trigger l in a} :: l in a && a[l] == Ptr(raw, offset) ==> l in b && BodyOf(f, b[l].item) == m.value
    else m.None? || (m.value.StringData? && PointedInto(a, raw, offset))
  }

  /** The bytes of a raw item from an offset on. */
  ghost function BytesFrom(raw: Item, offset: nat): seq<byte>
    reads raw
  {
    if raw.body.Raw? && raw.body.view.Valid() && offset <= raw.body.view.size then raw.body.view.Bytes()[offset..] else []
  }

  lemma PayloadBytes(gs: Guesses, view: I.View, offset: nat, d: DataHead)
    requires view.Valid() && offset <= view.size && ReadData(view.Bytes()[offset..]) == Some(d)
    ensures offset + 16 + d.length <= view.size
    ensures Becomes(gs, view.Bytes()[offset..]) == Made(gs, d, view.Slice(offset + 16, d.length).Bytes())
  {
    hide Made;
    var b := view.Bytes()[offset..];
    DataDumpsSame(b);
    assert view.Slice(offset + 16, d.length).Bytes() == b[16..16 + d.length];
  }

  lemma NothingMade(gs: Guesses, b: seq<byte>)
    requires ReadData(b).None?
    ensures Becomes(gs, b).None?
  {
  }

  lemma RawStart(ctx: Context, raw: Item)
    requires ctx.Core() && raw in ctx.repr && raw.body.Raw?
    ensures raw.position == Start(ctx.shape, raw)
  {
    hide Live, Distinct, Leaves, Placed, Size, Start, AllRefsKnown, Own;
    hide ctx.RawsIndexed, ctx.EntriesRight, ctx.LabelsInside;
    PlacedAtStart(ctx.shape, raw, 0);
  }

  /** Makes the data item at a place of a raw one, or what a guess makes of it. */
  method CreateData(ctx: Context, gs: Guesses, raw: Item, offset: nat, ghost pending: set<Item>) returns (ok: bool)
    requires Visitable(ctx, gs, pending) && raw in ctx.repr && raw.body.Raw? && offset <= Own(raw.body)
    requires DataSought(ctx.file, ctx.starts, raw.position + offset)
    modifies ctx, ctx.root, ctx.repr
    ensures fresh(ctx.repr - old(ctx.repr))
    ensures !ok ==> ctx.Core() && Failed(Datum(""), old(ctx.shape), old(ctx.labels), raw, offset, ctx.shape, ctx.labels, gs)
    ensures ok ==> Agree(old(ctx.labels.Keys), old(PositionsOf(ctx.labels)), PositionsOf(ctx.labels))
    ensures ok ==> Visitable(ctx, gs, pending) && Onward(old(ctx.shape), old(ctx.labels), ctx.shape, ctx.labels)
    ensures ok ==> RawBytes(ctx.shape) + 16 <= RawBytes(old(ctx.shape))
    ensures ok ==> Served(Datum(""), old(ctx.shape), old(ctx.labels), raw, offset, ctx.shape, ctx.labels)
    ensures DataDone(ok, Becomes(gs, old(BytesFrom(raw, offset))), old(ctx.labels), raw, offset, ctx.shape, ctx.labels)
  {
    hide Onward, Holds, Faithful, ClosedBut, RawBytes, Own, BodyOf, Nodes, Behind, Followed, ReadData, Refused, AllGuessed, Around, Holding, Insertable, NoInner, RawsFull, Start, Swap,
         LabelsStand, HasChild, HeaderOnly, OnlyNew, FollowedByNew, Agree, Served, Made, Becomes, PointedInto, AllRanged, AllSought, DataSought;
    hide ctx.Core;
    RestHolds(ctx, raw, offset);
    RawsFullBefore(ctx);
    RawStart(ctx, raw);
    var b := raw.body.view.Bytes()[offset..];
    var d := ReadData(b);
    if d.None? {
      NothingMade(gs, b);
      return false;
    }
    DataFits(ctx, raw, offset, b, d.value);
    PayloadBytes(gs, raw.body.view, offset, d.value);
    ghost var f, a, pos, view := ctx.shape, ctx.labels, PositionsOf(ctx.labels), raw.body.view;
    var x;
    ghost var c, rest;
    x, c, rest := CutData(ctx, raw, offset, d.value);
    ghost var top;
    ok, top := Retype(ctx, gs, x, d.value, c, f, a, pos, raw, view, offset, rest);
    if ok {
      DataStands(ctx, gs, f, a, pos, raw, view, offset, top, d.value.length, rest, pending);
    }
  }

  /** The state once a data item, or what a guess made of it, stands in place of raw bytes. */
  lemma DataStands(ctx: Context, gs: Guesses, f: Forest, a: map<string, Ptr>, pos: Positions, raw: Item, view: I.View, o: nat, top: Forest, len: nat, rest: Item, pending: set<Item>)
    requires Stands(ctx, f, a, pos, raw, view, o, top, 16 + len, rest) && AllGuessed(gs, top) && RawBytes(top) <= len && top.Cons? && (top.body.Data? || top.body.StringData?)
    requires RawsFull(f) && Faithful(f, 0, pos, ctx.file) && ClosedBut(f, a, pending) && AllGuessed(gs, f) && AllRanged(f, pos) && pos.Keys == a.Keys
    requires AllSought(f, ctx.file, ctx.starts) && DataSought(ctx.file, ctx.starts, Start(f, raw) + o)
    ensures Visitable(ctx, gs, pending) && Onward(f, a, ctx.shape, ctx.labels) && RawBytes(ctx.shape) + 16 <= RawBytes(f)
    ensures Served(Datum(""), f, a, raw, o, ctx.shape, ctx.labels) && Agree(a.Keys, pos, PositionsOf(ctx.labels))
    ensures DataDone(true, Some(top.body), a, raw, o, ctx.shape, ctx.labels)
  {
    hide Onward, Faithful, ClosedBut, RawBytes, BodyOf, Nodes, AllGuessed, Around, Insertable, NoInner, RawsFull, Start, Swap, OnlyNew, FollowedByNew, AllRanged, AllSought, DataSought, StartsKept;
    hide ctx.Core;
    LabelsMoved(f, a, ctx.labels, raw, o, top.item);
    InsertedNow(ctx, gs, f, a, pos, raw, view, o, top, 16 + len, rest);
    TopBody(top);
    AfterInsert(f, a, ctx.shape, ctx.labels, pending, top.item);
    RangedNew(f, ctx.shape, top.item, pos);
    SoughtNew(f, ctx.shape, top.item, Start(f, raw) + o, 16 + len, ctx.file, ctx.starts);
    DataClosed(ctx.shape, ctx.labels, pending, top.item);
  }

  lemma LabelsMoved(f: Forest, a: map<string, Ptr>, b: map<string, Ptr>, raw: Item, o: nat, x: Item)
    requires LabelsStand(f, a, b, raw, o, x)
    ensures forall l {:trigger l in a} :: l in a ==> l in b && (a[l].item != raw ==> b[l] == a[l])
  {
  }

  lemma TopBody(top: Forest)
    requires top.Cons?
    ensures BodyOf(top, top.item) == top.body
  {
  }

  lemma DataClosed(f: Forest, labels: map<string, Ptr>, pending: set<Item>, x: Item)
    requires ClosedBut(f, labels, pending + {x}) && !BodyOf(f, x).Instruction?
    ensures ClosedBut(f, labels, pending)
  {
    Finished(f, labels, pending, x);
  }

  /** The instruction that is being worked on. */
  ghost predicate Working(ctx: Context, x: Item, i: Instr<string>)
    reads ctx
  {
    x in Nodes(ctx.shape) && BodyOf(ctx.shape, x) == Instruction(i)
  }

  lemma StillWorking(f: Forest, a: map<string, Ptr>, g: Forest, b: map<string, Ptr>, x: Item, i: Instr<string>)
    requires Onward(f, a, g, b) && x in Nodes(f) && BodyOf(f, x) == Instruction(i)
    ensures x in Nodes(g) && BodyOf(g, x) == Instruction(i)
  {
  }

  /** Where a label leads. */
  lemma Landing(ctx: Context, gs: Guesses, d: Demand, pending: set<Item>)
    requires Visitable(ctx, gs, pending) && d.lbl in ctx.labels
    ensures ctx.labels[d.lbl].item in ctx.repr
    ensures At(PositionsOf(ctx.labels), d.lbl) == ctx.labels[d.lbl].item.position + ctx.labels[d.lbl].offset
    ensures var p := ctx.labels[d.lbl]; BodyOf(ctx.shape, p.item) == p.item.body && (p.item.body.Raw? ==> p.offset <= Own(p.item.body))
  {
    hide Live, Placed, Distinct, Leaves, Size, ListOf, Own, Faithful, ClosedBut, BodyOf, Nodes, RefsKnown, Demands;
    BodyIs(ctx, ctx.labels[d.lbl].item);
  }

  lemma {:induction false} RefsOf(f: Forest, x: Item, known: set<string>)
    requires AllRefsKnown(f, known) && x in Nodes(f)
    ensures RefsKnown(BodyOf(f, x), known)
  {
    if f.item == x {
    } else if x in Nodes(f.kids) {
      RefsOf(f.kids, x, known);
    } else {
      RefsOf(f.rest, x, known);
    }
  }

  lemma RefusedByDemand(f: Forest, labels: map<string, Ptr>, gs: Guesses, x: Item, i: Instr<string>, d: Demand)
    requires x in Nodes(f) && BodyOf(f, x) == Instruction(i) && d in Demands(i) && StuckAt(f, labels, d)
    ensures Refused(f, labels, gs)
  {
    hide StuckAt, Demands, BodyOf;
    var j :| 0 <= j < |Demands(i)| && Demands(i)[j] == d;
    assert RefusedAt(f, labels, x);
  }

  lemma RefusedByNext(f: Forest, labels: map<string, Ptr>, gs: Guesses, x: Item, i: Instr<string>)
    requires x in Nodes(f) && BodyOf(f, x) == Instruction(i) && FallsThrough(i)
    requires Behind(f, x).Nil? || Stuck(f, Code(""), Behind(f, x).item, 0)
    ensures Refused(f, labels, gs)
  {
    assert RefusedAt(f, labels, x);
  }

  /** Nothing has been created: what is asked for is not at this place. Or something it leads to is not there. */
  ghost predicate Failed(d: Demand, f: Forest, a: map<string, Ptr>, raw: Item, offset: nat, f': Forest, b: map<string, Ptr>, gs: Guesses) {
    Refused(f', b, gs) || (f' == f && Extends(a, b) && Stuck(f', d, raw, offset))
  }

  /** Nothing has been created for a demand: it cannot be served. Or something else is not there. */
  ghost predicate Halted(f: Forest, a: map<string, Ptr>, d: Demand, f': Forest, b: map<string, Ptr>, gs: Guesses) {
    Refused(f', b, gs) || (f' == f && Extends(a, b) && StuckAt(f', b, d))
  }

  /** Disassembles the instruction at a place of a raw item, then everything it leads to. */
  method CreateInstruction(ctx: Context, gs: Guesses, raw: Item, offset: nat, ghost pending: set<Item>) returns (ok: bool)
    requires Visitable(ctx, gs, pending) && raw in ctx.repr && raw.body.Raw? && offset <= Own(raw.body)
    requires CodeSought(ctx.file, ctx.starts, raw.position + offset)
    modifies ctx, ctx.root, ctx.repr
    ensures fresh(ctx.repr - old(ctx.repr))
    ensures !ok ==> ctx.Core() && Failed(Code(""), old(ctx.shape), old(ctx.labels), raw, offset, ctx.shape, ctx.labels, gs)
    ensures ok ==> Agree(old(ctx.labels.Keys), old(PositionsOf(ctx.labels)), PositionsOf(ctx.labels))
    ensures ok ==> Visitable(ctx, gs, pending) && Onward(old(ctx.shape), old(ctx.labels), ctx.shape, ctx.labels)
    ensures ok ==> RawBytes(ctx.shape) + 16 <= RawBytes(old(ctx.shape))
    ensures ok ==> Served(Code(""), old(ctx.shape), old(ctx.labels), raw, offset, ctx.shape, ctx.labels)
    decreases RawBytes(ctx.shape), 0
  {
    hide Onward, Faithful, ClosedBut, RawBytes, BodyOf, Nodes, Served, Refused, PositionsOf, StandsThere, Agree, AllGuessed, AllRanged, AllSought, CodeSought, DataSought;
    hide ctx.Core, ctx.Parsable;
    ghost var f, a, pos := ctx.shape, ctx.labels, PositionsOf(ctx.labels);
    var x, i := TakeInstruction(ctx, gs, raw, offset, pending);
    if i.None? {
      return false;
    }
    ghost var g, b, pos' := ctx.shape, ctx.labels, PositionsOf(ctx.labels);
    ok := PostInsert(ctx, gs, x, i.value, pending);
    if ok {
      LessRaw(g, b, ctx.shape, ctx.labels);
      ServedLater(f, a, raw, offset, g, b, x, i.value, ctx.shape, ctx.labels);
      AgreeTransitive(a.Keys, pos, b.Keys, pos', PositionsOf(ctx.labels));
    }
  }

  /** A new item stands at a place of a raw one. */
  ghost predicate StandsThere(f: Forest, a: map<string, Ptr>, raw: Item, offset: nat, g: Forest, b: map<string, Ptr>, x: Item) {
    && Onward(f, a, g, b) && (offset == 0 ==> FollowedByNew(f, raw, g, x))
    && (forall l {:trigger l in a} :: l in a ==> l in b && (a[l] == Ptr(raw, offset) ==> b[l] == Ptr(x, 0)))
  }

  lemma StoodBefore(f: Forest, a: map<string, Ptr>, a': map<string, Ptr>, raw: Item, offset: nat, g: Forest, b: map<string, Ptr>, x: Item)
    requires Extends(a, a') && b.Keys == a'.Keys && Onward(f, a, f, a') && Onward(f, a', g, b)
    requires forall l {:trigger b[l]} :: l in b && a'[l] == Ptr(raw, offset) ==> b[l] == Ptr(x, 0)
    requires offset == 0 ==> FollowedByNew(f, raw, g, x)
    ensures StandsThere(f, a, raw, offset, g, b, x)
  {
    hide Onward, FollowedByNew;
    OnwardTransitive(f, a, f, a', g, b);
  }

  /** The size of an instruction is a word of the file. */
  lemma SizeHeld(file: seq<byte>, at: nat, b: seq<byte>, total: nat, size: nat)
    requires Holds(file, at, b) && ReadInstr(b, total).Some? && ReadInstr(b, total).value.size == size
    ensures at + 16 <= |file| && Four(file, at + 12) == size
  {
    hide ReadInstr;
    ReadHeader(b, total);
  }

  /** Reads the instruction at a place of a raw item and cuts it out. */
  method TakeInstruction(ctx: Context, ghost gs: Guesses, raw: Item, offset: nat, ghost pending: set<Item>) returns (x: Item?, i: Option<Instr<string>>)
    requires Visitable(ctx, gs, pending) && raw in ctx.repr && raw.body.Raw? && offset <= Own(raw.body)
    requires CodeSought(ctx.file, ctx.starts, raw.position + offset)
    modifies ctx, ctx.root, ctx.repr
    ensures fresh(ctx.repr - old(ctx.repr))
    ensures i.None? ==> ctx.Core() && Failed(Code(""), old(ctx.shape), old(ctx.labels), raw, offset, ctx.shape, ctx.labels, gs)
    ensures i.Some? ==> x != null && Visitable(ctx, gs, pending + {x}) && Working(ctx, x, i.value)
    ensures i.Some? ==> StandsThere(old(ctx.shape), old(ctx.labels), raw, offset, ctx.shape, ctx.labels, x)
    ensures i.Some? ==> RawBytes(ctx.shape) + 16 <= RawBytes(old(ctx.shape)) && Agree(old(ctx.labels.Keys), old(PositionsOf(ctx.labels)), PositionsOf(ctx.labels))
  {
    hide Onward, Holds, Faithful, ClosedBut, RawBytes, Own, BodyOf, Nodes, Behind, FollowedByNew, ReadInstr, Refused, Resolve, PositionsOf, StandsThere, AllGuessed, AllRanged, Ranged, AllSought, CodeSought, StartsKept, Four;
    hide ctx.Core;
    RestHolds(ctx, raw, offset);
    var b := raw.body.view.Bytes()[offset..];
    ghost var f, a, pos := ctx.shape, ctx.labels, PositionsOf(ctx.labels);
    var size;
    i, size := ctx.ParseInstruction(b);
    if i.None? {
      return null, None;
    }
    ghost var a', at, total := ctx.labels, raw.position + offset, ctx.Total();
    AfterLabels(ctx, f, a, pos, pending);
    InstructionFits(ctx, raw, offset, b, i.value, size);
    ReadRanged(b, ctx.Total(), i.value, size, PositionsOf(ctx.labels));
    x := Insert(ctx, gs, raw, offset, Instruction(i.value), size - FixedSize(i.value));
    AfterInsert(f, a', ctx.shape, ctx.labels, pending, x);
    RangedNew(f, ctx.shape, x, PositionsOf(ctx.labels));
    InstructionSize(i.value);
    SizeHeld(ctx.file, at, b, total, size);
    SoughtNew(f, ctx.shape, x, at, size, ctx.file, ctx.starts);
    StoodBefore(f, a, a', raw, offset, ctx.shape, ctx.labels, x);
  }

  lemma LessRaw(f: Forest, a: map<string, Ptr>, g: Forest, b: map<string, Ptr>)
    requires Onward(f, a, g, b)
    ensures RawBytes(g) <= RawBytes(f)
  {
  }

  lemma InstructionSize(i: Instr<string>)
    ensures Own(Instruction(i)) == 16 + 12 * |i.params|
  {
  }

  /** New labels change nothing of the tree. */
  lemma AfterLabels(ctx: Context, f: Forest, a: map<string, Ptr>, pos: Positions, pending: set<Item>)
    requires ctx.Parsable() && ctx.shape == f && Extends(a, ctx.labels) && Agree(a.Keys, pos, PositionsOf(ctx.labels))
    requires Faithful(f, 0, pos, ctx.file) && ClosedBut(f, a, pending) && AllRefsKnown(f, a.Keys) && AllRanged(f, pos)
    ensures Faithful(f, 0, PositionsOf(ctx.labels), ctx.file) && ClosedBut(f, ctx.labels, pending) && Onward(f, a, f, ctx.labels)
    ensures AllRanged(f, PositionsOf(ctx.labels))
  {
    hide Faithful, Onward, Closed, BodyOf, AllRefsKnown, Agree, AllRanged;
    hide ctx.Core;
    ExtendOnward(f, a, ctx.labels);
    FaithfulAgrees(f, 0, a.Keys, pos, PositionsOf(ctx.labels), ctx.file);
    AllRangedAgrees(f, a.Keys, pos, PositionsOf(ctx.labels));
    ClosedExtended(f, a, ctx.labels, pending);
  }

  lemma ClosedExtended(f: Forest, a: map<string, Ptr>, b: map<string, Ptr>, pending: set<Item>)
    requires Onward(f, a, f, b) && ClosedBut(f, a, pending)
    ensures ClosedBut(f, b, pending)
  {
    hide Onward;
    forall n | n in Nodes(f) && n !in pending
      ensures Closed(f, b, n)
    {
      if BodyOf(f, n).Instruction? {
        ClosedStays(f, a, f, b, n);
      }
    }
  }

  /** What was served by the new instruction stays so. */
  lemma ServedLater(f: Forest, a: map<string, Ptr>, raw: Item, offset: nat, g: Forest, b: map<string, Ptr>, x: Item, i: Instr<string>, h: Forest, c: map<string, Ptr>)
    requires StandsThere(f, a, raw, offset, g, b, x) && Onward(g, b, h, c) && x in Nodes(g) && BodyOf(g, x) == Instruction(i)
    ensures Served(Code(""), f, a, raw, offset, h, c) && Onward(f, a, h, c) && a.Keys <= b.Keys
  {
    forall n | offset == 0 && n in Nodes(f) && !BodyOf(f, n).Raw? && Behind(f, n).Cons? && Behind(f, n).item == raw
      ensures Followed(h, n)
    {
      assert Behind(g, n).Cons? && Behind(g, n).item == x;
      assert n in Nodes(g) && BodyOf(g, n) == BodyOf(f, n);
      FollowedStays(g, b, h, c, n);
    }
    forall l | l in a && a[l] == Ptr(raw, offset)
      ensures l in c && c[l].offset == 0 && BodyOf(h, c[l].item).Instruction?
    {
      assert l in b && b[l] == Ptr(x, 0);
    }
    OnwardTransitive(f, a, g, b, h, c);
  }

  /** Visits what a new instruction leads to: the called one, the one behind it, those its parameters name. */
  method PostInsert(ctx: Context, gs: Guesses, x: Item, i: Instr<string>, ghost pending: set<Item>) returns (ok: bool)
    requires Visitable(ctx, gs, pending + {x}) && Working(ctx, x, i)
    modifies ctx, ctx.root, ctx.repr
    ensures fresh(ctx.repr - old(ctx.repr))
    ensures !ok ==> ctx.Core() && Refused(ctx.shape, ctx.labels, gs)
    ensures ok ==> Agree(old(ctx.labels.Keys), old(PositionsOf(ctx.labels)), PositionsOf(ctx.labels))
    ensures ok ==> Visitable(ctx, gs, pending) && Onward(old(ctx.shape), old(ctx.labels), ctx.shape, ctx.labels)
    decreases RawBytes(ctx.shape), 3
  {
    hide Onward, Faithful, ClosedBut, RawBytes, BodyOf, Nodes, Followed, Refused, AllMet, Demands, ParamsDemands, Agree, PositionsOf, AllRanged, AllSought, CodeSought, DataSought, SoughtAt;
    hide ctx.Parsable;
    ghost var f, a, pos := ctx.shape, ctx.labels, PositionsOf(ctx.labels);
    ExtendOnward(f, a, a);
    AgreeSelf(a);
    NoneMet(f, a);
    if i.target.Call? {
      CallDemanded(i);
      AskedSought(ctx, gs, x, i, Code(i.target.target), pending + {x});
      ok := MaybeCreate(ctx, gs, Code(i.target.target), pending + {x});
      if !ok {
        HaltedRefused(f, a, Code(i.target.target), ctx.shape, ctx.labels, gs, x, i);
        return;
      }
      StillWorking(f, a, ctx.shape, ctx.labels, x, i);
      OneMet(ctx.shape, ctx.labels, Code(i.target.target));
    }
    ghost var g, b, pos1 := ctx.shape, ctx.labels, PositionsOf(ctx.labels);
    if FallsThrough(i) {
      ok := VisitNext(ctx, gs, x, i, pending + {x});
      if !ok {
        return;
      }
      Along(f, a, g, b, ctx.shape, ctx.labels, x, i);
      AgreeTransitive(a.Keys, pos, b.Keys, pos1, PositionsOf(ctx.labels));
      AllMetStays(g, b, ctx.shape, ctx.labels, CallDemands(i), |CallDemands(i)|);
    }
    ghost var h, c, pos2 := ctx.shape, ctx.labels, PositionsOf(ctx.labels);
    ok := VisitParams(ctx, gs, x, i, pending + {x});
    if !ok {
      return;
    }
    Along(f, a, h, c, ctx.shape, ctx.labels, x, i);
    AgreeTransitive(a.Keys, pos, c.Keys, pos2, PositionsOf(ctx.labels));
    AllMetStays(h, c, ctx.shape, ctx.labels, CallDemands(i), |CallDemands(i)|);
    if FallsThrough(i) {
      FollowedStays2(h, c, ctx.shape, ctx.labels, x, i);
    }
    DoneIsClosed(ctx.shape, ctx.labels, x, i, pending);
  }

  /** Follows the labels of the parameters. */
  method VisitParams(ctx: Context, gs: Guesses, x: Item, i: Instr<string>, ghost pending: set<Item>) returns (ok: bool)
    requires Visitable(ctx, gs, pending) && Working(ctx, x, i)
    modifies ctx, ctx.root, ctx.repr
    ensures fresh(ctx.repr - old(ctx.repr))
    ensures !ok ==> ctx.Core() && Refused(ctx.shape, ctx.labels, gs)
    ensures ok ==> Agree(old(ctx.labels.Keys), old(PositionsOf(ctx.labels)), PositionsOf(ctx.labels))
    ensures ok ==> Visitable(ctx, gs, pending) && Onward(old(ctx.shape), old(ctx.labels), ctx.shape, ctx.labels)
    ensures ok ==> AllMet(ctx.shape, ctx.labels, ParamsDemands(i.params), |ParamsDemands(i.params)|)
    decreases RawBytes(ctx.shape), 2
  {
    hide Onward, Faithful, ClosedBut, RawBytes, BodyOf, Nodes, Refused, AllMet, Demands, ParamsDemands, ParamDemands, Agree, PositionsOf, AllRanged, AllSought, CodeSought, DataSought, SoughtAt;
    hide ctx.Parsable;
    ghost var f, a, pos := ctx.shape, ctx.labels, PositionsOf(ctx.labels);
    AgreeSelf(a);
    ExtendOnward(f, a, a);
    NoParamsMet(f, a, i.params);
    for k := 0 to |i.params|
      invariant fresh(ctx.repr - old(ctx.repr))
      invariant Visitable(ctx, gs, pending) && Working(ctx, x, i) && Onward(f, a, ctx.shape, ctx.labels)
      invariant RawBytes(ctx.shape) <= RawBytes(f) && Agree(a.Keys, pos, PositionsOf(ctx.labels))
      invariant AllMet(ctx.shape, ctx.labels, ParamsDemands(i.params[..k]), |ParamsDemands(i.params[..k])|)
    {
      ghost var g, b, pos1 := ctx.shape, ctx.labels, PositionsOf(ctx.labels);
      AgreeSelf(b);
      var ds := ParamDemands(i.params[k]);
      ParamDemanded(i, k);
      ExtendOnward(g, b, b);
      if ds != [] {
        AskedSought(ctx, gs, x, i, ds[0], pending);
        ok := MaybeCreate(ctx, gs, ds[0], pending);
        if !ok {
          HaltedRefused(g, b, ds[0], ctx.shape, ctx.labels, gs, x, i);
          return;
        }
      }
      Along(f, a, g, b, ctx.shape, ctx.labels, x, i);
      AgreeTransitive(a.Keys, pos, b.Keys, pos1, PositionsOf(ctx.labels));
      MoreMet(g, b, ctx.shape, ctx.labels, i.params, k);
    }
    assert i.params[..|i.params|] == i.params;
    ok := true;
  }

  /** Makes sure what is asked for is where the label points. */
  method MaybeCreate(ctx: Context, gs: Guesses, d: Demand, ghost pending: set<Item>) returns (ok: bool)
    requires Visitable(ctx, gs, pending) && d.lbl in ctx.labels && SoughtAt(ctx.file, ctx.starts, PositionsOf(ctx.labels), d)
    modifies ctx, ctx.root, ctx.repr
    ensures fresh(ctx.repr - old(ctx.repr))
    ensures !ok ==> ctx.Core() && Halted(old(ctx.shape), old(ctx.labels), d, ctx.shape, ctx.labels, gs)
    ensures ok ==> Agree(old(ctx.labels.Keys), old(PositionsOf(ctx.labels)), PositionsOf(ctx.labels))
    ensures ok ==> Visitable(ctx, gs, pending) && Onward(old(ctx.shape), old(ctx.labels), ctx.shape, ctx.labels)
    ensures ok ==> RawBytes(ctx.shape) <= RawBytes(old(ctx.shape)) && Met(ctx.shape, ctx.labels, d)
    ensures d.Datum? && old(ctx.labels[d.lbl].item.body.Raw?) ==>
              DataDone(ok, Becomes(gs, old(BytesFrom(ctx.labels[d.lbl].item, ctx.labels[d.lbl].offset))), old(ctx.labels), old(ctx.labels[d.lbl].item),
                old(ctx.labels[d.lbl].offset), ctx.shape, ctx.labels)
    decreases RawBytes(ctx.shape), 1
  {
    hide Onward, Faithful, ClosedBut, RawBytes, BodyOf, Nodes, Refused, Served, Failed, Stuck, DataDone, Becomes, AllRanged, AllSought, CodeSought, DataSought, PositionsOf, At;
    hide ctx.Core;
    Landing(ctx, gs, d, pending);
    ghost var f, a := ctx.shape, ctx.labels;
    var p := ctx.labels[d.lbl];
    if p.item.body.Raw? {
      if d.Code? {
        ok := CreateInstruction(ctx, gs, p.item, p.offset, pending);
      } else {
        ok := CreateData(ctx, gs, p.item, p.offset, pending);
      }
      if ok {
        ServedMet(f, a, p, d, ctx.shape, ctx.labels);
      } else {
        FailedHalted(f, a, p, d, ctx.shape, ctx.labels, gs);
      }
    } else {
      ExtendOnward(f, a, a);
      AgreeSelf(a);
      ok := p.offset == 0 && if d.Code? then p.item.body.Instruction? else p.item.body.Data?;
      if !ok {
        OtherThere(f, a, d, gs);
      }
    }
  }

  /** Disassembles what is behind an instruction. */
  method VisitNext(ctx: Context, gs: Guesses, x: Item, i: Instr<string>, ghost pending: set<Item>) returns (ok: bool)
    requires Visitable(ctx, gs, pending) && Working(ctx, x, i) && FallsThrough(i)
    modifies ctx, ctx.root, ctx.repr
    ensures fresh(ctx.repr - old(ctx.repr))
    ensures !ok ==> ctx.Core() && Refused(ctx.shape, ctx.labels, gs)
    ensures ok ==> Agree(old(ctx.labels.Keys), old(PositionsOf(ctx.labels)), PositionsOf(ctx.labels))
    ensures ok ==> Visitable(ctx, gs, pending) && Onward(old(ctx.shape), old(ctx.labels), ctx.shape, ctx.labels) && Working(ctx, x, i)
    ensures ok ==> RawBytes(ctx.shape) <= RawBytes(old(ctx.shape)) && Followed(ctx.shape, x)
    decreases RawBytes(ctx.shape), 1
  {
    hide Onward, Faithful, ClosedBut, RawBytes, BodyOf, Nodes, Refused, Demands, Served, Failed, Stuck, Behind, AllRanged, AllSought, CodeSought, DataSought;
    hide ctx.Parsable;
    WorkingIn(ctx, gs, x, i, pending);
    ghost var f, a := ctx.shape, ctx.labels;
    var next := ctx.Next(x);
    if next.None? {
      RefusedByNext(f, a, gs, x, i);
      return false;
    }
    BodyIs(ctx, next.value);
    if next.value.body.Raw? {
      NextSought(ctx, gs, x, i, pending);
      ok := CreateInstruction(ctx, gs, next.value, 0, pending);
      if ok {
        ServedFollows(f, a, x, i, next.value, ctx.shape, ctx.labels);
        StillWorking(f, a, ctx.shape, ctx.labels, x, i);
      } else {
        FailedNext(f, a, next.value, ctx.shape, ctx.labels, gs, x, i);
      }
    } else {
      ExtendOnward(f, a, a);
      ok := next.value.body.Instruction?;
      if !ok {
        NextOther(f, a, gs, x, i);
      }
    }
  }

  lemma AgreeSelf(labels: map<string, Ptr>)
    ensures Agree(labels.Keys, PositionsOf(labels), PositionsOf(labels))
  {
  }

  lemma WorkingIn(ctx: Context, gs: Guesses, x: Item, i: Instr<string>, pending: set<Item>)
    requires Visitable(ctx, gs, pending) && Working(ctx, x, i)
    ensures ctx.Core() && x in ctx.repr && ctx.Shaped()
  {
  }

  lemma NoneMet(f: Forest, a: map<string, Ptr>)
    ensures AllMet(f, a, [], 0)
  {
  }

  lemma CallDemanded(i: Instr<string>)
    requires i.target.Call?
    ensures Code(i.target.target) in Demands(i)
  {
    assert Demands(i)[0] == Code(i.target.target);
  }

  lemma OneMet(f: Forest, a: map<string, Ptr>, d: Demand)
    requires Met(f, a, d)
    ensures AllMet(f, a, [d], 1)
  {
  }

  lemma Along(f: Forest, a: map<string, Ptr>, g: Forest, b: map<string, Ptr>, h: Forest, c: map<string, Ptr>, x: Item, i: Instr<string>)
    requires Onward(f, a, g, b) && Onward(g, b, h, c) && x in Nodes(g) && BodyOf(g, x) == Instruction(i)
    ensures Onward(f, a, h, c) && x in Nodes(h) && BodyOf(h, x) == Instruction(i) && RawBytes(h) <= RawBytes(f)
    ensures a.Keys <= b.Keys <= c.Keys
  {
    hide Nodes, BodyOf;
    OnwardTransitive(f, a, g, b, h, c);
  }

  lemma FollowedStays2(f: Forest, a: map<string, Ptr>, g: Forest, b: map<string, Ptr>, x: Item, i: Instr<string>)
    requires Onward(f, a, g, b) && x in Nodes(f) && BodyOf(f, x) == Instruction(i) && Followed(f, x)
    ensures Followed(g, x)
  {
    FollowedStays(f, a, g, b, x);
  }

  lemma DoneIsClosed(f: Forest, labels: map<string, Ptr>, x: Item, i: Instr<string>, pending: set<Item>)
    requires ClosedBut(f, labels, pending + {x}) && x in Nodes(f) && BodyOf(f, x) == Instruction(i)
    requires AllMet(f, labels, CallDemands(i), |CallDemands(i)|) && AllMet(f, labels, ParamsDemands(i.params), |ParamsDemands(i.params)|)
    requires FallsThrough(i) ==> Followed(f, x)
    ensures ClosedBut(f, labels, pending)
  {
    hide Met, BodyOf, Nodes, Followed, ParamsDemands, ClosedBut;
    var ds := Demands(i);
    forall j | 0 <= j < |ds|
      ensures Met(f, labels, ds[j])
    {
      var n := |CallDemands(i)|;
      assert ds[j] == if j < n then CallDemands(i)[j] else ParamsDemands(i.params)[j - n];
    }
    Finished(f, labels, pending, x);
  }

  lemma NoParamsMet(f: Forest, a: map<string, Ptr>, ps: seq<P.Param<string>>)
    ensures AllMet(f, a, ParamsDemands(ps[..0]), |ParamsDemands(ps[..0])|)
  {
  }

  lemma {:induction false} ParamDemanded(i: Instr<string>, k: nat)
    requires k < |i.params|
    ensures |ParamDemands(i.params[k])| <= 1
    ensures forall d :: d in ParamDemands(i.params[k]) ==> d in Demands(i)
  {
    ParamInAll(i.params, k);
  }

  lemma {:induction false} ParamInAll(ps: seq<P.Param<string>>, k: nat)
    requires k < |ps|
    ensures forall d :: d in ParamDemands(ps[k]) ==> d in ParamsDemands(ps)
    decreases |ps|
  {
    if k < |ps| - 1 {
      ParamInAll(ps[..|ps| - 1], k);
    }
  }

  lemma MoreMet(f: Forest, a: map<string, Ptr>, g: Forest, b: map<string, Ptr>, ps: seq<P.Param<string>>, k: nat)
    requires k < |ps| && Onward(f, a, g, b) && AllMet(f, a, ParamsDemands(ps[..k]), |ParamsDemands(ps[..k])|)
    requires |ParamDemands(ps[k])| <= 1 && (ParamDemands(ps[k]) != [] ==> Met(g, b, ParamDemands(ps[k])[0]))
    ensures AllMet(g, b, ParamsDemands(ps[..k + 1]), |ParamsDemands(ps[..k + 1])|)
  {
    hide Onward, Met, ParamDemands;
    AllMetStays(f, a, g, b, ParamsDemands(ps[..k]), |ParamsDemands(ps[..k])|);
    assert ps[..k + 1][..k] == ps[..k] && ps[..k + 1][k] == ps[k];
  }

  lemma ServedMet(f: Forest, a: map<string, Ptr>, p: Ptr, d: Demand, g: Forest, b: map<string, Ptr>)
    requires d.lbl in a && a[d.lbl] == p
    requires Served(if d.Code? then Code("") else Datum(""), f, a, p.item, p.offset, g, b)
    ensures Met(g, b, d)
  {
  }

  lemma FailedHalted(f: Forest, a: map<string, Ptr>, p: Ptr, d: Demand, g: Forest, b: map<string, Ptr>, gs: Guesses)
    requires d.lbl in a && a[d.lbl] == p
    requires Failed(if d.Code? then Code("") else Datum(""), f, a, p.item, p.offset, g, b, gs)
    ensures Halted(f, a, d, g, b, gs)
  {
    hide BodyOf, Nodes, ReadInstr, ReadData, Refused;
  }

  lemma HaltedRefused(f: Forest, a: map<string, Ptr>, d: Demand, g: Forest, b: map<string, Ptr>, gs: Guesses, x: Item, i: Instr<string>)
    requires Halted(f, a, d, g, b, gs) && d in Demands(i) && x in Nodes(f) && BodyOf(f, x) == Instruction(i)
    ensures Refused(g, b, gs)
  {
    hide BodyOf, Nodes, Demands, StuckAt, Refused;
    if !Refused(g, b, gs) {
      RefusedByDemand(g, b, gs, x, i, d);
    }
  }

  lemma OtherThere(f: Forest, a: map<string, Ptr>, d: Demand, gs: Guesses)
    requires d.lbl in a
    requires var b := BodyOf(f, a[d.lbl].item); !b.Raw? && (a[d.lbl].offset != 0 || !Accepts(d, b))
    ensures Halted(f, a, d, f, a, gs)
  {
    hide BodyOf, Nodes, Refused;
  }

  lemma ServedFollows(f: Forest, a: map<string, Ptr>, x: Item, i: Instr<string>, raw: Item, g: Forest, b: map<string, Ptr>)
    requires x in Nodes(f) && BodyOf(f, x) == Instruction(i) && Behind(f, x).Cons? && Behind(f, x).item == raw
    requires Served(Code(""), f, a, raw, 0, g, b) && Onward(f, a, g, b)
    ensures Followed(g, x)
  {
    hide Onward;
    assert Behind(g, x) == Behind(g, x);
  }

  lemma FailedNext(f: Forest, a: map<string, Ptr>, raw: Item, g: Forest, b: map<string, Ptr>, gs: Guesses, x: Item, i: Instr<string>)
    requires x in Nodes(f) && BodyOf(f, x) == Instruction(i) && FallsThrough(i) && Behind(f, x).Cons? && Behind(f, x).item == raw
    requires Failed(Code(""), f, a, raw, 0, g, b, gs)
    ensures Refused(g, b, gs)
  {
    hide BodyOf, Nodes, Demands, ReadInstr, ReadData, Refused, Stuck, Behind;
    if !Refused(g, b, gs) {
      RefusedByNext(g, b, gs, x, i);
    }
  }

  lemma NextOther(f: Forest, a: map<string, Ptr>, gs: Guesses, x: Item, i: Instr<string>)
    requires x in Nodes(f) && BodyOf(f, x) == Instruction(i) && FallsThrough(i) && Behind(f, x).Cons?
    requires var b := BodyOf(f, Behind(f, x).item); !b.Raw? && !b.Instruction?
    ensures Refused(f, a, gs)
  {
    hide BodyOf, Nodes, Demands, Refused, Behind;
    RefusedByNext(f, a, gs, x, i);
  }

  /** The tree of a file that has only been cut at its end. */
  ghost predicate Fresh(f: Forest) {
    forall n {:trigger n in Nodes(f)} :: n in Nodes(f) ==> BodyOf(f, n).Eof? || (BodyOf(f, n).Raw? && Own(BodyOf(f, n)) > 0)
  }

  /** The whole file is one raw item, behind it the end mark. */
  ghost predicate Started(f: Forest, file: seq<byte>) {
    file != [] ==> f.Cons? && f.kids.Nil? && f.body.Raw? && f.body.view.Valid() && f.body.view.Bytes() == file && f.rest.Cons? && f.rest == Cons(f.rest.item, Eof, Nil, Nil)
  }

  lemma StartPieces(raw: Item, view: I.View, eof: Item, rest: Item, pos: Positions, gs: Guesses)
    requires view.Valid() && eof != raw && rest != raw && rest != eof
    ensures var g := SplitForest(raw, view, view.size, eof, Eof, rest);
            && Swap(Cons(raw, Raw(view), Nil, Nil), raw, g) == g && Nodes(g) <= {raw, eof}
            && Fresh(g) && Faithful(g, 0, pos, view.Bytes()) && AllGuessed(gs, g) && Started(g, view.Bytes())
  {
    var g := SplitForest(raw, view, view.size, eof, Eof, rest);
    AppendNil(g);
    EofFaithful(eof, view.size, pos, view.Bytes());
    StringGuessed(gs, eof, Eof);
    NilMeans({});
    LoneMeans(eof, Eof, Nil, Nil, eof);
    if view.size > 0 {
      LoneMeans(raw, Raw(view.Slice(0, view.size)), Nil, Cons(eof, Eof, Nil, Nil), eof);
      NilGuessed(gs);
      RawGuessed(gs, Raw(view.Slice(0, view.size)), Nil);
      var whole := view.Bytes();
      assert whole[0..view.size] == whole;
      WindowFaithful(raw, view, 0, view.size, Cons(eof, Eof, Nil, Nil), 0, pos, whole);
    }
  }

  lemma EofFaithful(eof: Item, at: nat, pos: Positions, file: seq<byte>)
    requires at <= |file|
    ensures Faithful(Cons(eof, Eof, Nil, Nil), at, pos, file)
  {
    hide InstrBytes;
    assert file[at..at] == [];
  }

  lemma FreshClosed(ctx: Context, gs: Guesses)
    requires ctx.Core() && |ctx.file| in ctx.pmap && Fresh(ctx.shape) && AllGuessed(gs, ctx.shape) && Faithful(ctx.shape, 0, PositionsOf(ctx.labels), ctx.file)
    ensures Visitable(ctx, gs, {})
  {
    hide Live, Placed, Leaves, Size, AllRefsKnown, Own, Nodes, Distinct, BodyOf, Faithful;
    forall n | n in ctx.repr && n.body.Raw?
      ensures Own(n.body) > 0
    {
      BodyIs(ctx, n);
    }
  }

  lemma OpenReady(ctx: Context, root: Item, src: I.View, eof: Item)
    requires ctx.Shaped() && ctx.Labelled() && ctx.shape == Cons(root, Raw(src), Nil, Nil) && ctx.repr == {root} && ctx.pmap == map[0 := root]
    requires ctx.labels == map[] && src.Valid() && ctx.file == src.Bytes() && root.position == 0 && eof.body == Eof && eof.children == [] && eof != root && eof != ctx.root
    ensures ctx.CanSplit(root, src.size, eof) && root.body == Raw(src) && root.parent == ctx.root
  {
    RawSize(root.body);
    OneSize(root, src);
  }

  lemma OneSize(root: Item, src: I.View)
    ensures Size(Cons(root, Raw(src), Nil, Nil)) == src.size
    ensures root.position == 0 ==> Placed(Cons(root, Raw(src), Nil, Nil), 0)
  {
  }

  /** The file as one raw item and the end mark. */
  method Open(src: I.View, ghost gs: Guesses, ghost starts: Starts) returns (ctx: Context)
    requires src.Valid()
    ensures fresh(ctx) && fresh(ctx.root) && fresh(ctx.repr) && ctx.file == src.Bytes() && Visitable(ctx, gs, {}) && ctx.labels == map[]
    ensures Started(ctx.shape, src.Bytes()) && ctx.starts == starts
  {
    hide Live, Placed, Leaves, Leaf, Size, AllRefsKnown, Swap, Nodes, Distinct, SplitForest, BodyOf, Faithful, Fresh, ClosedBut, AllGuessed, Started, LabelsSplit, PositionsOf, Own;
    hide ctx.Core, ctx.CanSplit, ctx.Shaped;
    ctx := new Context(src.Bytes(), starts);
    var root := new Item(Raw(src));
    var eof := new Item(Eof);
    WholeItem(src);
    ctx.SetupParseFrom(root);
    OpenReady(ctx, root, src, eof);
    CutEnd(ctx, gs, root, src, eof);
    FreshClosed(ctx, gs);
  }

  /** Cuts the end mark off. */
  method CutEnd(ctx: Context, ghost gs: Guesses, raw: Item, src: I.View, eof: Item)
    requires ctx.CanSplit(raw, src.size, eof) && raw.parent == ctx.root && raw.body == Raw(src) && src.Valid() && eof.body == Eof
    requires ctx.shape == Cons(raw, Raw(src), Nil, Nil) && ctx.repr == {raw} && ctx.labels == map[] && ctx.pmap.Keys == {0} && ctx.file == src.Bytes() && raw.position == 0
    modifies ctx, ctx.root, ctx.repr, eof`position, eof`parent
    ensures ctx.repr <= {raw, eof} && ctx.labels == map[] && ctx.Core() && |ctx.file| in ctx.pmap
    ensures Fresh(ctx.shape) && Faithful(ctx.shape, 0, PositionsOf(ctx.labels), ctx.file) && AllGuessed(gs, ctx.shape) && Started(ctx.shape, ctx.file)
  {
    hide Live, Placed, Leaves, Leaf, Size, AllRefsKnown, Swap, Nodes, Distinct, SplitForest, BodyOf, Faithful, Fresh, ClosedBut, AllGuessed, Started, LabelsSplit, PositionsOf;
    hide ctx.Core, ctx.CanSplit;
    ghost var rest := ctx.Split2(raw, src.size, eof);
    NoLabels(ctx.labels);
    StartPieces(raw, src, eof, rest, PositionsOf(ctx.labels), gs);
  }

  lemma NoLabels(labels: map<string, Ptr>)
    ensures labels.Keys == {} ==> labels == map[]
  {
  }

  lemma WholeItem(src: I.View)
    requires src.Valid()
    ensures BodyOk(Raw(src)) && Own(Raw(src)) == |src.Bytes()| && RefsKnown(Raw(src), {})
  {
  }
}
