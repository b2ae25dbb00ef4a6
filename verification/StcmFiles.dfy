/** STCM files: from bytes and an export table to a closed tree that dumps the same bytes, and relinking after edits. */
module StcmFiles {
  import opened Bytes
  import opened Words
  import I = Items
  import P = StcmParams
  import G = GbnlCodec
  import GF = GbnlFiles
  import GR = GbnlReparse
  import opened StcmInstructions
  import opened StcmFormat
  import opened StcmStrings
  import opened Trees
  import opened Relink
  import opened TreeHeaps
  import opened StcmContexts
  import opened StcmClosure
  import opened StcmCuts
  import opened Stcm
  import opened StcmScripts

  /** A named entry point or table. */
  datatype Export = Export(isCode: bool, name: string, offset: nat)

  function Wanted(e: Export, l: string): Demand {
    if e.isCode then Code(l) else Datum(l)
  }

  /** The strings of a tree that leave four zeros out. */
  ghost function Padded(f: Forest): nat {
    match f
    case Nil => 0
    case Cons(_, b, kids, rest) => (if b.StringData? && b.lost != 0 then 1 else 0) + Padded(kids) + Padded(rest)
  }

  lemma {:induction false} PaddedSize(f: Forest, at: nat, pos: Positions, file: seq<byte>)
    requires Faithful(f, at, pos, file)
    ensures Size(Tight(f)) + 4 * Padded(f) == Size(f)
  {
    hide OwnBytes, StringThere, Rounded;
    if f.Cons? {
      PaddedSize(f.kids, at + Own(f.body), pos, file);
      PaddedSize(f.rest, at + Own(f.body) + Size(f.kids), pos, file);
      if f.body.StringData? {
        LostFour(f.body.str, f.body.lost, at, file);
      }
    }
  }

  lemma LostFour(str: seq<byte>, lost: nat, at: nat, file: seq<byte>)
    requires StringThere(str, lost, at, file)
    ensures lost == 0 || lost == 4
  {
    hide DataHeader, Holds;
    var child := str + Zeros(Rounded(|str|) + lost - |str|);
    var unit: P.word :| HoldsString(unit, str, child);
    TruncFour(unit);
    RoundedSize(|str|, |child|);
  }

  /** What the tree is dumped as: the file without four bytes for every string that had so many zeros too many,
      and the file itself if and only if every item dumps what it stands for. */
  lemma DumpsFile(ctx: Context, gs: Guesses, pending: set<Item>)
    requires Visitable(ctx, gs, pending)
    ensures var dump := Image(Tight(ctx.shape), PositionsOf(ctx.labels));
            && |dump| + 4 * Padded(ctx.shape) == |ctx.file| && |dump| == ctx.Total()
            && (dump == ctx.file <==> AllExact(ctx.shape, 0, ctx.file))
  {
    hide ClosedBut, AllGuessed, Faithful, Live, Distinct, Placed, AllRefsKnown, Image, AllExact, Padded;
    FileExact(ctx.shape, PositionsOf(ctx.labels), ctx.file);
    PaddedSize(ctx.shape, 0, PositionsOf(ctx.labels), ctx.file);
  }

  /** Without strings and tables the dump is the file. */
  lemma {:induction false} PlainExact(f: Forest, at: nat, file: seq<byte>)
    requires forall n {:trigger n in Nodes(f)} :: n in Nodes(f) ==> !Sub(f, n).body.StringData? && !Sub(f, n).body.Table?
    requires Distinct(f)
    ensures AllExact(f, at, file)
  {
    hide Own;
    if f.Cons? {
      forall n | n in Nodes(f.kids) || n in Nodes(f.rest)
        ensures n in Nodes(f.kids) ==> Sub(f.kids, n).body == Sub(f, n).body
        ensures n in Nodes(f.rest) ==> Sub(f.rest, n).body == Sub(f, n).body
      {
      }
      assert f.item in Nodes(f) && Sub(f, f.item).body == f.body;
      forall n | n in Nodes(f.kids)
        ensures !Sub(f.kids, n).body.StringData? && !Sub(f.kids, n).body.Table?
      {
        assert n in Nodes(f);
      }
      forall n | n in Nodes(f.rest)
        ensures !Sub(f.rest, n).body.StringData? && !Sub(f.rest, n).body.Table?
      {
        assert n in Nodes(f);
      }
      PlainExact(f.kids, at + Own(f.body), file);
      PlainExact(f.rest, at + Own(f.body) + Size(f.kids), file);
    }
  }

  /** What a table is read from and written as. */
  function TableOf(b: seq<byte>): Option<seq<byte>> {
    match GF.Parsed(b)
    case None => None
    case Some(t) => if GF.Rows(t.types, t.messages) then Some(GF.Dumped(t)) else None
  }

  /** The dump of a well-formed GBIN table whose records do not begin with GST is written as it was. */
  lemma TableStays(t: G.Table)
    requires GF.WellFormed(t) && GF.Current(t) && !t.isGstl
    ensures GF.Rows(t.types, t.messages) && |GF.Dumped(t)| >= 64
    ensures GF.Dumped(t)[..3] != G.Gst() ==> TableOf(GF.Dumped(t)) == Some(GF.Dumped(t))
  {
    hide GF.WellFormed, GF.Current, GF.Dumped, GF.Parsed, GF.Rows;
    GR.Reparsed(t);
  }

  /** The labels of the first exports exist and are where they should be. */
  ghost predicate Labels(labels: map<string, Ptr>, pos: Positions, exports: seq<Export>, ls: seq<string>) {
    |ls| <= |exports| && forall j {:trigger ls[j]} :: 0 <= j < |ls| ==> ls[j] in labels && ls[j] in pos && pos[ls[j]] == exports[j].offset
  }

  /** The first exports have been disassembled. */
  ghost predicate Exported(f: Forest, labels: map<string, Ptr>, exports: seq<Export>, ls: seq<string>, n: nat) {
    n <= |ls| == |exports| && forall j {:trigger ls[j]} :: 0 <= j < n ==> Met(f, labels, Wanted(exports[j], ls[j]))
  }

  lemma LabelsStay(a: map<string, Ptr>, pos: Positions, b: map<string, Ptr>, pos': Positions, exports: seq<Export>, ls: seq<string>)
    requires Labels(a, pos, exports, ls) && Agree(a.Keys, pos, pos') && a.Keys <= b.Keys
    ensures Labels(b, pos', exports, ls)
  {
  }

  lemma ExportedStays(f: Forest, a: map<string, Ptr>, g: Forest, b: map<string, Ptr>, exports: seq<Export>, ls: seq<string>, n: nat)
    requires Onward(f, a, g, b) && Exported(f, a, exports, ls, n)
    ensures Exported(g, b, exports, ls, n) && a.Keys <= b.Keys
  {
    hide Met;
    forall j | 0 <= j < n
      ensures Met(g, b, Wanted(exports[j], ls[j]))
    {
      MetStays(f, a, g, b, Wanted(exports[j], ls[j]));
    }
  }

  /** Names the exports. */
  method LabelExports(ctx: Context, ghost gs: Guesses, exports: seq<Export>) returns (ls: seq<string>)
    requires Visitable(ctx, gs, {})
    modifies ctx`labels
    ensures Visitable(ctx, gs, {}) && |ls| == |exports| && Labels(ctx.labels, PositionsOf(ctx.labels), exports, ls)
    ensures forall l :: l in ctx.labels ==> l in old(ctx.labels) || l in ls
  {
    hide Faithful, ClosedBut, Agree, AllGuessed;
    hide ctx.Core;
    ls := [];
    for k := 0 to |exports|
      invariant Visitable(ctx, gs, {}) && |ls| == k && Labels(ctx.labels, PositionsOf(ctx.labels), exports, ls)
      invariant forall l :: l in ctx.labels ==> l in old(ctx.labels) || l in ls
    {
      ghost var a, pos := ctx.labels, PositionsOf(ctx.labels);
      Refs(ctx, gs);
      var l;
      ghost var i;
      l, i := ctx.CreateLabelFallback(exports[k].name, exports[k].offset);
      AfterLabels(ctx, ctx.shape, a, pos, {});
      LabelsStay(a, pos, ctx.labels, PositionsOf(ctx.labels), exports, ls);
      ls := ls + [l];
    }
  }

  lemma Refs(ctx: Context, gs: Guesses)
    requires Visitable(ctx, gs, {})
    ensures AllRefsKnown(ctx.shape, ctx.labels.Keys)
  {
  }

  /** Why disassembly stops early: an instruction or an export asks for something that is not there. */
  ghost predicate Unserved(f: Forest, labels: map<string, Ptr>, exports: seq<Export>, ls: seq<string>, gs: Guesses) {
    || Refused(f, labels, gs)
    || exists j {:trigger ls[j]} :: 0 <= j < |ls| && j < |exports| && StuckAt(f, labels, Wanted(exports[j], ls[j]))
  }

  lemma HaltedUnserved(f: Forest, a: map<string, Ptr>, g: Forest, b: map<string, Ptr>, exports: seq<Export>, ls: seq<string>, k: nat, gs: Guesses)
    requires k < |ls| == |exports| && Halted(f, a, Wanted(exports[k], ls[k]), g, b, gs)
    ensures Unserved(g, b, exports, ls, gs)
  {
    hide Refused, StuckAt;
  }

  lemma ExportedNext(f: Forest, labels: map<string, Ptr>, exports: seq<Export>, ls: seq<string>, k: nat)
    requires Exported(f, labels, exports, ls, k) && k < |ls| && Met(f, labels, Wanted(exports[k], ls[k]))
    ensures Exported(f, labels, exports, ls, k + 1)
  {
    hide Met;
  }

  lemma LabelThere(labels: map<string, Ptr>, pos: Positions, exports: seq<Export>, ls: seq<string>, k: nat)
    requires Labels(labels, pos, exports, ls) && k < |ls|
    ensures Wanted(exports[k], ls[k]).lbl in labels
  {
  }

  lemma NoneExported(f: Forest, labels: map<string, Ptr>, exports: seq<Export>, ls: seq<string>)
    requires |ls| == |exports|
    ensures Exported(f, labels, exports, ls, 0)
  {
  }

  /** Where the exports are. */
  ghost function StartsOf(exports: seq<Export>): Starts {
    Starts(set j | 0 <= j < |exports| && exports[j].isCode :: exports[j].offset, set j | 0 <= j < |exports| && !exports[j].isCode :: exports[j].offset)
  }

  lemma ExportSought(file: seq<byte>, labels: map<string, Ptr>, pos: Positions, exports: seq<Export>, ls: seq<string>, k: nat)
    requires Labels(labels, pos, exports, ls) && k < |ls|
    ensures SoughtAt(file, StartsOf(exports), pos, Wanted(exports[k], ls[k]))
  {
    hide CodeSought, DataSought;
    Began(file, StartsOf(exports), exports[k].offset);
    assert pos[ls[k]] == exports[k].offset;
  }

  /** All there is to a file is one data item, and what is behind it. */
  predicate LoneData(exports: seq<Export>, size: nat) {
    |exports| == 1 && !exports[0].isCode && exports[0].offset < size
  }

  /** Then disassembly ends well exactly if its bytes can be made into something, which then is there. */
  ghost predicate LoneDone(ok: bool, gs: Guesses, exports: seq<Export>, ls: seq<string>, file: seq<byte>, f: Forest, labels: map<string, Ptr>) {
    LoneData(exports, |file|) && |ls| == 1 ==>
      var m := Becomes(gs, file[exports[0].offset..]);
      if ok then m.Some? && ls[0] in labels && BodyOf(f, labels[ls[0]].item) == m.value else m.None?
  }

  /** Where the label of a lone export leads before anything has been disassembled. */
  lemma LoneLanding(ctx: Context, gs: Guesses, exports: seq<Export>, ls: seq<string>)
    requires Visitable(ctx, gs, {}) && Started(ctx.shape, ctx.file) && LoneData(exports, |ctx.file|) && |ls| == 1
    requires Labels(ctx.labels, PositionsOf(ctx.labels), exports, ls) && forall l :: l in ctx.labels ==> l in ls
    ensures ls[0] in ctx.labels
    ensures var p := ctx.labels[ls[0]];
            p.item.body.Raw? && BytesFrom(p.item, p.offset) == ctx.file[exports[0].offset..] && !PointedInto(ctx.labels, p.item, p.offset)
  {
    hide AllRefsKnown, Faithful, ClosedBut, AllGuessed;
    var p, f := ctx.labels[ls[0]], ctx.shape;
    assert p.item in ctx.repr && p.item.position + p.offset == exports[0].offset;
    assert Nodes(f) == {f.item, f.rest.item};
    assert f.item.position == 0 && f.rest.item.position == f.body.view.size;
    assert p.item == f.item && f.item.body == f.body;
  }

  lemma LoneStands(ok: bool, gs: Guesses, exports: seq<Export>, ls: seq<string>, file: seq<byte>, a: map<string, Ptr>, f: Forest, b: map<string, Ptr>, m: Option<Body>)
    requires |ls| == 1 && ls[0] in a && LoneData(exports, |file|) && m == Becomes(gs, file[exports[0].offset..])
    requires !PointedInto(a, a[ls[0]].item, a[ls[0]].offset) && DataDone(ok, m, a, a[ls[0]].item, a[ls[0]].offset, f, b)
    ensures LoneDone(ok, gs, exports, ls, file, f, b)
  {
    hide PointedInto, Becomes;
  }

  /** Code exports point to instructions and the others to data, at their offsets. */
  ghost predicate ExportsThere(ctx: Context, exports: seq<Export>, ls: seq<string>)
    reads ctx, ctx.repr
  {
    |ls| == |exports| && forall j {:trigger ls[j]} :: 0 <= j < |exports| ==>
      && (if exports[j].isCode then ToCode(ctx, ls[j]) else ToData(ctx, ls[j]))
      && ctx.labels[ls[j]].item.position == exports[j].offset
  }

  lemma ExportsFound(ctx: Context, gs: Guesses, exports: seq<Export>, ls: seq<string>)
    requires Visitable(ctx, gs, {}) && ctx.starts == StartsOf(exports) && Labels(ctx.labels, PositionsOf(ctx.labels), exports, ls)
    requires Exported(ctx.shape, ctx.labels, exports, ls, |exports|)
    ensures ExportsThere(ctx, exports, ls) && Begun(ctx)
  {
    hide Faithful, ClosedBut, AllRanged, AllSought, AllGuessed, Met, PositionsOf;
    hide ctx.Core;
    forall j | 0 <= j < |exports|
      ensures (if exports[j].isCode then ToCode(ctx, ls[j]) else ToData(ctx, ls[j])) && ctx.labels[ls[j]].item.position == exports[j].offset
    {
      assert Met(ctx.shape, ctx.labels, Wanted(exports[j], ls[j]));
      MetMeans(ctx, Wanted(exports[j], ls[j]));
    }
    BegunAt(ctx, exports, ls);
  }

  lemma BegunAt(ctx: Context, exports: seq<Export>, ls: seq<string>)
    requires ExportsThere(ctx, exports, ls) && ctx.starts == StartsOf(exports)
    ensures Begun(ctx)
  {
    forall t | t in ctx.starts.code
      ensures CodeAt(ctx, t)
    {
      var j :| 0 <= j < |exports| && exports[j].isCode && exports[j].offset == t;
      assert ToCode(ctx, ls[j]);
    }
    forall t | t in ctx.starts.data
      ensures DataAt(ctx, t)
    {
      var j :| 0 <= j < |exports| && !exports[j].isCode && exports[j].offset == t;
      assert ToData(ctx, ls[j]);
    }
  }

  lemma LoneFirst(exports: seq<Export>, size: nat, ls: seq<string>)
    requires LoneData(exports, size) && |ls| == |exports|
    ensures |ls| == 1 && exports[0].offset < size && Wanted(exports[0], ls[0]) == Datum(ls[0])
  {
  }

  lemma NotLone(gs: Guesses, exports: seq<Export>, ls: seq<string>, file: seq<byte>, f: Forest, labels: map<string, Ptr>)
    ensures !LoneData(exports, |file|) ==> forall ok :: LoneDone(ok, gs, exports, ls, file, f, labels)
    ensures exports == [] ==> !LoneData(exports, |file|)
  {
  }

  /** Disassembles a file from its exports on. */
  method Disassemble(src: I.View, gs: Guesses, exports: seq<Export>) returns (ctx: Context, ok: bool, ls: seq<string>)
    requires src.Valid()
    ensures ctx.file == src.Bytes() && ctx.Core()
    ensures ok ==> Visitable(ctx, gs, {}) && |Image(Tight(ctx.shape), PositionsOf(ctx.labels))| + 4 * Padded(ctx.shape) == |src.Bytes()|
    ensures ok ==> (Image(Tight(ctx.shape), PositionsOf(ctx.labels)) == src.Bytes() <==> AllExact(ctx.shape, 0, src.Bytes()))
    ensures ok ==> Labels(ctx.labels, PositionsOf(ctx.labels), exports, ls) && Exported(ctx.shape, ctx.labels, exports, ls, |exports|)
    ensures !ok ==> Unserved(ctx.shape, ctx.labels, exports, ls, gs)
    ensures |ls| == |exports| && LoneDone(ok, gs, exports, ls, src.Bytes(), ctx.shape, ctx.labels)
    ensures ok ==> ctx.starts == StartsOf(exports) && ExportsThere(ctx, exports, ls) && Scripted(ctx)
  {
    hide ExportsThere, Begun, Scripted, Faithful, ClosedBut, Agree, Onward, Met, RawBytes, Refused, StuckAt, Labels, Exported, Unserved, Halted, PositionsOf, Image, Wanted, AllExact, Padded, AllGuessed, Tight,
         Started, LoneData, LoneDone, DataDone, Becomes, BytesFrom, AllRanged, AllSought, SoughtAt, StartsOf;
    hide ctx.Core;
    ctx := Open(src, gs, StartsOf(exports));
    ls := LabelExports(ctx, gs, exports);
    NoneExported(ctx.shape, ctx.labels, exports, ls);
    NotLone(gs, exports, ls, src.Bytes(), ctx.shape, ctx.labels);
    for k := 0 to |exports|
      invariant ctx.file == src.Bytes() && ctx.starts == StartsOf(exports) && Visitable(ctx, gs, {}) && fresh(ctx) && fresh(ctx.root) && fresh(ctx.repr)
      invariant |ls| == |exports| && Labels(ctx.labels, PositionsOf(ctx.labels), exports, ls) && Exported(ctx.shape, ctx.labels, exports, ls, k)
      invariant k == 0 ==> Started(ctx.shape, src.Bytes()) && forall l :: l in ctx.labels ==> l in ls
      invariant k == |exports| ==> LoneDone(true, gs, exports, ls, src.Bytes(), ctx.shape, ctx.labels)
    {
      ghost var f, a, pos := ctx.shape, ctx.labels, PositionsOf(ctx.labels);
      LabelThere(a, pos, exports, ls, k);
      ExportSought(src.Bytes(), a, pos, exports, ls, k);
      ghost var lone := LoneData(exports, |src.Bytes()|);
      if lone {
        LoneFirst(exports, |src.Bytes()|, ls);
        LoneLanding(ctx, gs, exports, ls);
      }
      ghost var p := a[Wanted(exports[k], ls[k]).lbl];
      ok := MaybeCreate(ctx, gs, Wanted(exports[k], ls[k]), {});
      if lone {
        LoneStands(ok, gs, exports, ls, src.Bytes(), a, ctx.shape, ctx.labels, Becomes(gs, src.Bytes()[exports[0].offset..]));
      } else {
        NotLone(gs, exports, ls, src.Bytes(), ctx.shape, ctx.labels);
      }
      if !ok {
        HaltedUnserved(f, a, ctx.shape, ctx.labels, exports, ls, k, gs);
        return;
      }
      ExportedStays(f, a, ctx.shape, ctx.labels, exports, ls, k);
      ExportedNext(ctx.shape, ctx.labels, exports, ls, k);
      LabelsStay(a, pos, ctx.labels, PositionsOf(ctx.labels), exports, ls);
    }
    DumpsFile(ctx, gs, {});
    ExportsFound(ctx, gs, exports, ls);
    IsScripted(ctx, gs);
    ok := true;
  }

  /** A data item of eight bytes: three letters, zeros behind them. */
  function TextFile(): seq<byte> {
    DataHeader(0, 2, 1, 8) + [65, 66, 67, 0, 0, 0, 0, 0]
  }

  lemma TextBecomes(gs: Guesses)
    ensures |TextFile()| == 24 && Becomes(gs, TextFile()) == Some(StringData([65, 66, 67], 4))
  {
    hide DataHeader, GuessString, CStringIn;
    var child: seq<byte> := [65, 66, 67, 0, 0, 0, 0, 0];
    HeaderLength(0, 2, 1, 8);
    UnitOf(0, 2, 1, 8, child);
    var d := DataHead(0, 2, 1, 8);
    assert ReadData(TextFile()) == Some(d);
    assert TextFile()[16..16 + 8] == child;
    FourBytesLost();
    MadeMeans(gs, d, child);
  }

  lemma {:induction false} PaddedHere(f: Forest, n: Item)
    requires n in Nodes(f) && BodyOf(f, n).StringData? && BodyOf(f, n).lost != 0
    ensures Padded(f) > 0 && Size(Tight(f)) >= Weigh(BodyOf(f, n))
  {
    hide TightBody, Own;
    if f.item != n {
      if n in Nodes(f.kids) {
        PaddedHere(f.kids, n);
      } else {
        PaddedHere(f.rest, n);
      }
    }
  }

  lemma TextStands(ok: bool, gs: Guesses, exports: seq<Export>, ls: seq<string>, f: Forest, labels: map<string, Ptr>)
    requires LoneDone(ok, gs, exports, ls, TextFile(), f, labels) && LoneData(exports, 24) && exports[0].offset == 0 && |ls| == 1
    ensures ok && ls[0] in labels && BodyOf(f, labels[ls[0]].item) == StringData([65, 66, 67], 4)
  {
    hide Becomes, TextFile;
    TextBecomes(gs);
    assert TextFile()[0..] == TextFile();
  }

  lemma TextShort(f: Forest, n: Item, size: nat)
    requires n in Nodes(f) && BodyOf(f, n) == StringData([65, 66, 67], 4) && size + 4 * Padded(f) == 24 && size == Size(Tight(f))
    ensures size == 20
  {
    hide Tight, Padded, BodyOf;
    PaddedHere(f, n);
    assert Weigh(StringData([65, 66, 67], 4)) == 20;
  }

  /** Dumps a disassembled tree. */
  method DumpAgain(ctx: Context, ghost gs: Guesses) returns (out: seq<byte>)
    requires Visitable(ctx, gs, {})
    ensures |out| + 4 * Padded(ctx.shape) == |ctx.file| && |out| == Size(Tight(ctx.shape))
    ensures out == ctx.file <==> AllExact(ctx.shape, 0, ctx.file)
  {
    hide Image, Tight, AllExact, Padded, PositionsOf, Faithful, ClosedBut, AllGuessed;
    out := ctx.Dump();
    DumpsFile(ctx, gs, {});
  }

  /** A whole file that is disassembled and dumped four bytes shorter. */
  method TextLost(gs: Guesses, name: string) returns (ok: bool, out: seq<byte>)
    ensures ok && |TextFile()| == 24 && |out| == 20
  {
    hide Visitable, Tight, AllExact, Padded, Labels, Exported, Unserved, LoneDone, TextFile;
    var file := TextFile();
    TextBecomes(gs);
    var src := I.View(file, 0, |file|);
    assert src.Bytes() == file;
    var exports := [Export(false, name, 0)];
    var ctx, ls;
    ctx, ok, ls := Disassemble(src, gs, exports);
    TextStands(ok, gs, exports, ls, ctx.shape, ctx.labels);
    LoneIn(ctx, ls);
    out := DumpAgain(ctx, gs);
    TextShort(ctx.shape, ctx.labels[ls[0]].item, |out|);
  }

  lemma LoneIn(ctx: Context, ls: seq<string>)
    requires ctx.Core() && |ls| == 1 && ls[0] in ctx.labels
    ensures ctx.labels[ls[0]].item in Nodes(ctx.shape)
  {
  }

  /** In a closed tree every code or data label of an instruction is the file position of such an item, or of a
      string made of one. */
  lemma TargetsStand(ctx: Context, gs: Guesses, n: Item, i: Instr<string>, d: Demand)
    requires Visitable(ctx, gs, {}) && n in ctx.repr && n.body == Instruction(i) && d in Demands(i)
    ensures d.lbl in ctx.labels && ctx.labels[d.lbl].item in ctx.repr && Suits(d, ctx.labels[d.lbl].item.body)
    ensures At(PositionsOf(ctx.labels), d.lbl) == ctx.labels[d.lbl].item.position
  {
    hide Live, Placed, Distinct, Leaves, Nodes, Heads, Size, AllRefsKnown, Faithful, BodyOf, Demands;
    BodyIs(ctx, n);
    assert Closed(ctx.shape, ctx.labels, n);
    var j :| 0 <= j < |Demands(i)| && Demands(i)[j] == d;
    assert Met(ctx.shape, ctx.labels, Demands(i)[j]);
    BodyIs(ctx, ctx.labels[d.lbl].item);
  }

  /** The state of an edited tree once its positions have been recomputed. */
  ghost predicate Linked(ctx: Context)
    reads ctx, ctx.root, ctx.repr
  {
    ctx.Shaped() && ctx.Labelled() && Placed(Tight(ctx.shape), 0)
  }

  ghost function Whole(ctx: Context): seq<byte>
    requires Linked(ctx)
    reads ctx, ctx.root, ctx.repr
  {
    Image(Tight(ctx.shape), PositionsOf(ctx.labels))
  }

  ghost function SizeOf(ctx: Context, n: Item): nat
    requires Linked(ctx) && n in ctx.repr
    reads ctx, ctx.root, ctx.repr
  {
    Weigh(n.body) + Size(Sub(Tight(ctx.shape), n).kids)
  }

  /** Every item dumps as many bytes as its size says, and they are in the file where its position says. */
  lemma ItemRelinked(ctx: Context, n: Item)
    requires Linked(ctx) && n in ctx.repr
    ensures |Whole(ctx)| == Size(Tight(ctx.shape)) && Sub(Tight(ctx.shape), n).body == TightBody(n.body)
    ensures var image := Image(Sub(Tight(ctx.shape), n), PositionsOf(ctx.labels));
            Holds(Whole(ctx), n.position, image) && |image| == SizeOf(ctx, n)
    ensures var s := Sub(Tight(ctx.shape), n);
            Image(s, PositionsOf(ctx.labels)) == OwnBytes(s.body, SizeOf(ctx, n), PositionsOf(ctx.labels)) + Image(s.kids, PositionsOf(ctx.labels))
  {
    hide Live, Placed, Distinct, Leaves, Heads, AllRefsKnown, OwnBytes, Holds, Own;
    var pos, f := PositionsOf(ctx.labels), Tight(ctx.shape);
    TightSame(ctx.shape);
    TightTwice(ctx.shape);
    DumpedAtStart(f, n, pos);
    PlacedAtStart(f, n, 0);
    SubTight(ctx.shape, n);
    SubLive(ctx.shape, ctx.root, n);
    ImageLength(f, pos);
    TightTwice(Sub(ctx.shape, n));
    ImageLength(Sub(f, n), pos);
    FirstImage(Sub(f, n), pos);
    LoneSize(Sub(f, n));
  }

  lemma {:induction false} SubTight(f: Forest, n: Item)
    ensures Sub(Tight(f), n) == Tight(Sub(f, n))
  {
    hide TightBody;
    if f.Cons? {
      TightSame(f.kids);
      SubTight(f.kids, n);
      SubTight(f.rest, n);
    }
  }

  lemma LoneSize(f: Forest)
    requires f.Cons? && f.rest.Nil?
    ensures Size(f) == Own(f.body) + Size(f.kids)
  {
  }

  /** Where its position says, an item is written word by word. */
  lemma ItemWritten(ctx: Context, n: Item)
    requires Linked(ctx) && n in ctx.repr
    ensures Written(n.body, Whole(ctx), n.position, SizeOf(ctx, n), PositionsOf(ctx.labels))
  {
    hide Live, Placed, Distinct, Leaves, Heads, AllRefsKnown, OwnBytes, Holds, Own, StcmFormat.Written, RefsKnown, BodyOk;
    var f, pos := Tight(ctx.shape), PositionsOf(ctx.labels);
    ItemRelinked(ctx, n);
    PartKnown(ctx, n);
    var s := Sub(f, n);
    HeldFirst(Whole(ctx), n.position, OwnBytes(s.body, SizeOf(ctx, n), pos), Image(s.kids, pos));
    HeldWritten(s.body, Whole(ctx), n.position, SizeOf(ctx, n), pos);
    LooseWritten(n.body, Whole(ctx), n.position, SizeOf(ctx, n), pos);
  }

  lemma HeldFirst(whole: seq<byte>, at: nat, own: seq<byte>, kids: seq<byte>)
    requires Holds(whole, at, own + kids)
    ensures Holds(whole, at, own)
  {
    SplitSlice(whole, at, own, kids);
  }

  lemma LooseWritten(b: Body, file: seq<byte>, p: nat, size: nat, pos: Positions)
    requires Written(TightBody(b), file, p, size, pos)
    ensures Written(b, file, p, size, pos)
  {
    hide Holds, SaysInstr, Ranged, DataWords, ZerosFrom;
  }

  lemma PartKnown(ctx: Context, n: Item)
    requires Linked(ctx) && n in ctx.repr
    ensures BodyOk(TightBody(n.body)) && RefsKnown(TightBody(n.body), PositionsOf(ctx.labels).Keys)
  {
    hide Live, Placed, Distinct, Leaves, Heads, AllRefsKnown, BodyOk, RefsKnown, BodyOf;
    BodyIs(ctx, n);
    RefsOf(ctx.shape, n, ctx.labels.Keys);
    TightSame(ctx.shape);
    SubLeaves(Tight(ctx.shape), n);
    SubLive(ctx.shape, ctx.root, n);
    SubTight(ctx.shape, n);
    LooseKnown(n.body, ctx.labels.Keys);
    assert Sub(Tight(ctx.shape), n).body == TightBody(n.body);
    assert RefsKnown(n.body, ctx.labels.Keys);
    assert PositionsOf(ctx.labels).Keys == ctx.labels.Keys;
  }

  lemma LooseKnown(b: Body, known: set<string>)
    ensures RefsKnown(b, known) ==> RefsKnown(TightBody(b), known)
  {
    hide ParamsKnown;
  }

  /** The file position of a label is where the dump of its item starts, plus its offset. */
  lemma LabelRelinked(ctx: Context, l: string)
    requires Linked(ctx) && l in ctx.labels
    ensures var p := ctx.labels[l];
            && p.item in ctx.repr && At(PositionsOf(ctx.labels), l) == Start(Tight(ctx.shape), p.item) + p.offset
            && Holds(Whole(ctx), Start(Tight(ctx.shape), p.item), Image(Sub(Tight(ctx.shape), p.item), PositionsOf(ctx.labels)))
  {
    hide Live, Placed, Distinct, Leaves, Heads, AllRefsKnown, OwnBytes, Holds, Own, Image;
    ItemRelinked(ctx, ctx.labels[l].item);
    PlacedAtStart(Tight(ctx.shape), ctx.labels[l].item, 0);
  }

  lemma HeldAhead(whole: seq<byte>, at: nat, own: seq<byte>, kids: seq<byte>)
    requires Holds(whole, at, own + kids)
    ensures at + |own| + |kids| <= |whole| && whole[at..] == own + whole[at + |own|..]
  {
    SplitSlice(whole, at, own, kids);
  }

  /** Reading an instruction of the dumped file gives it back, with its targets where they are now, exactly
      when everything in it is in range. */
  lemma InstructionRelinked(ctx: Context, n: Item, i: Instr<string>)
    requires Linked(ctx) && n in ctx.repr && n.body == Instruction(i)
    ensures n.position <= |Whole(ctx)|
    ensures var r := Read(Resolve(i, PositionsOf(ctx.labels)), SizeOf(ctx, n));
            ReadInstr(Whole(ctx)[n.position..], |Whole(ctx)|) == Some(r) <==> Fits(r, |Whole(ctx)| - n.position, |Whole(ctx)|)
  {
    hide Live, Placed, Distinct, Leaves, Heads, AllRefsKnown, InstrBytes, Holds, Image, Resolve, ReadInstr, Size, Sub, StcmInstructions.Fits;
    ItemRelinked(ctx, n);
    var whole, pos := Whole(ctx), PositionsOf(ctx.labels);
    var r := Read(Resolve(i, pos), SizeOf(ctx, n));
    var own := InstrBytes(r.instr, r.size);
    HeldAhead(whole, n.position, own, Image(Sub(Tight(ctx.shape), n).kids, pos));
    InstrLength(r.instr, r.size);
    DumpReadsSame(r, whole[n.position + |own|..], |whole|);
  }

  /** So it is for a data item. */
  lemma DataRelinked(ctx: Context, n: Item)
    requires Linked(ctx) && n in ctx.repr && n.body.Data?
    ensures n.position <= |Whole(ctx)| && SizeOf(ctx, n) >= 16
    ensures var d := DataHead(n.body.kind, n.body.offsetUnit, n.body.field8, SizeOf(ctx, n) - 16);
            ReadData(Whole(ctx)[n.position..]) == Some(d) <==> d.kind < 0xff && d.length < 0x1_0000_0000
  {
    hide Live, Placed, Distinct, Leaves, Heads, AllRefsKnown, Holds, Image, ReadData, Size, Sub, EncWords;
    ItemRelinked(ctx, n);
    var whole, pos := Whole(ctx), PositionsOf(ctx.labels);
    var d := DataHead(n.body.kind, n.body.offsetUnit, n.body.field8, SizeOf(ctx, n) - 16);
    var own := DataHeader(d.kind, d.offsetUnit, d.field8, P.Trunc(d.length));
    HeldAhead(whole, n.position, own, Image(Sub(Tight(ctx.shape), n).kids, pos));
    Sums();
    WordsLength(true, HeaderWords, [d.kind as nat, d.offsetUnit, d.field8, P.Trunc(d.length)]);
    DataReads(d, whole[n.position + 16..]);
  }

  /** A string is read as a data item again that is taken for the same string, exactly if it holds no zero, has at
      least four letters, and its size fits 32 bits. */
  lemma StringRelinked(ctx: Context, n: Item)
    requires Linked(ctx) && n in ctx.repr && n.body.StringData?
    ensures var str, at, whole := n.body.str, n.position, Whole(ctx);
            var len := Rounded(|str|);
            && at + 16 + len <= |whole|
            && (ReadData(whole[at..]) == Some(DataHead(0, P.Trunc(len / 4), 1, len))
                && GuessString(0, P.Trunc(len / 4), 1, whole[at + 16..at + 16 + len]) == AsString(str)
                <==> 0 !in str && 4 <= |str| && len < 0x1_0000_0000)
  {
    hide Live, Placed, Distinct, Leaves, Heads, AllRefsKnown, Holds, Image, ReadData, Size, Sub, EncWords, Rounded, GuessString, DataHeader, Own;
    ItemRelinked(ctx, n);
    var whole, pos, str := Whole(ctx), PositionsOf(ctx.labels), n.body.str;
    var len := Rounded(|str|);
    var d := DataHead(0, P.Trunc(len / 4), 1, len);
    var own, child := StringBytes(str), str + Zeros(len - |str|);
    HeadedString(str);
    StringLength(str);
    HeaderLength(0, d.offsetUnit, 1, P.Trunc(len));
    HeldAhead(whole, n.position, own, Image(Sub(Tight(ctx.shape), n).kids, pos));
    var rest := whole[n.position + |own|..];
    BehindHeader(whole, n.position, DataHeader(0, d.offsetUnit, 1, P.Trunc(len)), child, rest);
    DataReads(d, child + rest);
    StringComesBack(str);
  }

  lemma BehindHeader(whole: seq<byte>, at: nat, header: seq<byte>, child: seq<byte>, rest: seq<byte>)
    requires at <= |whole| && whole[at..] == header + child + rest
    ensures at + |header| + |child| <= |whole|
    ensures whole[at..] == header + (child + rest) && whole[at + |header|..at + |header| + |child|] == child
  {
    assert whole[at..][|header|..|header| + |child|] == child;
  }

  lemma HeadedString(str: seq<byte>)
    ensures var len := Rounded(|str|); StringBytes(str) == DataHeader(0, P.Trunc(len / 4), 1, P.Trunc(len)) + (str + Zeros(len - |str|))
  {
    hide DataHeader;
  }

  lemma DataReads(d: DataHead, rest: seq<byte>)
    requires d.length <= |rest|
    ensures ReadData(DataHeader(d.kind, d.offsetUnit, d.field8, P.Trunc(d.length)) + rest) == Some(d) <==> d.kind < 0xff && d.length < 0x1_0000_0000
  {
    hide EncWords, DecWords;
    Sums();
    Ranges();
    WordsLength(true, HeaderWords, [d.kind as nat, d.offsetUnit, d.field8, P.Trunc(d.length)]);
    WordsBack(true, HeaderWords, [d.kind as nat, d.offsetUnit, d.field8, P.Trunc(d.length)], rest);
  }

  /** Recomputes the positions of an edited tree and dumps it. */
  method Save(ctx: Context) returns (out: seq<byte>)
    requires ctx.Shaped() && ctx.Labelled()
    modifies ctx`pmap, ctx.root`position, ctx.repr`position
    ensures Linked(ctx) && out == Whole(ctx) && ctx.shape == old(ctx.shape) && ctx.labels == old(ctx.labels)
    ensures forall n {:trigger n in ctx.repr} :: n in ctx.repr ==>
      Holds(out, n.position, Image(Sub(Tight(ctx.shape), n), PositionsOf(ctx.labels)))
    ensures forall n {:trigger n in ctx.repr} :: n in ctx.repr ==> Written(n.body, out, n.position, SizeOf(ctx, n), PositionsOf(ctx.labels))
  {
    hide Live, Placed, Distinct, Leaves, Heads, AllRefsKnown, Holds, Image, Size, Sub, StcmFormat.Written;
    hide ctx.Shaped;
    ctx.Fixup();
    out := ctx.Dump();
    forall n | n in ctx.repr
      ensures Holds(out, n.position, Image(Sub(Tight(ctx.shape), n), PositionsOf(ctx.labels)))
    {
      ItemRelinked(ctx, n);
    }
    forall n | n in ctx.repr
      ensures Written(n.body, out, n.position, SizeOf(ctx, n), PositionsOf(ctx.labels))
    {
      ItemWritten(ctx, n);
    }
  }
}
