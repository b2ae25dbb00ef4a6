/** What disassembly owes every instruction it makes: where control or a string operand leads
    has been disassembled too. */
module Closure {
  import opened Bytes
  import opened Items
  import opened Registry
  import opened SliceFacts
  import opened SplitFacts
  import opened Images

  /** What an instruction asks for at one of its labels once it is in the list: code that may lie
      anywhere, an instruction that must start there, or a string that must start there. */
  datatype Visit = Code(lbl: Label) | Instruction(lbl: Label) | Text(lbl: Label)

  function ArgVisit(o: Operand): seq<Visit> {
    match o
    case Pointer(kind, lbl) =>
      if lbl == null then [] else if kind == StrPtr then [Text(lbl)] else if kind == CodePtr then [Code(lbl)] else []
    case Number(_, _) => []
  }

  function ArgVisits(args: seq<Operand>): seq<Visit> {
    if args == [] then [] else ArgVisits(args[..|args| - 1]) + ArgVisit(args[|args| - 1])
  }

  /** The visits of PostInsert, in order. */
  function Visits(b: Body): seq<Visit> {
    match b
    case Simple(_, _, args) => ArgVisits(args)
    case RndJump(_, tgts) => seq(|tgts|, i requires 0 <= i < |tgts| => Code(tgts[i]))
    case JumpIf(_, tgt, _) => [Code(tgt)]
    case JumpSwitch(_, _, _, exprs, _) => seq(|exprs|, i requires 0 <= i < |exprs| => Instruction(exprs[i].target))
    case _ => []
  }

  /** Control may go on behind the instruction. */
  predicate FallsThrough(b: Body) {
    match b
    case Simple(_, noReturn, _) => !noReturn
    case RndJump(_, _) => true
    case JumpIf(_, _, _) => true
    case JumpSwitch(_, _, d, _, _) => !d
    case _ => false
  }

  /** The item that holds a position is not raw. */
  ghost predicate TypedAt(cells: seq<Cell>, p: nat) {
    exists i :: 0 <= i < |cells| && !cells[i].body.Raw? && Covers(cells[i], p)
  }

  lemma TypedNotRaw(cells: seq<Cell>, total: nat, p: nat)
    requires Tiling(cells, total) && TypedAt(cells, p)
    ensures !RawAt(cells, p)
  {
    if RawAt(cells, p) {
      var i :| 0 <= i < |cells| && !cells[i].body.Raw? && Covers(cells[i], p);
      var j :| 0 <= j < |cells| && cells[j].body.Raw? && Covers(cells[j], p);
      CoverUnique(cells, total, i, j, p);
    }
  }

  ghost predicate Done(cells: seq<Cell>, v: Visit) {
    match v
    case Code(l) => TypedAt(cells, l.target)
    case Instruction(l) => InstructionAt(cells, l.target)
    case Text(l) => CStringAt(cells, l.target)
  }

  ghost predicate AllDone(cells: seq<Cell>, visits: seq<Visit>, n: nat) {
    n <= |visits| && forall j {:trigger visits[j]} :: 0 <= j < n ==> Done(cells, visits[j])
  }

  ghost predicate Closed(cells: seq<Cell>, c: Cell) {
    AllDone(cells, Visits(c.body), |Visits(c.body)|) && (FallsThrough(c.body) ==> TypedAt(cells, End(c)))
  }

  /** The instructions that do not stand at a pending position are closed. */
  ghost predicate ClosedExcept(cells: seq<Cell>, pending: set<nat>) {
    forall i {:trigger cells[i]} :: 0 <= i < |cells| && IsInstruction(cells[i].body) && cells[i].pos !in pending ==> Closed(cells, cells[i])
  }

  /** Control, or a string operand, leads from an instruction to a position. */
  ghost predicate LeadsTo(c: Cell, p: nat) {
    || (exists j {:trigger Visits(c.body)[j]} :: 0 <= j < |Visits(c.body)| && Visits(c.body)[j].lbl.target == p)
    || (FallsThrough(c.body) && p == End(c))
  }

  /** A position is `n` steps from the entry point. */
  ghost predicate Steps(cells: seq<Cell>, entry: nat, p: nat, n: nat)
    decreases n
  {
    if n == 0 then p == entry
    else exists i: nat :: i < |cells| && IsInstruction(cells[i].body) && LeadsTo(cells[i], p) && Steps(cells, entry, cells[i].pos, n - 1)
  }

  ghost predicate Reached(cells: seq<Cell>, entry: nat, p: nat) {
    exists n: nat :: Steps(cells, entry, p, n)
  }

  function EntryOf(file: seq<byte>): nat {
    if |file| < 8 then 0 else Word32(file, 4)
  }

  /** Only what the entry point leads to has been disassembled. */
  ghost predicate AllReached(cells: seq<Cell>, entry: nat) {
    forall i {:trigger cells[i]} :: 0 <= i < |cells| && (IsInstruction(cells[i].body) || cells[i].body.CString?) ==> Reached(cells, entry, cells[i].pos)
  }

  lemma {:induction false} StepsStay(before: seq<Cell>, after: seq<Cell>, entry: nat, p: nat, n: nat)
    requires Grows(before, after) && Steps(before, entry, p, n)
    ensures Steps(after, entry, p, n)
    decreases n
  {
    hide LeadsTo;
    if n > 0 {
      var i: nat :| i < |before| && IsInstruction(before[i].body) && LeadsTo(before[i], p) && Steps(before, entry, before[i].pos, n - 1);
      var j :| 0 <= j < |after| && after[j] == before[i];
      StepsStay(before, after, entry, before[i].pos, n - 1);
    }
  }

  lemma ReachedStays(before: seq<Cell>, after: seq<Cell>, entry: nat, p: nat)
    requires Grows(before, after) && Reached(before, entry, p)
    ensures Reached(after, entry, p)
  {
    var n: nat :| Steps(before, entry, p, n);
    StepsStay(before, after, entry, p, n);
  }

  /** What a reached instruction leads to is reached. */
  lemma LedReached(cells: seq<Cell>, entry: nat, c: Cell, p: nat)
    requires c in cells && IsInstruction(c.body) && AllReached(cells, entry) && LeadsTo(c, p)
    ensures Reached(cells, entry, p)
  {
    hide LeadsTo;
    var i: nat :| i < |cells| && cells[i] == c;
    var n: nat :| Steps(cells, entry, c.pos, n);
    assert Steps(cells, entry, p, n + 1);
  }

  ghost predicate Ended(cells: seq<Cell>) {
    |cells| > 0 && cells[|cells| - 1].body.Eof?
  }

  /** What holds of the list whenever the disassembler visits a label. */
  ghost predicate Settled(cells: seq<Cell>, file: seq<byte>, pending: set<nat>) {
    Ended(cells) && AllFaithful(cells, file) && ClosedExcept(cells, pending) && AllReached(cells, EntryOf(file))
  }

  /** The argument visits are those of the non-null pointers: strings and code. */
  lemma {:induction false} ArgVisited(args: seq<Operand>, i: nat)
    requires i < |args| && args[i].Pointer? && args[i].lbl != null
    ensures args[i].kind == StrPtr ==> Text(args[i].lbl) in ArgVisits(args)
    ensures args[i].kind == CodePtr ==> Code(args[i].lbl) in ArgVisits(args)
  {
    if i < |args| - 1 {
      ArgVisited(args[..|args| - 1], i);
    }
  }

  lemma {:induction false} ArgVisitsKnown(args: seq<Operand>, labels: map<string, Label>, v: Visit)
    requires forall i {:trigger args[i]} :: 0 <= i < |args| && args[i].Pointer? && args[i].lbl != null ==> Known(args[i].lbl, labels)
    requires v in ArgVisits(args)
    ensures Known(v.lbl, labels)
  {
    var n := |args| - 1;
    if v in ArgVisits(args[..n]) {
      ArgVisitsKnown(args[..n], labels, v);
    } else {
      assert v in ArgVisit(args[n]);
      assert args[n].Pointer?;
    }
  }

  ghost predicate VisitsKnown(visits: seq<Visit>, labels: map<string, Label>) {
    forall j {:trigger visits[j]} :: 0 <= j < |visits| ==> Known(visits[j].lbl, labels)
  }

  lemma BodyVisitsKnown(b: Body, labels: map<string, Label>)
    requires RefsKnown(b, labels)
    ensures VisitsKnown(Visits(b), labels)
  {
    forall j | 0 <= j < |Visits(b)|
      ensures Known(Visits(b)[j].lbl, labels)
    {
      if b.Simple? {
        ArgVisitsKnown(b.args, labels, Visits(b)[j]);
      }
    }
  }

  lemma DoneStays(before: seq<Cell>, after: seq<Cell>, v: Visit)
    requires Grows(before, after) && Done(before, v)
    ensures Done(after, v)
  {
    match v
    case Code(l) => TypedStays(before, after, l.target);
    case Instruction(l) =>
      var i :| 0 <= i < |before| && before[i].pos == l.target && IsInstruction(before[i].body);
      var j :| 0 <= j < |after| && after[j] == before[i];
    case Text(l) =>
      var i :| 0 <= i < |before| && before[i].pos == l.target && before[i].body.CString?;
      var j :| 0 <= j < |after| && after[j] == before[i];
  }

  lemma TypedStays(before: seq<Cell>, after: seq<Cell>, p: nat)
    requires Grows(before, after) && TypedAt(before, p)
    ensures TypedAt(after, p)
  {
    var i :| 0 <= i < |before| && !before[i].body.Raw? && Covers(before[i], p);
    var j :| 0 <= j < |after| && after[j] == before[i];
  }

  lemma AllDoneStays(before: seq<Cell>, after: seq<Cell>, visits: seq<Visit>, n: nat)
    requires Grows(before, after) && AllDone(before, visits, n)
    ensures AllDone(after, visits, n)
  {
    forall j | 0 <= j < n
      ensures Done(after, visits[j])
    {
      DoneStays(before, after, visits[j]);
    }
  }

  lemma ClosedStays(before: seq<Cell>, after: seq<Cell>, c: Cell)
    requires Grows(before, after) && Closed(before, c)
    ensures Closed(after, c)
  {
    AllDoneStays(before, after, Visits(c.body), |Visits(c.body)|);
    if FallsThrough(c.body) {
      TypedStays(before, after, End(c));
    }
  }

  /** A cell of a list with one cell replaced is an old one or a part. */
  lemma ReplacedFrom<T>(s: seq<T>, k: nat, parts: seq<T>, i: nat)
    requires k < |s| && i < |Replaced(s, k, parts)|
    ensures Replaced(s, k, parts)[i] in s || Replaced(s, k, parts)[i] in parts
  {
  }

  /** Cutting a raw cell keeps all others. */
  lemma SplitGrows(cells: seq<Cell>, k: nat, pos: nat, nitem: Item, nb: Body, parts: seq<Cell>)
    requires k < |cells| && SplitParts(cells[k], pos, nitem, nb, parts)
    ensures Grows(cells, Replaced(cells, k, parts))
    ensures Cell(nitem, cells[k].pos + pos, nb) in Replaced(cells, k, parts)
    ensures RawBytes(Replaced(cells, k, parts)) == RawBytes(cells) - (if nb.Raw? then 0 else Size(nb))
  {
    hide RawBytes, Size;
    OthersStay(cells, k, parts);
    var j :| 0 <= j < |parts| && parts[j] == Cell(nitem, cells[k].pos + pos, nb);
    assert Replaced(cells, k, parts)[k + j] == parts[j];
    RawBytesReplaced(cells, k, parts);
    RawBytesOne(cells[k]);
  }

  lemma RawBytesOne(c: Cell)
    requires c.body.Raw?
    ensures RawBytes([c]) == Size(c.body)
  {
  }

  lemma OthersStay(cells: seq<Cell>, k: nat, parts: seq<Cell>)
    requires k < |cells| && cells[k].body.Raw?
    ensures Grows(cells, Replaced(cells, k, parts))
  {
    var r := Replaced(cells, k, parts);
    forall i | 0 <= i < |cells| && !cells[i].body.Raw?
      ensures cells[i] in r
    {
      assert r[if i < k then i else i - 1 + |parts|] == cells[i];
    }
  }

  /** Cutting in a faithful item keeps the list settled, with the new item pending. */
  lemma SplitSettled(cells: seq<Cell>, file: seq<byte>, pending: set<nat>, k: nat, pos: nat, nitem: Item, nb: Body, parts: seq<Cell>)
    requires k < |cells| && SplitParts(cells[k], pos, nitem, nb, parts) && Settled(cells, file, pending)
    requires !nb.Raw? && Faithful(Cell(nitem, cells[k].pos + pos, nb), file) && RawsMatch(Replaced(cells, k, parts), file)
    requires IsInstruction(nb) || nb.CString? ==> Reached(cells, EntryOf(file), cells[k].pos + pos)
    ensures Settled(Replaced(cells, k, parts), file, if IsInstruction(nb) then pending + {cells[k].pos + pos} else pending)
    ensures Grows(cells, Replaced(cells, k, parts))
  {
    hide Faithful, Closed, RawBytes, Visits, Reached, EntryOf;
    var r := Replaced(cells, k, parts);
    var p := cells[k].pos + pos;
    SplitGrows(cells, k, pos, nitem, nb, parts);
    assert r[|r| - 1] == cells[|cells| - 1];
    forall i | 0 <= i < |r|
      ensures Faithful(r[i], file)
      ensures IsInstruction(r[i].body) && (IsInstruction(nb) ==> r[i].pos != p) ==> Closed(r, r[i]) || r[i].pos in pending
      ensures IsInstruction(r[i].body) || r[i].body.CString? ==> Reached(r, EntryOf(file), r[i].pos)
    {
      if Reached(cells, EntryOf(file), r[i].pos) {
        ReachedStays(cells, r, EntryOf(file), r[i].pos);
      }
      ReplacedFrom(cells, k, parts, i);
      if r[i].body.Raw? {
        RawFaithful(r[i], file);
      } else if r[i] in cells {
        var o :| 0 <= o < |cells| && cells[o] == r[i];
        if IsInstruction(r[i].body) && r[i].pos !in pending {
          ClosedStays(cells, r, cells[o]);
        }
      }
    }
  }

  lemma RawFaithful(c: Cell, file: seq<byte>)
    requires RawMatches(c, file)
    ensures Faithful(c, file)
  {
  }

  /** Once everything it asked for is done, an instruction is no longer pending. */
  lemma Finished(cells: seq<Cell>, file: seq<byte>, pending: set<nat>, c: Cell)
    requires Settled(cells, file, pending + {c.pos}) && Tiling(cells, |file|)
    requires c in cells && IsInstruction(c.body) && Closed(cells, c)
    ensures Settled(cells, file, pending)
  {
    hide Faithful, Closed, AllReached;
    var k :| 0 <= k < |cells| && cells[k] == c;
    forall i | 0 <= i < |cells| && IsInstruction(cells[i].body) && cells[i].pos !in pending
      ensures Closed(cells, cells[i])
    {
      if cells[i].pos == c.pos {
        if i < k {
          TilingOrder(cells, |file|, i, k);
        } else if k < i {
          TilingOrder(cells, |file|, k, i);
        }
      }
    }
  }

  /** The code pointers of an instruction lead to items that are not raw, its string pointers to the
      start of strings, and those of a switch to the start of instructions. */
  ghost predicate Leads(cells: seq<Cell>, b: Body) {
    match b
    case Simple(_, _, args) => forall i {:trigger args[i]} :: 0 <= i < |args| && args[i].Pointer? && args[i].lbl != null ==>
      && (args[i].kind == CodePtr ==> !RawAt(cells, args[i].lbl.target))
      && (args[i].kind == StrPtr ==> CStringAt(cells, args[i].lbl.target))
    case RndJump(_, tgts) => forall i {:trigger tgts[i]} :: 0 <= i < |tgts| ==> !RawAt(cells, tgts[i].target)
    case JumpIf(_, tgt, _) => !RawAt(cells, tgt.target)
    case JumpSwitch(_, _, _, exprs, _) => forall i {:trigger exprs[i]} :: 0 <= i < |exprs| ==> InstructionAt(cells, exprs[i].target.target)
    case _ => true
  }

  /** The item behind an instruction is not raw unless control stops there. */
  ghost predicate GoesOn(cells: seq<Cell>, k: nat) {
    k < |cells| && (FallsThrough(cells[k].body) ==> k + 1 < |cells| && !cells[k + 1].body.Raw?)
  }

  lemma DoneIn(cells: seq<Cell>, total: nat, visits: seq<Visit>, v: Visit)
    requires Tiling(cells, total) && AllDone(cells, visits, |visits|) && v in visits
    ensures v.Code? ==> !RawAt(cells, v.lbl.target)
    ensures v.Instruction? ==> InstructionAt(cells, v.lbl.target)
    ensures v.Text? ==> CStringAt(cells, v.lbl.target)
  {
    var j :| 0 <= j < |visits| && visits[j] == v;
    if v.Code? {
      TypedNotRaw(cells, total, v.lbl.target);
    }
  }

  lemma ClosedLeads(cells: seq<Cell>, total: nat, b: Body)
    requires Tiling(cells, total) && AllDone(cells, Visits(b), |Visits(b)|)
    ensures Leads(cells, b)
  {
    hide Tiling, AllDone, RawAt, InstructionAt, CStringAt;
    match b
    case Simple(_, _, args) =>
      forall i | 0 <= i < |args| && args[i].Pointer? && args[i].lbl != null
        ensures args[i].kind == CodePtr ==> !RawAt(cells, args[i].lbl.target)
        ensures args[i].kind == StrPtr ==> CStringAt(cells, args[i].lbl.target)
      {
        ArgVisited(args, i);
        if args[i].kind == CodePtr {
          DoneIn(cells, total, Visits(b), Code(args[i].lbl));
        } else if args[i].kind == StrPtr {
          DoneIn(cells, total, Visits(b), Text(args[i].lbl));
        }
      }
    case RndJump(_, tgts) =>
      forall i | 0 <= i < |tgts|
        ensures !RawAt(cells, tgts[i].target)
      {
        DoneIn(cells, total, Visits(b), Visits(b)[i]);
      }
    case JumpIf(_, tgt, _) =>
      DoneIn(cells, total, Visits(b), Code(tgt));
    case JumpSwitch(_, _, _, exprs, _) =>
      forall i | 0 <= i < |exprs|
        ensures InstructionAt(cells, exprs[i].target.target)
      {
        DoneIn(cells, total, Visits(b), Visits(b)[i]);
      }
    case _ =>
  }

  /** What a settled list with nothing pending means for each of its instructions. */
  lemma ClosureMeans(cells: seq<Cell>, file: seq<byte>, k: nat)
    requires Tiling(cells, |file|) && Settled(cells, file, {}) && k < |cells| && IsInstruction(cells[k].body)
    ensures Leads(cells, cells[k].body) && GoesOn(cells, k)
  {
    hide Visits, Leads, Faithful, RawAt, AllReached;
    assert Closed(cells, cells[k]);
    ClosedLeads(cells, |file|, cells[k].body);
    if FallsThrough(cells[k].body) {
      assert k != |cells| - 1;
      TypedNotRaw(cells, |file|, End(cells[k]));
      BehindRaw(cells, |file|, k);
    }
  }

  /** A raw item holds its own position. */
  lemma BehindRaw(cells: seq<Cell>, total: nat, k: nat)
    requires Tiling(cells, total) && k + 1 < |cells|
    ensures cells[k + 1].body.Raw? ==> RawAt(cells, End(cells[k]))
  {
    assert Follows(cells[k], cells[k + 1]);
    if k + 2 < |cells| {
      assert Follows(cells[k + 1], cells[k + 2]);
    }
    assert Covers(cells[k + 1], End(cells[k]));
  }

  /** Whatever the entry point leads to has been disassembled. */
  lemma ReachedTyped(cells: seq<Cell>, file: seq<byte>, p: nat, n: nat)
    requires Settled(cells, file, {}) && InstructionAt(cells, EntryOf(file)) && Steps(cells, EntryOf(file), p, n)
    ensures TypedAt(cells, p)
  {
    hide Visits, Faithful, AllReached, EntryOf, Covers;
    if n == 0 {
      StartTyped(cells, p);
    } else {
      var i: nat :| i < |cells| && IsInstruction(cells[i].body) && LeadsTo(cells[i], p) && Steps(cells, EntryOf(file), cells[i].pos, n - 1);
      assert Closed(cells, cells[i]);
      if !(FallsThrough(cells[i].body) && p == End(cells[i])) {
        var visits := Visits(cells[i].body);
        var j :| 0 <= j < |visits| && visits[j].lbl.target == p;
        assert Done(cells, visits[j]);
        StartTyped(cells, p);
      }
    }
  }

  lemma StartTyped(cells: seq<Cell>, p: nat)
    ensures InstructionAt(cells, p) || CStringAt(cells, p) ==> TypedAt(cells, p)
  {
    if InstructionAt(cells, p) || CStringAt(cells, p) {
      var i :| 0 <= i < |cells| && cells[i].pos == p && (IsInstruction(cells[i].body) || cells[i].body.CString?);
      assert Covers(cells[i], p);
    }
  }
}
