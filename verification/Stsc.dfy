/** Recursive disassembly of an STSC file: every label an instruction names is followed. */
module Stsc {
  import opened Bytes
  import opened Numbers
  import opened Items
  import opened Registry
  import opened SliceFacts
  import opened SplitFacts
  import opened Contexts
  import opened Images
  import opened Closure
  import opened Opcodes
  import opened Parsing

  /** The list is sound, and its instructions are closed except those still being worked on. */
  ghost predicate Visitable(ctx: Context, pending: set<nat>)
    reads ctx, ctx.m.repr
  {
    ctx.Core() && Settled(ctx.m.cells, ctx.file, pending)
  }

  /** Since the old state raw bytes have only become items, and labels have only been added. */
  twostate predicate Onward(ctx: Context)
    reads ctx
  {
    && Grows(old(ctx.m.cells), ctx.m.cells) && RawBytes(ctx.m.cells) <= RawBytes(old(ctx.m.cells))
    && old(ctx.m.repr) <= ctx.m.repr && Extends(old(ctx.labels), ctx.labels)
  }

  lemma ReadsFaithful(c: Cell, file: seq<byte>, offset: nat, body: Body, it: Item)
    requires RawMatches(c, file) && offset <= c.body.view.size
    requires ReadsAs(body, c.body.view.Slice(offset, c.body.view.size - offset).Bytes())
    ensures offset + Size(body) <= c.body.view.size && Faithful(Cell(it, c.pos + offset, body), file)
  {
    hide Image, SwitchMasked;
    var b := c.body.view.Slice(offset, c.body.view.size - offset).Bytes();
    RestOfRaw(c, file, offset);
    hide RawMatches;
    var at := c.pos + offset;
    assert End(c) == c.pos + c.body.view.size <= |file|;
    hide Size;
    assert b[..Size(body)] == file[at..at + Size(body)] by {
      SliceOfSlice(file, at, End(c), 0, Size(body));
    }
  }

  /** A raw item of the list and what it holds. */
  lemma RawCell(ctx: Context, raw: Item, k: nat)
    requires ctx.Core() && k < |ctx.children| && ctx.children[k] == raw && (raw.body.Raw? || (k < |ctx.m.cells| && ctx.m.cells[k].body.Raw?))
    ensures raw.body.Raw? && k < |ctx.m.cells| && ctx.m.cells[k] == Cell(raw, raw.position, raw.body)
    ensures RawMatches(ctx.m.cells[k], ctx.file) && raw in ctx.m.repr
  {
    hide Linked, Anchored, Tiling, Indexed, AllRefsKnown, Distinct;
  }

  /** A new item can be cut in where it was read. */
  lemma Splittable(ctx: Context, raw: Item, offset: nat, it: Item, k: nat)
    requires ctx.Core() && k < |ctx.children| && ctx.children[k] == raw && raw.body.Raw?
    requires it in ctx.m.repr && it !in ctx.children && it.labels == [] && RefsKnown(it.body, ctx.labels)
    requires !it.body.Raw? && offset + Size(it.body) <= Size(raw.body)
    requires Size(it.body) > 0 || (k == |ctx.children| - 1 && offset == Size(raw.body))
    ensures ctx.CanSplit(raw, offset, it, k)
  {
    hide Linked, Anchored, Tiling, Indexed, AllRefsKnown, Distinct, RefsKnown, Size;
    RawCell(ctx, raw, k);
  }

  /** Makes an item of bytes that have been read and cuts it in. */
  method SplitCreate(ctx: Context, raw: Item, offset: nat, body: Body, ghost k: nat) returns (it: Item, ghost parts: seq<Cell>)
    requires ctx.Core() && k < |ctx.children| && ctx.children[k] == raw && raw.body.Raw? && RefsKnown(body, ctx.labels)
    requires !body.Raw? && offset + Size(body) <= Size(raw.body)
    requires Size(body) > 0 || (k == |ctx.children| - 1 && offset == Size(raw.body))
    modifies ctx, ctx.m.repr
    ensures fresh(ctx.m.repr - old(ctx.m.repr)) && old(ctx.m.repr) <= ctx.m.repr
    ensures ctx.Core() && ctx.labels == old(ctx.labels)
    ensures k < |old(ctx.m.cells)| && ctx.m.cells == Replaced(old(ctx.m.cells), k, parts)
    ensures SplitParts(old(ctx.m.cells)[k], offset, it, body, parts)
  {
    hide Sound, Mirrors, SplitParts, Size, RefsKnown;
    it := ctx.Create(body);
    Splittable(ctx, raw, offset, it, k);
    parts := ctx.Split2(raw, offset, it, k);
  }

  /** A body can be read at an offset of a raw cell. */
  ghost predicate ReadHere(c: Cell, offset: nat, body: Body, file: seq<byte>) {
    && RawMatches(c, file) && offset <= c.body.view.size && !body.Raw?
    && ReadsAs(body, c.body.view.Slice(offset, c.body.view.size - offset).Bytes())
  }

  /** A cell has been replaced by its parts. */
  ghost predicate CutAt(before: seq<Cell>, after: seq<Cell>, k: nat, c: Cell, parts: seq<Cell>) {
    k < |before| && before[k] == c && after == Replaced(before, k, parts)
  }

  /** What cutting in an item that was read does to a settled list. */
  lemma Emerged(before: seq<Cell>, after: seq<Cell>, file: seq<byte>, pending: set<nat>, k: nat, c: Cell, offset: nat, it: Item, body: Body, parts: seq<Cell>, p: nat)
    requires CutAt(before, after, k, c, parts) && p == c.pos + offset && ReadHere(c, offset, body, file) && SplitParts(c, offset, it, body, parts)
    requires !body.Header? ==> Reached(before, EntryOf(file), p)
    requires Settled(before, file, pending) && RawsMatch(after, file)
    ensures Settled(after, file, if IsInstruction(body) then pending + {p} else pending)
    ensures Grows(before, after) && Cell(it, p, body) in after && RawBytes(after) < RawBytes(before)
  {
    hide Faithful, Settled, RawBytes, Image, Grows, SplitParts, RawsMatch, Reached;
    ReadsFaithful(c, file, offset, body, it);
    SplitSettled(before, file, pending, k, offset, it, body, parts);
    SplitGrows(before, k, offset, it, body, parts);
  }

  /** The bytes of a raw item from an offset on. */
  method Rest(ctx: Context, raw: Item, offset: nat, ghost k: nat) returns (b: seq<byte>)
    requires ctx.Core() && k < |ctx.children| && ctx.children[k] == raw && raw.body.Raw? && offset <= Size(raw.body)
    ensures RawMatches(Cell(raw, raw.position, raw.body), ctx.file)
    ensures b == raw.body.view.Slice(offset, raw.body.view.size - offset).Bytes()
  {
    hide Linked, Anchored, Tiling, Indexed, AllRefsKnown, Distinct;
    RawCell(ctx, raw, k);
    b := raw.body.view.Slice(offset, raw.body.view.size - offset).Bytes();
  }

  /** The bytes a body was read from, at an offset of a raw item. */
  ghost predicate ReadFrom(raw: Item, offset: nat, body: Body, b: seq<byte>, file: seq<byte>)
    reads raw
  {
    && raw.body.Raw? && !body.Raw? && raw.body.view.Valid() && offset <= raw.body.view.size
    && RawMatches(Cell(raw, raw.position, raw.body), file)
    && b == raw.body.view.Slice(offset, raw.body.view.size - offset).Bytes() && ReadsAs(body, b)
  }

  /** What cutting in an item that was read leaves: a settled list with the item at its place, and less raw bytes. */
  twostate predicate HasCutIn(ctx: Context, raw: Item, offset: nat, body: Body, k: nat, new it: Item, new parts: seq<Cell>, pending: set<nat>)
    reads ctx, ctx.m.repr
  {
    && Visitable(ctx, if IsInstruction(body) then pending + {old(raw.position) + offset} else pending)
    && Onward(ctx) && ctx.labels == old(ctx.labels)
    && Cell(it, old(raw.position) + offset, body) in ctx.m.cells && RawBytes(ctx.m.cells) < RawBytes(old(ctx.m.cells))
    && k < |old(ctx.m.cells)| && ctx.m.cells == Replaced(old(ctx.m.cells), k, parts)
    && SplitParts(old(ctx.m.cells)[k], offset, it, body, parts)
  }

  /** Cuts an item that was read into a settled list. */
  method CutIn(ctx: Context, raw: Item, offset: nat, body: Body, ghost k: nat, ghost pending: set<nat>, ghost b: seq<byte>) returns (it: Item, ghost parts: seq<Cell>)
    requires Visitable(ctx, pending) && k < |ctx.children| && ctx.children[k] == raw && RefsKnown(body, ctx.labels)
    requires ReadFrom(raw, offset, body, b, ctx.file)
    requires !body.Header? ==> Reached(ctx.m.cells, EntryOf(ctx.file), raw.position + offset)
    modifies ctx, ctx.m.repr
    ensures fresh(ctx.m.repr - old(ctx.m.repr)) && HasCutIn(ctx, raw, offset, body, k, it, parts, pending)
  {
    hide Linked, Anchored, Tiling, Indexed, AllRefsKnown, Distinct, Settled, SplitParts, Grows, RawBytes, Image, SwitchMasked, Replaced, RefsKnown, RawMatches, Reached;
    RawCell(ctx, raw, k);
    it, parts := SplitCreate(ctx, raw, offset, body, k);
    Emerged(old(ctx.m.cells), ctx.m.cells, ctx.file, pending, k, old(ctx.m.cells)[k], offset, it, body, parts, old(ctx.m.cells)[k].pos + offset);
  }

  /** Cutting in an instruction that is what the table and the file say, or a string, leaves all instructions so. */
  lemma FormedCut(before: seq<Cell>, after: seq<Cell>, file: seq<byte>, table: Table, k: nat, offset: nat, it: Item, body: Body, parts: seq<Cell>)
    requires AllFormed(before, file, table) && k < |before| && SplitParts(before[k], offset, it, body, parts) && after == Replaced(before, k, parts)
    requires IsInstruction(body) ==> Formed(body, table, file, before[k].pos + offset) && CodeSought(file, table, before[k].pos + offset)
    requires body.CString? ==> TextSought(file, table, before[k].pos + offset)
    ensures AllFormed(after, file, table)
  {
    hide Formed, Size, CodeSought, TextSought;
    forall i | 0 <= i < |after| && (IsInstruction(after[i].body) || after[i].body.CString?)
      ensures IsInstruction(after[i].body) ==> Formed(after[i].body, table, file, after[i].pos) && CodeSought(file, table, after[i].pos)
      ensures after[i].body.CString? ==> TextSought(file, table, after[i].pos)
    {
      ReplacedFrom(before, k, parts, i);
      if after[i] in parts {
        var j :| 0 <= j < |parts| && parts[j] == after[i];
      } else {
        var j :| 0 <= j < |before| && before[j] == after[i];
      }
    }
  }

  lemma TextEnds(ctx: Context, raw: Item, offset: nat, k: nat, b: seq<byte>)
    requires ctx.Core() && k < |ctx.children| && ctx.children[k] == raw && raw.body.Raw? && offset <= Size(raw.body)
    requires Covers(Cell(raw, raw.position, raw.body), raw.position + offset)
    requires RawMatches(Cell(raw, raw.position, raw.body), ctx.file)
    requires b == raw.body.view.Slice(offset, raw.body.view.size - offset).Bytes()
    ensures 0 in b <==> !Unterminated(ctx.m.cells, ctx.file, raw.position + offset)
  {
    hide Sound, Mirrors, Unterminated, Covers, RawMatches;
    RawCell(ctx, raw, k);
    RawHere(ctx, k, raw.position + offset);
  }

  /** Makes the string at a position an item; fails if no zero byte ends it within the raw item. */
  method CreateString(ctx: Context, ghost table: Table, raw: Item, offset: nat, ghost k: nat, ghost pending: set<nat>) returns (ok: bool)
    requires Visitable(ctx, pending) && k < |ctx.children| && ctx.children[k] == raw && raw.body.Raw? && offset <= Size(raw.body)
    requires Covers(Cell(raw, raw.position, raw.body), raw.position + offset)
    requires Reached(ctx.m.cells, EntryOf(ctx.file), raw.position + offset) && AllFormed(ctx.m.cells, ctx.file, table)
    requires TextSought(ctx.file, table, raw.position + offset)
    modifies ctx, ctx.m.repr
    ensures fresh(ctx.m.repr - old(ctx.m.repr))
    ensures !ok ==> ctx.Core() && ctx.m.cells == old(ctx.m.cells)
    ensures ok ==> AllFormed(ctx.m.cells, ctx.file, table)
    ensures ok <==> !Unterminated(old(ctx.m.cells), ctx.file, old(raw.position) + offset)
    ensures ok ==> Visitable(ctx, pending) && Onward(ctx) && CStringAt(ctx.m.cells, old(raw.position) + offset)
  {
    hide Sound, Mirrors, Settled, Grows, RawBytes, RawMatches, ReadsAs, Unterminated, Covers, SplitParts, Replaced, Reached, AllFormed, CodeSought, TextSought, CStringAt, CStringIn;
    var b := Rest(ctx, raw, offset, k);
    RawCell(ctx, raw, k);
    TextEnds(ctx, raw, offset, k, b);
    var str := CStringIn(b);
    if str.None? {
      return false;
    }
    StringReads(str.value, b);
    ghost var parts;
    var it;
    it, parts := CutIn(ctx, raw, offset, CString(str.value), k, pending, b);
    FormedCut(old(ctx.m.cells), ctx.m.cells, ctx.file, table, k, offset, it, CString(str.value), parts);
    TextHere(ctx.m.cells, Cell(it, old(raw.position) + offset, CString(str.value)));
    ok := true;
  }

  lemma TextHere(cells: seq<Cell>, c: Cell)
    requires c in cells && c.body.CString?
    ensures CStringAt(cells, c.pos)
  {
    var i :| 0 <= i < |cells| && cells[i] == c;
  }

  lemma StringReads(str: seq<byte>, b: seq<byte>)
    requires CStringIn(b) == Some(str)
    ensures ReadsAs(CString(str), b)
  {
    assert b[..|str| + 1] == str + [0];
  }

  /** A reached position holds bytes that no instruction can be read from. */
  ghost predicate Unreadable(cells: seq<Cell>, file: seq<byte>, table: Table, p: nat) {
    Reached(cells, EntryOf(file), p) &&
    exists k {:trigger cells[k]} :: 0 <= k < |cells| && cells[k].body.Raw? && cells[k].pos <= p <= End(cells[k]) <= |file| &&
      !InstructionReadable(table, file[p..End(cells[k])], cells, file)
  }

  /** An instruction asks for a string that does not end, or for something that has become something else. */
  ghost predicate Mismatched(cells: seq<Cell>, file: seq<byte>, i: nat, j: nat) {
    && i < |cells| && IsInstruction(cells[i].body) && j < |Visits(cells[i].body)|
    && var v := Visits(cells[i].body)[j];
       (v.Text? && Unterminated(cells, file, v.lbl.target)) || (TypedAt(cells, v.lbl.target) && !Done(cells, v))
  }

  /** Why disassembly stops early. */
  ghost predicate Refused(cells: seq<Cell>, file: seq<byte>, table: Table) {
    || (exists p :: Unreadable(cells, file, table, p))
    || (exists i: nat, j: nat :: Mismatched(cells, file, i, j))
  }

  /** Where a registered label points. */
  lemma Landing(ctx: Context, l: Label) returns (k: nat)
    requires ctx.Core() && Known(l, ctx.labels)
    ensures l in ctx.m.repr && l.item != null && l.item.position + l.offset == l.target
    ensures k < |ctx.m.cells| && k < |ctx.children| && ctx.children[k] == l.item && l.item in ctx.m.repr
    ensures ctx.m.cells[k] == Cell(l.item, l.item.position, l.item.body) && Covers(ctx.m.cells[k], l.target)
    ensures l.item.body.Raw? ==> l.offset <= Size(l.item.body)
  {
    hide Linked, Tiling, Indexed, RawsMatch, AllRefsKnown, Distinct;
    k :| Holds(ctx.m.cells, k, ctx.m.ptrs[l.name], ctx.labels[l.name].target);
  }

  lemma SettledEnds(ctx: Context, pending: set<nat>)
    requires Visitable(ctx, pending)
    ensures CanLabel(ctx)
  {
  }

  /** Disassembles the instruction at an offset of a raw item, then everything it leads to. */
  method CreateAndInsert(ctx: Context, table: Table, raw: Item, offset: nat, ghost k: nat, ghost pending: set<nat>) returns (ok: bool)
    requires Visitable(ctx, pending) && k < |ctx.children| && ctx.children[k] == raw && raw.body.Raw? && offset <= Size(raw.body)
    requires Reached(ctx.m.cells, EntryOf(ctx.file), raw.position + offset)
    requires AllFormed(ctx.m.cells, ctx.file, table) && CodeSought(ctx.file, table, raw.position + offset)
    modifies ctx, ctx.m.repr
    ensures fresh(ctx.m.repr - old(ctx.m.repr))
    ensures !ok ==> ctx.Core() && Refused(ctx.m.cells, ctx.file, table)
    ensures ok ==> Visitable(ctx, pending) && Onward(ctx) && InstructionAt(ctx.m.cells, old(raw.position) + offset)
    ensures ok ==> SwitchThere(ctx.m.cells, ctx.file, table, old(raw.position) + offset)
    ensures old(LeadsNowhere(ctx.m.cells[k], ctx.file, table, raw.position + offset)) ==> ok
    ensures ok ==> AllFormed(ctx.m.cells, ctx.file, table)
    decreases RawBytes(ctx.m.cells), 0
  {
    hide Sound, Mirrors, Settled, Grows, RawBytes, RawMatches, ReadsAs, RefsKnown, Covers, InstructionReadable, SplitParts, Replaced, Reached, Refused, SwitchRead, LeadsNowhere, SwitchThere, AllFormed, Formed, CodeSought, TextSought, InstructionAt, CStringAt, Visits, FallsThrough;
    var b := Rest(ctx, raw, offset, k);
    ghost var pos := raw.position + offset;
    RawCell(ctx, raw, k);
    SettledEnds(ctx, pending);
    var body := ParseInstruction(ctx, table, b);
    RawCell(ctx, raw, k);
    if body.None? {
      CannotRead(ctx.m.cells, ctx.file, table, k, offset, b);
      return false;
    }
    ReadAt(ctx.m.cells[k], ctx.file, table, offset, b, body.value);
    FormedThere(ctx.m.cells[k], ctx.file, table, offset, b, body.value);
    ghost var parts;
    var it;
    it, parts := CutIn(ctx, raw, offset, body.value, k, pending, b);
    FormedCut(old(ctx.m.cells), ctx.m.cells, ctx.file, table, k, offset, it, body.value, parts);
    ghost var between := ctx.m.cells;
    ok := PostInsert(ctx, table, it, body.value, pos, pending);
    if ok {
      MadeStands(old(ctx.m.cells), between, ctx.m.cells, Cell(it, pos, body.value), ctx.file, table);
    }
  }

  /** What has been made is still there after more has been made. */
  lemma MadeStands(a: seq<Cell>, b: seq<Cell>, now: seq<Cell>, c: Cell, file: seq<byte>, table: Table)
    requires Grows(a, b) && Grows(b, now) && c in b && IsInstruction(c.body)
    requires c.pos < |file| && table[file[c.pos]].JumpSwitchOp? ==> c.body.JumpSwitch?
    ensures Grows(a, now) && InstructionAt(now, c.pos) && SwitchThere(now, file, table, c.pos)
  {
    hide Grows, InstructionAt, SwitchThere;
    GrowsTransitive(a, b, now);
    StaysThere(b, now, c);
    SwitchStands(now, c, file, table);
  }

  /** Where the table has a switch at a position, the list has one. */
  ghost predicate SwitchThere(cells: seq<Cell>, file: seq<byte>, table: Table, p: nat) {
    p < |file| && table[file[p]].JumpSwitchOp? ==> exists i :: 0 <= i < |cells| && cells[i].pos == p && cells[i].body.JumpSwitch?
  }

  /** The raw bytes from a position on begin with a switch that leads nowhere. */
  ghost predicate LeadsNowhere(c: Cell, file: seq<byte>, table: Table, p: nat) {
    c.pos <= p <= End(c) <= |file| && DeadEnd(table, file[p..End(c)], |file|)
  }

  /** What was read at a position of a raw cell. */
  lemma ReadAt(c: Cell, file: seq<byte>, table: Table, offset: nat, b: seq<byte>, body: Body)
    requires RawMatches(c, file) && offset <= Size(c.body) && b == c.body.view.Slice(offset, c.body.view.size - offset).Bytes()
    requires IsInstruction(body) && SwitchRead(table, body, b) && ReadsAs(body, b)
    ensures c.pos + offset < |file| && table[file[c.pos + offset]].JumpSwitchOp? ==> body.JumpSwitch?
    ensures LeadsNowhere(c, file, table, c.pos + offset) ==> Visits(body) == [] && !FallsThrough(body)
  {
    hide SwitchReadable, Word16, Image, SwitchMasked;
    RestOfRaw(c, file, offset);
  }

  lemma FormedThere(c: Cell, file: seq<byte>, table: Table, offset: nat, b: seq<byte>, body: Body)
    requires RawMatches(c, file) && offset <= Size(c.body) && b == c.body.view.Slice(offset, c.body.view.size - offset).Bytes()
    requires Formed(body, table, b, 0)
    ensures Formed(body, table, file, c.pos + offset)
  {
    hide Formed;
    RestOfRaw(c, file, offset);
    FormedInside(body, table, b, file, c.pos + offset);
  }

  lemma DeadEndReads(c: Cell, file: seq<byte>, table: Table, offset: nat, b: seq<byte>, cells: seq<Cell>)
    requires RawMatches(c, file) && offset <= Size(c.body) && b == c.body.view.Slice(offset, c.body.view.size - offset).Bytes()
    requires LeadsNowhere(c, file, table, c.pos + offset)
    ensures InstructionReadable(table, b, cells, file)
  {
    hide SwitchReadable, Word16;
    RestOfRaw(c, file, offset);
  }

  lemma SwitchStands(cells: seq<Cell>, c: Cell, file: seq<byte>, table: Table)
    requires c in cells && (c.pos < |file| && table[file[c.pos]].JumpSwitchOp? ==> c.body.JumpSwitch?)
    ensures SwitchThere(cells, file, table, c.pos)
  {
    var i :| 0 <= i < |cells| && cells[i] == c;
  }

  lemma CannotRead(cells: seq<Cell>, file: seq<byte>, table: Table, k: nat, offset: nat, b: seq<byte>)
    requires k < |cells| && RawMatches(cells[k], file) && offset <= Size(cells[k].body)
    requires Reached(cells, EntryOf(file), cells[k].pos + offset)
    requires b == cells[k].body.view.Slice(offset, cells[k].body.view.size - offset).Bytes()
    requires !InstructionReadable(table, b, cells, file)
    ensures Refused(cells, file, table) && !LeadsNowhere(cells[k], file, table, cells[k].pos + offset)
  {
    hide InstructionReadable, Reached, Mismatched, LeadsNowhere;
    RestOfRaw(cells[k], file, offset);
    assert Unreadable(cells, file, table, cells[k].pos + offset);
    if LeadsNowhere(cells[k], file, table, cells[k].pos + offset) {
      DeadEndReads(cells[k], file, table, offset, b, cells);
    }
  }

  lemma StaysThere(before: seq<Cell>, after: seq<Cell>, c: Cell)
    requires Grows(before, after) && c in before && !c.body.Raw?
    ensures c in after && (IsInstruction(c.body) ==> InstructionAt(after, c.pos)) && (c.body.CString? ==> CStringAt(after, c.pos))
  {
    var j :| 0 <= j < |before| && before[j] == c;
  }

  lemma VisitsStayKnown(visits: seq<Visit>, before: map<string, Label>, after: map<string, Label>)
    requires VisitsKnown(visits, before) && Extends(before, after)
    ensures VisitsKnown(visits, after)
  {
  }

  /** Visits what a new instruction leads to: the items at its labels, then the one behind it. */
  method PostInsert(ctx: Context, table: Table, it: Item, body: Body, ghost pos: nat, ghost pending: set<nat>) returns (ok: bool)
    requires Visitable(ctx, pending + {pos}) && Cell(it, pos, body) in ctx.m.cells && IsInstruction(body) && RefsKnown(body, ctx.labels)
    requires AllFormed(ctx.m.cells, ctx.file, table)
    modifies ctx, ctx.m.repr
    ensures fresh(ctx.m.repr - old(ctx.m.repr))
    ensures !ok ==> ctx.Core() && Refused(ctx.m.cells, ctx.file, table)
    ensures ok ==> Visitable(ctx, pending) && Onward(ctx)
    ensures Visits(body) == [] && !FallsThrough(body) ==> ok
    ensures ok ==> AllFormed(ctx.m.cells, ctx.file, table)
    decreases RawBytes(ctx.m.cells), 3
  {
    hide Sound, Mirrors, Settled, Grows, RawBytes, RefsKnown, Visits, AllDone, TypedAt, Tiling, Refused, AllFormed, CodeSought, TextSought;
    BodyVisitsKnown(body, ctx.labels);
    ghost var c := Cell(it, pos, body);
    ok := VisitAll(ctx, table, Visits(body), c, pending + {pos});
    if !ok {
      return;
    }
    ghost var between := ctx.m.cells;
    StaysThere(old(ctx.m.cells), between, c);
    if FallsThrough(body) {
      ok := VisitNext(ctx, table, it, body, pos, pending + {pos});
      if !ok {
        return;
      }
      GrowsTransitive(old(ctx.m.cells), between, ctx.m.cells);
      StaysThere(between, ctx.m.cells, c);
      AllDoneStays(between, ctx.m.cells, Visits(body), |Visits(body)|);
    }
    Unpend(ctx, c, pending);
  }

  lemma Unpend(ctx: Context, c: Cell, pending: set<nat>)
    requires Visitable(ctx, pending + {c.pos}) && c in ctx.m.cells && IsInstruction(c.body) && Closed(ctx.m.cells, c)
    ensures Visitable(ctx, pending)
  {
    hide Linked, Anchored, Indexed, AllRefsKnown, Distinct, Settled, Closed, RawsMatch, Mirrors;
    Finished(ctx.m.cells, ctx.file, pending, c);
  }

  /** Makes sure everything visited is there. */
  method VisitAll(ctx: Context, table: Table, visits: seq<Visit>, ghost c: Cell, ghost pending: set<nat>) returns (ok: bool)
    requires Visitable(ctx, pending) && VisitsKnown(visits, ctx.labels)
    requires c in ctx.m.cells && IsInstruction(c.body) && visits == Visits(c.body)
    requires AllFormed(ctx.m.cells, ctx.file, table)
    modifies ctx, ctx.m.repr
    ensures fresh(ctx.m.repr - old(ctx.m.repr))
    ensures !ok ==> ctx.Core() && Refused(ctx.m.cells, ctx.file, table)
    ensures ok ==> Visitable(ctx, pending) && Onward(ctx) && AllDone(ctx.m.cells, visits, |visits|)
    ensures visits == [] ==> ok
    ensures ok ==> AllFormed(ctx.m.cells, ctx.file, table)
    decreases RawBytes(ctx.m.cells), 2
  {
    hide Sound, Mirrors, Settled, Grows, RawBytes, Done, Refused, Visits, AllFormed, CodeSought, TextSought;
    GrowsSelf(ctx.m.cells);
    for i := 0 to |visits|
      invariant fresh(ctx.m.repr - old(ctx.m.repr))
      invariant Visitable(ctx, pending) && Onward(ctx) && AllDone(ctx.m.cells, visits, i) && VisitsKnown(visits, ctx.labels)
      invariant c in ctx.m.cells && AllFormed(ctx.m.cells, ctx.file, table)
    {
      ghost var cells, labels := ctx.m.cells, ctx.labels;
      ok := MaybeCreate(ctx, table, visits[i], c, pending);
      if !ok {
        return;
      }
      GrowsTransitive(old(ctx.m.cells), cells, ctx.m.cells);
      AllDoneStays(cells, ctx.m.cells, visits, i);
      StaysThere(cells, ctx.m.cells, c);
      VisitsStayKnown(visits, labels, ctx.labels);
    }
    ok := true;
  }

  lemma GrowsSelf(cells: seq<Cell>)
    ensures Grows(cells, cells)
  {
  }

  /** Disassembles what a label points to if that is raw. What is no longer raw is taken as it is for
      plain code, must be an instruction for a switch, and must be a string for a string operand. */
  method MaybeCreate(ctx: Context, table: Table, v: Visit, ghost c: Cell, ghost pending: set<nat>) returns (ok: bool)
    requires Visitable(ctx, pending) && Known(v.lbl, ctx.labels)
    requires c in ctx.m.cells && IsInstruction(c.body) && v in Visits(c.body)
    requires AllFormed(ctx.m.cells, ctx.file, table)
    modifies ctx, ctx.m.repr
    ensures fresh(ctx.m.repr - old(ctx.m.repr))
    ensures !ok ==> ctx.Core() && Refused(ctx.m.cells, ctx.file, table)
    ensures ok ==> Visitable(ctx, pending) && Onward(ctx) && Done(ctx.m.cells, v)
    ensures ok ==> AllFormed(ctx.m.cells, ctx.file, table)
    decreases RawBytes(ctx.m.cells), 1
  {
    hide Sound, Mirrors, Settled, Grows, RawBytes, Covers, TypedAt, InstructionAt, CStringAt, Visits, Reached, Refused, Unterminated, AllFormed, CodeSought, TextSought;
    LabelReached(ctx, c, v, pending);
    VisitSought(ctx.m.cells, c, v, ctx.file, table);
    var k := Landing(ctx, v.lbl);
    var it, offset := v.lbl.item, v.lbl.offset;
    if it.body.Raw? {
      if v.Text? {
        ok := CreateString(ctx, table, it, offset, k, pending);
        if !ok {
          Mismatch(ctx.m.cells, ctx.file, table, c, v);
        }
      } else {
        ok := CreateAndInsert(ctx, table, it, offset, k, pending);
        if ok {
          InstructionTyped(ctx, v.lbl.target);
        }
      }
    } else {
      GrowsSelf(ctx.m.cells);
      ok := match v
        case Code(_) => true
        case Instruction(_) => offset == 0 && IsInstruction(it.body)
        case Text(_) => offset == 0 && it.body.CString?;
      StandsAt(ctx.m.cells, k, v.lbl.target);
      if !ok {
        OtherThere(ctx, k, v);
        Mismatch(ctx.m.cells, ctx.file, table, c, v);
      }
    }
  }

  lemma LabelReached(ctx: Context, c: Cell, v: Visit, pending: set<nat>)
    requires Visitable(ctx, pending) && c in ctx.m.cells && IsInstruction(c.body) && v in Visits(c.body)
    ensures Reached(ctx.m.cells, EntryOf(ctx.file), v.lbl.target)
  {
    hide Sound, Mirrors, Reached, AllReached, Visits;
    LedReached(ctx.m.cells, EntryOf(ctx.file), c, v.lbl.target);
  }

  lemma {:induction false} ArgVisitFrom(args: seq<Operand>, v: Visit) returns (i: nat)
    requires v in ArgVisits(args)
    ensures i < |args| && args[i].Pointer? && args[i].lbl != null && v.lbl == args[i].lbl && !v.Instruction?
    ensures args[i].kind == if v.Text? then StrPtr else CodePtr
  {
    var n := |args| - 1;
    if v in ArgVisits(args[..n]) {
      i := ArgVisitFrom(args[..n], v);
    } else {
      assert v in ArgVisit(args[n]);
      i := n;
    }
  }

  /** What an instruction visits its bytes name. */
  lemma VisitNamed(c: Cell, v: Visit, file: seq<byte>, table: Table)
    requires Formed(c.body, table, file, c.pos) && v in Visits(c.body)
    ensures if v.Text? then TextFrom(file, table, c.pos, v.lbl.target) else CodeFrom(file, table, c.pos, v.lbl.target)
  {
    hide Two, Four, ArgsAt, OperandNames;
    match c.body
    case Simple(_, _, args) =>
      var i := ArgVisitFrom(args, v);
      ArgNamed(args, table[file[c.pos]].kinds, file, c.pos + 1, i);
    case RndJump(_, tgts) =>
      var i: nat :| i < |tgts| && Visits(c.body)[i] == v;
      assert tgts[i].target == Four(file, c.pos + 2 + 4 * i);
    case JumpIf(_, _, _) =>
    case JumpSwitch(_, _, _, exprs, _) =>
      var i: nat :| i < |exprs| && Visits(c.body)[i] == v;
      assert exprs[i].target.target == Four(file, c.pos + 7 + 8 * i + 4);
      assert c.pos + 11 + 8 * i == c.pos + 7 + 8 * i + 4;
  }

  /** Where control goes on behind an instruction, its bytes say so. */
  lemma EndNamed(c: Cell, file: seq<byte>, table: Table)
    requires Formed(c.body, table, file, c.pos) && FallsThrough(c.body)
    ensures CodeFrom(file, table, c.pos, End(c))
  {
    hide Two, Four, ArgsAt, OperandNames, TreeAt, ExprsAt, TargetsAt, OperandsEnd, ArgsSize;
    if c.body.Simple? {
      ArgsEnd(c.body.args, table[file[c.pos]].kinds, file, c.pos + 1);
    }
  }

  lemma VisitSought(cells: seq<Cell>, c: Cell, v: Visit, file: seq<byte>, table: Table)
    requires AllFormed(cells, file, table) && c in cells && IsInstruction(c.body) && v in Visits(c.body)
    ensures if v.Text? then TextSought(file, table, v.lbl.target) else CodeSought(file, table, v.lbl.target)
  {
    hide Formed, Visits, CodeSought, TextSought, CodeFrom, TextFrom;
    var i :| 0 <= i < |cells| && cells[i] == c;
    VisitNamed(c, v, file, table);
    CodeStep(file, table, c.pos, v.lbl.target);
  }

  lemma EndSought(cells: seq<Cell>, c: Cell, file: seq<byte>, table: Table)
    requires AllFormed(cells, file, table) && c in cells && IsInstruction(c.body) && FallsThrough(c.body)
    ensures CodeSought(file, table, End(c))
  {
    hide Formed, CodeSought, TextSought, CodeFrom, TextFrom;
    var i :| 0 <= i < |cells| && cells[i] == c;
    EndNamed(c, file, table);
    CodeStep(file, table, c.pos, End(c));
  }

  lemma Mismatch(cells: seq<Cell>, file: seq<byte>, table: Table, c: Cell, v: Visit)
    requires c in cells && IsInstruction(c.body) && v in Visits(c.body)
    requires (v.Text? && Unterminated(cells, file, v.lbl.target)) || (TypedAt(cells, v.lbl.target) && !Done(cells, v))
    ensures Refused(cells, file, table)
  {
    hide Unterminated, TypedAt, Done, Visits;
    var i: nat :| i < |cells| && cells[i] == c;
    var j: nat :| j < |Visits(c.body)| && Visits(c.body)[j] == v;
    assert Mismatched(cells, file, i, j);
  }

  /** What is not there under a label stands nowhere else. */
  lemma OtherThere(ctx: Context, k: nat, v: Visit)
    requires ctx.Core() && k < |ctx.m.cells| && Covers(ctx.m.cells[k], v.lbl.target)
    requires v.Instruction? ==> ctx.m.cells[k].pos != v.lbl.target || !IsInstruction(ctx.m.cells[k].body)
    requires v.Text? ==> ctx.m.cells[k].pos != v.lbl.target || !ctx.m.cells[k].body.CString?
    ensures !v.Code? ==> !Done(ctx.m.cells, v)
  {
    hide Linked, Anchored, Indexed, RawsMatch, AllRefsKnown, Distinct;
    forall i | 0 <= i < |ctx.m.cells| && ctx.m.cells[i].pos == v.lbl.target && Size(ctx.m.cells[i].body) > 0
      ensures i == k
    {
      CoverUnique(ctx.m.cells, |ctx.file|, i, k, v.lbl.target);
    }
  }

  lemma StandsAt(cells: seq<Cell>, k: nat, p: nat)
    requires k < |cells| && Covers(cells[k], p)
    ensures !cells[k].body.Raw? ==> TypedAt(cells, p)
    ensures cells[k].pos == p && IsInstruction(cells[k].body) ==> InstructionAt(cells, p)
    ensures cells[k].pos == p && cells[k].body.CString? ==> CStringAt(cells, p)
  {
  }

  lemma InstructionTyped(ctx: Context, p: nat)
    requires InstructionAt(ctx.m.cells, p)
    ensures TypedAt(ctx.m.cells, p)
  {
    var i :| 0 <= i < |ctx.m.cells| && ctx.m.cells[i].pos == p && IsInstruction(ctx.m.cells[i].body);
    assert Covers(ctx.m.cells[i], p);
  }

  /** Disassembles the item behind an instruction if that is raw. */
  method VisitNext(ctx: Context, table: Table, it: Item, body: Body, ghost pos: nat, ghost pending: set<nat>) returns (ok: bool)
    requires Visitable(ctx, pending) && Cell(it, pos, body) in ctx.m.cells && IsInstruction(body) && FallsThrough(body)
    requires AllFormed(ctx.m.cells, ctx.file, table)
    modifies ctx, ctx.m.repr
    ensures fresh(ctx.m.repr - old(ctx.m.repr))
    ensures !ok ==> ctx.Core() && Refused(ctx.m.cells, ctx.file, table)
    ensures ok ==> Visitable(ctx, pending) && Onward(ctx) && TypedAt(ctx.m.cells, pos + Size(body))
    ensures ok ==> AllFormed(ctx.m.cells, ctx.file, table)
    decreases RawBytes(ctx.m.cells), 1
  {
    hide Sound, Mirrors, Settled, Grows, RawBytes, Covers, TypedAt, InstructionAt, Size, Reached, Refused, AllFormed, CodeSought, TextSought;
    NextReached(ctx, Cell(it, pos, body), pending);
    EndSought(ctx.m.cells, Cell(it, pos, body), ctx.file, table);
    var k := NextOf(ctx, it, body, pos, pending);
    var next := ctx.children[k];
    if next.body.Raw? {
      ok := CreateAndInsert(ctx, table, next, 0, k, pending);
      if ok {
        InstructionTyped(ctx, pos + Size(body));
      }
    } else {
      GrowsSelf(ctx.m.cells);
      ok := true;
    }
  }

  lemma NextReached(ctx: Context, c: Cell, pending: set<nat>)
    requires Visitable(ctx, pending) && c in ctx.m.cells && IsInstruction(c.body) && FallsThrough(c.body)
    ensures Reached(ctx.m.cells, EntryOf(ctx.file), End(c))
  {
    hide Sound, Mirrors, Reached, AllReached, Visits;
    LedReached(ctx.m.cells, EntryOf(ctx.file), c, End(c));
  }

  /** Behind `it` the item at place `k` begins, at a position of the file. */
  ghost predicate NextIs(ctx: Context, it: Item, end: nat, k: nat)
    reads ctx, ctx.m.repr
  {
    && 0 < k < |ctx.children| && ctx.children[k - 1] == it && ctx.children[k] in ctx.m.repr && ctx.children[k].position == end
    && (!ctx.children[k].body.Raw? ==> TypedAt(ctx.m.cells, end))
  }

  /** The place of the item behind an instruction. */
  method NextOf(ctx: Context, it: Item, ghost body: Body, ghost pos: nat, ghost pending: set<nat>) returns (k: nat)
    requires Visitable(ctx, pending) && Cell(it, pos, body) in ctx.m.cells && IsInstruction(body)
    ensures NextIs(ctx, it, pos + Size(body), k)
  {
    hide Linked, Anchored, Indexed, AllRefsKnown, RawsMatch, AllFaithful, ClosedExcept;
    ghost var c := Cell(it, pos, body);
    ghost var i :| 0 <= i < |ctx.m.cells| && ctx.m.cells[i] == c;
    k := ctx.Iterator(it);
    assert ctx.m.cells[k].item == ctx.m.cells[i].item;
    assert k != |ctx.m.cells| - 1;
    assert Follows(ctx.m.cells[k], ctx.m.cells[k + 1]);
    k := k + 1;
    Behind(ctx.m.cells, |ctx.file|, k - 1);
  }

  lemma Behind(cells: seq<Cell>, total: nat, k: nat)
    requires Tiling(cells, total) && k + 1 < |cells|
    ensures !cells[k + 1].body.Raw? ==> TypedAt(cells, End(cells[k]))
  {
    assert Follows(cells[k], cells[k + 1]);
    if k + 2 < |cells| {
      assert Follows(cells[k + 1], cells[k + 2]);
    }
    assert Covers(cells[k + 1], End(cells[k]));
  }
}
