/** Whole STSC files: from bytes to a closed item list and back. */
module StscFiles {
  import opened Bytes
  import opened Numbers
  import opened Items
  import opened Registry
  import opened SliceFacts
  import opened SplitFacts
  import opened Contexts
  import opened Images
  import opened Closure
  import opened Opcodes
  import opened Parsing
  import opened Scripts
  import opened Stsc

  lemma InnerFull(cells: seq<Cell>, total: nat, k: nat)
    requires Tiling(cells, total) && k < |cells|
    ensures k + 1 < |cells| ==> Size(cells[k].body) > 0
  {
    if k + 1 < |cells| {
      assert Follows(cells[k], cells[k + 1]);
    }
  }

  /** The list of a file that has only been cut at its end. */
  lemma StartParts(root: Cell, parts: seq<Cell>, eof: Item, total: nat)
    requires Tiling(parts, total)
    requires root.pos == 0 && Size(root.body) == total && SplitParts(root, total, eof, Eof, parts)
    ensures parts[|parts| - 1] == Cell(eof, total, Eof)
    ensures forall i {:trigger parts[i]} :: 0 <= i < |parts| ==> parts[i].body.Raw? || parts[i] == Cell(eof, total, Eof)
    ensures total > 0 ==> parts[0].item == root.item && parts[0].body.Raw? && Size(parts[0].body) == total
  {
    var k :| 0 <= k < |parts| && parts[k] == Cell(eof, total, Eof);
    InnerFull(parts, total, k);
  }

  lemma StartSettled(parts: seq<Cell>, eof: Item, file: seq<byte>)
    requires RawsMatch(parts, file) && |parts| > 0 && parts[|parts| - 1] == Cell(eof, |file|, Eof)
    requires forall i {:trigger parts[i]} :: 0 <= i < |parts| ==> parts[i].body.Raw? || parts[i] == Cell(eof, |file|, Eof)
    ensures Settled(parts, file, {})
  {
    hide Closed, Reached, EntryOf, Image, RawMatches, SwitchMasked;
    EofFaithful(eof, file);
    hide Faithful;
    forall i | 0 <= i < |parts|
      ensures Faithful(parts[i], file)
    {
      if parts[i].body.Raw? {
        RawFaithful(parts[i], file);
      }
    }
  }

  lemma EofFaithful(eof: Item, file: seq<byte>)
    ensures Faithful(Cell(eof, |file|, Eof), file)
  {
  }

  lemma RawSpan(b: Body)
    requires b.Raw?
    ensures Size(b) == b.view.size
  {
  }

  /** The entry point lies in what is still raw behind the header. */
  lemma EntryRaw(before: seq<Cell>, after: seq<Cell>, file: seq<byte>, header: Item, body: Body, parts: seq<Cell>, k: nat)
    requires Tiling(before, |file|) && Tiling(after, |file|) && |before| > 0 && HeaderReadable(file)
    requires forall i {:trigger before[i]} :: 0 <= i < |before| ==> before[i].body.Raw? || before[i].pos == |file|
    requires SplitParts(before[0], 0, header, body, parts) && after == Replaced(before, 0, parts)
    requires Size(body) == HeaderLength(Word32(file, 8)) && k < |after| && Covers(after[k], Word32(file, 4))
    ensures after[k].body.Raw? && (Size(before[0].body) == |file| ==> End(after[k]) == |file|)
  {
    hide Size;
    ReplacedFrom(before, 0, parts, k);
    assert before[0].pos == 0;
    if Size(before[0].body) == |file| {
      var last := |parts| - 1;
      RawSpan(before[0].body);
      HeaderBounds(file);
      assert after[last] == parts[last];
      CoverUnique(after, |file|, k, last, Word32(file, 4));
    }
  }

  /** The file as one raw item and the end mark. */
  method Start(src: View) returns (ctx: Context, root: Item)
    requires src.Valid()
    ensures fresh(ctx) && fresh(ctx.m.repr) && ctx.file == src.Bytes() && Visitable(ctx, {})
    ensures forall i {:trigger ctx.m.cells[i]} :: 0 <= i < |ctx.m.cells| ==> ctx.m.cells[i].body.Raw? || ctx.m.cells[i].pos == |ctx.file|
    ensures |ctx.file| > 0 ==> |ctx.children| > 0 && ctx.children[0] == root && root.position == 0 && root.body.Raw? && Size(root.body) == |ctx.file|
  {
    hide Sound, Mirrors, SplitParts, Settled, RawMatches, Tiling, RawsMatch, Replaced;
    ctx := new Context(src.Bytes());
    root := new Item(Raw(src));
    ctx.SetupParseFrom(root);
    var eof := ctx.Create(Eof);
    ghost var cells := ctx.m.cells;
    Splittable(ctx, root, src.size, eof, 0);
    ghost var parts := ctx.Split2(root, src.size, eof, 0);
    Started(ctx, cells, root, src, eof, parts);
  }

  /** The list once the end mark has been cut off. */
  lemma Started(ctx: Context, cells: seq<Cell>, root: Item, src: View, eof: Item, parts: seq<Cell>)
    requires ctx.Core() && src.Valid() && ctx.file == src.Bytes() && cells == [Cell(root, 0, Raw(src))]
    requires SplitParts(cells[0], src.size, eof, Eof, parts) && ctx.m.cells == Replaced(cells, 0, parts)
    ensures Visitable(ctx, {})
    ensures forall i {:trigger ctx.m.cells[i]} :: 0 <= i < |ctx.m.cells| ==> ctx.m.cells[i].body.Raw? || ctx.m.cells[i].pos == |ctx.file|
    ensures |ctx.file| > 0 ==> |ctx.children| > 0 && ctx.children[0] == root && root.position == 0 && root.body.Raw? && Size(root.body) == |ctx.file|
  {
    hide Linked, Anchored, Indexed, AllRefsKnown, Distinct, SplitParts, Settled, RawMatches;
    assert ctx.m.cells == parts;
    StartParts(cells[0], parts, eof, |ctx.file|);
    StartSettled(parts, eof, ctx.file);
  }

  /** The entry point of a file is a switch that leads nowhere. */
  ghost predicate LoneSwitch(file: seq<byte>, table: Table) {
    HeaderReadable(file) && DeadEnd(table, file[Word32(file, 4)..], |file|)
  }

  lemma LoneReadable(file: seq<byte>, table: Table)
    ensures LoneSwitch(file, table) ==> HeaderReadable(file)
  {
  }

  lemma LoneLeadsNowhere(file: seq<byte>, table: Table, c: Cell)
    requires LoneSwitch(file, table) && c.pos <= Word32(file, 4) && End(c) == |file|
    ensures LeadsNowhere(c, file, table, Word32(file, 4))
  {
    hide DeadEnd, Word32, Size;
    HeaderBounds(file);
    assert file[Word32(file, 4)..|file|] == file[Word32(file, 4)..];
  }

  /** Cuts the header off and disassembles from the entry point on. */
  method CreateHeader(ctx: Context, table: Table, root: Item, b: seq<byte>) returns (ok: bool)
    requires Visitable(ctx, {}) && b == ctx.file
    requires forall i {:trigger ctx.m.cells[i]} :: 0 <= i < |ctx.m.cells| ==> ctx.m.cells[i].body.Raw? || ctx.m.cells[i].pos == |ctx.file|
    requires |b| > 0 ==> |ctx.children| > 0 && ctx.children[0] == root && root.position == 0 && root.body.Raw? && Size(root.body) == |b|
    modifies ctx, ctx.m.repr
    ensures fresh(ctx.m.repr - old(ctx.m.repr))
    ensures !ok ==> ctx.Core() && (HeaderReadable(b) ==> Refused(ctx.m.cells, b, table))
    ensures ok ==> HeaderReadable(b) && Visitable(ctx, {}) && Headed(ctx.m.cells, b) && InstructionAt(ctx.m.cells, Word32(b, 4))
    ensures ok ==> SwitchThere(ctx.m.cells, b, table, Word32(b, 4)) && AllFormed(ctx.m.cells, b, table)
    ensures LoneSwitch(b, table) ==> ok
  {
    hide AllFormed, CodeSought, Sound, Mirrors, Settled, Grows, RawBytes, RawMatches, ReadsAs, HeaderReadable, SplitParts, Replaced, Covers, Word32, Image, InstructionAt, Reached, Refused, SwitchThere, LoneSwitch, LeadsNowhere, Headed, Visits, FallsThrough;
    SettledEnds(ctx, {});
    CoreTiles(ctx);
    ghost var before := ctx.m.cells;
    RootIs(ctx, root, before);
    NoneYet(before, b, table);
    var body := ParseHeader(ctx, b);
    if body.None? {
      LoneReadable(b, table);
      return false;
    }
    HeaderBounds(b);
    HeaderReads(b, body.value.entry);
    RootIs(ctx, root, before);
    var whole := Rest(ctx, root, 0, 0);
    WholeFile(Cell(root, 0, root.body), b);
    ghost var parts;
    var it;
    it, parts := CutIn(ctx, root, 0, body.value, 0, {}, whole);
    FormedCut(before, ctx.m.cells, b, table, 0, 0, it, body.value, parts);
    ghost var between := ctx.m.cells;
    var entry := body.value.entry;
    ghost var k := EntryReady(ctx, table, before, it, body.value, parts, entry);
    EntryWord(b, table);
    ok := CreateAndInsert(ctx, table, entry.item, entry.offset, k, {});
    if ok {
      HeaderStays(between, ctx.m.cells, Cell(it, 0, body.value), b);
    }
  }

  lemma HeaderStays(before: seq<Cell>, after: seq<Cell>, c: Cell, file: seq<byte>)
    requires Grows(before, after) && c in before && c.pos == 0 && c.body.Header? && HeaderReadable(file) && c.body == HeaderAt(file, c.body.entry)
    ensures Headed(after, file)
  {
    hide Grows, HeaderReadable, HeaderAt;
    StaysThere(before, after, c);
    var i :| 0 <= i < |after| && after[i] == c;
  }

  /** A list of raw items and an end mark has no instruction that is not what the table says. */
  lemma NoneYet(cells: seq<Cell>, file: seq<byte>, table: Table)
    requires Tiling(cells, |file|) && forall i {:trigger cells[i]} :: 0 <= i < |cells| ==> cells[i].body.Raw? || cells[i].pos == |file|
    ensures AllFormed(cells, file, table)
  {
    forall i | 0 <= i < |cells| && (IsInstruction(cells[i].body) || cells[i].body.CString?)
      ensures false
    {
      if i + 1 < |cells| {
        TilingOrder(cells, |file|, i, |cells| - 1);
      }
    }
  }

  lemma EntryWord(file: seq<byte>, table: Table)
    requires |file| >= 8
    ensures CodeSought(file, table, Word32(file, 4))
  {
    hide Word32, Four;
    WordsAre(file, 4);
    EntrySought(file, table);
  }

  lemma EntryReached(cells: seq<Cell>, file: seq<byte>)
    requires |file| >= 8
    ensures Reached(cells, EntryOf(file), Word32(file, 4))
  {
    assert Steps(cells, EntryOf(file), Word32(file, 4), 0);
  }

  lemma CoreTiles(ctx: Context)
    requires ctx.Core()
    ensures Tiling(ctx.m.cells, |ctx.file|)
  {
  }

  lemma RootIs(ctx: Context, root: Item, before: seq<Cell>)
    requires ctx.Core() && ctx.m.cells == before
    ensures |ctx.children| > 0 && ctx.children[0] == root ==> |before| > 0 && before[0] == Cell(root, root.position, root.body)
  {
  }

  lemma WholeFile(c: Cell, file: seq<byte>)
    requires RawMatches(c, file) && c.pos == 0 && Size(c.body) == |file|
    ensures c.body.view.Slice(0, c.body.view.size).Bytes() == file
  {
    RestOfRaw(c, file, 0);
    assert file[0..|file|] == file;
  }

  /** Where the entry point label points once the header is in the list. */
  lemma EntryLands(ctx: Context, before: seq<Cell>, header: Item, body: Body, parts: seq<Cell>, entry: Label) returns (k: nat)
    requires ctx.Core() && Known(entry, ctx.labels) && HeaderReadable(ctx.file) && entry.target == Word32(ctx.file, 4)
    requires Tiling(before, |ctx.file|) && |before| > 0
    requires forall i {:trigger before[i]} :: 0 <= i < |before| ==> before[i].body.Raw? || before[i].pos == |ctx.file|
    requires SplitParts(before[0], 0, header, body, parts) && ctx.m.cells == Replaced(before, 0, parts)
    requires Size(body) == HeaderLength(Word32(ctx.file, 8))
    ensures entry in ctx.m.repr && entry.item != null && k < |ctx.children| && ctx.children[k] == entry.item && entry.item.body.Raw?
    ensures entry.item.position + entry.offset == entry.target && entry.offset <= Size(entry.item.body)
    ensures k < |ctx.m.cells| && ctx.m.cells[k].pos == entry.item.position && (Size(before[0].body) == |ctx.file| ==> End(ctx.m.cells[k]) == |ctx.file|)
  {
    hide SplitParts, Replaced, HeaderReadable, Covers, Linked, Anchored, Indexed, AllRefsKnown, Distinct, Tiling, Size;
    k := Landing(ctx, entry);
    EntryRaw(before, ctx.m.cells, ctx.file, header, body, parts, k);
  }

  /** Everything is ready at the entry point. */
  lemma EntryReady(ctx: Context, table: Table, before: seq<Cell>, header: Item, body: Body, parts: seq<Cell>, entry: Label) returns (k: nat)
    requires ctx.Core() && Known(entry, ctx.labels) && HeaderReadable(ctx.file) && entry.target == Word32(ctx.file, 4) && |ctx.file| >= 8
    requires Tiling(before, |ctx.file|) && |before| > 0
    requires forall i {:trigger before[i]} :: 0 <= i < |before| ==> before[i].body.Raw? || before[i].pos == |ctx.file|
    requires SplitParts(before[0], 0, header, body, parts) && ctx.m.cells == Replaced(before, 0, parts)
    requires Size(body) == HeaderLength(Word32(ctx.file, 8)) && Size(before[0].body) == |ctx.file|
    ensures entry in ctx.m.repr && entry.item != null && k < |ctx.children| && ctx.children[k] == entry.item && entry.item.body.Raw?
    ensures entry.item.position + entry.offset == entry.target && entry.offset <= Size(entry.item.body)
    ensures Reached(ctx.m.cells, EntryOf(ctx.file), entry.target) && k < |ctx.m.cells|
    ensures LoneSwitch(ctx.file, table) ==> LeadsNowhere(ctx.m.cells[k], ctx.file, table, entry.target)
  {
    hide Sound, Mirrors, SplitParts, Replaced, HeaderReadable, Covers, Tiling, Size, LoneSwitch, LeadsNowhere, Word32;
    k := EntryLands(ctx, before, header, body, parts, entry);
    EntryReached(ctx.m.cells, ctx.file);
    if LoneSwitch(ctx.file, table) {
      LoneLeadsNowhere(ctx.file, table, ctx.m.cells[k]);
    }
  }

  /** The list starts with the header that the file starts with. */
  ghost predicate Headed(cells: seq<Cell>, file: seq<byte>) {
    && HeaderReadable(file)
    && exists i :: 0 <= i < |cells| && cells[i].pos == 0 && cells[i].body.Header? && cells[i].body == HeaderAt(file, cells[i].body.entry)
  }

  lemma HeaderBounds(b: seq<byte>)
    requires HeaderReadable(b)
    ensures |b| >= 12 && 12 <= HeaderLength(Word32(b, 8)) <= Word32(b, 4) < |b|
  {
  }

  /** Disassembles a file. */
  method Parse(src: View, table: Table) returns (ctx: Context, ok: bool)
    requires src.Valid()
    ensures fresh(ctx) && fresh(ctx.m.repr) && ctx.file == src.Bytes()
    ensures !ok ==> ctx.Core() && (HeaderReadable(ctx.file) ==> Refused(ctx.m.cells, ctx.file, table))
    ensures ok ==> HeaderReadable(ctx.file) && Visitable(ctx, {}) && Headed(ctx.m.cells, ctx.file)
    ensures ok ==> InstructionAt(ctx.m.cells, Word32(ctx.file, 4)) && SwitchThere(ctx.m.cells, ctx.file, table, Word32(ctx.file, 4))
    ensures ok ==> AllFormed(ctx.m.cells, ctx.file, table) && AllServed(ctx.m.cells, ctx.file, table)
    ensures LoneSwitch(ctx.file, table) ==> ok
  {
    hide AllFormed, AllServed, Sound, Mirrors, Settled, HeaderReadable, Headed, InstructionAt, Refused, SwitchThere, LoneSwitch;
    var root;
    ctx, root := Start(src);
    ok := CreateHeader(ctx, table, root, src.Bytes());
    if ok {
      CoreTiles(ctx);
      AllMeant(ctx.m.cells, ctx.file, table);
    }
  }

  /** Every label an item refers to points into the list, at the file position it was created for. */
  ghost predicate Printable(ctx: Context)
    reads ctx, ctx.m.repr
  {
    && ctx.Shape() && AllRefsKnown(ctx.m.cells, ctx.labels)
    && Anchored(ctx.m.cells, ctx.labels, ctx.m.ptrs)
  }

  /** The file position a label stands for. */
  function ToFilePos(l: Label): (p: nat)
    requires l.item != null
    reads l, l.item
  {
    l.item.position + l.offset
  }

  lemma KnownLands(ctx: Context, l: Label)
    requires Printable(ctx) && Known(l, ctx.labels)
    ensures l.item != null && ToFilePos(l) == l.target
  {
    ghost var k: nat :| Holds(ctx.m.cells, k, ctx.m.ptrs[l.name], ctx.labels[l.name].target);
  }

  method DumpArgs(ctx: Context, args: seq<Operand>) returns (out: seq<byte>)
    requires Printable(ctx) && ArgsKnown(args, ctx.labels)
    ensures out == ArgsImage(args)
  {
    hide Printable, Le;
    out := [];
    for i := 0 to |args|
      invariant Printable(ctx) && out == ArgsImage(args[..i])
    {
      assert args[..i + 1][..i] == args[..i];
      assert ArgKnown(args[i], ctx.labels);
      match args[i]
      case Number(kind, value) => out := out + Le(Width(kind), value);
      case Pointer(_, lbl) =>
        if lbl == null {
          out := out + Le(4, 0);
        } else {
          KnownLands(ctx, lbl);
          out := out + Le(4, ToFilePos(lbl));
        }
    }
    assert args[..|args|] == args;
  }

  method DumpTargets(ctx: Context, tgts: seq<Label>) returns (out: seq<byte>)
    requires Printable(ctx) && forall i {:trigger tgts[i]} :: 0 <= i < |tgts| ==> Known(tgts[i], ctx.labels)
    ensures out == TargetsImage(tgts)
  {
    hide Printable, Le;
    out := [];
    for i := 0 to |tgts|
      invariant Printable(ctx) && out == TargetsImage(tgts[..i])
    {
      assert tgts[..i + 1][..i] == tgts[..i];
      KnownLands(ctx, tgts[i]);
      out := out + Le(4, ToFilePos(tgts[i]));
    }
    assert tgts[..|tgts|] == tgts;
  }

  method DumpTree(tree: seq<Node>) returns (out: seq<byte>)
    ensures out == NodesBytes(tree)
  {
    hide NodeBytes;
    out := [];
    for i := 0 to |tree|
      invariant out == NodesBytes(tree[..i])
    {
      assert tree[..i + 1][..i] == tree[..i];
      out := out + NodeBytes(tree[i]);
    }
    assert tree[..|tree|] == tree;
  }

  method DumpExprs(ctx: Context, exprs: seq<Expr>) returns (out: seq<byte>)
    requires Printable(ctx) && forall i {:trigger exprs[i]} :: 0 <= i < |exprs| ==> Known(exprs[i].target, ctx.labels)
    ensures out == ExprsImage(exprs)
  {
    hide Printable, Le;
    out := [];
    for i := 0 to |exprs|
      invariant Printable(ctx) && out == ExprsImage(exprs[..i])
    {
      assert exprs[..i + 1][..i] == exprs[..i];
      KnownLands(ctx, exprs[i].target);
      out := out + (Le(4, exprs[i].expression) + Le(4, ToFilePos(exprs[i].target)));
    }
    assert exprs[..|exprs|] == exprs;
  }

  method DumpItem(ctx: Context, it: Item) returns (out: seq<byte>)
    requires Printable(ctx) && RefsKnown(it.body, ctx.labels) && (it.body.Raw? ==> it.body.view.Valid())
    ensures out == Image(it.body)
  {
    hide Printable, Le, ArgsImage, TargetsImage, NodesBytes, ExprsImage;
    match it.body
    case Raw(view) => out := view.Bytes();
    case Eof => out := [];
    case CString(str) => out := str + [0];
    case Header(entry, e1, e2, e4) =>
      KnownLands(ctx, entry);
      out := HeaderBytes(ToFilePos(entry), e1, e2, e4);
    case Simple(opcode, _, args) =>
      assert forall i {:trigger args[i]} :: 0 <= i < |args| ==> ArgKnown(args[i], ctx.labels);
      var rest := DumpArgs(ctx, args);
      out := [opcode] + rest;
    case RndJump(opcode, tgts) =>
      var rest := DumpTargets(ctx, tgts);
      out := [opcode] + Le(1, |tgts|) + rest;
    case JumpIf(opcode, tgt, tree) =>
      KnownLands(ctx, tgt);
      var rest := DumpTree(tree);
      out := [opcode] + Le(2, |tree|) + Le(4, ToFilePos(tgt)) + rest;
    case JumpSwitch(opcode, expected, d, exprs, trailing) =>
      var rest := DumpExprs(ctx, exprs);
      out := [opcode] + Le(4, expected) + Le(2, SwitchWord(d, |exprs|)) + rest + (if trailing.Some? then [trailing.value] else []);
  }

  /** Writes the items one after the other. */
  method Dump(ctx: Context) returns (out: seq<byte>)
    requires Printable(ctx) && RawsMatch(ctx.m.cells, ctx.file)
    ensures out == ListImage(ctx.m.cells)
  {
    hide Distinct, Image, RefsKnown;
    out := [];
    for i := 0 to |ctx.children|
      invariant Printable(ctx) && out == ListImage(ctx.m.cells[..i])
    {
      assert ctx.m.cells[..i + 1][..i] == ctx.m.cells[..i];
      var part := DumpItem(ctx, ctx.children[i]);
      out := out + part;
    }
    assert ctx.m.cells[..|ctx.m.cells|] == ctx.m.cells;
  }

  /** Laying out a sound list again moves nothing, so that it can be written. */
  lemma SoundPrintable(ctx: Context, pmap: map<nat, Item>)
    requires ctx.Shape() && Sound(ctx.m, ctx.labels, pmap, ctx.file)
    ensures Printable(ctx) && RawsMatch(ctx.m.cells, ctx.file)
  {
    hide Linked, Tiling, Indexed, Distinct, RefsKnown, RawMatches;
  }

  lemma SoundLaidOut(m: Mirror, labels: map<string, Label>, pmap: map<nat, Item>, file: seq<byte>)
    requires Sound(m, labels, pmap, file)
    ensures m.(cells := LaidOut(m.cells)) == m
  {
    hide Linked, Anchored, Indexed, AllRefsKnown, RawsMatch;
    forall i | 0 <= i < |m.cells|
      ensures LaidOut(m.cells)[i] == m.cells[i]
    {
      TilingLaidOut(m.cells, |file|, i);
    }
    assert LaidOut(m.cells) == m.cells;
  }

  /** Reading a file and writing it back: the sizes agree, and the bytes agree if and only if every
      switch that was disassembled has a canonical size word. */
  method Rewrite(src: View, table: Table) returns (ok: bool, out: seq<byte>, ghost cells: seq<Cell>)
    requires src.Valid()
    ensures ok ==> Tiling(cells, src.size) && Settled(cells, src.Bytes(), {}) && Headed(cells, src.Bytes())
    ensures ok ==> |out| == src.size
    ensures ok ==> (out == src.Bytes() <==> forall k {:trigger cells[k]} :: 0 <= k < |cells| ==> Canonical(cells[k], src.Bytes()))
    ensures ok ==> SwitchThere(cells, src.Bytes(), table, Word32(src.Bytes(), 4))
    ensures ok ==> AllFormed(cells, src.Bytes(), table) && AllServed(cells, src.Bytes(), table)
    ensures LoneSwitch(src.Bytes(), table) ==> ok
  {
    hide Sound, Mirrors, HeaderReadable, Headed, InstructionAt, Refused, Canonical, ListImage, Tiling, ClosedExcept, AllReached, Ended, AllFaithful, SwitchThere, LoneSwitch, AllFormed, AllServed;
    var ctx;
    ctx, ok := Parse(src, table);
    cells := ctx.m.cells;
    out := [];
    if !ok {
      return;
    }
    CoreTiles(ctx);
    ghost var pmap := ctx.pmap;
    SoundLaidOut(ctx.m, ctx.labels, pmap, ctx.file);
    ctx.Fixup();
    SoundPrintable(ctx, pmap);
    out := Dump(ctx);
    DumpIdentity(cells, ctx.file);
  }

  /** A header and a switch with the default flag and bit 11 of its size word set; behind that, zeros. */
  function LossyFile(opcode: byte): seq<byte> {
    [83, 84, 83, 67, 12, 0, 0, 0, 0, 0, 0, 0] + [opcode, 0, 0, 0, 0, 0, 0x88] + Zeros(8 * 0x8800)
  }

  lemma LossyParts(opcode: byte)
    ensures var f := LossyFile(opcode);
            && |f| == 19 + 8 * 0x8800 && f[..4] == [83, 84, 83, 67] && Word32(f, 4) == 12 && Word32(f, 8) == 0
            && f[12] == opcode && Word16(f, 17) == 0x8800
  {
    hide De, Zeros;
    var f := LossyFile(opcode);
    assert f[4..8] == [12, 0, 0, 0] && f[8..12] == [0, 0, 0, 0] && f[17..19] == [0, 0x88];
    De4(12, 0, 0, 0);
    De4(0, 0, 0, 0);
    De2(0, 0x88);
  }

  lemma De2(a: byte, b: byte)
    ensures De([a, b]) == a + 256 * b
  {
    assert [a, b][1..] == [b] && De([b]) == b;
  }

  lemma LossyLone(opcode: byte, table: Table)
    requires table[opcode] == JumpSwitchOp(false)
    ensures HeaderReadable(LossyFile(opcode)) && LoneSwitch(LossyFile(opcode), table)
  {
    hide De, LossyFile;
    LossyParts(opcode);
    var f := LossyFile(opcode);
    var b := f[12..];
    assert b[5..7] == f[17..19] && b[0] == f[12];
    assert SwitchCount(0x8800) == 0;
  }

  lemma NotCanonical(c: Cell, file: seq<byte>)
    requires Faithful(c, file) && c.body.JumpSwitch? && c.pos + 7 <= |file| && Word16(file, c.pos + 5) == 0x8800
    ensures !Canonical(c, file)
  {
    hide De, Image;
  }

  lemma SwitchFaithful(cells: seq<Cell>, file: seq<byte>, table: Table, p: nat)
    requires Settled(cells, file, {}) && SwitchThere(cells, file, table, p) && p < |file| && table[file[p]].JumpSwitchOp?
    ensures exists k :: 0 <= k < |cells| && cells[k].pos == p && cells[k].body.JumpSwitch? && Faithful(cells[k], file)
  {
    hide ClosedExcept, AllReached, Ended, Faithful;
    var k :| 0 <= k < |cells| && cells[k].pos == p && cells[k].body.JumpSwitch?;
    assert Faithful(cells[k], file);
  }

  /** A whole file that is read and comes back different, though as long. */
  method RewriteLoses(opcode: byte, table: Table) returns (ok: bool, out: seq<byte>)
    requires table[opcode] == JumpSwitchOp(false)
    ensures ok && |out| == |LossyFile(opcode)| && out != LossyFile(opcode)
  {
    hide De, LossyFile, Settled, SwitchThere, LoneSwitch, Headed, Tiling, Canonical, Faithful, HeaderReadable;
    var f := LossyFile(opcode);
    var src := View(f, 0, |f|);
    assert src.Bytes() == f;
    LossyLone(opcode, table);
    LossyParts(opcode);
    ghost var cells;
    ok, out, cells := Rewrite(src, table);
    SwitchFaithful(cells, f, table, 12);
    ghost var k :| 0 <= k < |cells| && cells[k].pos == 12 && cells[k].body.JumpSwitch? && Faithful(cells[k], f);
    NotCanonical(cells[k], f);
  }
}
