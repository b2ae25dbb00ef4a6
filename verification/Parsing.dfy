/** Reading the items of an STSC file from raw bytes. Labels are the only thing a constructor adds. */
module Parsing {
  import opened Bytes
  import opened Numbers
  import opened Items
  import opened Opcodes
  import opened Names
  import opened Registry
  import opened Contexts
  import opened Images
  import opened Closure

  /** Since the old state only labels have been added. */
  twostate predicate OnlyLabels(ctx: Context)
    reads ctx, ctx.m.repr
  {
    && ctx.Core() && ctx.children == old(ctx.children) && ctx.m.cells == old(ctx.m.cells)
    && old(ctx.m.repr) <= ctx.m.repr && Extends(old(ctx.labels), ctx.labels)
  }

  ghost predicate CanLabel(ctx: Context)
    reads ctx, ctx.m.repr
  {
    ctx.Core() && Ended(ctx.m.cells)
  }

  /** A label for a file position, found or made. */
  method LabelAt(ctx: Context, pos: nat, name: string) returns (l: Label)
    requires CanLabel(ctx) && pos <= |ctx.file|
    modifies ctx, ctx.m.repr
    ensures OnlyLabels(ctx) && fresh(ctx.m.repr - old(ctx.m.repr))
    ensures Known(l, ctx.labels) && l.target == pos && (ctx.labels != old(ctx.labels) ==> FirstFree(l.name, name, old(ctx.labels).Keys))
  {
    hide Linked, Anchored, Tiling, Indexed, RawsMatch, AllRefsKnown, Distinct, FirstAt, NoneAt, FirstFree;
    var it, offset, k := ctx.GetPointer(pos);
    l := ctx.GetLabelTo(it, offset, name, k);
  }

  method PointerLabel(ctx: Context, pos: nat) returns (l: Label)
    requires CanLabel(ctx) && pos <= |ctx.file|
    modifies ctx, ctx.m.repr
    ensures OnlyLabels(ctx) && fresh(ctx.m.repr - old(ctx.m.repr))
    ensures Known(l, ctx.labels) && l.target == pos && (ctx.labels != old(ctx.labels) ==> FirstFree(l.name, LocName(pos), old(ctx.labels).Keys))
  {
    hide FirstFree;
    l := LabelAt(ctx, pos, LocName(pos));
  }

  /** The raw item that holds a position has no zero byte from there on. */
  ghost predicate Unterminated(cells: seq<Cell>, file: seq<byte>, pos: nat) {
    exists i :: 0 <= i < |cells| && cells[i].body.Raw? && Covers(cells[i], pos) && End(cells[i]) <= |file| && 0 !in file[pos..End(cells[i])]
  }

  /** The bytes of a raw item from an offset on. */
  lemma RestOfRaw(c: Cell, file: seq<byte>, offset: nat)
    requires RawMatches(c, file) && offset <= c.body.view.size
    ensures c.body.view.Slice(offset, c.body.view.size - offset).Bytes() == file[c.pos + offset..End(c)]
  {
    SliceOfSlice(file, c.pos, End(c), offset, c.body.view.size);
  }

  lemma RawBounds(c: Cell, file: seq<byte>)
    requires RawMatches(c, file)
    ensures c.body.Raw? && c.body.view.Valid() && End(c) == c.pos + c.body.view.size <= |file|
  {
  }

  lemma UnterminatedAt(cells: seq<Cell>, file: seq<byte>, k: nat, pos: nat)
    requires Tiling(cells, |file|) && k < |cells| && Covers(cells[k], pos) && (cells[k].body.Raw? ==> RawMatches(cells[k], file))
    ensures Unterminated(cells, file, pos) <==>
              cells[k].body.Raw? && 0 !in cells[k].body.view.Slice(pos - cells[k].pos, End(cells[k]) - pos).Bytes()
  {
    hide Tiling, RawMatches;
    if cells[k].body.Raw? {
      RawBounds(cells[k], file);
      RestOfRaw(cells[k], file, pos - cells[k].pos);
    }
    if Unterminated(cells, file, pos) {
      var i :| 0 <= i < |cells| && cells[i].body.Raw? && Covers(cells[i], pos) && End(cells[i]) <= |file| && 0 !in file[pos..End(cells[i])];
      CoverUnique(cells, |file|, i, k, pos);
    }
  }

  lemma RawHere(ctx: Context, k: nat, pos: nat)
    requires ctx.Core() && k < |ctx.m.cells| && Covers(ctx.m.cells[k], pos)
    ensures Unterminated(ctx.m.cells, ctx.file, pos) <==>
              ctx.m.cells[k].body.Raw? && pos <= End(ctx.m.cells[k]) && ctx.m.cells[k].body.view.Valid() &&
              0 !in ctx.m.cells[k].body.view.Slice(pos - ctx.m.cells[k].pos, End(ctx.m.cells[k]) - pos).Bytes()
    ensures ctx.m.cells[k].body.Raw? ==> ctx.m.cells[k].body.view.Valid()
  {
    hide Linked, Anchored, Indexed, AllRefsKnown, Distinct;
    UnterminatedAt(ctx.m.cells, ctx.file, k, pos);
  }

  /** The name for a string operand: that of the letters up to a zero in a raw item, else that of its position. */
  ghost predicate NamedFor(cells: seq<Cell>, file: seq<byte>, pos: nat, name: string) {
    exists k {:trigger cells[k]} :: 0 <= k < |cells| && Covers(cells[k], pos) &&
      if !cells[k].body.Raw? then name == LocName(pos)
      else exists str {:trigger StringName(str)} :: ZeroEnded(file, pos, End(cells[k]), str) && name == StringName(str)
  }

  /** A string, and a zero behind it in front of `end`. */
  predicate ZeroEnded(file: seq<byte>, pos: nat, end: nat, str: seq<byte>) {
    pos + |str| < end <= |file| && 0 !in str && file[pos..pos + |str|] == str && file[pos + |str|] == 0
  }

  lemma ZeroFound(file: seq<byte>, pos: nat, end: nat)
    requires pos <= end <= |file|
    ensures CStringIn(file[pos..end]).Some? ==> ZeroEnded(file, pos, end, CStringIn(file[pos..end]).value)
  {
    hide CStringIn;
    var rest := file[pos..end];
    var str := CStringIn(rest);
    if str.Some? {
      var n := |str.value|;
      assert rest[..n] == file[pos..pos + n] && rest[n] == file[pos + n];
    }
  }

  /** The string in the bytes of a raw item is the one in the file. */
  lemma StringThere(c: Cell, file: seq<byte>, pos: nat)
    requires RawMatches(c, file) && Covers(c, pos)
    ensures c.body.Raw? && c.body.view.Valid() && pos <= End(c) && End(c) == c.pos + c.body.view.size
    ensures var str := CStringIn(c.body.view.Slice(pos - c.pos, End(c) - pos).Bytes()); str.Some? ==> ZeroEnded(file, pos, End(c), str.value)
  {
    hide CStringIn, ZeroEnded, RawMatches;
    RawBounds(c, file);
    RestOfRaw(c, file, pos - c.pos);
    ZeroFound(file, pos, End(c));
  }

  lemma NameThere(ctx: Context, k: nat, pos: nat)
    requires ctx.Core() && k < |ctx.m.cells| && Covers(ctx.m.cells[k], pos)
    ensures !ctx.m.cells[k].body.Raw? ==> NamedFor(ctx.m.cells, ctx.file, pos, LocName(pos))
    ensures ctx.m.cells[k].body.Raw? ==> ctx.m.cells[k].body.view.Valid() && pos <= End(ctx.m.cells[k])
    ensures ctx.m.cells[k].body.Raw? ==>
              var str := CStringIn(ctx.m.cells[k].body.view.Slice(pos - ctx.m.cells[k].pos, End(ctx.m.cells[k]) - pos).Bytes());
              (str.Some? ==> NamedFor(ctx.m.cells, ctx.file, pos, StringName(str.value)))
  {
    hide Linked, Anchored, Indexed, AllRefsKnown, Distinct, CStringIn, StringName, LocName, Tiling, RawMatches, ZeroEnded, Covers;
    if ctx.m.cells[k].body.Raw? {
      StringThere(ctx.m.cells[k], ctx.file, pos);
    }
  }

  /** The name of a label for a string operand: that of the string if it has not been made an item yet. */
  method TextName(ctx: Context, it: Item, offset: nat, ghost k: nat, pos: nat) returns (r: Option<string>)
    requires ctx.Core() && k < |ctx.m.cells| && ctx.m.cells[k] == Cell(it, it.position, it.body) && Covers(ctx.m.cells[k], pos)
    requires it.position + offset == pos
    ensures r.None? <==> Unterminated(ctx.m.cells, ctx.file, pos)
    ensures r.Some? ==> NamedFor(ctx.m.cells, ctx.file, pos, r.value)
  {
    hide Linked, Anchored, Tiling, Indexed, RawsMatch, AllRefsKnown, Distinct, Unterminated, CStringIn, StringName, LocName, Mirrors, NamedFor, ZeroEnded, RawMatches, Covers, LettersOf, Stem;
    RawHere(ctx, k, pos);
    NameThere(ctx, k, pos);
    if it.body.Raw? {
      var str := CStringIn(it.body.view.Slice(offset, it.body.view.size - offset).Bytes());
      if str.None? {
        return None;
      }
      var name := LabelName(str.value);
      r := Some(name);
    } else {
      r := Some(LocName(pos));
    }
  }

  method StringLabel(ctx: Context, pos: nat) returns (r: Option<Label>)
    requires CanLabel(ctx) && pos <= |ctx.file|
    modifies ctx, ctx.m.repr
    ensures OnlyLabels(ctx) && fresh(ctx.m.repr - old(ctx.m.repr))
    ensures r.None? <==> Unterminated(ctx.m.cells, ctx.file, pos)
    ensures r.Some? ==> Known(r.value, ctx.labels) && r.value.target == pos
    ensures r.Some? && ctx.labels != old(ctx.labels) ==>
              exists name {:trigger NamedFor(ctx.m.cells, ctx.file, pos, name)} :: NamedFor(ctx.m.cells, ctx.file, pos, name) && FirstFree(r.value.name, name, old(ctx.labels).Keys)
  {
    hide Linked, Anchored, Tiling, Indexed, RawsMatch, AllRefsKnown, Distinct, FirstAt, NoneAt, Unterminated, FirstFree, NamedFor;
    var it, offset, k := ctx.GetPointer(pos);
    var name := TextName(ctx, it, offset, k, pos);
    if name.None? {
      return None;
    }
    var l := ctx.GetLabelTo(it, offset, name.value, k);
    r := Some(l);
  }

  function KindsSize(kinds: seq<Kind>): nat {
    if kinds == [] then 0 else KindsSize(kinds[..|kinds| - 1]) + Width(kinds[|kinds| - 1])
  }

  lemma {:induction false} OperandFits(kinds: seq<Kind>, j: nat)
    requires j < |kinds|
    ensures KindsSize(kinds[..j]) + Width(kinds[j]) == KindsSize(kinds[..j + 1]) <= KindsSize(kinds)
    decreases |kinds|
  {
    assert kinds[..j + 1][..j] == kinds[..j];
    if j + 1 < |kinds| {
      var init := kinds[..|kinds| - 1];
      OperandFits(init, j);
      assert init[..j] == kinds[..j] && init[..j + 1] == kinds[..j + 1];
    } else {
      assert kinds[..j + 1] == kinds;
    }
  }

  /** Operand `j` of packed operands, as a number. */
  function Word(kinds: seq<Kind>, b: seq<byte>, j: nat): nat
    requires j < |kinds| && KindsSize(kinds) <= |b|
  {
    OperandFits(kinds, j);
    De(b[KindsSize(kinds[..j])..KindsSize(kinds[..j]) + Width(kinds[j])])
  }

  predicate IsPointer(k: Kind) { k == DataPtr || k == StrPtr || k == CodePtr }

  /** No pointer among the operands leads past `size`. */
  predicate PointersFit(kinds: seq<Kind>, b: seq<byte>, size: nat)
    requires KindsSize(kinds) <= |b|
  {
    forall j {:trigger kinds[j]} :: 0 <= j < |kinds| && IsPointer(kinds[j]) ==> Word(kinds, b, j) <= size
  }

  method ValidateArgs(kinds: seq<Kind>, b: seq<byte>, size: nat) returns (ok: bool)
    requires KindsSize(kinds) <= |b|
    ensures ok <==> PointersFit(kinds, b, size)
  {
    for j := 0 to |kinds|
      invariant forall i {:trigger kinds[i]} :: 0 <= i < j && IsPointer(kinds[i]) ==> Word(kinds, b, i) <= size
    {
      if IsPointer(kinds[j]) && Word(kinds, b, j) > size {
        return false;
      }
    }
    return true;
  }

  /** What an operand says about the number it was read from. */
  ghost predicate Decoded(o: Operand, kind: Kind, word: nat) {
    && o.kind == kind && (o.Pointer? <==> IsPointer(kind))
    && match o
       case Number(_, value) => value == word
       case Pointer(_, lbl) => if word == 0 then lbl == null else lbl != null && lbl.target == word
  }

  ghost predicate ArgsDecoded(args: seq<Operand>, kinds: seq<Kind>, b: seq<byte>)
    requires KindsSize(kinds) <= |b|
  {
    |args| <= |kinds| && forall j {:trigger args[j]} :: 0 <= j < |args| ==> Decoded(args[j], kinds[j], Word(kinds, b, j))
  }

  ghost predicate ArgKnown(o: Operand, labels: map<string, Label>) {
    o.Pointer? && o.lbl != null ==> Known(o.lbl, labels)
  }

  ghost predicate ArgsKnown(args: seq<Operand>, labels: map<string, Label>) {
    forall i {:trigger args[i]} :: 0 <= i < |args| ==> ArgKnown(args[i], labels)
  }

  lemma ArgsStayKnown(args: seq<Operand>, before: map<string, Label>, after: map<string, Label>)
    requires ArgsKnown(args, before) && Extends(before, after)
    ensures ArgsKnown(args, after)
  {
  }

  /** A string operand that cannot be named. */
  ghost predicate Unnameable(kind: Kind, word: nat, cells: seq<Cell>, file: seq<byte>) {
    kind == StrPtr && word != 0 && Unterminated(cells, file, word)
  }

  method ParseArg(ctx: Context, kind: Kind, word: nat) returns (r: Option<Operand>)
    requires CanLabel(ctx) && (IsPointer(kind) ==> word <= |ctx.file|)
    modifies ctx, ctx.m.repr
    ensures OnlyLabels(ctx) && fresh(ctx.m.repr - old(ctx.m.repr))
    ensures r.None? <==> Unnameable(kind, word, ctx.m.cells, ctx.file)
    ensures r.Some? ==> Decoded(r.value, kind, word) && ArgKnown(r.value, ctx.labels)
  {
    hide Sound, Mirrors, Unterminated;
    if !IsPointer(kind) {
      return Some(Number(kind, word));
    }
    if word == 0 {
      return Some(Pointer(kind, null));
    }
    if kind == StrPtr {
      var s := StringLabel(ctx, word);
      return if s.None? then None else Some(Pointer(kind, s.value));
    }
    var l := PointerLabel(ctx, word);
    return Some(Pointer(kind, l));
  }

  /** Turns packed operands into arguments; fails exactly at a string operand that cannot be named. */
  method ParseArgs(ctx: Context, kinds: seq<Kind>, b: seq<byte>) returns (r: Option<seq<Operand>>)
    requires CanLabel(ctx) && KindsSize(kinds) <= |b| && PointersFit(kinds, b, |ctx.file|)
    modifies ctx, ctx.m.repr
    ensures OnlyLabels(ctx) && fresh(ctx.m.repr - old(ctx.m.repr))
    ensures r.Some? <==> forall j {:trigger kinds[j]} :: 0 <= j < |kinds| ==> !Unnameable(kinds[j], Word(kinds, b, j), ctx.m.cells, ctx.file)
    ensures r.Some? ==> |r.value| == |kinds| && ArgsDecoded(r.value, kinds, b) && ArgsKnown(r.value, ctx.labels)
  {
    hide Sound, Mirrors, Unnameable, Decoded, Word, KindsSize, ArgKnown;
    var args := [];
    for j := 0 to |kinds|
      invariant OnlyLabels(ctx) && fresh(ctx.m.repr - old(ctx.m.repr))
      invariant |args| == j && ArgsDecoded(args, kinds, b) && ArgsKnown(args, ctx.labels)
      invariant forall i {:trigger kinds[i]} :: 0 <= i < j ==> !Unnameable(kinds[i], Word(kinds, b, i), ctx.m.cells, ctx.file)
    {
      ghost var before := ctx.labels;
      var a := ParseArg(ctx, kinds[j], Word(kinds, b, j));
      if a.None? {
        return None;
      }
      ArgsStayKnown(args, before, ctx.labels);
      args := args + [a.value];
    }
    r := Some(args);
  }

  lemma DecodedOperand(o: Operand, kinds: seq<Kind>, b: seq<byte>, j: nat)
    requires j < |kinds| && KindsSize(kinds) <= |b| && Decoded(o, kinds[j], Word(kinds, b, j))
    ensures var at := KindsSize(kinds[..j]);
            at + Width(kinds[j]) == KindsSize(kinds[..j + 1]) <= KindsSize(kinds) && OperandImage(o) == b[at..at + Width(kinds[j])] && o.kind == kinds[j]
  {
    OperandFits(kinds, j);
    var at := KindsSize(kinds[..j]);
    LeDe(b[at..at + Width(kinds[j])]);
  }

  /** Decoded arguments stand for the bytes they were read from. */
  lemma {:induction false} ArgsImageDecoded(args: seq<Operand>, kinds: seq<Kind>, b: seq<byte>)
    requires KindsSize(kinds) <= |b| && ArgsDecoded(args, kinds, b)
    ensures ArgsSize(args) == KindsSize(kinds[..|args|]) <= KindsSize(kinds) && ArgsImage(args) == b[..ArgsSize(args)]
  {
    hide Decoded, Word, OperandImage, Le, De;
    if args != [] {
      var n := |args| - 1;
      DecodedOperand(args[n], kinds, b, n);
      var at, w := KindsSize(kinds[..n]), Width(kinds[n]);
      hide KindsSize, Width;
      assert ArgsDecoded(args[..n], kinds, b) by {
        assert forall j :: 0 <= j < n ==> args[..n][j] == args[j];
      }
      ArgsImageDecoded(args[..n], kinds, b);
      assert b[..at] + b[at..at + w] == b[..at + w];
    }
  }

  /** The instruction stands for the bytes at the start of `b`. */
  ghost predicate ReadsAs(body: Body, b: seq<byte>) {
    && 0 < Size(body) <= |b| && |Image(body)| == Size(body) && !body.Raw?
    && if body.JumpSwitch? then Size(body) >= 7 && Image(body) == SwitchMasked(b[..Size(body)]) else Image(body) == b[..Size(body)]
  }

  ghost predicate SimpleReadable(kinds: seq<Kind>, b: seq<byte>, cells: seq<Cell>, file: seq<byte>) {
    && 1 + KindsSize(kinds) <= |b| && PointersFit(kinds, b[1..], |file|)
    && forall j {:trigger kinds[j]} :: 0 <= j < |kinds| ==> !Unnameable(kinds[j], Word(kinds, b[1..], j), cells, file)
  }

  lemma SimpleReads(opcode: byte, noReturn: bool, args: seq<Operand>, kinds: seq<Kind>, b: seq<byte>, labels: map<string, Label>)
    requires 1 + KindsSize(kinds) <= |b| && opcode == b[0]
    requires |args| == |kinds| && ArgsDecoded(args, kinds, b[1..]) && ArgsKnown(args, labels)
    ensures ReadsAs(Simple(opcode, noReturn, args), b) && RefsKnown(Simple(opcode, noReturn, args), labels)
    ensures Size(Simple(opcode, noReturn, args)) == 1 + KindsSize(kinds)
  {
    hide ArgsDecoded, KindsSize, Decoded, Word, ArgsSize, ArgsImage;
    ArgsImageDecoded(args, kinds, b[1..]);
    assert kinds[..|args|] == kinds;
    assert forall i {:trigger args[i]} :: 0 <= i < |args| ==> ArgKnown(args[i], labels);
    assert [b[0]] + b[1..][..ArgsSize(args)] == b[..1 + ArgsSize(args)];
  }

  /** Decoded arguments are those the table and the bytes say. */
  lemma {:induction false} ArgsStand(args: seq<Operand>, kinds: seq<Kind>, b: seq<byte>, j: nat)
    requires |args| == |kinds| && 1 + KindsSize(kinds) <= |b| && ArgsDecoded(args, kinds, b[1..]) && j <= |args|
    ensures ArgsAt(args[j..], kinds[j..], b, 1 + KindsSize(kinds[..j]))
    decreases |args| - j
  {
    if j < |args| {
      ArgStands(args, kinds, b, j);
      hide Two, Four, KindsSize, ArgsDecoded;
      ArgsStand(args, kinds, b, j + 1);
      assert args[j..][1..] == args[j + 1..] && kinds[j..][1..] == kinds[j + 1..];
    }
  }

  lemma ArgsWhole(args: seq<Operand>, kinds: seq<Kind>)
    ensures args[0..] == args && kinds[0..] == kinds && KindsSize(kinds[..0]) == 0
  {
  }

  lemma ArgStands(args: seq<Operand>, kinds: seq<Kind>, b: seq<byte>, j: nat)
    requires |args| == |kinds| && 1 + KindsSize(kinds) <= |b| && ArgsDecoded(args, kinds, b[1..]) && j < |args|
    ensures var p := 1 + KindsSize(kinds[..j]);
            && p + (if kinds[j] == U8 then 1 else if kinds[j] == U16 then 2 else 4) == 1 + KindsSize(kinds[..j + 1]) <= |b|
            && match kinds[j]
               case U8 => args[j] == Number(U8, b[p])
               case U16 => args[j] == Number(U16, Two(b, p))
               case U32 => args[j] == Number(U32, Four(b, p))
               case F32 => args[j] == Number(F32, Four(b, p))
               case _ => PointerAt(args[j], kinds[j], Four(b, p))
  {
    hide De, Two, Four;
    OperandFits(kinds, j);
    var q := KindsSize(kinds[..j]);
    hide KindsSize;
    assert b[1..][q..q + Width(kinds[j])] == b[q + 1..q + 1 + Width(kinds[j])];
    WordsAre(b, q + 1);
    assert Decoded(args[j], kinds[j], Word(kinds, b[1..], j));
  }

  method ParseSimple(ctx: Context, noReturn: bool, kinds: seq<Kind>, b: seq<byte>) returns (r: Option<Body>)
    requires CanLabel(ctx) && |b| > 0
    modifies ctx, ctx.m.repr
    ensures OnlyLabels(ctx) && fresh(ctx.m.repr - old(ctx.m.repr))
    ensures r.Some? <==> SimpleReadable(kinds, b, ctx.m.cells, ctx.file)
    ensures r.Some? ==> ReadsAs(r.value, b) && RefsKnown(r.value, ctx.labels)
    ensures r.Some? ==> r.value.Simple? && r.value.opcode == b[0] && r.value.noReturn == noReturn && ArgsAt(r.value.args, kinds, b, 1)
  {
    hide Sound, Mirrors, Unnameable, Decoded, Word, KindsSize, ArgsKnown, ArgsDecoded, ReadsAs, RefsKnown, ArgsAt;
    if 1 + KindsSize(kinds) > |b| {
      return None;
    }
    var size := ctx.GetSize();
    var ok := ValidateArgs(kinds, b[1..], size);
    if !ok {
      return None;
    }
    var args := ParseArgs(ctx, kinds, b[1..]);
    if args.None? {
      return None;
    }
    SimpleReads(b[0], noReturn, args.value, kinds, b, ctx.labels);
    ArgsStand(args.value, kinds, b, 0);
    ArgsWhole(args.value, kinds);
    r := Some(Simple(b[0], noReturn, args.value));
  }

  ghost predicate Targets(tgts: seq<Label>, labels: map<string, Label>, b: seq<byte>) {
    forall i {:trigger tgts[i]} :: 0 <= i < |tgts| ==>
      Known(tgts[i], labels) && 6 + 4 * i <= |b| && tgts[i].target == Word32(b, 2 + 4 * i)
  }

  lemma {:induction false} TargetsRead(tgts: seq<Label>, labels: map<string, Label>, b: seq<byte>)
    requires Targets(tgts, labels, b) && 2 + 4 * |tgts| <= |b|
    ensures TargetsImage(tgts) == b[2..2 + 4 * |tgts|]
  {
    hide Le, De;
    if tgts != [] {
      var n := |tgts| - 1;
      var at := 2 + 4 * n;
      assert forall j :: 0 <= j < n ==> tgts[..n][j] == tgts[j];
      TargetsRead(tgts[..n], labels, b);
      LeDe(b[at..at + 4]);
      assert tgts[n].target == Word32(b, at);
      assert b[2..at] + b[at..at + 4] == b[2..at + 4];
    }
  }

  ghost predicate RndJumpReadable(b: seq<byte>, size: nat) {
    2 <= |b| && 2 + 4 * b[1] <= |b| && forall i: nat {:trigger Word32(b, 2 + 4 * i)} :: i < b[1] ==> Word32(b, 2 + 4 * i) < size
  }

  lemma RndJumpReads(tgts: seq<Label>, labels: map<string, Label>, b: seq<byte>)
    requires 2 <= |b| && |tgts| == b[1] && 2 + 4 * |tgts| <= |b| && Targets(tgts, labels, b)
    ensures ReadsAs(RndJump(b[0], tgts), b) && RefsKnown(RndJump(b[0], tgts), labels)
  {
    TargetsRead(tgts, labels, b);
    assert Le(1, |tgts|) == [b[1]] by {
      assert Le(0, 0) == [];
    }
    assert b[..2 + 4 * |tgts|] == [b[0]] + [b[1]] + b[2..2 + 4 * |tgts|];
  }

  lemma TargetsStand(tgts: seq<Label>, labels: map<string, Label>, b: seq<byte>)
    requires Targets(tgts, labels, b)
    ensures TargetsAt(tgts, b, 2)
  {
    hide Word32, Four;
    forall i | 0 <= i < |tgts|
      ensures 2 + 4 * i + 4 <= |b| && tgts[i].target == Four(b, 2 + 4 * i)
    {
      var t := tgts[i];
      WordsAre(b, 2 + 4 * i);
    }
  }

  method ParseRndJump(ctx: Context, b: seq<byte>) returns (r: Option<Body>)
    requires CanLabel(ctx) && |b| > 0
    modifies ctx, ctx.m.repr
    ensures OnlyLabels(ctx) && fresh(ctx.m.repr - old(ctx.m.repr))
    ensures r.Some? <==> RndJumpReadable(b, |ctx.file|)
    ensures r.Some? ==> r.value.RndJump? && ReadsAs(r.value, b) && RefsKnown(r.value, ctx.labels)
    ensures r.Some? ==> r.value.opcode == b[0] && |b| >= 2 && |r.value.tgts| == b[1] && TargetsAt(r.value.tgts, b, 2)
  {
    hide Sound, Mirrors, ReadsAs, RefsKnown, Word32;
    if |b| < 2 || 2 + 4 * b[1] > |b| {
      return None;
    }
    var tgts := [];
    var size := ctx.GetSize();
    for i := 0 to b[1]
      invariant OnlyLabels(ctx) && fresh(ctx.m.repr - old(ctx.m.repr))
      invariant |tgts| == i && Targets(tgts, ctx.labels, b)
      invariant forall j {:trigger Word32(b, 2 + 4 * j)} :: 0 <= j < i ==> Word32(b, 2 + 4 * j) < size
    {
      var t := Word32(b, 2 + 4 * i);
      if t >= size {
        return None;
      }
      var l := PointerLabel(ctx, t);
      tgts := tgts + [l];
    }
    RndJumpReads(tgts, ctx.labels, b);
    TargetsStand(tgts, ctx.labels, b);
    r := Some(RndJump(b[0], tgts));
  }

  function NodeAt(b: seq<byte>, at: nat): Node
    requires at + 9 <= |b|
  {
    Node(De(b[at..at + 1]), Word32(b, at + 1), Word16(b, at + 5), Word16(b, at + 7))
  }

  lemma NodeReads(b: seq<byte>, at: nat)
    requires at + 9 <= |b|
    ensures NodeBytes(NodeAt(b, at)) == b[at..at + 9]
  {
    LeDe(b[at..at + 1]);
    LeDe(b[at + 1..at + 5]);
    LeDe(b[at + 5..at + 7]);
    LeDe(b[at + 7..at + 9]);
    hide Le, De;
    assert b[at..at + 1] + b[at + 1..at + 5] + b[at + 5..at + 7] + b[at + 7..at + 9] == b[at..at + 9];
  }

  ghost predicate Nodes(tree: seq<Node>, b: seq<byte>) {
    forall i {:trigger tree[i]} :: 0 <= i < |tree| ==> 16 + 9 * i <= |b| && tree[i] == NodeAt(b, 7 + 9 * i)
  }

  lemma NodesLast(tree: seq<Node>, b: seq<byte>, n: nat)
    requires Nodes(tree, b) && n + 1 == |tree| && 7 + 9 * |tree| <= |b|
    ensures Nodes(tree[..n], b) && tree[n] == NodeAt(b, 7 + 9 * n)
  {
    hide NodeAt;
    assert forall j :: 0 <= j < n ==> tree[..n][j] == tree[j];
  }

  lemma NineMore(b: seq<byte>, at: nat)
    requires 7 <= at && at + 9 <= |b|
    ensures b[7..at] + b[at..at + 9] == b[7..at + 9]
  {
  }

  lemma {:induction false} NodesRead(tree: seq<Node>, b: seq<byte>)
    requires Nodes(tree, b) && 7 + 9 * |tree| <= |b|
    ensures NodesBytes(tree) == b[7..7 + 9 * |tree|]
  {
    hide NodeAt, NodeBytes, Nodes;
    if tree != [] {
      var n := |tree| - 1;
      var at := 7 + 9 * n;
      NodesLast(tree, b, n);
      NodesRead(tree[..n], b);
      NodeReads(b, at);
      NineMore(b, at);
    }
  }

  ghost predicate JumpIfReadable(b: seq<byte>, size: nat) {
    && 7 <= |b| && 9 * Word16(b, 1) <= |b| - 7 && Word32(b, 3) < size
    && forall i {:trigger NodeAt(b, 7 + 9 * i)} :: 0 <= i < Word16(b, 1) ==>
         NodeAt(b, 7 + 9 * i).left <= Word16(b, 1) && NodeAt(b, 7 + 9 * i).right <= Word16(b, 1)
  }

  lemma JumpIfReads(tgt: Label, tree: seq<Node>, labels: map<string, Label>, b: seq<byte>)
    requires 7 <= |b| && |tree| == Word16(b, 1) && 7 + 9 * |tree| <= |b| && Nodes(tree, b)
    requires Known(tgt, labels) && tgt.target == Word32(b, 3)
    ensures ReadsAs(JumpIf(b[0], tgt, tree), b) && RefsKnown(JumpIf(b[0], tgt, tree), labels)
  {
    NodesRead(tree, b);
    LeDe(b[1..3]);
    LeDe(b[3..7]);
    hide Le, De, Nodes, NodesBytes;
    var n := 7 + 9 * |tree|;
    assert b[..n] == [b[0]] + b[1..3] + b[3..7] + b[7..n];
  }

  lemma NodeStands(b: seq<byte>, at: nat)
    requires at + 9 <= |b|
    ensures NodeAt(b, at) == Node(b[at], Four(b, at + 1), Two(b, at + 5), Two(b, at + 7))
  {
    hide De, Word32, Word16, Two, Four;
    WordsAre(b, at);
    WordsAre(b, at + 1);
    WordsAre(b, at + 5);
    WordsAre(b, at + 7);
  }

  lemma TreeStands(tree: seq<Node>, b: seq<byte>)
    requires Nodes(tree, b)
    ensures TreeAt(tree, b, 7)
  {
    hide NodeAt;
    forall i | 0 <= i < |tree|
      ensures 7 + 9 * i + 9 <= |b|
      ensures tree[i] == Node(b[7 + 9 * i], Four(b, 7 + 9 * i + 1), Two(b, 7 + 9 * i + 5), Two(b, 7 + 9 * i + 7))
    {
      var nd := tree[i];
      NodeStands(b, 7 + 9 * i);
    }
  }

  method ParseTree(b: seq<byte>, n: nat) returns (r: Option<seq<Node>>)
    requires 7 + 9 * n <= |b|
    ensures r.Some? <==> forall i {:trigger NodeAt(b, 7 + 9 * i)} :: 0 <= i < n ==>
              NodeAt(b, 7 + 9 * i).left <= n && NodeAt(b, 7 + 9 * i).right <= n
    ensures r.Some? ==> |r.value| == n && Nodes(r.value, b)
  {
    hide NodeAt;
    var tree := [];
    for i := 0 to n
      invariant |tree| == i && Nodes(tree, b)
      invariant forall j {:trigger NodeAt(b, 7 + 9 * j)} :: 0 <= j < i ==>
                  NodeAt(b, 7 + 9 * j).left <= n && NodeAt(b, 7 + 9 * j).right <= n
    {
      var nd := NodeAt(b, 7 + 9 * i);
      if nd.left > n || nd.right > n {
        return None;
      }
      tree := tree + [nd];
    }
    r := Some(tree);
  }

  method ParseJumpIf(ctx: Context, b: seq<byte>) returns (r: Option<Body>)
    requires CanLabel(ctx) && |b| > 0
    modifies ctx, ctx.m.repr
    ensures OnlyLabels(ctx) && fresh(ctx.m.repr - old(ctx.m.repr))
    ensures r.Some? <==> JumpIfReadable(b, |ctx.file|)
    ensures r.Some? ==> r.value.JumpIf? && ReadsAs(r.value, b) && RefsKnown(r.value, ctx.labels)
    ensures r.Some? ==> r.value.opcode == b[0] && |b| >= 7 && |r.value.tree| == Two(b, 1) && r.value.tgt.target == Four(b, 3) && TreeAt(r.value.tree, b, 7)
  {
    hide Sound, Mirrors, ReadsAs, RefsKnown, Word32, Word16, Two, Four, NodeAt, Nodes;
    if |b| < 7 || 9 * Word16(b, 1) > |b| - 7 {
      return None;
    }
    var size := ctx.GetSize();
    if Word32(b, 3) >= size {
      return None;
    }
    var tgt := PointerLabel(ctx, Word32(b, 3));
    var tree := ParseTree(b, Word16(b, 1));
    if tree.None? {
      return None;
    }
    JumpIfReads(tgt, tree.value, ctx.labels, b);
    WordsAre(b, 1);
    WordsAre(b, 3);
    TreeStands(tree.value, b);
    r := Some(JumpIf(b[0], tgt, tree.value));
  }

  ghost predicate Exprs(exprs: seq<Expr>, labels: map<string, Label>, b: seq<byte>) {
    forall i {:trigger exprs[i]} :: 0 <= i < |exprs| ==>
      && Known(exprs[i].target, labels) && 15 + 8 * i <= |b|
      && exprs[i].expression == Word32(b, 7 + 8 * i) && exprs[i].target.target == Word32(b, 11 + 8 * i)
  }

  lemma EightMore(b: seq<byte>, at: nat)
    requires 7 <= at && at + 8 <= |b|
    ensures b[7..at] + (b[at..at + 4] + b[at + 4..at + 8]) == b[7..at + 8]
    ensures |b[at..at + 4]| == 4 == |b[at + 4..at + 8]|
  {
  }

  lemma ExprsLast(exprs: seq<Expr>, labels: map<string, Label>, b: seq<byte>, n: nat)
    requires Exprs(exprs, labels, b) && n + 1 == |exprs|
    ensures Exprs(exprs[..n], labels, b) && 15 + 8 * n <= |b|
    ensures exprs[n].expression == Word32(b, 7 + 8 * n) && exprs[n].target.target == Word32(b, 11 + 8 * n)
  {
    assert forall j :: 0 <= j < n ==> exprs[..n][j] == exprs[j];
    var last := exprs[n];
  }

  lemma ExprBytes(e: Expr, b: seq<byte>, at: nat)
    requires at + 8 <= |b| && e.expression == Word32(b, at) && e.target.target == Word32(b, at + 4)
    ensures Le(4, e.expression) + Le(4, e.target.target) == b[at..at + 4] + b[at + 4..at + 8]
  {
    hide Le, De;
    LeDe(b[at..at + 4]);
    LeDe(b[at + 4..at + 8]);
  }

  lemma {:induction false} ExprsRead(exprs: seq<Expr>, labels: map<string, Label>, b: seq<byte>)
    requires Exprs(exprs, labels, b) && 7 + 8 * |exprs| <= |b|
    ensures ExprsImage(exprs) == b[7..7 + 8 * |exprs|]
  {
    hide Le, Word32, Exprs;
    if exprs != [] {
      var n := |exprs| - 1;
      ExprsLast(exprs, labels, b, n);
      ExprsRead(exprs[..n], labels, b);
      ExprBytes(exprs[n], b, 7 + 8 * n);
      EightMore(b, 7 + 8 * n);
    }
  }

  /** The number of expressions under a size word. */
  function SwitchCount(word: nat): nat {
    if word / 0x8000 % 2 == 1 then word % 0x800 else word
  }

  /** The size check counts the default flag in; the expressions are only those under the mask. */
  ghost predicate SwitchReadable(b: seq<byte>, trailing: bool, size: nat) {
    && 7 <= |b| && 8 * Word16(b, 5) <= |b| - 7
    && (forall i {:trigger Word32(b, 11 + 8 * i)} :: 0 <= i < SwitchCount(Word16(b, 5)) ==> Word32(b, 11 + 8 * i) < size)
    && (trailing ==> 7 + 8 * SwitchCount(Word16(b, 5)) < |b|)
  }

  method ParseExprs(ctx: Context, b: seq<byte>, n: nat) returns (r: Option<seq<Expr>>)
    requires CanLabel(ctx) && 7 + 8 * n <= |b|
    modifies ctx, ctx.m.repr
    ensures OnlyLabels(ctx) && fresh(ctx.m.repr - old(ctx.m.repr))
    ensures r.Some? <==> forall i {:trigger Word32(b, 11 + 8 * i)} :: 0 <= i < n ==> Word32(b, 11 + 8 * i) < |ctx.file|
    ensures r.Some? ==> |r.value| == n && Exprs(r.value, ctx.labels, b)
  {
    hide Sound, Mirrors, Word32;
    var exprs := [];
    var size := ctx.GetSize();
    for i := 0 to n
      invariant OnlyLabels(ctx) && fresh(ctx.m.repr - old(ctx.m.repr))
      invariant |exprs| == i && Exprs(exprs, ctx.labels, b)
      invariant forall j {:trigger Word32(b, 11 + 8 * j)} :: 0 <= j < i ==> Word32(b, 11 + 8 * j) < size
    {
      var t := Word32(b, 11 + 8 * i);
      if t >= size {
        return None;
      }
      var l := PointerLabel(ctx, t);
      exprs := exprs + [Expr(Word32(b, 7 + 8 * i), l)];
    }
    r := Some(exprs);
  }

  lemma WordMasked(word: nat)
    requires word < 0x1_0000
    ensures SwitchWord(word / 0x8000 % 2 == 1, SwitchCount(word)) == Masked(word)
  {
  }

  lemma SwitchSlices(b: seq<byte>, m: nat, n: nat)
    requires 7 <= m <= n <= |b| && n <= m + 1
    ensures b[..n][5..7] == b[5..7] && b[..n][..5] == [b[0]] + b[1..5]
    ensures b[..n][7..] == b[7..m] + (if n == m then [] else [b[m]])
  {
  }

  lemma SwitchImage(opcode: byte, expected: nat, d: bool, exprs: seq<Expr>, trailing: Option<byte>, b: seq<byte>, m: nat, n: nat)
    requires 7 <= m <= n <= |b| && n == m + (if trailing.Some? then 1 else 0) && opcode == b[0] && Le(4, expected) == b[1..5]
    requires Le(2, SwitchWord(d, |exprs|)) == Le(2, Masked(De(b[5..7]))) && ExprsImage(exprs) == b[7..m]
    requires trailing.Some? ==> trailing.value == b[m]
    ensures Image(JumpSwitch(opcode, expected, d, exprs, trailing)) == SwitchMasked(b[..n])
  {
    hide Le, De, SwitchWord, Masked, ExprsImage;
    SwitchSlices(b, m, n);
  }

  lemma ExprsKnown(exprs: seq<Expr>, labels: map<string, Label>, b: seq<byte>, body: Body)
    requires Exprs(exprs, labels, b) && body.JumpSwitch? && body.exprs == exprs
    ensures RefsKnown(body, labels)
  {
    hide Word32;
  }

  lemma MaskedLength(b: seq<byte>)
    requires |b| >= 7
    ensures |SwitchMasked(b)| == |b|
  {
    hide De, Masked;
  }

  lemma Word16Small(b: seq<byte>, at: nat)
    requires at + 2 <= |b|
    ensures Word16(b, at) < 0x1_0000
  {
    hide De;
    Ranges();
  }

  lemma SwitchReads(exprs: seq<Expr>, labels: map<string, Label>, trailing: Option<byte>, b: seq<byte>)
    requires 7 <= |b| && |exprs| == SwitchCount(Word16(b, 5)) && 7 + 8 * |exprs| <= |b| && Exprs(exprs, labels, b)
    requires trailing.Some? ==> 7 + 8 * |exprs| < |b| && trailing.value == b[7 + 8 * |exprs|]
    ensures var body := JumpSwitch(b[0], Word32(b, 1), Word16(b, 5) / 0x8000 % 2 == 1, exprs, trailing);
            ReadsAs(body, b) && RefsKnown(body, labels)
  {
    hide Le, De, SwitchWord, SwitchCount, Masked, ExprsImage, Image, SwitchMasked, Exprs, RefsKnown;
    ExprsRead(exprs, labels, b);
    LeDe(b[1..5]);
    Word16Small(b, 5);
    WordMasked(Word16(b, 5));
    var body := JumpSwitch(b[0], Word32(b, 1), Word16(b, 5) / 0x8000 % 2 == 1, exprs, trailing);
    SwitchImage(b[0], Word32(b, 1), body.lastIsDefault, exprs, trailing, b, 7 + 8 * |exprs|, Size(body));
    MaskedLength(b[..Size(body)]);
    ExprsKnown(exprs, labels, b, body);
  }

  /** The switch that the bytes say. */
  ghost predicate SwitchFormed(body: Body, trailing: bool, b: seq<byte>) {
    && |b| >= 7 && body.JumpSwitch? && body.opcode == b[0] && body.expected == Four(b, 1) && body.lastIsDefault == (Two(b, 5) >= 0x8000)
    && |body.exprs| == (if Two(b, 5) >= 0x8000 then Two(b, 5) % 0x800 else Two(b, 5)) && ExprsAt(body.exprs, b, 7)
    && (if trailing then 7 + 8 * |body.exprs| < |b| && body.trailing == Some(b[7 + 8 * |body.exprs|]) else body.trailing == None)
  }

  lemma ExprsStand(exprs: seq<Expr>, labels: map<string, Label>, b: seq<byte>)
    requires Exprs(exprs, labels, b)
    ensures ExprsAt(exprs, b, 7)
  {
    hide Word32, Four;
    forall i | 0 <= i < |exprs|
      ensures 7 + 8 * i + 8 <= |b| && exprs[i].expression == Four(b, 7 + 8 * i) && exprs[i].target.target == Four(b, 7 + 8 * i + 4)
    {
      var e := exprs[i];
      WordsAre(b, 7 + 8 * i);
      WordsAre(b, 7 + 8 * i + 4);
    }
  }

  lemma HighBit(word: nat)
    requires word < 0x1_0000
    ensures word / 0x8000 % 2 == 1 <==> word >= 0x8000
  {
  }

  method ParseJumpSwitch(ctx: Context, trailing: bool, b: seq<byte>) returns (r: Option<Body>)
    requires CanLabel(ctx) && |b| > 0
    modifies ctx, ctx.m.repr
    ensures OnlyLabels(ctx) && fresh(ctx.m.repr - old(ctx.m.repr))
    ensures r.Some? <==> SwitchReadable(b, trailing, |ctx.file|)
    ensures r.Some? ==> |b| >= 7 && r.value.JumpSwitch? && ReadsAs(r.value, b) && RefsKnown(r.value, ctx.labels)
    ensures r.Some? ==> r.value.lastIsDefault == (Word16(b, 5) / 0x8000 % 2 == 1) && |r.value.exprs| == SwitchCount(Word16(b, 5))
    ensures r.Some? ==> SwitchFormed(r.value, trailing, b)
  {
    hide Sound, Mirrors, ReadsAs, RefsKnown, Word32, Word16, Exprs, Two, Four, ExprsAt;
    if |b| < 7 || 8 * Word16(b, 5) > |b| - 7 {
      return None;
    }
    var word := Word16(b, 5);
    var lastIsDefault := word / 0x8000 % 2 == 1;
    var n := if lastIsDefault then word % 0x800 else word;
    var exprs := ParseExprs(ctx, b, n);
    if exprs.None? || (trailing && 7 + 8 * n >= |b|) {
      return None;
    }
    var t := if trailing then Some(b[7 + 8 * n]) else None;
    SwitchReads(exprs.value, ctx.labels, t, b);
    ExprsStand(exprs.value, ctx.labels, b);
    WordsAre(b, 1);
    WordsAre(b, 5);
    HighBit(word);
    r := Some(JumpSwitch(b[0], Word32(b, 1), lastIsDefault, exprs.value, t));
  }

  /** A switch that can be read and is not written back as it was: default flag and bit 11 set. */
  lemma SwitchLossy(opcode: byte, size: nat) returns (b: seq<byte>)
    ensures SwitchReadable(b, false, size) && b[0] == opcode && SwitchMasked(b[..7]) != b[..7]
  {
    b := [opcode, 0, 0, 0, 0, 0, 0x88] + seq(8 * 0x8800, _ => 0);
    assert b[5..7] == [0, 0x88] && b[..7][5..7] == [0, 0x88];
    assert De([0, 0x88]) == 0x8800 by {
      assert De([0x88]) == 0x88;
    }
    assert Masked(0x8800) == 0x8000 && Le(2, 0x8000) == [0, 0x80] by {
      assert Le(1, 0x80) == [0x80];
    }
    assert SwitchMasked(b[..7])[6] == 0x80;
  }

  /** The instruction can be read: its bytes are there, its targets lie in the file and its strings end. */
  ghost predicate InstructionReadable(table: Table, b: seq<byte>, cells: seq<Cell>, file: seq<byte>) {
    |b| > 0 &&
    match table[b[0]]
    case SimpleOp(_, kinds) => SimpleReadable(kinds, b, cells, file)
    case RndJumpOp => RndJumpReadable(b, |file|)
    case JumpIfOp => JumpIfReadable(b, |file|)
    case JumpSwitchOp(trailing) => SwitchReadable(b, trailing, |file|)
    case Unimplemented => false
  }

  /** Where the table has a switch, one has been read. */
  ghost predicate SwitchRead(table: Table, body: Body, b: seq<byte>) {
    |b| > 0 && table[b[0]].JumpSwitchOp? ==>
      |b| >= 7 && body.JumpSwitch? && body.lastIsDefault == (Word16(b, 5) / 0x8000 % 2 == 1) && |body.exprs| == SwitchCount(Word16(b, 5))
  }

  /** A switch with a default flag and no expressions under the mask: it leads nowhere. */
  ghost predicate DeadEnd(table: Table, b: seq<byte>, size: nat) {
    && |b| >= 7 && table[b[0]].JumpSwitchOp? && SwitchReadable(b, table[b[0]].trailing, size)
    && Word16(b, 5) / 0x8000 % 2 == 1 && SwitchCount(Word16(b, 5)) == 0
  }

  method ParseInstruction(ctx: Context, table: Table, b: seq<byte>) returns (r: Option<Body>)
    requires CanLabel(ctx)
    modifies ctx, ctx.m.repr
    ensures OnlyLabels(ctx) && fresh(ctx.m.repr - old(ctx.m.repr))
    ensures r.Some? <==> InstructionReadable(table, b, ctx.m.cells, ctx.file)
    ensures r.Some? ==> IsInstruction(r.value) && ReadsAs(r.value, b) && RefsKnown(r.value, ctx.labels) && SwitchRead(table, r.value, b)
    ensures r.Some? ==> Formed(r.value, table, b, 0)
  {
    hide Sound, Mirrors, ReadsAs, RefsKnown, SimpleReadable, RndJumpReadable, JumpIfReadable, SwitchReadable, Word16, Two, Four, ArgsAt, TargetsAt, TreeAt, ExprsAt;
    if |b| == 0 {
      return None;
    }
    match table[b[0]]
    case SimpleOp(noReturn, kinds) => r := ParseSimple(ctx, noReturn, kinds, b);
    case RndJumpOp => r := ParseRndJump(ctx, b);
    case JumpIfOp => r := ParseJumpIf(ctx, b);
    case JumpSwitchOp(trailing) => r := ParseJumpSwitch(ctx, trailing, b);
    case Unimplemented => r := None;
  }

  function HeaderLength(flags: nat): nat {
    12 + Flag(flags % 2 == 1, 32) + Flag(flags / 2 % 2 == 1, 14) + Flag(flags / 4 % 2 == 1, 2)
  }

  predicate HeaderReadable(b: seq<byte>) {
    && |b| >= 12 && b[..4] == Stsc() && Word32(b, 4) < |b| - 1 && Word32(b, 8) < 8
    && HeaderLength(Word32(b, 8)) <= Word32(b, 4)
  }

  function FieldsAt(b: seq<byte>, at: nat, n: nat): (r: seq<nat>)
    requires at + 2 * n <= |b|
    ensures |r| == n
  {
    if n == 0 then [] else FieldsAt(b, at, n - 1) + [Word16(b, at + 2 * (n - 1))]
  }

  lemma {:induction false} FieldsRead(b: seq<byte>, at: nat, n: nat)
    requires at + 2 * n <= |b|
    ensures FieldsBytes(FieldsAt(b, at, n)) == b[at..at + 2 * n]
  {
    hide Le, De;
    if n > 0 {
      var end := at + 2 * (n - 1);
      FieldsRead(b, at, n - 1);
      LeDe(b[end..end + 2]);
      assert FieldsAt(b, at, n)[..n - 1] == FieldsAt(b, at, n - 1);
      assert b[at..end] + b[end..end + 2] == b[at..end + 2];
    }
  }

  /** The header: the flags say which of the extra parts follow, in this order. */
  function HeaderAt(b: seq<byte>, entry: Label): Body
    requires HeaderReadable(b)
  {
    var flags := Word32(b, 8);
    var at2 := 12 + Flag(flags % 2 == 1, 32);
    var at4 := at2 + Flag(flags / 2 % 2 == 1, 14);
    Header(entry,
           if flags % 2 == 1 then Some(b[12..44]) else None,
           if flags / 2 % 2 == 1 then Some(FieldsAt(b, at2, 7)) else None,
           if flags / 4 % 2 == 1 then Some(Word16(b, at4)) else None)
  }

  lemma SixParts(b: seq<byte>, at2: nat, at4: nat, end: nat)
    requires 12 <= at2 <= at4 <= end <= |b|
    ensures b[..end] == b[..4] + b[4..8] + b[8..12] + b[12..at2] + b[at2..at4] + b[at4..end]
  {
  }

  /** The extra parts as they are written, present or not. */
  function ExtraBytes(e1: Option<seq<byte>>, e2: Option<seq<nat>>, e4: Option<nat>): (seq<byte>, seq<byte>, seq<byte>) {
    (if e1.Some? then e1.value else [], if e2.Some? then FieldsBytes(e2.value) else [], if e4.Some? then Le(2, e4.value) else [])
  }

  lemma ExtrasRead(b: seq<byte>, flags: nat, at2: nat, at4: nat, end: nat)
    requires at2 == 12 + Flag(flags % 2 == 1, 32) && at4 == at2 + Flag(flags / 2 % 2 == 1, 14) && end == at4 + Flag(flags / 4 % 2 == 1, 2)
    requires end <= |b|
    ensures ExtraBytes(if flags % 2 == 1 then Some(b[12..44]) else None, if flags / 2 % 2 == 1 then Some(FieldsAt(b, at2, 7)) else None,
                       if flags / 4 % 2 == 1 then Some(Word16(b, at4)) else None) == (b[12..at2], b[at2..at4], b[at4..end])
  {
    hide Le, De, FieldsAt, FieldsBytes;
    if flags / 2 % 2 == 1 {
      FieldsRead(b, at2, 7);
    } else {
      assert b[at2..at4] == [];
    }
    if flags / 4 % 2 == 1 {
      LeDe(b[at4..at4 + 2]);
    } else {
      assert b[at4..end] == [];
    }
    assert flags % 2 != 1 ==> b[12..at2] == [];
  }

  lemma FlagsBack(flags: nat)
    requires flags < 8
    ensures Flag(flags % 2 == 1, 1) + Flag(flags / 2 % 2 == 1, 2) + Flag(flags / 4 % 2 == 1, 4) == flags
  {
  }

  lemma HeaderOpen(entry: Label, e1: Option<seq<byte>>, e2: Option<seq<nat>>, e4: Option<nat>)
    ensures var (x, y, z) := ExtraBytes(e1, e2, e4);
            Image(Header(entry, e1, e2, e4)) ==
              Stsc() + Le(4, entry.target) + Le(4, Flag(e1.Some?, 1) + Flag(e2.Some?, 2) + Flag(e4.Some?, 4)) + x + y + z
  {
    hide Le, FieldsBytes;
  }

  lemma HeaderLong(b: seq<byte>, entry: Label)
    requires HeaderReadable(b)
    ensures var end := HeaderLength(Word32(b, 8));
            Size(HeaderAt(b, entry)) == end && 12 <= end <= |b| && b[..4] == Stsc() && Word32(b, 8) < 8
  {
    hide De, FieldsAt;
  }

  lemma HeaderReads(b: seq<byte>, entry: Label)
    requires HeaderReadable(b) && entry.target == Word32(b, 4)
    ensures ReadsAs(HeaderAt(b, entry), b) && Size(HeaderAt(b, entry)) == HeaderLength(Word32(b, 8))
  {
    hide Le, De, FieldsAt, FieldsBytes, Image, HeaderReadable, ExtraBytes, Size;
    HeaderLong(b, entry);
    LeDe(b[4..8]);
    LeDe(b[8..12]);
    var flags := Word32(b, 8);
    var at2 := 12 + Flag(flags % 2 == 1, 32);
    var at4 := at2 + Flag(flags / 2 % 2 == 1, 14);
    var end := HeaderLength(flags);
    FlagsBack(flags);
    ExtrasRead(b, flags, at2, at4, end);
    var h := HeaderAt(b, entry);
    HeaderOpen(entry, h.extra1, h.extra2, h.extra4);
    SixParts(b, at2, at4, end);
  }

  method ParseHeader(ctx: Context, b: seq<byte>) returns (r: Option<Body>)
    requires CanLabel(ctx) && b == ctx.file
    modifies ctx, ctx.m.repr
    ensures OnlyLabels(ctx) && fresh(ctx.m.repr - old(ctx.m.repr))
    ensures r.Some? <==> HeaderReadable(b)
    ensures r.Some? ==> r.value.Header? && r.value.entry.target == Word32(b, 4) && r.value == HeaderAt(b, r.value.entry)
    ensures r.Some? ==> ReadsAs(r.value, b) && RefsKnown(r.value, ctx.labels) && FirstFree(r.value.entry.name, "entry_point", old(ctx.labels).Keys)
  {
    hide Linked, Anchored, Tiling, Indexed, RawsMatch, AllRefsKnown, Distinct, ReadsAs, FirstFree;
    if !HeaderReadable(b) {
      return None;
    }
    var it, offset, k := ctx.GetPointer(Word32(b, 4));
    var entry := ctx.NewLabel("entry_point", it, offset);
    HeaderReads(b, entry);
    r := Some(HeaderAt(b, entry));
  }
}
