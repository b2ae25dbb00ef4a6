/** The bytes an item stands for: what its dump writes while every label is where it was created. */
module Images {
  import opened Bytes
  import opened Items

  ghost function TargetOf(l: Label?): nat {
    if l == null then 0 else l.target
  }

  ghost function OperandImage(o: Operand): seq<byte> {
    match o
    case Number(kind, value) => Le(Width(kind), value)
    case Pointer(_, lbl) => Le(4, TargetOf(lbl))
  }

  ghost function ArgsImage(args: seq<Operand>): (r: seq<byte>) {
    if args == [] then [] else ArgsImage(args[..|args| - 1]) + OperandImage(args[|args| - 1])
  }

  ghost function TargetsImage(tgts: seq<Label>): (r: seq<byte>)
    ensures |r| == 4 * |tgts|
  {
    if tgts == [] then [] else TargetsImage(tgts[..|tgts| - 1]) + Le(4, tgts[|tgts| - 1].target)
  }

  function NodeBytes(n: Node): (r: seq<byte>)
    ensures |r| == 9
  {
    Le(1, n.operation) + Le(4, n.value) + Le(2, n.left) + Le(2, n.right)
  }

  function NodesBytes(tree: seq<Node>): (r: seq<byte>)
    ensures |r| == 9 * |tree|
  {
    if tree == [] then [] else NodesBytes(tree[..|tree| - 1]) + NodeBytes(tree[|tree| - 1])
  }

  ghost function ExprsImage(exprs: seq<Expr>): (r: seq<byte>)
    ensures |r| == 8 * |exprs|
  {
    if exprs == [] then []
    else ExprsImage(exprs[..|exprs| - 1]) + (Le(4, exprs[|exprs| - 1].expression) + Le(4, exprs[|exprs| - 1].target.target))
  }

  function FieldsBytes(fields: seq<nat>): (r: seq<byte>)
    ensures |r| == 2 * |fields|
  {
    if fields == [] then [] else FieldsBytes(fields[..|fields| - 1]) + Le(2, fields[|fields| - 1])
  }

  /** The size word of a switch: the number of expressions, with bit 15 set if the last is the default. */
  function SwitchWord(lastIsDefault: bool, n: nat): nat {
    if lastIsDefault && n / 0x8000 % 2 == 0 then n + 0x8000 else n
  }

  function Flag(b: bool, v: nat): nat { if b then v else 0 }

  function Stsc(): seq<byte> { [83, 84, 83, 67] }

  function HeaderBytes(entry: nat, extra1: Option<seq<byte>>, extra2: Option<seq<nat>>, extra4: Option<nat>): seq<byte> {
    Stsc() + Le(4, entry) + Le(4, Flag(extra1.Some?, 1) + Flag(extra2.Some?, 2) + Flag(extra4.Some?, 4)) +
    (if extra1.Some? then extra1.value else []) +
    (if extra2.Some? then FieldsBytes(extra2.value) else []) +
    (if extra4.Some? then Le(2, extra4.value) else [])
  }

  ghost function Image(b: Body): seq<byte> {
    match b
    case Raw(view) => if view.Valid() then view.Bytes() else []
    case Eof => []
    case CString(str) => str + [0]
    case Header(entry, e1, e2, e4) => HeaderBytes(entry.target, e1, e2, e4)
    case Simple(opcode, _, args) => [opcode] + ArgsImage(args)
    case RndJump(opcode, tgts) => [opcode] + Le(1, |tgts|) + TargetsImage(tgts)
    case JumpIf(opcode, tgt, tree) => [opcode] + Le(2, |tree|) + Le(4, tgt.target) + NodesBytes(tree)
    case JumpSwitch(opcode, expected, d, exprs, trailing) =>
      [opcode] + Le(4, expected) + Le(2, SwitchWord(d, |exprs|)) + ExprsImage(exprs) +
      (if trailing.Some? then [trailing.value] else [])
  }

  /** A switch keeps its default flag and, under it, only the low eleven bits of its count. */
  function Masked(word: nat): nat {
    if word / 0x8000 % 2 == 1 then 0x8000 + word % 0x800 else word
  }

  /** The bytes of a switch with its size word as the original writes it back. */
  function SwitchMasked(b: seq<byte>): seq<byte>
    requires |b| >= 7
  {
    b[..5] + Le(2, Masked(De(b[5..7]))) + b[7..]
  }

  /** An item writes back the bytes of the file it stands for; a switch, its size word masked. */
  ghost predicate Faithful(c: Cell, file: seq<byte>) {
    && End(c) <= |file|
    && |Image(c.body)| == Size(c.body)
    && if c.body.JumpSwitch? then Image(c.body) == SwitchMasked(file[c.pos..End(c)])
       else Image(c.body) == file[c.pos..End(c)]
  }

  /** A caller can check this on the file: a default flag leaves bits 11 to 14 of the size word clear. */
  ghost predicate Canonical(c: Cell, file: seq<byte>) {
    c.body.JumpSwitch? && End(c) <= |file| ==>
      var word := De(file[c.pos + 5..c.pos + 7]);
      word / 0x8000 % 2 == 1 ==> word / 0x800 % 16 == 0
  }

  /** Masking changes a size word exactly when a masked bit is set. */
  lemma MaskedSame(word: nat)
    requires word < 0x1_0000
    ensures Masked(word) == word <==> (word / 0x8000 % 2 == 1 ==> word / 0x800 % 16 == 0)
  {
  }

  /** A faithful item gives back its bytes of the file if and only if they are canonical. */
  lemma FaithfulExact(c: Cell, file: seq<byte>)
    requires Faithful(c, file)
    ensures Image(c.body) == file[c.pos..End(c)] <==> Canonical(c, file)
  {
    if c.body.JumpSwitch? {
      var b := file[c.pos..End(c)];
      var word := De(b[5..7]);
      Ranges();
      SliceOfSlice(file, c.pos, End(c), 5, 7);
      MaskedSame(word);
      LeDe(b[5..7]);
      DeLe(2, Masked(word));
      assert b == b[..5] + b[5..7] + b[7..];
      assert SwitchMasked(b)[5..7] == Le(2, Masked(word));
    }
  }

  ghost predicate AllFaithful(cells: seq<Cell>, file: seq<byte>) {
    forall i {:trigger cells[i]} :: 0 <= i < |cells| ==> Faithful(cells[i], file)
  }

  /** The dump of a list: its items one after the other. */
  ghost function ListImage(cells: seq<Cell>): seq<byte> {
    if cells == [] then [] else ListImage(cells[..|cells| - 1]) + Image(cells[|cells| - 1].body)
  }

  /** The images of the first `n` cells fill the file up to the next one, each in its place. */
  lemma {:induction false} ImageAt(cells: seq<Cell>, file: seq<byte>, n: nat)
    requires Tiling(cells, |file|) && AllFaithful(cells, file) && 0 < n <= |cells|
    ensures |ListImage(cells[..n])| == End(cells[n - 1])
    ensures forall k, i {:trigger Image(cells[k].body)[i]} :: 0 <= k < n && 0 <= i < Size(cells[k].body) ==>
              && cells[k].pos + i < |ListImage(cells[..n])| && i < |Image(cells[k].body)|
              && ListImage(cells[..n])[cells[k].pos + i] == Image(cells[k].body)[i]
  {
    hide Image, SwitchMasked, Size;
    assert cells[..n][..n - 1] == cells[..n - 1];
    if n == 1 {
      assert cells[..0] == [];
    } else {
      ImageAt(cells, file, n - 1);
      assert Follows(cells[n - 2], cells[n - 1]);
      forall k | 0 <= k < n - 1
        ensures End(cells[k]) <= cells[n - 1].pos
      {
        TilingOrder(cells, |file|, k, n - 1);
      }
    }
  }

  lemma PartOfDump(cells: seq<Cell>, file: seq<byte>, k: nat)
    requires Tiling(cells, |file|) && AllFaithful(cells, file) && k < |cells| && ListImage(cells) == file
    ensures Image(cells[k].body) == file[cells[k].pos..End(cells[k])]
  {
    hide Image, SwitchMasked, Size, ListImage;
    assert cells[..|cells|] == cells;
    ImageAt(cells, file, |cells|);
    var part, own := Image(cells[k].body), file[cells[k].pos..End(cells[k])];
    assert |part| == |own| by { assert Faithful(cells[k], file); }
    assert forall i :: 0 <= i < |own| ==> Image(cells[k].body)[i] == own[i];
  }

  lemma ByteOfDump(cells: seq<Cell>, file: seq<byte>, p: nat)
    requires Tiling(cells, |file|) && AllFaithful(cells, file) && p < |file| == |ListImage(cells)|
    requires forall k {:trigger cells[k]} :: 0 <= k < |cells| ==> Image(cells[k].body) == file[cells[k].pos..End(cells[k])]
    ensures ListImage(cells)[p] == file[p]
  {
    hide Image, SwitchMasked, Size, ListImage;
    assert cells[..|cells|] == cells;
    ImageAt(cells, file, |cells|);
    var k := CoverExists(cells, |file|, p, 0);
    if k + 1 < |cells| {
      assert Follows(cells[k], cells[k + 1]);
    }
    var i := p - cells[k].pos;
    assert Faithful(cells[k], file) && i < Size(cells[k].body);
    assert Image(cells[k].body)[i] == file[p];
  }

  /** The dump of a faithful list has the length of the file, and is the file if and only if
      every switch in it is canonical. */
  lemma DumpIdentity(cells: seq<Cell>, file: seq<byte>)
    requires Tiling(cells, |file|) && AllFaithful(cells, file)
    ensures |ListImage(cells)| == |file|
    ensures ListImage(cells) == file <==> forall k {:trigger cells[k]} :: 0 <= k < |cells| ==> Canonical(cells[k], file)
  {
    hide Image, SwitchMasked, Size, Canonical, ListImage;
    assert cells[..|cells|] == cells;
    ImageAt(cells, file, |cells|);
    hide Tiling;
    forall k | 0 <= k < |cells|
      ensures Image(cells[k].body) == file[cells[k].pos..End(cells[k])] <==> Canonical(cells[k], file)
    {
      FaithfulExact(cells[k], file);
    }
    if ListImage(cells) == file {
      forall k | 0 <= k < |cells|
        ensures Canonical(cells[k], file)
      {
        PartOfDump(cells, file, k);
      }
    }
    if forall k {:trigger cells[k]} :: 0 <= k < |cells| ==> Canonical(cells[k], file) {
      forall p | 0 <= p < |file|
        ensures ListImage(cells)[p] == file[p]
      {
        ByteOfDump(cells, file, p);
      }
    }
  }
}
