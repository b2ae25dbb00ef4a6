/** Items, labels and the ghost view of an item list as cells tiling a file. */
module Items {
  import opened Bytes

  /** A window into the bytes of a source file. */
  datatype View = View(data: seq<byte>, offset: nat, size: nat) {
    ghost predicate Valid() { offset + size <= |data| }

    function Bytes(): (r: seq<byte>)
      requires Valid()
      ensures |r| == size
    {
      data[offset..offset + size]
    }

    function Slice(offs: nat, len: nat): (v: View)
      requires Valid() && offs + len <= size
      ensures v.Valid() && v.Bytes() == Bytes()[offs..offs + len]
    {
      View(data, offset + offs, len)
    }

    /** `len` bytes at `offs`; reading past the window trips an assertion in the original. */
    function Read(offs: nat, len: nat): (r: Option<seq<byte>>)
      requires Valid()
      ensures r.Some? <==> offs + len <= size
      ensures r.Some? ==> r.value == Bytes()[offs..offs + len]
    {
      if offs + len <= size then Some(Bytes()[offs..offs + len]) else None
    }
  }

  /** A named pointer into an item. `target` is the file position it was created for. */
  class Label {
    const name: string
    ghost const target: nat
    var item: Item?
    var offset: nat

    constructor (name: string, item: Item?, offset: nat, ghost target: nat)
      ensures this.name == name && this.item == item && this.offset == offset && this.target == target
    {
      this.name, this.item, this.offset, this.target := name, item, offset, target;
    }
  }

  /** A piece of the file. Its labels are kept in offset order. */
  class Item {
    var position: nat
    var body: Body
    var labels: seq<Label>

    constructor (body: Body)
      ensures this.body == body && position == 0 && labels == []
    {
      this.body, this.position, this.labels := body, 0, [];
    }
  }

  datatype Kind = U8 | U16 | U32 | F32 | DataPtr | StrPtr | CodePtr

  datatype Operand =
    | Number(kind: Kind, value: nat)
    | Pointer(kind: Kind, lbl: Label?)

  datatype Node = Node(operation: nat, value: nat, left: nat, right: nat)

  datatype Expr = Expr(expression: nat, target: Label)

  datatype Body =
    | Raw(view: View)
    | Eof
    | CString(str: seq<byte>)
    | Header(entry: Label, extra1: Option<seq<byte>>, extra2: Option<seq<nat>>, extra4: Option<nat>)
    | Simple(opcode: byte, noReturn: bool, args: seq<Operand>)
    | RndJump(opcode: byte, tgts: seq<Label>)
    | JumpIf(opcode: byte, tgt: Label, tree: seq<Node>)
    | JumpSwitch(opcode: byte, expected: nat, lastIsDefault: bool, exprs: seq<Expr>, trailing: Option<byte>)

  function Width(k: Kind): nat {
    match k
    case U8 => 1
    case U16 => 2
    case _ => 4
  }

  function ArgsSize(args: seq<Operand>): nat {
    if args == [] then 0 else ArgsSize(args[..|args| - 1]) + Width(args[|args| - 1].kind)
  }

  /** GetSize of every item kind. */
  function Size(b: Body): nat {
    match b
    case Raw(view) => view.size
    case Eof => 0
    case CString(str) => |str| + 1
    case Header(_, e1, e2, e4) =>
      12 + (if e1.Some? then 32 else 0) + (if e2.Some? then 14 else 0) + (if e4.Some? then 2 else 0)
    case Simple(_, _, args) => 1 + ArgsSize(args)
    case RndJump(_, tgts) => 2 + 4 * |tgts|
    case JumpIf(_, _, tree) => 1 + 6 + 9 * |tree|
    case JumpSwitch(_, _, _, exprs, t) => 1 + 6 + 8 * |exprs| + (if t.Some? then 1 else 0)
  }

  predicate IsInstruction(b: Body) {
    b.Simple? || b.RndJump? || b.JumpIf? || b.JumpSwitch?
  }

  /** An item of the list together with what it holds and where. */
  datatype Cell = Cell(item: Item, pos: nat, body: Body)

  ghost function End(c: Cell): nat { c.pos + Size(c.body) }

  /** A position belongs to the item it falls into; a zero-size item owns its own position. */
  ghost predicate Covers(c: Cell, p: nat) {
    c.pos <= p && (p < End(c) || (Size(c.body) == 0 && p == c.pos))
  }

  /** A non-empty cell with the next one right behind it. */
  ghost predicate Follows(c: Cell, next: Cell) {
    End(c) == next.pos && Size(c.body) > 0
  }

  /** The cells follow each other without gap from 0 to `total`; only the last may be empty. */
  ghost predicate Tiling(cells: seq<Cell>, total: nat) {
    && |cells| > 0
    && cells[0].pos == 0
    && (forall i: nat, j: nat {:trigger cells[i], cells[j]} :: j == i + 1 < |cells| ==> Follows(cells[i], cells[j]))
    && End(cells[|cells| - 1]) == total
  }

  lemma {:induction false} TilingOrder(cells: seq<Cell>, total: nat, i: nat, j: nat)
    requires Tiling(cells, total) && i < j < |cells|
    ensures End(cells[i]) <= cells[j].pos && cells[i].pos < cells[j].pos
    decreases j - i
  {
    if i + 1 < j {
      TilingOrder(cells, total, i + 1, j);
    }
  }

  /** No position belongs to two cells. */
  lemma CoverUnique(cells: seq<Cell>, total: nat, i: nat, j: nat, p: nat)
    requires Tiling(cells, total) && i < |cells| && j < |cells|
    requires Covers(cells[i], p) && Covers(cells[j], p)
    ensures i == j
  {
    if i < j {
      TilingOrder(cells, total, i, j);
    } else if j < i {
      TilingOrder(cells, total, j, i);
    }
  }

  /** Every position of the file belongs to some cell. */
  lemma {:induction false} CoverExists(cells: seq<Cell>, total: nat, p: nat, n: nat) returns (i: nat)
    requires Tiling(cells, total) && n < |cells| && cells[n].pos <= p
    requires p < total || (p == total && Size(cells[|cells| - 1].body) == 0)
    ensures i < |cells| && Covers(cells[i], p)
    decreases |cells| - n
  {
    if n + 1 < |cells| && cells[n + 1].pos <= p {
      i := CoverExists(cells, total, p, n + 1);
    } else {
      i := n;
    }
  }

  ghost predicate RawAt(cells: seq<Cell>, p: nat) {
    exists i :: 0 <= i < |cells| && cells[i].body.Raw? && Covers(cells[i], p)
  }

  ghost predicate InstructionAt(cells: seq<Cell>, p: nat) {
    exists i :: 0 <= i < |cells| && cells[i].pos == p && IsInstruction(cells[i].body)
  }

  ghost predicate CStringAt(cells: seq<Cell>, p: nat) {
    exists i :: 0 <= i < |cells| && cells[i].pos == p && cells[i].body.CString?
  }

  /** Disassembly only refines raw cells: every other cell stays as it is. */
  ghost predicate Grows(before: seq<Cell>, after: seq<Cell>) {
    forall i :: 0 <= i < |before| && !before[i].body.Raw? ==> before[i] in after
  }

  lemma GrowsTransitive(a: seq<Cell>, b: seq<Cell>, c: seq<Cell>)
    requires Grows(a, b) && Grows(b, c)
    ensures Grows(a, c)
  {
    forall i | 0 <= i < |a| && !a[i].body.Raw?
      ensures a[i] in c
    {
      var j :| 0 <= j < |b| && b[j] == a[i];
    }
  }

  /** A position that has been disassembled stays so. */
  lemma NotRawStays(before: seq<Cell>, after: seq<Cell>, total: nat, p: nat)
    requires Tiling(before, total) && Tiling(after, total) && Grows(before, after)
    requires p < total || (p == total && Size(before[|before| - 1].body) == 0)
    requires !RawAt(before, p)
    ensures !RawAt(after, p)
  {
    var i := CoverExists(before, total, p, 0);
    var j :| 0 <= j < |after| && after[j] == before[i];
    forall k | 0 <= k < |after| && Covers(after[k], p)
      ensures !after[k].body.Raw?
    {
      CoverUnique(after, total, j, k, p);
    }
  }

  /** The bytes not disassembled yet: what every disassembly step decreases. */
  ghost function RawBytes(cells: seq<Cell>): nat {
    if cells == [] then 0
    else RawBytes(cells[1..]) + (if cells[0].body.Raw? then Size(cells[0].body) else 0)
  }

  lemma {:induction false} RawBytesConcat(a: seq<Cell>, b: seq<Cell>)
    ensures RawBytes(a + b) == RawBytes(a) + RawBytes(b)
  {
    if a == [] {
      assert a + b == b;
    } else {
      assert (a + b)[1..] == a[1..] + b;
      RawBytesConcat(a[1..], b);
    }
  }

  lemma RawBytesReplaced(cells: seq<Cell>, k: nat, parts: seq<Cell>)
    requires k < |cells|
    ensures RawBytes(cells[..k] + parts + cells[k + 1..]) == RawBytes(cells) - RawBytes([cells[k]]) + RawBytes(parts)
  {
    assert cells == cells[..k] + ([cells[k]] + cells[k + 1..]);
    RawBytesConcat(cells[..k], [cells[k]] + cells[k + 1..]);
    RawBytesConcat([cells[k]], cells[k + 1..]);
    RawBytesConcat(cells[..k] + parts, cells[k + 1..]);
    RawBytesConcat(cells[..k], parts);
  }
}
