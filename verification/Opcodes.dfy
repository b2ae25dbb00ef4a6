/** What the opcode table and the bytes of a file make an instruction of an STSC script. */
module Opcodes {
  import opened Bytes
  import opened Numbers
  import opened Items

  /** The shape an opcode gives an instruction. */
  datatype Op =
    | SimpleOp(noReturn: bool, kinds: seq<Kind>)
    | RndJumpOp
    | JumpIfOp
    | JumpSwitchOp(trailing: bool)
    | Unimplemented

  /** The opcode table of a flavor. */
  type Table = t: seq<Op> | |t| == 256 witness seq(256, _ => Unimplemented)

  /** The operands are those of the table, one behind the other from `p` on: numbers of one, two or four bytes,
      and pointers of four, null if these are zero. */
  ghost predicate ArgsAt(args: seq<Operand>, kinds: seq<Kind>, b: seq<byte>, p: nat)
    decreases |args|
  {
    |args| == |kinds| && (args != [] ==>
      match kinds[0]
      case U8 => p + 1 <= |b| && args[0] == Number(U8, b[p]) && ArgsAt(args[1..], kinds[1..], b, p + 1)
      case U16 => p + 2 <= |b| && args[0] == Number(U16, Two(b, p)) && ArgsAt(args[1..], kinds[1..], b, p + 2)
      case U32 => p + 4 <= |b| && args[0] == Number(U32, Four(b, p)) && ArgsAt(args[1..], kinds[1..], b, p + 4)
      case F32 => p + 4 <= |b| && args[0] == Number(F32, Four(b, p)) && ArgsAt(args[1..], kinds[1..], b, p + 4)
      case _ => p + 4 <= |b| && PointerAt(args[0], kinds[0], Four(b, p)) && ArgsAt(args[1..], kinds[1..], b, p + 4))
  }

  ghost predicate PointerAt(o: Operand, kind: Kind, word: nat) {
    o.Pointer? && o.kind == kind && if word == 0 then o.lbl == null else o.lbl != null && o.lbl.target == word
  }

  ghost predicate TargetsAt(tgts: seq<Label>, b: seq<byte>, p: nat) {
    forall i {:trigger tgts[i]} :: 0 <= i < |tgts| ==> p + 4 * i + 4 <= |b| && tgts[i].target == Four(b, p + 4 * i)
  }

  ghost predicate TreeAt(tree: seq<Node>, b: seq<byte>, p: nat) {
    forall i {:trigger tree[i]} :: 0 <= i < |tree| ==>
      p + 9 * i + 9 <= |b| && tree[i] == Node(b[p + 9 * i], Four(b, p + 9 * i + 1), Two(b, p + 9 * i + 5), Two(b, p + 9 * i + 7))
  }

  ghost predicate ExprsAt(exprs: seq<Expr>, b: seq<byte>, p: nat) {
    forall i {:trigger exprs[i]} :: 0 <= i < |exprs| ==>
      p + 8 * i + 8 <= |b| && exprs[i].expression == Four(b, p + 8 * i) && exprs[i].target.target == Four(b, p + 8 * i + 4)
  }

  /** The instruction that the table and the bytes from `p` on say. */
  ghost predicate Formed(body: Body, table: Table, b: seq<byte>, p: nat) {
    p < |b| &&
    match table[b[p]]
    case SimpleOp(noReturn, kinds) => body.Simple? && body.opcode == b[p] && body.noReturn == noReturn && ArgsAt(body.args, kinds, b, p + 1)
    case RndJumpOp => body.RndJump? && body.opcode == b[p] && p + 2 <= |b| && |body.tgts| == b[p + 1] && TargetsAt(body.tgts, b, p + 2)
    case JumpIfOp =>
      && body.JumpIf? && body.opcode == b[p] && p + 7 <= |b| && |body.tree| == Two(b, p + 1) && body.tgt.target == Four(b, p + 3)
      && TreeAt(body.tree, b, p + 7)
    case JumpSwitchOp(trailing) =>
      && body.JumpSwitch? && body.opcode == b[p] && p + 7 <= |b| && body.expected == Four(b, p + 1)
      && body.lastIsDefault == (Two(b, p + 5) >= 0x8000)
      && |body.exprs| == (if Two(b, p + 5) >= 0x8000 then Two(b, p + 5) % 0x800 else Two(b, p + 5))
      && ExprsAt(body.exprs, b, p + 7)
      && (if trailing then p + 7 + 8 * |body.exprs| < |b| && body.trailing == Some(b[p + 7 + 8 * |body.exprs|]) else body.trailing == None)
    case Unimplemented => false
  }

  /** A pointer of this kind, among operands from `p` on, is not null and leads to `t`. */
  ghost predicate OperandNames(kind: Kind, kinds: seq<Kind>, file: seq<byte>, p: nat, t: nat)
    decreases |kinds|
  {
    kinds != [] &&
    match kinds[0]
    case U8 => OperandNames(kind, kinds[1..], file, p + 1, t)
    case U16 => OperandNames(kind, kinds[1..], file, p + 2, t)
    case k => (k == kind && p + 4 <= |file| && t != 0 && t == Four(file, p)) || OperandNames(kind, kinds[1..], file, p + 4, t)
  }

  /** Where operands from `p` on end. */
  function OperandsEnd(kinds: seq<Kind>, p: nat): nat
    decreases |kinds|
  {
    if kinds == [] then p
    else
      match kinds[0]
      case U8 => OperandsEnd(kinds[1..], p + 1)
      case U16 => OperandsEnd(kinds[1..], p + 2)
      case _ => OperandsEnd(kinds[1..], p + 4)
  }

  /** The number of expressions of a switch: eleven bits of its size word if the highest one is set. */
  function Cases(word: nat): nat {
    if word >= 0x8000 then word % 0x800 else word
  }

  /** Control goes from the instruction at `q` to `t`. */
  ghost predicate CodeFrom(file: seq<byte>, table: Table, q: nat, t: nat) {
    q < |file| &&
    match table[file[q]]
    case SimpleOp(noReturn, kinds) => OperandNames(CodePtr, kinds, file, q + 1, t) || (!noReturn && t == OperandsEnd(kinds, q + 1))
    case RndJumpOp => q + 2 <= |file| && (TargetNamed(file, q, t) || t == q + 2 + 4 * file[q + 1] as nat)
    case JumpIfOp => q + 7 <= |file| && (t == Four(file, q + 3) || t == q + 7 + 9 * Two(file, q + 1))
    case JumpSwitchOp(trailing) =>
      q + 7 <= |file| && (CaseNamed(file, q, t) || (Two(file, q + 5) < 0x8000 && t == q + 7 + 8 * Two(file, q + 5) + (if trailing then 1 else 0)))
    case Unimplemented => false
  }

  ghost predicate TargetNamed(file: seq<byte>, q: nat, t: nat)
    requires q + 2 <= |file|
  {
    exists i: nat {:trigger q + 2 + 4 * i} :: i < file[q + 1] && q + 2 + 4 * i + 4 <= |file| && t == Four(file, q + 2 + 4 * i)
  }

  ghost predicate CaseNamed(file: seq<byte>, q: nat, t: nat)
    requires q + 7 <= |file|
  {
    exists i: nat {:trigger q + 11 + 8 * i} :: i < Cases(Two(file, q + 5)) && q + 11 + 8 * i + 4 <= |file| && t == Four(file, q + 11 + 8 * i)
  }

  /** The instruction at `q` names the string at `t`. */
  ghost predicate TextFrom(file: seq<byte>, table: Table, q: nat, t: nat) {
    q < |file| && table[file[q]].SimpleOp? && OperandNames(StrPtr, table[file[q]].kinds, file, q + 1, t)
  }

  /** Code is `n` steps from the entry point. */
  ghost predicate CodeSteps(file: seq<byte>, table: Table, t: nat, n: nat)
    decreases n
  {
    if n == 0 then |file| >= 8 && t == Four(file, 4)
    else exists q: nat {:trigger CodeFrom(file, table, q, t)} :: CodeFrom(file, table, q, t) && CodeSteps(file, table, q, n - 1)
  }

  ghost predicate CodeSought(file: seq<byte>, table: Table, t: nat) {
    exists n: nat :: CodeSteps(file, table, t, n)
  }

  ghost predicate TextSought(file: seq<byte>, table: Table, t: nat) {
    exists q: nat {:trigger TextFrom(file, table, q, t)} :: TextFrom(file, table, q, t) && CodeSought(file, table, q)
  }

  lemma CodeStep(file: seq<byte>, table: Table, q: nat, t: nat)
    requires CodeSought(file, table, q)
    ensures CodeFrom(file, table, q, t) ==> CodeSought(file, table, t)
    ensures TextFrom(file, table, q, t) ==> TextSought(file, table, t)
  {
    hide CodeFrom, TextFrom;
    if CodeFrom(file, table, q, t) {
      var n: nat :| CodeSteps(file, table, q, n);
      assert CodeSteps(file, table, t, n + 1);
    }
  }

  lemma EntrySought(file: seq<byte>, table: Table)
    requires |file| >= 8
    ensures CodeSought(file, table, Four(file, 4))
  {
    assert CodeSteps(file, table, Four(file, 4), 0);
  }

  /** Every instruction of the list is what the table and the file say, and control leads to it from the entry point on;
      every string is named by such an instruction. */
  ghost predicate AllFormed(cells: seq<Cell>, file: seq<byte>, table: Table) {
    && (forall i {:trigger cells[i]} :: 0 <= i < |cells| && IsInstruction(cells[i].body) ==>
         Formed(cells[i].body, table, file, cells[i].pos) && CodeSought(file, table, cells[i].pos))
    && (forall i {:trigger cells[i]} :: 0 <= i < |cells| && cells[i].body.CString? ==> TextSought(file, table, cells[i].pos))
  }

  // ---- what the arguments of an instruction name

  lemma {:induction false} ArgNamed(args: seq<Operand>, kinds: seq<Kind>, file: seq<byte>, p: nat, i: nat)
    requires ArgsAt(args, kinds, file, p) && i < |args| && args[i].Pointer? && args[i].lbl != null
    ensures OperandNames(args[i].kind, kinds, file, p, args[i].lbl.target)
    decreases |args|
  {
    hide Two, Four;
    if i > 0 {
      match kinds[0]
      case U8 => ArgNamed(args[1..], kinds[1..], file, p + 1, i - 1);
      case U16 => ArgNamed(args[1..], kinds[1..], file, p + 2, i - 1);
      case _ => ArgNamed(args[1..], kinds[1..], file, p + 4, i - 1);
    }
  }

  lemma {:induction false} ArgsEnd(args: seq<Operand>, kinds: seq<Kind>, file: seq<byte>, p: nat)
    requires ArgsAt(args, kinds, file, p)
    ensures OperandsEnd(kinds, p) == p + ArgsSize(args)
    decreases |args|
  {
    hide Two, Four;
    if args != [] {
      SizeFromFront(args);
      match kinds[0]
      case U8 => ArgsEnd(args[1..], kinds[1..], file, p + 1);
      case U16 => ArgsEnd(args[1..], kinds[1..], file, p + 2);
      case _ => ArgsEnd(args[1..], kinds[1..], file, p + 4);
    }
  }

  lemma {:induction false} SizeFromFront(args: seq<Operand>)
    requires args != []
    ensures ArgsSize(args) == Width(args[0].kind) + ArgsSize(args[1..])
  {
    var n := |args| - 1;
    if n > 0 {
      SizeFromFront(args[..n]);
      assert args[..n][1..] == args[1..][..n - 1];
      assert args[1..][n - 1] == args[n];
    }
  }

  lemma NumbersInside(b: seq<byte>, file: seq<byte>, at: nat, q: nat)
    requires at + |b| <= |file| && b == file[at..at + |b|]
    ensures q < |b| ==> b[q] == file[at + q]
    ensures q + 2 <= |b| ==> Two(b, q) == Two(file, at + q)
    ensures q + 4 <= |b| ==> Four(b, q) == Four(file, at + q)
  {
  }

  /** What was read from part of a file is what the file says there. */
  lemma {:induction false} ArgsInside(args: seq<Operand>, kinds: seq<Kind>, b: seq<byte>, file: seq<byte>, at: nat, p: nat)
    requires at + |b| <= |file| && b == file[at..at + |b|] && ArgsAt(args, kinds, b, p)
    ensures ArgsAt(args, kinds, file, at + p)
    decreases |args|
  {
    if args != [] {
      hide Two, Four;
      NumbersInside(b, file, at, p);
      match kinds[0]
      case U8 => ArgsInside(args[1..], kinds[1..], b, file, at, p + 1);
      case U16 => ArgsInside(args[1..], kinds[1..], b, file, at, p + 2);
      case _ => ArgsInside(args[1..], kinds[1..], b, file, at, p + 4);
    }
  }

  lemma {:induction false} FormedInside(body: Body, table: Table, b: seq<byte>, file: seq<byte>, at: nat)
    requires at + |b| <= |file| && b == file[at..at + |b|] && Formed(body, table, b, 0)
    ensures Formed(body, table, file, at)
  {
    hide Two, Four, ArgsAt;
    NumbersInside(b, file, at, 0);
    NumbersInside(b, file, at, 1);
    match table[b[0]]
    case SimpleOp(_, kinds) => ArgsInside(body.args, kinds, b, file, at, 1);
    case RndJumpOp =>
      forall i | 0 <= i < |body.tgts|
        ensures at + 2 + 4 * i + 4 <= |file| && body.tgts[i].target == Four(file, at + 2 + 4 * i)
      {
        var t := body.tgts[i];
        NumbersInside(b, file, at, 2 + 4 * i);
      }
    case JumpIfOp =>
      NumbersInside(b, file, at, 3);
      TreeInside(body.tree, b, file, at);
    case JumpSwitchOp(_) =>
      NumbersInside(b, file, at, 5);
      NumbersInside(b, file, at, 7 + 8 * |body.exprs|);
      ExprsInside(body.exprs, b, file, at);
    case Unimplemented =>
  }

  lemma NodeInside(nd: Node, b: seq<byte>, file: seq<byte>, at: nat, p: nat)
    requires at + |b| <= |file| && b == file[at..at + |b|] && p + 9 <= |b|
    requires nd == Node(b[p], Four(b, p + 1), Two(b, p + 5), Two(b, p + 7))
    ensures nd == Node(file[at + p], Four(file, at + p + 1), Two(file, at + p + 5), Two(file, at + p + 7))
  {
  }

  lemma TreeInside(tree: seq<Node>, b: seq<byte>, file: seq<byte>, at: nat)
    requires at + |b| <= |file| && b == file[at..at + |b|] && TreeAt(tree, b, 7)
    ensures TreeAt(tree, file, at + 7)
  {
    forall i | 0 <= i < |tree|
      ensures at + 7 + 9 * i + 9 <= |file|
      ensures tree[i] == Node(file[at + 7 + 9 * i], Four(file, at + 7 + 9 * i + 1), Two(file, at + 7 + 9 * i + 5), Two(file, at + 7 + 9 * i + 7))
    {
      NodeInside(tree[i], b, file, at, 7 + 9 * i);
    }
  }

  lemma ExprInside(e: Expr, b: seq<byte>, file: seq<byte>, at: nat, p: nat)
    requires at + |b| <= |file| && b == file[at..at + |b|] && p + 8 <= |b| && e.expression == Four(b, p) && e.target.target == Four(b, p + 4)
    ensures e.expression == Four(file, at + p) && e.target.target == Four(file, at + p + 4)
  {
  }

  lemma ExprsInside(exprs: seq<Expr>, b: seq<byte>, file: seq<byte>, at: nat)
    requires at + |b| <= |file| && b == file[at..at + |b|] && ExprsAt(exprs, b, 7)
    ensures ExprsAt(exprs, file, at + 7)
  {
    forall i | 0 <= i < |exprs|
      ensures at + 7 + 8 * i + 8 <= |file|
      ensures exprs[i].expression == Four(file, at + 7 + 8 * i) && exprs[i].target.target == Four(file, at + 7 + 8 * i + 4)
    {
      ExprInside(exprs[i], b, file, at, 7 + 8 * i);
    }
  }
}
