/** What a disassembled STSC script is, said of the opcode table and the bytes of the file alone. */
module Scripts {
  import opened Bytes
  import opened Numbers
  import opened Items
  import opened Opcodes
  import opened Images
  import opened Closure
  import opened Parsing

  /** The operands in the file, from `p` to `end`: a code pointer leads to something that is not raw, a string pointer
      to the start of a string, unless they are zero. */
  ghost predicate OperandsServed(cells: seq<Cell>, kinds: seq<Kind>, file: seq<byte>, p: nat, end: nat)
    decreases |kinds|
  {
    if kinds == [] then p == end
    else
      match kinds[0]
      case U8 => p + 1 <= |file| && OperandsServed(cells, kinds[1..], file, p + 1, end)
      case U16 => p + 2 <= |file| && OperandsServed(cells, kinds[1..], file, p + 2, end)
      case CodePtr => p + 4 <= |file| && (Four(file, p) != 0 ==> !RawAt(cells, Four(file, p))) && OperandsServed(cells, kinds[1..], file, p + 4, end)
      case StrPtr => p + 4 <= |file| && (Four(file, p) != 0 ==> CStringAt(cells, Four(file, p))) && OperandsServed(cells, kinds[1..], file, p + 4, end)
      case _ => p + 4 <= |file| && OperandsServed(cells, kinds[1..], file, p + 4, end)
  }

  /** The item behind has been disassembled. */
  ghost predicate GoneOn(cells: seq<Cell>, k: nat) {
    k + 1 < |cells| && !cells[k + 1].body.Raw?
  }

  /** Where the instruction at this place ends, what it leads to, and whether control goes on behind it. */
  ghost predicate Served(cells: seq<Cell>, file: seq<byte>, table: Table, k: nat)
    requires k < |cells|
  {
    var p, end := cells[k].pos, End(cells[k]);
    p < |file| &&
    match table[file[p]]
    case SimpleOp(noReturn, kinds) => OperandsServed(cells, kinds, file, p + 1, end) && (!noReturn ==> GoneOn(cells, k))
    case RndJumpOp =>
      && p + 2 <= |file| && end == p + 2 + 4 * file[p + 1] as nat <= |file| && GoneOn(cells, k)
      && forall i: nat {:trigger Four(file, p + 2 + 4 * i)} :: i < file[p + 1] ==> !RawAt(cells, Four(file, p + 2 + 4 * i))
    case JumpIfOp =>
      p + 7 <= |file| && end == p + 7 + 9 * Two(file, p + 1) && !RawAt(cells, Four(file, p + 3)) && GoneOn(cells, k)
    case JumpSwitchOp(trailing) =>
      && p + 7 <= |file| && end == p + 7 + 8 * Cases(Two(file, p + 5)) + (if trailing then 1 else 0) <= |file|
      && (forall i: nat {:trigger Four(file, p + 11 + 8 * i)} :: i < Cases(Two(file, p + 5)) ==> InstructionAt(cells, Four(file, p + 11 + 8 * i)))
      && (Two(file, p + 5) < 0x8000 ==> GoneOn(cells, k))
    case Unimplemented => false
  }

  ghost predicate AllServed(cells: seq<Cell>, file: seq<byte>, table: Table) {
    forall k {:trigger cells[k]} :: 0 <= k < |cells| && IsInstruction(cells[k].body) ==> Served(cells, file, table, k)
  }

  /** The arguments of a simple instruction lead where the words in the file say. */
  lemma {:induction false} ArgsServed(cells: seq<Cell>, args: seq<Operand>, kinds: seq<Kind>, file: seq<byte>, p: nat)
    requires ArgsAt(args, kinds, file, p)
    requires forall i {:trigger args[i]} :: 0 <= i < |args| && args[i].Pointer? && args[i].lbl != null ==>
               && (args[i].kind == CodePtr ==> !RawAt(cells, args[i].lbl.target))
               && (args[i].kind == StrPtr ==> CStringAt(cells, args[i].lbl.target))
    ensures OperandsServed(cells, kinds, file, p, p + ArgsSize(args))
    decreases |args|
  {
    hide Two, Four, RawAt, CStringAt;
    if args != [] {
      SizeFromFront(args);
      assert forall i {:trigger args[1..][i]} :: 0 <= i < |args| - 1 ==> args[1..][i] == args[i + 1];
      var o := args[0];
      match kinds[0]
      case U8 => ArgsServed(cells, args[1..], kinds[1..], file, p + 1);
      case U16 => ArgsServed(cells, args[1..], kinds[1..], file, p + 2);
      case _ => ArgsServed(cells, args[1..], kinds[1..], file, p + 4);
    }
  }

  /** Every instruction of a disassembled script is served as the table and its bytes say. */
  lemma ScriptMeans(cells: seq<Cell>, file: seq<byte>, table: Table, k: nat)
    requires Tiling(cells, |file|) && Settled(cells, file, {}) && AllFormed(cells, file, table)
    requires k < |cells| && IsInstruction(cells[k].body)
    ensures Served(cells, file, table, k)
  {
    hide Settled, Tiling, Two, Four, RawAt, CStringAt, InstructionAt, ArgsAt;
    ClosureMeans(cells, file, k);
    FaithfulEnds(cells, file, k);
    var c := cells[k];
    var p := c.pos;
    assert Formed(c.body, table, file, p);
    match table[file[p]]
    case SimpleOp(_, kinds) => ArgsServed(cells, c.body.args, kinds, file, p + 1);
    case RndJumpOp =>
      forall i: nat | i < file[p + 1]
        ensures !RawAt(cells, Four(file, p + 2 + 4 * i))
      {
        assert c.body.tgts[i].target == Four(file, p + 2 + 4 * i);
      }
    case JumpIfOp =>
    case JumpSwitchOp(_) =>
      forall i: nat | i < Cases(Two(file, p + 5))
        ensures InstructionAt(cells, Four(file, p + 11 + 8 * i))
      {
        assert c.body.exprs[i].target.target == Four(file, p + 7 + 8 * i + 4);
      }
  }

  lemma FaithfulEnds(cells: seq<Cell>, file: seq<byte>, k: nat)
    requires Settled(cells, file, {}) && k < |cells|
    ensures End(cells[k]) <= |file|
  {
    assert Faithful(cells[k], file);
  }

  lemma AllMeant(cells: seq<Cell>, file: seq<byte>, table: Table)
    requires Tiling(cells, |file|) && Settled(cells, file, {}) && AllFormed(cells, file, table)
    ensures AllServed(cells, file, table)
  {
    hide Served, Settled, Tiling, AllFormed;
    forall k | 0 <= k < |cells| && IsInstruction(cells[k].body)
      ensures Served(cells, file, table, k)
    {
      ScriptMeans(cells, file, table, k);
    }
  }

  lemma FlagByte(b: seq<byte>)
    requires |b| >= 12
    ensures Word32(b, 8) < 8 <==> b[8] < 8 && b[9] == 0 && b[10] == 0 && b[11] == 0
    ensures Word32(b, 8) < 8 ==> Word32(b, 8) == b[8]
  {
    hide De;
    WordsAre(b, 8);
  }

  /** A header, byte by byte: the letters STSC, the entry point behind the header and two bytes before the end at
      most, and three flags for extra parts of 32, 14 and 2 bytes. */
  lemma HeaderMeans(b: seq<byte>)
    ensures HeaderReadable(b) <==>
              && |b| >= 12 && b[0] == 0x53 && b[1] == 0x54 && b[2] == 0x53 && b[3] == 0x43
              && Four(b, 4) < |b| - 1 && b[8] < 8 && b[9] == 0 && b[10] == 0 && b[11] == 0
              && 12 + (if b[8] % 2 == 1 then 32 else 0) + (if b[8] / 2 % 2 == 1 then 14 else 0) + (if b[8] / 4 % 2 == 1 then 2 else 0) <= Four(b, 4)
  {
    hide Word32, Four;
    if |b| >= 12 {
      FlagByte(b);
      WordsAre(b, 4);
      assert b[..4] == [b[0], b[1], b[2], b[3]];
    }
  }

  function Words7(b: seq<byte>, at: nat): seq<nat>
    requires at + 14 <= |b|
  {
    [Two(b, at), Two(b, at + 2), Two(b, at + 4), Two(b, at + 6), Two(b, at + 8), Two(b, at + 10), Two(b, at + 12)]
  }

  /** Seven words of two bytes. */
  lemma SevenFields(b: seq<byte>, at: nat)
    requires at + 14 <= |b|
    ensures FieldsAt(b, at, 7) == Words7(b, at)
  {
    hide Word16, Two;
    WordsAre(b, at);
    WordsAre(b, at + 2);
    WordsAre(b, at + 4);
    WordsAre(b, at + 6);
    WordsAre(b, at + 8);
    WordsAre(b, at + 10);
    WordsAre(b, at + 12);
    assert FieldsAt(b, at, 2) == [Two(b, at), Two(b, at + 2)] by {
      assert FieldsAt(b, at, 1) == [Two(b, at)] by {
        assert FieldsAt(b, at, 0) == [];
      }
    }
    assert FieldsAt(b, at, 4) == FieldsAt(b, at, 2) + [Two(b, at + 4), Two(b, at + 6)] by {
      assert FieldsAt(b, at, 3) == FieldsAt(b, at, 2) + [Two(b, at + 4)];
    }
    assert FieldsAt(b, at, 6) == FieldsAt(b, at, 4) + [Two(b, at + 8), Two(b, at + 10)] by {
      assert FieldsAt(b, at, 5) == FieldsAt(b, at, 4) + [Two(b, at + 8)];
    }
  }

  /** Its extra parts follow each other, those that are there. */
  lemma ExtrasMean(b: seq<byte>, entry: Label)
    requires HeaderReadable(b)
    ensures |b| >= 12 && HeaderAt(b, entry).entry == entry
    ensures b[8] % 2 == 0 ==> HeaderAt(b, entry).extra1 == None
    ensures b[8] % 2 == 1 ==> |b| >= 44 && HeaderAt(b, entry).extra1 == Some(b[12..44])
    ensures b[8] / 2 % 2 == 0 ==> HeaderAt(b, entry).extra2 == None
    ensures var at := if b[8] % 2 == 1 then 44 else 12;
            b[8] / 2 % 2 == 1 ==> at + 14 <= |b| && HeaderAt(b, entry).extra2 == Some(Words7(b, at))
    ensures b[8] / 4 % 2 == 0 ==> HeaderAt(b, entry).extra4 == None
    ensures var at := 12 + (if b[8] % 2 == 1 then 32 else 0) + (if b[8] / 2 % 2 == 1 then 14 else 0);
            b[8] / 4 % 2 == 1 ==> at + 2 <= |b| && HeaderAt(b, entry).extra4 == Some(Two(b, at))
  {
    hide Word16, Two, FieldsAt, De;
    FlagByte(b);
    var at2 := if b[8] % 2 == 1 then 44 else 12;
    var at4 := 12 + (if b[8] % 2 == 1 then 32 else 0) + (if b[8] / 2 % 2 == 1 then 14 else 0);
    if b[8] / 2 % 2 == 1 {
      SevenFields(b, at2);
    }
    if b[8] / 4 % 2 == 1 {
      WordsAre(b, at4);
    }
  }
}
