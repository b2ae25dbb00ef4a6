/** Whole GBNL files on values: how a table is written, how it is read, and that the two agree. */
module GbnlFiles {
  import opened Bytes
  import opened Pools
  import opened Descriptors
  import opened Words
  import opened GbnlCodec

  /** GBIN sections are aligned to 16 bytes, GSTR ones are not. */
  function Align(isGstl: bool, x: nat): (r: nat)
    ensures x <= r < x + 16
    ensures isGstl ==> r == x
    ensures !isGstl ==> r % 16 == 0
  {
    if isGstl then x else (x + 15) / 16 * 16
  }

  lemma AlignFrom(x: nat, y: nat)
    requires x % 16 == 0
    ensures Align(false, x + y) == x + Align(false, y)
  {
  }

  function PadTo(isGstl: bool, b: seq<byte>): (r: seq<byte>)
    ensures |r| == Align(isGstl, |b|) && r[..|b|] == b
  {
    b + Zeros(Align(isGstl, |b|) - |b|)
  }

  /** What is padded is filled up with zeros: in a GBIN to the next multiple of 16, in a GSTR not at all. */
  lemma PadIs(isGstl: bool, b: seq<byte>, k: nat)
    ensures isGstl ==> PadTo(isGstl, b) == b
    ensures !isGstl ==> |b| <= |PadTo(isGstl, b)| < |b| + 16 && |PadTo(isGstl, b)| % 16 == 0
    ensures k < |PadTo(isGstl, b)| ==> PadTo(isGstl, b)[k] == if k < |b| then b[k] else 0
  {
  }

  /** Every message has a value for each field. */
  predicate Rows(types: seq<FieldType>, messages: seq<seq<Value>>) {
    forall j {:trigger messages[j]} :: 0 <= j < |messages| ==> |messages[j]| == |types|
  }

  function Records(t: Table): seq<byte>
    requires Rows(t.types, t.messages)
  {
    RecordsOf(t.little, t.types, t.messages)
  }

  function RecordsOf(little: bool, types: seq<FieldType>, messages: seq<seq<Value>>): seq<byte>
    requires Rows(types, messages)
  {
    if messages == [] then []
    else RecordsOf(little, types, messages[..|messages| - 1]) + RecordBytes(little, types, messages[|messages| - 1])
  }

  function DescriptorBytes(little: bool, d: Descriptor): (r: seq<byte>)
    ensures |r| == 4
  {
    Enc(little, 2, d.code) + Enc(little, 2, d.offset)
  }

  function DescriptorsBytes(little: bool, ds: seq<Descriptor>): (r: seq<byte>)
    ensures |r| == 4 * |ds|
  {
    if ds == [] then [] else DescriptorsBytes(little, ds[..|ds| - 1]) + DescriptorBytes(little, ds[|ds| - 1])
  }

  /** Where the sections of a table are. */
  function RecordsStart(t: Table): nat { if t.isGstl then HEADER_SIZE else 0 }

  function TypesStart(t: Table): nat { Align(t.isGstl, RecordsStart(t) + TotalSize(t.types) * |t.messages|) }

  function PoolStart(t: Table): nat { Align(t.isGstl, TypesStart(t) + 4 * |Described(t.types)|) }

  function PoolSize(t: Table): nat { Collect(Flat(t.messages)).size }

  function HeadOfTable(t: Table): Head {
    Head(1, 0, 16, 4, t.flags, RecordsStart(t), |t.messages|, TotalSize(t.types), |Described(t.types)|, TypesStart(t),
         t.field28, if PoolSize(t) > 0 then PoolStart(t) else 0, t.field30, 0, 0, 0)
  }

  function SizeFrom(isGstl: bool, recordSize: nat, records: nat, descriptors: nat, poolSize: nat): nat {
    Align(isGstl, Align(isGstl, Align(isGstl, recordSize * records) + 4 * descriptors) + poolSize) + HEADER_SIZE
  }

  /** The size announced for a table. */
  function GetSize(t: Table): nat {
    SizeFrom(t.isGstl, TotalSize(t.types), |t.messages|, |Described(t.types)|, PoolSize(t))
  }

  /** The sections between header and footer. */
  function Sections(t: Table): seq<byte>
    requires Rows(t.types, t.messages)
  {
    PadTo(t.isGstl, Records(t)) + PadTo(t.isGstl, DescriptorsBytes(t.little, Described(t.types))) + PadTo(t.isGstl, Emitted(Flat(t.messages)))
  }

  function Dumped(t: Table): seq<byte>
    requires Rows(t.types, t.messages)
  {
    var head := HeadBytes(t.little, t.isGstl, HeadOfTable(t));
    if t.isGstl then head + Sections(t) else Sections(t) + head
  }

  // ---- reading

  /** The checks on a header; one sum is taken modulo two to the 32. */
  predicate HeadInside(h: Head, size: nat) {
    && h.field04 == 1 && h.field06 == 0 && h.field08 == 16 && h.field0c == 4
    && (h.descrOffset + h.msgDescrSize * h.countMsgs) % 0x1_0000_0000 < size
    && h.offsetTypes + 4 * h.countTypes < size && h.offsetMsgs < size
    && h.field34 == 0 && h.field38 == 0 && h.field3c == 0
  }

  /** Where the records start goes by the letters of the header itself. */
  predicate HeadValid(h: Head, gst: bool, size: nat) {
    HeadInside(h, size) && h.descrOffset == if gst then HEADER_SIZE else 0
  }

  function DescriptorAt(file: seq<byte>, little: bool, at: nat): Descriptor
    requires at + 4 <= |file|
  {
    Descriptor(Dec(little, file[at..at + 2]), Dec(little, file[at + 2..at + 4]))
  }

  function DescriptorsAt(file: seq<byte>, little: bool, at: nat, n: nat): (r: seq<Descriptor>)
    requires at + 4 * n <= |file|
    ensures |r| == n
  {
    if n == 0 then [] else DescriptorsAt(file, little, at, n - 1) + [DescriptorAt(file, little, at + 4 * (n - 1))]
  }

  function MessagesAt(file: seq<byte>, little: bool, types: seq<FieldType>, at: nat, size: nat, n: nat, pool: nat): (r: Option<seq<seq<Value>>>)
    ensures r.Some? ==> |r.value| == n
    ensures r.Some? ==> Rows(types, r.value)
  {
    if n == 0 then Some([])
    else
      var rest := MessagesAt(file, little, types, at, size, n - 1, pool);
      var m := RecordAt(file, little, types, at + (n - 1) * size, pool);
      if rest.None? || m.None? then None else Some(rest.value + [m.value])
  }

  /** The table with every string at its place in the pool. */
  function Recalculated(t: Table): (r: Table)
    ensures r == t.(messages := r.messages) && |r.messages| == |t.messages|
    ensures forall j {:trigger r.messages[j]} :: 0 <= j < |r.messages| ==> r.messages[j] == SettleAll(t.messages[j], Collect(Flat(t.messages)))
  {
    var p := Collect(Flat(t.messages));
    t.(messages := seq(|t.messages|, j requires 0 <= j < |t.messages| => SettleAll(t.messages[j], p)))
  }

  /** Where the header is: at the front of a GSTR file, at the end of any other. */
  function HeadStart(file: seq<byte>): nat
    requires |file| >= HEADER_SIZE
  {
    if file[..3] == Gst() then 0 else |file| - HEADER_SIZE
  }

  /** The table in a file, or nothing if the file is refused. */
  function Parsed(file: seq<byte>): Option<Table> {
    if |file| < HEADER_SIZE then None
    else
      WidthsSum();
      var at := HeadStart(file);
      var isGstl := file[..3] == Gst();
      var little := file[at + 3] == 76;
      var h := HeadOf(DecWords(little, WIDTHS, file[at + 4..at + HEADER_SIZE]));
      var magic := file[at..at + 3];
      if (!little && file[at + 3] != 66) || (magic != Gst() && magic != Gbn()) || !HeadValid(h, magic == Gst(), |file|) then None
      else
        ParsedBody(file, little, isGstl, h)
  }

  function ParsedBody(file: seq<byte>, little: bool, isGstl: bool, h: Head): Option<Table>
    requires HeadInside(h, |file|)
  {
    var ds := DescriptorsAt(file, little, h.offsetTypes, h.countTypes);
    if !Ordered(ds) then None
    else
      var types := Built(ds, h.msgDescrSize);
      var msgs := MessagesAt(file, little, types, h.descrOffset, h.msgDescrSize, h.countMsgs, h.offsetMsgs);
      if msgs.None? then None
      else
        var t := Table(little, isGstl, h.flags, h.field28, h.field30, types, msgs.value);
        if TotalSize(types) != h.msgDescrSize || GetSize(t) != |file| then None else Some(Recalculated(t))
  }

  /** The values of a message belong to its fields; unused bytes are zero and strings hold no zero. */
  predicate GoodRow(types: seq<FieldType>, m: seq<Value>) {
    AllMatch(types, m) && AllZeroFilled(m) && NulFree(m)
  }

  predicate GoodRows(types: seq<FieldType>, messages: seq<seq<Value>>) {
    forall j {:trigger messages[j]} :: 0 <= j < |messages| ==> GoodRow(types, messages[j])
  }

  // ---- lengths

  lemma {:induction false} RecordsLength(little: bool, types: seq<FieldType>, messages: seq<seq<Value>>)
    requires GoodRows(types, messages)
    ensures Rows(types, messages) && |RecordsOf(little, types, messages)| == TotalSize(types) * |messages|
  {
    if messages != [] {
      var n := |messages| - 1;
      assert forall j :: 0 <= j < n ==> messages[..n][j] == messages[j];
      RecordsLength(little, types, messages[..n]);
      assert GoodRow(types, messages[n]);
      RecordLength(little, types, messages[n]);
      assert TotalSize(types) * n + TotalSize(types) == TotalSize(types) * (n + 1);
    }
  }

  /** What a table must meet to be written faithfully, besides having its strings settled. */
  predicate WellFormed(t: Table) {
    && CanonicalTypes(t.types)
    && GoodRows(t.types, t.messages)
    && (forall i {:trigger Described(t.types)[i]} :: 0 <= i < |Described(t.types)| ==> Described(t.types)[i].offset < 0x1_0000)
    && t.flags < 0x1_0000_0000 && t.field28 < 0x1_0000_0000 && t.field30 < 0x1_0000_0000 && |t.messages| < 0x1_0000_0000
    && GetSize(t) < NIL
  }

  predicate NulFree(vs: seq<Value>) {
    forall i {:trigger vs[i]} :: 0 <= i < |vs| ==> (Live(vs[i]) ==> 0 !in vs[i].str)
  }

  /** The strings are where RecalcSize has put them. */
  predicate Current(t: Table) {
    AllSettled(Flat(t.messages))
  }

  lemma {:induction false} PoolWritten(t: Table)
    requires Current(t) && PoolSize(t) < NIL
    ensures Emitted(Flat(t.messages)) == PoolBytes(Strings(Flat(t.messages))) && |Emitted(Flat(t.messages))| == PoolSize(t)
  {
    var vs := Flat(t.messages);
    EmittedIsPool(vs, |vs|);
    assert vs[..|vs|] == vs;
    CollectStrings(vs);
  }

  /** A dump has the announced size, and its sections are where the header says. */
  lemma {:induction false} DumpLayout(t: Table)
    requires WellFormed(t) && Current(t)
    ensures Rows(t.types, t.messages) && |Dumped(t)| == GetSize(t)
    ensures |Sections(t)| == GetSize(t) - HEADER_SIZE && PoolSize(t) < NIL
    ensures |Records(t)| == TotalSize(t.types) * |t.messages| && |Emitted(Flat(t.messages))| == PoolSize(t)
    ensures TypesStart(t) == RecordsStart(t) + Align(t.isGstl, |Records(t)|)
    ensures PoolStart(t) == TypesStart(t) + Align(t.isGstl, 4 * |Described(t.types)|)
    ensures GetSize(t) == PoolStart(t) + Align(t.isGstl, PoolSize(t)) + (if t.isGstl then 0 else HEADER_SIZE)
    ensures |HeadBytes(t.little, t.isGstl, HeadOfTable(t))| == HEADER_SIZE
  {
    hide CanonicalTypes, Described, TotalSize, Collect, Flat, Emitted;
    RecordsLength(t.little, t.types, t.messages);
    SizesAdd(t);
    PoolWritten(t);
    HeadLength(t);
  }

  lemma {:induction false} SizesAdd(t: Table)
    ensures var n, d, p := TotalSize(t.types) * |t.messages|, 4 * |Described(t.types)|, PoolSize(t);
            && TypesStart(t) == RecordsStart(t) + Align(t.isGstl, n)
            && PoolStart(t) == TypesStart(t) + Align(t.isGstl, d)
            && GetSize(t) == PoolStart(t) + Align(t.isGstl, p) + (if t.isGstl then 0 else HEADER_SIZE)
            && p < GetSize(t)
  {
    hide Described, TotalSize, PoolSize;
    var n, d, p := TotalSize(t.types) * |t.messages|, 4 * |Described(t.types)|, PoolSize(t);
    if !t.isGstl {
      AlignFrom(Align(false, n), d);
      AlignFrom(Align(false, n) + Align(false, d), p);
    }
  }

  lemma {:induction false} HeadLength(t: Table)
    ensures |HeadBytes(t.little, t.isGstl, HeadOfTable(t))| == HEADER_SIZE
  {
    hide HeadOfTable, Sum, EncWords;
    WidthsSum();
    WordsLength(t.little, WIDTHS, HeadWords(HeadOfTable(t)));
  }

  // ---- placed strings

  lemma {:induction false} FlatSettled(messages: seq<seq<Value>>, placed: seq<seq<Value>>, p: Pool)
    requires |placed| == |messages| && forall j {:trigger placed[j]} :: 0 <= j < |placed| ==> placed[j] == SettleAll(messages[j], p)
    ensures Flat(placed) == SettleAll(Flat(messages), p)
  {
    hide Settle;
    if messages != [] {
      var n := |messages| - 1;
      FlatSettled(messages[..n], placed[..n], p);
      assert SettleAll(Flat(messages), p) == SettleAll(Flat(messages[..n]), p) + SettleAll(messages[n], p);
    } else {
      assert SettleAll([], p) == [];
    }
  }

  /** Placing strings does not change the pool, and leaves every string where the pool has it. */
  lemma {:induction false} SamePool(t: Table)
    requires PoolSize(t) < NIL
    ensures PoolSize(Recalculated(t)) == PoolSize(t) && Current(Recalculated(t)) && Recalculated(Recalculated(t)) == Recalculated(t)
  {
    hide Collect, Settle;
    var p, r := Collect(Flat(t.messages)), Recalculated(t);
    FlatSettled(t.messages, r.messages, p);
    SettledAfter(Flat(t.messages));
    forall j | 0 <= j < |r.messages|
      ensures Recalculated(r).messages[j] == r.messages[j]
    {
      Again(t, j);
    }
    assert Recalculated(r).messages == r.messages;
  }

  lemma {:induction false} Again(t: Table, j: nat)
    requires PoolSize(t) < NIL && j < |t.messages|
    ensures SettleAll(SettleAll(t.messages[j], Collect(Flat(t.messages))), Collect(Flat(t.messages))) == SettleAll(t.messages[j], Collect(Flat(t.messages)))
  {
  }
}
