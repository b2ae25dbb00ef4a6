/** Reading back what was written: a GBNL table survives a dump and a parse. */
module GbnlReparse {
  import opened Bytes
  import opened Pools
  import opened Descriptors
  import opened Words
  import opened GbnlCodec
  import opened GbnlFiles

  /** The place of each of three parts in a file. */
  lemma {:induction false} ThreeParts(pre: seq<byte>, a: seq<byte>, b: seq<byte>, c: seq<byte>, post: seq<byte>, na: nat, nb: nat, nc: nat)
    requires na <= |a| && nb <= |b| && nc <= |c|
    ensures var f := pre + (a + b + c) + post;
            && f[|pre|..|pre| + na] == a[..na]
            && f[|pre| + |a|..|pre| + |a| + nb] == b[..nb]
            && f[|pre| + |a| + |b|..|pre| + |a| + |b| + nc] == c[..nc]
  {
    var f := pre + (a + b + c) + post;
    assert f == pre + a + (b + c + post);
    MiddleSlice(pre, a, b + c + post, 0, na);
    assert f == (pre + a) + b + (c + post);
    MiddleSlice(pre + a, b, c + post, 0, nb);
    assert f == (pre + a + b) + c + post;
    MiddleSlice(pre + a + b, c, post, 0, nc);
  }

  function HeadAt(t: Table): nat
    requires WellFormed(t) && Current(t)
  {
    if t.isGstl then 0 else GetSize(t) - HEADER_SIZE
  }

  /** A dump as header or nothing, three padded sections, and nothing or footer. */
  lemma {:induction false} DumpParts(t: Table) returns (pre: seq<byte>, a: seq<byte>, b: seq<byte>, c: seq<byte>, post: seq<byte>)
    requires Rows(t.types, t.messages)
    ensures Dumped(t) == pre + (a + b + c) + post
    ensures |a| == Align(t.isGstl, |Records(t)|) && a[..|Records(t)|] == Records(t)
    ensures var d := DescriptorsBytes(t.little, Described(t.types)); |b| == Align(t.isGstl, |d|) && b[..|d|] == d
    ensures var e := Emitted(Flat(t.messages)); |c| == Align(t.isGstl, |e|) && c[..|e|] == e
    ensures var head := HeadBytes(t.little, t.isGstl, HeadOfTable(t)); pre == (if t.isGstl then head else []) && post == (if t.isGstl then [] else head)
  {
    hide Records, DescriptorsBytes, Emitted, Described, HeadBytes, HeadOfTable, Flat, Align, PadTo;
    var head := HeadBytes(t.little, t.isGstl, HeadOfTable(t));
    a, b, c := PadTo(t.isGstl, Records(t)), PadTo(t.isGstl, DescriptorsBytes(t.little, Described(t.types))), PadTo(t.isGstl, Emitted(Flat(t.messages)));
    pre, post := if t.isGstl then head else [], if t.isGstl then [] else head;
    assert [] + (a + b + c) + head == (a + b + c) + head && head + (a + b + c) + [] == head + (a + b + c);
  }

  /** The sections of a dump are where the header says. */
  lemma {:induction false} SectionsAt(t: Table)
    requires WellFormed(t) && Current(t)
    ensures Rows(t.types, t.messages) && |Dumped(t)| == GetSize(t)
    ensures RecordsStart(t) + |Records(t)| <= GetSize(t) && TypesStart(t) + 4 * |Described(t.types)| <= GetSize(t) && PoolStart(t) + PoolSize(t) <= GetSize(t)
    ensures Dumped(t)[RecordsStart(t)..RecordsStart(t) + |Records(t)|] == Records(t)
    ensures Dumped(t)[TypesStart(t)..TypesStart(t) + 4 * |Described(t.types)|] == DescriptorsBytes(t.little, Described(t.types))
    ensures Dumped(t)[PoolStart(t)..PoolStart(t) + PoolSize(t)] == PoolBytes(Strings(Flat(t.messages)))
    ensures Dumped(t)[HeadAt(t)..HeadAt(t) + HEADER_SIZE] == HeadBytes(t.little, t.isGstl, HeadOfTable(t))
  {
    hide WellFormed, Current, Records, DescriptorsBytes, Emitted, Described, GetSize, HeadBytes, HeadOfTable, PoolStart, TypesStart, PoolSize, Flat, TotalSize, Align, Dumped, Sections, PadTo, PoolBytes, Strings, Rows;
    DumpLayout(t);
    PoolWritten(t);
    var pre, a, b, c, post := DumpParts(t);
    ThreeParts(pre, a, b, c, post, |Records(t)|, 4 * |Described(t.types)|, PoolSize(t));
    HeadPart(pre, a + b + c, post);
  }

  lemma {:induction false} HeadPart(pre: seq<byte>, mid: seq<byte>, post: seq<byte>)
    ensures (pre + mid + post)[..|pre|] == pre && (pre + mid + post)[|pre| + |mid|..] == post
  {
  }

  // ---- header

  lemma {:induction false} CodesFit(types: seq<FieldType>)
    ensures forall i {:trigger Described(types)[i]} :: 0 <= i < |Described(types)| ==> Described(types)[i].code < 0x1_0000
  {
    if types != [] {
      CodesFit(types[..|types| - 1]);
    }
  }

  /** A canonical record is not much longer than its last descriptor says. */
  lemma {:induction false} RecordSizeFits(types: seq<FieldType>)
    requires CanonicalTypes(types)
    requires forall i {:trigger Described(types)[i]} :: 0 <= i < |Described(types)| ==> Described(types)[i].offset < 0x1_0000
    ensures TotalSize(types) < 0x3_0000
  {
    CanonicalRebuilt(types);
    BuiltDescribes(Described(types), TotalSize(types));
    hide Built, Ordered, Described, TotalSize, CanonicalTypes;
  }

  lemma {:induction false} HeadOfTableFits(t: Table)
    requires WellFormed(t) && Current(t)
    ensures HeadFits(HeadOfTable(t))
  {
    hide Described, TotalSize, Collect, Flat, CanonicalTypes, GoodRows;
    SizesAdd(t);
    var n, m := TotalSize(t.types), |t.messages|;
    RecordSizeFits(t.types);
    var h := HeadOfTable(t);
    forall i | 2 <= i < 16
      ensures HeadWords(h)[i] < 0x1_0000_0000
    {
    }
  }

  lemma {:induction false} HeadOfTableValid(t: Table)
    requires WellFormed(t) && Current(t)
    ensures HeadValid(HeadOfTable(t), t.isGstl, GetSize(t)) <==> (t.isGstl ==> PoolSize(t) > 0)
  {
    hide Described, TotalSize, PoolSize, GetSize, TypesStart, PoolStart, Align, HeadValid, Current, WellFormed;
    SizesAdd(t);
    SizeFits(t);
    var n, d, p := TotalSize(t.types) * |t.messages|, 4 * |Described(t.types)|, PoolSize(t);
    var h := HeadOfTable(t);
    assert h.msgDescrSize * h.countMsgs == n;
    HeadNumbers(h, t.isGstl, n, d, p, GetSize(t));
  }

  lemma {:induction false} SizeFits(t: Table)
    requires WellFormed(t)
    ensures GetSize(t) < NIL
  {
  }

  lemma HeadNumbers(h: Head, isGstl: bool, n: nat, d: nat, p: nat, size: nat)
    requires h.field04 == 1 && h.field06 == 0 && h.field08 == 16 && h.field0c == 4 && h.field34 == 0 && h.field38 == 0 && h.field3c == 0
    requires h.msgDescrSize * h.countMsgs == n && 4 * h.countTypes == d && h.descrOffset == (if isGstl then HEADER_SIZE else 0)
    requires h.offsetTypes == h.descrOffset + Align(isGstl, n) && (h.offsetMsgs == 0 || h.offsetMsgs == h.offsetTypes + Align(isGstl, d))
    requires size == h.offsetTypes + Align(isGstl, d) + Align(isGstl, p) + (if isGstl then 0 else HEADER_SIZE) && size < NIL
    ensures HeadValid(h, isGstl, size) <==> (isGstl ==> p > 0)
  {
    BelowWrap(h.descrOffset + n);
  }

  lemma BelowWrap(x: nat)
    ensures x < NIL ==> x % 0x1_0000_0000 == x
  {
  }

  /** A file has this header where it is looked for. */
  predicate HeadThere(file: seq<byte>, little: bool, isGstl: bool, h: Head) {
    |file| >= HEADER_SIZE &&
    (WidthsSum();
     var at := HeadStart(file);
     && (file[..3] == Gst() <==> isGstl) && file[at..at + 3] == (if isGstl then Gst() else Gbn()) && file[at + 3] == (if little then 76 else 66)
     && HeadOf(DecWords(little, WIDTHS, file[at + 4..at + HEADER_SIZE])) == h)
  }

  lemma HeadHeld(file: seq<byte>, at: nat, little: bool, isGstl: bool, h: Head)
    requires HeadFits(h) && at + HEADER_SIZE <= |file| && file[at..at + HEADER_SIZE] == HeadBytes(little, isGstl, h)
    requires (file[..3] == Gst() <==> isGstl) && HeadStart(file) == at
    ensures HeadThere(file, little, isGstl, h)
  {
    hide HeadBytes, HeadOf, DecWords, Sum, HeadFits, HeadStart;
    HeadBack(little, isGstl, h);
    HeadParts(file, at, HeadBytes(little, isGstl, h));
  }

  lemma HeadLetters(file: seq<byte>, at: nat, little: bool, isGstl: bool, h: Head)
    requires HeadFits(h) && at + HEADER_SIZE <= |file| && file[at..at + HEADER_SIZE] == HeadBytes(little, isGstl, h)
    ensures isGstl && at == 0 ==> file[..3] == Gst()
  {
    hide HeadBytes, HeadOf, DecWords, Sum, HeadFits;
    HeadBack(little, isGstl, h);
    HeadParts(file, at, HeadBytes(little, isGstl, h));
  }

  /** The header is found where it was put, unless the first record makes a GBIN look like a GSTR. */
  lemma {:induction false} HeadFound(t: Table)
    requires WellFormed(t) && Current(t) && (t.isGstl || Dumped(t)[..3] != Gst())
    ensures HeadThere(Dumped(t), t.little, t.isGstl, HeadOfTable(t))
  {
    hide WellFormed, Current, HeadBytes, HeadOfTable, Dumped, PoolStart, TypesStart, PoolSize, GetSize, HeadFits, HeadThere;
    SectionsAt(t);
    HeadOfTableFits(t);
    DumpLayout(t);
    HeadLetters(Dumped(t), HeadAt(t), t.little, t.isGstl, HeadOfTable(t));
    HeadHeld(Dumped(t), HeadAt(t), t.little, t.isGstl, HeadOfTable(t));
  }

  lemma HeadParts(file: seq<byte>, at: nat, head: seq<byte>)
    requires at + HEADER_SIZE <= |file| && |head| == HEADER_SIZE && file[at..at + HEADER_SIZE] == head
    ensures file[at..at + 3] == head[..3] && file[at + 3] == head[3] && file[at + 4..at + HEADER_SIZE] == head[4..]
  {
  }

  // ---- record type

  lemma {:induction false} DescriptorBack(file: seq<byte>, little: bool, at: nat, d: Descriptor)
    requires at + 4 <= |file| && file[at..at + 4] == DescriptorBytes(little, d) && d.code < 0x1_0000 && d.offset < 0x1_0000
    ensures DescriptorAt(file, little, at) == d
  {
    hide Enc, Dec;
    Ranges();
    DecEnc(little, 2, d.code);
    DecEnc(little, 2, d.offset);
    var b := file[at..at + 4];
    assert file[at..at + 2] == b[..2] == Enc(little, 2, d.code);
    assert file[at + 2..at + 4] == b[2..] == Enc(little, 2, d.offset);
  }

  lemma FirstDescriptors(little: bool, ds: seq<Descriptor>, k: nat)
    requires k < |ds|
    ensures DescriptorsBytes(little, ds[..k + 1]) == DescriptorsBytes(little, ds[..k]) + DescriptorBytes(little, ds[k])
    ensures ds[..k + 1] == ds[..k] + [ds[k]]
  {
    hide DescriptorBytes;
    assert ds[..k + 1][..k] == ds[..k] && ds[..k + 1][k] == ds[k];
  }

  /** The bytes of the first descriptors are in the bytes of all. */
  lemma {:induction false} DescriptorsAhead(little: bool, ds: seq<Descriptor>, k: nat)
    requires k <= |ds|
    ensures 4 * k <= |DescriptorsBytes(little, ds)| && DescriptorsBytes(little, ds)[..4 * k] == DescriptorsBytes(little, ds[..k])
    decreases |ds| - k
  {
    hide DescriptorsBytes;
    if k == |ds| {
      assert ds[..k] == ds;
    } else {
      DescriptorsAhead(little, ds, k + 1);
      FirstDescriptors(little, ds, k);
      var b := DescriptorsBytes(little, ds);
      assert b[..4 * k] == b[..4 * (k + 1)][..4 * k];
    }
  }

  lemma DescriptorHere(file: seq<byte>, little: bool, at: nat, ds: seq<Descriptor>, k: nat)
    requires at + 4 * |ds| <= |file| && file[at..at + 4 * |ds|] == DescriptorsBytes(little, ds) && k < |ds|
    ensures file[at + 4 * k..at + 4 * k + 4] == DescriptorBytes(little, ds[k])
  {
    hide DescriptorsBytes, DescriptorBytes;
    DescriptorsAhead(little, ds, k + 1);
    FirstDescriptors(little, ds, k);
    SliceOfSlice(file, at, at + 4 * |ds|, 4 * k, 4 * k + 4);
    var b := DescriptorsBytes(little, ds);
    assert b[4 * k..4 * k + 4] == b[..4 * (k + 1)][4 * k..];
  }

  lemma DescriptorsMore(file: seq<byte>, little: bool, at: nat, k: nat)
    requires at + 4 * (k + 1) <= |file|
    ensures DescriptorsAt(file, little, at, k + 1) == DescriptorsAt(file, little, at, k) + [DescriptorAt(file, little, at + 4 * k)]
  {
    hide DescriptorAt;
  }

  lemma DescriptorsNone(file: seq<byte>, little: bool, at: nat)
    requires at <= |file|
    ensures DescriptorsAt(file, little, at, 0) == []
  {
  }

  lemma {:induction false} DescriptorsRead(file: seq<byte>, little: bool, at: nat, ds: seq<Descriptor>, k: nat)
    requires at + 4 * |ds| <= |file| && file[at..at + 4 * |ds|] == DescriptorsBytes(little, ds) && k <= |ds|
    requires forall i {:trigger ds[i]} :: 0 <= i < |ds| ==> ds[i].code < 0x1_0000 && ds[i].offset < 0x1_0000
    ensures DescriptorsAt(file, little, at, k) == ds[..k]
  {
    hide DescriptorsAt, DescriptorsBytes, DescriptorAt, DescriptorBytes;
    if k == 0 {
      DescriptorsNone(file, little, at);
    } else {
      DescriptorsRead(file, little, at, ds, k - 1);
      DescriptorsMore(file, little, at, k - 1);
      DescriptorHere(file, little, at, ds, k - 1);
      DescriptorBack(file, little, at + 4 * (k - 1), ds[k - 1]);
      FirstDescriptors(little, ds, k - 1);
    }
  }

  lemma DescriptorsBack(file: seq<byte>, little: bool, at: nat, ds: seq<Descriptor>)
    requires at + 4 * |ds| <= |file| && file[at..at + 4 * |ds|] == DescriptorsBytes(little, ds)
    requires forall i {:trigger ds[i]} :: 0 <= i < |ds| ==> ds[i].code < 0x1_0000 && ds[i].offset < 0x1_0000
    ensures DescriptorsAt(file, little, at, |ds|) == ds
  {
    hide DescriptorsAt, DescriptorsBytes;
    DescriptorsRead(file, little, at, ds, |ds|);
    assert ds[..|ds|] == ds;
  }

  // ---- messages

  lemma {:induction false} PoolAt(t: Table)
    requires WellFormed(t) && Current(t)
    ensures Rows(t.types, t.messages) && PoolSize(t) == |PoolBytes(Strings(Flat(t.messages)))| == Collect(Flat(t.messages)).size
    ensures PoolStart(t) + PoolSize(t) <= |Dumped(t)|
    ensures Dumped(t)[PoolStart(t)..PoolStart(t) + PoolSize(t)] == PoolBytes(Strings(Flat(t.messages)))
  {
    hide WellFormed, Current, Dumped, PoolStart, GetSize, Collect, Strings, Flat, PoolBytes, TypesStart, Records, HeadAt, HeadBytes, DescriptorsBytes, Described;
    SectionsAt(t);
  }

  /** Every live string is found at its offset in the pool of the file. */
  lemma {:induction false} StringFound(t: Table, n: nat, pool: nat)
    requires WellFormed(t) && Current(t) && n < |Flat(t.messages)| && NulFree([Flat(t.messages)[n]])
    requires pool == if PoolSize(t) > 0 then PoolStart(t) else 0
    ensures Rows(t.types, t.messages) && Findable(Dumped(t), pool, Flat(t.messages)[n])
  {
    hide WellFormed, Dumped, PoolStart, GetSize, Collect, Strings, CStringIn, Flat, PoolBytes, PoolSize;
    PoolAt(t);
    var vs, file := Flat(t.messages), Dumped(t);
    if Live(vs[n]) {
      assert Live([vs[n]][0]);
      FoundInPool(vs, n);
      FoundInFile(file, pool, PoolBytes(Strings(vs)), vs[n].offset);
    }
  }

  lemma {:induction false} FoundInFile(file: seq<byte>, pool: nat, strs: seq<byte>, o: nat)
    requires pool + |strs| <= |file| && file[pool..pool + |strs|] == strs
    requires o < |strs| && CStringIn(strs[o..]).Some?
    ensures CStringIn(file[pool + o..]) == CStringIn(strs[o..])
  {
    hide CStringIn;
    var rest := file[pool + |strs|..];
    assert file[pool + o..] == strs[o..] + rest;
    CStringAhead(strs[o..], rest);
  }

  lemma {:induction false} RowFindable(t: Table, j: nat, pool: nat)
    requires WellFormed(t) && Current(t) && j < |t.messages|
    requires pool == if PoolSize(t) > 0 then PoolStart(t) else 0
    ensures Rows(t.types, t.messages) && AllFindable(Dumped(t), pool, t.messages[j])
  {
    hide Dumped, PoolStart, PoolSize, GetSize, CanonicalTypes, Findable, Described, Current, AllMatch, AllZeroFilled;
    DumpLayout(t);
    assert GoodRow(t.types, t.messages[j]);
    forall i | 0 <= i < |t.messages[j]|
      ensures Findable(Dumped(t), pool, t.messages[j][i])
    {
      var n := FlatAt(t.messages, j, i);
      StringFound(t, n, pool);
    }
  }

  /** The messages as they are read back. */
  function UnplacedRows(messages: seq<seq<Value>>): (r: seq<seq<Value>>)
    ensures |r| == |messages| && forall j {:trigger r[j]} :: 0 <= j < |r| ==> r[j] == UnplacedAll(messages[j])
  {
    seq(|messages|, j requires 0 <= j < |messages| => UnplacedAll(messages[j]))
  }

  lemma {:induction false} MessagesBack(file: seq<byte>, little: bool, types: seq<FieldType>, messages: seq<seq<Value>>, at: nat, pool: nat)
    requires GoodRows(types, messages) && Rows(types, messages)
    requires at + |RecordsOf(little, types, messages)| <= |file| && file[at..at + |RecordsOf(little, types, messages)|] == RecordsOf(little, types, messages)
    requires forall j {:trigger messages[j]} :: 0 <= j < |messages| ==> AllFindable(file, pool, messages[j])
    ensures MessagesAt(file, little, types, at, TotalSize(types), |messages|, pool) == Some(UnplacedRows(messages))
  {
    hide GoodRow, AllFindable, UnplacedAll, TotalSize, RecordAt, RecordBytes;
    if messages == [] {
      assert UnplacedRows(messages) == [];
    } else {
      var n, size := |messages| - 1, TotalSize(types);
      var init, last := messages[..n], messages[n];
      assert forall j :: 0 <= j < n ==> init[j] == messages[j];
      RecordsLength(little, types, messages);
      RecordsLength(little, types, init);
      RowBack(file, little, types, messages, at, pool);
      MessagesBack(file, little, types, init, at, pool);
      assert UnplacedRows(messages) == UnplacedRows(init) + [UnplacedAll(last)];
    }
  }

  lemma {:induction false} RowBack(file: seq<byte>, little: bool, types: seq<FieldType>, messages: seq<seq<Value>>, at: nat, pool: nat)
    requires messages != [] && GoodRows(types, messages) && Rows(types, messages)
    requires at + |RecordsOf(little, types, messages)| <= |file| && file[at..at + |RecordsOf(little, types, messages)|] == RecordsOf(little, types, messages)
    requires forall j {:trigger messages[j]} :: 0 <= j < |messages| ==> AllFindable(file, pool, messages[j])
    ensures var n := |messages| - 1; var init := messages[..n];
            && at + n * TotalSize(types) == at + |RecordsOf(little, types, init)| <= |file|
            && file[at..at + |RecordsOf(little, types, init)|] == RecordsOf(little, types, init)
            && RecordAt(file, little, types, at + n * TotalSize(types), pool) == Some(UnplacedAll(messages[n]))
  {
    hide AllFindable, UnplacedAll, TotalSize, RecordAt, AllMatch, AllZeroFilled, RecordBytes;
    var n := |messages| - 1;
    var init, last := messages[..n], messages[n];
    assert forall j :: 0 <= j < n ==> init[j] == messages[j];
    RecordsLength(little, types, init);
    assert GoodRow(types, last);
    LastRow(file, little, types, RecordsOf(little, types, init), last, at, pool);
  }

  lemma {:induction false} LastRow(file: seq<byte>, little: bool, types: seq<FieldType>, part: seq<byte>, last: seq<Value>, at: nat, pool: nat)
    requires AllMatch(types, last) && AllZeroFilled(last) && AllFindable(file, pool, last)
    requires var whole := part + RecordBytes(little, types, last); at + |whole| <= |file| && file[at..at + |whole|] == whole
    ensures at + |part| <= |file| && file[at..at + |part|] == part
    ensures RecordAt(file, little, types, at + |part|, pool) == Some(UnplacedAll(last))
  {
    hide AllFindable, UnplacedAll, TotalSize, RecordAt, AllZeroFilled, RecordBytes;
    RecordLength(little, types, last);
    SplitSlice(file, at, part, RecordBytes(little, types, last));
    RecordBack(file, little, types, last, at + |part|, pool);
  }

  // ---- strings

  lemma {:induction false} FlatUnplaced(messages: seq<seq<Value>>)
    ensures Flat(UnplacedRows(messages)) == UnplacedAll(Flat(messages))
  {
    if messages == [] {
      assert UnplacedRows(messages) == [] && UnplacedAll([]) == [];
    } else {
      var n := |messages| - 1;
      FlatUnplaced(messages[..n]);
      assert UnplacedRows(messages)[..n] == UnplacedRows(messages[..n]);
      assert UnplacedAll(Flat(messages)) == UnplacedAll(Flat(messages[..n])) + UnplacedAll(messages[n]);
    }
  }

  /** Running the first pass again puts every string back where it was. */
  lemma {:induction false} Replaced(t: Table)
    requires Current(t)
    ensures Recalculated(t.(messages := UnplacedRows(t.messages))) == t
    ensures GetSize(t.(messages := UnplacedRows(t.messages))) == GetSize(t)
  {
    hide Unplaced, Collect, SizeFrom;
    var u := t.(messages := UnplacedRows(t.messages));
    var vs := Flat(t.messages);
    FlatUnplaced(t.messages);
    UnplacedCollects(vs);
    var p := Collect(vs);
    forall j | 0 <= j < |t.messages|
      ensures SettleAll(u.messages[j], p) == t.messages[j]
    {
      forall i | 0 <= i < |t.messages[j]|
        ensures Settle(u.messages[j][i], p) == t.messages[j][i]
      {
        var n := FlatAt(t.messages, j, i);
        SettleUnplaced(vs[n], p);
      }
    }
    assert Recalculated(u).messages == t.messages;
  }

  lemma {:induction false} SettleUnplaced(v: Value, p: Pool)
    requires Settled(v, p)
    ensures Settle(Unplaced(v), p) == v
  {
  }

  lemma {:induction false} UnplacedCollects(vs: seq<Value>)
    ensures Collect(UnplacedAll(vs)) == Collect(vs)
  {
    CollectSame(UnplacedAll(vs), vs);
  }

  // ---- the whole file

  lemma {:induction false} TypesBack(t: Table)
    requires WellFormed(t) && Current(t)
    ensures Rows(t.types, t.messages) && TypesStart(t) + 4 * |Described(t.types)| <= |Dumped(t)|
    ensures DescriptorsAt(Dumped(t), t.little, TypesStart(t), |Described(t.types)|) == Described(t.types)
    ensures Ordered(Described(t.types)) && Built(Described(t.types), TotalSize(t.types)) == t.types
  {
    hide Dumped, Described, GetSize, PoolStart, TypesStart, Current, CanonicalTypes, Built, Ordered, GoodRows, HeadOfTable, HeadBytes, DescriptorsAt, DescriptorsBytes;
    SectionsAt(t);
    CanonicalRebuilt(t.types);
    CodesFit(t.types);
    DescriptorsBack(Dumped(t), t.little, TypesStart(t), Described(t.types));
  }

  lemma {:induction false} RowsBack(t: Table)
    requires WellFormed(t) && Current(t)
    ensures var pool := if PoolSize(t) > 0 then PoolStart(t) else 0;
            Rows(t.types, t.messages) &&
            MessagesAt(Dumped(t), t.little, t.types, RecordsStart(t), TotalSize(t.types), |t.messages|, pool) == Some(UnplacedRows(t.messages))
  {
    hide Dumped, Described, GetSize, PoolStart, TypesStart, PoolSize, Current, CanonicalTypes, HeadOfTable, HeadBytes, DescriptorsBytes, AllFindable, GoodRow, MessagesAt, RecordsOf;
    var pool := if PoolSize(t) > 0 then PoolStart(t) else 0;
    SectionsAt(t);
    forall j | 0 <= j < |t.messages|
      ensures AllFindable(Dumped(t), pool, t.messages[j])
    {
      RowFindable(t, j, pool);
    }
    MessagesBack(Dumped(t), t.little, t.types, t.messages, RecordsStart(t), pool);
  }

  lemma {:induction false} BodyBack(t: Table)
    requires WellFormed(t) && Current(t) && (t.isGstl ==> PoolSize(t) > 0)
    ensures Rows(t.types, t.messages) && HeadValid(HeadOfTable(t), t.isGstl, |Dumped(t)|)
    ensures ParsedBody(Dumped(t), t.little, t.isGstl, HeadOfTable(t)) == Some(t)
  {
    hide WellFormed, Dumped, Described, GetSize, PoolStart, TypesStart, PoolSize, Current, Built, Ordered, DescriptorsAt, MessagesAt, HeadValid, Recalculated, TotalSize;
    HeadOfTableValid(t);
    TypesBack(t);
    RowsBack(t);
    SectionsAt(t);
    Replaced(t);
  }

  /** A dump that begins like a GSTR is never read back as a GBIN. */
  lemma {:induction false} Mistaken(t: Table)
    requires WellFormed(t) && Current(t) && Rows(t.types, t.messages) && !t.isGstl && Dumped(t)[..3] == Gst()
    ensures Parsed(Dumped(t)) != Some(t)
  {
    hide WellFormed, Dumped, Described, Current, Built, Ordered, DescriptorsAt, MessagesAt, GetSize, HeadOf, DecWords;
  }

  lemma {:induction false} ParsedIs(t: Table)
    requires WellFormed(t) && Current(t) && Rows(t.types, t.messages) && (t.isGstl || Dumped(t)[..3] != Gst())
    ensures Parsed(Dumped(t)) ==
              if HeadValid(HeadOfTable(t), t.isGstl, |Dumped(t)|) then ParsedBody(Dumped(t), t.little, t.isGstl, HeadOfTable(t)) else None
  {
    hide WellFormed, Dumped, Current, ParsedBody, HeadValid, HeadOfTable, HeadThere, Parsed;
    HeadFound(t);
    ParsedThere(Dumped(t), t.little, t.isGstl, HeadOfTable(t));
  }

  lemma ParsedThere(file: seq<byte>, little: bool, isGstl: bool, h: Head)
    requires HeadThere(file, little, isGstl, h)
    ensures Parsed(file) == if HeadValid(h, isGstl, |file|) then ParsedBody(file, little, isGstl, h) else None
  {
    hide HeadOf, DecWords, ParsedBody, HeadValid;
  }

  /** Parsing a dump gives the table back: same fields, strings, missing strings and flags. It does so
      for every well-formed table with its strings in place if and only if a GSTR table has a string,
      and the records of a GBIN table do not begin with the letters GST. */
  lemma {:induction false} Reparsed(t: Table)
    requires WellFormed(t) && Current(t)
    ensures Rows(t.types, t.messages) && |Dumped(t)| >= HEADER_SIZE
    ensures Parsed(Dumped(t)) == Some(t) <==> if t.isGstl then PoolSize(t) > 0 else Dumped(t)[..3] != Gst()
  {
    hide WellFormed, Dumped, Described, Current, PoolSize, Parsed, ParsedBody, HeadValid, HeadOfTable, GetSize;
    DumpLayout(t);
    if !t.isGstl && Dumped(t)[..3] == Gst() {
      Mistaken(t);
    } else {
      ParsedIs(t);
      HeadOfTableValid(t);
      if t.isGstl ==> PoolSize(t) > 0 {
        BodyBack(t);
      }
    }
  }

  /** A GBIN of one number whose bytes spell GST: it is well-formed and its dump is not read back. */
  lemma {:induction false} NumberSpellsGst() returns (t: Table)
    ensures WellFormed(t) && Current(t) && !t.isGstl && Rows(t.types, t.messages) && Parsed(Dumped(t)) != Some(t)
  {
    hide WellFormed, Described, Current, PoolSize, Parsed, Records, Rows, TotalSize, Emitted, Flat, HeadBytes, HeadOfTable, Align, GetSize, Collect;
    var v := 71 + 256 * (83 + 256 * 84);
    t := Table(true, false, 0, 0, 0, [FieldType(Int32, 4)], [[Num(v)]]);
    OneField(t, v);
    OneRecord(t, v);
    DumpLayout(t);
    assert Dumped(t)[..3] == Records(t)[..3];
    Reparsed(t);
  }

  lemma {:induction false} OneField(t: Table, v: nat)
    requires t == Table(true, false, 0, 0, 0, [FieldType(Int32, 4)], [[Num(v)]]) && v < 0x100_0000
    ensures WellFormed(t) && Current(t)
  {
    Ranges();
    assert t.types[..0] == [] && t.messages[..0] == [] && Flat([]) == [];
    assert TotalSize(t.types) == 4 && Described(t.types) == [Descriptor(0, 0)];
    var vs := Flat(t.messages);
    assert vs == [Num(v)];
    assert vs[..0] == [] && Collect(vs).size == 0;
    assert t.messages[0] == [Num(v)];
  }

  lemma {:induction false} OneRecord(t: Table, v: nat)
    requires t == Table(true, false, 0, 0, 0, [FieldType(Int32, 4)], [[Num(v)]]) && v == 71 + 256 * (83 + 256 * 84)
    ensures Rows(t.types, t.messages) && |Records(t)| == 4 && Records(t)[..3] == Gst()
  {
    hide Le;
    Le4(71, 83, 84, 0);
    assert t.types[..0] == [] && t.messages[..0] == [] && t.messages[0][..0] == [];
    assert RecordBytes(true, [], []) == [] && RecordsOf(true, t.types, []) == [];
    assert RecordBytes(true, t.types, [Num(v)]) == Enc(true, 4, v);
  }
}
