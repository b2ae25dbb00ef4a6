/** What the bytes of a GBNL file say its table is, written out. */
module GbnlFormat {
  import opened Bytes
  import opened Numbers
  import opened Words
  import opened Pools
  import opened Descriptors
  import opened GbnlCodec
  import opened GbnlFiles
  import GR = GbnlReparse

  /** Where the next descriptor is, or the record ends. */
  function NextAt(ds: seq<Descriptor>, k: nat, size: nat): nat {
    if k < |ds| then ds[k].offset else size
  }

  /** From field `i` on, at `off` of a record of `size` bytes, the fields are those of the descriptors from `k` on: numbers of
      one, two, four and eight bytes under the codes 1, 2, 0, 3 and 6, four bytes for a string under the code 5; a byte
      with more than three bytes behind it is a fixed string up to the next field, and other gaps are padding. */
  ghost predicate Laid(types: seq<FieldType>, i: nat, ds: seq<Descriptor>, k: nat, off: nat, size: nat)
    requires i <= |types|
    decreases |types| - i
  {
    if i == |types| then k == |ds| && off == size
    else
      var t := types[i];
      if t.kind == Padding then 0 < t.size < 0x1_0000 && off + t.size == NextAt(ds, k, size) && Laid(types, i + 1, ds, k, off + t.size, size)
      else
        && k < |ds| && ds[k].offset == off
        && (match ds[k].code
            case 0 => t == FieldType(Int32, 4)
            case 1 =>
              if NextAt(ds, k + 1, size) > off + 4 then t == FieldType(FixString, NextAt(ds, k + 1, size) - off) && t.size <= 0x1_0000 else t == FieldType(Int8, 1)
            case 2 => t == FieldType(Int16, 2)
            case 3 => t == FieldType(Float, 4)
            case 5 => t == FieldType(String, 4)
            case 6 => t == FieldType(Int64, 8)
            case _ => false)
        && Laid(types, i + 1, ds, k + 1, off + t.size, size)
  }

  lemma OpenGap(types: seq<FieldType>, i: nat, ds: seq<Descriptor>, k: nat, end: nat, size: nat)
    requires i < |types| && end < NextAt(ds, k, size) < end + 0x1_0000 && types[i] == FieldType(Padding, NextAt(ds, k, size) - end)
    requires Laid(types, i + 1, ds, k, NextAt(ds, k, size), size)
    ensures Laid(types, i, ds, k, end, size)
  {
  }

  lemma OpenByte(types: seq<FieldType>, i: nat, ds: seq<Descriptor>, k: nat, end: nat, size: nat)
    requires i < |types| && 0 < k <= |ds| && 0 < end <= NextAt(ds, k, size) <= end + 3 && ds[k - 1] == Descriptor(1, end - 1)
    requires types[i] == FieldType(Int8, 1) && Laid(types, i + 1, ds, k, end, size)
    ensures Laid(types, i, ds, k - 1, end - 1, size)
  {
  }

  lemma OpenFixed(types: seq<FieldType>, i: nat, ds: seq<Descriptor>, k: nat, end: nat, size: nat)
    requires i < |types| && 0 < k <= |ds| && 0 < end && end + 3 < NextAt(ds, k, size) < end + 0x1_0000 && ds[k - 1] == Descriptor(1, end - 1)
    requires types[i] == FieldType(FixString, NextAt(ds, k, size) - end + 1) && Laid(types, i + 1, ds, k, NextAt(ds, k, size), size)
    ensures Laid(types, i, ds, k - 1, end - 1, size)
  {
  }

  /** A gap, with the byte in front of it that may be pending. */
  lemma GapLaid(types: seq<FieldType>, i: nat, ds: seq<Descriptor>, k: nat, end: nat, int8: bool, size: nat)
    requires k <= |ds| && end <= NextAt(ds, k, size) < end + 0x1_0000 && (int8 ==> end > 0 && k > 0 && ds[k - 1] == Descriptor(1, end - 1))
    requires var p := Padded(NextAt(ds, k, size) - end, int8); i + |p| <= |types| && types[i..i + |p|] == p && Laid(types, i + |p|, ds, k, NextAt(ds, k, size), size)
    ensures if int8 then Laid(types, i, ds, k - 1, end - 1, size) else Laid(types, i, ds, k, end, size)
  {
    hide Laid;
    var off := NextAt(ds, k, size);
    var p := Padded(off - end, int8);
    if |p| > 0 {
      assert types[i] == types[i..i + |p|][0] == p[0];
    }
    if |p| > 1 {
      assert types[i + 1] == types[i..i + |p|][1] == p[1];
      OpenGap(types, i + 1, ds, k, end, size);
    }
    if !int8 && off > end {
      OpenGap(types, i, ds, k, end, size);
    } else if int8 && off > end + 3 {
      OpenFixed(types, i, ds, k, end, size);
    } else if int8 {
      OpenByte(types, i, ds, k, end, size);
    }
  }

  lemma FieldLaid(types: seq<FieldType>, i: nat, ds: seq<Descriptor>, k: nat, size: nat)
    requires k < |ds| && KindOf(ds[k].code).Some? && KindOf(ds[k].code).value != Int8 && i < |types|
    requires types[i] == FieldType(KindOf(ds[k].code).value, NaturalSize(KindOf(ds[k].code).value))
    requires Laid(types, i + 1, ds, k + 1, ds[k].offset + types[i].size, size)
    ensures Laid(types, i, ds, k, ds[k].offset, size)
  {
  }

  lemma StepBegun(ds: seq<Descriptor>, k: nat)
    requires k < |ds| && Ordered(ds[..k + 1])
    ensures Ordered(ds[..k]) && KindOf(ds[k].code).Some? && Reach(ds[..k]) <= ds[k].offset
    ensures var b, kind := Begun(ds[..k]), KindOf(ds[k].code).value;
            b.end <= ds[k].offset ==>
              Begun(ds[..k + 1]) == Building(b.types + Padded(ds[k].offset - b.end, b.int8) + (if kind == Int8 then [] else [FieldType(kind, NaturalSize(kind))]),
                                             ds[k].offset + NaturalSize(kind), kind == Int8)
  {
    assert ds[..k + 1][..k] == ds[..k];
  }

  lemma {:induction false} OrderedPrefix(ds: seq<Descriptor>, k: nat)
    requires Ordered(ds) && k <= |ds|
    ensures Ordered(ds[..k])
    decreases |ds|
  {
    if k < |ds| {
      OrderedPrefix(ds[..|ds| - 1], k);
      assert ds[..|ds| - 1][..k] == ds[..k];
    } else {
      assert ds[..k] == ds;
    }
  }

  /** What is left to be built once the descriptors before `k` have been taken. */
  lemma {:induction false} RestLaid(ds: seq<Descriptor>, k: nat, size: nat, types: seq<FieldType>)
    requires Ordered(ds) && k <= |ds| && Ordered(ds[..k]) && types == Built(ds, size) && Reach(ds) <= size < Reach(ds) + 0x1_0000
    requires forall j {:trigger ds[j]} :: 0 <= j < |ds| ==> ds[j].offset < 0x1_0000
    ensures var b := Begun(ds[..k]);
            && b.types <= types && (b.int8 ==> b.end > 0 && k > 0 && ds[k - 1] == Descriptor(1, b.end - 1))
            && (if b.int8 then Laid(types, |b.types|, ds, k - 1, b.end - 1, size) else Laid(types, |b.types|, ds, k, b.end, size))
    decreases |ds| - k
  {
    hide Padded, Laid, Begun, Ordered, Reach;
    var b := Begun(ds[..k]);
    BegunMeans(ds[..k]);
    PendingByte(ds, k);
    if k == |ds| {
      assert ds[..k] == ds;
      LastLaid(types, ds, size);
    } else {
      OrderedPrefix(ds, k + 1);
      RestLaid(ds, k + 1, size, types);
      NextLaid(ds, k, size, types);
    }
    GapLaid(types, |b.types|, ds, k, b.end, b.int8, size);
  }

  /** The gap in front of a descriptor, and what comes behind it. */
  lemma NextLaid(ds: seq<Descriptor>, k: nat, size: nat, types: seq<FieldType>)
    requires k < |ds| && Ordered(ds[..k + 1])
    requires var b := Begun(ds[..k + 1]);
             && b.types <= types && (b.int8 ==> b.end > 0 && ds[k] == Descriptor(1, b.end - 1))
             && (if b.int8 then Laid(types, |b.types|, ds, k, b.end - 1, size) else Laid(types, |b.types|, ds, k + 1, b.end, size))
    ensures Ordered(ds[..k])
    ensures var b := Begun(ds[..k]);
            && b.end <= ds[k].offset && b.types <= types
            && var p := Padded(ds[k].offset - b.end, b.int8);
               |b.types| + |p| <= |types| && types[|b.types|..|b.types| + |p|] == p && Laid(types, |b.types| + |p|, ds, k, ds[k].offset, size)
  {
    hide Padded, Laid, Begun, Ordered, Reach;
    StepBegun(ds, k);
    BegunMeans(ds[..k]);
    var b, after := Begun(ds[..k]), Begun(ds[..k + 1]);
    var p := Padded(ds[k].offset - b.end, b.int8);
    PiecesOf(types, b.types, p, after.types);
    if KindOf(ds[k].code).value != Int8 {
      FieldLaid(types, |b.types| + |p|, ds, k, size);
    } else {
      assert after.types == b.types + p;
    }
  }

  lemma PiecesOf(types: seq<FieldType>, a: seq<FieldType>, p: seq<FieldType>, b: seq<FieldType>)
    requires b <= types && a + p <= b
    ensures a <= types && |a| + |p| <= |types| && types[|a|..|a| + |p|] == p
    ensures forall t :: b == a + p + [t] ==> |a| + |p| < |types| && types[|a| + |p|] == t
  {
    assert types[..|a|] == b[..|a|] == (a + p)[..|a|] == a;
    assert types[|a|..|a| + |p|] == b[|a|..|a| + |p|] == (a + p)[|a|..] == p;
  }

  lemma PendingByte(ds: seq<Descriptor>, k: nat)
    requires k <= |ds| && Ordered(ds[..k])
    ensures var b := Begun(ds[..k]); b.int8 ==> b.end > 0 && k > 0 && ds[k - 1] == Descriptor(1, b.end - 1)
  {
    hide Begun, Padded, Ordered, Reach;
    if k > 0 {
      StepBegun(ds, k - 1);
      BegunMeans(ds[..k - 1]);
      ByteCode(ds[k - 1]);
    } else {
      NothingBegun();
      assert ds[..0] == [];
    }
  }

  lemma ByteCode(d: Descriptor)
    ensures KindOf(d.code) == Some(Int8) ==> d == Descriptor(1, d.offset) && NaturalSize(Int8) == 1
  {
  }

  lemma LastLaid(types: seq<FieldType>, ds: seq<Descriptor>, size: nat)
    requires Ordered(ds) && types == Built(ds, size) && Begun(ds).end <= size < Begun(ds).end + 0x1_0000
    ensures var b := Begun(ds); var p := Padded(size - b.end, b.int8);
            b.types <= types && |b.types| + |p| == |types| && types[|b.types|..|b.types| + |p|] == p && Laid(types, |types|, ds, |ds|, size, size)
  {
  }

  /** The fields the reader builds are laid out as the descriptors say. */
  lemma BuiltLaid(ds: seq<Descriptor>, size: nat)
    requires Ordered(ds) && TotalSize(Built(ds, size)) == size && forall j {:trigger ds[j]} :: 0 <= j < |ds| ==> ds[j].offset < 0x1_0000
    ensures Laid(Built(ds, size), 0, ds, 0, 0, size)
  {
    hide Laid;
    BuiltDescribes(ds, size);
    assert ds[..0] == [];
    RestLaid(ds, 0, size, Built(ds, size));
    assert Begun([]) == Building([], 0, false);
  }

  // ---- header

  lemma {:induction false} WidthsBefore(n: nat)
    requires n <= 16
    ensures Sum(WIDTHS[..n]) == if n <= 2 then 2 * n else 4 * n - 4
  {
    if n > 0 {
      WidthsBefore(n - 1);
      assert WIDTHS[..n][..n - 1] == WIDTHS[..n - 1] && WIDTHS[..n][n - 1] == WIDTHS[n - 1];
    } else {
      assert WIDTHS[..0] == [];
    }
  }

  /** Word `i` of a header of which the first four bytes are letters. */
  lemma HeadWord(little: bool, file: seq<byte>, at: nat, i: nat)
    requires at + 64 <= |file| && i < 16
    ensures Sum(WIDTHS) == 60
    ensures i < 2 ==> DecWords(little, WIDTHS, file[at + 4..at + 64])[i] == TwoIn(little, file, at + 4 + 2 * i)
    ensures i >= 2 ==> DecWords(little, WIDTHS, file[at + 4..at + 64])[i] == FourIn(little, file, at + 4 * i)
  {
    hide Dec, DecWords, Sum, TwoIn, FourIn;
    WidthsSum();
    WidthsBefore(i);
    var b := file[at + 4..at + 64];
    WordAt(little, WIDTHS, b, i);
    var p := Sum(WIDTHS[..i]);
    if i < 2 {
      SliceOfSlice(file, at + 4, at + 64, p, p + 2);
      WordsIn(little, file, at + 4 + 2 * i);
    } else {
      SliceOfSlice(file, at + 4, at + 64, p, p + 4);
      WordsIn(little, file, at + 4 * i);
    }
  }

  /** Where the header is: in front of a file that begins with the letters GST, else at its end. */
  function HeadIn(file: seq<byte>): nat
    requires |file| >= 64
  {
    if BeginsGst(file) then 0 else |file| - 64
  }

  predicate BeginsGst(file: seq<byte>)
    requires |file| >= 3
  {
    file[0] == 0x47 && file[1] == 0x53 && file[2] == 0x54
  }

  function LittleIn(file: seq<byte>): bool
    requires |file| >= 64
  {
    file[HeadIn(file) + 3] == 0x4c
  }

  /** A word of the header. */
  function HeadFour(file: seq<byte>, offset: nat): nat
    requires |file| >= 64 && offset + 4 <= 64
  {
    FourIn(LittleIn(file), file, HeadIn(file) + offset)
  }

  /** The header is accepted: letters, byte order, six fixed words, and what it points to inside the file. */
  predicate HeadAccepted(file: seq<byte>) {
    |file| >= 64 &&
    var p := HeadIn(file);
    && file[p] == 0x47 && ((file[p + 1] == 0x53 && file[p + 2] == 0x54) || (file[p + 1] == 0x42 && file[p + 2] == 0x4e)) && (file[p + 3] == 0x4c || file[p + 3] == 0x42)
    && TwoIn(LittleIn(file), file, p + 4) == 1 && TwoIn(LittleIn(file), file, p + 6) == 0 && HeadFour(file, 8) == 16 && HeadFour(file, 0xc) == 4
    && HeadFour(file, 0x14) == (if file[p + 1] == 0x53 then 64 else 0)
    && (HeadFour(file, 0x14) + HeadFour(file, 0x1c) * HeadFour(file, 0x18)) % 0x1_0000_0000 < |file|
    && HeadFour(file, 0x24) + 4 * HeadFour(file, 0x20) < |file| && HeadFour(file, 0x2c) < |file|
    && HeadFour(file, 0x34) == 0 && HeadFour(file, 0x38) == 0 && HeadFour(file, 0x3c) == 0
  }

  function HeadRead(file: seq<byte>): Head
    requires |file| >= 64
  {
    var l, p := LittleIn(file), HeadIn(file);
    Head(TwoIn(l, file, p + 4), TwoIn(l, file, p + 6), HeadFour(file, 8), HeadFour(file, 0xc), HeadFour(file, 0x10), HeadFour(file, 0x14),
         HeadFour(file, 0x18), HeadFour(file, 0x1c), HeadFour(file, 0x20), HeadFour(file, 0x24), HeadFour(file, 0x28), HeadFour(file, 0x2c),
         HeadFour(file, 0x30), HeadFour(file, 0x34), HeadFour(file, 0x38), HeadFour(file, 0x3c))
  }

  lemma HeadWordsRead(little: bool, file: seq<byte>, at: nat)
    requires at + 64 <= |file|
    ensures Sum(WIDTHS) == 60
    ensures HeadOf(DecWords(little, WIDTHS, file[at + 4..at + 64])) ==
              Head(TwoIn(little, file, at + 4), TwoIn(little, file, at + 6), FourIn(little, file, at + 8), FourIn(little, file, at + 12), FourIn(little, file, at + 16),
                   FourIn(little, file, at + 20), FourIn(little, file, at + 24), FourIn(little, file, at + 28), FourIn(little, file, at + 32),
                   FourIn(little, file, at + 36), FourIn(little, file, at + 40), FourIn(little, file, at + 44), FourIn(little, file, at + 48),
                   FourIn(little, file, at + 52), FourIn(little, file, at + 56), FourIn(little, file, at + 60))
  {
    hide DecWords, Sum, TwoIn, FourIn;
    WidthsSum();
    HeadWord(little, file, at, 0);
    HeadWord(little, file, at, 1);
    HeadWord(little, file, at, 2);
    HeadWord(little, file, at, 3);
    HeadWord(little, file, at, 4);
    HeadWord(little, file, at, 5);
    HeadWord(little, file, at, 6);
    HeadWord(little, file, at, 7);
    HeadWord(little, file, at, 8);
    HeadWord(little, file, at, 9);
    HeadWord(little, file, at, 10);
    HeadWord(little, file, at, 11);
    HeadWord(little, file, at, 12);
    HeadWord(little, file, at, 13);
    HeadWord(little, file, at, 14);
    HeadWord(little, file, at, 15);
  }

  lemma Letters(b: seq<byte>, at: nat)
    requires at + 3 <= |b|
    ensures b[at..at + 3] == Gst() <==> b[at] == 0x47 && b[at + 1] == 0x53 && b[at + 2] == 0x54
    ensures b[at..at + 3] == Gbn() <==> b[at] == 0x47 && b[at + 1] == 0x42 && b[at + 2] == 0x4e
  {
    assert b[at..at + 3] == [b[at], b[at + 1], b[at + 2]];
  }

  /** A file is read by what its header says. */
  lemma ParsedHead(file: seq<byte>)
    ensures !HeadAccepted(file) ==> Parsed(file).None?
    ensures HeadAccepted(file) ==>
              HeadInside(HeadRead(file), |file|) && Parsed(file) == ParsedBody(file, LittleIn(file), BeginsGst(file), HeadRead(file))
  {
    hide DecWords, Sum, TwoIn, FourIn, ParsedBody;
    if |file| >= 64 {
      var p := HeadIn(file);
      Letters(file, 0);
      assert file[..3] == file[0..3];
      Letters(file, p);
      HeadWordsRead(LittleIn(file), file, p);
    }
  }

  // ---- record type and records

  /** The descriptors: pairs of a code and an offset. */
  function DescriptorsIn(file: seq<byte>, little: bool, at: nat, n: nat): (ds: seq<Descriptor>)
    requires at + 4 * n <= |file|
    ensures |ds| == n && forall k: nat {:trigger ds[k]} :: k < n ==> ds[k] == Descriptor(TwoIn(little, file, at + 4 * k), TwoIn(little, file, at + 4 * k + 2))
  {
    seq(n, k requires 0 <= k < n => Descriptor(TwoIn(little, file, at + 4 * k), TwoIn(little, file, at + 4 * k + 2)))
  }

  lemma {:induction false} DescriptorsRead(file: seq<byte>, little: bool, at: nat, n: nat)
    requires at + 4 * n <= |file|
    ensures DescriptorsAt(file, little, at, n) == DescriptorsIn(file, little, at, n)
  {
    hide TwoIn, Dec;
    if n > 0 {
      DescriptorsRead(file, little, at, n - 1);
      WordsIn(little, file, at + 4 * (n - 1));
      WordsIn(little, file, at + 4 * (n - 1) + 2);
    }
  }

  /** The bytes from `p` up to a zero. */
  ghost predicate TextAt(file: seq<byte>, p: nat, str: seq<byte>) {
    p + |str| < |file| && file[p..p + |str|] == str && file[p + |str|] == 0 && 0 !in str
  }

  /** The value is what the bytes from `at` on say: a number, the bytes themselves, or the string that a word says how far
      behind `pool` it is; all bits set say there is none. */
  ghost predicate ValueRead(v: Value, t: FieldType, file: seq<byte>, little: bool, at: nat, pool: nat) {
    match t.kind
    case Int8 => at + 1 <= |file| && v == Num(file[at])
    case Int16 => at + 2 <= |file| && v == Num(TwoIn(little, file, at))
    case Int32 => at + 4 <= |file| && v == Num(FourIn(little, file, at))
    case Float => at + 4 <= |file| && v == Num(FourIn(little, file, at))
    case Int64 => at + 8 <= |file| && v == Num(EightIn(little, file, at))
    case FixString => at + t.size <= |file| && v == Fixed(file[at..at + t.size])
    case Padding => at + t.size <= |file| && v == Gap(file[at..at + t.size])
    case String =>
      at + 4 <= |file| &&
      if FourIn(little, file, at) == 0xffff_ffff then v == Text([], 0xffff_ffff)
      else v.Text? && v.offset != 0xffff_ffff && TextAt(file, pool + FourIn(little, file, at), v.str)
  }

  /** The values are those of fields one behind the other from `at` on. */
  ghost predicate RowRead(row: seq<Value>, types: seq<FieldType>, i: nat, file: seq<byte>, little: bool, at: nat, pool: nat)
    requires |row| == |types| && i <= |types|
    decreases |types| - i
  {
    i == |types| || (ValueRead(row[i], types[i], file, little, at, pool) && RowRead(row, types, i + 1, file, little, at + types[i].size, pool))
  }

  lemma TextFound(file: seq<byte>, p: nat)
    requires p <= |file| && CStringIn(file[p..]).Some?
    ensures TextAt(file, p, CStringIn(file[p..]).value)
  {
  }

  lemma FieldRead(file: seq<byte>, little: bool, t: FieldType, at: nat, pool: nat)
    requires FieldAt(file, little, t, at, pool).Some?
    requires t.kind == FixString || t.kind == Padding || t.size == NaturalSize(t.kind)
    ensures ValueRead(FieldAt(file, little, t, at, pool).value, t, file, little, at, pool)
  {
    hide Dec, TwoIn, FourIn, EightIn, TextAt, CStringIn;
    WordsIn(little, file, at);
    if t.kind == Int64 {
      LongIn(little, file, at);
    } else if t.kind == String && FourIn(little, file, at) != 0xffff_ffff {
      TextFound(file, pool + FourIn(little, file, at));
    }
  }

  /** Placing a string in the pool of the table leaves what was read. */
  lemma SettledRead(v: Value, p: Pool, t: FieldType, file: seq<byte>, little: bool, at: nat, pool: nat)
    requires ValueRead(v, t, file, little, at, pool) && (Live(v) ==> v.str in p.offsets && p.offsets[v.str] < 0xffff_ffff)
    ensures ValueRead(Settle(v, p), t, file, little, at, pool)
  {
    hide TwoIn, FourIn, EightIn, TextAt;
  }

  lemma {:induction false} RecordFields(file: seq<byte>, little: bool, types: seq<FieldType>, at: nat, pool: nat, i: nat)
    requires RecordAt(file, little, types, at, pool).Some? && i < |types|
    ensures FieldAt(file, little, types[i], at + TotalSize(types[..i]), pool) == Some(RecordAt(file, little, types, at, pool).value[i])
    decreases |types|
  {
    hide FieldAt;
    var n := |types| - 1;
    if i < n {
      RecordFields(file, little, types[..n], at, pool, i);
      assert types[..n][..i] == types[..i];
    }
  }

  lemma {:induction false} MessageRows(file: seq<byte>, little: bool, types: seq<FieldType>, at: nat, size: nat, n: nat, pool: nat, j: nat)
    requires MessagesAt(file, little, types, at, size, n, pool).Some? && j < n
    ensures RecordAt(file, little, types, at + j * size, pool) == Some(MessagesAt(file, little, types, at, size, n, pool).value[j])
  {
    hide RecordAt;
    if j < n - 1 {
      MessageRows(file, little, types, at, size, n - 1, pool, j);
    }
  }

  /** Field `i` of fields laid out as descriptors say has a size of its own. */
  lemma {:induction false} LaidSizes(types: seq<FieldType>, i: nat, ds: seq<Descriptor>, k: nat, off: nat, size: nat, j: nat)
    requires i <= j < |types| && Laid(types, i, ds, k, off, size)
    ensures types[j].kind == FixString || types[j].kind == Padding || types[j].size == NaturalSize(types[j].kind)
    decreases |types| - i
  {
    if i < j {
      LaidSizes(types, i + 1, ds, if types[i].kind == Padding then k else k + 1, off + types[i].size, size, j);
    }
  }

  lemma {:induction false} OffsetsInside(vs: seq<Value>)
    ensures forall s {:trigger Collect(vs).offsets[s]} :: s in Collect(vs).offsets ==> Collect(vs).offsets[s] < Collect(vs).size
  {
    if vs != [] {
      OffsetsInside(vs[..|vs| - 1]);
    }
  }

  // ---- the table

  /** The table that the bytes of a file say: header words, fields, and every value of every message. */
  ghost predicate TableIn(t: Table, file: seq<byte>) {
    HeadAccepted(file) &&
    var l, n := LittleIn(file), HeadFour(file, 0x20);
    && t.little == l && t.isGstl == BeginsGst(file)
    && t.flags == HeadFour(file, 0x10) && t.field28 == HeadFour(file, 0x28) && t.field30 == HeadFour(file, 0x30)
    && Laid(t.types, 0, DescriptorsIn(file, l, HeadFour(file, 0x24), n), 0, 0, HeadFour(file, 0x1c))
    && |t.messages| == HeadFour(file, 0x18)
    && (forall j {:trigger t.messages[j]} :: 0 <= j < |t.messages| ==>
         RowIn(t.messages[j], t.types, file, l, HeadFour(file, 0x14), HeadFour(file, 0x1c), HeadFour(file, 0x2c), j))
    && GetSize(t) == |file|
  }

  /** Row `j` of records of `size` bytes from `at` on. */
  ghost predicate RowIn(row: seq<Value>, types: seq<FieldType>, file: seq<byte>, little: bool, at: nat, size: nat, pool: nat, j: nat) {
    |row| == |types| && RowRead(row, types, 0, file, little, at + j * size, pool)
  }

  /** A row as it is read, its strings then placed. */
  lemma {:induction false} RowFrom(row: seq<Value>, types: seq<FieldType>, i: nat, file: seq<byte>, little: bool, at: nat, pool: nat, p: Pool, placed: seq<Value>)
    requires RecordAt(file, little, types, at, pool) == Some(row) && i <= |types| && placed == SettleAll(row, p)
    requires forall j {:trigger types[j]} :: 0 <= j < |types| ==> types[j].kind == FixString || types[j].kind == Padding || types[j].size == NaturalSize(types[j].kind)
    requires forall j {:trigger row[j]} :: 0 <= j < |row| && Live(row[j]) ==> row[j].str in p.offsets && p.offsets[row[j].str] < 0xffff_ffff
    ensures RowRead(placed, types, i, file, little, at + TotalSize(types[..i]), pool)
    decreases |types| - i
  {
    hide FieldAt, ValueRead, RecordAt, Settle;
    if i < |types| {
      RecordFields(file, little, types, at, pool, i);
      FieldRead(file, little, types[i], at + TotalSize(types[..i]), pool);
      SettledRead(row[i], p, types[i], file, little, at + TotalSize(types[..i]), pool);
      assert types[..i + 1][..i] == types[..i];
      assert placed[i] == Settle(row[i], p);
      RowFrom(row, types, i + 1, file, little, at, pool, p, placed);
    }
  }

  lemma WordsSmall(file: seq<byte>, little: bool, at: nat, n: nat)
    requires at + 4 * n <= |file|
    ensures forall k {:trigger DescriptorsIn(file, little, at, n)[k]} :: 0 <= k < n ==> DescriptorsIn(file, little, at, n)[k].offset < 0x1_0000
  {
  }

  lemma NoSize(types: seq<FieldType>)
    ensures TotalSize(types[..0]) == 0
  {
  }

  lemma RowsFrom(messages: seq<seq<Value>>, types: seq<FieldType>, file: seq<byte>, little: bool, at: nat, size: nat, pool: nat, j: nat, p: Pool, placed: seq<Value>)
    requires j < |messages| && p == Collect(Flat(messages)) && placed == SettleAll(messages[j], p) && p.size < 0xffff_ffff
    requires MessagesAt(file, little, types, at, size, |messages|, pool) == Some(messages)
    requires forall i {:trigger types[i]} :: 0 <= i < |types| ==> types[i].kind == FixString || types[i].kind == Padding || types[i].size == NaturalSize(types[i].kind)
    ensures |placed| == |types| && RowRead(placed, types, 0, file, little, at + j * size, pool)
  {
    hide RecordAt, Settle, MessagesAt, Collect, Flat, Strings, PoolBytes, TotalSize, RowRead, NoDuplicates;
    MessageRows(file, little, types, at, size, |messages|, pool, j);
    var vs, row := Flat(messages), messages[j];
    OffsetsInside(vs);
    CollectStrings(vs);
    forall i | 0 <= i < |row| && Live(row[i])
      ensures row[i].str in p.offsets && p.offsets[row[i].str] < 0xffff_ffff
    {
      var n := FlatAt(messages, j, i);
      StringsHave(vs, n);
    }
    NoSize(types);
    RowFrom(row, types, 0, file, little, at + j * size, pool, p, placed);
  }

  lemma SizeSettled(u: Table)
    requires PoolSize(u) < NIL
    ensures GetSize(Recalculated(u)) == GetSize(u)
  {
    hide Collect, SizeFrom, Described, TotalSize;
    SamePool(u);
  }

  /** What is read from a file is the table that its bytes say. */
  lemma ParsedSays(file: seq<byte>)
    requires |file| < 0xffff_ffff && Parsed(file).Some?
    ensures TableIn(Parsed(file).value, file) && Current(Parsed(file).value)
  {
    hide DecWords, TwoIn, FourIn, MessagesAt, Built, Ordered, HeadInside, Laid, Recalculated, GetSize, TotalSize, RowRead, Collect, Flat, HeadFour, Parsed;
    ParsedHead(file);
    var l, h := LittleIn(file), HeadRead(file);
    var ds := DescriptorsAt(file, l, h.offsetTypes, h.countTypes);
    DescriptorsRead(file, l, h.offsetTypes, h.countTypes);
    WordsSmall(file, l, h.offsetTypes, h.countTypes);
    var types := Built(ds, h.msgDescrSize);
    var u := Table(l, BeginsGst(file), h.flags, h.field28, h.field30, types, MessagesAt(file, l, types, h.descrOffset, h.msgDescrSize, h.countMsgs, h.offsetMsgs).value);
    BuiltLaid(ds, h.msgDescrSize);
    PoolBelow(u);
    SamePool(u);
    SizeSettled(u);
    forall i | 0 <= i < |types|
      ensures types[i].kind == FixString || types[i].kind == Padding || types[i].size == NaturalSize(types[i].kind)
    {
      LaidSizes(types, 0, ds, 0, 0, h.msgDescrSize, i);
    }
    forall j | 0 <= j < |u.messages|
      ensures RowIn(Recalculated(u).messages[j], types, file, l, h.descrOffset, h.msgDescrSize, h.offsetMsgs, j)
    {
      RowsFrom(u.messages, types, file, l, h.descrOffset, h.msgDescrSize, h.offsetMsgs, j, Collect(Flat(u.messages)), Recalculated(u).messages[j]);
    }
  }

  lemma PoolBelow(u: Table)
    ensures PoolSize(u) < GetSize(u)
  {
    hide Collect, Described, TotalSize;
    SizesAdd(u);
  }

  // ---- and only that is read

  /** What field `i - 1` says of where the next descriptor is. */
  predicate Behind(types: seq<FieldType>, i: nat, ds: seq<Descriptor>, k: nat, off: nat, size: nat)
    requires i <= |types|
  {
    i > 0 ==>
      && (types[i - 1].kind == Padding || types[i - 1].kind == FixString ==> NextAt(ds, k, size) == off)
      && (types[i - 1].kind == Int8 ==> NextAt(ds, k, size) <= off + 3)
  }

  lemma LaidFit(types: seq<FieldType>, i: nat, ds: seq<Descriptor>, k: nat, off: nat, size: nat)
    requires i < |types| && Laid(types, i, ds, k, off, size) && Behind(types, i, ds, k, off, size)
    ensures FieldFits(types, i)
    ensures var k' := if types[i].kind == Padding then k else k + 1;
            Laid(types, i + 1, ds, k', off + types[i].size, size) && Behind(types, i + 1, ds, k', off + types[i].size, size)
  {
  }

  lemma {:induction false} LaidFits(types: seq<FieldType>, i: nat, ds: seq<Descriptor>, k: nat, off: nat, size: nat)
    requires i <= |types| && Laid(types, i, ds, k, off, size) && Behind(types, i, ds, k, off, size)
    ensures forall j {:trigger types[j]} :: i <= j < |types| ==> FieldFits(types, j)
    decreases |types| - i
  {
    hide Laid, FieldFits, Behind;
    if i < |types| {
      LaidFit(types, i, ds, k, off, size);
      LaidFits(types, i + 1, ds, if types[i].kind == Padding then k else k + 1, off + types[i].size, size);
      forall j | i <= j < |types|
        ensures FieldFits(types, j)
      {
        var t := types[j];
      }
    }
  }

  lemma DescribedNext(types: seq<FieldType>, i: nat)
    requires i < |types|
    ensures TotalSize(types[..i + 1]) == TotalSize(types[..i]) + types[i].size
    ensures Described(types[..i + 1]) == Described(types[..i]) + (if types[i].kind == Padding then [] else [Descriptor(CodeOf(types[i].kind), TotalSize(types[..i]))])
  {
    assert types[..i + 1][..i] == types[..i];
  }

  lemma LaidCode(types: seq<FieldType>, i: nat, ds: seq<Descriptor>, k: nat, off: nat, size: nat)
    requires i < |types| && Laid(types, i, ds, k, off, size) && types[i].kind != Padding
    ensures k < |ds| && ds[k] == Descriptor(CodeOf(types[i].kind), off) && Laid(types, i + 1, ds, k + 1, off + types[i].size, size)
  {
  }

  lemma LaidGap(types: seq<FieldType>, i: nat, ds: seq<Descriptor>, k: nat, off: nat, size: nat)
    requires i < |types| && Laid(types, i, ds, k, off, size) && types[i].kind == Padding
    ensures Laid(types, i + 1, ds, k, off + types[i].size, size)
  {
  }

  lemma {:induction false} LaidDescribed(types: seq<FieldType>, i: nat, ds: seq<Descriptor>, k: nat, size: nat)
    requires i <= |types| && k <= |ds| && Described(types[..i]) == ds[..k] && Laid(types, i, ds, k, TotalSize(types[..i]), size)
    ensures Described(types) == ds && TotalSize(types) == size
    decreases |types| - i
  {
    hide Laid, CodeOf;
    if i < |types| {
      DescribedNext(types, i);
      if types[i].kind == Padding {
        LaidGap(types, i, ds, k, TotalSize(types[..i]), size);
        LaidDescribed(types, i + 1, ds, k, size);
      } else {
        LaidCode(types, i, ds, k, TotalSize(types[..i]), size);
        assert ds[..k + 1] == ds[..k] + [ds[k]];
        LaidDescribed(types, i + 1, ds, k + 1, size);
      }
    } else {
      LaidEnd(types, ds, k, TotalSize(types[..i]), size);
      assert types[..i] == types && ds[..k] == ds;
    }
  }

  lemma LaidEnd(types: seq<FieldType>, ds: seq<Descriptor>, k: nat, off: nat, size: nat)
    requires Laid(types, |types|, ds, k, off, size)
    ensures k == |ds| && off == size
  {
  }

  /** Fields laid out as the descriptors say are those the reader builds. */
  lemma LaidBuilt(types: seq<FieldType>, ds: seq<Descriptor>, size: nat)
    requires Laid(types, 0, ds, 0, 0, size)
    ensures Ordered(ds) && Built(ds, size) == types && TotalSize(types) == size && CanonicalTypes(types)
  {
    hide Laid, FieldFits;
    assert Behind(types, 0, ds, 0, 0, size);
    LaidFits(types, 0, ds, 0, 0, size);
    forall j | 0 <= j < |types|
      ensures FieldFits(types, j)
    {
      var t := types[j];
    }
    assert types[..0] == [] && ds[..0] == [];
    LaidDescribed(types, 0, ds, 0, size);
    CanonicalRebuilt(types);
  }

  lemma TextBackAt(file: seq<byte>, p: nat, str: seq<byte>)
    requires TextAt(file, p, str)
    ensures p <= |file| && CStringIn(file[p..]) == Some(str)
  {
    var rest := file[p + |str| + 1..];
    assert file[p..] == str + [0] + rest;
    CStringFound(str, rest);
  }

  lemma ValueBack(v: Value, t: FieldType, file: seq<byte>, little: bool, at: nat, pool: nat)
    requires ValueRead(v, t, file, little, at, pool) && (t.kind == FixString || t.kind == Padding || t.size == NaturalSize(t.kind))
    ensures FieldAt(file, little, t, at, pool) == Some(Unplaced(v))
  {
    hide Dec, TwoIn, FourIn, EightIn, TextAt, CStringIn;
    WordsIn(little, file, at);
    if t.kind == Int64 {
      LongIn(little, file, at);
    } else if t.kind == String && FourIn(little, file, at) != 0xffff_ffff {
      TextBackAt(file, pool + FourIn(little, file, at), v.str);
      TextInside(file, pool + FourIn(little, file, at), v.str);
    }
  }

  lemma TextInside(file: seq<byte>, p: nat, str: seq<byte>)
    requires TextAt(file, p, str)
    ensures p < |file|
  {
  }

  lemma RecordNext(file: seq<byte>, little: bool, types: seq<FieldType>, at: nat, pool: nat, i: nat, vs: seq<Value>, v: Value)
    requires i < |types| && RecordAt(file, little, types[..i], at, pool) == Some(vs) && FieldAt(file, little, types[i], at + TotalSize(types[..i]), pool) == Some(v)
    ensures RecordAt(file, little, types[..i + 1], at, pool) == Some(vs + [v]) && TotalSize(types[..i + 1]) == TotalSize(types[..i]) + types[i].size
  {
    hide FieldAt;
    assert types[..i + 1][..i] == types[..i];
  }

  lemma {:induction false} RowBackFrom(row: seq<Value>, types: seq<FieldType>, i: nat, file: seq<byte>, little: bool, at: nat, pool: nat)
    requires |row| == |types| && i <= |types| && RowRead(row, types, i, file, little, at + TotalSize(types[..i]), pool)
    requires forall j {:trigger types[j]} :: 0 <= j < |types| ==> types[j].kind == FixString || types[j].kind == Padding || types[j].size == NaturalSize(types[j].kind)
    requires RecordAt(file, little, types[..i], at, pool) == Some(UnplacedAll(row[..i]))
    ensures RecordAt(file, little, types, at, pool) == Some(UnplacedAll(row))
    decreases |types| - i
  {
    hide FieldAt, ValueRead, RecordAt, Unplaced, TotalSize;
    if i < |types| {
      ValueBack(row[i], types[i], file, little, at + TotalSize(types[..i]), pool);
      RecordNext(file, little, types, at, pool, i, UnplacedAll(row[..i]), Unplaced(row[i]));
      assert UnplacedAll(row[..i + 1]) == UnplacedAll(row[..i]) + [Unplaced(row[i])];
      RowBackFrom(row, types, i + 1, file, little, at, pool);
    } else {
      assert types[..i] == types && row[..i] == row;
    }
  }

  lemma {:induction false} MessagesBackFrom(messages: seq<seq<Value>>, types: seq<FieldType>, file: seq<byte>, little: bool, at: nat, size: nat, n: nat, pool: nat)
    requires n <= |messages| && forall j {:trigger messages[j]} :: 0 <= j < n ==> RecordAt(file, little, types, at + j * size, pool) == Some(UnplacedAll(messages[j]))
    ensures MessagesAt(file, little, types, at, size, n, pool) == Some(GR.UnplacedRows(messages[..n]))
  {
    hide RecordAt, UnplacedAll;
    if n > 0 {
      MessagesBackFrom(messages, types, file, little, at, size, n - 1, pool);
      var m := messages[n - 1];
      assert GR.UnplacedRows(messages[..n]) == GR.UnplacedRows(messages[..n - 1]) + [UnplacedAll(m)];
    }
  }

  lemma RowThere(row: seq<Value>, types: seq<FieldType>, file: seq<byte>, little: bool, at: nat, pool: nat)
    requires |row| == |types| && RowRead(row, types, 0, file, little, at, pool)
    requires forall i {:trigger types[i]} :: 0 <= i < |types| ==> types[i].kind == FixString || types[i].kind == Padding || types[i].size == NaturalSize(types[i].kind)
    ensures RecordAt(file, little, types, at, pool) == Some(UnplacedAll(row))
  {
    hide RowRead;
    assert types[..0] == [] && row[..0] == [] && UnplacedAll([]) == [];
    RowBackFrom(row, types, 0, file, little, at, pool);
  }

  /** The table that the bytes of a file say, its strings placed, is what is read. */
  lemma SaysParsed(t: Table, file: seq<byte>)
    requires TableIn(t, file) && Current(t)
    ensures Parsed(file) == Some(t)
  {
    hide DecWords, TwoIn, FourIn, MessagesAt, Built, Ordered, HeadInside, Laid, Recalculated, GetSize, TotalSize, RowRead, Collect, Flat, HeadFour, Parsed, LittleIn, RecordAt;
    ParsedHead(file);
    var l, h := LittleIn(file), HeadRead(file);
    var ds := DescriptorsAt(file, l, h.offsetTypes, h.countTypes);
    DescriptorsRead(file, l, h.offsetTypes, h.countTypes);
    LaidBuilt(t.types, ds, h.msgDescrSize);
    forall j | 0 <= j < |t.messages|
      ensures RecordAt(file, l, t.types, h.descrOffset + j * h.msgDescrSize, h.offsetMsgs) == Some(UnplacedAll(t.messages[j]))
    {
      forall i | 0 <= i < |t.types|
        ensures t.types[i].kind == FixString || t.types[i].kind == Padding || t.types[i].size == NaturalSize(t.types[i].kind)
      {
        LaidSizes(t.types, 0, ds, 0, 0, h.msgDescrSize, i);
      }
      var m := t.messages[j];
      assert RowIn(m, t.types, file, l, h.descrOffset, h.msgDescrSize, h.offsetMsgs, j);
      RowThere(t.messages[j], t.types, file, l, h.descrOffset + j * h.msgDescrSize, h.offsetMsgs);
    }
    MessagesBackFrom(t.messages, t.types, file, l, h.descrOffset, h.msgDescrSize, |t.messages|, h.offsetMsgs);
    assert t.messages[..|t.messages|] == t.messages;
    GR.Replaced(t);
  }

  /** A file is read as a table exactly if its bytes say that table, with its strings where they are written. */
  lemma ParsedExactly(t: Table, file: seq<byte>)
    requires |file| < 0xffff_ffff
    ensures Parsed(file) == Some(t) <==> TableIn(t, file) && Current(t)
  {
    hide Parsed, TableIn, Current;
    if Parsed(file) == Some(t) {
      ParsedSays(file);
    }
    if TableIn(t, file) && Current(t) {
      SaysParsed(t, file);
    }
  }

  /** The next multiple of sixteen. */
  function Sixteen(n: nat): nat {
    if n % 16 == 0 then n else n - n % 16 + 16
  }

  /** Header, records, descriptors and strings, one behind the other in a GSTR, on multiples of 16 in a GBIN. */
  function SizeOf(isGstl: bool, recordSize: nat, records: nat, descriptors: nat, pool: nat): nat {
    if isGstl then 64 + recordSize * records + 4 * descriptors + pool
    else Sixteen(Sixteen(Sixteen(recordSize * records) + 4 * descriptors) + pool) + 64
  }

  /** The size of a file by its header and the strings of its pool. */
  lemma SizeMeans(t: Table, file: seq<byte>)
    requires |file| >= 64 && TableIn(t, file)
    ensures |file| == SizeOf(BeginsGst(file), HeadFour(file, 0x1c), HeadFour(file, 0x18), HeadFour(file, 0x20), |PoolBytes(Strings(Flat(t.messages)))|)
  {
    hide Laid, HeadFour, RowIn, Ordered, Built, Described, PoolSize, Collect, Flat, TotalSize, SizeOf, SizeFrom;
    var ds := DescriptorsIn(file, LittleIn(file), HeadFour(file, 0x24), HeadFour(file, 0x20));
    LaidBuilt(t.types, ds, HeadFour(file, 0x1c));
    BuiltDescribes(ds, HeadFour(file, 0x1c));
    PoolIs(t);
    SizeFromIs(t.isGstl, HeadFour(file, 0x1c), HeadFour(file, 0x18), HeadFour(file, 0x20), PoolSize(t));
  }

  lemma PoolIs(t: Table)
    ensures PoolSize(t) == |PoolBytes(Strings(Flat(t.messages)))|
  {
    hide Collect, Flat;
    CollectStrings(Flat(t.messages));
  }

  lemma SizeFromIs(isGstl: bool, recordSize: nat, records: nat, descriptors: nat, pool: nat)
    ensures SizeFrom(isGstl, recordSize, records, descriptors, pool) == SizeOf(isGstl, recordSize, records, descriptors, pool)
  {
    SixteenIs(recordSize * records);
    SixteenIs(Sixteen(recordSize * records) + 4 * descriptors);
    SixteenIs(Sixteen(Sixteen(recordSize * records) + 4 * descriptors) + pool);
  }

  lemma SixteenIs(n: nat)
    ensures Align(false, n) == Sixteen(n)
  {
  }

  /** What the value of a descriptor is: under the code 1 a byte, under 2 two bytes, under 0 and 3 four, under 6 eight; under
      the code 5 the string that a word of four bytes leads to. */
  ghost predicate CodeRead(v: Value, t: FieldType, code: nat, file: seq<byte>, little: bool, p: nat, pool: nat) {
    match code
    case 0 => p + 4 <= |file| && v == Num(FourIn(little, file, p))
    case 1 => p + t.size <= |file| && (if t.size == 1 then v == Num(file[p]) else t.size > 4 && v == Fixed(file[p..p + t.size]))
    case 2 => p + 2 <= |file| && v == Num(TwoIn(little, file, p))
    case 3 => p + 4 <= |file| && v == Num(FourIn(little, file, p))
    case 5 =>
      p + 4 <= |file| && v.Text? &&
      if FourIn(little, file, p) == 0xffff_ffff then v.str == [] && v.offset == 0xffff_ffff else TextAt(file, pool + FourIn(little, file, p), v.str)
    case 6 => p + 8 <= |file| && v == Num(EightIn(little, file, p))
    case _ => false
  }

  lemma CodeHere(types: seq<FieldType>, row: seq<Value>, i: nat, ds: seq<Descriptor>, k: nat, off: nat, size: nat, file: seq<byte>, little: bool, at: nat, pool: nat)
    requires |row| == |types| && i < |types| && Laid(types, i, ds, k, off, size) && types[i].kind != Padding
    requires ValueRead(row[i], types[i], file, little, at + off, pool)
    ensures k < |ds| && ds[k].offset == off && CodeRead(row[i], types[i], ds[k].code, file, little, at + off, pool)
  {
    hide TwoIn, FourIn, EightIn, TextAt;
  }

  /** Every descriptor has its field, and the value of that is at its offset of the record. */
  lemma {:induction false} DescriptorRead(types: seq<FieldType>, row: seq<Value>, i: nat, ds: seq<Descriptor>, k: nat, off: nat, size: nat,
                                          file: seq<byte>, little: bool, at: nat, pool: nat, m: nat) returns (n: nat)
    requires |row| == |types| && i <= |types| && Laid(types, i, ds, k, off, size) && RowRead(row, types, i, file, little, at + off, pool) && k <= m < |ds|
    ensures n < |types| && CodeRead(row[n], types[n], ds[m].code, file, little, at + ds[m].offset, pool)
    decreases |types| - i
  {
    hide CodeRead, ValueRead;
    if types[i].kind == Padding {
      LaidGap(types, i, ds, k, off, size);
      n := DescriptorRead(types, row, i + 1, ds, k, off + types[i].size, size, file, little, at, pool, m);
    } else {
      CodeHere(types, row, i, ds, k, off, size, file, little, at, pool);
      if k == m {
        n := i;
      } else {
        LaidCode(types, i, ds, k, off, size);
        n := DescriptorRead(types, row, i + 1, ds, k + 1, off + types[i].size, size, file, little, at, pool, m);
      }
    }
  }

  /** Where record `j` begins. */
  function RecordIn(file: seq<byte>, j: nat): nat
    requires |file| >= 64
  {
    Nth(HeadFour(file, 0x14), j, HeadFour(file, 0x1c))
  }

  function Nth(at: nat, j: nat, size: nat): nat {
    at + j * size
  }

  /** The value is that of the descriptor at `d`, which is a code and an offset, of the record at `at`. */
  ghost predicate Valued(v: Value, t: FieldType, file: seq<byte>, little: bool, d: nat, at: nat, pool: nat) {
    d + 4 <= |file| && CodeRead(v, t, TwoIn(little, file, d), file, little, at + TwoIn(little, file, d + 2), pool)
  }

  /** In every message every descriptor has its value. */
  lemma ValueInFile(t: Table, file: seq<byte>, j: nat, m: nat) returns (n: nat)
    requires 64 <= |file| < 0xffff_ffff && j < HeadFour(file, 0x18) && m < HeadFour(file, 0x20) && Parsed(file) == Some(t)
    ensures j < |t.messages| && n < |t.messages[j]| && n < |t.types|
    ensures Valued(t.messages[j][n], t.types[n], file, LittleIn(file), HeadFour(file, 0x24) + 4 * m, RecordIn(file, j), HeadFour(file, 0x2c))
  {
    hide Parsed, CodeRead, RowRead, Laid, TwoIn, FourIn, HeadFour, GetSize, Flat, Collect;
    ParsedSays(file);
    var l, row := LittleIn(file), t.messages[j];
    var ds := DescriptorsIn(file, l, HeadFour(file, 0x24), HeadFour(file, 0x20));
    n := DescriptorRead(t.types, row, 0, ds, 0, 0, HeadFour(file, 0x1c), file, l, RecordIn(file, j), HeadFour(file, 0x2c), m);
    assert ds[m] == Descriptor(TwoIn(l, file, HeadFour(file, 0x24) + 4 * m), TwoIn(l, file, HeadFour(file, 0x24) + 4 * m + 2));
  }

  lemma SizeFits(t: Table)
    requires WellFormed(t)
    ensures GetSize(t) < 0xffff_ffff
  {
    hide GetSize, CanonicalTypes, GoodRows, Described;
  }

  lemma DumpFits(t: Table)
    requires WellFormed(t) && Current(t)
    ensures |Dumped(t)| < 0xffff_ffff
  {
    hide *;
    SizeFits(t);
    DumpLayout(t);
  }

  /** What the dump of a table says, byte by byte, is that table and no other whose strings are in place. */
  lemma DumpSays(t: Table, u: Table)
    requires WellFormed(t) && Current(t) && |Dumped(t)| >= 3 && if t.isGstl then PoolSize(t) > 0 else !BeginsGst(Dumped(t))
    ensures TableIn(u, Dumped(t)) && Current(u) <==> u == t
  {
    hide Dumped, Parsed, TableIn, Current, PoolSize, WellFormed, BeginsGst, Rows;
    DumpFits(t);
    GR.Reparsed(t);
    GstAhead(Dumped(t));
    ParsedExactly(u, Dumped(t));
  }

  lemma GstAhead(b: seq<byte>)
    requires |b| >= 3
    ensures BeginsGst(b) <==> b[..3] == Gst()
  {
    Letters(b, 0);
  }
}
