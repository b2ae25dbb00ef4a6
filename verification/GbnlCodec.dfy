/** GBNL tables as values and the bytes of their header, record type and records. */
module GbnlCodec {
  import opened Bytes
  import opened Pools
  import opened Descriptors
  import opened Words

  datatype Table = Table(
    little: bool,
    isGstl: bool,
    flags: nat,
    field28: nat,
    field30: nat,
    types: seq<FieldType>,
    messages: seq<seq<Value>>)

  /** The fields of all messages in order. */
  function Flat(messages: seq<seq<Value>>): seq<Value> {
    if messages == [] then [] else Flat(messages[..|messages| - 1]) + messages[|messages| - 1]
  }

  /** Every field of every message is in the list of all fields. */
  lemma {:induction false} FlatAt(messages: seq<seq<Value>>, j: nat, i: nat) returns (n: nat)
    requires j < |messages| && i < |messages[j]|
    ensures n < |Flat(messages)| && Flat(messages)[n] == messages[j][i]
  {
    var k := |messages| - 1;
    if j < k {
      n := FlatAt(messages[..k], j, i);
    } else {
      n := |Flat(messages[..k])| + i;
    }
  }

  // ---- header

  const WIDTHS: seq<nat> := [2, 2, 4, 4, 4, 4, 4, 4, 4, 4, 4, 4, 4, 4, 4, 4]

  const HEADER_SIZE: nat := 64

  datatype Head = Head(
    field04: nat, field06: nat, field08: nat, field0c: nat, flags: nat, descrOffset: nat, countMsgs: nat, msgDescrSize: nat,
    countTypes: nat, offsetTypes: nat, field28: nat, offsetMsgs: nat, field30: nat, field34: nat, field38: nat, field3c: nat)

  function HeadWords(h: Head): seq<nat> {
    [h.field04, h.field06, h.field08, h.field0c, h.flags, h.descrOffset, h.countMsgs, h.msgDescrSize,
     h.countTypes, h.offsetTypes, h.field28, h.offsetMsgs, h.field30, h.field34, h.field38, h.field3c]
  }

  function HeadOf(w: seq<nat>): Head
    requires |w| == 16
  {
    Head(w[0], w[1], w[2], w[3], w[4], w[5], w[6], w[7], w[8], w[9], w[10], w[11], w[12], w[13], w[14], w[15])
  }

  function Gst(): seq<byte> { [71, 83, 84] }

  function Gbn(): seq<byte> { [71, 66, 78] }

  /** The header, or footer, as it is written. */
  function HeadBytes(little: bool, isGstl: bool, h: Head): seq<byte> {
    (if isGstl then Gst() else Gbn()) + [if little then 76 else 66] + EncWords(little, WIDTHS, HeadWords(h))
  }

  lemma {:induction false} WidthsSum()
    ensures Sum(WIDTHS) == 60
  {
    var w, n := WIDTHS, 0;
    while n < 16
      invariant n <= 16 && Sum(w[..n]) == if n <= 2 then 2 * n else 4 * n - 4
    {
      assert w[..n + 1][..n] == w[..n];
      n := n + 1;
    }
    assert w[..16] == w;
  }

  /** Every word of the header fits. */
  predicate HeadFits(h: Head) {
    && h.field04 < 0x1_0000 && h.field06 < 0x1_0000
    && forall i {:trigger HeadWords(h)[i]} :: 2 <= i < 16 ==> HeadWords(h)[i] < 0x1_0000_0000
  }

  /** A header is read back as it was written. */
  lemma {:induction false} HeadBack(little: bool, isGstl: bool, h: Head)
    requires HeadFits(h)
    ensures |HeadBytes(little, isGstl, h)| == HEADER_SIZE
    ensures HeadBytes(little, isGstl, h)[..3] == if isGstl then Gst() else Gbn()
    ensures HeadBytes(little, isGstl, h)[3] == if little then 76 else 66
    ensures Sum(WIDTHS) == 60 && HeadOf(DecWords(little, WIDTHS, HeadBytes(little, isGstl, h)[4..])) == h
  {
    hide EncWords, DecWords, Sum;
    WidthsSum();
    WordsLength(little, WIDTHS, HeadWords(h));
    Ranges();
    var w := EncWords(little, WIDTHS, HeadWords(h));
    WordsBack(little, WIDTHS, HeadWords(h), []);
    assert w + [] == w && HeadBytes(little, isGstl, h)[4..] == w;
  }

  // ---- records

  /** strncpy of all but the last byte, which becomes zero. */
  function FixedBytes(chars: seq<byte>): (r: seq<byte>)
    ensures |chars| > 0 ==> |r| == |chars|
  {
    if chars == [] then []
    else
      var body := chars[..|chars| - 1];
      var s := CStringIn(body);
      (if s.None? then body else s.value + seq(|body| - |s.value|, _ => 0)) + [0]
  }

  /** A value belongs to a field type and fits it. */
  predicate Matches(t: FieldType, v: Value) {
    match t.kind
    case String => v.Text? && t.size == 4 && v.offset <= NIL && (v.offset == NIL ==> v.str == [])
    case FixString => v.Fixed? && |v.chars| == t.size > 0
    case Padding => v.Gap? && |v.pad| == t.size
    case _ => v.Num? && t.size == NaturalSize(t.kind) && v.value < Range(t.size)
  }

  predicate AllMatch(types: seq<FieldType>, values: seq<Value>) {
    |values| == |types| && forall i {:trigger types[i]} {:trigger values[i]} :: 0 <= i < |types| ==> Matches(types[i], values[i])
  }

  function FieldBytes(little: bool, t: FieldType, v: Value): seq<byte> {
    match v
    case Num(n) => Enc(little, t.size, n)
    case Text(_, offset) => Enc(little, 4, offset)
    case Fixed(chars) => FixedBytes(chars)
    case Gap(pad) => pad
  }

  function RecordBytes(little: bool, types: seq<FieldType>, values: seq<Value>): seq<byte>
    requires |types| == |values|
  {
    if types == [] then []
    else RecordBytes(little, types[..|types| - 1], values[..|values| - 1]) + FieldBytes(little, types[|types| - 1], values[|values| - 1])
  }

  /** A field read at `at`; strings are looked up behind `pool`. */
  function FieldAt(file: seq<byte>, little: bool, t: FieldType, at: nat, pool: nat): Option<Value> {
    if at + t.size > |file| then None
    else
      var b := file[at..at + t.size];
      match t.kind
      case String =>
        var offs := Dec(little, b);
        if offs == NIL then Some(Text([], NIL))
        else if offs >= |file| - pool then None
        else
          var s := CStringIn(file[pool + offs..]);
          if s.None? then None else Some(Text(s.value, 0))
      case FixString => Some(Fixed(b))
      case Padding => Some(Gap(b))
      case _ => Some(Num(Dec(little, b)))
  }

  function RecordAt(file: seq<byte>, little: bool, types: seq<FieldType>, at: nat, pool: nat): (r: Option<seq<Value>>)
    ensures r.Some? ==> |r.value| == |types|
  {
    if types == [] then Some([])
    else
      var init, t := types[..|types| - 1], types[|types| - 1];
      var rest := RecordAt(file, little, init, at, pool);
      var v := FieldAt(file, little, t, at + TotalSize(init), pool);
      if rest.None? || v.None? then None else Some(rest.value + [v.value])
  }

  lemma {:induction false} RecordLength(little: bool, types: seq<FieldType>, values: seq<Value>)
    requires AllMatch(types, values)
    ensures |RecordBytes(little, types, values)| == TotalSize(types)
  {
    if types != [] {
      var n := |types| - 1;
      InitMatches(types, values, n);
      RecordLength(little, types[..n], values[..n]);
      assert Matches(types[n], values[n]);
    }
  }

  lemma {:induction false} InitMatches(types: seq<FieldType>, values: seq<Value>, n: nat)
    requires AllMatch(types, values) && n <= |types|
    ensures AllMatch(types[..n], values[..n])
  {
    forall i | 0 <= i < n
      ensures Matches(types[..n][i], values[..n][i])
    {
      assert Matches(types[i], values[i]);
    }
  }

  /** A value as it is read back: a string has no offset yet. */
  function Unplaced(v: Value): Value {
    if Live(v) then Text(v.str, 0) else v
  }

  function UnplacedAll(vs: seq<Value>): (r: seq<Value>)
    ensures |r| == |vs| && forall i {:trigger r[i]} :: 0 <= i < |r| ==> r[i] == Unplaced(vs[i])
  {
    seq(|vs|, i requires 0 <= i < |vs| => Unplaced(vs[i]))
  }

  /** The string of a live value stands at its offset. */
  predicate Findable(file: seq<byte>, pool: nat, v: Value) {
    Live(v) ==> pool <= |file| && v.offset < |file| - pool && CStringIn(file[pool + v.offset..]) == Some(v.str)
  }

  predicate AllFindable(file: seq<byte>, pool: nat, vs: seq<Value>) {
    forall i {:trigger vs[i]} :: 0 <= i < |vs| ==> Findable(file, pool, vs[i])
  }

  /** A fixed string whose unused rest is zero. */
  predicate ZeroFilled(v: Value) {
    v.Fixed? ==> FixedBytes(v.chars) == v.chars
  }

  predicate AllZeroFilled(vs: seq<Value>) {
    forall i {:trigger vs[i]} :: 0 <= i < |vs| ==> ZeroFilled(vs[i])
  }

  lemma {:induction false} FieldBack(file: seq<byte>, little: bool, t: FieldType, v: Value, at: nat, pool: nat)
    requires Matches(t, v) && ZeroFilled(v) && Findable(file, pool, v)
    requires at + t.size <= |file| && file[at..at + t.size] == FieldBytes(little, t, v)
    ensures FieldAt(file, little, t, at, pool) == Some(Unplaced(v))
  {
    hide Enc, Dec, FixedBytes, CStringIn, Range;
    match v
    case Text(str, offset) =>
      DecEnc32(little, offset);
      assert t.kind == String;
    case Num(n) =>
      DecEnc(little, t.size, n);
    case _ =>
  }

  lemma {:induction false} DecEnc32(little: bool, v: nat)
    ensures v <= NIL ==> Dec(little, Enc(little, 4, v)) == v
  {
    Ranges();
    if v <= NIL {
      DecEnc(little, 4, v);
    }
  }

  lemma RecordParts(file: seq<byte>, types: seq<FieldType>, values: seq<Value>, pool: nat, n: nat)
    requires AllMatch(types, values) && AllZeroFilled(values) && AllFindable(file, pool, values) && n + 1 == |types|
    ensures AllMatch(types[..n], values[..n]) && AllZeroFilled(values[..n]) && AllFindable(file, pool, values[..n])
    ensures Matches(types[n], values[n]) && ZeroFilled(values[n]) && Findable(file, pool, values[n])
  {
    hide Matches, ZeroFilled, Findable;
    InitMatches(types, values, n);
    assert forall i :: 0 <= i < n ==> values[..n][i] == values[i];
  }

  lemma RecordPlace(file: seq<byte>, little: bool, types: seq<FieldType>, values: seq<Value>, at: nat, n: nat)
    requires AllMatch(types, values) && n + 1 == |types|
    requires at + TotalSize(types) <= |file| && file[at..at + TotalSize(types)] == RecordBytes(little, types, values)
    ensures var init := TotalSize(types[..n]);
            && at + init + types[n].size <= |file| && file[at..at + init] == RecordBytes(little, types[..n], values[..n])
            && file[at + init..at + init + types[n].size] == FieldBytes(little, types[n], values[n])
  {
    hide FieldBytes, Matches;
    InitMatches(types, values, n);
    RecordLength(little, types[..n], values[..n]);
    assert TotalSize(types) == TotalSize(types[..n]) + types[n].size;
    assert RecordBytes(little, types, values) == RecordBytes(little, types[..n], values[..n]) + FieldBytes(little, types[n], values[n]);
    SplitSlice(file, at, RecordBytes(little, types[..n], values[..n]), FieldBytes(little, types[n], values[n]));
  }

  lemma RecordLast(file: seq<byte>, little: bool, types: seq<FieldType>, at: nat, pool: nat, n: nat, rest: seq<Value>, v: Value)
    requires n + 1 == |types| && RecordAt(file, little, types[..n], at, pool) == Some(rest)
    requires FieldAt(file, little, types[n], at + TotalSize(types[..n]), pool) == Some(v)
    ensures RecordAt(file, little, types, at, pool) == Some(rest + [v])
  {
    hide FieldAt, TotalSize;
  }

  lemma UnplacedLast(vs: seq<Value>, n: nat)
    requires n + 1 == |vs|
    ensures UnplacedAll(vs) == UnplacedAll(vs[..n]) + [Unplaced(vs[n])]
  {
    hide Unplaced;
  }

  lemma NoRecord(file: seq<byte>, little: bool, types: seq<FieldType>, values: seq<Value>, at: nat, pool: nat)
    requires types == [] && values == []
    ensures RecordAt(file, little, types, at, pool) == Some(UnplacedAll(values))
  {
  }

  /** A record is read back as it was written, its strings without offsets. */
  lemma {:induction false} RecordBack(file: seq<byte>, little: bool, types: seq<FieldType>, values: seq<Value>, at: nat, pool: nat)
    requires AllMatch(types, values) && AllZeroFilled(values) && AllFindable(file, pool, values)
    requires at + TotalSize(types) <= |file| && file[at..at + TotalSize(types)] == RecordBytes(little, types, values)
    ensures RecordAt(file, little, types, at, pool) == Some(UnplacedAll(values))
  {
    hide FieldAt, FieldBytes, Matches, ZeroFilled, Findable, Unplaced, AllZeroFilled, AllFindable, TotalSize, RecordBytes, RecordAt, UnplacedAll;
    if types != [] {
      var n := |types| - 1;
      RecordParts(file, types, values, pool, n);
      RecordPlace(file, little, types, values, at, n);
      RecordBack(file, little, types[..n], values[..n], at, pool);
      FieldBack(file, little, types[n], values[n], at + TotalSize(types[..n]), pool);
      RecordLast(file, little, types, at, pool, n, UnplacedAll(values[..n]), Unplaced(values[n]));
      UnplacedLast(values, n);
    } else {
      NoRecord(file, little, types, values, at, pool);
    }
  }
}
