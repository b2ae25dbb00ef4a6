/** The ids and the text of a GBNL table, written out. */
module GbnlIds {
  import opened Bytes
  import opened Pools
  import opened Descriptors
  import opened GbnlCodec
  import opened GbnlText

  // ---- ids

  /** A field whose string is exported: a fixed string, or a string that is not missing. */
  predicate Shown(t: Table, j: nat, i: nat)
    requires AllRows(t) && j < |t.messages| && i < |t.types|
  {
    t.types[i].kind == FixString || (t.types[i].kind == String && t.messages[j][i].Text? && t.messages[j][i].offset != 0xffff_ffff)
  }

  /** A 32-bit number with its highest bit as its sign. */
  function SignedWord(v: Value): int {
    if !v.Num? then 0 else if v.value % 0x1_0000_0000 < 0x8000_0000 then v.value % 0x1_0000_0000 else v.value % 0x1_0000_0000 - 0x1_0000_0000
  }

  /** The 32 bits of a number, signed. */
  predicate Wraps(id: int, n: nat) {
    -0x8000_0000 <= id < 0x8000_0000 && (n - id) % 0x1_0000_0000 == 0
  }

  /** The strings of a message that are not missing, up to one. */
  ghost function StringsTo(m: seq<Value>, i: nat): set<nat>
    requires i < |m|
  {
    set k: nat | k <= i && m[k].Text? && m[k].offset != 0xffff_ffff
  }

  /** The id of an exported field. Simple ids count fields and messages. In a GBIN whose first field is a number, field 8 of 9 and
      field 105 of 107 have that number; in a GSTR of three fields of which the second is a number, they have that number, and
      the first field a hundred thousand more. Other ids count the strings of a message, and the messages. */
  ghost predicate HasId(t: Table, j: nat, i: nat, simple: bool, id: int)
    requires AllRows(t) && j < |t.messages| && i < |t.types|
  {
    var m := t.messages[j];
    Shown(t, j, i) &&
    if simple then Wraps(id, i + 1000 * j)
    else if !t.isGstl && t.types[0].kind == Int32 && ((|t.types| == 9 && i == 8) || (|t.types| == 107 && i == 105)) then id == SignedWord(m[0])
    else if t.isGstl && |t.types| == 3 && t.types[1].kind == Int32 then id == if i == 0 then SignedWord(m[1]) + 100000 else SignedWord(m[1])
    else if t.types[i].kind == String then Wraps(id, 10000 * |StringsTo(m, i)| + j)
    else Wraps(id, if t.flags != 0 && t.field28 != 1 then 100000000 + j else j)
  }

  lemma {:induction false} LiveCounted(m: seq<Value>, i: nat)
    requires i < |m|
    ensures LiveBefore(m, i + 1) == |StringsTo(m, i)|
  {
    if i > 0 {
      LiveCounted(m, i - 1);
      OneMore(m, i);
    } else {
      assert LiveBefore(m, 0) == 0;
      assert StringsTo(m, 0) == if Live(m[0]) then {0} else {};
    }
  }

  lemma OneMore(m: seq<Value>, i: nat)
    requires 0 < i < |m|
    ensures |StringsTo(m, i)| == |StringsTo(m, i - 1)| + if Live(m[i]) then 1 else 0
  {
    var s, here := StringsTo(m, i - 1), StringsTo(m, i);
    assert here == if Live(m[i]) then s + {i} else s;
    assert i !in s;
  }

  lemma SignedIs(v: Value)
    ensures Signed(v) == SignedWord(v)
  {
  }

  lemma WrapsOnce(n: nat, id: int)
    ensures Wraps(id, n) <==> id == ToInt32(n)
  {
  }

  /** Exactly the shown fields have ids, and these. */
  lemma IdMeans(t: Table, j: nat, i: nat, simple: bool, id: int)
    requires AllRows(t) && j < |t.messages| && i < |t.types|
    ensures GetId(simple, t, j, i) == Some(id) <==> HasId(t, j, i, simple, id)
  {
    hide Signed, SignedWord, ToInt32, Wraps, LiveBefore, StringsTo;
    var m := t.messages[j];
    SignedIs(m[0]);
    if |t.types| == 3 {
      SignedIs(m[1]);
    }
    WrapsOnce(i + j * 1000, id);
    LiveCounted(m, i);
    LiveNext(m, i);
    if t.types[i].kind == String {
      WrapsOnce(10000 * |StringsTo(m, i)| + j, id);
    } else {
      WrapsOnce(if t.flags != 0 && t.field28 != 1 then 100000000 + j else j, id);
    }
  }

  lemma LiveNext(m: seq<Value>, i: nat)
    requires i < |m|
    ensures LiveBefore(m, i + 1) == LiveBefore(m, i) + if Live(m[i]) then 1 else 0
  {
  }

  lemma IdShown(t: Table, j: nat, i: nat, simple: bool)
    requires AllRows(t) && j < |t.messages| && i < |t.types|
    ensures GetId(simple, t, j, i).Some? <==> Shown(t, j, i)
  {
  }

  /** A GSTR of three fields of which the second is a number: the first is exported under that number and a hundred thousand,
      the third under the number. */
  lemma IdsOfThree(t: Table, j: nat)
    requires AllRows(t) && j < |t.messages| && t.isGstl && |t.types| == 3 && t.types[1].kind == Int32
    ensures GetId(false, t, j, 0) == if Shown(t, j, 0) then Some(SignedWord(t.messages[j][1]) + 100000) else None
    ensures GetId(false, t, j, 1) == None
    ensures GetId(false, t, j, 2) == if Shown(t, j, 2) then Some(SignedWord(t.messages[j][1])) else None
  {
    SignedIs(t.messages[j][1]);
  }

  /** A GBIN whose first field is a number: the last of nine fields, and the last but one of 107, are exported under it. */
  lemma IdOfRecord(t: Table, j: nat, i: nat)
    requires AllRows(t) && j < |t.messages| && !t.isGstl && ((|t.types| == 9 && i == 8) || (|t.types| == 107 && i == 105)) && t.types[0].kind == Int32
    ensures GetId(false, t, j, i) == if Shown(t, j, i) then Some(SignedWord(t.messages[j][0])) else None
  {
    SignedIs(t.messages[j][0]);
  }

  // ---- the text

  /** Forty dashes and a blank: 81 bytes of Shift-JIS or 121 of UTF-8. */
  function Dashes(utf8: bool): seq<byte> {
    if utf8 then seq(121, k => if k == 120 then 0x20 else if k % 3 == 0 then 0xe2 else if k % 3 == 1 then 0x80 else 0x95)
    else seq(81, k => if k == 80 then 0x20 else if k % 2 == 0 then 0x81 else 0x5c)
  }

  lemma {:induction false} RepeatAt(unit: seq<byte>, n: nat, k: nat)
    requires |unit| > 0 && k < n * |unit|
    ensures Repeat(unit, n)[k] == unit[k % |unit|]
  {
    var u := |unit|;
    if k >= u {
      assert (n - 1) * u == n * u - u;
      RepeatAt(unit, n - 1, k - u);
      OneUnitLess(k, u);
      assert Repeat(unit, n)[k] == Repeat(unit, n - 1)[k - u];
    } else {
      DivMod(k, 0, k, u);
    }
  }

  lemma OneUnitLess(k: nat, u: nat)
    requires 0 < u <= k
    ensures (k - u) % u == k % u
  {
    var q, r := k / u, k % u;
    assert k == q * u + r;
    assert (q - 1) * u == q * u - u;
    DivMod(k - u, q - 1, r, u);
  }

  lemma SeparatorIs(utf8: bool)
    ensures Separator(utf8) == Dashes(utf8)
  {
    hide Repeat;
    var unit: seq<byte> := if utf8 then [0xe2, 0x80, 0x95] else [0x81, 0x5c];
    var sep := Separator(utf8);
    assert sep == Repeat(unit, 40) + [32];
    forall k | 0 <= k < |sep|
      ensures sep[k] == Dashes(utf8)[k]
    {
      if k < 40 * |unit| {
        RepeatAt(unit, 40, k);
      }
    }
  }

  /** The number that decimal digits spell. */
  function Spelled(b: seq<byte>): int {
    if b == [] then 0 else 10 * Spelled(b[..|b| - 1]) + (b[|b| - 1] as int - 0x30)
  }

  /** A number in decimal, without leading zeros. */
  predicate Decimal(b: seq<byte>, n: nat) {
    b != [] && (forall k {:trigger b[k]} :: 0 <= k < |b| ==> 0x30 <= b[k] <= 0x39) && (|b| > 1 ==> b[0] != 0x30) && Spelled(b) == n
  }

  lemma {:induction false} DigitsAre(n: nat)
    ensures Decimal(Digits(n), n)
  {
    var b := Digits(n);
    if n >= 10 {
      DigitsAre(n / 10);
      var front := Digits(n / 10);
      assert b[..|b| - 1] == front;
      assert front[0] != 0x30 by {
        if |front| == 1 {
          assert Spelled(front) == front[0] as int - 0x30 by {
            assert front[..0] == [] && Spelled([]) == 0;
          }
        }
      }
    } else {
      assert b[..0] == [];
    }
  }

  /** Decimal digits, behind a minus sign if the number is negative. */
  lemma IntIs(z: int)
    ensures if z < 0 then IntBytes(z)[0] == 0x2d && Decimal(IntBytes(z)[1..], -z) else Decimal(IntBytes(z), z)
  {
    DigitsAre(if z < 0 then -z else z);
  }

  /** What an entry is, byte by byte: dashes, the mark of simple ids, the id, a line end, the string, a line end. */
  lemma EntryIs(utf8: bool, simple: bool, id: int, str: seq<byte>)
    ensures EntryText(utf8, simple, id, str) ==
              Dashes(utf8) + (if simple then [0x23] else []) + IntBytes(id) + [0x0d, 0x0a] + Exported(str) + [0x0d, 0x0a]
    ensures EofLine(utf8) == Dashes(utf8) + [0x45, 0x4f, 0x46, 0x0d, 0x0a]
  {
    hide Separator, Dashes;
    SeparatorIs(utf8);
  }

  /** The text from field `i` of message `j` on: an entry for every shown field, in order, then the end mark. */
  ghost predicate TextIs(t: Table, utf8: bool, simple: bool, j: nat, i: nat, text: seq<byte>)
    requires AllRows(t) && j <= |t.messages| && i <= |t.types|
    decreases |t.messages| - j, |t.types| - i
  {
    if j == |t.messages| then text == Dashes(utf8) + [0x45, 0x4f, 0x46, 0x0d, 0x0a]
    else if i == |t.types| then TextIs(t, utf8, simple, j + 1, 0, text)
    else if !Shown(t, j, i) then TextIs(t, utf8, simple, j, i + 1, text)
    else
      exists id, rest {:trigger EntryText(utf8, simple, id, TextOf(t.messages[j][i])) + rest} ::
        HasId(t, j, i, simple, id) && text == EntryText(utf8, simple, id, TextOf(t.messages[j][i])) + rest && TextIs(t, utf8, simple, j, i + 1, rest)
  }

  lemma {:induction false} TextMeans(t: Table, utf8: bool, simple: bool, j: nat, i: nat)
    requires AllRows(t) && j <= |t.messages| && i <= |t.types|
    ensures TextIs(t, utf8, simple, j, i, TextFrom(t, utf8, simple, j, i))
    decreases |t.messages| - j, |t.types| - i
  {
    hide GetId, HasId, EntryText, Dashes, Shown, TextOf;
    if j == |t.messages| {
      EntryIs(utf8, simple, 0, []);
    } else if i == |t.types| {
      TextMeans(t, utf8, simple, j + 1, 0);
    } else {
      TextMeans(t, utf8, simple, j, i + 1);
      IdShown(t, j, i, simple);
      var rest := TextFrom(t, utf8, simple, j, i + 1);
      if Shown(t, j, i) {
        var id := GetId(simple, t, j, i).value;
        IdMeans(t, j, i, simple, id);
        assert TextFrom(t, utf8, simple, j, i) == EntryText(utf8, simple, id, TextOf(t.messages[j][i])) + rest;
      } else {
        assert [] + rest == rest;
      }
    }
  }

  /** The entry of a field that may be missing. */
  function EntryOf(t: Table, utf8: bool, j: nat, i: nat, id: int): seq<byte>
    requires AllRows(t) && j < |t.messages| && i < |t.types|
  {
    if Shown(t, j, i) then EntryText(utf8, false, id, TextOf(t.messages[j][i])) else []
  }

  /** The text of a GSTR of three fields of which the second is a number: two entries for every message. */
  function TextOfThree(t: Table, utf8: bool, j: nat): seq<byte>
    requires AllRows(t) && j <= |t.messages| && |t.types| == 3
    decreases |t.messages| - j
  {
    if j == |t.messages| then Dashes(utf8) + [0x45, 0x4f, 0x46, 0x0d, 0x0a]
    else
      var n := SignedWord(t.messages[j][1]);
      EntryOf(t, utf8, j, 0, n + 100000) + EntryOf(t, utf8, j, 2, n) + TextOfThree(t, utf8, j + 1)
  }

  lemma ThreeFields(t: Table, utf8: bool, j: nat)
    requires AllRows(t) && j < |t.messages| && |t.types| == 3
    ensures TextFrom(t, utf8, false, j, 3) == TextFrom(t, utf8, false, j + 1, 0)
    ensures forall i :: 0 <= i < 3 ==>
              var id := GetId(false, t, j, i);
              TextFrom(t, utf8, false, j, i) == (if id.Some? then EntryText(utf8, false, id.value, TextOf(t.messages[j][i])) else []) + TextFrom(t, utf8, false, j, i + 1)
  {
    hide GetId, EntryText, TextOf;
  }

  lemma RowOfThree(t: Table, utf8: bool, j: nat)
    requires AllRows(t) && j < |t.messages| && t.isGstl && |t.types| == 3 && t.types[1].kind == Int32
    ensures TextFrom(t, utf8, false, j, 0) ==
              EntryOf(t, utf8, j, 0, SignedWord(t.messages[j][1]) + 100000) + EntryOf(t, utf8, j, 2, SignedWord(t.messages[j][1])) + TextFrom(t, utf8, false, j + 1, 0)
  {
    hide GetId, EntryText, TextOf, Shown, SignedWord, TextFrom;
    ThreeFields(t, utf8, j);
    IdsOfThree(t, j);
    var a, c, rest := EntryOf(t, utf8, j, 0, SignedWord(t.messages[j][1]) + 100000), EntryOf(t, utf8, j, 2, SignedWord(t.messages[j][1])), TextFrom(t, utf8, false, j + 1, 0);
    assert TextFrom(t, utf8, false, j, 2) == c + rest;
    assert TextFrom(t, utf8, false, j, 1) == [] + (c + rest) == c + rest;
    assert a + (c + rest) == a + c + rest;
  }

  lemma {:induction false} TextOfThreeIs(t: Table, utf8: bool, j: nat)
    requires AllRows(t) && j <= |t.messages| && t.isGstl && |t.types| == 3 && t.types[1].kind == Int32
    ensures TextFrom(t, utf8, false, j, 0) == TextOfThree(t, utf8, j)
    decreases |t.messages| - j
  {
    hide GetId, EntryOf, SignedWord, Dashes;
    if j == |t.messages| {
      EntryIs(utf8, false, 0, []);
    } else {
      TextOfThreeIs(t, utf8, j + 1);
      RowOfThree(t, utf8, j);
    }
  }

  // ---- reading

  /** Field `i` of message `j` is the first with an id, messages counted from `index` on, round the end. */
  ghost predicate FirstWith(t: Table, id: int, index: nat, j: nat, i: nat)
    requires AllRows(t) && j < |t.messages| && i < |t.types| && index < |t.messages|
  {
    && HasId(t, j, i, false, id) && (forall i': nat {:trigger HasId(t, j, i', false, id)} :: i' < i ==> !HasId(t, j, i', false, id))
    && forall j': nat, i': nat {:trigger HasId(t, j', i', false, id)} :: j' < |t.messages| && i' < |t.types| && Distance(index, j', |t.messages|) < Distance(index, j, |t.messages|) ==>
         !HasId(t, j', i', false, id)
  }

  ghost predicate NoneWith(t: Table, id: int)
    requires AllRows(t)
  {
    forall j: nat, i: nat {:trigger HasId(t, j, i, false, id)} :: j < |t.messages| && i < |t.types| ==> !HasId(t, j, i, false, id)
  }

  lemma {:induction false} FirstField(t: Table, id: int, j: nat, i: nat)
    requires AllRows(t) && j < |t.messages| && i <= |t.types|
    ensures FindField(t, id, j, i).Some? ==> i <= FindField(t, id, j, i).value && HasId(t, j, FindField(t, id, j, i).value, false, id)
    ensures forall i': nat {:trigger HasId(t, j, i', false, id)} ::
              i <= i' < (if FindField(t, id, j, i).Some? then FindField(t, id, j, i).value else |t.types|) ==> !HasId(t, j, i', false, id)
    decreases |t.types| - i
  {
    hide GetId, HasId;
    if i < |t.types| {
      IdMeans(t, j, i, false, id);
      FirstField(t, id, j, i + 1);
    }
  }

  lemma {:induction false} FirstFrom(t: Table, id: int, index: nat, n: nat)
    requires AllRows(t) && index < |t.messages| && n <= |t.messages|
    requires forall j: nat, i: nat {:trigger HasId(t, j, i, false, id)} :: j < |t.messages| && i < |t.types| && Distance(index, j, |t.messages|) < n ==> !HasId(t, j, i, false, id)
    ensures match FindFrom(t, id, index, n) case Some(f) => FirstWith(t, id, index, f.0, f.1) case None => NoneWith(t, id)
    decreases |t.messages| - n
  {
    hide GetId, HasId, FindField;
    var size := |t.messages|;
    if n < size {
      RoundTheEnd(index, n, size);
      var j := (index + n) % size;
      FirstField(t, id, j, 0);
      assert Distance(index, j, size) == n;
      if FindField(t, id, j, 0).None? {
        forall j': nat, i: nat | j' < size && i < |t.types| && Distance(index, j', size) < n + 1
          ensures !HasId(t, j', i, false, id)
        {
          if Distance(index, j', size) == n {
            SamePlace(index, j, j', size);
          }
        }
        FirstFrom(t, id, index, n + 1);
      }
    }
  }

  lemma SamePlace(index: nat, j: nat, j': nat, size: nat)
    requires index < size && j < size && j' < size && Distance(index, j, size) == Distance(index, j', size)
    ensures j == j'
  {
  }

  /** Searching for an id finds the first field that has it, and fails exactly if none has. */
  lemma FoundFirst(t: Table, id: int, index: nat)
    requires AllRows(t) && index < |t.messages|
    ensures match FindDst(false, t, id, index) case Some(f) => FirstWith(t, id, index, f.0, f.1) case None => NoneWith(t, id)
  {
    FirstFrom(t, id, index, 0);
  }

  lemma {:induction false} FirstIsFound(t: Table, id: int, index: nat, j: nat, i: nat)
    requires AllRows(t) && j < |t.messages| && i < |t.types| && index < |t.messages| && FirstWith(t, id, index, j, i)
    ensures FindDst(false, t, id, index) == Some((j, i))
  {
    hide HasId, FindFrom;
    FoundFirst(t, id, index);
    var f := FindDst(false, t, id, index);
    assert HasId(t, j, i, false, id);
    var (j', i') := f.value;
    assert HasId(t, j', i', false, id);
    SamePlace(index, j, j', |t.messages|);
  }

  /** What a fixed string holds once a text has been copied into it: the text as far as there is room and up to a zero in it,
      zeros behind it, and its last byte as it was. */
  lemma CopyMeans(chars: seq<byte>, msg: seq<byte>, k: nat)
    requires 0 !in msg && k < |chars|
    ensures |CopyInto(chars, msg)| == |chars|
    ensures CopyInto(chars, msg)[k] == if k == |chars| - 1 then chars[k] else if k < |msg| then msg[k] else 0
  {
    hide CStringIn;
    assert CStringIn(msg).None?;
  }

  /** The value with another string. */
  function WithText(v: Value, str: seq<byte>): Value {
    match v
    case Text(_, offset) => Text(str, offset)
    case Fixed(chars) => Fixed(CopyInto(chars, str))
    case _ => v
  }

  /** Reading the text of one entry changes the first field with its id, and nothing else; an id that no field has is refused. */
  lemma OneEntryRead(t: Table, utf8: bool, id: int, str: seq<byte>)
    requires AllRows(t) && |t.messages| > 0 && -0x8000_0000 <= id < 0x8000_0000 && Plain(str)
    ensures match FindDst(false, t, id, 0)
            case None => NoneWith(t, id)
            case Some(f) =>
              FirstWith(t, id, 0, f.0, f.1) &&
              (t.messages[f.0][f.1].Text? || t.messages[f.0][f.1].Fixed? ==>
                 ReadText(Reader(t, 0, None, []), EntryText(utf8, false, id, str) + EofLine(utf8)) ==
                   Some(t.(messages := t.messages[f.0 := t.messages[f.0][f.1 := WithText(t.messages[f.0][f.1], str)]])))
  {
    hide FindDst, Plain, EntryText, EofLine, HasId, CopyInto, ReadText;
    FoundFirst(t, id, 0);
    var r := Reader(t, 0, None, []);
    if FindDst(false, t, id, 0).Some? {
      var (j, i) := FindDst(false, t, id, 0).value;
      ReadEntry(r, t, utf8, false, id, str, j, i, EofLine(utf8));
      CollectedBack(str);
      var next := Reader(t, j, Some(i), str + [10]);
      var v := t.messages[j][i];
      if v.Text? || v.Fixed? {
        ReadEnd(next, WithField(t, j, i, WithText(v, str)), utf8);
      }
    }
  }

  /** In a table of one message of a GSTR of three strings around a number: the entry under the number changes the third, that
      under a hundred thousand more the first. */
  lemma ThreeRead(t: Table, utf8: bool, n: int, i: nat, str: seq<byte>)
    requires AllRows(t) && |t.messages| == 1 && t.isGstl && |t.types| == 3 && t.types[1].kind == Int32 && n == SignedWord(t.messages[0][1])
    requires (i == 0 || i == 2) && Shown(t, 0, i) && t.types[i].kind == String && Plain(str) && n + 100000 < 0x8000_0000
    ensures ReadText(Reader(t, 0, None, []), EntryText(utf8, false, if i == 0 then n + 100000 else n, str) + EofLine(utf8)) ==
              Some(t.(messages := [t.messages[0][i := Text(str, t.messages[0][i].offset)]]))
  {
    hide Plain, EntryText, EofLine, ReadText, SignedWord, FindDst;
    var id := if i == 0 then n + 100000 else n;
    SignedBelow(t.messages[0][1]);
    assert HasId(t, 0, i, false, id);
    assert forall i': nat :: i' < 3 && i' != i ==> !HasId(t, 0, i', false, id);
    assert FirstWith(t, id, 0, 0, i);
    FirstIsFound(t, id, 0, 0, i);
    OneEntryRead(t, utf8, id, str);
    assert t.messages[0 := t.messages[0][i := Text(str, t.messages[0][i].offset)]] == [t.messages[0][i := Text(str, t.messages[0][i].offset)]];
  }

  lemma SignedBelow(v: Value)
    ensures -0x8000_0000 <= SignedWord(v) < 0x8000_0000
  {
  }

  // ---- a whole text

  /** An entry of a text; the id of a simple one counts messages by the thousand. */
  datatype Entry = Entry(simple: bool, id: int, str: seq<byte>)

  function EntriesText(utf8: bool, es: seq<Entry>): seq<byte> {
    if es == [] then EofLine(utf8) else EntryText(utf8, es[0].simple, es[0].id, es[0].str) + EntriesText(utf8, es[1..])
  }

  /** The id of an entry leads to a field. */
  ghost predicate Leads(t: Table, e: Entry, index: nat, j: nat, i: nat)
    requires AllRows(t)
  {
    && j < |t.messages| && i < |t.types| && index < |t.messages|
    && if e.simple then e.id == 1000 * j + i && i < 1000 else FirstWith(t, e.id, index, j, i)
  }

  /** The entries are stored one after the other, each in the field its id leads to from the message of the one before. */
  ghost predicate Imports(t: Table, index: nat, es: seq<Entry>, t': Table)
    requires AllRows(t)
    decreases |es|
  {
    if es == [] then t' == t
    else
      exists j: nat, i: nat :: Leads(t, es[0], index, j, i) && (t.messages[j][i].Text? || t.messages[j][i].Fixed?) &&
        Imports(WithField(t, j, i, WithText(t.messages[j][i], es[0].str)), j, es[1..], t')
  }

  predicate Readable(es: seq<Entry>) {
    forall k {:trigger es[k]} :: 0 <= k < |es| ==> -0x8000_0000 <= es[k].id < 0x8000_0000 && Plain(es[k].str)
  }

  lemma {:induction false} LeadsFound(t: Table, e: Entry, index: nat, j: nat, i: nat)
    requires AllRows(t) && (|t.messages| > 0 ==> index < |t.messages|)
    ensures Leads(t, e, index, j, i) <==> FindDst(e.simple, t, e.id, index) == Some((j, i))
  {
    hide FirstWith, FindFrom;
    if !e.simple && |t.messages| > 0 {
      FoundFirst(t, e.id, index);
      if Leads(t, e, index, j, i) {
        FirstIsFound(t, e.id, index, j, i);
      }
    } else if !e.simple {
      NoMessages(t, e.id, index);
    }
  }

  lemma NoMessages(t: Table, id: int, index: nat)
    requires |t.messages| == 0
    ensures FindFrom(t, id, index, 0) == None
  {
  }

  /** A separator line fails if what was collected cannot be stored, or if its id leads nowhere. */
  lemma {:induction false} EntryFails(r: Reader, utf8: bool, e: Entry, rest: seq<byte>)
    requires CanRead(r) && -0x8000_0000 <= e.id < 0x8000_0000
    requires Stored(r).None? || FindDst(e.simple, Stored(r).value, e.id, r.index).None?
    ensures ReadText(r, EntryText(utf8, e.simple, e.id, e.str) + rest) == None
  {
    hide FindDst, Stored, SepLength, ReadId, IdLine, Separator, CanRead, Exported, EntryText;
    var line, tail := IdLine(utf8, e.simple, e.id), Exported(e.str) + [13, 10] + rest;
    EntryParts(utf8, e.simple, e.id, e.str, rest);
    IdLineParts(utf8, e.simple, e.id);
    Dropped(line, |Separator(utf8)|);
    assert ReadLine(r, line) == Fail;
    hide ReadLine;
    var s := line + [10] + tail;
    LineIs(line, tail);
    assert s[..|line|] == line;
  }

  lemma {:induction false} EndFails(r: Reader, utf8: bool)
    requires CanRead(r) && Stored(r).None?
    ensures ReadText(r, EofLine(utf8)) == None
  {
    hide Stored, SepLength, Separator, CanRead;
    var line: seq<byte> := Separator(utf8) + [69, 79, 70, 13];
    SeparatorPlain(utf8, [69, 79, 70, 13]);
    assert EofLine(utf8) == line + [10] + [];
    LineIs(line, []);
    assert EofLine(utf8)[..|line|] == line;
  }

  lemma StuckEntries(r: Reader, utf8: bool, es: seq<Entry>)
    requires CanRead(r) && Stored(r).None? && Readable(es)
    ensures ReadText(r, EntriesText(utf8, es)) == None
  {
    hide Stored, ReadText, EofLine, EntryText, CanRead, Plain;
    if es == [] {
      EndFails(r, utf8);
    } else {
      EntryFails(r, utf8, es[0], EntriesText(utf8, es[1..]));
    }
  }

  lemma StoresText(t: Table, j: nat, i: nat, str: seq<byte>)
    requires AllRows(t) && j < |t.messages| && i < |t.types|
    ensures var v, r := t.messages[j][i], Reader(t, j, Some(i), str + [10]);
            CanRead(r) && Stored(r) == if v.Text? || v.Fixed? then Some(WithField(t, j, i, WithText(v, str))) else None
  {
    hide CopyInto;
    CollectedBack(str);
  }

  /** A text of entries is accepted exactly if all its ids lead to strings, and stores them there. */
  lemma {:induction false} EntriesRead(r: Reader, t: Table, utf8: bool, es: seq<Entry>, t': Table)
    requires CanRead(r) && Stored(r) == Some(t) && AllRows(t) && Readable(es)
    ensures ReadText(r, EntriesText(utf8, es)) == Some(t') <==> Imports(t, r.index, es, t')
    decreases |es|
  {
    hide Stored, ReadText, EofLine, EntryText, Plain, FindDst, Leads, WithText, WithField;
    if es == [] {
      ReadEnd(r, t, utf8);
    } else {
      var e, rest := es[0], es[1..];
      var dst := FindDst(e.simple, t, e.id, r.index);
      forall j: nat, i: nat
        ensures Leads(t, e, r.index, j, i) <==> dst == Some((j, i))
      {
        StoredMessages(r);
        LeadsFound(t, e, r.index, j, i);
      }
      if dst.None? {
        EntryFails(r, utf8, e, EntriesText(utf8, rest));
      } else {
        var (j, i) := dst.value;
        ReadEntry(r, t, utf8, e.simple, e.id, e.str, j, i, EntriesText(utf8, rest));
        StoresText(t, j, i, e.str);
        var v, next := t.messages[j][i], Reader(t, j, Some(i), e.str + [10]);
        if v.Text? || v.Fixed? {
          EntriesRead(next, WithField(t, j, i, WithText(v, e.str)), utf8, rest, t');
        } else {
          StuckEntries(next, utf8, rest);
        }
      }
    }
  }

  lemma StoredMessages(r: Reader)
    requires CanRead(r) && Stored(r).Some?
    ensures |Stored(r).value.messages| == |r.t.messages| && (|r.t.messages| > 0 ==> r.index < |r.t.messages|)
  {
  }

  /** What a table becomes by a text: if it is a text of entries, the table with those stored, or none if an id leads nowhere. */
  ghost predicate TextTaken(t: Table, text: seq<byte>, r: Option<Table>)
    requires AllRows(t)
  {
    forall utf8, es {:trigger EntriesText(utf8, es)} :: Readable(es) && text == EntriesText(utf8, es) ==>
      if r.Some? then Imports(t, 0, es, r.value) else forall t' :: !Imports(t, 0, es, t')
  }

  lemma TextRead(t: Table, text: seq<byte>)
    requires AllRows(t)
    ensures TextTaken(t, text, ReadText(Reader(t, 0, None, []), text))
  {
    hide ReadText, EntriesText, Imports, Plain;
    var r := Reader(t, 0, None, []);
    var o := ReadText(r, text);
    forall utf8, es | Readable(es) && text == EntriesText(utf8, es)
      ensures if o.Some? then Imports(t, 0, es, o.value) else forall t' :: !Imports(t, 0, es, t')
    {
      forall t'
        ensures o == Some(t') <==> Imports(t, 0, es, t')
      {
        EntriesRead(r, t, utf8, es, t');
      }
    }
  }

  // ---- strings in the text

  /** Strings are copied into the text byte by byte, a line break as two bytes. */
  lemma {:induction false} ExportedIs(a: seq<byte>, c: byte)
    ensures Exported([]) == []
    ensures Exported(a + [c]) == Exported(a) + (if c == 0x0a then [0x0d, 0x0a] else [c])
  {
    if a != [] {
      ExportedIs(a[1..], c);
      assert (a + [c])[1..] == a[1..] + [c];
    } else {
      assert a + [c] == [c] && [c][1..] == [];
    }
  }

  /** A fixed string is exported up to its first zero. */
  lemma TextOfIs(chars: seq<byte>)
    ensures var s := TextOf(Fixed(chars)); s <= chars && 0 !in s && (|s| == |chars| || chars[|s|] == 0)
  {
    hide CStringIn;
    var s := CStringIn(chars);
    assert s.None? ==> chars <= chars;
  }
}
