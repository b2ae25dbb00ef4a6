/** The line-oriented text of a GBNL table: exporting strings under ids and reading them back. */
module GbnlText {
  import opened Bytes
  import opened Pools
  import opened Descriptors
  import opened GbnlCodec

  // ---- separators and numbers

  function Repeat(unit: seq<byte>, n: nat): (r: seq<byte>)
    ensures |r| == n * |unit|
    ensures n > 0 ==> r[..|unit|] == unit
    ensures forall x {:trigger x in r} :: x in r ==> x in unit
  {
    if n == 0 then [] else unit + Repeat(unit, n - 1)
  }

  function SepSjis(): seq<byte> { Repeat([0x81, 0x5c], 40) + [32] }

  function SepUtf8(): seq<byte> { Repeat([0xe2, 0x80, 0x95], 40) + [32] }

  function Separator(utf8: bool): seq<byte> { if utf8 then SepUtf8() else SepSjis() }

  /** How much of a line its separator takes, if it starts with one. */
  function SepLength(line: seq<byte>): Option<nat> {
    if SepSjis() <= line then Some(|SepSjis()|) else if SepUtf8() <= line then Some(|SepUtf8()|) else None
  }

  lemma {:induction false} SeparatorPlain(utf8: bool, rest: seq<byte>)
    ensures 10 !in Separator(utf8) && 13 !in Separator(utf8) && |Separator(utf8)| > 0
    ensures SepLength(Separator(utf8) + rest) == Some(|Separator(utf8)|)
  {
    hide Repeat;
    var line := Separator(utf8) + rest;
    assert Separator(utf8) <= line;
    assert SepUtf8()[0] == 0xe2 by {
      assert SepUtf8()[0] == Repeat([0xe2, 0x80, 0x95], 40)[..3][0];
    }
    assert SepSjis()[0] == 0x81 by {
      assert SepSjis()[0] == Repeat([0x81, 0x5c], 40)[..2][0];
    }
  }

  function Digits(n: nat): (r: seq<byte>)
    ensures |r| > 0
    ensures forall i {:trigger r[i]} :: 0 <= i < |r| ==> 48 <= r[i] < 58
  {
    if n < 10 then [48 + n] else Digits(n / 10) + [48 + n % 10]
  }

  function IntBytes(z: int): (r: seq<byte>)
    ensures |r| > 0 && forall i {:trigger r[i]} :: 0 <= i < |r| ==> r[i] == 45 || 48 <= r[i] < 58
  {
    if z < 0 then [45] + Digits(-z) else Digits(z)
  }

  predicate IsDigit(b: byte) { 48 <= b < 58 }

  predicate IsSpace(b: byte) { b == 32 || 9 <= b <= 13 }

  /** The number at the start of some text, read digit by digit. */
  function ReadDigits(s: seq<byte>, acc: nat): int {
    if s == [] || !IsDigit(s[0]) then acc else ReadDigits(s[1..], 10 * acc + (s[0] - 48))
  }

  function ReadInt(s: seq<byte>): int {
    if s == [] then 0
    else if IsSpace(s[0]) then ReadInt(s[1..])
    else if s[0] == 45 then -ReadDigits(s[1..], 0)
    else if s[0] == 43 then ReadDigits(s[1..], 0)
    else ReadDigits(s, 0)
  }

  /** strtol into a 64-bit number, then to 32 bits. */
  function ReadId(s: seq<byte>): int {
    var z := ReadInt(s);
    ToInt32(if z > 0x7fff_ffff_ffff_ffff then 0x7fff_ffff_ffff_ffff else if z < -0x8000_0000_0000_0000 then -0x8000_0000_0000_0000 else z)
  }

  /** Conversion to a signed 32-bit number. */
  function ToInt32(z: int): (r: int)
    ensures -0x8000_0000 <= r < 0x8000_0000
    ensures -0x8000_0000 <= z < 0x8000_0000 ==> r == z
  {
    (z + 0x8000_0000) % 0x1_0000_0000 - 0x8000_0000
  }

  predicate DigitsEnd(rest: seq<byte>) {
    rest == [] || !IsDigit(rest[0])
  }

  lemma {:induction false} DigitsRead(n: nat, rest: seq<byte>, acc: nat) returns (scale: nat)
    ensures ReadDigits(Digits(n) + rest, acc) == ReadDigits(rest, acc * scale + n)
    ensures scale > 0
  {
    if n < 10 {
      scale := 10;
      assert (Digits(n) + rest)[1..] == rest;
    } else {
      var last: seq<byte> := [48 + n % 10];
      var s := DigitsRead(n / 10, last + rest, acc);
      scale := 10 * s;
      assert Digits(n) + rest == Digits(n / 10) + (last + rest);
      assert (last + rest)[1..] == rest;
      assert 10 * (acc * s + n / 10) + n % 10 == acc * scale + n;
    }
  }

  /** A 32-bit number in front of something else is read back. */
  lemma {:induction false} IdBack(z: int, rest: seq<byte>)
    requires -0x8000_0000 <= z < 0x8000_0000 && DigitsEnd(rest)
    ensures ReadId(IntBytes(z) + rest) == z
  {
    hide Digits, ReadDigits, ToInt32;
    var s := IntBytes(z) + rest;
    var n: nat := if z < 0 then -z else z;
    var scale := DigitsRead(n, rest, 0);
    NoDigits(rest, n);
    if z < 0 {
      assert s[1..] == Digits(n) + rest;
    } else {
      assert s[0] == Digits(n)[0];
    }
  }

  lemma {:induction false} NoDigits(rest: seq<byte>, acc: nat)
    requires DigitsEnd(rest)
    ensures ReadDigits(rest, acc) == acc
  {
  }

  // ---- ids

  /** Bits read as a signed 32-bit number. */
  function Signed(v: Value): int {
    if v.Num? then ToInt32(v.value) else 0
  }

  /** The number of strings among the first fields of a message. */
  function LiveBefore(m: seq<Value>, i: nat): nat
    requires i <= |m|
  {
    if i == 0 then 0 else LiveBefore(m, i - 1) + if Live(m[i - 1]) then 1 else 0
  }

  /** The id a field is exported under; numbers, padding and missing strings have none. */
  function GetId(simple: bool, t: Table, j: nat, i: nat): Option<int>
    requires j < |t.messages| && |t.messages[j]| == |t.types| && i < |t.types|
  {
    var m := t.messages[j];
    var k := if t.types[i].kind == String then LiveBefore(m, i) + 1 else if t.flags != 0 && t.field28 != 1 then 10000 else 0;
    if t.types[i].kind != FixString && !(t.types[i].kind == String && Live(m[i])) then None
    else if simple then Some(ToInt32(i + j * 1000))
    else if !t.isGstl && t.types[0].kind == Int32 && ((i == 8 && |t.types| == 9) || (i == 105 && |t.types| == 107)) then Some(Signed(m[0]))
    else if t.isGstl && |t.types| == 3 && t.types[1].kind == Int32 then Some(Signed(m[1]) + if i == 0 then 100000 else 0)
    else Some(ToInt32(k * 10000 + j))
  }

  /** The first field of a message with an id, from field `i` on. */
  function FindField(t: Table, id: int, j: nat, i: nat): (r: Option<nat>)
    requires j < |t.messages| && |t.messages[j]| == |t.types| && i <= |t.types|
    ensures r.Some? ==> r.value < |t.types| && GetId(false, t, j, r.value) == Some(id)
    decreases |t.types| - i
  {
    if i == |t.types| then None
    else if GetId(false, t, j, i) == Some(id) then Some(i)
    else FindField(t, id, j, i + 1)
  }

  predicate AllRows(t: Table) {
    forall j {:trigger t.messages[j]} :: 0 <= j < |t.messages| ==> |t.messages[j]| == |t.types|
  }

  /** The message and field with an id: messages are searched from `index` on, round the end. */
  function FindFrom(t: Table, id: int, index: nat, n: nat): (r: Option<(nat, nat)>)
    requires AllRows(t) && n <= |t.messages|
    ensures r.Some? ==> r.value.0 < |t.messages| && r.value.1 < |t.types| && GetId(false, t, r.value.0, r.value.1) == Some(id)
    decreases |t.messages| - n
  {
    if n == |t.messages| then None
    else
      var j := (index + n) % |t.messages|;
      var f := FindField(t, id, j, 0);
      if f.Some? then Some((j, f.value)) else FindFrom(t, id, index, n + 1)
  }

  function FindDst(simple: bool, t: Table, id: int, index: nat): (r: Option<(nat, nat)>)
    requires AllRows(t)
    ensures r.Some? ==> r.value.0 < |t.messages| && r.value.1 < |t.types|
  {
    if !simple then FindFrom(t, id, index, 0)
    else if id >= 0 && id / 1000 < |t.messages| && id % 1000 < |t.types| then Some((id / 1000, id % 1000))
    else None
  }

  /** No other field is exported under the id of this one. */
  predicate Sole(t: Table, j: nat, i: nat)
    requires AllRows(t) && j < |t.messages| && i < |t.types|
  {
    forall j', i' {:trigger GetId(false, t, j', i')} :: 0 <= j' < |t.messages| && 0 <= i' < |t.types| && (j', i') != (j, i) ==>
      GetId(false, t, j', i') != GetId(false, t, j, i)
  }

  lemma {:induction false} FindFieldSole(t: Table, j: nat, i: nat, j': nat, i': nat)
    requires AllRows(t) && j < |t.messages| && i < |t.types| && Sole(t, j, i) && GetId(false, t, j, i).Some?
    requires j' < |t.messages| && i' <= |t.types|
    ensures FindField(t, GetId(false, t, j, i).value, j', i') == if j' == j && i' <= i then Some(i) else None
    decreases |t.types| - i'
  {
    if i' < |t.types| {
      FindFieldSole(t, j, i, j', i' + 1);
    }
  }

  /** How many messages the search passes before it comes to message `j`. */
  function Distance(index: nat, j: nat, size: nat): nat
    requires index < size && j < size
  {
    if j >= index then j - index else j + size - index
  }

  lemma {:induction false} RoundTheEnd(index: nat, n: nat, size: nat)
    requires index < size && n < size
    ensures (index + n) % size == if index + n < size then index + n else index + n - size
  {
    if index + n >= size {
      var d, r := (index + n) / size, (index + n) % size;
      assert index + n == d * size + r;
      assert d >= 2 ==> d * size >= 2 * size;
      assert d <= 0 ==> d * size <= 0;
    }
  }

  /** Wherever the search starts, it finds the only field with an id. */
  lemma {:induction false} FindSole(t: Table, j: nat, i: nat, index: nat, n: nat)
    requires AllRows(t) && j < |t.messages| && i < |t.types| && Sole(t, j, i) && GetId(false, t, j, i).Some?
    requires index < |t.messages| && n <= Distance(index, j, |t.messages|)
    ensures FindFrom(t, GetId(false, t, j, i).value, index, n) == Some((j, i))
    decreases Distance(index, j, |t.messages|) - n
  {
    hide GetId, FindField, Sole;
    RoundTheEnd(index, n, |t.messages|);
    FindFieldSole(t, j, i, (index + n) % |t.messages|, 0);
    if n < Distance(index, j, |t.messages|) {
      FindSole(t, j, i, index, n + 1);
    }
  }

  // ---- writing

  /** A line break inside a string is written as two characters. */
  function Exported(str: seq<byte>): seq<byte> {
    if str == [] then [] else (if str[0] == 10 then [13, 10] else [str[0]]) + Exported(str[1..])
  }

  /** The string of an exported field. */
  function TextOf(v: Value): seq<byte> {
    match v
    case Text(str, _) => str
    case Fixed(chars) => var s := CStringIn(chars); if s.None? then chars else s.value
    case _ => []
  }

  function EntryText(utf8: bool, simple: bool, id: int, str: seq<byte>): seq<byte> {
    Separator(utf8) + (if simple then [35] else []) + IntBytes(id) + [13, 10] + Exported(str) + [13, 10]
  }

  function EofLine(utf8: bool): seq<byte> { Separator(utf8) + [69, 79, 70, 13, 10] }

  /** The text from field `i` of message `j` on. */
  function TextFrom(t: Table, utf8: bool, simple: bool, j: nat, i: nat): seq<byte>
    requires AllRows(t) && j <= |t.messages| && i <= |t.types|
    decreases |t.messages| - j, |t.types| - i
  {
    if j == |t.messages| then EofLine(utf8)
    else if i == |t.types| then TextFrom(t, utf8, simple, j + 1, 0)
    else
      var id := GetId(simple, t, j, i);
      (if id.Some? then EntryText(utf8, simple, id.value, TextOf(t.messages[j][i])) else []) + TextFrom(t, utf8, simple, j, i + 1)
  }

  // ---- reading

  /** The first line, without its end, and whether it has one. */
  function LineLength(s: seq<byte>): (n: nat)
    ensures n <= |s| && 10 !in s[..n] && (n < |s| ==> s[n] == 10)
  {
    if s == [] || s[0] == 10 then 0
    else
      var n := LineLength(s[1..]);
      assert s[..n + 1] == [s[0]] + s[1..][..n];
      n + 1
  }

  lemma {:induction false} LineIs(line: seq<byte>, rest: seq<byte>)
    requires 10 !in line
    ensures LineLength(line + [10] + rest) == |line|
  {
    var s := line + [10] + rest;
    if line != [] {
      LineIs(line[1..], rest);
      assert s[1..] == line[1..] + [10] + rest;
      assert s[0] == line[0];
    }
  }

  /** strncpy of a message into a fixed string, which keeps its last byte. */
  function CopyInto(chars: seq<byte>, msg: seq<byte>): seq<byte> {
    if chars == [] then []
    else
      var room := |chars| - 1;
      var s := CStringIn(msg);
      var src := if s.None? then msg else s.value;
      var n := if |src| < room then |src| else room;
      src[..n] + seq(room - n, _ => 0) + [chars[room]]
  }

  /** The reader between two lines: the table so far, where it last found a field, and the lines since. */
  datatype Reader = Reader(t: Table, index: nat, pos: Option<nat>, msg: seq<byte>)

  datatype Step = Fail | Finish(t: Table) | More(r: Reader)

  predicate CanRead(r: Reader) {
    AllRows(r.t) && (r.pos.Some? ==> r.index < |r.t.messages| && r.pos.value < |r.t.types|) && (|r.t.messages| > 0 ==> r.index < |r.t.messages|)
  }

  /** The lines collected, without the last line break. */
  function Collected(msg: seq<byte>): seq<byte> {
    if msg == [] then [] else msg[..|msg| - 1]
  }

  /** Stores the lines collected for a field. */
  function Stored(r: Reader): (o: Option<Table>)
    requires CanRead(r)
    ensures o.Some? ==> AllRows(o.value) && |o.value.messages| == |r.t.messages|
  {
    if r.pos.None? then Some(r.t)
    else
      var v := r.t.messages[r.index][r.pos.value];
      match v
      case Text(_, offset) => Some(WithField(r.t, r.index, r.pos.value, Text(Collected(r.msg), offset)))
      case Fixed(chars) => Some(WithField(r.t, r.index, r.pos.value, Fixed(CopyInto(chars, Collected(r.msg)))))
      case _ => None
  }

  function WithField(t: Table, j: nat, i: nat, v: Value): (r: Table)
    requires AllRows(t) && j < |t.messages| && i < |t.types|
    ensures AllRows(r) && |r.messages| == |t.messages| && r.types == t.types
  {
    t.(messages := t.messages[j := t.messages[j][i := v]])
  }

  function ReadLine(r: Reader, line: seq<byte>): (s: Step)
    requires CanRead(r)
    ensures s.More? ==> CanRead(s.r)
  {
    var sep := SepLength(line);
    if sep.None? then
      if r.pos.None? then Fail
      else More(r.(msg := r.msg + (if line != [] && line[|line| - 1] == 13 then line[..|line| - 1] else line) + [10]))
    else
      var stored := Stored(r);
      if stored.None? then Fail
      else
        var offs := sep.value;
        SepShort(line);
        var rest := line[offs..];
        if [69, 79, 70] <= rest then Finish(stored.value)
        else
          var simple := rest != [] && rest[0] == 35;
          var dst := FindDst(simple, stored.value, ReadId(if simple then rest[1..] else rest), r.index);
          if dst.None? then Fail else More(Reader(stored.value, dst.value.0, Some(dst.value.1), []))
  }

  lemma {:induction false} SepShort(line: seq<byte>)
    ensures SepLength(line).Some? ==> SepLength(line).value <= |line|
  {
  }

  /** Reads lines until the end mark; text that ends before it is refused. */
  function ReadText(r: Reader, s: seq<byte>): Option<Table>
    requires CanRead(r)
    decreases |s|
  {
    var n := LineLength(s);
    match ReadLine(r, s[..n])
    case Fail => None
    case Finish(t) => Some(t)
    case More(next) => if n == |s| then None else ReadText(next, s[n + 1..])
  }

  // ---- the round trip

  /** No line of a string starts with a separator. */
  predicate Plain(str: seq<byte>)
    decreases |str|
  {
    var n := LineLength(str);
    SepLength(str[..n]).None? && (n < |str| ==> Plain(str[n + 1..]))
  }

  lemma {:induction false} ExportedLine(line: seq<byte>)
    requires 10 !in line
    ensures Exported(line) == line
  {
    if line != [] {
      ExportedLine(line[1..]);
    }
  }

  lemma {:induction false} ExportedLines(line: seq<byte>, rest: seq<byte>)
    requires 10 !in line
    ensures Exported(line + [10] + rest) == line + [13, 10] + Exported(rest)
  {
    var s := line + [10] + rest;
    if line == [] {
      assert s[1..] == rest;
    } else {
      ExportedLines(line[1..], rest);
      assert s[0] == line[0] && s[1..] == line[1..] + [10] + rest;
      assert [line[0]] + line[1..] == line;
    }
  }

  /** The line end of the export does not make a separator. */
  lemma {:induction false} SepBeforeCr(line: seq<byte>)
    requires SepLength(line).None?
    ensures SepLength(line + [13]).None?
  {
    hide Repeat;
    PrefixBeforeCr(SepSjis(), line);
    PrefixBeforeCr(SepUtf8(), line);
  }

  lemma {:induction false} PrefixBeforeCr(sep: seq<byte>, line: seq<byte>)
    requires sep != [] && sep[|sep| - 1] == 32
    ensures sep <= line + [13] ==> sep <= line
  {
    var s := line + [13];
    assert s[|line|] == 13;
    if |sep| <= |line| {
      assert s[..|sep|] == line[..|sep|];
    }
  }

  lemma PlainLine(r: Reader, line: seq<byte>)
    requires CanRead(r) && r.pos.Some? && SepLength(line).None?
    ensures ReadLine(r, line + [13]) == More(r.(msg := r.msg + line + [10]))
  {
    hide SepLength, CanRead;
    SepBeforeCr(line);
    assert (line + [13])[..|line|] == line;
    assert r.msg + line + [10] == r.msg + (line + [10]);
  }

  /** One line that is not a separator. */
  lemma {:induction false} ReadPlain(r: Reader, line: seq<byte>, rest: seq<byte>)
    requires CanRead(r) && r.pos.Some? && 10 !in line && SepLength(line).None?
    ensures CanRead(r.(msg := r.msg + line + [10]))
    ensures ReadText(r, line + [13, 10] + rest) == ReadText(r.(msg := r.msg + line + [10]), rest)
  {
    hide SepLength, CanRead, ReadText, ReadLine;
    assert line + [13, 10] + rest == (line + [13]) + [10] + rest;
    SameRead(r, r.(msg := r.msg + line + [10]));
    PlainLine(r, line);
    ReadStep(r, line + [13], r.(msg := r.msg + line + [10]), rest);
  }

  lemma SameRead(r: Reader, q: Reader)
    requires CanRead(r) && q == r.(msg := q.msg)
    ensures CanRead(q)
  {
  }

  lemma PlainParts(str: seq<byte>)
    requires Plain(str)
    ensures var n := LineLength(str); SepLength(str[..n]).None? && (n < |str| ==> Plain(str[n + 1..]) && str == str[..n] + [10] + str[n + 1..])
  {
    hide SepLength, LineLength;
    if LineLength(str) < |str| {
      CutAt(str, LineLength(str));
    }
  }

  lemma CutAt(s: seq<byte>, n: nat)
    requires n < |s|
    ensures s == s[..n] + [s[n]] + s[n + 1..]
  {
  }

  lemma TextLines(line: seq<byte>, more: seq<byte>, rest: seq<byte>)
    requires 10 !in line
    ensures Exported(line + [10] + more) + [13, 10] + rest == line + [13, 10] + (Exported(more) + [13, 10] + rest)
  {
    hide Exported;
    ExportedLines(line, more);
  }

  /** The lines of an exported string put it together again. */
  lemma {:induction false} ReadString(r: Reader, str: seq<byte>, rest: seq<byte>)
    requires CanRead(r) && r.pos.Some? && Plain(str)
    ensures CanRead(r.(msg := r.msg + str + [10]))
    ensures ReadText(r, Exported(str) + [13, 10] + rest) == ReadText(r.(msg := r.msg + str + [10]), rest)
    decreases |str|
  {
    hide ReadText, CanRead, SepLength, Exported, Plain, LineLength;
    PlainParts(str);
    var n := LineLength(str);
    var line := str[..n];
    SameRead(r, r.(msg := r.msg + str + [10]));
    if n == |str| {
      assert line == str;
      ExportedLine(line);
      ReadPlain(r, line, rest);
    } else {
      var more := str[n + 1..];
      TextLines(line, more, rest);
      ReadPlain(r, line, Exported(more) + [13, 10] + rest);
      var next := r.(msg := r.msg + line + [10]);
      ReadString(next, more, rest);
      assert next.msg + more + [10] == r.msg + str + [10];
    }
  }

  /** The line with the id of an entry. */
  function IdLine(utf8: bool, simple: bool, id: int): seq<byte> {
    Separator(utf8) + (if simple then [35] else []) + IntBytes(id) + [13]
  }

  lemma {:induction false} IdLineParts(utf8: bool, simple: bool, id: int)
    requires -0x8000_0000 <= id < 0x8000_0000
    ensures var line, n := IdLine(utf8, simple, id), |Separator(utf8)|;
            && 10 !in line && SepLength(line) == Some(n) && n < |line|
            && !([69, 79, 70] <= line[n..]) && (line[n] == 35 <==> simple)
            && ReadId(line[n + (if simple then 1 else 0)..]) == id
  {
    hide Separator, SepLength, ReadId, IntBytes;
    var mark: seq<byte> := if simple then [35] else [];
    var tail := mark + (IntBytes(id) + [13]);
    var line, n := IdLine(utf8, simple, id), |Separator(utf8)|;
    assert line == Separator(utf8) + tail;
    SeparatorPlain(utf8, tail);
    assert line[n..] == tail && tail[|mark|..] == IntBytes(id) + [13];
    assert line[n + |mark|..] == tail[|mark|..];
    IdBack(id, [13]);
    assert tail[0] == if simple then 35 else IntBytes(id)[0];
    assert 10 !in IntBytes(id);
    assert line[n] == tail[0];
  }

  /** A separator line stores what was collected and turns to another field. */
  lemma ReadTurn(r: Reader, t: Table, line: seq<byte>, n: nat, j: nat, i: nat)
    requires CanRead(r) && Stored(r) == Some(t) && AllRows(t) && SepLength(line) == Some(n) && n < |line|
    requires var rest := line[n..]; var simple := rest[0] == 35;
             !([69, 79, 70] <= rest) && FindDst(simple, t, ReadId(if simple then rest[1..] else rest), r.index) == Some((j, i))
    ensures ReadLine(r, line) == More(Reader(t, j, Some(i), []))
  {
    hide FindDst, Stored, SepLength, ReadId, CanRead;
  }

  /** An id line stores what was collected and turns to the field with the id. */
  lemma {:induction false} ReadIdLine(r: Reader, t: Table, utf8: bool, simple: bool, id: int, j: nat, i: nat)
    requires CanRead(r) && Stored(r) == Some(t) && -0x8000_0000 <= id < 0x8000_0000
    requires AllRows(t) && FindDst(simple, t, id, r.index) == Some((j, i))
    ensures ReadLine(r, IdLine(utf8, simple, id)) == More(Reader(t, j, Some(i), []))
  {
    hide FindDst, Stored, SepLength, ReadId, CanRead, IdLine, ReadLine, Separator;
    IdLineParts(utf8, simple, id);
    var line, n := IdLine(utf8, simple, id), |Separator(utf8)|;
    Dropped(line, n);
    ReadTurn(r, t, line, n, j, i);
  }

  lemma Dropped(line: seq<byte>, n: nat)
    requires n < |line|
    ensures line[n..][0] == line[n] && line[n..][1..] == line[n + 1..]
  {
  }

  /** One line of the text. */
  lemma ReadStep(r: Reader, line: seq<byte>, next: Reader, rest: seq<byte>)
    requires CanRead(r) && 10 !in line && ReadLine(r, line) == More(next)
    ensures CanRead(next) && ReadText(r, line + [10] + rest) == ReadText(next, rest)
  {
    hide ReadLine, CanRead;
    var s := line + [10] + rest;
    LineIs(line, rest);
    assert s[..|line|] == line && s[|line| + 1..] == rest;
  }

  lemma EntryParts(utf8: bool, simple: bool, id: int, str: seq<byte>, rest: seq<byte>)
    ensures EntryText(utf8, simple, id, str) + rest == IdLine(utf8, simple, id) + [10] + (Exported(str) + [13, 10] + rest)
  {
    hide Separator, IntBytes, Exported;
    var sep, mark, ids := Separator(utf8), if simple then [35] else [], IntBytes(id);
    assert sep + mark + ids + [13, 10] == sep + mark + ids + [13] + [10];
  }

  /** An entry: its id line and its lines. */
  lemma {:induction false} ReadEntry(r: Reader, t: Table, utf8: bool, simple: bool, id: int, str: seq<byte>, j: nat, i: nat, rest: seq<byte>)
    requires CanRead(r) && Stored(r) == Some(t) && -0x8000_0000 <= id < 0x8000_0000 && Plain(str)
    requires AllRows(t) && FindDst(simple, t, id, r.index) == Some((j, i))
    ensures CanRead(Reader(t, j, Some(i), str + [10]))
    ensures ReadText(r, EntryText(utf8, simple, id, str) + rest) == ReadText(Reader(t, j, Some(i), str + [10]), rest)
  {
    hide FindDst, Stored, SepLength, Plain, ReadLine, ReadText, EntryText, IdLine, CanRead, ReadId, Separator;
    var tail, next := Exported(str) + [13, 10] + rest, Reader(t, j, Some(i), []);
    EntryParts(utf8, simple, id, str, rest);
    IdLineParts(utf8, simple, id);
    ReadIdLine(r, t, utf8, simple, id, j, i);
    ReadStep(r, IdLine(utf8, simple, id), next, tail);
    ReadString(next, str, rest);
    assert [] + str + [10] == str + [10];
  }

  lemma {:induction false} ReadEnd(r: Reader, t: Table, utf8: bool)
    requires CanRead(r) && Stored(r) == Some(t)
    ensures ReadText(r, EofLine(utf8)) == Some(t)
  {
    hide Stored, SepLength, Separator, CanRead;
    var line: seq<byte> := Separator(utf8) + [69, 79, 70, 13];
    SeparatorPlain(utf8, [69, 79, 70, 13]);
    assert EofLine(utf8) == line + [10] + [];
    LineIs(line, []);
    assert EofLine(utf8)[..|line|] == line;
    assert line[|Separator(utf8)|..] == [69, 79, 70, 13];
  }

  /** A zero-filled fixed string keeps its bytes when its own text is copied into it. */
  lemma {:induction false} CopyOwn(chars: seq<byte>)
    requires chars != [] && FixedBytes(chars) == chars
    ensures CopyInto(chars, TextOf(Fixed(chars))) == chars
  {
    hide CStringIn;
    var room := |chars| - 1;
    var body := chars[..room];
    assert chars == body + [0];
    var str := TextOf(Fixed(chars));
    if CStringIn(body).Some? {
      CStringAhead(body, [0]);
    } else {
      CStringFound(body, []);
      assert body + [0] + [] == chars;
    }
    assert CStringIn(str).None?;
    assert str[..|str|] == str;
  }

  /** What export asks of a field so that its text finds the way back. */
  predicate FieldExports(t: Table, simple: bool, j: nat, i: nat)
    requires AllRows(t) && j < |t.messages| && i < |t.types|
  {
    var v := t.messages[j][i];
    && Matches(t.types[i], v) && ZeroFilled(v)
    && (GetId(simple, t, j, i).Some? ==>
         && Plain(TextOf(v)) && -0x8000_0000 <= GetId(simple, t, j, i).value < 0x8000_0000
         && if simple then |t.types| <= 1000 && i + j * 1000 < 0x8000_0000 else Sole(t, j, i))
  }

  predicate Exports(t: Table, simple: bool)
    requires AllRows(t)
  {
    forall j, i {:trigger GetId(simple, t, j, i)} :: 0 <= j < |t.messages| && 0 <= i < |t.types| ==> FieldExports(t, simple, j, i)
  }

  lemma {:induction false} FindOwn(t: Table, simple: bool, j: nat, i: nat, index: nat)
    requires AllRows(t) && j < |t.messages| && i < |t.types| && FieldExports(t, simple, j, i) && GetId(simple, t, j, i).Some?
    requires index < |t.messages|
    ensures FindDst(simple, t, GetId(simple, t, j, i).value, index) == Some((j, i))
  {
    hide Matches, Plain, ZeroFilled;
    if !simple {
      FindSole(t, j, i, index, 0);
    }
  }

  lemma {:induction false} StoreOwn(t: Table, j: nat, i: nat, id: Option<int>, simple: bool)
    requires AllRows(t) && j < |t.messages| && i < |t.types| && FieldExports(t, simple, j, i)
    requires id == GetId(simple, t, j, i) && id.Some?
    ensures Stored(Reader(t, j, Some(i), TextOf(t.messages[j][i]) + [10])) == Some(t)
  {
    hide Plain, Sole, LiveBefore, CopyInto, CStringIn, FixedBytes;
    var v := t.messages[j][i];
    CollectedBack(TextOf(v));
    if v.Fixed? {
      CopyOwn(v.chars);
    }
    SameTable(t, j, i);
  }

  lemma CollectedBack(str: seq<byte>)
    ensures Collected(str + [10]) == str
  {
  }

  lemma SameTable(t: Table, j: nat, i: nat)
    requires AllRows(t) && j < |t.messages| && i < |t.types|
    ensures WithField(t, j, i, t.messages[j][i]) == t
  {
    var v := t.messages[j][i];
    assert t.messages[j][i := v] == t.messages[j] && t.messages[j := t.messages[j]] == t.messages;
  }

  /** Reading the text of a table from a state that stands for the table leaves it as it is, wherever
      the search for ids starts. */
  lemma {:induction false} ReadBack(r: Reader, t: Table, utf8: bool, simple: bool, j: nat, i: nat)
    requires AllRows(t) && Exports(t, simple) && j <= |t.messages| && i <= |t.types|
    requires CanRead(r) && Stored(r) == Some(t)
    ensures ReadText(r, TextFrom(t, utf8, simple, j, i)) == Some(t)
    decreases |t.messages| - j, |t.types| - i
  {
    hide FieldExports, GetId, Stored, ReadText, FindDst, EntryText, EofLine, Plain;
    if j == |t.messages| {
      ReadEnd(r, t, utf8);
    } else if i == |t.types| {
      ReadBack(r, t, utf8, simple, j + 1, 0);
    } else {
      var id := GetId(simple, t, j, i);
      var rest := TextFrom(t, utf8, simple, j, i + 1);
      if id.Some? {
        var str := TextOf(t.messages[j][i]);
        ExportFacts(t, simple, j, i);
        FindOwn(t, simple, j, i, r.index);
        ReadEntry(r, t, utf8, simple, id.value, str, j, i, rest);
        StoreOwn(t, j, i, id, simple);
        ReadBack(Reader(t, j, Some(i), str + [10]), t, utf8, simple, j, i + 1);
      } else {
        assert [] + rest == rest;
        ReadBack(r, t, utf8, simple, j, i + 1);
      }
    }
  }

  lemma ExportFacts(t: Table, simple: bool, j: nat, i: nat)
    requires AllRows(t) && j < |t.messages| && i < |t.types| && FieldExports(t, simple, j, i) && GetId(simple, t, j, i).Some?
    ensures Plain(TextOf(t.messages[j][i])) && -0x8000_0000 <= GetId(simple, t, j, i).value < 0x8000_0000
  {
  }

  /** Exporting and importing leaves every table as it was whose ids are distinct and whose strings have
      no line that starts with a separator; line breaks inside strings come back as they were. */
  lemma {:induction false} TextBack(t: Table, utf8: bool, simple: bool, index: nat)
    requires AllRows(t) && Exports(t, simple) && (|t.messages| > 0 ==> index < |t.messages|)
    ensures ReadText(Reader(t, index, None, []), TextFrom(t, utf8, simple, 0, 0)) == Some(t)
  {
    ReadBack(Reader(t, index, None, []), t, utf8, simple, 0, 0);
  }

  // ---- when ids are distinct

  /** Simple ids are distinct as long as a record has at most a thousand fields. */
  lemma {:induction false} SimpleIdsDistinct(t: Table, j: nat, i: nat, j': nat, i': nat)
    requires AllRows(t) && |t.types| <= 1000 && |t.messages| * 1000 < 0x8000_0000
    requires j < |t.messages| && i < |t.types| && j' < |t.messages| && i' < |t.types|
    requires GetId(true, t, j, i).Some? && GetId(true, t, j, i) == GetId(true, t, j', i')
    ensures j == j' && i == i'
  {
    hide LiveBefore;
    assert i + j * 1000 < 0x8000_0000 && i' + j' * 1000 < 0x8000_0000;
  }

  /** The type of neither of the two games whose ids come out of the record. */
  predicate CountedIds(t: Table) {
    && !(!t.isGstl && |t.types| > 0 && t.types[0].kind == Int32 && (|t.types| == 9 || |t.types| == 107))
    && !(t.isGstl && |t.types| == 3 && t.types[1].kind == Int32)
    && (forall i {:trigger t.types[i]} :: 0 <= i < |t.types| ==> t.types[i].kind != FixString)
  }

  lemma {:induction false} LiveCounts(m: seq<Value>, i: nat, i': nat)
    requires i < i' <= |m|
    ensures LiveBefore(m, i) + (if Live(m[i]) then 1 else 0) <= LiveBefore(m, i') <= i'
    decreases i'
  {
    if i + 1 < i' {
      LiveCounts(m, i, i' - 1);
    } else {
      LiveBound(m, i);
    }
  }

  lemma {:induction false} LiveBound(m: seq<Value>, i: nat)
    requires i <= |m|
    ensures LiveBefore(m, i) <= i
  {
    if i > 0 {
      LiveBound(m, i - 1);
    }
  }

  /** Counted ids are distinct as long as there are fewer than ten thousand messages. */
  lemma {:induction false} CountedIdsDistinct(t: Table, j: nat, i: nat, j': nat, i': nat)
    requires AllRows(t) && CountedIds(t) && |t.messages| <= 10000 && |t.types| < 200000
    requires j < |t.messages| && i < |t.types| && j' < |t.messages| && i' < |t.types|
    requires GetId(false, t, j, i).Some? && GetId(false, t, j, i) == GetId(false, t, j', i')
    ensures j == j' && i == i'
  {
    hide LiveBefore;
    var m, m' := t.messages[j], t.messages[j'];
    assert t.types[i].kind == String && t.types[i'].kind == String;
    LiveBound(m, i);
    LiveBound(m', i');
    var k, k' := LiveBefore(m, i), LiveBefore(m', i');
    assert (k + 1) * 10000 + j == (k' + 1) * 10000 + j';
    assert j == j' && k == k';
    if i < i' {
      LiveCounts(m, i, i');
    } else if i' < i {
      LiveCounts(m, i', i);
    }
  }

  /** Two fixed strings of a message that has no ids of its own share one id: the second is read back
      into the first. */
  lemma {:induction false} FixedIdsClash(t: Table, j: nat, i: nat, i': nat)
    requires AllRows(t) && j < |t.messages| && i < i' < |t.types|
    requires t.types[i].kind == FixString && t.types[i'].kind == FixString
    requires |t.types| != 9 && |t.types| != 107 && |t.types| != 3
    ensures GetId(false, t, j, i).Some? && GetId(false, t, j, i) == GetId(false, t, j, i') && !Sole(t, j, i)
  {
    assert (j, i') != (j, i);
  }
}
