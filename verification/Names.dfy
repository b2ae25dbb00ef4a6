/** The names given to labels that are created during disassembly. */
module Names {
  import opened Bytes

  function Digit(d: nat): char
    requires d < 16
  {
    "0123456789abcdef"[d]
  }

  function Decimal(n: nat): (s: string)
    ensures |s| > 0
  {
    if n < 10 then [Digit(n)] else Decimal(n / 10) + [Digit(n % 10)]
  }

  /** Hexadecimal digits, zero-filled to `width`. */
  function Hex(n: nat, width: nat): string {
    (if n < 16 && width <= 1 then [] else Hex(n / 16, if width == 0 then 0 else width - 1)) + [Digit(n % 16)]
  }

  function LocName(pos: nat): string {
    "loc_" + Hex(pos, 8)
  }

  predicate IsAlnum(b: byte) {
    48 <= b < 58 || 65 <= b < 91 || 97 <= b < 123
  }

  /** Up to 16 characters: the alphanumeric ones, with one underscore for each run of others. */
  function Stem(str: seq<byte>, lastValid: bool, room: nat): string {
    if str == [] || room == 0 then ""
    else if IsAlnum(str[0]) then [str[0] as char] + Stem(str[1..], true, room - 1)
    else if lastValid then "_" + Stem(str[1..], false, room - 1)
    else Stem(str[1..], false, room)
  }

  function StringName(str: seq<byte>): string {
    "str_" + Stem(str, false, 16)
  }

  /** The `i`-th name tried for a label: the name itself, then name_1, name_2, ... */
  function Variant(name: string, i: nat): string {
    if i == 0 then name else name + "_" + Decimal(i)
  }

  /** The first variant of a name that is not used yet. */
  ghost predicate FirstFree(l: string, name: string, used: set<string>) {
    l !in used && exists i: nat :: l == Variant(name, i) && forall j: nat :: j < i ==> Variant(name, j) in used
  }

  lemma IsFirst(l: string, name: string, used: set<string>, i: nat)
    requires l !in used && l == Variant(name, i) && forall j :: 0 <= j < i ==> Variant(name, j) in used
    ensures FirstFree(l, name, used)
  {
  }

  lemma DigitInjective(a: nat, b: nat)
    requires a < 10 && b < 10 && Digit(a) == Digit(b)
    ensures a == b
  {
    assert forall d: nat :: d < 10 ==> Digit(d) as int == 48 + d;
  }

  lemma DecimalLast(n: nat)
    ensures Decimal(n)[|Decimal(n)| - 1] == Digit(n % 10)
    ensures Decimal(n)[..|Decimal(n)| - 1] == if n < 10 then [] else Decimal(n / 10)
  {
  }

  lemma {:induction false} DecimalInjective(m: nat, n: nat)
    requires Decimal(m) == Decimal(n)
    ensures m == n
  {
    DecimalLast(m);
    DecimalLast(n);
    DigitInjective(m % 10, n % 10);
    if m >= 10 && n >= 10 {
      DecimalInjective(m / 10, n / 10);
    }
  }

  lemma VariantInjective(name: string, i: nat, j: nat)
    requires Variant(name, i) == Variant(name, j)
    ensures i == j
  {
    if i != 0 && j != 0 {
      assert Decimal(i) == Variant(name, i)[|name| + 1..];
      assert Decimal(j) == Variant(name, j)[|name| + 1..];
      DecimalInjective(i, j);
    }
  }

  /** The first `n` variants are `n` different names. */
  lemma {:induction false} UsedVariants(used: set<string>, name: string, n: nat)
    requires forall j :: 0 <= j < n ==> Variant(name, j) in used
    ensures n <= |used|
  {
    if n > 0 {
      forall j | 0 <= j < n - 1
        ensures Variant(name, j) in used - {Variant(name, n - 1)}
      {
        if Variant(name, j) == Variant(name, n - 1) {
          VariantInjective(name, j, n - 1);
        }
      }
      UsedVariants(used - {Variant(name, n - 1)}, name, n - 1);
    }
  }

  // ---- what the names say

  function DigitValue(c: char): int {
    if '0' <= c <= '9' then c as int - '0' as int else c as int - 'a' as int + 10
  }

  /** The number that digits spell. */
  function SpelledIn(base: nat, s: string): int {
    if s == "" then 0 else base * SpelledIn(base, s[..|s| - 1]) + DigitValue(s[|s| - 1])
  }

  predicate AllDigits(base: nat, s: string) {
    forall k {:trigger s[k]} :: 0 <= k < |s| ==> ('0' <= s[k] <= '9' || 'a' <= s[k] <= 'f') && DigitValue(s[k]) < base
  }

  lemma DigitIs(d: nat)
    requires d < 16
    ensures DigitValue(Digit(d)) == d && ('0' <= Digit(d) <= '9' || 'a' <= Digit(d) <= 'f') && (Digit(d) == '0' <==> d == 0)
  {
    assert "0123456789abcdef"[d] == if d < 10 then (d + 48) as char else (d + 87) as char;
  }

  lemma HexOpen(n: nat, width: nat)
    ensures Hex(n, width) == (if n < 16 && width <= 1 then [] else Hex(n / 16, if width == 0 then 0 else width - 1)) + [Digit(n % 16)]
  {
  }

  /** A label is named by its position in hexadecimal, filled up to eight digits. */
  lemma {:induction false} HexIs(n: nat, width: nat)
    ensures var s := Hex(n, width); AllDigits(16, s) && SpelledIn(16, s) == n && |s| >= width && |s| > 0 && (|s| > width && |s| > 1 ==> s[0] != '0')
  {
    hide SpelledIn, AllDigits, Hex;
    HexOpen(n, width);
    if n < 16 && width <= 1 {
      NoDigits(16);
      DigitAdded(16, "", n);
      assert "" + [Digit(n)] == Hex(n, width);
    } else {
      var w := if width == 0 then 0 else width - 1;
      HexIs(n / 16, w);
      DigitAdded(16, Hex(n / 16, w), n % 16);
      if |Hex(n / 16, w)| == 1 {
        OneDigit(16, Hex(n / 16, w));
      }
    }
  }

  lemma NoDigits(base: nat)
    ensures AllDigits(base, "") && SpelledIn(base, "") == 0
  {
  }

  lemma DigitAdded(base: nat, s: string, d: nat)
    requires AllDigits(base, s) && d < 16 && d < base
    ensures AllDigits(base, s + [Digit(d)]) && SpelledIn(base, s + [Digit(d)]) == base * SpelledIn(base, s) + d
  {
    hide Digit, DigitValue;
    DigitIs(d);
    assert (s + [Digit(d)])[..|s|] == s;
  }

  /** A single digit that is not 0 does not spell 0. */
  lemma OneDigit(base: nat, s: string)
    requires |s| == 1 && AllDigits(base, s)
    ensures SpelledIn(base, s) != 0 ==> s[0] != '0'
  {
    assert s[..0] == "" && SpelledIn(base, "") == 0;
    assert base * SpelledIn(base, s[..0]) == 0;
  }

  lemma LocNameIs(pos: nat)
    ensures var s := LocName(pos); s[..4] == "loc_" && |s| >= 12 && AllDigits(16, s[4..]) && SpelledIn(16, s[4..]) == pos && (|s| > 12 ==> s[4] != '0')
  {
    hide SpelledIn, AllDigits;
    HexIs(pos, 8);
    assert LocName(pos)[4..] == Hex(pos, 8);
  }

  lemma {:induction false} DecimalIs(n: nat)
    ensures var s := Decimal(n); AllDigits(10, s) && SpelledIn(10, s) == n && (|s| > 1 ==> s[0] != '0')
  {
    hide SpelledIn, AllDigits;
    if n < 10 {
      NoDigits(10);
      DigitAdded(10, "", n);
      assert "" + [Digit(n)] == Decimal(n);
    } else {
      DecimalIs(n / 10);
      DigitAdded(10, Decimal(n / 10), n % 10);
      if |Decimal(n / 10)| == 1 {
        OneDigit(10, Decimal(n / 10));
      }
    }
  }

  /** The names tried for a label: its own, then with an underscore and 1, 2, ... behind it. */
  lemma VariantIs(name: string, i: nat)
    ensures Variant(name, 0) == name
    ensures i > 0 ==>
              var s := Variant(name, i);
              |s| > |name| + 1 && s[..|name|] == name && s[|name|] == '_' && AllDigits(10, s[|name| + 1..]) && SpelledIn(10, s[|name| + 1..]) == i && s[|name| + 1] != '0'
  {
    hide SpelledIn, AllDigits;
    if i > 0 {
      DecimalIs(i);
      assert Variant(name, i)[|name| + 1..] == Decimal(i);
      NoZeroDigits(i);
    }
  }

  lemma NoZeroDigits(i: nat)
    requires i > 0
    ensures Decimal(i)[0] != '0'
  {
    DecimalIs(i);
    if i < 10 {
      DigitIs(i);
    }
  }

  predicate Alnum(c: int) {
    '0' as int <= c <= '9' as int || 'A' as int <= c <= 'Z' as int || 'a' as int <= c <= 'z' as int
  }

  /** The letters and digits, in their order. */
  function LettersOf(str: seq<byte>): string {
    if str == [] then "" else (if Alnum(str[0] as int) then [str[0] as char] else "") + LettersOf(str[1..])
  }

  function WithoutDashes(s: string): string {
    if s == "" then "" else (if s[0] == '_' then "" else [s[0]]) + WithoutDashes(s[1..])
  }

  predicate Separated(s: string) {
    forall k {:trigger s[k]} :: 0 <= k < |s| - 1 ==> !(s[k] == '_' && s[k + 1] == '_')
  }

  /** What is made of a string: letters and digits as far as there is room, one underscore for what is between them. */
  predicate StemOf(s: string, str: seq<byte>, lastValid: bool, room: nat) {
    && |s| <= room && (!lastValid && s != "" ==> s[0] != '_') && Separated(s) && (forall k {:trigger s[k]} :: 0 <= k < |s| ==> s[k] == '_' || Alnum(s[k] as int))
    && WithoutDashes(s) <= LettersOf(str) && (|s| < room ==> WithoutDashes(s) == LettersOf(str))
  }

  lemma {:induction false} StemMeans(str: seq<byte>, lastValid: bool, room: nat)
    ensures StemOf(Stem(str, lastValid, room), str, lastValid, room)
  {
    hide StemOf;
    if str == [] || room == 0 {
      NoStem(str, lastValid, room);
    } else if IsAlnum(str[0]) {
      StemMeans(str[1..], true, room - 1);
      OneMore(str[0] as char, Stem(str[1..], true, room - 1), str, lastValid, true, room);
    } else if lastValid {
      StemMeans(str[1..], false, room - 1);
      OneMore('_', Stem(str[1..], false, room - 1), str, lastValid, false, room);
    } else {
      StemMeans(str[1..], false, room);
      Skipped(Stem(str[1..], false, room), str, room);
    }
  }

  lemma NoStem(str: seq<byte>, lastValid: bool, room: nat)
    requires str == [] || room == 0
    ensures StemOf("", str, lastValid, room)
  {
  }

  lemma Skipped(s: string, str: seq<byte>, room: nat)
    requires str != [] && !Alnum(str[0] as int) && StemOf(s, str[1..], false, room)
    ensures StemOf(s, str, false, room)
  {
    assert "" + LettersOf(str[1..]) == LettersOf(str[1..]);
  }

  lemma OneMore(c: char, s: string, str: seq<byte>, lastValid: bool, valid: bool, room: nat)
    requires str != [] && room > 0 && StemOf(s, str[1..], valid, room - 1) && (if valid then c == str[0] as char && Alnum(str[0] as int) else c == '_' && lastValid && !Alnum(str[0] as int))
    ensures StemOf([c] + s, str, lastValid, room)
  {
    hide LettersOf, WithoutDashes;
    var all := [c] + s;
    Opened(c, s, str);
    forall k | 0 <= k < |all| - 1
      ensures !(all[k] == '_' && all[k + 1] == '_')
    {
      if k > 0 {
        assert all[k] == s[k - 1] && all[k + 1] == s[k];
      }
    }
  }

  lemma Opened(c: char, s: string, str: seq<byte>)
    requires str != []
    ensures WithoutDashes([c] + s) == (if c == '_' then "" else [c]) + WithoutDashes(s)
    ensures LettersOf(str) == (if Alnum(str[0] as int) then [str[0] as char] else "") + LettersOf(str[1..])
  {
    assert ([c] + s)[1..] == s;
  }

  /** A string is named by its letters and digits, one underscore for what is between them, up to sixteen characters. */
  lemma StringNameIs(str: seq<byte>)
    ensures var s := StringName(str);
            && 4 <= |s| <= 20 && s[..4] == "str_" && Separated(s[3..]) && (forall k {:trigger s[k]} :: 0 <= k < |s| ==> s[k] == '_' || Alnum(s[k] as int))
            && WithoutDashes(s[4..]) <= LettersOf(str) && (|s| < 20 ==> WithoutDashes(s[4..]) == LettersOf(str))
  {
    hide Stem, WithoutDashes, LettersOf;
    StemMeans(str, false, 16);
    assert StringName(str)[4..] == Stem(str, false, 16);
  }

  /** The name of a string, letter by letter. */
  method LabelName(str: seq<byte>) returns (name: string)
    ensures name == StringName(str)
  {
    hide Stem;
    var stem, lastValid, i := "", false, 0;
    assert str[0..] == str;
    while i < |str| && |stem| < 16
      invariant i <= |str| && |stem| <= 16
      invariant stem + Stem(str[i..], lastValid, 16 - |stem|) == Stem(str, false, 16)
    {
      assert str[i..][0] == str[i] && str[i..][1..] == str[i + 1..];
      StemOpen(str[i..], lastValid, 16 - |stem|);
      if IsAlnum(str[i]) {
        stem, lastValid := stem + [str[i] as char], true;
      } else if lastValid {
        stem, lastValid := stem + "_", false;
      }
      i := i + 1;
    }
    StemDone(str[i..], lastValid, 16 - |stem|);
    name := "str_" + stem;
  }

  lemma StemOpen(str: seq<byte>, lastValid: bool, room: nat)
    requires str != [] && room > 0
    ensures Stem(str, lastValid, room) ==
              if IsAlnum(str[0]) then [str[0] as char] + Stem(str[1..], true, room - 1)
              else if lastValid then "_" + Stem(str[1..], false, room - 1)
              else Stem(str[1..], false, room)
  {
  }

  lemma StemDone(str: seq<byte>, lastValid: bool, room: nat)
    requires str == [] || room == 0
    ensures Stem(str, lastValid, room) == ""
  {
  }
}
