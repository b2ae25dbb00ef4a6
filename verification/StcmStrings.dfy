/** Data items of STCM files that are taken for something else: strings and tables. */
module StcmStrings {
  import opened Bytes
  import opened Words
  import P = StcmParams
  import opened StcmInstructions

  /** What is made of a data item with one raw child. */
  datatype Guess = Kept | AsString(str: seq<byte>) | AsTable(bytes: seq<byte>) | Fails

  /** The order in which the guesses are registered, and what a table read from these bytes would be written as. */
  datatype Guesses = Guesses(stringFirst: bool, table: seq<byte> -> Option<seq<byte>>)

  /** A string is guessed when at most four bytes, all zero, follow the one that ends it. Sizes are 32-bit
      products. */
  function GuessString(kind: P.word, unit: P.word, field8: P.word, child: seq<byte>): (r: Guess)
    ensures r.AsString? ==> kind == 0 && field8 == 1 && |child| == P.Trunc(4 * unit)
    ensures r.AsString? ==> |r.str| < |child| <= |r.str| + 5 && child == r.str + Zeros(|child| - |r.str|)
    ensures !r.AsTable?
  {
    if kind != 0 || unit <= 1 || field8 != 1 || |child| != P.Trunc(4 * unit) then Kept
    else
      var s := CStringIn(child);
      if s.None? then Fails
      else if |child| - |s.value| - 1 > 4 || child[|s.value| + 1..] != Zeros(|child| - |s.value| - 1) then Kept
      else
        assert child == s.value + [child[|s.value|]] + child[|s.value| + 1..];
        AsString(s.value)
  }

  /** A table is guessed by its letters, 64 bytes from the end. It must not be longer than the child it is cut
      out of; it is never empty, as it has a header. */
  function GuessTable(table: seq<byte> -> Option<seq<byte>>, child: seq<byte>): (r: Guess)
    ensures r.AsTable? ==> table(child) == Some(r.bytes) && 0 < |r.bytes| <= |child|
    ensures !r.AsString?
    ensures r.Kept? <==> !(|child| > 64 && child[|child| - 64] == 71 && child[|child| - 63] == 66 && child[|child| - 62] == 78 && child[|child| - 61] == 76)
    ensures r.Fails? ==> match table(child) case None => true case Some(b) => b == [] || |b| > |child|
  {
    if |child| <= 64 || child[|child| - 64..|child| - 60] != [71, 66, 78, 76] then Kept
    else match table(child)
      case None => Fails
      case Some(b) => if 0 < |b| <= |child| then AsTable(b) else Fails
  }

  /** The first guess that does not leave the item as it is. */
  function GuessOf(g: Guesses, kind: P.word, unit: P.word, field8: P.word, child: seq<byte>): Guess {
    var s, t := GuessString(kind, unit, field8, child), GuessTable(g.table, child);
    if g.stringFirst then (if s.Kept? then t else s) else (if t.Kept? then s else t)
  }

  /** A string is taken exactly from such data; the guess fails exactly if no zero ends it. */
  lemma StringTaken(kind: P.word, unit: P.word, field8: P.word, child: seq<byte>, str: seq<byte>)
    ensures GuessString(kind, unit, field8, child) == AsString(str) <==>
              && kind == 0 && unit >= 2 && field8 == 1 && |child| == 4 * unit % 0x1_0000_0000
              && 0 !in str && |str| < |child| <= |str| + 5 && child == str + Zeros(|child| - |str|)
    ensures GuessString(kind, unit, field8, child).Fails? <==>
              kind == 0 && unit >= 2 && field8 == 1 && |child| == 4 * unit % 0x1_0000_0000 && 0 !in child
  {
    hide CStringIn, Zeros;
    if 0 !in str && |str| < |child| <= |str| + 5 && child == str + Zeros(|child| - |str|) {
      ZerosBehind(str, |child| - |str|);
      CStringFound(str, Zeros(|child| - |str| - 1));
    }
  }

  /** Of two guesses that would take the item, the one that is registered first does. */
  lemma FirstTakes(g: Guesses, kind: P.word, unit: P.word, field8: P.word, child: seq<byte>)
    ensures var s, t, r := GuessString(kind, unit, field8, child), GuessTable(g.table, child), GuessOf(g, kind, unit, field8, child);
            && (s.Kept? ==> r == t) && (t.Kept? ==> r == s) && (!s.Kept? && !t.Kept? ==> r == if g.stringFirst then s else t)
  {
    hide GuessString, GuessTable;
  }

  /** The size of a string with its end, in whole groups of four bytes. */
  function Rounded(n: nat): (r: nat)
    ensures n < r <= n + 4 && r % 4 == 0
  {
    (n + 1 + 3) / 4 * 4
  }

  /** What a string item dumps. */
  function StringBytes(str: seq<byte>): seq<byte> {
    var len := Rounded(|str|);
    DataHeader(0, P.Trunc(len / 4), 1, P.Trunc(len)) + str + Zeros(len - |str|)
  }

  lemma HeaderLength(a: nat, b: nat, c: nat, d: nat)
    ensures |DataHeader(a, b, c, d)| == 16
  {
    Sums();
    WordsLength(true, HeaderWords, [a, b, c, d]);
  }

  lemma StringLength(str: seq<byte>)
    ensures |StringBytes(str)| == 16 + Rounded(|str|)
  {
    hide DataHeader;
    var len := Rounded(|str|);
    HeaderLength(0, P.Trunc(len / 4), 1, P.Trunc(len));
  }

  /** The second word of a header is what was put there. */
  lemma UnitOf(a: nat, unit: P.word, c: nat, d: nat, rest: seq<byte>)
    requires a < 0x1_0000_0000 && c < 0x1_0000_0000 && d < 0x1_0000_0000
    ensures Sum(HeaderWords) <= |DataHeader(a, unit, c, d) + rest| && DecWords(true, HeaderWords, DataHeader(a, unit, c, d) + rest) == [a, unit, c, d]
  {
    Sums();
    Ranges();
    WordsBack(true, HeaderWords, [a, unit, c, d], rest);
  }

  lemma SameHeader(unit: P.word, other: P.word, len: P.word, a: seq<byte>, b: seq<byte>)
    requires DataHeader(0, unit, 1, len) + a == DataHeader(0, other, 1, len) + b
    ensures unit == other
  {
    UnitOf(0, unit, 1, len, a);
    UnitOf(0, other, 1, len, b);
    assert [0, unit as nat, 1, len as nat][1] == [0, other as nat, 1, len as nat][1];
  }

  /** A string with four bytes of zeros behind its end loses them. */
  lemma RoundedSize(n: nat, size: nat)
    requires n < size <= n + 5 && size % 4 == 0
    ensures size == Rounded(n) + (if size == n + 5 then 4 else 0)
  {
  }

  lemma TruncFour(unit: P.word)
    ensures P.Trunc(4 * unit) % 4 == 0
  {
  }

  /** The child of a data item of `unit` quads that holds a string, zeros behind it. */
  ghost predicate HoldsString(unit: P.word, str: seq<byte>, child: seq<byte>) {
    |child| == P.Trunc(4 * unit) && |str| < |child| <= |str| + 5 && child == str + Zeros(|child| - |str|)
  }

  lemma LongDiffers(unit: P.word, str: seq<byte>, child: seq<byte>)
    requires HoldsString(unit, str, child) && |child| == |str| + 5
    ensures StringBytes(str) != DataHeader(0, unit, 1, |child|) + child && |child| == Rounded(|str|) + 4
  {
    hide DataHeader, Rounded, StringBytes;
    TruncFour(unit);
    RoundedSize(|str|, |child|);
    StringLength(str);
    HeaderLength(0, unit, 1, |child|);
  }

  lemma ShortSame(unit: P.word, str: seq<byte>, child: seq<byte>)
    requires HoldsString(unit, str, child) && |child| < |str| + 5
    ensures StringBytes(str) == DataHeader(0, unit, 1, |child|) + child <==> |child| == 4 * unit
    ensures |child| == Rounded(|str|)
  {
    hide DataHeader, Rounded;
    TruncFour(unit);
    RoundedSize(|str|, |child|);
    var len := |child|;
    assert len == Rounded(|str|);
    DataAhead(P.Trunc(len / 4), str, len);
    assert P.Trunc(len / 4) == unit <==> len == 4 * unit;
    if StringBytes(str) == DataHeader(0, unit, 1, len) + child {
      SameHeader(P.Trunc(len / 4), unit, len, child, child);
    }
  }

  lemma DataAhead(unit: P.word, str: seq<byte>, len: P.word)
    requires len == Rounded(|str|) && unit == len / 4
    ensures StringBytes(str) == DataHeader(0, unit, 1, len) + (str + Zeros(len - |str|))
  {
    hide DataHeader, Rounded;
  }

  /** A data item that is taken for a string is dumped as it was exactly when less than four bytes of padding
      follow the end of the string, and its size is not the 32-bit remainder of a longer one. */
  lemma StringDumpsSame(unit: P.word, child: seq<byte>)
    requires GuessString(0, unit, 1, child).AsString?
    ensures var str := GuessString(0, unit, 1, child).str;
            StringBytes(str) == DataHeader(0, unit, 1, |child|) + child <==> |child| < |str| + 5 && |child| == 4 * unit
  {
    hide DataHeader, Rounded, StringBytes;
    var str := GuessString(0, unit, 1, child).str;
    assert HoldsString(unit, str, child);
    if |child| < |str| + 5 {
      ShortSame(unit, str, child);
    } else {
      LongDiffers(unit, str, child);
    }
  }

  lemma LongChild(unit: P.word, child: seq<byte>)
    requires |child| >= 0x1_0000_0000
    ensures GuessString(0, unit, 1, child).Kept?
  {
  }

  lemma ZerosBehind(str: seq<byte>, n: nat)
    requires n > 0
    ensures str + Zeros(n) == str + [0] + Zeros(n - 1) && (str + Zeros(n))[|str| + 1..] == Zeros(n - 1)
  {
  }

  lemma UnitFits(len: nat)
    requires len % 4 == 0 && len < 0x1_0000_0000
    ensures P.Trunc(len / 4) == len / 4 && P.Trunc(4 * (len / 4)) == len
  {
  }

  lemma GuessedAgain(str: seq<byte>, len: nat)
    requires 0 !in str && len < 0x1_0000_0000 && len == Rounded(|str|)
    ensures GuessString(0, P.Trunc(len / 4), 1, str + Zeros(len - |str|)) == AsString(str) <==> 4 <= |str|
  {
    hide CStringIn, P.Trunc, Zeros;
    UnitFits(len);
    ZerosBehind(str, len - |str|);
    CStringFound(str, Zeros(len - |str| - 1));
    assert |str| < 4 ==> len == 4;
    assert 4 <= |str| ==> len / 4 > 1;
  }

  lemma GuessedClean(unit: P.word, child: seq<byte>, str: seq<byte>)
    requires GuessString(0, unit, 1, child) == AsString(str)
    ensures 0 !in str
  {
  }

  /** What is written for a string is taken for that string again exactly if it holds no zero, has at least four
      letters, and its size fits 32 bits. */
  lemma StringComesBack(str: seq<byte>)
    ensures var len := Rounded(|str|); var child := str + Zeros(len - |str|);
            GuessString(0, P.Trunc(len / 4), 1, child) == AsString(str) <==> 0 !in str && 4 <= |str| && len < 0x1_0000_0000
  {
    hide GuessString, Zeros, Rounded;
    var len := Rounded(|str|);
    var child := str + Zeros(len - |str|);
    if len >= 0x1_0000_0000 {
      LongChild(P.Trunc(len / 4), child);
    } else if 0 !in str {
      GuessedAgain(str, len);
    } else if GuessString(0, P.Trunc(len / 4), 1, child) == AsString(str) {
      GuessedClean(P.Trunc(len / 4), child, str);
    }
  }

  /** Three letters in eight bytes: taken for a string, dumped in four. */
  lemma FourBytesLost()
    ensures var child: seq<byte> := [65, 66, 67, 0, 0, 0, 0, 0];
            GuessString(0, 2, 1, child) == AsString([65, 66, 67]) && |StringBytes([65, 66, 67])| == 20
  {
    hide DataHeader, CStringIn;
    var child: seq<byte> := [65, 66, 67, 0, 0, 0, 0, 0];
    CStringFound([65, 66, 67], [0, 0, 0, 0]);
    assert child == [65, 66, 67] + [0] + [0, 0, 0, 0];
    assert child[4..] == Zeros(4);
    StringLength([65, 66, 67]);
    assert Rounded(3) == 4;
  }
}
