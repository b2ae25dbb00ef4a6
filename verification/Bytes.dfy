/** Bytes, little-endian words and the small sequence facts the format models share. */
module Bytes {

  type byte = x: int | 0 <= x < 256

  datatype Option<+T> = None | Some(value: T)

  /** The number of values of a `w`-byte word. */
  function Range(w: nat): (r: nat)
    ensures r > 0
  {
    if w == 0 then 1 else 256 * Range(w - 1)
  }

  /** The `w` low-order bytes of `v`, least significant first; the rest is truncated. */
  function Le(w: nat, v: nat): (r: seq<byte>)
    ensures |r| == w
  {
    if w == 0 then [] else [v % 256] + Le(w - 1, v / 256)
  }

  /** The number whose little-endian bytes are `b`. */
  function De(b: seq<byte>): (v: nat)
    ensures v < Range(|b|)
  {
    if b == [] then 0 else b[0] + 256 * De(b[1..])
  }

  function Zeros(n: nat): (r: seq<byte>)
    ensures |r| == n && forall i {:trigger r[i]} :: 0 <= i < n ==> r[i] == 0
  {
    seq(n, _ => 0)
  }

  /** Writing back a decoded word gives the bytes that were read. */
  lemma {:induction false} LeDe(b: seq<byte>)
    ensures Le(|b|, De(b)) == b
  {
    if b != [] {
      LeDe(b[1..]);
      assert De(b) % 256 == b[0] && De(b) / 256 == De(b[1..]);
      assert b == [b[0]] + b[1..];
    }
  }

  /** A number that fits its word survives writing and reading. */
  lemma {:induction false} DeLe(w: nat, v: nat)
    requires v < Range(w)
    ensures De(Le(w, v)) == v
  {
    if w != 0 {
      DeLe(w - 1, v / 256);
      assert Le(w, v)[1..] == Le(w - 1, v / 256);
    }
  }

  lemma Ranges()
    ensures Range(1) == 0x100 && Range(2) == 0x1_0000
    ensures Range(3) == 0x100_0000 && Range(4) == 0x1_0000_0000
  {
    assert Range(1) == 256;
    assert Range(2) == 256 * Range(1);
    assert Range(3) == 256 * Range(2);
  }

  lemma SliceOfSlice<T>(s: seq<T>, a: nat, b: nat, c: nat, d: nat)
    requires a <= b <= |s| && c <= d <= b - a
    ensures s[a..b][c..d] == s[a + c..a + d]
  {
    forall i | 0 <= i < d - c
      ensures s[a..b][c..d][i] == s[a + c..a + d][i]
    {
    }
  }

  function Word32(b: seq<byte>, at: nat): nat
    requires at + 4 <= |b|
  {
    De(b[at..at + 4])
  }

  function Word16(b: seq<byte>, at: nat): nat
    requires at + 2 <= |b|
  {
    De(b[at..at + 2])
  }

  /** The bytes up to the first zero. */
  function CStringIn(b: seq<byte>): (r: Option<seq<byte>>)
    ensures r.Some? <==> 0 in b
    ensures r.Some? ==> |r.value| < |b| && r.value == b[..|r.value|] && b[|r.value|] == 0 && 0 !in r.value
  {
    if b == [] then None
    else if b[0] == 0 then Some([])
    else
      var rest := CStringIn(b[1..]);
      if rest.Some? then Some([b[0]] + rest.value) else None
  }

  /** A string that holds no zero is found again in front of one. */
  lemma {:induction false} CStringFound(str: seq<byte>, rest: seq<byte>)
    requires 0 !in str
    ensures CStringIn(str + [0] + rest) == Some(str)
  {
    var b := str + [0] + rest;
    if str == [] {
      assert b[0] == 0;
    } else {
      CStringFound(str[1..], rest);
      assert b[0] == str[0] && b[1..] == str[1..] + [0] + rest && str == [str[0]] + str[1..];
    }
  }

  function Rev<T>(s: seq<T>): (r: seq<T>)
    ensures |r| == |s| && forall i {:trigger r[i]} :: 0 <= i < |r| ==> r[i] == s[|s| - 1 - i]
  {
    seq(|s|, i requires 0 <= i < |s| => s[|s| - 1 - i])
  }

  lemma {:induction false} RevRev<T>(s: seq<T>)
    ensures Rev(Rev(s)) == s
  {
  }

  /** A word in the byte order of a file. */
  function Enc(little: bool, w: nat, v: nat): (r: seq<byte>)
    ensures |r| == w
  {
    if little then Le(w, v) else Rev(Le(w, v))
  }

  function Dec(little: bool, b: seq<byte>): nat {
    De(if little then b else Rev(b))
  }

  lemma {:induction false} DecEnc(little: bool, w: nat, v: nat)
    requires v < Range(w)
    ensures Dec(little, Enc(little, w, v)) == v
  {
    DeLe(w, v);
    RevRev(Le(w, v));
  }

  /** A slice of one part of three. */
  lemma {:induction false} MiddleSlice<T>(a: seq<T>, b: seq<T>, c: seq<T>, i: nat, j: nat)
    requires i <= j <= |b|
    ensures (a + b + c)[|a| + i..|a| + j] == b[i..j]
  {
    var s := a + b + c;
    forall k | 0 <= k < j - i
      ensures s[|a| + i..|a| + j][k] == b[i..j][k]
    {
    }
  }

  /** A slice that is one part after another gives both. */
  lemma {:induction false} SplitSlice<T>(s: seq<T>, at: nat, a: seq<T>, b: seq<T>)
    requires at + |a| + |b| <= |s| && s[at..at + |a| + |b|] == a + b
    ensures s[at..at + |a|] == a && s[at + |a|..at + |a| + |b|] == b
  {
    var whole := s[at..at + |a| + |b|];
    assert s[at..at + |a|] == whole[..|a|];
    assert s[at + |a|..at + |a| + |b|] == whole[|a|..];
  }

  lemma {:induction false} CStringAhead(b: seq<byte>, rest: seq<byte>)
    requires CStringIn(b).Some?
    ensures CStringIn(b + rest) == CStringIn(b)
  {
    var str := CStringIn(b).value;
    var more := b[|str| + 1..];
    assert b + rest == str + [0] + (more + rest);
    CStringFound(str, more + rest);
  }

  lemma {:induction false} De4(a: byte, b: byte, c: byte, d: byte)
    ensures De([a, b, c, d]) == a + 256 * (b + 256 * (c + 256 * d))
  {
    assert [a, b, c, d][1..] == [b, c, d] && [b, c, d][1..] == [c, d] && [c, d][1..] == [d] && [d][1..] == [];
    assert De([d]) == d && De([c, d]) == c + 256 * d && De([b, c, d]) == b + 256 * (c + 256 * d);
  }

  lemma {:induction false} Le4(a: byte, b: byte, c: byte, d: byte)
    ensures Le(4, a + 256 * (b + 256 * (c + 256 * d))) == [a, b, c, d]
  {
    De4(a, b, c, d);
    LeDe([a, b, c, d]);
  }

  /** Quotient and remainder are the only ones that fit. */
  lemma DivMod(x: int, q: int, r: int, m: nat)
    requires x == q * m + r && 0 <= r < m
    ensures x / m == q && x % m == r
  {
    var d := q - x / m;
    assert x == x / m * m + x % m;
    assert d * m == x % m - r;
    assert d >= 1 ==> d * m >= m;
    assert d <= -1 ==> d * m + m <= 0;
  }
}
