/** Numbers in the bytes of a file, written out byte by byte. */
module Numbers {
  import opened Bytes

  /** Two bytes, the least significant one first. */
  function Two(b: seq<byte>, at: nat): nat
    requires at + 2 <= |b|
  {
    b[at] as nat + 0x100 * b[at + 1] as nat
  }

  /** Four bytes, the least significant one first. */
  function Four(b: seq<byte>, at: nat): nat
    requires at + 4 <= |b|
  {
    b[at] as nat + 0x100 * b[at + 1] as nat + 0x1_0000 * b[at + 2] as nat + 0x100_0000 * b[at + 3] as nat
  }

  lemma DeOne(a: byte)
    ensures De([a]) == a
  {
    assert [a][1..] == [];
  }

  lemma DeTwo(a: byte, b: byte)
    ensures De([a, b]) == a + 0x100 * b
  {
    DeOne(b);
    assert [a, b][1..] == [b];
  }

  lemma DeFour(a: byte, b: byte, c: byte, d: byte)
    ensures De([a, b, c, d]) == a + 0x100 * b + 0x1_0000 * c + 0x100_0000 * d
  {
    DeTwo(c, d);
    assert [b, c, d][1..] == [c, d];
    assert [a, b, c, d][1..] == [b, c, d];
  }

  /** The words of the codecs are these numbers. */
  lemma WordsAre(b: seq<byte>, at: nat)
    ensures at + 1 <= |b| ==> De(b[at..at + 1]) == b[at]
    ensures at + 2 <= |b| ==> De(b[at..at + 2]) == Word16(b, at) == Two(b, at) < 0x1_0000
    ensures at + 4 <= |b| ==> De(b[at..at + 4]) == Word32(b, at) == Four(b, at) < 0x1_0000_0000
  {
    hide De;
    if at + 1 <= |b| {
      DeOne(b[at]);
      assert b[at..at + 1] == [b[at]];
    }
    if at + 2 <= |b| {
      DeTwo(b[at], b[at + 1]);
      assert b[at..at + 2] == [b[at], b[at + 1]];
    }
    if at + 4 <= |b| {
      DeFour(b[at], b[at + 1], b[at + 2], b[at + 3]);
      assert b[at..at + 4] == [b[at], b[at + 1], b[at + 2], b[at + 3]];
    }
  }

  // ---- in the byte order of a file

  function TwoIn(little: bool, b: seq<byte>, at: nat): nat
    requires at + 2 <= |b|
  {
    if little then Two(b, at) else b[at + 1] as nat + 0x100 * b[at] as nat
  }

  function FourIn(little: bool, b: seq<byte>, at: nat): nat
    requires at + 4 <= |b|
  {
    if little then Four(b, at)
    else b[at + 3] as nat + 0x100 * b[at + 2] as nat + 0x1_0000 * b[at + 1] as nat + 0x100_0000 * b[at] as nat
  }

  function EightIn(little: bool, b: seq<byte>, at: nat): nat
    requires at + 8 <= |b|
  {
    if little then FourIn(true, b, at) + 0x1_0000_0000 * FourIn(true, b, at + 4)
    else FourIn(false, b, at + 4) + 0x1_0000_0000 * FourIn(false, b, at)
  }

  lemma DeNext(x: byte, b: seq<byte>)
    ensures De([x] + b) == x + 0x100 * De(b)
  {
    assert ([x] + b)[1..] == b;
  }

  lemma DeEight(a: seq<byte>, b: seq<byte>)
    requires |a| == 4
    ensures De(a + b) == De(a) + 0x1_0000_0000 * De(b)
  {
    hide De;
    DeFour(a[0], a[1], a[2], a[3]);
    assert a == [a[0], a[1], a[2], a[3]];
    DeNext(a[3], b);
    DeNext(a[2], [a[3]] + b);
    DeNext(a[1], [a[2]] + ([a[3]] + b));
    DeNext(a[0], [a[1]] + ([a[2]] + ([a[3]] + b)));
    assert a + b == [a[0]] + ([a[1]] + ([a[2]] + ([a[3]] + b)));
  }

  /** The words of the codecs in either byte order. */
  lemma WordsIn(little: bool, b: seq<byte>, at: nat)
    ensures at + 1 <= |b| ==> Dec(little, b[at..at + 1]) == b[at]
    ensures at + 2 <= |b| ==> Dec(little, b[at..at + 2]) == TwoIn(little, b, at)
    ensures at + 4 <= |b| ==> Dec(little, b[at..at + 4]) == FourIn(little, b, at)
  {
    hide De;
    WordsAre(b, at);
    if !little {
      if at + 1 <= |b| {
        DeOne(b[at]);
        assert Rev(b[at..at + 1]) == [b[at]];
      }
      if at + 2 <= |b| {
        DeTwo(b[at + 1], b[at]);
        assert Rev(b[at..at + 2]) == [b[at + 1], b[at]];
      }
      if at + 4 <= |b| {
        DeFour(b[at + 3], b[at + 2], b[at + 1], b[at]);
        assert Rev(b[at..at + 4]) == [b[at + 3], b[at + 2], b[at + 1], b[at]];
      }
    }
  }

  lemma LongIn(little: bool, b: seq<byte>, at: nat)
    requires at + 8 <= |b|
    ensures Dec(little, b[at..at + 8]) == EightIn(little, b, at)
  {
    hide De, Four;
    var x, y := b[at..at + 4], b[at + 4..at + 8];
    assert b[at..at + 8] == x + y;
    WordsIn(little, b, at);
    WordsIn(little, b, at + 4);
    if little {
      DeEight(x, y);
    } else {
      assert Rev(x + y) == Rev(y) + Rev(x);
      DeEight(Rev(y), Rev(x));
    }
  }
}
