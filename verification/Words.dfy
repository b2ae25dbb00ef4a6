/** Packed words in a byte order, and tables of parts that follow each other. */
module Words {
  import opened Bytes

  /** Words of the given widths, packed. */
  function EncWords(little: bool, ws: seq<nat>, vs: seq<nat>): seq<byte>
    requires |ws| == |vs|
  {
    if ws == [] then [] else EncWords(little, ws[..|ws| - 1], vs[..|vs| - 1]) + Enc(little, ws[|ws| - 1], vs[|vs| - 1])
  }

  function Sum(ws: seq<nat>): nat {
    if ws == [] then 0 else Sum(ws[..|ws| - 1]) + ws[|ws| - 1]
  }

  function DecWords(little: bool, ws: seq<nat>, b: seq<byte>): (r: seq<nat>)
    requires Sum(ws) <= |b|
    ensures |r| == |ws|
  {
    if ws == [] then []
    else
      var init, w := ws[..|ws| - 1], ws[|ws| - 1];
      DecWords(little, init, b) + [Dec(little, b[Sum(init)..Sum(init) + w])]
  }

  lemma {:induction false} WordAt(little: bool, ws: seq<nat>, b: seq<byte>, i: nat)
    requires Sum(ws) <= |b| && i < |ws|
    ensures Sum(ws[..i]) + ws[i] <= Sum(ws) && DecWords(little, ws, b)[i] == Dec(little, b[Sum(ws[..i])..Sum(ws[..i]) + ws[i]])
    decreases |ws|
  {
    hide Dec;
    var n := |ws| - 1;
    if i < n {
      WordAt(little, ws[..n], b, i);
      assert ws[..n][..i] == ws[..i];
    }
  }

  lemma {:induction false} WordsLength(little: bool, ws: seq<nat>, vs: seq<nat>)
    requires |ws| == |vs|
    ensures |EncWords(little, ws, vs)| == Sum(ws)
  {
    if ws != [] {
      WordsLength(little, ws[..|ws| - 1], vs[..|vs| - 1]);
    }
  }

  /** Words that fit their widths survive packing, whatever follows them. */
  lemma {:induction false} WordsBack(little: bool, ws: seq<nat>, vs: seq<nat>, rest: seq<byte>)
    requires |ws| == |vs| && forall i {:trigger ws[i]} {:trigger vs[i]} :: 0 <= i < |ws| ==> vs[i] < Range(ws[i])
    ensures Sum(ws) <= |EncWords(little, ws, vs) + rest| && DecWords(little, ws, EncWords(little, ws, vs) + rest) == vs
  {
    hide Enc, Dec, Range;
    WordsLength(little, ws, vs);
    if ws != [] {
      var n := |ws| - 1;
      var init, last := EncWords(little, ws[..n], vs[..n]), Enc(little, ws[n], vs[n]);
      var b := init + (last + rest);
      assert EncWords(little, ws, vs) + rest == b;
      WordsLength(little, ws[..n], vs[..n]);
      WordsBack(little, ws[..n], vs[..n], last + rest);
      DecEnc(little, ws[n], vs[n]);
      hide EncWords;
      assert b[|init|..|init| + |last|] == last;
      assert vs == vs[..n] + [vs[n]];
    }
  }

  lemma {:induction false} DecFits(little: bool, ws: seq<nat>, b: seq<byte>, i: nat)
    requires Sum(ws) <= |b| && i < |ws|
    ensures DecWords(little, ws, b)[i] < Range(ws[i])
    decreases |ws|
  {
    if i < |ws| - 1 {
      DecFits(little, ws[..|ws| - 1], b, i);
    }
  }

  /** Packing the words that were read gives the bytes they were read from. */
  lemma {:induction false} WordsSame(ws: seq<nat>, b: seq<byte>)
    requires Sum(ws) <= |b|
    ensures EncWords(true, ws, DecWords(true, ws, b)) == b[..Sum(ws)]
  {
    hide Le, De;
    if ws != [] {
      var init := ws[..|ws| - 1];
      WordsSame(init, b);
      LeDe(b[Sum(init)..Sum(ws)]);
      assert DecWords(true, ws, b)[..|ws| - 1] == DecWords(true, init, b);
    }
  }

  /** Parts one after the other. */
  function Concat(parts: seq<seq<byte>>): seq<byte> {
    if parts == [] then [] else Concat(parts[..|parts| - 1]) + parts[|parts| - 1]
  }

  /** All parts have this size. */
  predicate Even(parts: seq<seq<byte>>, size: nat) {
    forall i {:trigger parts[i]} :: 0 <= i < |parts| ==> |parts[i]| == size
  }

  lemma {:induction false} ConcatLength(parts: seq<seq<byte>>, size: nat)
    requires Even(parts, size)
    ensures |Concat(parts)| == |parts| * size
  {
    if parts != [] {
      var n := |parts| - 1;
      ConcatLength(parts[..n], size);
      assert n * size + size == (n + 1) * size;
    }
  }

  /** Part `k` of a table is where its size says. */
  lemma {:induction false} ConcatAt(parts: seq<seq<byte>>, size: nat, k: nat)
    requires Even(parts, size) && k < |parts|
    ensures k * size + size <= |Concat(parts)| && Concat(parts)[k * size..k * size + size] == parts[k]
    decreases |parts|
  {
    var n := |parts| - 1;
    ConcatLength(parts[..n], size);
    if k < n {
      ConcatAt(parts[..n], size, k);
      var head := Concat(parts[..n]);
      assert (head + parts[n])[k * size..k * size + size] == head[k * size..k * size + size];
    } else {
      assert k * size == |Concat(parts[..n])|;
    }
  }

  /** A window of a window of a file. */
  lemma {:induction false} WindowOf(file: seq<byte>, at: nat, b: seq<byte>, i: nat, j: nat)
    requires at + |b| <= |file| && file[at..at + |b|] == b && i <= j <= |b|
    ensures file[at + i..at + j] == b[i..j]
  {
    SliceOfSlice(file, at, at + |b|, i, j);
  }
}
