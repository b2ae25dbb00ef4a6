/** Masked pattern search: through the longest unmasked run, refining a search of every position. */
module Patterns {
  import opened Bytes

  /** The masked check of a whole pattern at a position. */
  predicate MatchesAt(data: seq<bv8>, pattern: seq<bv8>, mask: seq<bv8>, p: nat)
    requires |mask| == |pattern|
  {
    p + |pattern| <= |data| && forall i {:trigger pattern[i]} :: 0 <= i < |pattern| ==> data[p + i] & mask[i] == pattern[i]
  }

  datatype Found = Zero | One(p: nat) | Many

  /** A brute-force search: every position below `n` is checked in turn. */
  function Scan(data: seq<bv8>, pattern: seq<bv8>, mask: seq<bv8>, n: nat): Found
    requires |mask| == |pattern|
  {
    if n == 0 then Zero
    else
      var before := Scan(data, pattern, mask, n - 1);
      if !MatchesAt(data, pattern, mask, n - 1) then before else if before.Zero? then One(n - 1) else Many
  }

  function Answer(f: Found): Option<nat> {
    if f.One? then Some(f.p) else None
  }

  /** A position is the only match below `n`. */
  predicate Only(data: seq<bv8>, pattern: seq<bv8>, mask: seq<bv8>, n: nat, p: nat)
    requires |mask| == |pattern|
  {
    p < n && MatchesAt(data, pattern, mask, p) && forall q {:trigger MatchesAt(data, pattern, mask, q)} :: 0 <= q < n && q != p ==> !MatchesAt(data, pattern, mask, q)
  }

  /** What the brute-force search finds: none, the only match, or that there are several. */
  lemma {:induction false} ScanMeans(data: seq<bv8>, pattern: seq<bv8>, mask: seq<bv8>, n: nat)
    requires |mask| == |pattern|
    ensures var f := Scan(data, pattern, mask, n);
            && (f.Zero? <==> forall q {:trigger MatchesAt(data, pattern, mask, q)} :: 0 <= q < n ==> !MatchesAt(data, pattern, mask, q))
            && (forall p: nat {:trigger Only(data, pattern, mask, n, p)} :: f == One(p) <==> Only(data, pattern, mask, n, p))
  {
    hide MatchesAt;
    if n > 0 {
      ScanMeans(data, pattern, mask, n - 1);
      var f, before := Scan(data, pattern, mask, n), Scan(data, pattern, mask, n - 1);
      forall p: nat
        ensures f == One(p) <==> Only(data, pattern, mask, n, p)
      {
        assert before == One(p) <==> Only(data, pattern, mask, n - 1, p);
      }
    }
  }

  lemma {:induction false} ScanSkips(data: seq<bv8>, pattern: seq<bv8>, mask: seq<bv8>, m: nat, n: nat)
    requires |mask| == |pattern| && m <= n
    requires forall q {:trigger MatchesAt(data, pattern, mask, q)} :: m <= q < n ==> !MatchesAt(data, pattern, mask, q)
    ensures Scan(data, pattern, mask, n) == Scan(data, pattern, mask, m)
  {
    hide MatchesAt;
    if m < n {
      ScanSkips(data, pattern, mask, m, n - 1);
    }
  }

  lemma {:induction false} ManyStays(data: seq<bv8>, pattern: seq<bv8>, mask: seq<bv8>, m: nat, n: nat)
    requires |mask| == |pattern| && m <= n && Scan(data, pattern, mask, m).Many?
    ensures Scan(data, pattern, mask, n).Many?
  {
    hide MatchesAt;
    if m < n {
      ManyStays(data, pattern, mask, m, n - 1);
    }
  }

  /** All mask bytes of a stretch are full. */
  predicate FullRun(mask: seq<bv8>, a: nat, b: nat) {
    a <= b <= |mask| && forall i {:trigger mask[i]} :: a <= i < b ==> mask[i] == 0xff
  }

  /** The longest stretch of full mask bytes. */
  method LongestRun(mask: seq<bv8>) returns (maxI: nat, maxLen: nat)
    ensures FullRun(mask, maxI, maxI + maxLen)
    ensures forall a, b {:trigger FullRun(mask, a, b)} :: 0 <= a <= b && FullRun(mask, a, b) ==> b - a <= maxLen
  {
    maxI, maxLen := 0, 0;
    var startI := 0;
    for i := 0 to |mask|
      invariant startI <= i && FullRun(mask, startI, i) && (startI > 0 ==> mask[startI - 1] != 0xff)
      invariant FullRun(mask, maxI, maxI + maxLen) && maxI + maxLen <= i && i - startI <= maxLen
      invariant forall a, b {:trigger FullRun(mask, a, b)} :: 0 <= a <= b <= i && FullRun(mask, a, b) ==> b - a <= maxLen
    {
      if mask[i] == 0xff {
        if i - startI + 1 > maxLen {
          maxI, maxLen := startI, i - startI + 1;
        }
      } else {
        startI := i + 1;
      }
    }
  }

  predicate TextAt(data: seq<bv8>, text: seq<bv8>, q: nat, end: nat) {
    q + |text| <= end <= |data| && data[q..q + |text|] == text
  }

  /** First-occurrence search between two places; the end if there is none. An empty text is found at
      once, but not at the very end. */
  method Search(data: seq<bv8>, from: nat, end: nat, text: seq<bv8>) returns (m: nat)
    requires from <= end <= |data|
    ensures from <= m <= end && (m < end ==> TextAt(data, text, m, end))
    ensures forall q: nat {:trigger TextAt(data, text, q, end)} :: from <= q < m ==> !TextAt(data, text, q, end)
  {
    m := from;
    while m < end && (m + |text| > end || data[m..m + |text|] != text)
      invariant from <= m <= end
      invariant forall q: nat {:trigger TextAt(data, text, q, end)} :: from <= q < m ==> !TextAt(data, text, q, end)
    {
      m := m + 1;
    }
  }

  method CheckPattern(data: seq<bv8>, p: nat, pattern: seq<bv8>, mask: seq<bv8>) returns (ok: bool)
    requires |mask| == |pattern| && p + |pattern| <= |data|
    ensures ok <==> MatchesAt(data, pattern, mask, p)
  {
    for i := 0 to |pattern|
      invariant forall j {:trigger pattern[j]} :: 0 <= j < i ==> data[p + j] & mask[j] == pattern[j]
    {
      if data[p + i] & mask[i] != pattern[i] {
        return false;
      }
    }
    ok := true;
  }

  /** A match has the text of a full run in its place. */
  lemma MatchHasRun(data: seq<bv8>, pattern: seq<bv8>, mask: seq<bv8>, p: nat, a: nat, b: nat)
    requires |mask| == |pattern| && FullRun(mask, a, b) && p + |pattern| <= |data|
    ensures MatchesAt(data, pattern, mask, p) ==> data[p + a..p + b] == pattern[a..b]
  {
    if MatchesAt(data, pattern, mask, p) {
      forall i | 0 <= i < b - a
        ensures data[p + a..p + b][i] == pattern[a..b][i]
      {
        assert data[p + (a + i)] & mask[a + i] == pattern[a + i];
        FullMask(data[p + (a + i)]);
      }
    }
  }

  lemma FullMask(x: bv8)
    ensures x & 0xff == x
  {
  }

  /** How many positions are tried: all where the pattern fits, but not the last one if no byte of the
      mask is full. */
  function Tried(data: seq<bv8>, pattern: seq<bv8>, mask: seq<bv8>): nat
    requires |pattern| <= |data|
  {
    if 0xff in mask then |data| - |pattern| + 1 else |data| - |pattern|
  }

  function Least(a: nat, b: nat): nat { if a < b then a else b }

  lemma RunExists(mask: seq<bv8>, maxI: nat, maxLen: nat)
    requires FullRun(mask, maxI, maxI + maxLen)
    requires forall a, b {:trigger FullRun(mask, a, b)} :: 0 <= a <= b && FullRun(mask, a, b) ==> b - a <= maxLen
    ensures maxLen > 0 <==> 0xff in mask
  {
    if 0xff in mask {
      var i :| 0 <= i < |mask| && mask[i] == 0xff;
      assert FullRun(mask, i, i + 1);
    }
    if maxLen > 0 {
      assert mask[maxI] == 0xff;
    }
  }

  /** Searching on the longest full run and checking what it finds gives the answer of the brute-force
      search of the positions tried. */
  method MaybeFind(data: seq<bv8>, pattern: seq<bv8>, mask: seq<bv8>) returns (res: Option<nat>)
    requires |mask| == |pattern| <= |data|
    ensures res == Answer(Scan(data, pattern, mask, Tried(data, pattern, mask)))
  {
    hide MatchesAt;
    var maxI, maxLen := LongestRun(mask);
    RunExists(mask, maxI, maxLen);
    var text := pattern[maxI..maxI + maxLen];
    var ptr, end := maxI, |data| - (|pattern| - maxLen - maxI);
    ghost var n := Tried(data, pattern, mask);
    res := None;
    while true
      invariant maxI <= ptr <= end
      invariant Scan(data, pattern, mask, Least(ptr - maxI, n)) == if res.Some? then One(res.value) else Zero
      decreases end - ptr
    {
      var m := Search(data, ptr, end, text);
      forall q | ptr - maxI <= q < Least(m - maxI, n)
        ensures !MatchesAt(data, pattern, mask, q)
      {
        MatchHasRun(data, pattern, mask, q, maxI, maxI + maxLen);
        assert q + maxI + |text| <= end;
        assert !TextAt(data, text, q + maxI, end);
      }
      ScanSkips(data, pattern, mask, Least(ptr - maxI, n), Least(m - maxI, n));
      if m == end {
        break;
      }
      var ok := CheckPattern(data, m - maxI, pattern, mask);
      if ok {
        if res.Some? {
          ManyStays(data, pattern, mask, m - maxI + 1, n);
          return None;
        }
        res := Some(m - maxI);
      }
      ptr := m + 1;
    }
  }

  /** The search gives the answer of the brute-force search of all positions if and only if the mask
      has a full byte, or the last position does not match, or others match often enough. */
  lemma ExactlyWhen(data: seq<bv8>, pattern: seq<bv8>, mask: seq<bv8>)
    requires |mask| == |pattern| <= |data|
    ensures var n := |data| - |pattern|; var tried := Scan(data, pattern, mask, Tried(data, pattern, mask));
            Answer(tried) == Answer(Scan(data, pattern, mask, n + 1)) <==> 0xff in mask || !MatchesAt(data, pattern, mask, n) || tried.Many?
  {
    hide MatchesAt;
    var n := |data| - |pattern|;
    ScanMeans(data, pattern, mask, n);
  }

  /** A pattern without a full mask byte is not found where it only fits once. */
  lemma LastMissed()
    ensures Answer(Scan([7], [7], [0x7f], Tried([7], [7], [0x7f]))) == None
    ensures Answer(Scan([7], [7], [0x7f], 1)) == Some(0)
  {
    hide MatchesAt;
    OneMatch();
  }

  lemma OneMatch()
    ensures MatchesAt([7], [7], [0x7f], 0)
  {
  }
}
