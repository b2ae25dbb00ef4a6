/** What a cache of four that keeps the latest holds: a reference for the moves of its entries. */
module Recency {
  function Without(s: seq<nat>, k: nat): (r: seq<nat>)
    ensures forall x {:trigger x in r} :: x in r <==> x in s && x != k
    ensures k !in s ==> r == s
  {
    if s == [] then [] else (if s[0] == k then [] else [s[0]]) + Without(s[1..], k)
  }

  /** The places of a run of requests, each once, the latest first. */
  function Recent(run: seq<nat>): (r: seq<nat>)
    ensures forall x {:trigger x in r} :: x in r <==> x in run
  {
    if run == [] then [] else [run[|run| - 1]] + Without(Recent(run[..|run| - 1]), run[|run| - 1])
  }

  function First(n: nat, s: seq<nat>): (r: seq<nat>) {
    if |s| <= n then s else s[..n]
  }

  /** What a request does to the places that are held. */
  function Touch(s: seq<nat>, k: nat): seq<nat> {
    First(4, [k] + Without(s, k))
  }

  function Touched(run: seq<nat>): seq<nat> {
    if run == [] then [] else Touch(Touched(run[..|run| - 1]), run[|run| - 1])
  }

  predicate Once(s: seq<nat>) {
    forall i, j {:trigger s[i], s[j]} :: 0 <= i < j < |s| ==> s[i] != s[j]
  }

  lemma OnceTail(s: seq<nat>)
    requires Once(s) && s != []
    ensures Once(s[1..]) && s[0] !in s[1..]
  {
  }

  lemma OnceFront(k: nat, s: seq<nat>)
    requires Once(s) && k !in s
    ensures Once([k] + s)
  {
  }

  lemma {:induction false} WithoutOnce(s: seq<nat>, k: nat)
    requires Once(s)
    ensures Once(Without(s, k))
  {
    if s != [] {
      OnceTail(s);
      WithoutOnce(s[1..], k);
      if s[0] != k {
        OnceFront(s[0], Without(s[1..], k));
      }
    }
  }

  lemma {:induction false} RecentOnce(run: seq<nat>)
    ensures Once(Recent(run))
  {
    if run != [] {
      var n := |run| - 1;
      RecentOnce(run[..n]);
      WithoutOnce(Recent(run[..n]), run[n]);
      OnceFront(run[n], Without(Recent(run[..n]), run[n]));
    }
  }

  /** Leaving one place out, the first `n` that are left are among the first `n + 1`. */
  lemma {:induction false} FirstWithout(s: seq<nat>, k: nat, n: nat)
    requires Once(s)
    ensures First(n, Without(s, k)) == First(n, Without(First(n + 1, s), k))
    decreases |s|
  {
    hide Once;
    if s != [] {
      OnceTail(s);
      var rest := Without(s[1..], k);
      if s[0] == k {
        assert First(n + 1, s)[1..] == First(n, s[1..]);
        assert rest == s[1..];
      } else if n > 0 {
        FirstWithout(s[1..], k, n - 1);
        assert First(n + 1, s)[1..] == First(n, s[1..]);
        FirstFront(s[0], rest, n - 1);
        FirstFront(s[0], Without(First(n, s[1..]), k), n - 1);
      }
    }
  }

  lemma FirstFront(x: nat, s: seq<nat>, n: nat)
    ensures First(n + 1, [x] + s) == [x] + First(n, s)
  {
  }

  /** After any run of requests the cache holds the last four different places, the latest first: what drops out
      is the one that has not been asked for longest. */
  lemma {:induction false} KeepsLatest(run: seq<nat>)
    ensures Touched(run) == First(4, Recent(run))
  {
    if run != [] {
      var n := |run| - 1;
      var k, all := run[n], Recent(run[..n]);
      KeepsLatest(run[..n]);
      RecentOnce(run[..n]);
      FirstWithout(all, k, 3);
      FirstFront(k, Without(all, k), 3);
      FirstFront(k, Without(First(4, all), k), 3);
    }
  }
}
