/** The string pool of a GBNL table: every distinct string once, in the order of first use. */
module Pools {
  import opened Bytes

  /** The offset of a string that is not there. */
  const NIL: nat := 0xffff_ffff

  datatype Value =
    | Num(value: nat)
    | Text(str: seq<byte>, offset: nat)
    | Fixed(chars: seq<byte>)
    | Gap(pad: seq<byte>)

  predicate Live(v: Value) { v.Text? && v.offset != NIL }

  /** The offsets given out so far, and where the next string goes. */
  datatype Pool = Pool(offsets: map<seq<byte>, nat>, size: nat)

  function Add(p: Pool, v: Value): Pool {
    if Live(v) && v.str !in p.offsets then Pool(p.offsets[v.str := p.size], p.size + |v.str| + 1) else p
  }

  /** The pool of a table, field by field. */
  function Collect(vs: seq<Value>): Pool {
    if vs == [] then Pool(map[], 0) else Add(Collect(vs[..|vs| - 1]), vs[|vs| - 1])
  }

  /** The different strings in the order of first use. */
  function Strings(vs: seq<Value>): seq<seq<byte>> {
    if vs == [] then []
    else
      var rest, v := Strings(vs[..|vs| - 1]), vs[|vs| - 1];
      if Live(v) && v.str !in rest then rest + [v.str] else rest
  }

  function PoolBytes(strs: seq<seq<byte>>): seq<byte> {
    if strs == [] then [] else PoolBytes(strs[..|strs| - 1]) + strs[|strs| - 1] + [0]
  }

  /** What the second pass writes: a string whenever its offset is where writing has got to. */
  function Emitted(vs: seq<Value>): seq<byte> {
    if vs == [] then []
    else
      var out, v := Emitted(vs[..|vs| - 1]), vs[|vs| - 1];
      if v.Text? && v.offset == |out| then out + v.str + [0] else out
  }

  predicate NoDuplicates(strs: seq<seq<byte>>) {
    forall i, j {:trigger strs[i], strs[j]} :: 0 <= i < j < |strs| ==> strs[i] != strs[j]
  }

  /** A field that has been given its offset. */
  predicate Settled(v: Value, p: Pool) {
    Live(v) ==> v.str in p.offsets && p.offsets[v.str] == v.offset
  }

  /** The pool is as long as its strings, which are all different and are those with an offset. */
  lemma {:induction false} CollectStrings(vs: seq<Value>)
    ensures NoDuplicates(Strings(vs)) && Collect(vs).size == |PoolBytes(Strings(vs))|
    ensures forall s {:trigger s in Collect(vs).offsets} {:trigger s in Strings(vs)} :: s in Collect(vs).offsets <==> s in Strings(vs)
  {
    if vs != [] {
      var init := vs[..|vs| - 1];
      CollectStrings(init);
      var seen, now := Strings(init), Strings(vs);
      if |now| > |seen| {
        assert now[..|now| - 1] == seen;
      }
    }
  }

  /** The first pass gives each distinct string its place in the pool: the end of those before it. */
  lemma {:induction false} Placed(vs: seq<Value>, s: seq<byte>) returns (i: nat)
    requires s in Strings(vs)
    ensures i < |Strings(vs)| && Strings(vs)[i] == s
    ensures s in Collect(vs).offsets && Collect(vs).offsets[s] == |PoolBytes(Strings(vs)[..i])|
  {
    var init := vs[..|vs| - 1];
    CollectStrings(init);
    if s in Strings(init) {
      i := Placed(init, s);
    } else {
      i := |Strings(init)|;
    }
    assert Strings(vs)[..i] == Strings(init)[..i];
    assert i == |Strings(init)| ==> Strings(init)[..i] == Strings(init);
  }

  /** A longer list only adds strings at the end. */
  lemma {:induction false} StringsGrow(vs: seq<Value>, n: nat)
    requires n <= |vs|
    ensures Strings(vs[..n]) <= Strings(vs)
    decreases |vs|
  {
    if n == |vs| {
      assert vs[..n] == vs;
    } else {
      StringsGrow(vs[..|vs| - 1], n);
      assert vs[..|vs| - 1][..n] == vs[..n];
    }
  }

  lemma {:induction false} PoolPrefix(strs: seq<seq<byte>>, n: nat)
    requires n <= |strs|
    ensures PoolBytes(strs[..n]) <= PoolBytes(strs)
    ensures n < |strs| ==> PoolBytes(strs[..n]) + strs[n] + [0] <= PoolBytes(strs)
    decreases |strs|
  {
    if n == |strs| {
      assert strs[..n] == strs;
    } else {
      PoolPrefix(strs[..|strs| - 1], n);
      assert strs[..|strs| - 1][..n] == strs[..n];
    }
  }

  /** The string of a live field is in the pool of the list. */
  lemma {:induction false} StringsHave(vs: seq<Value>, n: nat)
    requires n < |vs| && Live(vs[n])
    ensures vs[n].str in Strings(vs)
    decreases |vs|
  {
    if n < |vs| - 1 {
      StringsHave(vs[..|vs| - 1], n);
    }
  }

  /** The fields as the first pass leaves them. */
  predicate AllSettled(vs: seq<Value>) {
    forall n {:trigger vs[n]} :: 0 <= n < |vs| ==> Settled(vs[n], Collect(vs))
  }

  /** A settled field is at the end of the strings before its own. */
  lemma PlaceOf(vs: seq<Value>, n: nat) returns (i: nat)
    requires AllSettled(vs) && n < |vs| && Live(vs[n])
    ensures i < |Strings(vs)| && Strings(vs)[i] == vs[n].str && vs[n].offset == |PoolBytes(Strings(vs)[..i])|
  {
    StringsHave(vs, n);
    i := Placed(vs, vs[n].str);
  }

  /** While the second pass runs, a string is at its offset exactly when it has not been written yet. */
  lemma EmitStep(vs: seq<Value>, n: nat)
    requires AllSettled(vs) && Collect(vs).size < NIL && n < |vs|
    ensures vs[n].Text? && vs[n].offset == |PoolBytes(Strings(vs[..n]))| <==> Live(vs[n]) && vs[n].str !in Strings(vs[..n])
  {
    hide AllSettled, Collect, PoolBytes;
    var strs, v, seen := Strings(vs), vs[n], Strings(vs[..n]);
    CollectStrings(vs);
    StringsGrow(vs, n);
    PoolPrefix(strs, |seen|);
    assert strs[..|seen|] == seen;
    if Live(v) {
      var i := PlaceOf(vs, n);
      StringsGrow(vs, n + 1);
      assert vs[..n + 1][..n] == vs[..n];
      assert v.str !in seen ==> strs[|seen|] == v.str;
      if v.str in seen {
        var k :| 0 <= k < |seen| && seen[k] == v.str;
        assert strs[k] == v.str;
        Earlier(strs, i, |seen|);
      }
    }
  }

  lemma Earlier(strs: seq<seq<byte>>, i: nat, n: nat)
    requires i < n <= |strs|
    ensures |PoolBytes(strs[..i])| < |PoolBytes(strs[..n])|
  {
    PoolPrefix(strs[..n], i);
    assert strs[..n][..i] == strs[..i];
  }

  /** The second pass writes every distinct string exactly once, in the order of first use, and ends
      where the first pass ended. */
  lemma {:induction false} EmittedIsPool(vs: seq<Value>, n: nat)
    requires AllSettled(vs) && Collect(vs).size < NIL && n <= |vs|
    ensures Emitted(vs[..n]) == PoolBytes(Strings(vs[..n]))
  {
    if n > 0 {
      EmittedIsPool(vs, n - 1);
      EmitStep(vs, n - 1);
      assert vs[..n][..n - 1] == vs[..n - 1];
      var seen, now := Strings(vs[..n - 1]), Strings(vs[..n]);
      if |now| > |seen| {
        assert now[..|now| - 1] == seen;
      }
    }
  }

  /** The string found at the offset of a live field is that of the field. */
  lemma FoundInPool(vs: seq<Value>, n: nat)
    requires AllSettled(vs) && n < |vs| && Live(vs[n]) && 0 !in vs[n].str
    ensures vs[n].offset < Collect(vs).size == |PoolBytes(Strings(vs))|
    ensures CStringIn(PoolBytes(Strings(vs))[vs[n].offset..]) == Some(vs[n].str)
  {
    hide AllSettled, Collect, PoolBytes, Strings, CStringIn;
    var v := vs[n];
    CollectStrings(vs);
    var i := PlaceOf(vs, n);
    PoolPrefix(Strings(vs), i);
    var pool := PoolBytes(Strings(vs));
    var rest := pool[v.offset + |v.str| + 1..];
    assert pool[v.offset..] == v.str + [0] + rest;
    CStringFound(v.str, rest);
  }

  /** What the first pass makes of a field. */
  function Settle(v: Value, p: Pool): Value {
    if Live(v) && v.str in p.offsets then Text(v.str, p.offsets[v.str]) else v
  }

  function SettleAll(vs: seq<Value>, p: Pool): (r: seq<Value>)
    ensures |r| == |vs| && forall i {:trigger r[i]} :: 0 <= i < |r| ==> r[i] == Settle(vs[i], p)
  {
    seq(|vs|, i requires 0 <= i < |vs| => Settle(vs[i], p))
  }

  /** Offsets do not matter for the pool as long as nothing appears or disappears. */
  lemma {:induction false} CollectSame(vs: seq<Value>, ws: seq<Value>)
    requires |vs| == |ws|
    requires forall i {:trigger vs[i]} {:trigger ws[i]} :: 0 <= i < |vs| ==> (Live(vs[i]) <==> Live(ws[i])) && (Live(vs[i]) ==> vs[i].str == ws[i].str)
    ensures Collect(vs) == Collect(ws) && Strings(vs) == Strings(ws)
  {
    if vs != [] {
      var n := |vs| - 1;
      assert forall i :: 0 <= i < n ==> vs[..n][i] == vs[i] && ws[..n][i] == ws[i];
      CollectSame(vs[..n], ws[..n]);
    }
  }

  /** After the first pass the fields are settled, and a second run of it changes nothing. */
  lemma SettledAfter(vs: seq<Value>)
    requires Collect(vs).size < NIL
    ensures AllSettled(SettleAll(vs, Collect(vs))) && Collect(SettleAll(vs, Collect(vs))) == Collect(vs)
    ensures SettleAll(SettleAll(vs, Collect(vs)), Collect(vs)) == SettleAll(vs, Collect(vs))
  {
    hide Collect, PoolBytes, Strings;
    var p := Collect(vs);
    var ws := SettleAll(vs, p);
    CollectStrings(vs);
    forall i | 0 <= i < |vs|
      ensures Live(vs[i]) ==> Live(ws[i]) && vs[i].str in p.offsets
      ensures Live(ws[i]) ==> Live(vs[i])
    {
      if Live(vs[i]) {
        StringsHave(vs, i);
        var k := Placed(vs, vs[i].str);
        PoolPrefix(Strings(vs), k);
      }
    }
    CollectSame(vs, ws);
  }
}
