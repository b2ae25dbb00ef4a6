/** Cutting one item into consecutive pieces: where the pieces stand and where the labels go. */
module Slices {
  import opened Bytes
  import opened Items

  predicate Ascending(s: seq<nat>) {
    forall i, j {:trigger s[i], s[j]} :: 0 <= i < j < |s| ==> s[i] <= s[j]
  }

  lemma AscendingAt(s: seq<nat>, i: nat, j: nat)
    requires Ascending(s)
    ensures i <= j < |s| ==> s[i] <= s[j]
  {
  }

  /** Piece `j` reaches from at[j] to at[j + 1]. It takes a label that lies inside, or at its place if it is empty. */
  predicate Takes(at: seq<nat>, j: nat, o: nat)
    requires j + 1 < |at|
  {
    o < at[j + 1] || (o == at[j + 1] && o == at[j])
  }

  /** The first piece from `j` on that takes a label at offset `o`, or the number of pieces if none does. */
  function Home(at: seq<nat>, o: nat, j: nat): (h: nat)
    requires j < |at|
    ensures j <= h < |at|
    ensures h + 1 < |at| ==> Takes(at, h, o)
    ensures forall i {:trigger Takes(at, i, o)} :: j <= i < h ==> !Takes(at, i, o)
    decreases |at| - j
  {
    if j + 1 == |at| then j
    else if Takes(at, j, o) then j
    else Home(at, o, j + 1)
  }

  /** A label at offset `o` has a piece to go to. */
  predicate Housed(at: seq<nat>, o: nat) {
    |at| > 0 && Home(at, o, 0) + 1 < |at|
  }

  /** The piece a label goes to holds its offset. */
  lemma HomeHolds(at: seq<nat>, o: nat)
    requires Ascending(at) && Housed(at, o) && at[0] == 0
    ensures var h := Home(at, o, 0); at[h] <= o && (o < at[h + 1] || at[h] == at[h + 1] == o)
  {
    var h := Home(at, o, 0);
    if h > 0 {
      assert !Takes(at, h - 1, o);
    }
  }

  lemma HomeExists(at: seq<nat>, o: nat)
    requires |at| > 1 && Takes(at, |at| - 2, o)
    ensures Housed(at, o)
  {
  }

  /** Moves the labels at the front of the rest into a piece for as long as it takes them. */
  method MoveLabels(lbls: seq<Label>, ghost offs: seq<nat>, n: nat, it: Item, at: seq<nat>, j: nat) returns (r: nat)
    requires |offs| == |lbls| && n <= |lbls| && j + 1 < |at|
    requires forall a, b :: 0 <= a < b < |lbls| ==> lbls[a] != lbls[b]
    requires forall q {:trigger lbls[q]} :: n <= q < |lbls| ==> lbls[q].offset == offs[q] && at[j] <= offs[q]
    requires it.labels == []
    modifies it`labels, lbls
    ensures n <= r <= |lbls|
    ensures forall q {:trigger lbls[q]} {:trigger offs[q]} :: n <= q < r ==>
              Takes(at, j, offs[q]) && lbls[q].item == it && lbls[q].offset == offs[q] - at[j]
    ensures r < |lbls| ==> !Takes(at, j, offs[r])
    ensures forall q {:trigger lbls[q]} :: 0 <= q < n || r <= q < |lbls| ==>
              lbls[q].item == old(lbls[q].item) && lbls[q].offset == old(lbls[q].offset)
    ensures it.labels == lbls[n..r]
  {
    r := n;
    while r < |lbls| && Takes(at, j, lbls[r].offset)
      invariant n <= r <= |lbls|
      invariant forall q {:trigger lbls[q]} {:trigger offs[q]} :: n <= q < r ==>
                  Takes(at, j, offs[q]) && lbls[q].item == it && lbls[q].offset == offs[q] - at[j]
      invariant forall q {:trigger lbls[q]} :: r <= q < |lbls| ==> lbls[q].offset == offs[q]
      invariant forall q {:trigger lbls[q]} :: 0 <= q < n || r <= q < |lbls| ==>
                  lbls[q].item == old(lbls[q].item) && lbls[q].offset == old(lbls[q].offset)
      invariant it.labels == lbls[n..r]
    {
      lbls[r].item := it;
      lbls[r].offset := lbls[r].offset - at[j];
      it.labels := it.labels + [lbls[r]];
      r := r + 1;
    }
  }

  /** The first `j` pieces stand one after the other from `base` on and list their labels. */
  ghost predicate Placed(items: seq<Item>, lbls: seq<Label>, at: seq<nat>, base: nat, cut: seq<nat>, j: nat)
    reads items
  {
    && j <= |items| == |at| - 1 && j < |cut| && Ascending(cut) && cut[j] <= |lbls|
    && forall i {:trigger items[i]} :: 0 <= i < j ==>
         && items[i].position == base + at[i]
         && items[i].labels == lbls[cut[i]..cut[i + 1]]
  }

  /** Label `q`, once at offset `o`, points into its piece. */
  ghost predicate Moved(l: Label, q: nat, o: nat, items: seq<Item>, at: seq<nat>, cut: seq<nat>)
    requires |items| == |at| - 1
    reads l
  {
    var h := Home(at, o, 0);
    h + 1 < |cut| && h < |items| && cut[h] <= q < cut[h + 1] && l.item == items[h] && l.offset == o - at[h]
  }

  /** The first `n` labels have moved to the first `j` pieces, the others wait for later ones. */
  ghost predicate MovedTo(lbls: seq<Label>, offs: seq<nat>, items: seq<Item>, at: seq<nat>, cut: seq<nat>, n: nat, j: nat)
    requires |items| == |at| - 1 && |offs| == |lbls|
    reads lbls
  {
    && n <= |lbls| && j < |at|
    && (forall q {:trigger lbls[q]} {:trigger offs[q]} :: 0 <= q < n ==> Moved(lbls[q], q, offs[q], items, at, cut))
    && (forall q {:trigger lbls[q]} {:trigger offs[q]} :: n <= q < |lbls| ==>
         lbls[q].offset == offs[q] && Housed(at, offs[q]) && j <= Home(at, offs[q], 0))
    && (j == |items| ==> n == |lbls|)
  }

  lemma HomesBelow(offs: seq<nat>, at: seq<nat>, n: nat, j: nat)
    requires Ascending(at) && j < |at| && at[0] == 0
    requires forall q {:trigger offs[q]} :: n <= q < |offs| ==> Housed(at, offs[q]) && j <= Home(at, offs[q], 0)
    ensures forall q {:trigger offs[q]} :: n <= q < |offs| ==> at[j] <= offs[q]
  {
    forall q | n <= q < |offs|
      ensures at[j] <= offs[q]
    {
      HomeHolds(at, offs[q]);
    }
  }

  /** The labels a piece takes are those it is home to; the rest belong to later pieces. */
  lemma HomesNext(offs: seq<nat>, at: seq<nat>, n: nat, r: nat, j: nat)
    requires Ascending(offs) && j + 1 < |at| && n <= r <= |offs|
    requires forall q {:trigger offs[q]} :: n <= q < |offs| ==> Housed(at, offs[q]) && j <= Home(at, offs[q], 0)
    requires forall q {:trigger offs[q]} :: n <= q < r ==> Takes(at, j, offs[q])
    requires r < |offs| ==> !Takes(at, j, offs[r])
    ensures j + 2 == |at| ==> r == |offs|
    ensures forall q {:trigger offs[q]} :: n <= q < r ==> Home(at, offs[q], 0) == j
    ensures forall q {:trigger offs[q]} :: r <= q < |offs| ==> j < Home(at, offs[q], 0)
  {
    forall q | r <= q < |offs|
      ensures j < Home(at, offs[q], 0)
    {
      assert offs[r] <= offs[q];
    }
  }

  lemma PlacedNext(items: seq<Item>, lbls: seq<Label>, at: seq<nat>, base: nat, cut: seq<nat>, r: nat, j: nat)
    requires Placed(items, lbls, at, base, cut, j) && j < |items| && |cut| == j + 1 && cut[j] <= r <= |lbls|
    requires items[j].position == base + at[j] && items[j].labels == lbls[cut[j]..r]
    ensures Placed(items, lbls, at, base, cut + [r], j + 1)
  {
  }

  lemma MovedNext(lbls: seq<Label>, offs: seq<nat>, items: seq<Item>, at: seq<nat>, cut: seq<nat>, n: nat, r: nat, j: nat)
    requires |items| == |at| - 1 && |offs| == |lbls| && j < |items| && |cut| == j + 1 && cut[j] == n <= r <= |lbls|
    requires forall q {:trigger lbls[q]} {:trigger offs[q]} :: 0 <= q < n ==> Moved(lbls[q], q, offs[q], items, at, cut)
    requires forall q {:trigger lbls[q]} {:trigger offs[q]} :: n <= q < r ==>
               Home(at, offs[q], 0) == j && lbls[q].item == items[j] && at[j] + lbls[q].offset == offs[q]
    requires forall q {:trigger lbls[q]} {:trigger offs[q]} :: r <= q < |lbls| ==>
               lbls[q].offset == offs[q] && Housed(at, offs[q]) && j < Home(at, offs[q], 0)
    requires j + 2 == |at| ==> r == |lbls|
    ensures MovedTo(lbls, offs, items, at, cut + [r], r, j + 1)
  {
    hide Home, Housed, Moved;
    forall q | 0 <= q < r
      ensures Moved(lbls[q], q, offs[q], items, at, cut + [r])
    {
      MovedOne(lbls[q], q, offs[q], items, at, cut, n, r, j);
    }
  }

  lemma MovedOne(l: Label, q: nat, o: nat, items: seq<Item>, at: seq<nat>, cut: seq<nat>, n: nat, r: nat, j: nat)
    requires |items| == |at| - 1 && j < |items| && |cut| == j + 1 && cut[j] == n <= r && q < r
    requires q < n ==> Moved(l, q, o, items, at, cut)
    requires n <= q ==> Home(at, o, 0) == j && l.item == items[j] && at[j] + l.offset == o
    ensures Moved(l, q, o, items, at, cut + [r])
  {
    hide Home;
  }

  /** Places one piece. */
  method PlacePiece(lbls: seq<Label>, ghost offs: seq<nat>, items: seq<Item>, at: seq<nat>, base: nat,
                    ghost cut: seq<nat>, n: nat, j: nat) returns (r: nat)
    requires |offs| == |lbls| && |items| == |at| - 1 && Ascending(offs) && Ascending(at) && at[0] == 0
    requires forall a, b :: 0 <= a < b < |lbls| ==> lbls[a] != lbls[b]
    requires forall a, b :: 0 <= a < b < |items| ==> items[a] != items[b]
    requires j < |items| && |cut| == j + 1 && cut[j] == n && items[j].labels == []
    requires Placed(items, lbls, at, base, cut, j) && MovedTo(lbls, offs, items, at, cut, n, j)
    modifies items[j], lbls
    ensures n <= r && items[j].body == old(items[j].body)
    ensures Placed(items, lbls, at, base, cut + [r], j + 1) && MovedTo(lbls, offs, items, at, cut + [r], r, j + 1)
  {
    hide Home, Takes;
    HomesBelow(offs, at, n, j);
    r := MoveLabels(lbls, offs, n, items[j], at, j);
    items[j].position := base + at[j];
    HomesNext(offs, at, n, r, j);
    PlacedNext(items, lbls, at, base, cut, r, j);
    MovedNext(lbls, offs, items, at, cut, n, r, j);
  }

  /** Adds an index entry for each of the first `n` pieces whose position has none. */
  function Emplaced<T>(pmap: map<nat, T>, base: nat, items: seq<T>, at: seq<nat>, n: nat): map<nat, T>
    requires n <= |items| == |at| - 1
  {
    if n == 0 then pmap
    else
      var rest := Emplaced(pmap, base, items, at, n - 1);
      var pos := base + at[n - 1];
      if pos in rest then rest else rest[pos := items[n - 1]]
  }

  lemma EmplacedNext<T>(pmap: map<nat, T>, base: nat, items: seq<T>, at: seq<nat>, n: nat)
    requires n < |items| == |at| - 1
    ensures Emplaced(pmap, base, items, at, 0) == pmap
    ensures var r := Emplaced(pmap, base, items, at, n);
            Emplaced(pmap, base, items, at, n + 1) == if base + at[n] in r then r else r[base + at[n] := items[n]]
  {
  }

  /** Places the pieces one after the other from `base` on, hands each its labels and, unless the
      index is off, its entry. `cut[j]` labels go to the pieces before piece `j`. */
  method PlacePieces(lbls: seq<Label>, ghost offs: seq<nat>, items: seq<Item>, at: seq<nat>, base: nat,
                     index: map<nat, Item>, indexed: bool)
    returns (ghost cut: seq<nat>, pmap: map<nat, Item>)
    requires |offs| == |lbls| && |items| == |at| - 1 > 0 && Ascending(offs) && Ascending(at) && at[0] == 0
    requires forall a, b :: 0 <= a < b < |lbls| ==> lbls[a] != lbls[b]
    requires forall a, b :: 0 <= a < b < |items| ==> items[a] != items[b]
    requires forall q {:trigger lbls[q]} {:trigger offs[q]} :: 0 <= q < |lbls| ==> lbls[q].offset == offs[q] && Housed(at, offs[q])
    requires forall j {:trigger items[j]} :: 0 <= j < |items| ==> items[j].labels == []
    modifies items, lbls
    ensures |cut| == |items| + 1 && cut[0] == 0 && cut[|items|] == |lbls|
    ensures Placed(items, lbls, at, base, cut, |items|) && MovedTo(lbls, offs, items, at, cut, |lbls|, |items|)
    ensures forall j {:trigger items[j]} :: 0 <= j < |items| ==> items[j].body == old(items[j].body)
    ensures pmap == if indexed then Emplaced(index, base, items, at, |items|) else index
  {
    hide Emplaced, Home, Takes;
    cut := [0];
    pmap := index;
    EmplacedNext(index, base, items, at, 0);
    var n, j := 0, 0;
    while j < |items|
      invariant 0 <= j <= |items| && |cut| == j + 1 && cut[0] == 0 && cut[j] == n
      invariant Placed(items, lbls, at, base, cut, j) && MovedTo(lbls, offs, items, at, cut, n, j)
      invariant forall i {:trigger items[i]} :: 0 <= i < |items| ==> items[i].body == old(items[i].body)
      invariant forall i {:trigger items[i]} :: j <= i < |items| ==> items[i].labels == []
      invariant pmap == if indexed then Emplaced(index, base, items, at, j) else index
    {
      n := PlacePiece(lbls, offs, items, at, base, cut, n, j);
      cut := cut + [n];
      EmplacedNext(index, base, items, at, j);
      if indexed && base + at[j] !in pmap {
        pmap := pmap[base + at[j] := items[j]];
      }
      j := j + 1;
    }
  }
}
