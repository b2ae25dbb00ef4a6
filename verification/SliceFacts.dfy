/** What cutting one item into pieces does to the list as values. */
module SliceFacts {
  import opened Bytes
  import opened Items
  import opened Registry
  import opened Slices

  /** `cut` splits the labels of an item, given by their offsets, into those of each piece. */
  ghost predicate Cuts(offs: seq<nat>, at: seq<nat>, cut: seq<nat>) {
    && |cut| == |at| > 0 && Ascending(cut) && cut[0] == 0 && cut[|at| - 1] == |offs|
    && forall q {:trigger offs[q]} :: 0 <= q < |offs| ==>
         var h := Home(at, offs[q], 0); Housed(at, offs[q]) && cut[h] <= q < cut[h + 1]
  }

  lemma CutHome(offs: seq<nat>, at: seq<nat>, cut: seq<nat>, j: nat, q: nat)
    requires Cuts(offs, at, cut) && j + 1 < |at| && cut[j] <= q < cut[j + 1]
    ensures q < |offs| && Home(at, offs[q], 0) == j
  {
    AscendingAt(cut, j + 1, |at| - 1);
    var h := Home(at, offs[q], 0);
    AscendingAt(cut, h + 1, j);
    AscendingAt(cut, j + 1, h);
  }

  function Offsets(list: seq<Label>, ptrs: map<string, Ptr>): (offs: seq<nat>)
    requires forall a {:trigger list[a]} :: 0 <= a < |list| ==> list[a].name in ptrs
    ensures |offs| == |list| && forall a {:trigger offs[a]} {:trigger list[a]} :: 0 <= a < |list| ==> offs[a] == ptrs[list[a].name].offset
  {
    seq(|list|, a requires 0 <= a < |list| => ptrs[list[a].name].offset)
  }

  function Replaced<T>(s: seq<T>, k: nat, parts: seq<T>): seq<T>
    requires k < |s|
  {
    s[..k] + parts + s[k + 1..]
  }

  /** Where the elements of a sequence with one element replaced by several come from. */
  lemma ReplacedAt<T>(s: seq<T>, k: nat, parts: seq<T>, i: nat)
    requires k < |s| && i < |s| - 1 + |parts|
    ensures |Replaced(s, k, parts)| == |s| - 1 + |parts|
    ensures Replaced(s, k, parts)[i] ==
              if i < k then s[i] else if i < k + |parts| then parts[i - k] else s[i + 1 - |parts|]
  {
  }

  function PieceCells(base: nat, items: seq<Item>, bodies: seq<Body>, at: seq<nat>): (r: seq<Cell>)
    requires |items| == |bodies| == |at| - 1
    ensures |r| == |items|
    ensures forall j {:trigger r[j]} :: 0 <= j < |r| ==> r[j] == Cell(items[j], base + at[j], bodies[j])
  {
    seq(|items|, j requires 0 <= j < |items| => Cell(items[j], base + at[j], bodies[j]))
  }

  function PieceLists(list: seq<Label>, cut: seq<nat>): (r: seq<seq<Label>>)
    requires |cut| > 0 && Ascending(cut) && cut[|cut| - 1] <= |list|
    ensures |r| == |cut| - 1
    ensures forall j {:trigger r[j]} :: 0 <= j < |r| ==> r[j] == list[cut[j]..cut[j + 1]]
  {
    seq(|cut| - 1, j requires 0 <= j < |cut| - 1 => list[cut[j]..cut[j + 1]])
  }

  /** Every label of the item has a piece to go to. */
  ghost predicate AllHoused(ptrs: map<string, Ptr>, self: Item, at: seq<nat>) {
    forall n {:trigger ptrs[n]} :: n in ptrs && ptrs[n].item == self ==> Housed(at, ptrs[n].offset)
  }

  /** The labels of `self` point into its pieces, at the same file position. */
  ghost function PiecePtrs(ptrs: map<string, Ptr>, self: Item, items: seq<Item>, at: seq<nat>): map<string, Ptr>
    requires |items| == |at| - 1 && Ascending(at) && at[0] == 0 && AllHoused(ptrs, self, at)
  {
    map n | n in ptrs :: if ptrs[n].item == self then MovedPtr(ptrs[n].offset, items, at) else ptrs[n]
  }

  ghost function MovedPtr(o: nat, items: seq<Item>, at: seq<nat>): Ptr
    requires |items| == |at| - 1 && Ascending(at) && at[0] == 0 && Housed(at, o)
  {
    HomeHolds(at, o);
    var h := Home(at, o, 0);
    Ptr(items[h], o - at[h])
  }

  lemma OffsetsAscend(it: Item, list: seq<Label>, labels: map<string, Label>, ptrs: map<string, Ptr>, at: seq<nat>)
    requires ListOk(it, list, labels, ptrs) && AllHoused(ptrs, it, at)
    ensures Ascending(Offsets(list, ptrs))
    ensures forall q {:trigger list[q]} :: 0 <= q < |list| ==> Housed(at, Offsets(list, ptrs)[q])
  {
  }

  lemma PieceListOk(it: Item, list: seq<Label>, labels: map<string, Label>, ptrs: map<string, Ptr>,
                    items: seq<Item>, at: seq<nat>, cut: seq<nat>, j: nat)
    requires ListOk(it, list, labels, ptrs) && |items| == |at| - 1 && Ascending(at) && at[0] == 0 && j < |items|
    requires AllHoused(ptrs, it, at) && Cuts(Offsets(list, ptrs), at, cut)
    ensures cut[j] <= cut[j + 1] <= |list| && ListOk(items[j], list[cut[j]..cut[j + 1]], labels, PiecePtrs(ptrs, it, items, at))
  {
    AscendingAt(cut, j + 1, |at| - 1);
    var part, ptrs' := list[cut[j]..cut[j + 1]], PiecePtrs(ptrs, it, items, at);
    forall a | 0 <= a < |part|
      ensures part[a] == list[cut[j] + a] && at[j] <= ptrs[part[a].name].offset
      ensures ptrs'[part[a].name] == Ptr(items[j], ptrs[part[a].name].offset - at[j])
    {
      CutHome(Offsets(list, ptrs), at, cut, j, cut[j] + a);
      HomeHolds(at, ptrs[part[a].name].offset);
    }
  }

  /** An item may be cut at these places, with its labels split like this. */
  ghost predicate Sliceable(m: Mirror, labels: map<string, Label>, k: nat, items: seq<Item>, bodies: seq<Body>, at: seq<nat>, cut: seq<nat>) {
    && k < |m.cells| == |m.lists| && |items| == |bodies| == |at| - 1 == |cut| - 1
    && Linked(m.cells, m.lists, labels, m.ptrs) && Distinct(m.cells)
    && Ascending(at) && at[0] == 0
    && AllHoused(m.ptrs, m.cells[k].item, at)
    && (forall a {:trigger m.lists[k][a]} :: 0 <= a < |m.lists[k]| ==> m.lists[k][a].name in m.ptrs)
    && Cuts(Offsets(m.lists[k], m.ptrs), at, cut)
  }

  /** `r` is the list after item `k` has been cut. */
  ghost predicate IsSliced(m: Mirror, labels: map<string, Label>, k: nat, items: seq<Item>, bodies: seq<Body>, at: seq<nat>, cut: seq<nat>, r: Mirror) {
    && Sliceable(m, labels, k, items, bodies, at, cut)
    && r == m.(cells := Replaced(m.cells, k, PieceCells(m.cells[k].pos, items, bodies, at)),
               lists := Replaced(m.lists, k, PieceLists(m.lists[k], cut)),
               ptrs := PiecePtrs(m.ptrs, m.cells[k].item, items, at))
  }

  /** The part of a cut list at index `i`. */
  lemma SlicedAt(m: Mirror, labels: map<string, Label>, k: nat, items: seq<Item>, bodies: seq<Body>, at: seq<nat>, cut: seq<nat>, r: Mirror, i: nat)
    requires IsSliced(m, labels, k, items, bodies, at, cut, r)
    ensures k < |m.cells| == |m.lists| && |items| == |bodies| == |at| - 1 == |cut| - 1 && at[0] == 0
    ensures |r.cells| == |r.lists| == |m.cells| - 1 + |items|
    ensures k <= i < k + |items| ==>
              && r.cells[i] == Cell(items[i - k], m.cells[k].pos + at[i - k], bodies[i - k])
              && cut[i - k] <= cut[i - k + 1] <= |m.lists[k]|
              && r.lists[i] == m.lists[k][cut[i - k]..cut[i - k + 1]]
    ensures i < k ==> r.cells[i] == m.cells[i] && r.lists[i] == m.lists[i]
    ensures k + |items| <= i < |r.cells| ==>
              r.cells[i] == m.cells[i + 1 - |items|] && r.lists[i] == m.lists[i + 1 - |items|]
  {
    var pc, pl := PieceCells(m.cells[k].pos, items, bodies, at), PieceLists(m.lists[k], cut);
    hide Linked, Distinct, AllHoused;
    if i < |r.cells| {
      ReplacedAt(m.cells, k, pc, i);
      ReplacedAt(m.lists, k, pl, i);
    }
    if k <= i < k + |items| {
      AscendingAt(cut, i - k + 1, |at| - 1);
    }
  }

  /** The place of label `n` in a cut list. */
  lemma SlicedPtr(m: Mirror, labels: map<string, Label>, k: nat, items: seq<Item>, bodies: seq<Body>, at: seq<nat>, cut: seq<nat>, r: Mirror, n: string)
    requires IsSliced(m, labels, k, items, bodies, at, cut, r) && n in labels
    ensures k < |m.cells| && |items| == |at| - 1 && n in r.ptrs && n in m.ptrs && r.ptrs.Keys == labels.Keys
    ensures m.ptrs[n].item != m.cells[k].item ==> r.ptrs[n] == m.ptrs[n]
    ensures m.ptrs[n].item == m.cells[k].item ==>
              var o := m.ptrs[n].offset; var h := Home(at, o, 0);
              && h < |items| && at[h] <= o && (o < at[h + 1] || at[h] == at[h + 1] == o)
              && r.ptrs[n] == Ptr(items[h], o - at[h])
  {
    if m.ptrs[n].item == m.cells[k].item {
      HomeHolds(at, m.ptrs[n].offset);
    }
  }

  /** The lists of other items are as they were. */
  lemma OtherListOk(it: Item, list: seq<Label>, labels: map<string, Label>, ptrs: map<string, Ptr>, self: Item, items: seq<Item>, at: seq<nat>)
    requires ListOk(it, list, labels, ptrs) && it != self && |items| == |at| - 1 && Ascending(at) && at[0] == 0 && AllHoused(ptrs, self, at)
    ensures ListOk(it, list, labels, PiecePtrs(ptrs, self, items, at))
  {
    hide Ascending, AllHoused;
    ListKept(it, list, labels, ptrs, labels, PiecePtrs(ptrs, self, items, at));
  }

  lemma SlicedListAt(m: Mirror, labels: map<string, Label>, k: nat, items: seq<Item>, bodies: seq<Body>, at: seq<nat>, cut: seq<nat>, r: Mirror, i: nat)
    requires IsSliced(m, labels, k, items, bodies, at, cut, r) && i < |r.cells|
    ensures i < |r.lists| && ListOk(r.cells[i].item, r.lists[i], labels, r.ptrs)
  {
    hide Replaced, PieceCells, PieceLists, Cuts, AllHoused, Home, ListOk, Ascending;
    SlicedAt(m, labels, k, items, bodies, at, cut, r, i);
    if k <= i < k + |items| {
      PieceListOk(m.cells[k].item, m.lists[k], labels, m.ptrs, items, at, cut, i - k);
    } else {
      var o := if i < k then i else i + 1 - |items|;
      assert m.cells[o].item != m.cells[k].item;
      OtherListOk(m.cells[o].item, m.lists[o], labels, m.ptrs, m.cells[k].item, items, at);
    }
  }

  lemma SlicedLists(m: Mirror, labels: map<string, Label>, k: nat, items: seq<Item>, bodies: seq<Body>, at: seq<nat>, cut: seq<nat>, r: Mirror)
    requires IsSliced(m, labels, k, items, bodies, at, cut, r)
    ensures |r.lists| == |r.cells|
    ensures forall i {:trigger r.lists[i]} :: 0 <= i < |r.lists| ==> ListOk(r.cells[i].item, r.lists[i], labels, r.ptrs)
  {
    hide IsSliced, ListOk;
    SlicedAt(m, labels, k, items, bodies, at, cut, r, 0);
    forall i | 0 <= i < |r.cells|
      ensures i < |r.lists| && ListOk(r.cells[i].item, r.lists[i], labels, r.ptrs)
    {
      SlicedListAt(m, labels, k, items, bodies, at, cut, r, i);
    }
  }

  lemma PieceOf(list: seq<Label>, offs: seq<nat>, at: seq<nat>, cut: seq<nat>, q: nat) returns (h: nat)
    requires |offs| == |list| && Cuts(offs, at, cut) && q < |list|
    ensures h == Home(at, offs[q], 0) && h + 1 < |at|
    ensures cut[h] <= cut[h + 1] <= |list| && list[q] in list[cut[h]..cut[h + 1]]
  {
    h := Home(at, offs[q], 0);
    AscendingAt(cut, h + 1, |at| - 1);
    assert list[cut[h]..cut[h + 1]][q - cut[h]] == list[q];
  }

  /** A label of the item is listed by the piece it moves to. */
  lemma SlicedHome(m: Mirror, labels: map<string, Label>, k: nat, items: seq<Item>, bodies: seq<Body>, at: seq<nat>, cut: seq<nat>, r: Mirror, n: string)
    returns (i: nat)
    requires IsSliced(m, labels, k, items, bodies, at, cut, r)
    requires n in labels && m.ptrs[n].item == m.cells[k].item
    ensures n in r.ptrs && i < |r.cells| && Lists(r.lists, i, labels[n]) && r.cells[i].item == r.ptrs[n].item
  {
    ListedAt(m.cells, m.lists, labels, m.ptrs, n, k);
    var q :| 0 <= q < |m.lists[k]| && m.lists[k][q] == labels[n];
    var h := PieceOf(m.lists[k], Offsets(m.lists[k], m.ptrs), at, cut, q);
    i := k + h;
    SlicedAt(m, labels, k, items, bodies, at, cut, r, i);
  }

  /** Any other label stays where it is. */
  lemma SlicedAway(m: Mirror, labels: map<string, Label>, k: nat, items: seq<Item>, bodies: seq<Body>, at: seq<nat>, cut: seq<nat>, r: Mirror, n: string)
    returns (i: nat)
    requires IsSliced(m, labels, k, items, bodies, at, cut, r)
    requires n in labels && m.ptrs[n].item != null && m.ptrs[n].item != m.cells[k].item
    ensures n in r.ptrs && i < |r.cells| && Lists(r.lists, i, labels[n]) && r.cells[i].item == r.ptrs[n].item
  {
    var o: nat :| Lists(m.lists, o, labels[n]) && m.cells[o].item == m.ptrs[n].item;
    assert o != k;
    i := if o < k then o else o - 1 + |items|;
    SlicedAt(m, labels, k, items, bodies, at, cut, r, i);
  }

  /** Cutting an item keeps labels and items linked. */
  lemma SlicedLinked(m: Mirror, labels: map<string, Label>, k: nat, items: seq<Item>, bodies: seq<Body>, at: seq<nat>, cut: seq<nat>, r: Mirror)
    requires IsSliced(m, labels, k, items, bodies, at, cut, r)
    ensures |r.lists| == |r.cells| && Linked(r.cells, r.lists, labels, r.ptrs)
  {
    SlicedLists(m, labels, k, items, bodies, at, cut, r);
    forall n | n in labels && r.ptrs[n].item != null
      ensures exists i: nat :: Lists(r.lists, i, labels[n]) && r.cells[i].item == r.ptrs[n].item
    {
      if m.ptrs[n].item == m.cells[k].item {
        var i := SlicedHome(m, labels, k, items, bodies, at, cut, r, n);
      } else {
        var i := SlicedAway(m, labels, k, items, bodies, at, cut, r, n);
      }
    }
  }

  /** The pieces are different from each other and from the items that stay. */
  ghost predicate FreshPieces(cells: seq<Cell>, k: nat, items: seq<Item>) {
    && (forall a, b {:trigger items[a], items[b]} :: 0 <= a < b < |items| ==> items[a] != items[b])
    && (forall a, i {:trigger items[a], cells[i]} :: 0 <= a < |items| && 0 <= i < |cells| && i != k ==> items[a] != cells[i].item)
  }

  lemma SlicedDistinct(m: Mirror, labels: map<string, Label>, k: nat, items: seq<Item>, bodies: seq<Body>, at: seq<nat>, cut: seq<nat>, r: Mirror)
    requires IsSliced(m, labels, k, items, bodies, at, cut, r) && FreshPieces(m.cells, k, items)
    ensures Distinct(r.cells)
  {
    forall i, j | 0 <= i < j < |r.cells|
      ensures r.cells[i].item != r.cells[j].item
    {
      SlicedAt(m, labels, k, items, bodies, at, cut, r, i);
      SlicedAt(m, labels, k, items, bodies, at, cut, r, j);
    }
  }

  /** The pieces have the sizes of the parts they replace; only the last cell may be empty. */
  ghost predicate Fitting(m: Mirror, k: nat, items: seq<Item>, bodies: seq<Body>, at: seq<nat>) {
    && k < |m.cells| && |items| == |bodies| == |at| - 1 > 0 && at[0] == 0
    && at[|items|] == Size(m.cells[k].body)
    && forall j {:trigger bodies[j]} :: 0 <= j < |bodies| ==>
         && at[j + 1] == at[j] + Size(bodies[j])
         && (Size(bodies[j]) > 0 || (j == |items| - 1 && k == |m.cells| - 1))
  }

  lemma SlicedTiling(m: Mirror, labels: map<string, Label>, file: seq<byte>, k: nat, items: seq<Item>, bodies: seq<Body>, at: seq<nat>, cut: seq<nat>, r: Mirror)
    requires IsSliced(m, labels, k, items, bodies, at, cut, r) && Tiling(m.cells, |file|) && Fitting(m, k, items, bodies, at)
    ensures Tiling(r.cells, |file|)
  {
    hide IsSliced, Covers;
    SlicedAt(m, labels, k, items, bodies, at, cut, r, 0);
    SlicedAt(m, labels, k, items, bodies, at, cut, r, |r.cells| - 1);
    assert r.cells[0].pos == 0 && End(r.cells[|r.cells| - 1]) == |file|;
    hide Size;
    forall i: nat, j: nat | j == i + 1 < |r.cells|
      ensures Follows(r.cells[i], r.cells[j])
    {
      SlicedAt(m, labels, k, items, bodies, at, cut, r, i);
      SlicedAt(m, labels, k, items, bodies, at, cut, r, j);
    }
  }

  /** Every label keeps its file position. */
  lemma SlicedAnchored(m: Mirror, labels: map<string, Label>, k: nat, items: seq<Item>, bodies: seq<Body>, at: seq<nat>, cut: seq<nat>, r: Mirror)
    requires IsSliced(m, labels, k, items, bodies, at, cut, r) && Fitting(m, k, items, bodies, at)
    requires m.ptrs.Keys == labels.Keys && Anchored(m.cells, labels, m.ptrs)
    ensures r.ptrs.Keys == labels.Keys && Anchored(r.cells, labels, r.ptrs)
  {
    hide IsSliced, Fitting, Holds;
    SlicedKeys(m, labels, k, items, bodies, at, cut, r);
    forall n | n in labels
      ensures n in r.ptrs && exists i: nat :: Holds(r.cells, i, r.ptrs[n], labels[n].target)
    {
      var o: nat :| Holds(m.cells, o, m.ptrs[n], labels[n].target);
      SlicedHolds(m, labels, k, items, bodies, at, cut, r, n, o);
    }
  }

  lemma SlicedKeys(m: Mirror, labels: map<string, Label>, k: nat, items: seq<Item>, bodies: seq<Body>, at: seq<nat>, cut: seq<nat>, r: Mirror)
    requires IsSliced(m, labels, k, items, bodies, at, cut, r) && m.ptrs.Keys == labels.Keys
    ensures r.ptrs.Keys == labels.Keys
  {
    hide Sliceable;
    SliceableBasics(m, labels, k, items, bodies, at, cut);
  }

  lemma SliceableBasics(m: Mirror, labels: map<string, Label>, k: nat, items: seq<Item>, bodies: seq<Body>, at: seq<nat>, cut: seq<nat>)
    requires Sliceable(m, labels, k, items, bodies, at, cut)
    ensures k < |m.cells| == |m.lists| && |items| == |bodies| == |at| - 1 == |cut| - 1 && at[0] == 0 && Ascending(at) && AllHoused(m.ptrs, m.cells[k].item, at)
  {
  }

  lemma SlicedApart(m: Mirror, labels: map<string, Label>, k: nat, items: seq<Item>, bodies: seq<Body>, at: seq<nat>, cut: seq<nat>, r: Mirror, o: nat)
    requires IsSliced(m, labels, k, items, bodies, at, cut, r) && o < |m.cells|
    ensures k < |m.cells| && (o != k ==> m.cells[o].item != m.cells[k].item)
  {
    hide PieceCells, PieceLists, PiecePtrs, Replaced;
  }

  lemma SlicedHolds(m: Mirror, labels: map<string, Label>, k: nat, items: seq<Item>, bodies: seq<Body>, at: seq<nat>, cut: seq<nat>, r: Mirror, n: string, o: nat)
    requires IsSliced(m, labels, k, items, bodies, at, cut, r) && Fitting(m, k, items, bodies, at)
    requires n in labels && n in m.ptrs && Holds(m.cells, o, m.ptrs[n], labels[n].target)
    ensures n in r.ptrs && exists i: nat :: Holds(r.cells, i, r.ptrs[n], labels[n].target)
  {
    hide IsSliced, Size, Fitting;
    SlicedApart(m, labels, k, items, bodies, at, cut, r, o);
    FittingAt(m, k, items, bodies, at, m.ptrs[n].offset);
    SlicedPtr(m, labels, k, items, bodies, at, cut, r, n);
    var i: nat := if o == k then k + Home(at, m.ptrs[n].offset, 0) else if o < k then o else o - 1 + |items|;
    SlicedAt(m, labels, k, items, bodies, at, cut, r, i);
    assert Holds(r.cells, i, r.ptrs[n], labels[n].target);
  }

  /** A piece is as long as the way to the next one. */
  lemma FittingAt(m: Mirror, k: nat, items: seq<Item>, bodies: seq<Body>, at: seq<nat>, o: nat)
    requires Fitting(m, k, items, bodies, at)
    ensures k < |m.cells| && |items| == |bodies| == |at| - 1
    ensures Home(at, o, 0) < |items| ==> at[Home(at, o, 0) + 1] == at[Home(at, o, 0)] + Size(bodies[Home(at, o, 0)])
  {
    hide Home;
    if Home(at, o, 0) < |items| {
      var b := bodies[Home(at, o, 0)];
    }
  }

  /** Piece `j` stands at file position `p`. */
  ghost predicate Stands(base: nat, at: seq<nat>, j: nat, p: nat) {
    j < |at| && p == base + at[j]
  }

  /** The pieces start at different positions that have no entry yet. */
  ghost predicate NewPositions(pmap: map<nat, Item>, base: nat, at: seq<nat>, n: nat) {
    && n <= |at|
    && (forall j: nat, p: nat {:trigger Stands(base, at, j, p)} :: j < n && Stands(base, at, j, p) ==> p !in pmap)
    && (forall i: nat, j: nat, p: nat {:trigger Stands(base, at, i, p), Stands(base, at, j, p)} ::
         i < j < n && Stands(base, at, i, p) ==> !Stands(base, at, j, p))
  }

  /** An index with the entries of the first `n` pieces added. */
  ghost predicate HasEntries(pmap: map<nat, Item>, base: nat, items: seq<Item>, at: seq<nat>, n: nat, r: map<nat, Item>) {
    && n <= |items| && |items| + 1 == |at|
    && (forall p {:trigger p in r} :: p in r ==> p in pmap || exists j: nat :: j < n && Stands(base, at, j, p))
    && (forall p {:trigger p in pmap} :: p in pmap ==> p in r && r[p] == pmap[p])
    && (forall j: nat, p: nat {:trigger Stands(base, at, j, p)} :: j < n && Stands(base, at, j, p) ==> p in r && r[p] == items[j])
  }

  lemma {:induction false} EmplacedAt(pmap: map<nat, Item>, base: nat, items: seq<Item>, at: seq<nat>, n: nat)
    requires n <= |items| == |at| - 1 && NewPositions(pmap, base, at, n)
    ensures HasEntries(pmap, base, items, at, n, Emplaced(pmap, base, items, at, n))
  {
    if n > 0 {
      EmplacedAt(pmap, base, items, at, n - 1);
      var rest, p := Emplaced(pmap, base, items, at, n - 1), base + at[n - 1];
      assert Stands(base, at, n - 1, p);
      assert p !in rest;
      EntryAdded(pmap, base, items, at, n, rest);
    }
  }

  lemma EntryAdded(pmap: map<nat, Item>, base: nat, items: seq<Item>, at: seq<nat>, n: nat, rest: map<nat, Item>)
    requires 0 < n <= |items| == |at| - 1 && NewPositions(pmap, base, at, n)
    requires HasEntries(pmap, base, items, at, n - 1, rest)
    ensures HasEntries(pmap, base, items, at, n, rest[base + at[n - 1] := items[n - 1]])
  {
    var r := rest[base + at[n - 1] := items[n - 1]];
    assert Stands(base, at, n - 1, base + at[n - 1]);
    forall p | p in r && p !in pmap
      ensures exists j: nat :: j < n && Stands(base, at, j, p)
    {
      if p in rest {
        var j: nat :| j < n - 1 && Stands(base, at, j, p);
      }
    }
  }

  lemma PositionsDiffer(cells: seq<Cell>, total: nat, i: nat, j: nat)
    requires Tiling(cells, total) && i < |cells| && j < |cells|
    ensures cells[i].pos == cells[j].pos ==> i == j
  {
    if i < j {
      TilingOrder(cells, total, i, j);
    } else if j < i {
      TilingOrder(cells, total, j, i);
    }
  }

  /** After the cut, the entries of the pieces are new. */
  lemma SlicedNew(m: Mirror, labels: map<string, Label>, pmap: map<nat, Item>, file: seq<byte>, k: nat, items: seq<Item>, bodies: seq<Body>, at: seq<nat>, cut: seq<nat>, r: Mirror)
    requires IsSliced(m, labels, k, items, bodies, at, cut, r) && Tiling(r.cells, |file|) && Indexed(pmap, m.cells)
    ensures k < |m.cells| && |items| < |at| && NewPositions(pmap - {m.cells[k].pos}, m.cells[k].pos, at, |items|)
  {
    hide IsSliced;
    SlicedAt(m, labels, k, items, bodies, at, cut, r, k);
    var base := m.cells[k].pos;
    forall j: nat, p: nat | j < |items| && Stands(base, at, j, p)
      ensures p !in pmap - {base}
    {
      SlicedAt(m, labels, k, items, bodies, at, cut, r, k + j);
      if p in pmap - {base} {
        var o :| 0 <= o < |m.cells| && m.cells[o].pos == p;
        var i := if o < k then o else o - 1 + |items|;
        SlicedAt(m, labels, k, items, bodies, at, cut, r, i);
        PositionsDiffer(r.cells, |file|, i, k + j);
      }
    }
    forall i: nat, j: nat, p: nat | i < j < |items| && Stands(base, at, i, p)
      ensures !Stands(base, at, j, p)
    {
      SlicedAt(m, labels, k, items, bodies, at, cut, r, k + i);
      SlicedAt(m, labels, k, items, bodies, at, cut, r, k + j);
      TilingOrder(r.cells, |file|, k + i, k + j);
    }
  }

  /** Every cell of the cut list has its entry. */
  lemma SlicedEntry(m: Mirror, labels: map<string, Label>, pmap: map<nat, Item>, file: seq<byte>, k: nat, items: seq<Item>, bodies: seq<Body>, at: seq<nat>, cut: seq<nat>, r: Mirror, i: nat)
    requires IsSliced(m, labels, k, items, bodies, at, cut, r) && i < |r.cells|
    requires Tiling(m.cells, |file|) && Tiling(r.cells, |file|) && Indexed(pmap, m.cells)
    ensures k < |m.cells| && |items| == |at| - 1
    ensures var p' := Emplaced(pmap - {m.cells[k].pos}, m.cells[k].pos, items, at, |items|);
            r.cells[i].pos in p' && p'[r.cells[i].pos] == r.cells[i].item
  {
    SlicedNew(m, labels, pmap, file, k, items, bodies, at, cut, r);
    hide IsSliced;
    SlicedAt(m, labels, k, items, bodies, at, cut, r, i);
    var rest := pmap - {m.cells[k].pos};
    EmplacedAt(rest, m.cells[k].pos, items, at, |items|);
    hide Emplaced, NewPositions;
    if k <= i < k + |items| {
      assert Stands(m.cells[k].pos, at, i - k, r.cells[i].pos);
    } else {
      var o := if i < k then i else i + 1 - |items|;
      PositionsDiffer(m.cells, |file|, o, k);
      assert m.cells[o].pos in rest;
    }
  }

  /** Every entry is that of a cell of the cut list. */
  lemma SlicedEntryOf(m: Mirror, labels: map<string, Label>, pmap: map<nat, Item>, file: seq<byte>, k: nat, items: seq<Item>, bodies: seq<Body>, at: seq<nat>, cut: seq<nat>, r: Mirror, p: nat) returns (i: nat)
    requires IsSliced(m, labels, k, items, bodies, at, cut, r)
    requires Tiling(r.cells, |file|) && Indexed(pmap, m.cells)
    requires k < |m.cells| && |items| == |at| - 1 && p in Emplaced(pmap - {m.cells[k].pos}, m.cells[k].pos, items, at, |items|)
    ensures i < |r.cells| && r.cells[i].pos == p
  {
    hide IsSliced, Emplaced, NewPositions, Tiling;
    SlicedNew(m, labels, pmap, file, k, items, bodies, at, cut, r);
    SlicedAt(m, labels, k, items, bodies, at, cut, r, k);
    var base := m.cells[k].pos;
    var rest := pmap - {base};
    EmplacedAt(rest, base, items, at, |items|);
    if p in rest {
      var o :| 0 <= o < |m.cells| && m.cells[o].pos == p;
      i := if o < k then o else o - 1 + |items|;
    } else {
      var j: nat :| j < |items| && Stands(base, at, j, p);
      i := k + j;
    }
    SlicedAt(m, labels, k, items, bodies, at, cut, r, i);
  }

  /** The index follows the cut. */
  lemma SlicedIndexed(m: Mirror, labels: map<string, Label>, pmap: map<nat, Item>, file: seq<byte>, k: nat, items: seq<Item>, bodies: seq<Body>, at: seq<nat>, cut: seq<nat>, r: Mirror)
    requires IsSliced(m, labels, k, items, bodies, at, cut, r)
    requires Tiling(m.cells, |file|) && Tiling(r.cells, |file|) && Indexed(pmap, m.cells)
    ensures k < |m.cells| && |items| == |at| - 1
    ensures Indexed(Emplaced(pmap - {m.cells[k].pos}, m.cells[k].pos, items, at, |items|), r.cells)
  {
    var p' := Emplaced(pmap - {m.cells[k].pos}, m.cells[k].pos, items, at, |items|);
    forall i | 0 <= i < |r.cells|
      ensures r.cells[i].pos in p' && p'[r.cells[i].pos] == r.cells[i].item
    {
      SlicedEntry(m, labels, pmap, file, k, items, bodies, at, cut, r, i);
    }
    forall p | p in p'
      ensures exists i :: 0 <= i < |r.cells| && r.cells[i].pos == p
    {
      var i := SlicedEntryOf(m, labels, pmap, file, k, items, bodies, at, cut, r, p);
    }
  }

  /** What the pieces hold: the bytes of the file if they are raw, known labels otherwise. */
  ghost predicate PiecesSound(base: nat, items: seq<Item>, bodies: seq<Body>, at: seq<nat>, labels: map<string, Label>, file: seq<byte>) {
    && |items| == |bodies| == |at| - 1
    && forall j {:trigger bodies[j]} :: 0 <= j < |bodies| ==>
         RefsKnown(bodies[j], labels) && (bodies[j].Raw? ==> RawMatches(Cell(items[j], base + at[j], bodies[j]), file))
  }

  lemma SameKeys(m: Mirror, labels: map<string, Label>)
    requires |m.lists| == |m.cells| && Linked(m.cells, m.lists, labels, m.ptrs)
    ensures m.ptrs.Keys == labels.Keys
  {
  }

  /** Cutting an item into pieces that fit keeps the list sound. */
  lemma SlicedSound(m: Mirror, labels: map<string, Label>, pmap: map<nat, Item>, file: seq<byte>, k: nat, items: seq<Item>, bodies: seq<Body>, at: seq<nat>, cut: seq<nat>, r: Mirror)
    requires Sound(m, labels, pmap, file) && IsSliced(m, labels, k, items, bodies, at, cut, r)
    requires Fitting(m, k, items, bodies, at) && PiecesSound(m.cells[k].pos, items, bodies, at, labels, file)
    ensures Sound(r, labels, Emplaced(pmap - {m.cells[k].pos}, m.cells[k].pos, items, at, |items|), file)
  {
    hide IsSliced, Indexed, Anchored, Tiling, Linked, Emplaced, Size, Fitting, RefsKnown, RawMatches;
    SlicedLinked(m, labels, k, items, bodies, at, cut, r);
    SlicedTiling(m, labels, file, k, items, bodies, at, cut, r);
    SameKeys(m, labels);
    SlicedAnchored(m, labels, k, items, bodies, at, cut, r);
    SlicedIndexed(m, labels, pmap, file, k, items, bodies, at, cut, r);
    forall i | 0 <= i < |r.cells|
      ensures RefsKnown(r.cells[i].body, labels) && (r.cells[i].body.Raw? ==> RawMatches(r.cells[i], file))
    {
      SlicedAt(m, labels, k, items, bodies, at, cut, r, i);
    }
  }

  /** Narrowing what a piece holds after the cut is the same as cutting into the narrower piece. */
  lemma SlicedNarrowed(m: Mirror, labels: map<string, Label>, k: nat, items: seq<Item>, bodies: seq<Body>, at: seq<nat>, cut: seq<nat>, r: Mirror, j: nat, b: Body)
    requires IsSliced(m, labels, k, items, bodies, at, cut, r) && j < |items|
    ensures |bodies| == |items| && k + j < |r.cells| && r.cells[k + j].item == items[j]
    ensures IsSliced(m, labels, k, items, bodies[j := b], at, cut, r.(cells := r.cells[k + j := r.cells[k + j].(body := b)]))
  {
    var parts := PieceCells(m.cells[k].pos, items, bodies, at);
    var parts' := PieceCells(m.cells[k].pos, items, bodies[j := b], at);
    assert parts' == parts[j := parts[j].(body := b)];
    ReplacedAt(m.cells, k, parts, k + j);
    ReplacedUpdated(m.cells, k, parts, j, parts[j].(body := b));
  }

  lemma ReplacedUpdated<T>(s: seq<T>, k: nat, parts: seq<T>, j: nat, x: T)
    requires k < |s| && j < |parts|
    ensures k + j < |Replaced(s, k, parts)| && Replaced(s, k, parts[j := x]) == Replaced(s, k, parts)[k + j := x]
  {
  }

  /** Labels inside a non-empty item, or at an empty one, always have a piece to go to. */
  lemma PiecesHouse(m: Mirror, labels: map<string, Label>, k: nat, items: seq<Item>, bodies: seq<Body>, at: seq<nat>)
    requires Fitting(m, k, items, bodies, at) && Ascending(at) && m.ptrs.Keys == labels.Keys
    requires Distinct(m.cells) && Anchored(m.cells, labels, m.ptrs)
    ensures AllHoused(m.ptrs, m.cells[k].item, at)
  {
    forall n | n in m.ptrs && m.ptrs[n].item == m.cells[k].item
      ensures Housed(at, m.ptrs[n].offset)
    {
      var i: nat :| Holds(m.cells, i, m.ptrs[n], labels[n].target);
      assert i == k;
      var b := bodies[|items| - 1];
      HomeExists(at, m.ptrs[n].offset);
    }
  }

}
