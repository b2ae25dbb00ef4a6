/** Cutting a raw item of a tree: the pieces, the labels and the index entries. */
module TreeSplits {
  import opened Bytes
  import I = Items
  import S = Slices
  import opened SplitFacts
  import opened Trees
  import opened Relink
  import opened TreeEdits
  import opened TreeHeaps

  /** What a raw item becomes when `nb` is cut out of it at `pos`: `rest` is needed only between two raw pieces. */
  ghost function SplitForest(raw: Item, view: I.View, pos: nat, nitem: Item, nb: Body, rest: Item): Forest
    requires view.Valid() && pos + Own(nb) <= view.size
  {
    var end := pos + Own(nb);
    var tail := if end < view.size then Cons(if pos == 0 then raw else rest, Raw(view.Slice(end, view.size - end)), Nil, Nil) else Nil;
    var mid := Cons(nitem, nb, Nil, tail);
    if pos == 0 then mid else Cons(raw, Raw(view.Slice(0, pos)), Nil, mid)
  }

  lemma LeafAhead(n: Item, b: Body, f: Forest, known: set<string>)
    ensures var g := Cons(n, b, Nil, f);
            && Heads(g) == [n] + Heads(f) && Nodes(g) == {n} + Nodes(f) && Size(g) == Own(b) + Size(f)
            && RawBytes(g) == (if b.Raw? then Own(b) else 0) + RawBytes(f)
            && (Distinct(g) <==> n !in Nodes(f) && Distinct(f))
            && (BodyOk(b) && Leaves(f) ==> Leaves(g)) && (RefsKnown(b, known) && AllRefsKnown(f, known) ==> AllRefsKnown(g, known))
  {
  }

  lemma NilMeans(known: set<string>)
    ensures Heads(Nil) == [] && Nodes(Nil) == {} && Size(Nil) == 0 && RawBytes(Nil) == 0 && Distinct(Nil) && Leaves(Nil) && AllRefsKnown(Nil, known)
  {
  }

  lemma SplitMeans(raw: Item, view: I.View, pos: nat, nitem: Item, nb: Body, rest: Item, known: set<string>)
    requires view.Valid() && pos + Own(nb) <= view.size && BodyOk(nb) && RefsKnown(nb, known)
    requires raw != nitem && nitem != rest && rest != raw
    ensures var g := SplitForest(raw, view, pos, nitem, nb, rest);
            && Heads(g) == SplitItems(raw, nitem, rest, pos, Own(nb), view.size) && (forall n :: n in Nodes(g) <==> n in Heads(g))
            && Nodes(g) <= {raw, nitem, rest} && (pos == 0 || pos + Own(nb) == view.size ==> rest !in Nodes(g)) && nitem in Nodes(g) && Distinct(g) && Leaves(g) && AllRefsKnown(g, known)
    ensures var g := SplitForest(raw, view, pos, nitem, nb, rest);
            Size(g) == view.size && RawBytes(g) == view.size - Own(nb) + (if nb.Raw? then Own(nb) else 0)
  {
    hide Heads, Nodes, Size, RawBytes, Distinct, Leaves, AllRefsKnown;
    var end := pos + Own(nb);
    var back := if pos == 0 then raw else rest;
    var tail := if end < view.size then Cons(back, Raw(view.Slice(end, view.size - end)), Nil, Nil) else Nil;
    NilMeans(known);
    if end < view.size {
      LeafAhead(back, tail.body, Nil, known);
    }
    LeafAhead(nitem, nb, tail, known);
    LeafAhead(raw, Raw(view.Slice(0, pos)), Cons(nitem, nb, Nil, tail), known);
  }

  /** The item is a childless one of this list, at this position. */
  ghost predicate Alone(it: Item, p: Item, b: Body, at: nat)
    reads it
  {
    it.body == b && it.parent == p && it.children == [] && it.position == at
  }

  /** The pieces are in the heap, one after the other from `base` on. */
  ghost predicate PiecesAlone(p: Item, raw: Item, view: I.View, pos: nat, nitem: Item, nb: Body, rest: Item, base: nat)
    requires view.Valid() && pos + Own(nb) <= view.size
    reads raw, nitem, rest
  {
    var end := pos + Own(nb);
    && Alone(nitem, p, nb, base + pos)
    && (pos != 0 ==> Alone(raw, p, Raw(view.Slice(0, pos)), base))
    && (end < view.size ==> Alone(if pos == 0 then raw else rest, p, Raw(view.Slice(end, view.size - end)), base + end))
  }

  lemma AloneAhead(n: Item, p: Item, b: Body, at: nat, f: Forest)
    requires Alone(n, p, b, at)
    ensures Live(f, p) ==> Live(Cons(n, b, Nil, f), p)
    ensures Placed(f, at + Own(b)) ==> Placed(Cons(n, b, Nil, f), at)
  {
  }

  lemma PiecesLive(p: Item, raw: Item, view: I.View, pos: nat, nitem: Item, nb: Body, rest: Item, base: nat)
    requires view.Valid() && pos + Own(nb) <= view.size && PiecesAlone(p, raw, view, pos, nitem, nb, rest, base)
    ensures var g := SplitForest(raw, view, pos, nitem, nb, rest);
            Live(g, p) && Placed(g, base)
  {
    hide Live, Placed, Alone;
    var end := pos + Own(nb);
    var back := if pos == 0 then raw else rest;
    var tail := if end < view.size then Cons(back, Raw(view.Slice(end, view.size - end)), Nil, Nil) else Nil;
    NilLive(p, base + end);
    if end < view.size {
      NilLive(p, base + end + Own(tail.body));
      AloneAhead(back, p, tail.body, base + end, Nil);
    }
    AloneAhead(nitem, p, nb, base + pos, tail);
    if pos != 0 {
      AloneAhead(raw, p, Raw(view.Slice(0, pos)), base, Cons(nitem, nb, Nil, tail));
    }
  }

  lemma NilLive(p: Item, at: nat)
    ensures Live(Nil, p) && Placed(Nil, at)
  {
  }

  /** A cut ends where the raw item ended, and leaves no empty raw piece. */
  lemma PiecesEnd(p: Item, raw: Item, view: I.View, pos: nat, nitem: Item, nb: Body, rest: Item, base: nat)
    requires view.Valid() && pos + Own(nb) <= view.size && (nb.Raw? ==> Own(nb) > 0)
    requires PiecesAlone(p, raw, view, pos, nitem, nb, rest, base)
    ensures var items, at := SplitItems(raw, nitem, rest, pos, Own(nb), view.size), SplitAt(pos, Own(nb), view.size);
            && |items| + 1 == |at| && |items| > 0 && at[|items|] == view.size
            && forall j {:trigger items[j]} :: 0 <= j < |items| && items[j].body.Raw? ==> Own(items[j].body) > 0
  {
  }

  /** Every label of the raw item has a piece to go to. */
  ghost predicate AllHoused(labels: map<string, Ptr>, raw: Item, at: seq<nat>) {
    forall l {:trigger labels[l]} :: l in labels && labels[l].item == raw ==> S.Housed(at, labels[l].offset)
  }

  /** Where a label points after its item has been cut. */
  function CutPtr(p: Ptr, pieces: seq<Item>, at: seq<nat>): Ptr
    requires |pieces| + 1 == |at| && S.Ascending(at) && at[0] == 0 && S.Housed(at, p.offset)
  {
    S.HomeHolds(at, p.offset);
    var h := S.Home(at, p.offset, 0);
    Ptr(pieces[h], p.offset - at[h])
  }

  function CutLabels(labels: map<string, Ptr>, raw: Item, pieces: seq<Item>, at: seq<nat>): map<string, Ptr>
    requires |pieces| + 1 == |at| && S.Ascending(at) && at[0] == 0 && AllHoused(labels, raw, at)
  {
    map l | l in labels :: if labels[l].item == raw then CutPtr(labels[l], pieces, at) else labels[l]
  }

  /** The pieces stand where they start and are as long as they should be. */
  ghost predicate PiecesAt(pieces: seq<Item>, at: seq<nat>, base: nat)
    requires |pieces| + 1 == |at|
    reads pieces
  {
    forall j {:trigger pieces[j]} :: 0 <= j < |pieces| ==> pieces[j].position == base + at[j] && at[j] + Own(pieces[j].body) == at[j + 1]
  }

  /** A cut leaves every label at its file position, inside the piece it went to. */
  lemma CutKeepsPosition(p: Ptr, pieces: seq<Item>, at: seq<nat>, base: nat)
    requires |pieces| + 1 == |at| && S.Ascending(at) && at[0] == 0 && S.Housed(at, p.offset) && PiecesAt(pieces, at, base)
    ensures var q := CutPtr(p, pieces, at);
            && q.item in pieces && q.item.position + q.offset == base + p.offset
            && (Own(q.item.body) > 0 ==> q.offset < Own(q.item.body))
  {
    S.HomeHolds(at, p.offset);
    var h := S.Home(at, p.offset, 0);
    assert pieces[h].position == base + at[h];
  }

  lemma CutKeepsPositions(labels: map<string, Ptr>, pos: Positions, raw: Item, pieces: seq<Item>, at: seq<nat>, base: nat)
    requires |pieces| + 1 == |at| && S.Ascending(at) && at[0] == 0 && AllHoused(labels, raw, at) && PiecesAt(pieces, at, base)
    requires pos.Keys == labels.Keys
    requires forall l {:trigger labels[l]} :: l in labels ==>
               pos[l] == (if labels[l].item == raw then base else labels[l].item.position) + labels[l].offset
    ensures PositionsOf(CutLabels(labels, raw, pieces, at)) == pos
  {
    hide S.Ascending, S.Housed, PiecesAt, CutPtr;
    var after := CutLabels(labels, raw, pieces, at);
    assert AllHoused(labels, raw, at);
    forall l | l in labels
      ensures l in after && ToFilePos(after, l) == pos[l]
    {
      if labels[l].item == raw {
        CutKeepsPosition(labels[l], pieces, at, base);
      }
    }
  }

  /** The part of a raw item that becomes a new one takes its labels there. */
  lemma CutToNew(p: Ptr, raw: Item, nitem: Item, rest: Item, pos: nat, len: nat, size: nat)
    requires pos + len <= size && pos <= p.offset < pos + len
    ensures var pieces, at := SplitItems(raw, nitem, rest, pos, len, size), SplitAt(pos, len, size);
            |pieces| + 1 == |at| && S.Ascending(at) && at[0] == 0 && S.Housed(at, p.offset) &&
            CutPtr(p, pieces, at) == Ptr(nitem, p.offset - pos)
  {
    var at := SplitAt(pos, len, size);
    assert S.Takes(at, if pos == 0 then 0 else 1, p.offset);
    assert pos != 0 ==> !S.Takes(at, 0, p.offset);
  }

  lemma CutSame(labels: map<string, Ptr>, raw: Item, pieces: seq<Item>, at: seq<nat>)
    requires |pieces| + 1 == |at| && S.Ascending(at) && at[0] == 0 && AllHoused(labels, raw, at)
    ensures CutLabels(labels, raw, pieces, at).Keys == labels.Keys
    ensures forall l {:trigger labels[l]} :: l in labels && labels[l].item != raw ==> CutLabels(labels, raw, pieces, at)[l] == labels[l]
  {
  }

  lemma NewTakesItsLabels(labels: map<string, Ptr>, raw: Item, nitem: Item, rest: Item, pos: nat, len: nat, size: nat)
    requires pos + len <= size
    requires var at := SplitAt(pos, len, size); S.Ascending(at) && at[0] == 0 && AllHoused(labels, raw, at)
    ensures var pieces, at := SplitItems(raw, nitem, rest, pos, len, size), SplitAt(pos, len, size);
            |pieces| + 1 == |at| &&
            forall l {:trigger labels[l]} :: l in labels && labels[l].item == raw && pos <= labels[l].offset < pos + len ==>
              CutLabels(labels, raw, pieces, at)[l] == Ptr(nitem, labels[l].offset - pos)
  {
    forall l | l in labels && labels[l].item == raw && pos <= labels[l].offset < pos + len
      ensures var pieces, at := SplitItems(raw, nitem, rest, pos, len, size), SplitAt(pos, len, size);
              |pieces| + 1 == |at| && CutLabels(labels, raw, pieces, at)[l] == Ptr(nitem, labels[l].offset - pos)
    {
      CutToNew(labels[l], raw, nitem, rest, pos, len, size);
    }
  }

  /** The index after a cut: entries of other items stay, those at the starts of the pieces may be theirs. */
  ghost predicate Reindexed(before: map<nat, Item>, after: map<nat, Item>, raw: Item, base: nat, pieces: seq<Item>, at: seq<nat>)
    requires |pieces| + 1 == |at|
  {
    && (forall p {:trigger p in after} :: p in after ==>
         (p in before && after[p] == before[p] && before[p] != raw) || EntryOf(p, after[p], base, pieces, at))
    && (forall p {:trigger p in before} :: p in before ==> p in after)
    && (forall j {:trigger at[j]} :: 0 < j < |pieces| ==> base + at[j] in after)
  }

  ghost predicate EntryOf(p: nat, it: Item, base: nat, pieces: seq<Item>, at: seq<nat>)
    requires |pieces| + 1 == |at|
  {
    exists j {:trigger pieces[j]} :: 0 <= j < |pieces| && pieces[j] == it && p == base + at[j]
  }

  lemma PieceEntry(base: nat, pieces: seq<Item>, at: seq<nat>, j: nat)
    requires |pieces| + 1 == |at| && j < |pieces|
    ensures EntryOf(base + at[j], pieces[j], base, pieces, at)
  {
  }

  lemma {:induction false} EmplacedEntries(pmap: map<nat, Item>, base: nat, pieces: seq<Item>, at: seq<nat>, n: nat)
    requires n <= |pieces| == |at| - 1
    ensures var r := S.Emplaced(pmap, base, pieces, at, n);
            && (forall p {:trigger p in r} :: p in r ==> (p in pmap && r[p] == pmap[p]) || EntryOf(p, r[p], base, pieces, at))
            && (forall p {:trigger p in pmap} :: p in pmap ==> p in r)
            && (forall j {:trigger at[j]} :: 0 <= j < n ==> base + at[j] in r)
  {
    hide EntryOf;
    if n > 0 {
      EmplacedEntries(pmap, base, pieces, at, n - 1);
      PieceEntry(base, pieces, at, n - 1);
    }
  }
}
