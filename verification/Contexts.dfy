/** The item list of a file under disassembly, with its label registry and position index. */
module Contexts {
  import opened Bytes
  import opened Items
  import opened Names
  import opened Registry
  import opened Slices
  import opened SliceFacts
  import opened SplitFacts

  /** The index without the entry of a removed item. */
  function Unindexed<T(==)>(pmap: map<nat, T>, it: T, pos: nat): map<nat, T> {
    if pos in pmap && pmap[pos] == it then pmap - {pos} else pmap
  }

  ghost predicate Ordered(it: Item)
    reads it, it.labels
  {
    forall a, b :: 0 <= a < b < |it.labels| ==> it.labels[a].offset <= it.labels[b].offset
  }

  /** Where a label list takes a new label: after those with the same or a smaller offset. */
  method UpperBound(it: Item, offset: nat) returns (p: nat)
    requires Ordered(it)
    ensures p <= |it.labels|
    ensures forall a {:trigger it.labels[a]} :: 0 <= a < p ==> it.labels[a].offset <= offset
    ensures forall a {:trigger it.labels[a]} :: p <= a < |it.labels| ==> offset < it.labels[a].offset
  {
    var i := |it.labels|;
    while i > 0 && offset < it.labels[i - 1].offset
      invariant 0 <= i <= |it.labels|
      invariant forall a :: i <= a < |it.labels| ==> offset < it.labels[a].offset
    {
      i := i - 1;
    }
    p := i;
  }

  /** `l` is the first label of a list at an offset. */
  ghost predicate FirstAt(list: seq<Label>, ptrs: map<string, Ptr>, offset: nat, l: Label)
  {
    exists p {:trigger list[p]} :: 0 <= p < |list| && list[p] == l && l.name in ptrs && ptrs[l.name].offset == offset &&
      forall q {:trigger list[q]} :: 0 <= q < p ==> list[q].name in ptrs && ptrs[list[q].name].offset != offset
  }

  /** No label of a list is at an offset. */
  ghost predicate NoneAt(list: seq<Label>, ptrs: map<string, Ptr>, offset: nat) {
    forall q {:trigger list[q]} :: 0 <= q < |list| ==> list[q].name in ptrs && ptrs[list[q].name].offset != offset
  }

  /** Asking twice for a label at an offset finds the same one. */
  lemma FirstAtOnce(list: seq<Label>, ptrs: map<string, Ptr>, offset: nat, l: Label, again: Label)
    requires FirstAt(list, ptrs, offset, l)
    ensures !NoneAt(list, ptrs, offset) && (FirstAt(list, ptrs, offset, again) ==> again == l)
  {
  }

  /** The place of the first label of an item at an offset, or the length of its list. */
  method FindLabel(it: Item, offset: nat) returns (p: nat)
    ensures p <= |it.labels|
    ensures forall q {:trigger it.labels[q]} :: 0 <= q < p ==> it.labels[q].offset != offset
    ensures p < |it.labels| ==> it.labels[p].offset == offset
  {
    p := 0;
    while p < |it.labels| && it.labels[p].offset != offset
      invariant p <= |it.labels|
      invariant forall q {:trigger it.labels[q]} :: 0 <= q < p ==> it.labels[q].offset != offset
    {
      p := p + 1;
    }
  }

  /** The place of a label in a label list. */
  method Position(list: seq<Label>, l: Label) returns (p: nat)
    requires l in list
    ensures p < |list| && list[p] == l
  {
    p := 0;
    while list[p] != l
      invariant 0 <= p < |list|
      invariant l in list[p..]
      decreases |list| - p
    {
      p := p + 1;
    }
  }

  /** The first variant of a name that is not used yet. */
  method FreeName(used: set<string>, name: string) returns (str: string, ghost i: nat)
    ensures str !in used && str == Variant(name, i)
    ensures forall j :: 0 <= j < i ==> Variant(name, j) in used
  {
    str := name;
    i := 0;
    var n := 1;
    while str in used
      invariant str == Variant(name, i) && n == i + 1
      invariant forall j :: 0 <= j < i ==> Variant(name, j) in used
      invariant i <= |used|
      decreases |used| - i
    {
      UsedVariants(used, name, i + 1);
      str := name + "_" + Decimal(n);
      n := n + 1;
      i := i + 1;
    }
  }

  lemma LabelMoved(l: Label, lbls: seq<Label>, ptrs: map<string, Ptr>, self: Item, offs: seq<nat>, items: seq<Item>, at: seq<nat>, cut: seq<nat>)
    requires |items| == |at| - 1 && |offs| == |lbls| && Ascending(at) && at[0] == 0 && AllHoused(ptrs, self, at)
    requires MovedTo(lbls, offs, items, at, cut, |lbls|, |items|)
    requires forall a {:trigger lbls[a]} :: 0 <= a < |lbls| ==> lbls[a].name in ptrs
    requires offs == Offsets(lbls, ptrs) && l in lbls && ptrs[l.name].item == self
    ensures Ptr(l.item, l.offset) == PiecePtrs(ptrs, self, items, at)[l.name]
  {
    var q :| 0 <= q < |lbls| && lbls[q] == l;
    assert Moved(lbls[q], q, offs[q], items, at, cut);
  }

  lemma PiecesCut(lbls: seq<Label>, offs: seq<nat>, items: seq<Item>, at: seq<nat>, cut: seq<nat>)
    requires |items| == |at| - 1 && |offs| == |lbls| && |cut| == |at| && Ascending(cut) && cut[0] == 0 && cut[|items|] == |lbls|
    requires MovedTo(lbls, offs, items, at, cut, |lbls|, |items|)
    requires forall q {:trigger offs[q]} :: 0 <= q < |offs| ==> Housed(at, offs[q])
    ensures Cuts(offs, at, cut)
    ensures forall j {:trigger items[j]} :: 0 <= j < |items| ==> cut[j] <= cut[j + 1] <= |lbls|
  {
    forall q | 0 <= q < |offs|
      ensures var h := Home(at, offs[q], 0); cut[h] <= q < cut[h + 1]
    {
      assert Moved(lbls[q], q, offs[q], items, at, cut);
    }
  }

  ghost predicate Mirrors(children: seq<Item>, labels: map<string, Label>, m: Mirror)
    reads m.repr
  {
    && |m.cells| == |children| == |m.lists|
    && (forall i {:trigger children[i]} {:trigger m.cells[i]} {:trigger m.lists[i]} :: 0 <= i < |children| ==>
         && children[i] in m.repr
         && m.cells[i] == Cell(children[i], children[i].position, children[i].body)
         && m.lists[i] == children[i].labels)
    && Distinct(m.cells)
    && labels.Keys == m.ptrs.Keys
    && (forall n {:trigger labels[n]} {:trigger m.ptrs[n]} :: n in labels ==>
         && labels[n] in m.repr
         && m.ptrs[n] == Ptr(labels[n].item, labels[n].offset))
  }

  /** Object `it` is the one described by a cell and a label list. */
  ghost predicate Described(it: Item, c: Cell, list: seq<Label>, repr: set<object>)
    reads it
  {
    it in repr && c == Cell(it, it.position, it.body) && list == it.labels
  }

  lemma ItselfDescribed(it: Item, c: Cell, list: seq<Label>, repr: set<object>)
    requires it in repr && c == Cell(it, it.position, it.body) && list == it.labels
    ensures Described(it, c, list, repr)
  {
  }

  /** The mirror after one item has got another list of labels, and a label another place. */
  lemma MirrorsAgain(children: seq<Item>, labels: map<string, Label>, m: Mirror, k: nat, l: Label, r: Mirror)
    requires |m.cells| == |children| == |m.lists| && k < |children| && Distinct(m.cells) && l in m.repr && |r.lists| == |m.lists|
    requires r == m.(lists := m.lists[k := r.lists[k]], ptrs := m.ptrs[l.name := Ptr(l.item, l.offset)])
    requires forall i {:trigger children[i]} :: 0 <= i < |children| && i != k ==> Described(children[i], m.cells[i], m.lists[i], m.repr)
    requires Described(children[k], m.cells[k], r.lists[k], m.repr)
    requires labels.Keys == m.ptrs.Keys
    requires forall n {:trigger labels[n]} :: n in labels ==>
               labels[n] in m.repr && (labels[n] != l ==> m.ptrs[n] == Ptr(labels[n].item, labels[n].offset)) && (labels[n] == l ==> n == l.name)
    ensures Mirrors(children, labels[l.name := l], r)
  {
    hide Distinct;
    forall i | 0 <= i < |children|
      ensures Described(children[i], r.cells[i], r.lists[i], r.repr)
    {
    }
  }

  lemma SlicedNow(m: Mirror, labels: map<string, Label>, k: nat, items: seq<Item>, bodies: seq<Body>, at: seq<nat>, cut: seq<nat>) returns (r: Mirror)
    requires Sliceable(m, labels, k, items, bodies, at, cut)
    ensures IsSliced(m, labels, k, items, bodies, at, cut, r) && r.repr == m.repr
  {
    hide Linked, Distinct, PieceCells, Replaced, PiecePtrs;
    r := m.(cells := Replaced(m.cells, k, PieceCells(m.cells[k].pos, items, bodies, at)),
            lists := Replaced(m.lists, k, PieceLists(m.lists[k], cut)), ptrs := PiecePtrs(m.ptrs, m.cells[k].item, items, at));
  }

  /** The pieces are where the cut puts them, each with its part of the labels. */
  ghost predicate PiecesStand(m: Mirror, k: nat, items: seq<Item>, bodies: seq<Body>, at: seq<nat>, cut: seq<nat>)
    reads items
  {
    && k < |m.cells| == |m.lists| && |items| == |bodies| == |at| - 1 == |cut| - 1
    && forall j {:trigger items[j]} :: 0 <= j < |items| ==>
         && items[j] in m.repr && items[j].position == m.cells[k].pos + at[j] && items[j].body == bodies[j]
         && cut[j] <= cut[j + 1] <= |m.lists[k]| && items[j].labels == m.lists[k][cut[j]..cut[j + 1]]
  }

  /** The labels point into the pieces. */
  ghost predicate LabelsMoved(m: Mirror, labels: map<string, Label>, k: nat, items: seq<Item>, at: seq<nat>)
    reads labels.Values
  {
    && k < |m.cells| && |items| == |at| - 1 && Ascending(at) && at[0] == 0 && AllHoused(m.ptrs, m.cells[k].item, at)
    && (forall n {:trigger labels[n]} :: n in labels ==> n in m.ptrs && labels[n] in m.repr)
    && forall n {:trigger labels[n]} :: n in labels ==> Ptr(labels[n].item, labels[n].offset) == PiecePtrs(m.ptrs, m.cells[k].item, items, at)[n]
  }

  lemma SlicedMirrors(children: seq<Item>, labels: map<string, Label>, m: Mirror, k: nat, items: seq<Item>, bodies: seq<Body>,
                      at: seq<nat>, cut: seq<nat>, r: Mirror)
    requires IsSliced(m, labels, k, items, bodies, at, cut, r) && |children| == |m.cells| && Distinct(r.cells)
    requires forall i {:trigger children[i]} :: 0 <= i < |children| && i != k ==> Described(children[i], m.cells[i], m.lists[i], m.repr)
    requires PiecesStand(m, k, items, bodies, at, cut) && LabelsMoved(m, labels, k, items, at)
    ensures Mirrors(Replaced(children, k, items), labels, r)
  {
    var list := Replaced(children, k, items);
    forall i | 0 <= i < |r.cells|
      ensures |list| == |r.cells| == |r.lists| && Described(list[i], r.cells[i], r.lists[i], m.repr)
    {
      ReplacedAt(children, k, items, i);
      SlicedAt(m, labels, k, items, bodies, at, cut, r, i);
    }
    SlicedAt(m, labels, k, items, bodies, at, cut, r, k);
  }

  /** Hands all labels of one item to another that has none. */
  method SwapLabels(self: Item, nitem: Item)
    requires nitem.labels == [] && nitem != self
    modifies self`labels, nitem`labels, self.labels
    ensures self.labels == [] && nitem.labels == old(self.labels)
    ensures forall l {:trigger l.item} {:trigger l.offset} :: l in nitem.labels ==> l.item == nitem && l.offset == old(l.offset)
  {
    self.labels, nitem.labels := [], self.labels;
    var i := 0;
    while i < |nitem.labels|
      invariant 0 <= i <= |nitem.labels|
      invariant nitem.labels == old(self.labels) && self.labels == []
      invariant forall l {:trigger l.item} {:trigger l.offset} :: l in nitem.labels ==> l.offset == old(l.offset)
      invariant forall j {:trigger nitem.labels[j]} :: 0 <= j < i ==> nitem.labels[j].item == nitem
    {
      nitem.labels[i].item := nitem;
      i := i + 1;
    }
  }

  /** Replacing an item is cutting it into one piece. */
  lemma OnePiece(m: Mirror, labels: map<string, Label>, k: nat, nitem: Item, at: seq<nat>) returns (cut: seq<nat>, r: Mirror)
    requires k < |m.cells| == |m.lists| && |at| == 2 && at[0] == 0 && Ascending(at)
    requires Linked(m.cells, m.lists, labels, m.ptrs) && Distinct(m.cells) && AllHoused(m.ptrs, m.cells[k].item, at)
    ensures IsSliced(m, labels, k, [nitem], [nitem.body], at, cut, r)
    ensures cut == [0, |m.lists[k]|]
    ensures forall n {:trigger m.ptrs[n]} :: n in m.ptrs && m.ptrs[n].item == m.cells[k].item ==> r.ptrs[n] == Ptr(nitem, m.ptrs[n].offset)
  {
    assert ListOk(m.cells[k].item, m.lists[k], labels, m.ptrs);
    OffsetsAscend(m.cells[k].item, m.lists[k], labels, m.ptrs, at);
    cut := [0, |m.lists[k]|];
    var items, bodies := [nitem], [nitem.body];
    r := m.(cells := Replaced(m.cells, k, PieceCells(m.cells[k].pos, items, bodies, at)),
            lists := Replaced(m.lists, k, PieceLists(m.lists[k], cut)),
            ptrs := PiecePtrs(m.ptrs, m.cells[k].item, items, at));
  }

  /** One piece that has taken position and labels of an item. */
  lemma OneStands(m: Mirror, labels: map<string, Label>, k: nat, nitem: Item, at: seq<nat>, cut: seq<nat>, r: Mirror)
    requires k < |m.cells| == |m.lists| && |at| == 2 && at[0] == 0 && Ascending(at) && AllHoused(m.ptrs, m.cells[k].item, at)
    requires IsSliced(m, labels, k, [nitem], [nitem.body], at, cut, r) && cut == [0, |m.lists[k]|] && nitem in m.repr
    requires nitem.position == m.cells[k].pos && nitem.labels == m.lists[k] && labels.Keys == m.ptrs.Keys
    requires forall n {:trigger m.ptrs[n]} :: n in m.ptrs && m.ptrs[n].item == m.cells[k].item ==> r.ptrs[n] == Ptr(nitem, m.ptrs[n].offset)
    requires forall n {:trigger labels[n]} :: n in labels ==>
               labels[n] in m.repr && Ptr(labels[n].item, labels[n].offset) == if m.ptrs[n].item == m.cells[k].item then Ptr(nitem, m.ptrs[n].offset) else m.ptrs[n]
    ensures PiecesStand(m, k, [nitem], [nitem.body], at, cut) && LabelsMoved(m, labels, k, [nitem], at)
  {
    hide Sliceable, AllHoused, Ascending, PieceCells, PieceLists, Replaced, MovedPtr;
    assert [nitem][0] == nitem && [nitem.body][0] == nitem.body;
    assert m.lists[k][0..|m.lists[k]|] == m.lists[k];
  }

  lemma OneEntry(pmap: map<nat, Item>, pos: nat, self: Item, nitem: Item, at: seq<nat>)
    requires pos in pmap && pmap[pos] == self && |at| == 2 && at[0] == 0
    ensures Emplaced(pmap - {pos}, pos, [nitem], at, 1) == pmap[pos := nitem]
  {
    assert Emplaced(pmap - {pos}, pos, [nitem], at, 0) == pmap - {pos};
  }

  /** The size of the first `n` items together. */
  ghost function SizeBefore(cells: seq<Cell>, n: nat): (r: nat)
    requires n <= |cells|
    ensures n == 0 ==> r == 0
  {
    if n == 0 then 0 else SizeBefore(cells, n - 1) + Size(cells[n - 1].body)
  }

  /** The list with every item where those before it end. */
  ghost function LaidOut(cells: seq<Cell>): (r: seq<Cell>)
    ensures |r| == |cells|
    ensures forall i {:trigger r[i]} :: 0 <= i < |r| ==> r[i] == cells[i].(pos := SizeBefore(cells, i))
  {
    seq(|cells|, i requires 0 <= i < |cells| => cells[i].(pos := SizeBefore(cells, i)))
  }

  /** The first `i` items have been moved. */
  ghost predicate HalfLaid(was: Mirror, now: Mirror, i: nat) {
    && i <= |was.cells| == |now.cells| && now == was.(cells := now.cells)
    && forall j {:trigger now.cells[j]} :: 0 <= j < |now.cells| ==>
         now.cells[j] == if j < i then was.cells[j].(pos := SizeBefore(was.cells, j)) else was.cells[j]
  }

  lemma NoneLaid(was: Mirror)
    ensures HalfLaid(was, was, 0)
  {
  }

  lemma NextLaid(was: Mirror, now: Mirror, next: Mirror, i: nat)
    requires HalfLaid(was, now, i) && i < |now.cells|
    requires next == now.(cells := now.cells[i := now.cells[i].(pos := SizeBefore(was.cells, i))])
    ensures HalfLaid(was, next, i + 1) && next.cells[i].body == was.cells[i].body
    ensures SizeBefore(was.cells, i + 1) == SizeBefore(was.cells, i) + Size(was.cells[i].body)
  {
  }

  lemma AllLaid(was: Mirror, now: Mirror)
    requires HalfLaid(was, now, |was.cells|)
    ensures now == was.(cells := LaidOut(was.cells))
  {
  }

  /** A list that tiles its file is laid out already. */
  lemma {:induction false} TilingLaidOut(cells: seq<Cell>, total: nat, n: nat)
    requires Tiling(cells, total) && n < |cells|
    ensures SizeBefore(cells, n) == cells[n].pos
  {
    if n > 0 {
      TilingLaidOut(cells, total, n - 1);
      assert Follows(cells[n - 1], cells[n]);
    }
  }

  lemma OneMirrors(root: Item)
    requires root.labels == [] && root.position == 0
    ensures Mirrors([root], map[], Mirror([Cell(root, 0, root.body)], [[]], map[], {root}))
  {
  }

  lemma OneSound(root: Item, file: seq<byte>)
    requires root.body.Raw? && root.body.view.Valid() && root.body.view.Bytes() == file
    ensures Sound(Mirror([Cell(root, 0, root.body)], [[]], map[], {root}), map[], map[0 := root], file)
  {
    var cells := [Cell(root, 0, root.body)];
    assert cells[0].pos == 0 && file[0..|file|] == file;
    assert Linked(cells, [[]], map[], map[]);
  }

  class Context {
    var children: seq<Item>
    var pmap: map<nat, Item>
    var labels: map<string, Label>
    ghost const file: seq<byte>
    ghost var m: Mirror

    /** An empty list, for items made from `file`. */
    constructor (ghost file: seq<byte>)
      ensures Registered() && fresh(m.repr) && this.file == file
      ensures children == [] && pmap == map[] && labels == map[] && m == Mirror([], [], map[], {})
    {
      children, pmap, labels, this.file, m := [], map[], map[], file, Mirror([], [], map[], {});
    }

    /** Starts with one raw item that holds the whole file. */
    method SetupParseFrom(root: Item)
      requires Registered() && children == [] && pmap == map[] && labels == map[] && m == Mirror([], [], map[], {})
      requires root.labels == [] && root.position == 0 && root.body.Raw? && root.body.view.Valid() && root.body.view.Bytes() == file
      modifies this
      ensures Core() && children == [root] && labels == map[] && m.repr == {root}
      ensures m.cells == [Cell(root, 0, root.body)]
    {
      pmap := map[0 := root];
      children := [root];
      m := Mirror([Cell(root, 0, root.body)], [[]], map[], {root});
      OneMirrors(root);
      OneSound(root, file);
    }

    /** The ghost mirror describes the items and labels. */
    ghost predicate Shape()
      reads this, m.repr
    {
      this !in m.repr && Mirrors(children, labels, m)
    }

    ghost predicate Registered()
      reads this, m.repr
    {
      Shape() && Linked(m.cells, m.lists, labels, m.ptrs)
    }

    /** The invariant of disassembly. */
    ghost predicate Core()
      reads this, m.repr
    {
      Shape() && Sound(m, labels, pmap, file)
    }

    lemma IndexOf(it: Item) returns (k: nat)
      requires Shape() && it in children
      ensures k < |children| && children[k] == it
      ensures forall i {:trigger children[i]} :: 0 <= i < |children| && i != k ==> children[i] != it
    {
      k :| 0 <= k < |children| && children[k] == it;
    }

    lemma ListOrdered(k: nat)
      requires Registered() && k < |children|
      ensures Ordered(children[k])
      ensures forall a {:trigger m.lists[k][a]} :: 0 <= a < |m.lists[k]| ==>
                m.lists[k][a].name in m.ptrs && m.lists[k][a].offset == m.ptrs[m.lists[k][a].name].offset
      ensures forall n {:trigger labels[n]} :: n in labels ==> labels[n].name == n
    {
      assert ListOk(m.cells[k].item, m.lists[k], labels, m.ptrs);
    }

    /** Writes a label into an item's list and the registry. */
    method Attach(l: Label, it: Item, offset: nat, ghost k: nat, p: nat)
      requires Shape() && k < |children| && children[k] == it && p <= |it.labels| && l in m.repr
      requires forall n {:trigger labels[n]} :: n in labels ==> labels[n] != l || n == l.name
      modifies this, it, l
      ensures Shape() && children == old(children) && pmap == old(pmap)
      ensures labels == old(labels)[l.name := l]
      ensures m == old(m).(lists := old(m.lists)[k := Insert(old(m.lists)[k], p, l)],
                           ptrs := old(m.ptrs)[l.name := Ptr(it, offset)])
      ensures l.item == it && l.offset == offset && it.position == old(it.position) && it.body == old(it.body)
    {
      hide Distinct, Insert, Mirrors, Described;
      OthersDescribed(k);
      LabelsMirrored();
      ghost var r := m.(lists := m.lists[k := Insert(m.lists[k], p, l)], ptrs := m.ptrs[l.name := Ptr(it, offset)]);
      it.labels := Insert(it.labels, p, l);
      l.item, l.offset := it, offset;
      assert forall i {:trigger children[i]} :: 0 <= i < |children| && i != k ==> Described(children[i], m.cells[i], m.lists[i], m.repr);
      ItselfDescribed(it, m.cells[k], r.lists[k], m.repr);
      MirrorsAgain(children, labels, m, k, l, r);
      labels := labels[l.name := l];
      m := r;
    }

    /** Every other item is as the mirror has it. */
    lemma OthersDescribed(k: nat)
      requires Shape() && k < |children|
      ensures |m.cells| == |children| == |m.lists| && m.cells[k] == Cell(children[k], children[k].position, children[k].body)
      ensures m.lists[k] == children[k].labels && children[k] in m.repr && Distinct(m.cells)
      ensures forall i {:trigger children[i]} :: 0 <= i < |children| && i != k ==>
                children[i] != children[k] && Described(children[i], m.cells[i], m.lists[i], m.repr)
    {
      assert forall i {:trigger children[i]} :: 0 <= i < |children| ==> children[i] == m.cells[i].item;
    }

    lemma LabelsMirrored()
      requires Shape()
      ensures labels.Keys == m.ptrs.Keys && this !in m.repr
      ensures forall n {:trigger labels[n]} :: n in labels ==> labels[n] in m.repr && m.ptrs[n] == Ptr(labels[n].item, labels[n].offset)
    {
      hide Distinct;
    }

    /** Links a label that no item lists to an item. */
    method Link(l: Label, it: Item, offset: nat)
      requires Registered() && it in children && l in m.repr
      requires l.name in labels ==> labels[l.name] == l
      requires forall i {:trigger m.lists[i]} :: 0 <= i < |m.lists| ==> l !in m.lists[i]
      modifies this, it, l
      ensures Registered() && children == old(children) && pmap == old(pmap) && m.cells == old(m.cells) && m.repr == old(m.repr)
      ensures labels == old(labels)[l.name := l] && m.ptrs == old(m.ptrs)[l.name := Ptr(it, offset)]
      ensures l.item == it && l.offset == offset && it.position == old(it.position) && it.body == old(it.body)
    {
      ghost var k := IndexOf(it);
      ListOrdered(k);
      var p := UpperBound(it, offset);
      LinkOne(m.cells, m.lists, labels, m.ptrs, l, k, p, offset);
      hide Linked;
      Attach(l, it, offset, k, p);
    }

    /** Registers a new label under a free name. */
    method Register(name: string, it: Item, offset: nat) returns (l: Label)
      requires Registered() && it in children && name !in labels
      modifies this, it
      ensures Registered() && children == old(children) && pmap == old(pmap) && m.cells == old(m.cells)
      ensures m.repr == old(m.repr) + {l} && fresh(l)
      ensures it.position == old(it.position) && it.body == old(it.body)
      ensures l.name == name && l.item == it && l.offset == offset && l.target == it.position + offset
      ensures labels == old(labels)[name := l] && m.ptrs == old(m.ptrs)[name := Ptr(it, offset)]
    {
      l := new Label(name, null, offset, it.position + offset);
      m := m.(repr := m.repr + {l});
      Link(l, it, offset);
    }

    /** Registers a label; the name must be free. */
    method CreateLabel(name: string, it: Item, offset: nat) returns (r: Option<Label>)
      requires Registered() && it in children
      modifies this, it
      ensures Registered() && children == old(children) && pmap == old(pmap) && m.cells == old(m.cells)
      ensures r.Some? <==> name !in old(labels)
      ensures r.Some? ==> fresh(r.value) && labels == old(labels)[name := r.value]
      ensures r.Some? ==> m.ptrs == old(m.ptrs)[name := Ptr(it, offset)]
      ensures r.None? ==> labels == old(labels) && m.ptrs == old(m.ptrs)
    {
      if name in labels {
        return None;
      }
      var l := Register(name, it, offset);
      r := Some(l);
    }

    /** Registers a label under the first free variant of the name; one always exists. */
    method CreateLabelFallback(name: string, it: Item, offset: nat) returns (l: Label, ghost i: nat)
      requires Registered() && it in children
      modifies this, it
      ensures Registered() && children == old(children) && pmap == old(pmap) && m.cells == old(m.cells)
      ensures m.repr == old(m.repr) + {l} && fresh(l)
      ensures l.name == Variant(name, i) && l.name !in old(labels)
      ensures forall j :: 0 <= j < i ==> Variant(name, j) in old(labels)
      ensures labels == old(labels)[l.name := l] && m.ptrs == old(m.ptrs)[l.name := Ptr(it, offset)]
      ensures it.position == old(it.position) && it.body == old(it.body)
      ensures l.item == it && l.offset == offset && l.target == it.position + offset
    {
      var str;
      str, i := FreeName(labels.Keys, name);
      l := Register(str, it, offset);
    }

    /** The same during disassembly: the label is anchored at its file position. */
    method NewLabel(name: string, it: Item, offset: nat) returns (l: Label)
      requires Core() && it in children && Covers(Cell(it, it.position, it.body), it.position + offset)
      modifies this, it
      ensures Core() && children == old(children) && pmap == old(pmap) && m.cells == old(m.cells)
      ensures m.repr == old(m.repr) + {l} && fresh(l)
      ensures labels == old(labels)[l.name := l] && l.name !in old(labels)
      ensures m.ptrs == old(m.ptrs)[l.name := Ptr(it, offset)]
      ensures l.item == it && l.offset == offset && l.target == it.position + offset
      ensures FirstFree(l.name, name, old(labels).Keys)
    {
      ghost var k := IndexOf(it);
      assert Holds(m.cells, k, Ptr(it, offset), it.position + offset);
      hide Tiling, Indexed, RawsMatch, AllRefsKnown, Anchored, Distinct, Holds, Covers, Variant;
      ghost var i;
      l, i := CreateLabelFallback(name, it, offset);
      assert FirstFree(l.name, name, old(labels).Keys);
      hide FirstFree;
      SoundWithLabel(old(m), old(labels), m, labels, pmap, file, l, k);
    }

    /** Points a label at an item, registering it first when the name is free. */
    method CreateOrSetLabel(name: string, it: Item, offset: nat) returns (l: Label)
      requires Registered() && it in children
      modifies this, m.repr
      ensures Registered() && children == old(children) && pmap == old(pmap) && m.cells == old(m.cells)
      ensures labels == old(labels)[name := l] && m.ptrs == old(m.ptrs)[name := Ptr(it, offset)]
      ensures if name in old(labels) then l == old(labels)[name] else fresh(l)
    {
      hide Linked, Mirrors;
      ItemThere(it);
      if name !in labels {
        l := Register(name, it, offset);
        return;
      }
      l := labels[name];
      LabelThere(name);
      if l.item != null {
        Unlink(l);
      } else {
        NotListed(l);
      }
      Link(l, it, offset);
    }

    lemma ItemThere(it: Item)
      requires Shape() && it in children
      ensures it in m.repr
    {
      hide Distinct;
    }

    lemma LabelThere(name: string)
      requires Registered() && name in labels
      ensures var l := labels[name]; Known(l, labels) && l in m.repr && l.name == name && (l.item != null ==> l.item in m.repr && l.item in children)
    {
      hide Distinct;
      if labels[name].item != null {
        ghost var k: nat :| Lists(m.lists, k, labels[name]) && m.cells[k].item == m.ptrs[name].item;
        assert children[k] == m.cells[k].item;
      }
    }

    lemma NotListed(l: Label)
      requires Registered() && Known(l, labels) && l.item == null
      ensures forall i {:trigger m.lists[i]} :: 0 <= i < |m.lists| ==> l !in m.lists[i]
    {
      forall i | 0 <= i < |m.lists|
        ensures l !in m.lists[i]
      {
        assert ListOk(m.cells[i].item, m.lists[i], labels, m.ptrs);
      }
    }

    /** Takes a label out of its item's label list. */
    method Unlink(l: Label)
      requires Registered() && Known(l, labels) && l.item != null
      modifies this, l.item, l
      ensures Registered() && children == old(children) && pmap == old(pmap) && m.cells == old(m.cells) && m.repr == old(m.repr) && labels == old(labels)
      ensures l.item == null && l.offset == old(l.offset) && m.ptrs == old(m.ptrs)[l.name := Ptr(null, l.offset)]
      ensures forall i {:trigger m.lists[i]} :: 0 <= i < |m.lists| ==> l !in m.lists[i]
    {
      ghost var k: nat :| Lists(m.lists, k, labels[l.name]) && m.cells[k].item == m.ptrs[l.name].item;
      var p := Position(l.item.labels, l);
      UnlinkOne(m.cells, m.lists, labels, m.ptrs, l, k, p);
      ListOrdered(k);
      hide Linked;
      Detach(l, k, p);
    }

    method Detach(l: Label, ghost k: nat, p: nat)
      requires Shape() && Known(l, labels) && l.item != null
      requires k < |children| && children[k] == l.item && p < |l.item.labels|
      requires forall n {:trigger labels[n]} :: n in labels ==> labels[n] != l || n == l.name
      modifies this, l.item, l
      ensures Shape() && children == old(children) && pmap == old(pmap) && labels == old(labels)
      ensures m == old(m).(lists := old(m.lists)[k := old(m.lists)[k][..p] + old(m.lists)[k][p + 1..]],
                           ptrs := old(m.ptrs)[l.name := Ptr(null, l.offset)])
      ensures l.item == null && l.offset == old(l.offset)
    {
      hide Distinct, Mirrors, Described;
      OthersDescribed(k);
      LabelsMirrored();
      var it := l.item;
      ghost var r := m.(lists := m.lists[k := m.lists[k][..p] + m.lists[k][p + 1..]], ptrs := m.ptrs[l.name := Ptr(null, l.offset)]);
      it.labels := it.labels[..p] + it.labels[p + 1..];
      l.item := null;
      assert forall i {:trigger children[i]} :: 0 <= i < |children| && i != k ==> Described(children[i], m.cells[i], m.lists[i], m.repr);
      ItselfDescribed(it, m.cells[k], r.lists[k], m.repr);
      MirrorsAgain(children, labels, m, k, l, r);
      assert labels[l.name := l] == labels;
      m := r;
    }

    /** Finds a label by name, registering one that points nowhere when the name is free. */
    method GetOrCreateDummyLabel(name: string) returns (l: Label)
      requires Registered()
      modifies this
      ensures Registered() && children == old(children) && pmap == old(pmap) && m.cells == old(m.cells)
      ensures if name in old(labels) then labels == old(labels) && l == labels[name] && m.ptrs == old(m.ptrs)
              else labels == old(labels)[name := l] && fresh(l) && m.ptrs == old(m.ptrs)[name := Ptr(null, 0)]
    {
      if name in labels {
        return labels[name];
      }
      l := new Label(name, null, 0, 0);
      AddedMirrors(name, l);
      AddedLinked(name, l);
      labels := labels[name := l];
      m := m.(ptrs := m.ptrs[name := Ptr(null, 0)], repr := m.repr + {l});
    }

    /** Registering a label that points nowhere. */
    lemma AddedMirrors(name: string, l: Label)
      requires Registered() && name !in labels && l !in m.repr && l.item == null && l.offset == 0
      ensures Mirrors(children, labels[name := l], m.(ptrs := m.ptrs[name := Ptr(null, 0)], repr := m.repr + {l}))
    {
      hide Linked, Distinct;
    }

    lemma AddedLinked(name: string, l: Label)
      requires Registered() && name !in labels && l !in m.repr && l.item == null && l.name == name
      ensures Linked(m.cells, m.lists, labels[name := l], m.ptrs[name := Ptr(null, 0)])
    {
      hide Distinct;
      forall i | 0 <= i < |m.lists|
        ensures ListOk(m.cells[i].item, m.lists[i], labels[name := l], m.ptrs[name := Ptr(null, 0)])
      {
        ListKept(m.cells[i].item, m.lists[i], labels, m.ptrs, labels[name := l], m.ptrs[name := Ptr(null, 0)]);
      }
    }

    /** The place of an item in the list. */
    method Iterator(it: Item) returns (k: nat)
      requires Shape() && it in children
      ensures k < |children| && children[k] == it
    {
      k := 0;
      while children[k] != it
        invariant 0 <= k < |children|
        invariant it in children[k..]
        decreases |children| - k
      {
        k := k + 1;
      }
    }

    /** The objects of the pieces and of the labels of a cut item, before the list takes them over. */
    method MovePieces(self: Item, items: seq<Item>, at: seq<nat>, k: nat, ghost bodies: seq<Body>)
      returns (ghost cut: seq<nat>, index: map<nat, Item>)
      requires CanSlice(self, items, at, k, bodies)
      modifies items, self`labels, self.labels
      ensures Sliceable(m, labels, k, items, bodies, at, cut)
      ensures PiecesStand(m, k, items, bodies, at, cut) && LabelsMoved(m, labels, k, items, at)
      ensures index == (if pmap == map[] then map[] else Emplaced(Unindexed(pmap, self, old(self.position)), old(self.position), items, at, |items|))
    {
      ghost var offs := OwnLabels(self, k, at);
      var lbls, base := self.labels, self.position;
      hide Linked, Distinct, FreshPieces, AllHoused;
      self.labels := [];
      cut, index := PlacePieces(lbls, offs, items, at, base, Unindexed(pmap, self, base), pmap != map[]);
      PiecesCut(lbls, offs, items, at, cut);
      forall n | n in labels
        ensures Ptr(labels[n].item, labels[n].offset) == PiecePtrs(m.ptrs, self, items, at)[n]
      {
        if m.ptrs[n].item == self {
          LabelMoved(labels[n], lbls, m.ptrs, self, offs, items, at, cut);
        }
      }
    }

    /** The labels of an item before it is cut. */
    lemma OwnLabels(self: Item, k: nat, at: seq<nat>) returns (offs: seq<nat>)
      requires Registered() && k < |children| && children[k] == self && AllHoused(m.ptrs, self, at)
      ensures forall a {:trigger m.lists[k][a]} :: 0 <= a < |m.lists[k]| ==> m.lists[k][a].name in m.ptrs
      ensures offs == Offsets(m.lists[k], m.ptrs) && Ascending(offs)
      ensures forall a, b :: 0 <= a < b < |self.labels| ==> self.labels[a] != self.labels[b]
      ensures forall q {:trigger self.labels[q]} {:trigger offs[q]} :: 0 <= q < |offs| ==>
                self.labels[q].offset == offs[q] && Housed(at, offs[q])
      ensures forall n {:trigger labels[n]} :: n in labels ==>
                labels[n].name == n && (m.ptrs[n].item == self <==> labels[n] in self.labels)
    {
      assert ListOk(self, m.lists[k], labels, m.ptrs);
      OffsetsAscend(self, m.lists[k], labels, m.ptrs, at);
      offs := Offsets(m.lists[k], m.ptrs);
      forall n | n in labels && m.ptrs[n].item == self
        ensures labels[n] in self.labels
      {
        ListedAt(m.cells, m.lists, labels, m.ptrs, n, k);
      }
    }

    /** An item may be cut into these pieces at these places. */
    ghost predicate CanSlice(self: Item, items: seq<Item>, at: seq<nat>, k: nat, bodies: seq<Body>)
      reads this, m.repr, items
    {
      && Registered() && k < |children| && children[k] == self
      && |items| == |at| - 1 == |bodies| > 0 && Ascending(at) && at[0] == 0 && AllHoused(m.ptrs, self, at)
      && FreshPieces(m.cells, k, items)
      && forall j {:trigger items[j]} :: 0 <= j < |items| ==>
           items[j] in m.repr && bodies[j] == items[j].body && (items[j] == self || items[j].labels == [])
    }

    /** Puts the pieces in place of an item. `k` is its place in the list. */
    method Slice(self: Item, items: seq<Item>, at: seq<nat>, k: nat, ghost bodies: seq<Body>) returns (ghost cut: seq<nat>)
      requires CanSlice(self, items, at, k, bodies)
      modifies this, m.repr
      ensures Shape() && labels == old(labels) && IsSliced(old(m), labels, k, items, bodies, at, cut, m)
      ensures pmap == (if old(pmap) == map[] then map[] else Emplaced(Unindexed(old(pmap), self, old(self.position)), old(self.position), items, at, |items|))
    {
      hide Mirrors, Linked, Distinct, Described, FreshPieces, AllHoused, Ascending, Emplaced, Unindexed, PiecePtrs, PieceLists, PieceCells, IsSliced, Cuts, Replaced, PiecesStand, LabelsMoved, Sliceable;
      var index;
      OthersDescribed(k);
      LabelsMirrored();
      Untouched(self, items, at, k, bodies);
      cut, index := MovePieces(self, items, at, k, bodies);
      assert forall i {:trigger children[i]} :: 0 <= i < |children| && i != k ==> Described(children[i], m.cells[i], m.lists[i], m.repr);
      ghost var r := SlicedNow(m, labels, k, items, bodies, at, cut);
      SlicedDistinct(m, labels, k, items, bodies, at, cut, r);
      SlicedMirrors(children, labels, m, k, items, bodies, at, cut, r);
      children := Replaced(children, k, items);
      pmap := index;
      m := r;
    }

    /** The pieces are not items of the list, but for the cut one. */
    lemma Untouched(self: Item, items: seq<Item>, at: seq<nat>, k: nat, bodies: seq<Body>)
      requires CanSlice(self, items, at, k, bodies)
      ensures k < |children| && children[k] == self && FreshPieces(m.cells, k, items) && |items| == |at| - 1 == |bodies|
      ensures forall i {:trigger children[i]} :: 0 <= i < |children| && i != k ==> children[i] !in items && children[i] != self
      ensures forall j {:trigger items[j]} :: 0 <= j < |items| ==> items[j] in m.repr
      ensures self in m.repr && forall l {:trigger l in m.repr} :: l in self.labels ==> l in m.repr
    {
      OthersDescribed(k);
      LabelsMirrored();
      assert ListOk(self, m.lists[k], labels, m.ptrs);
      forall i | 0 <= i < |children| && i != k
        ensures children[i] !in items
      {
        assert m.cells[i].item == children[i];
      }
    }

    /** The labels of an item go to the one that replaces it. */
    method HandOver(self: Item, nitem: Item, k: nat, ghost at: seq<nat>) returns (ghost cut: seq<nat>, ghost r: Mirror)
      requires CanSlice(self, [nitem], at, k, [nitem.body]) && nitem != self
      modifies nitem, self`labels, self.labels
      ensures IsSliced(m, labels, k, [nitem], [old(nitem.body)], at, cut, r)
      ensures r.repr == m.repr && Mirrors(Replaced(children, k, [nitem]), labels, r)
      ensures nitem.body == old(nitem.body)
    {
      hide Linked, Cuts, Distinct, AllHoused, IsSliced, FreshPieces, Mirrors, Described, PiecesStand, LabelsMoved, Replaced;
      assert [nitem][0] == nitem;
      OthersDescribed(k);
      LabelsMirrored();
      Untouched(self, [nitem], at, k, [nitem.body]);
      ghost var offs := OwnLabels(self, k, at);
      cut, r := OnePiece(m, labels, k, nitem, at);
      SlicedDistinct(m, labels, k, [nitem], [nitem.body], at, cut, r);
      SwapLabels(self, nitem);
      nitem.position := self.position;
      assert forall i {:trigger children[i]} :: 0 <= i < |children| && i != k ==> Described(children[i], m.cells[i], m.lists[i], m.repr);
      OneStands(m, labels, k, nitem, at, cut, r);
      SlicedMirrors(children, labels, m, k, [nitem], [nitem.body], at, cut, r);
    }

    lemma ThisApart(self: Item, items: seq<Item>, at: seq<nat>, k: nat, bodies: seq<Body>)
      requires CanSlice(self, items, at, k, bodies)
      ensures this !in m.repr && forall j {:trigger items[j]} :: 0 <= j < |items| ==> bodies[j] == items[j].body
    {
      hide Mirrors, Linked, FreshPieces, AllHoused;
    }

    /** Puts another item in place of one, which hands over its labels. */
    method Replace(self: Item, nitem: Item, k: nat, ghost at: seq<nat>) returns (ghost cut: seq<nat>)
      requires CanSlice(self, [nitem], at, k, [nitem.body]) && nitem != self
      modifies this, m.repr
      ensures Shape() && labels == old(labels) && IsSliced(old(m), labels, k, [nitem], [nitem.body], at, cut, m)
      ensures nitem.body == old(nitem.body)
      ensures pmap == (if old(self.position) in old(pmap) && old(pmap)[old(self.position)] == self
                       then old(pmap)[old(self.position) := nitem] else old(pmap))
    {
      hide Mirrors, IsSliced, Linked, Distinct, AllHoused, FreshPieces, Replaced, CanSlice;
      assert [nitem][0] == nitem;
      Untouched(self, [nitem], at, k, [nitem.body]);
      ThisApart(self, [nitem], at, k, [nitem.body]);
      ghost var r;
      cut, r := HandOver(self, nitem, k, at);
      if self.position in pmap && pmap[self.position] == self {
        pmap := pmap[self.position := nitem];
      }
      children := Replaced(children, k, [nitem]);
      m := r;
    }

    /** Makes an item that is not in the list yet. */
    method Create(body: Body) returns (it: Item)
      requires Core()
      modifies this
      ensures Core() && children == old(children) && pmap == old(pmap) && labels == old(labels)
      ensures m == old(m).(repr := old(m.repr) + {it}) && fresh(it)
      ensures it.body == body && it.labels == []
    {
      hide Linked, Anchored, Tiling, Indexed, RawsMatch, AllRefsKnown, Distinct;
      it := new Item(body);
      m := m.(repr := m.repr + {it});
    }

    /** Narrows what an item of the list holds. */
    method Narrow(it: Item, body: Body, ghost k: nat)
      requires Shape() && k < |children| && children[k] == it
      modifies this, it
      ensures Shape() && children == old(children) && pmap == old(pmap) && labels == old(labels)
      ensures k < |old(m.cells)| && m == old(m).(cells := old(m.cells)[k := old(m.cells)[k].(body := body)])
    {
      assert forall i {:trigger children[i]} :: 0 <= i < |children| && i != k ==> children[i] != it && children[i] == m.cells[i].item;
      it.body := body;
      ghost var r := m.(cells := m.cells[k := m.cells[k].(body := body)]);
      assert Mirrors(children, labels, r);
      hide Mirrors;
      m := r;
    }

    /** `nitem` may be cut out of a raw item at `pos`. */
    ghost predicate CanSplit(raw: Item, pos: nat, nitem: Item, k: nat)
      reads this, m.repr
    {
      && Core() && k < |children| && children[k] == raw
      && nitem in m.repr && nitem !in children && nitem.labels == []
      && Carves(m.cells[k], pos, nitem.body, k == |children| - 1) && RefsKnown(nitem.body, labels)
    }

    /** What a split leaves: the same labels, and the new item with raw ones around it in place of the raw item. */
    twostate predicate HasSplit(raw: Item, pos: nat, nitem: Item, k: nat, new parts: seq<Cell>)
      reads this, m.repr
    {
      && Core() && labels == old(labels) && old(m.repr) <= m.repr
      && k < |old(m.cells)|
      && SplitParts(old(m.cells)[k], pos, nitem, old(nitem.body), parts) && m.cells == Replaced(old(m.cells), k, parts)
    }

    /** The new item covers the raw one. */
    method SplitReplace(raw: Item, pos: nat, nitem: Item, k: nat) returns (ghost parts: seq<Cell>)
      requires CanSplit(raw, pos, nitem, k) && pos == 0 && Size(nitem.body) == Size(raw.body)
      modifies this, m.repr
      ensures HasSplit(raw, pos, nitem, k, parts) && m.repr == old(m.repr)
    {
      hide Linked, Anchored, Tiling, RawsMatch, AllRefsKnown, AllHoused;
      ghost var nb := nitem.body;
      ghost var items, bodies, at := SplitReady(m, labels, pmap, file, k, nitem, nitem, 0, nb);
      assert items == [nitem] && bodies == [nb];
      OneEntry(pmap, m.cells[k].pos, raw, nitem, at);
      assert FreshPieces(m.cells, k, [nitem]);
      hide *;
      ghost var cut := Replace(raw, nitem, k, at);
      parts := SplitDone(old(m), labels, old(pmap), file, k, nitem, nitem, 0, nb, items, bodies, at, cut, m);
    }

    /** The new item leaves raw bytes before or behind it, or both. */
    method SplitCut(raw: Item, pos: nat, nitem: Item, k: nat, rest: Item) returns (ghost parts: seq<Cell>)
      requires CanSplit(raw, pos, nitem, k) && (pos != 0 || Size(nitem.body) != Size(raw.body))
      requires rest in m.repr && rest !in children && rest.labels == [] && rest != nitem
      requires Cutting(raw, pos, nitem, rest)
      modifies this, m.repr
      ensures HasSplit(raw, pos, nitem, k, parts) && m.repr == old(m.repr)
    {
      hide Linked, Anchored, Tiling, Indexed, RawsMatch, AllRefsKnown, Distinct;
      var view, len, size := raw.body.view, Size(nitem.body), Size(raw.body);
      ghost var nb := nitem.body;
      ghost var bodies, now := CutReady(raw, pos, nitem, k, rest);
      var pieces, at := SplitItems(raw, nitem, rest, pos, len, size), SplitAt(pos, len, size);
      var j, narrow := 0, view.Slice(0, pos);
      if pos == 0 {
        j, narrow := 1, view.Slice(len, size - len);
      }
      NowNarrowed(raw, pos, nitem, rest, j, narrow);
      hide Sound, IsSliced, CanSlice, SplitItems, SplitAt, SplitBodies, Ready, CanSplit, Cutting, PieceBodies, Carves;
      ghost var cut := Slice(raw, pieces, at, k, now);
      SlicedNarrowed(old(m), labels, k, pieces, now, at, cut, m, j, Raw(narrow));
      Narrow(raw, Raw(narrow), k + j);
      parts := SplitDone(old(m), labels, old(pmap), file, k, nitem, rest, pos, nb, pieces, bodies, at, cut, m);
    }

    lemma CutReady(raw: Item, pos: nat, nitem: Item, k: nat, rest: Item) returns (bodies: seq<Body>, now: seq<Body>)
      requires CanSplit(raw, pos, nitem, k) && (pos != 0 || Size(nitem.body) != Size(raw.body))
      requires rest in m.repr && rest !in children && rest.labels == [] && rest != nitem
      requires Cutting(raw, pos, nitem, rest)
      ensures k < |m.cells| && Ready(m, labels, pmap, file, k, pos, nitem.body) && m.cells[k].item == raw && m.cells[k].body == raw.body
      ensures m.cells[k].pos == raw.position && raw.position in pmap && pmap[raw.position] == raw && pmap != map[]
      ensures bodies == SplitBodies(raw.body.view, pos, nitem.body)
      ensures var size := Size(raw.body); var len := Size(nitem.body);
              now == PieceBodies(raw, pos, nitem, rest) && CanSlice(raw, SplitItems(raw, nitem, rest, pos, len, size), SplitAt(pos, len, size), k, now)
    {
      hide Linked, Anchored, Tiling, RawsMatch, AllRefsKnown, AllHoused;
      ghost var items, b, at := SplitReady(m, labels, pmap, file, k, nitem, rest, pos, nitem.body);
      bodies := b;
      now := PieceBodies(raw, pos, nitem, rest);
      hide SplitAt, SplitBodies;
    }

    /** Narrowing the raw item after the cut gives the bodies of the split. */
    lemma NowNarrowed(raw: Item, pos: nat, nitem: Item, rest: Item, j: nat, narrow: View)
      requires Cutting(raw, pos, nitem, rest) && (pos != 0 || Size(nitem.body) != Size(raw.body))
      requires j == (if pos == 0 then 1 else 0)
      requires var view, len := raw.body.view, Size(nitem.body);
               narrow == if pos == 0 then view.Slice(len, view.size - len) else view.Slice(0, pos)
      ensures var items, now := SplitItems(raw, nitem, rest, pos, Size(nitem.body), Size(raw.body)), PieceBodies(raw, pos, nitem, rest);
              j < |items| && j < |now| && items[j] == raw && now[j := Raw(narrow)] == SplitBodies(raw.body.view, pos, nitem.body)
    {
    }

    ghost predicate Cutting(raw: Item, pos: nat, nitem: Item, rest: Item)
      reads raw, nitem, rest
    {
      && raw.body.Raw? && raw.body.view.Valid() && pos + Size(nitem.body) <= raw.body.view.size
      && (pos != 0 && pos + Size(nitem.body) < raw.body.view.size ==>
           rest.body == Raw(raw.body.view.Slice(pos + Size(nitem.body), raw.body.view.size - pos - Size(nitem.body))))
    }

    ghost function PieceBodies(raw: Item, pos: nat, nitem: Item, rest: Item): (r: seq<Body>)
      reads raw, nitem, rest
      ensures |r| == |SplitItems(raw, nitem, rest, pos, Size(nitem.body), Size(raw.body))|
      ensures forall j {:trigger r[j]} :: 0 <= j < |r| ==> r[j] == SplitItems(raw, nitem, rest, pos, Size(nitem.body), Size(raw.body))[j].body
    {
      (if pos == 0 then [] else [raw.body]) + [nitem.body] +
      (if pos + Size(nitem.body) < Size(raw.body) then [if pos == 0 then raw.body else rest.body] else [])
    }

    /** Cuts a new item out of a raw one; what is left around it stays raw. */
    method Split2(raw: Item, pos: nat, nitem: Item, ghost at: nat) returns (ghost parts: seq<Cell>)
      requires CanSplit(raw, pos, nitem, at)
      modifies this, m.repr
      ensures HasSplit(raw, pos, nitem, at, parts) && fresh(m.repr - old(m.repr))
    {
      hide Linked, Anchored, Tiling, Indexed, RawsMatch, AllRefsKnown;
      var k := Iterator(raw);
      assert k == at by { assert m.cells[k].item == m.cells[at].item; }
      var len, size := Size(nitem.body), Size(raw.body);
      if pos == 0 && pos + len == size {
        parts := SplitReplace(raw, pos, nitem, k);
        return;
      }
      var rest := nitem;
      if pos != 0 && pos + len < size {
        rest := Create(Raw(raw.body.view.Slice(pos + len, size - pos - len)));
      } else {
        rest := Create(Eof);
      }
      parts := SplitCut(raw, pos, nitem, k, rest);
    }

    /** The item that holds a file position. */
    method GetPointer(pos: nat) returns (it: Item, offset: nat, ghost k: nat)
      requires Core() && Within(m.cells, |file|, pos)
      ensures k < |m.cells| && m.cells[k] == Cell(it, it.position, it.body) && Covers(m.cells[k], pos)
      ensures it in children && it.position + offset == pos
    {
      hide Linked, Anchored, RawsMatch, AllRefsKnown, Distinct;
      k := FloorCovers(pmap, m.cells, |file|, pos);
      var key := Floor(pmap, pos).value;
      it, offset := pmap[key], pos - key;
    }

    /** The labels of an item that are registered under `labels`, except the last, are not at an offset. */
    lemma NewAtOffset(before: Mirror, was: map<string, Label>, l: Label, k: nat, offset: nat)
      requires Shape() && Linked(m.cells, m.lists, labels, m.ptrs) && k < |m.cells|
      requires |before.lists| == |before.cells| && Linked(before.cells, before.lists, was, before.ptrs)
      requires before.cells == m.cells && labels == was[l.name := l] && l.name !in was
      requires m.ptrs == before.ptrs[l.name := Ptr(m.cells[k].item, offset)]
      requires NoneAt(before.lists[k], before.ptrs, offset)
      ensures FirstAt(m.lists[k], m.ptrs, offset, l)
    {
      ListedAt(m.cells, m.lists, labels, m.ptrs, l.name, k);
      assert ListOk(m.cells[k].item, m.lists[k], labels, m.ptrs);
      var list := m.lists[k];
      forall q | 0 <= q < |list| && list[q] != l
        ensures list[q].name in m.ptrs && m.ptrs[list[q].name].offset != offset
      {
        assert Known(list[q], was) by { assert Known(list[q], labels); }
        ListedAt(before.cells, before.lists, was, before.ptrs, list[q].name, k);
      }
    }

    lemma FoundLabel(k: nat, offset: nat, p: nat)
      requires Core() && k < |children| && p <= |children[k].labels|
      requires forall q {:trigger children[k].labels[q]} :: 0 <= q < p ==> children[k].labels[q].offset != offset
      requires p < |children[k].labels| ==> children[k].labels[p].offset == offset
      ensures k < |m.lists| && m.lists[k] == children[k].labels && Linked(m.cells, m.lists, labels, m.ptrs)
      ensures p == |children[k].labels| ==> NoneAt(m.lists[k], m.ptrs, offset)
      ensures p < |children[k].labels| ==>
                var l := children[k].labels[p];
                FirstAt(m.lists[k], m.ptrs, offset, l) && Known(l, labels) && l.item == children[k] && l.target == children[k].position + offset
    {
      hide Tiling, Indexed, RawsMatch, AllRefsKnown;
      ListOrdered(k);
      if p < |children[k].labels| {
        AnchoredAt(children[k].labels[p], k);
      }
    }

    /** A label at an offset, found or made; it says which file position it stands for. */
    method GetLabelTo(it: Item, offset: nat, name: string, ghost k: nat) returns (l: Label)
      requires Core() && k < |children| && children[k] == it && Covers(m.cells[k], it.position + offset)
      modifies this, it
      ensures Core() && children == old(children) && pmap == old(pmap) && m.cells == old(m.cells)
      ensures Known(l, labels) && l.item == it && l.offset == offset && l.target == it.position + offset
      ensures l.name in m.ptrs && k < |m.lists| && FirstAt(m.lists[k], m.ptrs, offset, l)
      ensures if labels == old(labels) then m == old(m)
              else k < |old(m.lists)| && NoneAt(old(m.lists)[k], old(m.ptrs), offset) && labels == old(labels)[l.name := l]
                   && l.name !in old(labels) && fresh(l) && m.repr == old(m.repr) + {l} && FirstFree(l.name, name, old(labels).Keys)
    {
      hide Tiling, Indexed, RawsMatch, AllRefsKnown, Linked, Anchored, Distinct, FirstAt, NoneAt, FirstFree;
      var p := FindLabel(it, offset);
      FoundLabel(k, offset, p);
      if p < |it.labels| {
        l := it.labels[p];
        return;
      }
      hide Mirrors;
      l := NewLabel(name, it, offset);
      NewAtOffset(old(m), old(labels), l, k, offset);
    }

    /** The size of the file is that of its items together. */
    method GetSize() returns (size: nat)
      requires Core()
      ensures size == |file|
    {
      hide Linked, Anchored, Indexed, RawsMatch, AllRefsKnown, Distinct;
      size := 0;
      for i := 0 to |children|
        invariant size == if i < |m.cells| then m.cells[i].pos else |file|
      {
        assert i + 1 < |m.cells| ==> Follows(m.cells[i], m.cells[i + 1]);
        size := size + Size(children[i].body);
      }
    }

    /** Moves an item of the list. */
    method UpdatePosition(it: Item, npos: nat, ghost k: nat)
      requires Shape() && k < |children| && children[k] == it
      modifies this, it
      ensures Shape() && children == old(children) && pmap == old(pmap) && labels == old(labels)
      ensures k < |old(m.cells)| && m == old(m).(cells := old(m.cells)[k := old(m.cells)[k].(pos := npos)])
      ensures it.body == old(it.body)
    {
      assert forall i {:trigger children[i]} :: 0 <= i < |children| && i != k ==> children[i] != it && children[i] == m.cells[i].item;
      it.position := npos;
      ghost var r := m.(cells := m.cells[k := m.cells[k].(pos := npos)]);
      assert Mirrors(children, labels, r);
      hide Mirrors;
      m := r;
    }

    /** Lays the items out one after the other from 0 on and drops the index. */
    method Fixup()
      requires Shape()
      modifies this, m.repr
      ensures Shape() && children == old(children) && labels == old(labels) && pmap == map[]
      ensures m == old(m).(cells := LaidOut(old(m.cells)))
    {
      hide Mirrors, SizeBefore, HalfLaid;
      SameSize();
      pmap := map[];
      var pos := 0;
      ghost var was := m;
      NoneLaid(was);
      for i := 0 to |children|
        invariant Shape() && children == old(children) && labels == old(labels) && pmap == map[]
        invariant i <= |was.cells| && pos == SizeBefore(was.cells, i) && HalfLaid(was, m, i) && m.repr == was.repr
      {
        SameSize();
        ghost var now := m;
        UpdatePosition(children[i], pos, i);
        NextLaid(was, now, m, i);
        SameSize();
        pos := pos + Size(children[i].body);
      }
      AllLaid(was, m);
    }

    lemma SameSize()
      requires Shape()
      ensures |children| == |m.cells| && this !in m.repr
      ensures forall i {:trigger children[i]} :: 0 <= i < |children| ==> children[i] in m.repr && children[i].body == m.cells[i].body
    {
    }

    lemma AnchoredAt(l: Label, k: nat)
      requires Core() && k < |children| && l in m.lists[k]
      ensures Known(l, labels) && l.item == children[k] && l.target == children[k].position + l.offset
    {
      assert ListOk(m.cells[k].item, m.lists[k], labels, m.ptrs);
      ghost var i: nat :| Holds(m.cells, i, m.ptrs[l.name], labels[l.name].target);
      assert i == k;
    }
  }
}
