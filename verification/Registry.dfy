/** What the label registry, the item list and the position index owe each other, on values. */
module Registry {
  import opened Bytes
  import opened Items

  /** Where a label points. */
  datatype Ptr = Ptr(item: Item?, offset: nat)

  /** The position index has exactly one entry per cell. */
  ghost predicate Indexed(pmap: map<nat, Item>, cells: seq<Cell>) {
    && (forall i {:trigger cells[i]} :: 0 <= i < |cells| ==> cells[i].pos in pmap && pmap[cells[i].pos] == cells[i].item)
    && (forall p {:trigger p in pmap} :: p in pmap ==> exists i :: 0 <= i < |cells| && cells[i].pos == p)
  }

  ghost predicate RawMatches(c: Cell, file: seq<byte>) {
    c.body.Raw? && c.body.view.Valid() && End(c) <= |file| && c.body.view.Bytes() == file[c.pos..End(c)]
  }

  /** Raw cells hold the bytes of the file at their position. */
  ghost predicate RawsMatch(cells: seq<Cell>, file: seq<byte>) {
    forall i {:trigger cells[i]} :: 0 <= i < |cells| && cells[i].body.Raw? ==> RawMatches(cells[i], file)
  }

  ghost predicate Known(l: Label, labels: map<string, Label>) {
    l.name in labels && labels[l.name] == l
  }

  /** Every label an item refers to is registered. */
  ghost predicate RefsKnown(b: Body, labels: map<string, Label>) {
    match b
    case Header(entry, _, _, _) => Known(entry, labels)
    case Simple(_, _, args) => forall i {:trigger args[i]} :: 0 <= i < |args| && args[i].Pointer? && args[i].lbl != null ==> Known(args[i].lbl, labels)
    case RndJump(_, tgts) => forall i {:trigger tgts[i]} :: 0 <= i < |tgts| ==> Known(tgts[i], labels)
    case JumpIf(_, tgt, _) => Known(tgt, labels)
    case JumpSwitch(_, _, _, exprs, _) => forall i {:trigger exprs[i]} :: 0 <= i < |exprs| ==> Known(exprs[i].target, labels)
    case _ => true
  }

  ghost predicate AllRefsKnown(cells: seq<Cell>, labels: map<string, Label>) {
    forall i {:trigger cells[i]} :: 0 <= i < |cells| ==> RefsKnown(cells[i].body, labels)
  }

  ghost predicate Extends(before: map<string, Label>, after: map<string, Label>) {
    forall n {:trigger n in before} :: n in before ==> n in after && after[n] == before[n]
  }

  lemma RefsStayKnown(b: Body, before: map<string, Label>, after: map<string, Label>)
    requires RefsKnown(b, before) && Extends(before, after)
    ensures RefsKnown(b, after)
  {
  }

  lemma AllRefsStayKnown(cells: seq<Cell>, before: map<string, Label>, after: map<string, Label>)
    requires AllRefsKnown(cells, before) && Extends(before, after)
    ensures AllRefsKnown(cells, after)
  {
    forall i | 0 <= i < |cells|
      ensures RefsKnown(cells[i].body, after)
    {
      RefsStayKnown(cells[i].body, before, after);
    }
  }

  /** Item `i` lists the label `l`. */
  ghost predicate Lists(lists: seq<seq<Label>>, i: nat, l: Label) {
    i < |lists| && l in lists[i]
  }

  /** The label list of an item: registered labels that point into it, in offset order. */
  ghost predicate ListOk(it: Item, list: seq<Label>, labels: map<string, Label>, ptrs: map<string, Ptr>) {
    && (forall a {:trigger list[a]} :: 0 <= a < |list| ==>
         Known(list[a], labels) && list[a].name in ptrs && ptrs[list[a].name].item == it)
    && (forall a, b {:trigger list[a], list[b]} :: 0 <= a < b < |list| ==>
         list[a] != list[b] && ptrs[list[a].name].offset <= ptrs[list[b].name].offset)
  }

  /** Names are unique, and a label is listed by exactly the item it points into. */
  ghost predicate Linked(cells: seq<Cell>, lists: seq<seq<Label>>, labels: map<string, Label>, ptrs: map<string, Ptr>)
    requires |lists| == |cells|
  {
    && labels.Keys == ptrs.Keys
    && (forall n {:trigger labels[n]} {:trigger ptrs[n]} :: n in labels ==>
         && labels[n].name == n
         && (ptrs[n].item != null ==> exists i: nat :: Lists(lists, i, labels[n]) && cells[i].item == ptrs[n].item))
    && (forall i {:trigger lists[i]} :: 0 <= i < |lists| ==> ListOk(cells[i].item, lists[i], labels, ptrs))
  }

  ghost predicate Distinct(cells: seq<Cell>) {
    forall i, j {:trigger cells[i], cells[j]} :: 0 <= i < |cells| && 0 <= j < |cells| && i != j ==>
      cells[i].item != cells[j].item
  }

  /** An item is listed where it stands. */
  lemma ListedAt(cells: seq<Cell>, lists: seq<seq<Label>>, labels: map<string, Label>, ptrs: map<string, Ptr>, n: string, k: nat)
    requires |lists| == |cells| && Linked(cells, lists, labels, ptrs) && Distinct(cells)
    requires n in labels && k < |cells| && ptrs[n].item == cells[k].item
    ensures labels[n] in lists[k]
  {
    var i: nat :| Lists(lists, i, labels[n]) && cells[i].item == ptrs[n].item;
    assert i == k;
  }

  function Insert<T>(s: seq<T>, p: nat, x: T): seq<T>
    requires p <= |s|
  {
    s[..p] + [x] + s[p..]
  }

  /** A place in a label list where a label with this offset keeps the order. */
  ghost predicate Fits(list: seq<Label>, ptrs: map<string, Ptr>, p: nat, offset: nat)
    requires forall a {:trigger list[a]} :: 0 <= a < |list| ==> list[a].name in ptrs
  {
    && p <= |list|
    && (forall a {:trigger list[a]} :: 0 <= a < p ==> ptrs[list[a].name].offset <= offset)
    && (forall a {:trigger list[a]} :: p <= a < |list| ==> offset < ptrs[list[a].name].offset)
  }

  /** A list keeps its order when the labels in it keep their pointers. */
  lemma ListKept(it: Item, list: seq<Label>, labels: map<string, Label>, ptrs: map<string, Ptr>,
                 labels': map<string, Label>, ptrs': map<string, Ptr>)
    requires ListOk(it, list, labels, ptrs)
    requires forall a {:trigger list[a]} :: 0 <= a < |list| ==>
               Known(list[a], labels') && list[a].name in ptrs' && ptrs'[list[a].name] == ptrs[list[a].name]
    ensures ListOk(it, list, labels', ptrs')
  {
  }

  lemma ListInserted(it: Item, list: seq<Label>, labels: map<string, Label>, ptrs: map<string, Ptr>,
                     l: Label, p: nat, offset: nat)
    requires ListOk(it, list, labels, ptrs) && Known(l, labels) && l !in list
    requires l.name in ptrs && ptrs[l.name] == Ptr(it, offset) && Fits(list, ptrs, p, offset)
    ensures ListOk(it, Insert(list, p, l), labels, ptrs)
  {
    var r := Insert(list, p, l);
    forall a | 0 <= a < |r|
      ensures r[a] == if a < p then list[a] else if a == p then l else list[a - 1]
    {
    }
  }

  lemma ListRemoved(it: Item, list: seq<Label>, labels: map<string, Label>, ptrs: map<string, Ptr>, p: nat)
    requires ListOk(it, list, labels, ptrs) && p < |list|
    ensures ListOk(it, list[..p] + list[p + 1..], labels, ptrs)
    ensures list[p] !in list[..p] + list[p + 1..]
  {
    var r := list[..p] + list[p + 1..];
    forall a | 0 <= a < |r|
      ensures r[a] == list[if a < p then a else a + 1]
    {
    }
  }

  /** Linking a label that no item lists yet: a new one, or one that is being redirected. */
  lemma LinkOne(cells: seq<Cell>, lists: seq<seq<Label>>, labels: map<string, Label>, ptrs: map<string, Ptr>,
                l: Label, k: nat, p: nat, offset: nat)
    requires |lists| == |cells| && Linked(cells, lists, labels, ptrs) && k < |cells|
    requires l.name in labels ==> labels[l.name] == l
    requires forall i {:trigger lists[i]} :: 0 <= i < |lists| ==> l !in lists[i]
    requires Fits(lists[k], ptrs, p, offset)
    ensures Linked(cells, lists[k := Insert(lists[k], p, l)], labels[l.name := l],
                   ptrs[l.name := Ptr(cells[k].item, offset)])
  {
    var lists', labels', ptrs' :=
      lists[k := Insert(lists[k], p, l)], labels[l.name := l], ptrs[l.name := Ptr(cells[k].item, offset)];
    forall i | 0 <= i < |lists|
      ensures ListOk(cells[i].item, lists'[i], labels', ptrs')
    {
      OthersNamed(lists[i], labels, l);
      ListKept(cells[i].item, lists[i], labels, ptrs, labels', ptrs');
      if i == k {
        ListInserted(cells[k].item, lists[k], labels', ptrs', l, p, offset);
      }
    }
    forall n | n in labels' && ptrs'[n].item != null
      ensures exists i: nat :: Lists(lists', i, labels'[n]) && cells[i].item == ptrs'[n].item
    {
      if n == l.name {
        assert lists'[k][p] == l;
        assert Lists(lists', k, l);
      } else {
        var i: nat :| Lists(lists, i, labels[n]) && cells[i].item == ptrs[n].item;
        InsertKeeps(lists[k], p, l, labels[n]);
        assert Lists(lists', i, labels'[n]);
      }
    }
  }

  lemma OthersNamed(list: seq<Label>, labels: map<string, Label>, l: Label)
    requires forall a {:trigger list[a]} :: 0 <= a < |list| ==> Known(list[a], labels)
    requires l.name in labels ==> labels[l.name] == l
    requires l !in list
    ensures forall a {:trigger list[a]} :: 0 <= a < |list| ==> list[a].name != l.name
  {
  }

  lemma InsertKeeps<T>(s: seq<T>, p: nat, x: T, y: T)
    requires p <= |s|
    ensures y in s ==> y in Insert(s, p, x)
  {
    if y in s {
      var a :| 0 <= a < |s| && s[a] == y;
      assert Insert(s, p, x)[if a < p then a else a + 1] == y;
    }
  }

  lemma RemoveKeeps<T>(s: seq<T>, p: nat, y: T)
    requires p < |s| && y in s && y != s[p]
    ensures y in s[..p] + s[p + 1..]
  {
    var a :| 0 <= a < |s| && s[a] == y;
    assert (s[..p] + s[p + 1..])[if a < p then a else a - 1] == y;
  }

  /** Unlinking a label leaves the others linked. */
  lemma UnlinkOne(cells: seq<Cell>, lists: seq<seq<Label>>, labels: map<string, Label>, ptrs: map<string, Ptr>,
                  l: Label, k: nat, p: nat)
    requires |lists| == |cells| && Linked(cells, lists, labels, ptrs) && Distinct(cells) && k < |cells|
    requires p < |lists[k]| && lists[k][p] == l
    ensures Linked(cells, lists[k := lists[k][..p] + lists[k][p + 1..]], labels, ptrs[l.name := Ptr(null, ptrs[l.name].offset)])
    ensures forall i {:trigger lists[i]} :: 0 <= i < |lists| && i != k ==> l !in lists[i]
    ensures l !in lists[k][..p] + lists[k][p + 1..]
  {
    var lists', ptrs' := lists[k := lists[k][..p] + lists[k][p + 1..]], ptrs[l.name := Ptr(null, ptrs[l.name].offset)];
    assert Known(l, labels) && ptrs[l.name].item == cells[k].item;
    forall i | 0 <= i < |lists|
      ensures l !in lists'[i] && ListOk(cells[i].item, lists'[i], labels, ptrs')
    {
      if i == k {
        ListRemoved(cells[i].item, lists[i], labels, ptrs, p);
      } else {
        assert cells[i].item != cells[k].item;
      }
      OthersNamed(lists'[i], labels, l);
      ListKept(cells[i].item, lists'[i], labels, ptrs, labels, ptrs');
    }
    forall n | n in labels && ptrs'[n].item != null
      ensures exists i: nat :: Lists(lists', i, labels[n]) && cells[i].item == ptrs'[n].item
    {
      var i: nat :| Lists(lists, i, labels[n]) && cells[i].item == ptrs[n].item;
      if i == k {
        RemoveKeeps(lists[k], p, labels[n]);
      }
      assert Lists(lists', i, labels[n]);
    }
  }

  /** Cell `i` holds file position `t`, and `ptr` says so. */
  ghost predicate Holds(cells: seq<Cell>, i: nat, ptr: Ptr, t: nat) {
    i < |cells| && cells[i].item == ptr.item && cells[i].pos + ptr.offset == t && Covers(cells[i], t)
  }

  /** Every label stays at the file position it was created for. */
  ghost predicate Anchored(cells: seq<Cell>, labels: map<string, Label>, ptrs: map<string, Ptr>)
    requires labels.Keys == ptrs.Keys
  {
    forall n {:trigger ptrs[n]} :: n in labels ==> exists i: nat :: Holds(cells, i, ptrs[n], labels[n].target)
  }

  /** The list as values: its cells, the labels of each, where labels point, and the objects in use. */
  datatype Mirror = Mirror(cells: seq<Cell>, lists: seq<seq<Label>>, ptrs: map<string, Ptr>, repr: set<object>)

  /** What disassembly keeps true of the list, the registry and the index of a file. */
  ghost predicate Sound(m: Mirror, labels: map<string, Label>, pmap: map<nat, Item>, file: seq<byte>) {
    && |m.lists| == |m.cells|
    && Linked(m.cells, m.lists, labels, m.ptrs)
    && Anchored(m.cells, labels, m.ptrs)
    && Tiling(m.cells, |file|)
    && Indexed(pmap, m.cells)
    && RawsMatch(m.cells, file)
    && AllRefsKnown(m.cells, labels)
  }

  /** Adding an anchored label keeps a list sound. */
  lemma SoundWithLabel(m: Mirror, labels: map<string, Label>, m': Mirror, labels': map<string, Label>,
                       pmap: map<nat, Item>, file: seq<byte>, l: Label, k: nat)
    requires Sound(m, labels, pmap, file) && |m'.lists| == |m'.cells| && Linked(m'.cells, m'.lists, labels', m'.ptrs)
    requires m'.cells == m.cells && l.name !in labels && labels' == labels[l.name := l]
    requires l.name in m'.ptrs && m'.ptrs == m.ptrs[l.name := m'.ptrs[l.name]] && Holds(m.cells, k, m'.ptrs[l.name], l.target)
    ensures Sound(m', labels', pmap, file)
  {
    AllRefsStayKnown(m.cells, labels, labels');
    forall n | n in labels'
      ensures exists i: nat :: Holds(m'.cells, i, m'.ptrs[n], labels'[n].target)
    {
      if n != l.name {
        assert m'.ptrs[n] == m.ptrs[n];
      }
    }
  }

  /** The greatest key not above `pos`: the entry before the upper bound. */
  function Floor<T>(pmap: map<nat, T>, pos: nat): (r: Option<nat>)
    ensures r.Some? ==> r.value in pmap && r.value <= pos
    ensures r.Some? ==> forall p {:trigger p in pmap} :: p in pmap && p <= pos ==> p <= r.value
    ensures r.None? ==> forall p {:trigger p in pmap} :: p in pmap ==> pos < p
  {
    if pos in pmap then Some(pos) else if pos == 0 then None else Floor(pmap, pos - 1)
  }

  /** A position some item of the list holds: any in the file, and its end once an empty item marks it. */
  ghost predicate Within(cells: seq<Cell>, total: nat, pos: nat) {
    |cells| > 0 && (pos < total || (pos == total && Size(cells[|cells| - 1].body) == 0))
  }

  /** The index finds the item a linear search for the position finds. */
  lemma FloorCovers(pmap: map<nat, Item>, cells: seq<Cell>, total: nat, pos: nat) returns (k: nat)
    requires Indexed(pmap, cells) && Tiling(cells, total) && Within(cells, total, pos)
    ensures k < |cells| && Covers(cells[k], pos)
    ensures Floor(pmap, pos) == Some(cells[k].pos) && cells[k].pos in pmap && pmap[cells[k].pos] == cells[k].item
  {
    k := CoverExists(cells, total, pos, 0);
    assert cells[k].pos in pmap;
    var f := Floor(pmap, pos).value;
    var i :| 0 <= i < |cells| && cells[i].pos == f;
    if i < k {
      TilingOrder(cells, total, i, k);
    } else if k < i {
      TilingOrder(cells, total, k, i);
    }
  }
}
