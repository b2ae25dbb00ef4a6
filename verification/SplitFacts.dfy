/** Cutting a raw item around a new one: before it, the new item, behind it. */
module SplitFacts {
  import opened Bytes
  import opened Items
  import opened Registry
  import opened Slices
  import opened SliceFacts

  /** Where the pieces of a raw item of `size` bytes start and end when `len` bytes at `pos` become a new item. */
  function SplitAt(pos: nat, len: nat, size: nat): seq<nat>
    requires pos + len <= size
  {
    (if pos == 0 then [0] else [0, pos]) + [pos + len] + (if pos + len < size then [size] else [])
  }

  function SplitItems<T>(raw: T, nitem: T, rest: T, pos: nat, len: nat, size: nat): seq<T> {
    (if pos == 0 then [] else [raw]) + [nitem] + (if pos + len < size then [if pos == 0 then raw else rest] else [])
  }

  function SplitBodies(view: View, pos: nat, nb: Body): seq<Body>
    requires view.Valid() && pos + Size(nb) <= view.size
  {
    (if pos == 0 then [] else [Raw(view.Slice(0, pos))]) + [nb] +
    (if pos + Size(nb) < view.size then [Raw(view.Slice(pos + Size(nb), view.size - pos - Size(nb)))] else [])
  }

  /** A new item may be cut out of raw cell `c`: it lies inside and is empty only at the very end. */
  ghost predicate Carves(c: Cell, pos: nat, nb: Body, last: bool) {
    && c.body.Raw? && c.body.view.Valid() && pos + Size(nb) <= c.body.view.size
    && (nb.Raw? ==> nb.view == c.body.view.Slice(pos, nb.view.size))
    && (Size(nb) > 0 || (last && pos == c.body.view.size))
  }

  lemma SplitFits(m: Mirror, k: nat, nitem: Item, rest: Item, pos: nat, nb: Body)
    requires k < |m.cells| && Carves(m.cells[k], pos, nb, k == |m.cells| - 1)
    ensures var view := m.cells[k].body.view;
            var at := SplitAt(pos, Size(nb), view.size);
            Fitting(m, k, SplitItems(m.cells[k].item, nitem, rest, pos, Size(nb), view.size), SplitBodies(view, pos, nb), at) && Ascending(at)
  {
  }

  /** A window of a raw cell holds the bytes of the file at its position. */
  lemma WindowMatches(c: Cell, offs: nat, len: nat, it: Item, file: seq<byte>)
    requires RawMatches(c, file) && offs + len <= c.body.view.size
    ensures RawMatches(Cell(it, c.pos + offs, Raw(c.body.view.Slice(offs, len))), file)
  {
    SliceOfSlice(file, c.pos, End(c), offs, offs + len);
  }

  /** What piece `j` of a split holds and where it starts. */
  lemma SplitPieceAt(c: Cell, pos: nat, nb: Body, last: bool, j: nat) returns (offs: nat)
    requires Carves(c, pos, nb, last) && j < |SplitBodies(c.body.view, pos, nb)|
    ensures var view, len := c.body.view, Size(nb);
            var b, at := SplitBodies(view, pos, nb)[j], SplitAt(pos, len, view.size);
            && j < |at| && at[j] == offs && offs + Size(b) <= view.size
            && (b == nb || b.Raw?) && (b.Raw? ==> b == Raw(view.Slice(offs, Size(b))))
  {
    offs := SplitAt(pos, Size(nb), c.body.view.size)[j];
  }

  lemma SplitPieceSound(c: Cell, labels: map<string, Label>, file: seq<byte>, pos: nat, nb: Body, last: bool, j: nat, it: Item)
    requires Carves(c, pos, nb, last) && RawMatches(c, file) && RefsKnown(nb, labels)
    requires j < |SplitBodies(c.body.view, pos, nb)| && j < |SplitAt(pos, Size(nb), c.body.view.size)|
    ensures var b, at := SplitBodies(c.body.view, pos, nb)[j], SplitAt(pos, Size(nb), c.body.view.size)[j];
            RefsKnown(b, labels) && (b.Raw? ==> RawMatches(Cell(it, c.pos + at, b), file))
  {
    hide SplitBodies, SplitAt, RawMatches, Size;
    var b := SplitBodies(c.body.view, pos, nb)[j];
    var offs := SplitPieceAt(c, pos, nb, last, j);
    WindowMatches(c, offs, Size(b), it, file);
  }

  lemma SplitPiecesSound(c: Cell, labels: map<string, Label>, file: seq<byte>, nitem: Item, rest: Item, pos: nat, nb: Body, last: bool)
    requires Carves(c, pos, nb, last) && RawMatches(c, file) && RefsKnown(nb, labels)
    ensures var view := c.body.view;
            PiecesSound(c.pos, SplitItems(c.item, nitem, rest, pos, Size(nb), view.size), SplitBodies(view, pos, nb),
                        SplitAt(pos, Size(nb), view.size), labels, file)
  {
    var view := c.body.view;
    var items, bodies, at :=
      SplitItems(c.item, nitem, rest, pos, Size(nb), view.size), SplitBodies(view, pos, nb), SplitAt(pos, Size(nb), view.size);
    assert |items| == |bodies| == |at| - 1;
    hide SplitBodies, SplitAt, SplitItems, RawMatches, Carves, RefsKnown, Size;
    forall j | 0 <= j < |bodies|
      ensures RefsKnown(bodies[j], labels) && (bodies[j].Raw? ==> RawMatches(Cell(items[j], c.pos + at[j], bodies[j]), file))
    {
      SplitPieceSound(c, labels, file, pos, nb, last, j, items[j]);
    }
  }

  /** What the cells of a split raw cell are: the new one at its place and raw ones around it. */
  ghost predicate SplitParts(c: Cell, pos: nat, nitem: Item, nb: Body, parts: seq<Cell>) {
    && c.body.Raw? && c.body.view.Valid() && pos <= c.body.view.size && |parts| > 0
    && (pos > 0 ==> parts[0] == Cell(c.item, c.pos, Raw(c.body.view.Slice(0, pos))))
    && Cell(nitem, c.pos + pos, nb) in parts
    && (forall j {:trigger parts[j]} :: 0 <= j < |parts| ==> parts[j].body.Raw? || parts[j] == Cell(nitem, c.pos + pos, nb))
    && RawBytes(parts) == Size(c.body) - (if nb.Raw? then 0 else Size(nb))
    && (pos + Size(nb) < c.body.view.size ==> RawRest(c, pos + Size(nb), parts[|parts| - 1]))
  }

  /** The last piece is raw and reaches from an offset to the end. */
  ghost predicate RawRest(c: Cell, from: nat, last: Cell) {
    last.body.Raw? && last.pos == c.pos + from && End(last) == End(c)
  }

  /** The raw cell before the new one, and the one behind it. */
  ghost function Before(c: Cell, pos: nat): seq<Cell>
    requires c.body.Raw? && c.body.view.Valid() && pos <= c.body.view.size
  {
    if pos == 0 then [] else [Cell(c.item, c.pos, Raw(c.body.view.Slice(0, pos)))]
  }

  ghost function Behind(c: Cell, rest: Item, pos: nat): seq<Cell>
    requires c.body.Raw? && c.body.view.Valid() && pos <= c.body.view.size
  {
    if pos == c.body.view.size then [] else [Cell(rest, c.pos + pos, Raw(c.body.view.Slice(pos, c.body.view.size - pos)))]
  }

  lemma SplitCells(c: Cell, nitem: Item, rest: Item, pos: nat, nb: Body, last: bool)
    requires Carves(c, pos, nb, last)
    ensures var view := c.body.view;
            var items, bodies, at :=
              SplitItems(c.item, nitem, rest, pos, Size(nb), view.size), SplitBodies(view, pos, nb), SplitAt(pos, Size(nb), view.size);
            && |items| == |bodies| == |at| - 1
            && PieceCells(c.pos, items, bodies, at) ==
                 Before(c, pos) + [Cell(nitem, c.pos + pos, nb)] + Behind(c, if pos == 0 then c.item else rest, pos + Size(nb))
  {
  }

  lemma RawBytesAround(before: seq<Cell>, n: Cell, behind: seq<Cell>)
    ensures RawBytes(before + [n] + behind) == RawBytes(before) + RawBytes([n]) + RawBytes(behind)
  {
    RawBytesConcat(before + [n], behind);
    RawBytesConcat(before, [n]);
  }

  lemma PartsOfSplit(c: Cell, nitem: Item, rest: Item, pos: nat, nb: Body, last: bool)
    requires Carves(c, pos, nb, last)
    ensures var view := c.body.view;
            var items, bodies, at :=
              SplitItems(c.item, nitem, rest, pos, Size(nb), view.size), SplitBodies(view, pos, nb), SplitAt(pos, Size(nb), view.size);
            |items| == |bodies| == |at| - 1 && SplitParts(c, pos, nitem, nb, PieceCells(c.pos, items, bodies, at))
  {
    hide SplitItems, SplitBodies, SplitAt, PieceCells, SplitParts, Before, Behind, Size;
    SplitCells(c, nitem, rest, pos, nb, last);
    CarvesView(c, pos, nb, last);
    AroundParts(c, pos, nitem, nb, if pos == 0 then c.item else rest);
  }

  lemma CarvesView(c: Cell, pos: nat, nb: Body, last: bool)
    requires Carves(c, pos, nb, last)
    ensures c.body.Raw? && c.body.view.Valid() && pos + Size(nb) <= c.body.view.size
  {
  }

  lemma AroundParts(c: Cell, pos: nat, nitem: Item, nb: Body, t: Item)
    requires c.body.Raw? && c.body.view.Valid() && pos + Size(nb) <= c.body.view.size
    ensures SplitParts(c, pos, nitem, nb, Before(c, pos) + [Cell(nitem, c.pos + pos, nb)] + Behind(c, t, pos + Size(nb)))
  {
    var before, n, behind := Before(c, pos), Cell(nitem, c.pos + pos, nb), Behind(c, t, pos + Size(nb));
    AroundBytes(c, pos, n, t);
    hide RawBytes;
    var parts := before + [n] + behind;
    assert parts[|before|] == n;
    assert behind != [] ==> parts[|parts| - 1] == behind[0];
  }

  lemma AroundBytes(c: Cell, pos: nat, n: Cell, t: Item)
    requires c.body.Raw? && c.body.view.Valid() && pos + Size(n.body) <= c.body.view.size
    ensures RawBytes(Before(c, pos) + [n] + Behind(c, t, pos + Size(n.body))) == Size(c.body) - (if n.body.Raw? then 0 else Size(n.body))
  {
    RawBytesAround(Before(c, pos), n, Behind(c, t, pos + Size(n.body)));
    OneRaw(n);
    if pos > 0 {
      OneRaw(Before(c, pos)[0]);
    }
    if pos + Size(n.body) < c.body.view.size {
      OneRaw(Behind(c, t, pos + Size(n.body))[0]);
    }
  }

  lemma OneRaw(c: Cell)
    ensures RawBytes([c]) == (if c.body.Raw? then Size(c.body) else 0) && RawBytes([]) == 0
  {
  }

  /** A new item can be cut out of cell `k` of a sound list. */
  ghost predicate Ready(m: Mirror, labels: map<string, Label>, pmap: map<nat, Item>, file: seq<byte>, k: nat, pos: nat, nb: Body) {
    && Sound(m, labels, pmap, file) && Distinct(m.cells)
    && k < |m.cells| && Carves(m.cells[k], pos, nb, k == |m.cells| - 1) && RefsKnown(nb, labels)
  }

  /** What cutting needs to know about the pieces of a split. */
  lemma SplitReady(m: Mirror, labels: map<string, Label>, pmap: map<nat, Item>, file: seq<byte>, k: nat, nitem: Item, rest: Item, pos: nat, nb: Body)
    returns (items: seq<Item>, bodies: seq<Body>, at: seq<nat>)
    requires Ready(m, labels, pmap, file, k, pos, nb)
    ensures var c := m.cells[k]; var size := c.body.view.size;
            && items == SplitItems(c.item, nitem, rest, pos, Size(nb), size)
            && bodies == SplitBodies(c.body.view, pos, nb) && at == SplitAt(pos, Size(nb), size)
    ensures |items| == |bodies| == |at| - 1 > 0 && Ascending(at) && at[0] == 0 && AllHoused(m.ptrs, m.cells[k].item, at)
  {
    var c := m.cells[k];
    items, bodies, at := SplitItems(c.item, nitem, rest, pos, Size(nb), c.body.view.size), SplitBodies(c.body.view, pos, nb),
                         SplitAt(pos, Size(nb), c.body.view.size);
    SplitFits(m, k, nitem, rest, pos, nb);
    PiecesHouse(m, labels, k, items, bodies, at);
  }

  /** After the cut, the list is sound again and holds the new item with raw ones around it. */
  lemma SplitDone(m: Mirror, labels: map<string, Label>, pmap: map<nat, Item>, file: seq<byte>, k: nat, nitem: Item, rest: Item, pos: nat, nb: Body,
                  items: seq<Item>, bodies: seq<Body>, at: seq<nat>, cut: seq<nat>, r: Mirror) returns (parts: seq<Cell>)
    requires Ready(m, labels, pmap, file, k, pos, nb)
    requires items == SplitItems(m.cells[k].item, nitem, rest, pos, Size(nb), m.cells[k].body.view.size)
    requires bodies == SplitBodies(m.cells[k].body.view, pos, nb) && at == SplitAt(pos, Size(nb), m.cells[k].body.view.size)
    requires IsSliced(m, labels, k, items, bodies, at, cut, r)
    ensures |items| == |at| - 1
    ensures Sound(r, labels, Emplaced(pmap - {m.cells[k].pos}, m.cells[k].pos, items, at, |items|), file)
    ensures SplitParts(m.cells[k], pos, nitem, nb, parts) && r.cells == Replaced(m.cells, k, parts)
  {
    var last := k == |m.cells| - 1;
    parts := PieceCells(m.cells[k].pos, items, bodies, at);
    SplitFits(m, k, nitem, rest, pos, nb);
    PartsOfSplit(m.cells[k], nitem, rest, pos, nb, last);
    SplitPiecesSound(m.cells[k], labels, file, nitem, rest, pos, nb, last);
    SlicedSound(m, labels, pmap, file, k, items, bodies, at, cut, r);
  }
}
