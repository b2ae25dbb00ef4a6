/** What a raw item becomes when an item with raw children is cut out of it. */
module StcmPieces {
  import opened Bytes
  import I = Items
  import opened StcmStrings
  import opened Trees
  import opened Relink
  import opened TreeEdits
  import opened TreeHeaps
  import opened TreeSplits
  import opened StcmContexts
  import opened StcmClosure

  /** An item with all it holds, in place of `span` bytes at `pos`; raw items before and behind. */
  ghost function Around(raw: Item, view: I.View, pos: nat, top: Forest, span: nat, rest: Item): Forest
    requires view.Valid() && pos + span <= view.size && top.Cons?
  {
    var mid := Cons(top.item, top.body, top.kids, Leftover(view, pos + span, if pos == 0 then raw else rest));
    if pos == 0 then mid else Cons(raw, Raw(view.Slice(0, pos)), Nil, mid)
  }

  /** `x` with its own bytes at `pos` and the next `rem` bytes as its raw child `c`. */
  ghost function Holding(view: I.View, pos: nat, x: Item, nb: Body, rem: nat, c: Item): Forest
    requires view.Valid() && pos + Own(nb) + rem <= view.size
  {
    Cons(x, nb, Child(view, pos + Own(nb), rem, c), Nil)
  }

  ghost function CutOut(raw: Item, view: I.View, pos: nat, x: Item, nb: Body, rem: nat, c: Item, rest: Item): Forest
    requires view.Valid() && pos + Own(nb) + rem <= view.size
  {
    Around(raw, view, pos, Holding(view, pos, x, nb, rem, c), Own(nb) + rem, rest)
  }

  /** What is left of the raw item from `o` on. */
  ghost function Leftover(view: I.View, o: nat, t: Item): Forest
    requires view.Valid() && o <= view.size
  {
    if o < view.size then Cons(t, Raw(view.Slice(o, view.size - o)), Nil, Nil) else Nil
  }

  ghost function Child(view: I.View, o: nat, rem: nat, c: Item): Forest
    requires view.Valid() && o + rem <= view.size
  {
    if rem == 0 then Nil else Cons(c, Raw(view.Slice(o, rem)), Nil, Nil)
  }

  lemma CutOutPlain(raw: Item, view: I.View, pos: nat, x: Item, nb: Body, c: Item, rest: Item)
    requires view.Valid() && pos + Own(nb) <= view.size
    ensures CutOut(raw, view, pos, x, nb, 0, c, rest) == SplitForest(raw, view, pos, x, nb, rest)
  {
  }

  /** The raw item behind a new one, after the first cut. */
  lemma TailOf(raw: Item, view: I.View, pos: nat, x: Item, nb: Body, rest: Item)
    requires view.Valid() && pos + Own(nb) < view.size && raw != x && x != rest && rest != raw
    ensures var g, end := SplitForest(raw, view, pos, x, nb, rest), pos + Own(nb);
            Behind(g, x) == Cons(if pos == 0 then raw else rest, Raw(view.Slice(end, view.size - end)), Nil, Nil)
  {
    BehindLone(raw, Raw(view.Slice(0, pos)), SplitForest(raw, view, 0, x, nb, rest), x);
  }

  lemma BehindLone(n: Item, b: Body, f: Forest, x: Item)
    requires n != x
    ensures Behind(Cons(n, b, Nil, f), x) == Behind(f, x)
  {
  }

  /** Cutting the tail and taking its first piece in. */
  lemma {:induction false} TailMoved(raw: Item, view: I.View, pos: nat, x: Item, nb: Body, rem: nat, c: Item, rest: Item, rest': Item)
    requires view.Valid() && 0 < rem && pos + Own(nb) + rem <= view.size && raw != x && x != rest && rest != raw
    requires c != x && c != raw && c != rest && rest' != c
    ensures var g, end := SplitForest(raw, view, pos, x, nb, rest), pos + Own(nb);
            var t, tv := if pos == 0 then raw else rest, view.Slice(end, view.size - end);
            var h := Swap(g, t, MovePieces(t, tv, rem, c, rest'));
            && h == CutTail(raw, view, pos, x, nb, rem, c, rest)
            && Adopt(h, x) == CutOut(raw, view, pos, x, nb, rem, c, rest)
            && Behind(h, x).Cons? && x in Nodes(h)
  {
    hide Own;
    var end := pos + Own(nb);
    var t, tv := if pos == 0 then raw else rest, view.Slice(end, view.size - end);
    var tail := Cons(t, Raw(tv), Nil, Nil);
    var m := MovePieces(t, tv, rem, c, rest');
    assert Swap(tail, t, m) == m by {
      AppendNil(m);
    }
    var mid := Cons(x, nb, Nil, tail);
    assert Swap(mid, t, m) == Cons(x, nb, Nil, m);
    assert tv.Slice(0, rem) == view.Slice(end, rem);
    RawSize(Raw(tv.Slice(0, rem)));
    assert end + rem < view.size ==> tv.Slice(rem, tv.size - rem) == view.Slice(end + rem, view.size - end - rem);
    assert m.Cons? && First(m) == Cons(c, Raw(view.Slice(end, rem)), Nil, Nil);
    AdoptLone(x, nb, m);
    if pos != 0 {
      SwapLone(raw, Raw(view.Slice(0, pos)), mid, t, m, x);
    }
  }

  /** The pieces before the first one behind `x` is taken in. */
  ghost function CutTail(raw: Item, view: I.View, pos: nat, x: Item, nb: Body, rem: nat, c: Item, rest: Item): Forest
    requires view.Valid() && pos + Own(nb) + rem <= view.size
  {
    var mid := TailMiddle(view, pos, x, nb, rem, c, if pos == 0 then raw else rest);
    if pos == 0 then mid else Cons(raw, Raw(view.Slice(0, pos)), Nil, mid)
  }

  ghost function TailMiddle(view: I.View, pos: nat, x: Item, nb: Body, rem: nat, c: Item, t: Item): Forest
    requires view.Valid() && pos + Own(nb) + rem <= view.size
  {
    Cons(x, nb, Nil, Cons(c, Raw(view.Slice(pos + Own(nb), rem)), Nil, Leftover(view, pos + Own(nb) + rem, t)))
  }

  lemma AdoptLone(x: Item, b: Body, m: Forest)
    requires m.Cons?
    ensures Adopt(Cons(x, b, Nil, m), x) == Cons(x, b, First(m), m.rest)
    ensures Behind(Cons(x, b, Nil, m), x) == m && x in Nodes(Cons(x, b, Nil, m))
  {
  }

  lemma SwapLone(n: Item, b: Body, f: Forest, t: Item, m: Forest, x: Item)
    requires n != t && n != x
    ensures Swap(Cons(n, b, Nil, f), t, m) == Cons(n, b, Nil, Swap(f, t, m))
    ensures forall g :: Adopt(Cons(n, b, Nil, g), x) == Cons(n, b, Nil, Adopt(g, x))
    ensures forall g :: Behind(Cons(n, b, Nil, g), x) == Behind(g, x)
    ensures forall g :: x in Nodes(g) ==> x in Nodes(Cons(n, b, Nil, g))
  {
  }

  lemma LoneMeans(n: Item, b: Body, kids: Forest, rest: Forest, x: Item)
    requires n !in Nodes(kids) && n !in Nodes(rest) && Nodes(kids) !! Nodes(rest) && Distinct(kids) && Distinct(rest)
    ensures var g := Cons(n, b, kids, rest);
            && Distinct(g) && Nodes(g) == {n} + Nodes(kids) + Nodes(rest) && Size(g) == Own(b) + Size(kids) + Size(rest)
            && RawBytes(g) == (if b.Raw? then Own(b) else 0) + RawBytes(kids) + RawBytes(rest)
            && BodyOf(g, n) == b && (x in Nodes(kids) ==> BodyOf(g, x) == BodyOf(kids, x))
            && (x in Nodes(rest) ==> BodyOf(g, x) == BodyOf(rest, x))
  {
  }

  lemma WindowMeans(view: I.View, o: nat, rem: nat, c: Item, n: Item)
    requires view.Valid() && o + rem <= view.size
    ensures var g := Child(view, o, rem, c);
            && Distinct(g) && Nodes(g) == (if rem == 0 then {} else {c}) && Size(g) == rem && RawBytes(g) == rem
            && (n in Nodes(g) ==> BodyOf(g, n).Raw? && Own(BodyOf(g, n)) > 0)
    ensures rem == view.size - o ==> Leftover(view, o, c) == Child(view, o, rem, c)
  {
  }

  /** An item with all it holds that is as large as the bytes it stands for. */
  ghost predicate Fills(top: Forest, span: nat) {
    top.Cons? && top.rest.Nil? && Distinct(top) && Size(top) == span
  }

  lemma TopMeans(top: Forest, span: nat, rest: Forest, n: Item)
    requires Fills(top, span) && Distinct(rest) && Nodes(top) !! Nodes(rest)
    ensures var g := Cons(top.item, top.body, top.kids, rest);
            && Distinct(g) && Nodes(g) == Nodes(top) + Nodes(rest) && Size(g) == span + Size(rest) && RawBytes(g) == RawBytes(top) + RawBytes(rest)
            && (n in Nodes(top) ==> BodyOf(g, n) == BodyOf(top, n)) && (n in Nodes(rest) ==> BodyOf(g, n) == BodyOf(rest, n))
  {
    hide Own, Size, RawBytes;
    SizeParts(top);
    SizeParts(Cons(top.item, top.body, top.kids, rest));
    BodyParts(top, n);
    BodyParts(Cons(top.item, top.body, top.kids, rest), n);
  }

  lemma SizeParts(f: Forest)
    requires f.Cons?
    ensures Size(f) == Own(f.body) + Size(f.kids) + Size(f.rest) && Size(Nil) == 0 && RawBytes(Nil) == 0
    ensures RawBytes(f) == (if f.body.Raw? then Own(f.body) else 0) + RawBytes(f.kids) + RawBytes(f.rest)
  {
  }

  lemma BodyParts(f: Forest, n: Item)
    requires f.Cons?
    ensures n == f.item ==> BodyOf(f, n) == f.body
    ensures n != f.item && n in Nodes(f.kids) ==> BodyOf(f, n) == BodyOf(f.kids, n)
    ensures n != f.item && n !in Nodes(f.kids) && n in Nodes(f.rest) ==> BodyOf(f, n) == BodyOf(f.rest, n)
  {
  }

  /** What the pieces are. */
  lemma AroundMeans(raw: Item, view: I.View, pos: nat, top: Forest, span: nat, rest: Item, n: Item)
    requires view.Valid() && pos + span <= view.size && Fills(top, span)
    requires raw !in Nodes(top) && rest !in Nodes(top) && raw != rest
    ensures var g := Around(raw, view, pos, top, span, rest);
            && Distinct(g) && Nodes(top) <= Nodes(g) <= Nodes(top) + {raw, rest} && g.Cons? && (pos == 0 ==> g.item == top.item)
            && Size(g) == view.size && RawBytes(g) == view.size - span + RawBytes(top)
            && (n in Nodes(top) ==> BodyOf(g, n) == BodyOf(top, n))
            && (n in Nodes(g) && n !in Nodes(top) ==> BodyOf(g, n).Raw? && Own(BodyOf(g, n)) > 0)
  {
    hide Nodes, Distinct, Size, RawBytes, BodyOf, Leftover, Own;
    NilMeans({});
    var t := if pos == 0 then raw else rest;
    WindowMeans(view, pos + span, view.size - pos - span, t, n);
    var post := Leftover(view, pos + span, t);
    TopMeans(top, span, post, n);
    if pos != 0 {
      var mid := Cons(top.item, top.body, top.kids, post);
      LoneMeans(raw, Raw(view.Slice(0, pos)), Nil, mid, n);
      RawSize(Raw(view.Slice(0, pos)));
    }
  }

  /** What an item with its raw child is. */
  lemma HoldingMeans(view: I.View, pos: nat, x: Item, nb: Body, rem: nat, c: Item, n: Item)
    requires view.Valid() && pos + Own(nb) + rem <= view.size && x != c && !nb.Raw?
    ensures var top := Holding(view, pos, x, nb, rem, c);
            && Fills(top, Own(nb) + rem) && Nodes(top) == {x} + (if rem == 0 then {} else {c}) && RawBytes(top) == rem && BodyOf(top, x) == nb
            && (n in Nodes(top) && n != x ==> BodyOf(top, n).Raw? && Own(BodyOf(top, n)) > 0)
  {
    hide Child, Own;
    NilMeans({});
    WindowMeans(view, pos + Own(nb), rem, c, n);
    LoneMeans(x, nb, Child(view, pos + Own(nb), rem, c), Nil, n);
  }

  lemma LoneFaithful(n: Item, b: Body, kids: Forest, rest: Forest, at: nat, pos: Positions, file: seq<byte>)
    requires OwnFaithful(b, Own(b) + Size(kids), at, pos, file)
    requires Faithful(kids, at + Own(b), pos, file) && Faithful(rest, at + Own(b) + Size(kids), pos, file)
    ensures Faithful(Cons(n, b, kids, rest), at, pos, file)
  {
    hide OwnFaithful, Own;
  }

  lemma RawDump(view: I.View, pos: Positions)
    requires view.Valid()
    ensures OwnBytes(Raw(view), Own(Raw(view)), pos) == view.Bytes() && Own(Raw(view)) == view.size
    ensures forall at: nat, file: seq<byte> :: OwnFaithful(Raw(view), view.size, at, pos, file) <==> Holds(file, at, view.Bytes())
  {
  }

  lemma NilFaithful(at: nat, pos: Positions, file: seq<byte>)
    ensures Faithful(Nil, at, pos, file) && Size(Nil) == 0
  {
  }

  /** A window of a raw item dumps what the file holds there. */
  lemma WindowFaithful(n: Item, view: I.View, o: nat, len: nat, rest: Forest, at: nat, pos: Positions, file: seq<byte>)
    requires view.Valid() && o + len <= view.size && Holds(file, at, view.Bytes()) && Faithful(rest, at + o + len, pos, file)
    ensures Faithful(Cons(n, Raw(view.Slice(o, len)), Nil, rest), at + o, pos, file)
  {
    hide OwnBytes, Own, OwnFaithful, Faithful, Size;
    SliceOfSlice(file, at, at + view.size, o, o + len);
    NilFaithful(at + o + len, pos, file);
    RawDump(view.Slice(o, len), pos);
    LoneFaithful(n, Raw(view.Slice(o, len)), Nil, rest, at + o, pos, file);
  }

  lemma RawLone(n: Item, view: I.View)
    ensures Size(Cons(n, Raw(view), Nil, Nil)) == view.size
  {
  }

  lemma ChildFaithful(view: I.View, o: nat, rem: nat, c: Item, at: nat, pos: Positions, file: seq<byte>)
    requires view.Valid() && o + rem <= view.size && Holds(file, at, view.Bytes())
    ensures Faithful(Child(view, o, rem, c), at + o, pos, file) && Size(Child(view, o, rem, c)) == rem
    ensures rem == view.size - o ==> Leftover(view, o, c) == Child(view, o, rem, c)
  {
    hide Faithful, Holds, OwnBytes, Size;
    NilFaithful(at + o + rem, pos, file);
    if rem > 0 {
      WindowFaithful(c, view, o, rem, Nil, at, pos, file);
      RawLone(c, view.Slice(o, rem));
    }
  }

  lemma TopFaithful(top: Forest, rest: Forest, at: nat, pos: Positions, file: seq<byte>)
    requires top.Cons? && Faithful(top, at, pos, file) && Faithful(rest, at + Size(top), pos, file) && top.rest.Nil?
    ensures Faithful(Cons(top.item, top.body, top.kids, rest), at, pos, file)
  {
    hide OwnFaithful, Own;
  }

  /** The pieces stand for the bytes of the raw item, if what was put in stands for those it was made from. */
  lemma AroundFaithful(raw: Item, view: I.View, o: nat, top: Forest, rest: Item, at: nat, pos: Positions, file: seq<byte>)
    requires top.Cons? && top.rest.Nil? && view.Valid() && o + Size(top) <= view.size && Holds(file, at, view.Bytes())
    requires Faithful(top, at + o, pos, file)
    ensures Faithful(Around(raw, view, o, top, Size(top), rest), at, pos, file)
  {
    hide Faithful, Holds, OwnBytes, Own, Size, Child, Leftover;
    var end := o + Size(top);
    var t := if o == 0 then raw else rest;
    ChildFaithful(view, end, view.size - end, t, at, pos, file);
    var post := Leftover(view, end, t);
    TopFaithful(top, post, at + o, pos, file);
    if o != 0 {
      WindowFaithful(raw, view, 0, o, Cons(top.item, top.body, top.kids, post), at, pos, file);
    }
  }

  /** An item with its raw child stands for the bytes it was read from. */
  lemma HoldingFaithful(view: I.View, o: nat, x: Item, nb: Body, rem: nat, c: Item, at: nat, pos: Positions, file: seq<byte>)
    requires view.Valid() && o + Own(nb) + rem <= view.size && Holds(file, at, view.Bytes())
    requires OwnFaithful(nb, Own(nb) + rem, at + o, pos, file)
    ensures Faithful(Holding(view, o, x, nb, rem, c), at + o, pos, file)
  {
    hide Faithful, Holds, OwnFaithful, Own, Size, Child;
    ChildFaithful(view, o + Own(nb), rem, c, at, pos, file);
    NilFaithful(at + o + Own(nb) + rem, pos, file);
    LoneFaithful(x, nb, Child(view, o + Own(nb), rem, c), Nil, at + o, pos, file);
  }

  /** The three edits of a disassembly step are one. */
  lemma Composed(f: Forest, raw: Item, view: I.View, pos: nat, x: Item, nb: Body, rem: nat, c: Item, rest: Item, rest': Item)
    requires Distinct(f) && Leaf(f, raw) && view.Valid() && 0 < rem && pos + Own(nb) + rem <= view.size
    requires x !in Nodes(f) && c !in Nodes(f) && rest !in Nodes(f) && c != x && rest != x && rest != c && rest' != c
    ensures var g, end := SplitForest(raw, view, pos, x, nb, rest), pos + Own(nb);
            var t, tv := if pos == 0 then raw else rest, view.Slice(end, view.size - end);
            Adopt(Swap(Swap(f, raw, g), t, MovePieces(t, tv, rem, c, rest')), x) == Swap(f, raw, CutOut(raw, view, pos, x, nb, rem, c, rest))
  {
    hide SplitForest, MovePieces, CutOut, Leaf, Swap, Adopt, Nodes, Distinct, Behind, Own;
    LeafIn(f, raw);
    TailMoved(raw, view, pos, x, nb, rem, c, rest, rest');
    var g, end := SplitForest(raw, view, pos, x, nb, rest), pos + Own(nb);
    var t, tv := if pos == 0 then raw else rest, view.Slice(end, view.size - end);
    SwapSwap(f, raw, g, t, MovePieces(t, tv, rem, c, rest'));
    CutTailDistinct(raw, view, pos, x, nb, rem, c, rest);
    AdoptSwap(f, raw, CutTail(raw, view, pos, x, nb, rem, c, rest), x);
  }

  lemma TailMiddleDistinct(view: I.View, pos: nat, x: Item, nb: Body, rem: nat, c: Item, t: Item)
    requires view.Valid() && 0 < rem && pos + Own(nb) + rem <= view.size && x != c && x != t && c != t
    ensures var g := TailMiddle(view, pos, x, nb, rem, c, t); Distinct(g) && Nodes(g) <= {x, c, t}
  {
    hide Distinct, Nodes, Size, RawBytes, BodyOf, Own, Leftover;
    var mid := pos + Own(nb);
    var end := mid + rem;
    WindowMeans(view, end, view.size - end, t, x);
    NilMeans({});
    var post := Leftover(view, end, t);
    var cut := Cons(c, Raw(view.Slice(mid, rem)), Nil, post);
    LoneMeans(c, cut.body, Nil, post, x);
    LoneMeans(x, nb, Nil, cut, x);
  }

  lemma CutTailDistinct(raw: Item, view: I.View, pos: nat, x: Item, nb: Body, rem: nat, c: Item, rest: Item)
    requires view.Valid() && 0 < rem && pos + Own(nb) + rem <= view.size
    requires x != raw && c != raw && rest != raw && c != x && rest != x && rest != c
    ensures Distinct(CutTail(raw, view, pos, x, nb, rem, c, rest))
  {
    hide Distinct, Nodes, Size, RawBytes, BodyOf, Own, TailMiddle;
    var t := if pos == 0 then raw else rest;
    TailMiddleDistinct(view, pos, x, nb, rem, c, t);
    NilMeans({});
    if pos != 0 {
      LoneMeans(raw, Raw(view.Slice(0, pos)), Nil, TailMiddle(view, pos, x, nb, rem, c, t), x);
    }
  }

  /** An item of a faithful tree dumps what the file holds where it starts. */
  lemma {:induction false} FaithfulAt(f: Forest, n: Item, at: nat, pos: Positions, file: seq<byte>)
    requires Faithful(f, at, pos, file) && n in Nodes(f)
    ensures var s := Sub(f, n); OwnFaithful(s.body, Own(s.body) + Size(s.kids), at + Start(f, n), pos, file)
  {
    hide OwnFaithful, Own;
    if f.item == n {
    } else if n in Nodes(f.kids) {
      FaithfulAt(f.kids, n, at + Own(f.body), pos, file);
    } else {
      FaithfulAt(f.rest, n, at + Own(f.body) + Size(f.kids), pos, file);
    }
  }

  lemma MoveNodes(t: Item, view: I.View, size: nat, c: Item, rest: Item)
    requires view.Valid() && size <= view.size
    ensures Nodes(MovePieces(t, view, size, c, rest)) <= {t, c}
  {
    hide Own;
    RawSize(Raw(view.Slice(0, size)));
  }

  lemma SplitPieces(raw: Item, view: I.View, pos: nat, x: Item, nb: Body, rest: Item, t: Item)
    requires view.Valid() && pos + Own(nb) <= view.size && x != raw && rest != raw && rest != x
    requires t == if pos == 0 then raw else rest
    ensures var g := SplitForest(raw, view, pos, x, nb, rest);
            && Distinct(g) && Nodes(g) <= {raw, x, rest} && x in Nodes(g) && BodyOf(g, x) == nb
            && (pos + Own(nb) < view.size ==> t in Nodes(g) && BodyOf(g, t) == Raw(view.Slice(pos + Own(nb), view.size - pos - Own(nb))))
  {
    hide Nodes, Distinct, Size, RawBytes, BodyOf, Own, Leftover, Child;
    var end := pos + Own(nb);
    var tail := if end < view.size then Cons(t, Raw(view.Slice(end, view.size - end)), Nil, Nil) else Nil;
    NilMeans({});
    if end < view.size {
      LoneMeans(t, tail.body, Nil, Nil, t);
    }
    LoneMeans(x, nb, Nil, tail, t);
    if pos != 0 {
      LoneMeans(raw, Raw(view.Slice(0, pos)), Nil, Cons(x, nb, Nil, tail), x);
      LoneMeans(raw, Raw(view.Slice(0, pos)), Nil, Cons(x, nb, Nil, tail), t);
    }
  }

  /** An item with all it holds may take the place of bytes of a raw item of the tree. */
  ghost predicate Insertable(f: Forest, raw: Item, view: I.View, o: nat, top: Forest, span: nat, rest: Item) {
    && Distinct(f) && Leaf(f, raw) && BodyOf(f, raw) == Raw(view) && view.Valid() && o + span <= view.size
    && Fills(top, span) && RawBytes(top) <= span && Nodes(top) !! Nodes(f) && rest !in Nodes(f) && rest !in Nodes(top)
  }

  lemma InsertedPieces(f: Forest, raw: Item, view: I.View, o: nat, top: Forest, span: nat, rest: Item)
    requires Insertable(f, raw, view, o, top, span, rest)
    ensures var g := Around(raw, view, o, top, span, rest);
            && Distinct(g) && Nodes(top) <= Nodes(g) && g.Cons? && (o == 0 ==> g.item == top.item)
            && (forall m :: m in Nodes(g) && m in Nodes(f) ==> m == raw)
            && Size(g) == view.size == Own(BodyOf(f, raw)) && RawBytes(g) == view.size - span + RawBytes(top) && raw in Nodes(f)
            && (forall n :: n in Nodes(top) ==> BodyOf(g, n) == BodyOf(top, n))
            && (forall n :: n in Nodes(g) && n !in Nodes(top) ==> BodyOf(g, n).Raw? && Own(BodyOf(g, n)) > 0)
  {
    hide Around, Distinct, Nodes, Size, RawBytes, Leaf, BodyOf;
    var g := Around(raw, view, o, top, span, rest);
    LeafIn(f, raw);
    RawSize(Raw(view));
    AroundMeans(raw, view, o, top, span, rest, raw);
    forall n | n in Nodes(g)
      ensures n in Nodes(top) ==> BodyOf(g, n) == BodyOf(top, n)
      ensures n !in Nodes(top) ==> BodyOf(g, n).Raw? && Own(BodyOf(g, n)) > 0
    {
      AroundMeans(raw, view, o, top, span, rest, n);
    }
  }

  /** What an item of the new tree is: one of those put in, one that was there, or raw. */
  ghost predicate Known(f: Forest, top: Forest, f': Forest, n: Item) {
    if n in Nodes(top) then BodyOf(f', n) == BodyOf(top, n)
    else (n in Nodes(f) && BodyOf(f', n) == BodyOf(f, n)) || (BodyOf(f', n).Raw? && Own(BodyOf(f', n)) > 0)
  }

  /** The tree goes on as it was, but for what was put in and raw items. */
  lemma InsertedOnward(f: Forest, a: map<string, Ptr>, raw: Item, view: I.View, o: nat, top: Forest, span: nat, rest: Item, b: map<string, Ptr>)
    requires Insertable(f, raw, view, o, top, span, rest)
    requires forall l {:trigger l in a} :: l in a ==> l in b && (a[l].item != raw ==> b[l] == a[l])
    ensures var f' := Swap(f, raw, Around(raw, view, o, top, span, rest));
            && Onward(f, a, f', b) && RawBytes(f') == RawBytes(f) - span + RawBytes(top) && Nodes(top) <= Nodes(f')
            && (forall n {:trigger n in Nodes(f')} :: n in Nodes(f') ==> Known(f, top, f', n))
            && (o == 0 ==> forall n {:trigger Behind(f', n)} :: n in Nodes(f) && !BodyOf(f, n).Raw? && Behind(f, n).Cons? && Behind(f, n).item == raw ==>
                 Behind(f', n).Cons? && Behind(f', n).item == top.item)
  {
    hide Around, Distinct, Nodes, Size, RawBytes, Leaf, Swap, Behind, Own, BodyOf, Onward;
    InsertedPieces(f, raw, view, o, top, span, rest);
    var g := Around(raw, view, o, top, span, rest);
    SwapOnward(f, a, raw, g, b);
    SwapRawOf(f, raw, g);
    SwapDistinct(f, raw, g);
    var f' := Swap(f, raw, g);
    forall n | n in Nodes(f')
      ensures Known(f, top, f', n)
    {
      BodySwap(f, raw, g, n);
    }
    forall n | o == 0 && n in Nodes(f) && !BodyOf(f, n).Raw? && Behind(f, n).Cons? && Behind(f, n).item == raw
      ensures Behind(f', n).Cons? && Behind(f', n).item == top.item
    {
      BehindSwap(f, n, raw, g);
    }
  }

  lemma {:induction false} StartAppend(f: Forest, g: Forest, n: Item)
    ensures n in Nodes(f) ==> Start(Append(f, g), n) == Start(f, n)
    ensures n !in Nodes(f) && n in Nodes(g) ==> Start(Append(f, g), n) == Size(f) + Start(g, n)
  {
    hide Own;
    if f.Cons? {
      StartAppend(f.rest, g, n);
    }
  }

  lemma {:induction false} SubBehind(f: Forest, g: Forest, n: Item)
    ensures n !in Nodes(f) ==> Sub(Append(f, g), n) == Sub(g, n)
  {
    if f.Cons? {
      AppendMeans(f.rest, g);
      SubBehind(f.rest, g, n);
    }
  }

  /** Pieces that fill the place of an item: where they are, and where the others are. */
  lemma {:induction false} StartSwap(f: Forest, r: Item, g: Forest, n: Item)
    requires Distinct(f) && Distinct(g) && Leaf(f, r) && Size(g) == Own(Sub(f, r).body) && forall m :: m in Nodes(g) && m in Nodes(f) ==> m == r
    ensures n in Nodes(g) ==> Start(Swap(f, r, g), n) == Start(f, r) + Start(g, n)
    ensures n in Nodes(f) && n != r && n !in Nodes(g) ==> Start(Swap(f, r, g), n) == Start(f, n)
  {
    hide Leaf, Swap, Own;
    LeafInside(f, r);
    SwapStep(f, r, g);
    SwapDistinct(f, r, g);
    if f.item == r {
      StartAppend(g, f.rest, n);
    } else if r in Nodes(f.kids) {
      SwapDistinct(f.kids, r, g);
      SwapSize(f.kids, r, g);
      StartSwap(f.kids, r, g, n);
    } else {
      SwapDistinct(f.rest, r, g);
      StartSwap(f.rest, r, g, n);
    }
  }

  /** The others are as long as they were. */
  lemma {:induction false} SizesSwap(f: Forest, r: Item, g: Forest, n: Item)
    requires Distinct(f) && Distinct(g) && Leaf(f, r) && Size(g) == Own(Sub(f, r).body) && forall m :: m in Nodes(g) && m in Nodes(f) ==> m == r
    ensures n in Nodes(f) && n != r && n !in Nodes(g) ==> Size(Sub(Swap(f, r, g), n)) == Size(Sub(f, n))
  {
    hide Leaf, Swap, Own;
    LeafInside(f, r);
    SwapStep(f, r, g);
    SwapDistinct(f, r, g);
    if f.item == r {
      SubBehind(g, f.rest, n);
    } else if r in Nodes(f.kids) {
      SwapDistinct(f.kids, r, g);
      SwapSize(f.kids, r, g);
      SizesSwap(f.kids, r, g, n);
    } else {
      SwapDistinct(f.rest, r, g);
      SizesSwap(f.rest, r, g, n);
    }
  }

  lemma AroundStart(raw: Item, view: I.View, o: nat, top: Forest, span: nat, rest: Item)
    requires view.Valid() && o + span <= view.size && top.Cons? && top.item != raw
    ensures Start(Around(raw, view, o, top, span, rest), top.item) == o
  {
    RawSize(Raw(view.Slice(0, o)));
  }

  /** What was put in is where it was read, and the others are where they were. */
  lemma InsertedStart(f: Forest, raw: Item, view: I.View, o: nat, top: Forest, span: nat, rest: Item)
    requires Insertable(f, raw, view, o, top, span, rest)
    ensures var f' := Swap(f, raw, Around(raw, view, o, top, span, rest));
            && Start(f', top.item) == Start(f, raw) + o
            && Size(Sub(f', top.item)) == span
            && forall n {:trigger Start(f', n)} :: n in Nodes(f) && !BodyOf(f, n).Raw? ==> Start(f', n) == Start(f, n) && Size(Sub(f', n)) == Size(Sub(f, n))
  {
    hide Around, Distinct, Size, RawBytes, Leaf, Swap, Own, Start;
    InsertedPieces(f, raw, view, o, top, span, rest);
    var g := Around(raw, view, o, top, span, rest);
    LeafIn(f, raw);
    AroundStart(raw, view, o, top, span, rest);
    StartSwap(f, raw, g, top.item);
    SubAround(raw, view, o, top, span, rest);
    SubSwap(f, raw, g, top.item);
    forall n | n in Nodes(f) && !BodyOf(f, n).Raw?
      ensures Start(Swap(f, raw, g), n) == Start(f, n) && Size(Sub(Swap(f, raw, g), n)) == Size(Sub(f, n))
    {
      StartSwap(f, raw, g, n);
      SizesSwap(f, raw, g, n);
    }
  }

  lemma SwapRawOf(f: Forest, r: Item, g: Forest)
    requires Distinct(f) && Leaf(f, r) && BodyOf(f, r).Raw?
    ensures RawBytes(Swap(f, r, g)) == RawBytes(f) - Own(BodyOf(f, r)) + RawBytes(g)
  {
    SwapRaw(f, r, g);
  }

  lemma RawHolds(f: Forest, raw: Item, view: I.View, pos: Positions, file: seq<byte>)
    requires Leaf(f, raw) && BodyOf(f, raw) == Raw(view) && view.Valid() && Faithful(f, 0, pos, file)
    ensures Holds(file, Start(f, raw), view.Bytes())
  {
    hide OwnBytes, Own, OwnFaithful, Holds, Faithful, Size;
    FaithfulAt(f, raw, 0, pos, file);
    LeafKids(f, raw);
    RawDump(view, pos);
  }

  /** What stands for the bytes it was made from keeps the tree faithful. */
  lemma InsertedFaithful(f: Forest, raw: Item, view: I.View, o: nat, top: Forest, span: nat, rest: Item, pos: Positions, file: seq<byte>)
    requires Insertable(f, raw, view, o, top, span, rest) && Faithful(f, 0, pos, file)
    requires Faithful(top, Start(f, raw) + o, pos, file)
    ensures Faithful(Swap(f, raw, Around(raw, view, o, top, span, rest)), 0, pos, file)
  {
    hide Around, Distinct, Nodes, Size, RawBytes, Leaf, Swap, Behind, Faithful, Start, OwnBytes, Own, Holds, BodyOf;
    InsertedPieces(f, raw, view, o, top, span, rest);
    RawHolds(f, raw, view, pos, file);
    LeafKids(f, raw);
    AroundFaithful(raw, view, o, top, rest, Start(f, raw), pos, file);
    SwapFaithful(f, 0, raw, Around(raw, view, o, top, span, rest), pos, file);
  }

  /** Replacing what was put in is putting in the other. */
  lemma {:induction false} AroundRetyped(raw: Item, view: I.View, o: nat, top: Forest, span: nat, rest: Item, s: Item, b: Body)
    requires view.Valid() && o + span <= view.size && top.Cons? && top.rest.Nil? && top.item != raw
    ensures Swap(Around(raw, view, o, top, span, rest), top.item, Cons(s, b, Nil, Nil)) == Around(raw, view, o, Cons(s, b, Nil, Nil), span, rest)
  {
    hide Leftover, Own;
    var x := top.item;
    var post := Leftover(view, o + span, if o == 0 then raw else rest);
    var mid := Cons(x, top.body, top.kids, post);
    assert Append(Cons(s, b, Nil, Nil), post) == Cons(s, b, Nil, post) by {
      assert Append(Nil, post) == post;
    }
    assert Swap(mid, x, Cons(s, b, Nil, Nil)) == Cons(s, b, Nil, post);
    if o != 0 {
      SwapLone(raw, Raw(view.Slice(0, o)), mid, x, Cons(s, b, Nil, Nil), x);
    }
  }

  /** Replacing the raw child of what was put in. */
  lemma {:induction false} AroundChild(raw: Item, view: I.View, o: nat, x: Item, nb: Body, c: Item, cb: Body, span: nat, rest: Item, h: Forest)
    requires view.Valid() && o + span <= view.size && x != raw && c != x && c != raw && c != rest
    ensures Swap(Around(raw, view, o, Cons(x, nb, Cons(c, cb, Nil, Nil), Nil), span, rest), c, h) ==
              Around(raw, view, o, Cons(x, nb, h, Nil), span, rest)
  {
    hide Own;
    var post := Leftover(view, o + span, if o == 0 then raw else rest);
    assert Swap(post, c, h) == post by {
      assert Swap(Nil, c, h) == Nil;
    }
    assert Swap(Cons(c, cb, Nil, Nil), c, h) == h by {
      AppendNil(h);
    }
    var mid := Cons(x, nb, Cons(c, cb, Nil, Nil), post);
    assert Swap(mid, c, h) == Cons(x, nb, h, post);
    if o != 0 {
      SwapLone(raw, Raw(view.Slice(0, o)), mid, c, h, x);
    }
  }

  /** A data item whose payload begins with a table. */
  ghost function Tabled(view: I.View, x: Item, nb: Body, t: Item, bytes: seq<byte>, c: Item): Forest
    requires view.Valid() && |bytes| <= view.size
  {
    Cons(x, nb, Cons(t, Table(bytes), Nil, Leftover(view, |bytes|, c)), Nil)
  }

  lemma TabledSplit(view: I.View, t: Item, bytes: seq<byte>, c: Item, rest: Item)
    requires view.Valid() && |bytes| <= view.size
    ensures SplitForest(c, view, 0, t, Table(bytes), rest) == Cons(t, Table(bytes), Nil, Leftover(view, |bytes|, c))
    ensures Nodes(SplitForest(c, view, 0, t, Table(bytes), rest)) <= {c, t} && Own(Table(bytes)) == |bytes|
  {
  }

  lemma TabledMeans(view: I.View, x: Item, nb: Body, t: Item, bytes: seq<byte>, c: Item, n: Item)
    requires view.Valid() && |bytes| <= view.size && x != t && x != c && t != c && nb.Data?
    ensures var top := Tabled(view, x, nb, t, bytes, c);
            && Fills(top, Own(nb) + view.size) && {x, t} <= Nodes(top) <= {x, t, c} && RawBytes(top) == view.size - |bytes| && BodyOf(top, x) == nb
            && (n in Nodes(top) && n != x && n != t ==> BodyOf(top, n).Raw? && Own(BodyOf(top, n)) > 0)
            && BodyOf(top, t) == Table(bytes)
  {
    hide Leftover, Child;
    NilMeans({});
    WindowMeans(view, |bytes|, view.size - |bytes|, c, n);
    var tail := Leftover(view, |bytes|, c);
    LoneMeans(t, Table(bytes), Nil, tail, n);
    var kids := Cons(t, Table(bytes), Nil, tail);
    LoneMeans(x, nb, kids, Nil, n);
    LoneMeans(x, nb, kids, Nil, t);
  }

  /** The item and the bytes behind the table stand for what they were read from. */
  lemma TabledFaithful(view: I.View, x: Item, nb: Body, t: Item, bytes: seq<byte>, c: Item, at: nat, pos: Positions, file: seq<byte>)
    requires view.Valid() && |bytes| <= view.size && Holds(file, at + Own(nb), view.Bytes()) && OwnFaithful(nb, Own(nb) + view.size, at, pos, file)
    ensures Faithful(Tabled(view, x, nb, t, bytes, c), at, pos, file)
  {
    hide Faithful, Holds, OwnBytes, Size, Child, StringThere, Own;
    var k, tail := at + Own(nb), Leftover(view, |bytes|, c);
    NilFaithful(k + |bytes|, pos, file);
    NilFaithful(k + view.size, pos, file);
    ChildFaithful(view, |bytes|, view.size - |bytes|, c, k, pos, file);
    TableOwn(bytes, k, pos, view.Bytes(), file);
    LoneFaithful(t, Table(bytes), Nil, tail, k, pos, file);
    TableSize(t, bytes, tail);
    LoneFaithful(x, nb, Cons(t, Table(bytes), Nil, tail), Nil, at, pos, file);
  }

  lemma TableOwn(bytes: seq<byte>, at: nat, pos: Positions, all: seq<byte>, file: seq<byte>)
    requires Holds(file, at, all) && |bytes| <= |all|
    ensures OwnFaithful(Table(bytes), |bytes|, at, pos, file) && Own(Table(bytes)) == |bytes|
  {
  }

  lemma TableSize(t: Item, bytes: seq<byte>, tail: Forest)
    ensures Size(Cons(t, Table(bytes), Nil, tail)) == |bytes| + Size(tail)
  {
  }

  /** Pieces around an item that has been looked at bring in no data item with one raw child. */
  lemma AroundGuessed(gs: Guesses, raw: Item, view: I.View, o: nat, top: Forest, span: nat, rest: Item)
    requires view.Valid() && o + span <= view.size && top.Cons? && top.rest.Nil? && !top.body.Raw? && AllGuessed(gs, top)
    ensures AllGuessed(gs, Around(raw, view, o, top, span, rest)) && NotLone(Around(raw, view, o, top, span, rest))
  {
    hide OneGuessed, Own;
    NilGuessed(gs);
    var post := Leftover(view, o + span, if o == 0 then raw else rest);
    assert AllGuessed(gs, post) by {
      if post.Cons? {
        RawGuessed(gs, post.body, Nil);
      }
    }
    assert OneGuessed(gs, top.body, top.kids) && AllGuessed(gs, top.kids);
    var mid := Cons(top.item, top.body, top.kids, post);
    assert AllGuessed(gs, mid);
    if o != 0 {
      RawGuessed(gs, Raw(view.Slice(0, o)), Nil);
      assert Around(raw, view, o, top, span, rest) == Cons(raw, Raw(view.Slice(0, o)), Nil, mid);
    }
  }

  lemma NilGuessed(gs: Guesses)
    ensures AllGuessed(gs, Nil)
  {
  }

  lemma RawGuessed(gs: Guesses, b: Body, kids: Forest)
    requires !b.Data?
    ensures OneGuessed(gs, b, kids)
  {
  }

  /** A data item with its payload as raw child has been looked at if no guess takes it for something else. */
  lemma HoldingGuessed(gs: Guesses, view: I.View, o: nat, x: Item, nb: Body, rem: nat, c: Item)
    requires view.Valid() && o + Own(nb) + rem <= view.size
    requires nb.Data? && rem > 0 ==> GuessFor(gs, nb, view.Slice(o + Own(nb), rem).Bytes()).Kept?
    ensures AllGuessed(gs, Holding(view, o, x, nb, rem, c))
  {
    hide GuessFor, Own;
    NilGuessed(gs);
    var k := Child(view, o + Own(nb), rem, c);
    if rem > 0 {
      RawGuessed(gs, k.body, Nil);
      assert AllGuessed(gs, k);
    }
  }

  lemma TabledGuessed(gs: Guesses, view: I.View, x: Item, nb: Body, t: Item, bytes: seq<byte>, c: Item)
    requires view.Valid() && |bytes| <= view.size
    ensures AllGuessed(gs, Tabled(view, x, nb, t, bytes, c))
  {
    hide GuessFor;
    NilGuessed(gs);
    var tail := Leftover(view, |bytes|, c);
    assert AllGuessed(gs, tail) by {
      if tail.Cons? {
        RawGuessed(gs, tail.body, Nil);
      }
    }
  }

  lemma StringGuessed(gs: Guesses, s: Item, b: Body)
    requires !b.Data?
    ensures AllGuessed(gs, Cons(s, b, Nil, Nil))
  {
    NilGuessed(gs);
  }

  lemma SubAround(raw: Item, view: I.View, o: nat, top: Forest, span: nat, rest: Item)
    requires view.Valid() && o + span <= view.size && top.Cons? && top.rest.Nil? && top.item != raw
    ensures Sub(Around(raw, view, o, top, span, rest), top.item) == top
  {
    hide Own, Leftover;
    assert top.item !in Nodes(Nil);
  }

  lemma HoldingChild(view: I.View, o: nat, x: Item, nb: Body, rem: nat, c: Item)
    requires view.Valid() && o + Own(nb) + rem <= view.size && rem > 0 && c != x
    ensures var top := Holding(view, o, x, nb, rem, c);
            top.item == x && Heads(top.kids) == [c] && BodyOf(top, c) == Raw(view.Slice(o + Own(nb), rem)) && c in Nodes(top)
  {
    hide Own, BodyOf, Nodes;
    assert Heads(Nil) == [];
    NilMeans({});
    var b := Raw(view.Slice(o + Own(nb), rem));
    LoneMeans(c, b, Nil, Nil, c);
    LoneMeans(x, nb, Cons(c, b, Nil, Nil), Nil, c);
  }

  lemma LeafKids(f: Forest, r: Item)
    requires Leaf(f, r)
    ensures Size(Sub(f, r).kids) == 0 && BodyOf(f, r) == Sub(f, r).body
  {
  }
}
