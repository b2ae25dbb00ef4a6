/** Cutting instructions and data items out of the raw bytes of an STCM tree. */
module StcmCuts {
  import opened Bytes
  import opened Words
  import I = Items
  import P = StcmParams
  import opened StcmInstructions
  import opened StcmStrings
  import opened Trees
  import opened Relink
  import opened TreeEdits
  import opened TreeHeaps
  import opened TreeSplits
  import opened StcmContexts
  import opened StcmClosure
  import opened StcmPieces

  /** What an item is in the heap is what it is in the tree. */
  lemma BodyIs(ctx: Context, n: Item)
    requires ctx.Shaped()
    ensures n in ctx.repr ==> BodyOf(ctx.shape, n) == n.body && n in Nodes(ctx.shape)
  {
    if n in ctx.repr {
      SubLive(ctx.shape, ctx.root, n);
    }
  }

  /** `nb`, with `rem` bytes behind it, can be cut out of a raw item: it dumps the bytes that are there. */
  ghost predicate CanInsert(ctx: Context, raw: Item, offset: nat, nb: Body, rem: nat)
    reads ctx, ctx.root, ctx.repr
  {
    && ctx.Parsable() && Faithful(ctx.shape, 0, PositionsOf(ctx.labels), ctx.file)
    && raw in ctx.repr && raw.body.Raw? && (nb.Instruction? || nb.Data?) && RefsKnown(nb, ctx.labels.Keys)
    && offset + Own(nb) + rem <= Own(raw.body)
    && Holds(ctx.file, raw.position + offset, OwnBytes(nb, Own(nb) + rem, PositionsOf(ctx.labels)))
  }

  /** What putting an item in place of raw bytes leaves: it is new, no other instruction is, every item that is
      not raw stays, and the labels that pointed to its first byte point to it. */
  twostate predicate Inserted(ctx: Context, gs: Guesses, raw: Item, offset: nat, span: nat, new x: Item)
    reads ctx, ctx.root, ctx.repr
  {
    && ctx.Parsable() && Faithful(ctx.shape, 0, PositionsOf(ctx.labels), ctx.file)
    && Onward(old(ctx.shape), old(ctx.labels), ctx.shape, ctx.labels)
    && PositionsOf(ctx.labels) == old(PositionsOf(ctx.labels)) && ctx.labels.Keys == old(ctx.labels.Keys)
    && x in Nodes(ctx.shape) && x !in Nodes(old(ctx.shape))
    && (forall l {:trigger ctx.labels[l]} :: l in ctx.labels && old(ctx.labels[l]) == Ptr(raw, offset) ==> ctx.labels[l] == Ptr(x, 0))
    && OnlyNew(old(ctx.shape), ctx.shape, x) && AllGuessed(gs, ctx.shape)
    && (offset == 0 ==> FollowedByNew(old(ctx.shape), raw, ctx.shape, x))
    && StartsKept(old(ctx.shape), ctx.shape, x, old(raw.position) + offset, span)
  }

  /** What disassembly makes. */
  ghost predicate Typed(b: Body) {
    b.Instruction? || b.Data? || b.StringData?
  }

  /** No instruction, data item or string is new but one. */
  ghost predicate OnlyNew(f: Forest, f': Forest, x: Item) {
    forall n {:trigger n in Nodes(f')} :: n in Nodes(f') && n != x && Typed(BodyOf(f', n)) ==> n in Nodes(f) && BodyOf(f', n) == BodyOf(f, n)
  }

  /** The new item is at this place and so long; those that are not raw are where they were and as long. */
  ghost predicate StartsKept(f: Forest, f': Forest, x: Item, at: nat, span: nat) {
    && Start(f', x) == at && Size(Sub(f', x)) == span
    && forall n {:trigger Start(f', n)} :: n in Nodes(f) && !BodyOf(f, n).Raw? ==> Start(f', n) == Start(f, n) && Size(Sub(f', n)) == Size(Sub(f, n))
  }

  /** What a raw item followed is now followed by the item at its start. */
  ghost predicate FollowedByNew(f: Forest, raw: Item, f': Forest, x: Item) {
    forall n {:trigger Behind(f', n)} :: n in Nodes(f) && !BodyOf(f, n).Raw? && Behind(f, n).Cons? && Behind(f, n).item == raw ==>
      Behind(f', n).Cons? && Behind(f', n).item == x
  }

  lemma SplitReady(ctx: Context, raw: Item, offset: nat, nb: Body, rem: nat, x: Item)
    requires CanInsert(ctx, raw, offset, nb, rem) && x !in ctx.repr && x != ctx.root && x.body == nb && x.children == []
    ensures ctx.CanSplit(raw, offset, x) && raw.body.view.Valid() && raw.body.view.size == Own(raw.body)
    ensures BodyOf(ctx.shape, raw) == raw.body && Leaf(ctx.shape, raw) && Distinct(ctx.shape) && ctx.repr == Nodes(ctx.shape)
    ensures raw.position == Start(ctx.shape, raw)
  {
    hide Live, Placed, Distinct, Leaves, Nodes, Heads, Size, Sub, Owner, Leaf, AllRefsKnown, RefsKnown, ListOf, Own, Faithful;
    ctx.RawPlace(raw);
    BodyIs(ctx, raw);
    OwnHeader(nb);
    RawSize(raw.body);
  }

  /** The tail of the cut raw item is right behind the new item. */
  lemma TailReady(ctx: Context, f: Forest, raw: Item, view: I.View, offset: nat, nb: Body, rem: nat, x: Item, rest: Item)
    requires Distinct(f) && Leaf(f, raw) && view.Valid() && x !in Nodes(f) && rest !in Nodes(f) && rest != x
    requires offset + Own(nb) + rem <= view.size && 0 < rem && (nb.Instruction? || nb.Data?)
    requires ctx.Core() && ctx.shape == Swap(f, raw, SplitForest(raw, view, offset, x, nb, rest))
    requires x.children == []
    ensures ctx.CanMove(x, rem) && BodyOf(ctx.shape, x) == nb
    ensures var t := if offset == 0 then raw else rest; var end := offset + Own(nb);
            Behind(ctx.shape, x).item == t && t.body == Raw(view.Slice(end, view.size - end))
  {
    hide Live, Placed, Leaves, Leaf, Size, AllRefsKnown, Swap, Own, Nodes, Distinct, SplitForest, Behind, BodyOf;
    hide ctx.RawsIndexed, ctx.EntriesRight, ctx.LabelsInside;
    LeafIn(f, raw);
    var g, end := SplitForest(raw, view, offset, x, nb, rest), offset + Own(nb);
    var t := if offset == 0 then raw else rest;
    TailOf(raw, view, offset, x, nb, rest);
    CutOutPlain(raw, view, offset, x, nb, rest, rest);
    SplitPieces(raw, view, offset, x, nb, rest, t);
    BehindNew(f, raw, g, x);
    SwapDistinct(f, raw, g);
    BodySwap(f, raw, g, x);
    BodySwap(f, raw, g, t);
    BodyIs(ctx, x);
    BodyIs(ctx, t);
    RawSize(Raw(view.Slice(end, view.size - end)));
  }

  /** Only labels into the raw item have moved. */
  ghost predicate LabelsMoved(a: map<string, Ptr>, b: map<string, Ptr>, raw: Item, offset: nat, len: nat, x: Item) {
    && b.Keys == a.Keys && (forall l {:trigger b[l]} :: l in a && a[l].item != raw ==> b[l] == a[l])
    && (forall l {:trigger b[l]} :: l in a && a[l] == Ptr(raw, offset) ==> b[l] == Ptr(x, 0))
    && (forall l {:trigger b[l]} :: l in b && b[l].item == x ==> b[l].offset < len)
  }

  /** Only labels into the raw item have moved, and no file position has. */
  ghost predicate LabelsCut(ctx: Context, a: map<string, Ptr>, pos: Positions, raw: Item, offset: nat, len: nat, x: Item)
    reads ctx, ctx.root, ctx.repr
  {
    ctx.Core() && LabelsMoved(a, ctx.labels, raw, offset, len, x) && PositionsOf(ctx.labels) == pos && |ctx.file| in ctx.pmap
  }

  /** Cuts a new item out of a raw one. */
  method SplitCreate(ctx: Context, raw: Item, offset: nat, nb: Body, ghost rem: nat) returns (x: Item, ghost rest: Item)
    requires CanInsert(ctx, raw, offset, nb, rem)
    modifies ctx, ctx.root, ctx.repr
    ensures fresh(ctx.repr - old(ctx.repr)) && fresh(x) && fresh(rest) && rest != x
    ensures LabelsCut(ctx, old(ctx.labels), old(PositionsOf(ctx.labels)), raw, offset, Own(nb), x) && x.children == []
    ensures old(raw.body.view.Valid()) && offset + Own(nb) <= old(raw.body.view.size)
    ensures ctx.shape == Swap(old(ctx.shape), raw, SplitForest(raw, old(raw.body.view), offset, x, nb, rest))
  {
    hide Live, Placed, Leaves, Leaf, Size, AllRefsKnown, Swap, Own, Nodes, Distinct, SplitForest, Behind, BodyOf, Faithful, RefsKnown, Start, OwnBytes;
    hide ctx.Core, ctx.Parsable, ctx.CanSplit, LabelsMoved, LabelsSplit;
    BeforeCut(ctx, raw, offset, nb, rem);
    x := new Item(nb);
    SplitReady(ctx, raw, offset, nb, rem, x);
    ghost var view := raw.body.view;
    NewHeader(nb);
    ghost var a, nodes := ctx.labels, ctx.repr;
    rest := ctx.Split2(raw, offset, x);
    SplitPieces(raw, view, offset, x, nb, rest, if offset == 0 then raw else rest);
    LabelsNow(a, ctx.labels, raw, offset, Own(nb), x, Nodes(SplitForest(raw, view, offset, x, nb, rest)), nodes);
  }

  /** What the cut has done to the labels. */
  lemma LabelsNow(a: map<string, Ptr>, b: map<string, Ptr>, raw: Item, offset: nat, len: nat, x: Item, pieces: set<Item>, nodes: set<Item>)
    requires LabelsSplit(a, b, raw, offset, len, x, pieces) && len > 0 && x !in nodes && forall l {:trigger a[l]} :: l in a ==> a[l].item in nodes
    ensures LabelsMoved(a, b, raw, offset, len, x)
  {
  }

  /** Labels to the raw bytes behind the new item may go over to their pieces. */
  lemma LabelsLater(a: map<string, Ptr>, b: map<string, Ptr>, b': map<string, Ptr>, raw: Item, offset: nat, len: nat, x: Item, t: Item, pieces: set<Item>,
                    nodes: set<Item>)
    requires LabelsMoved(a, b, raw, offset, len, x) && LabelsOver(b, b', t, pieces) && x != t && x !in pieces && (t == raw || t !in nodes)
    requires forall l {:trigger a[l]} :: l in a ==> a[l].item in nodes
    ensures LabelsMoved(a, b', raw, offset, len, x)
  {
  }

  lemma NewHeader(nb: Body)
    requires nb.Instruction? || nb.Data?
    ensures Own(nb) > 0
  {
  }

  /** The raw child of a new item: nothing points to it, and the index does not have it. */
  ghost predicate HasChild(ctx: Context, x: Item, nb: Body, c: Item, child: I.View)
    reads ctx, ctx.repr
  {
    && x in ctx.repr && x.body == nb && x.children == [c] && c in ctx.repr && c.body == Raw(child) && child.Valid()
    && forall q {:trigger ctx.pmap[q]} :: q in ctx.pmap ==> ctx.pmap[q] != c
  }

  /** Cuts an item out of a raw one and moves the bytes behind it in. */
  method Cut(ctx: Context, raw: Item, offset: nat, nb: Body, rem: nat) returns (x: Item, ghost c: Item, ghost rest: Item)
    requires CanInsert(ctx, raw, offset, nb, rem)
    modifies ctx, ctx.root, ctx.repr
    ensures fresh(ctx.repr - old(ctx.repr)) && fresh(x) && fresh(rest) && (fresh(c) || c == ctx.root) && c != x && rest != x && rest != c
    ensures LabelsCut(ctx, old(ctx.labels), old(PositionsOf(ctx.labels)), raw, offset, Own(nb), x)
    ensures old(raw.body.view.Valid()) && offset + Own(nb) + rem <= old(raw.body.view.size)
    ensures ctx.shape == Swap(old(ctx.shape), raw, CutOut(raw, old(raw.body.view), offset, x, nb, rem, c, rest))
    ensures rem > 0 ==> HasChild(ctx, x, nb, c, old(raw.body.view.Slice(offset + Own(nb), rem)))
  {
    hide Live, Placed, Leaves, Leaf, Size, AllRefsKnown, Swap, Own, Nodes, Distinct, SplitForest, Behind, BodyOf, Faithful, RefsKnown, CutOut, Adopt, Start, OwnBytes, HasChild, LabelsMoved, LabelsOver, MovePieces;
    hide ctx.Core, ctx.Parsable, ctx.CanMove;
    BeforeCut(ctx, raw, offset, nb, rem);
    ghost var f, view, a, nodes := ctx.shape, raw.body.view, ctx.labels, ctx.repr;
    assert allocated(nodes);
    x, rest := SplitCreate(ctx, raw, offset, nb, rem);
    c := ctx.root;
    if rem == 0 {
      CutOutPlain(raw, view, offset, x, nb, c, rest);
      return;
    }
    TailReady(ctx, f, raw, view, offset, nb, rem, x, rest);
    ghost var t, cut := if offset == 0 then raw else rest, ctx.labels;
    ghost var rest';
    ghost var end := offset + Own(nb);
    c, rest' := ctx.MoveNextToChild(x, rem, t);
    MoveNodes(t, view.Slice(end, view.size - end), rem, c, rest');
    LabelsLater(a, cut, ctx.labels, raw, offset, Own(nb), x, t, Nodes(MovePieces(t, view.Slice(end, view.size - end), rem, c, rest')), nodes);
    Composed(f, raw, view, offset, x, nb, rem, c, rest, rest');
    ChildIs(ctx, f, raw, view, offset, x, nb, rem, c, rest);
  }

  /** What the heap has of the new item and its child. */
  lemma ChildIs(ctx: Context, f: Forest, raw: Item, view: I.View, offset: nat, x: Item, nb: Body, rem: nat, c: Item, rest: Item)
    requires ctx.Core() && Distinct(f) && Leaf(f, raw) && view.Valid() && offset + Own(nb) + rem <= view.size && rem > 0 && !nb.Raw?
    requires ctx.shape == Swap(f, raw, CutOut(raw, view, offset, x, nb, rem, c, rest))
    requires x !in Nodes(f) && c !in Nodes(f) && rest !in Nodes(f) && c != x && rest != x && rest != c
    requires forall q {:trigger ctx.pmap[q]} :: q in ctx.pmap ==> ctx.pmap[q] != c
    ensures HasChild(ctx, x, nb, c, view.Slice(offset + Own(nb), rem))
  {
    hide Live, Placed, Leaves, Leaf, Size, AllRefsKnown, Swap, Own, Nodes, Distinct, BodyOf, Around, RawBytes;
    var child := view.Slice(offset + Own(nb), rem);
    var top := Holding(view, offset, x, nb, rem, c);
    LeafIn(f, raw);
    HoldingMeans(view, offset, x, nb, rem, c, c);
    var g := Around(raw, view, offset, top, Own(nb) + rem, rest);
    AroundMeans(raw, view, offset, top, Own(nb) + rem, rest, c);
    SwapDistinct(f, raw, g);
    SubSwap(f, raw, g, x);
    SubAround(raw, view, offset, top, Own(nb) + rem, rest);
    SubLive(ctx.shape, ctx.root, x);
    BodySwap(f, raw, g, c);
    BodyIs(ctx, x);
    BodyIs(ctx, c);
    HoldingChild(view, offset, x, nb, rem, c);
  }

  lemma BeforeCut(ctx: Context, raw: Item, offset: nat, nb: Body, rem: nat)
    requires CanInsert(ctx, raw, offset, nb, rem)
    ensures raw.body.view.Valid() && raw.body.view.size == Own(raw.body) && BodyOf(ctx.shape, raw) == raw.body && Leaf(ctx.shape, raw)
    ensures Distinct(ctx.shape) && ctx.repr == Nodes(ctx.shape) && ctx.root !in ctx.repr && raw.position == Start(ctx.shape, raw)
    ensures raw.parent != null && (raw.parent == ctx.root || raw.parent in ctx.repr) && |ctx.file| in ctx.pmap
    ensures forall l {:trigger ctx.labels[l]} :: l in ctx.labels ==> ctx.labels[l].item in ctx.repr
  {
    hide Live, Placed, Distinct, Leaves, Nodes, Heads, Size, Sub, Owner, Leaf, AllRefsKnown, RefsKnown, ListOf, Own, Faithful;
    ctx.RawPlace(raw);
    BodyIs(ctx, raw);
    RawSize(raw.body);
  }

  lemma RawsFullBefore(ctx: Context)
    requires ctx.Parsable()
    ensures RawsFull(ctx.shape)
  {
    hide Live, Placed, Leaves, Size, AllRefsKnown, Own, Nodes, Distinct, BodyOf;
    forall n | n in Nodes(ctx.shape) && BodyOf(ctx.shape, n).Raw?
      ensures Own(BodyOf(ctx.shape, n)) > 0
    {
      BodyIs(ctx, n);
    }
  }

  /** No raw item of a forest is empty. */
  ghost predicate RawsFull(f: Forest) {
    forall n {:trigger n in Nodes(f)} :: n in Nodes(f) && BodyOf(f, n).Raw? ==> Own(BodyOf(f, n)) > 0
  }

  /** No item of a forest but the first is one that disassembly makes. */
  ghost predicate NoInner(top: Forest) {
    top.Cons? && forall n {:trigger n in Nodes(top)} :: n in Nodes(top) && n != top.item ==> !Typed(BodyOf(top, n))
  }

  lemma StillFull(ctx: Context, f: Forest, top: Forest)
    requires ctx.Core() && RawsFull(f) && RawsFull(top) && forall n {:trigger n in Nodes(ctx.shape)} :: n in Nodes(ctx.shape) ==> StcmPieces.Known(f, top, ctx.shape, n)
    ensures forall n {:trigger n in ctx.repr} :: n in ctx.repr && n.body.Raw? ==> Own(n.body) > 0
    ensures NoInner(top) ==> OnlyNew(f, ctx.shape, top.item)
  {
    hide Live, Placed, Leaves, Size, AllRefsKnown, Own, Nodes, Distinct, BodyOf;
    forall n | n in ctx.repr && n.body.Raw?
      ensures Own(n.body) > 0
    {
      BodyIs(ctx, n);
      assert StcmPieces.Known(f, top, ctx.shape, n);
    }
    forall n | NoInner(top) && n in Nodes(ctx.shape) && n != top.item && Typed(BodyOf(ctx.shape, n))
      ensures n in Nodes(f) && BodyOf(ctx.shape, n) == BodyOf(f, n)
    {
      assert StcmPieces.Known(f, top, ctx.shape, n);
    }
  }

  /** The state once an item with all it holds stands in place of raw bytes. */
  lemma InsertedNow(ctx: Context, gs: Guesses, f: Forest, a: map<string, Ptr>, pos: Positions, raw: Item, view: I.View, o: nat, top: Forest, span: nat, rest: Item)
    requires ctx.Core() && |ctx.file| in ctx.pmap && Insertable(f, raw, view, o, top, span, rest) && NoInner(top) && RawsFull(f) && RawsFull(top)
    requires ctx.shape == Swap(f, raw, Around(raw, view, o, top, span, rest))
    requires forall l {:trigger l in a} :: l in a ==> l in ctx.labels && (a[l].item != raw ==> ctx.labels[l] == a[l])
    requires PositionsOf(ctx.labels) == pos && Faithful(f, 0, pos, ctx.file) && Faithful(top, Start(f, raw) + o, pos, ctx.file)
    requires AllGuessed(gs, f) && AllGuessed(gs, top) && !top.body.Raw?
    ensures AllGuessed(gs, ctx.shape)
    ensures ctx.Parsable() && Faithful(ctx.shape, 0, pos, ctx.file) && Onward(f, a, ctx.shape, ctx.labels)
    ensures RawBytes(ctx.shape) == RawBytes(f) - span + RawBytes(top) && top.item in Nodes(ctx.shape) && top.item !in Nodes(f)
    ensures BodyOf(ctx.shape, top.item) == BodyOf(top, top.item) && OnlyNew(f, ctx.shape, top.item)
    ensures o == 0 ==> FollowedByNew(f, raw, ctx.shape, top.item)
    ensures StartsKept(f, ctx.shape, top.item, Start(f, raw) + o, span)
  {
    hide Live, Placed, Leaves, Leaf, Size, AllRefsKnown, Swap, Own, Distinct, Behind, BodyOf, Faithful, Around, Start, Onward, RawBytes, RawsFull, NoInner, OnlyNew, AllGuessed, NotLone, StartsKept;
    hide ctx.Core;
    InsertedOnward(f, a, raw, view, o, top, span, rest, ctx.labels);
    InsertedFaithful(f, raw, view, o, top, span, rest, pos, ctx.file);
    KeptStarts(f, raw, view, o, top, span, rest);
    AroundGuessed(gs, raw, view, o, top, span, rest);
    SwapGuessed(gs, f, raw, Around(raw, view, o, top, span, rest));
    StillFull(ctx, f, top);
    TopIn(top);
    assert StcmPieces.Known(f, top, ctx.shape, top.item);
  }

  lemma KeptStarts(f: Forest, raw: Item, view: I.View, o: nat, top: Forest, span: nat, rest: Item)
    requires Insertable(f, raw, view, o, top, span, rest)
    ensures StartsKept(f, Swap(f, raw, Around(raw, view, o, top, span, rest)), top.item, Start(f, raw) + o, span)
  {
    hide Around, Size, Leaf, Swap, Own, Start, BodyOf, Insertable, Nodes;
    InsertedStart(f, raw, view, o, top, span, rest);
  }

  lemma TopIn(top: Forest)
    requires top.Cons?
    ensures top.item in Nodes(top) && NoInner(top) == NoInner(top)
  {
  }

  lemma HoldingReady(f: Forest, raw: Item, view: I.View, o: nat, x: Item, nb: Body, rem: nat, c: Item, rest: Item)
    requires Distinct(f) && Leaf(f, raw) && BodyOf(f, raw) == Raw(view) && view.Valid() && o + Own(nb) + rem <= view.size && !nb.Raw?
    requires x !in Nodes(f) && c !in Nodes(f) && rest !in Nodes(f) && c != x && rest != x && rest != c
    ensures var top := Holding(view, o, x, nb, rem, c);
            && Insertable(f, raw, view, o, top, Own(nb) + rem, rest) && NoInner(top) && RawsFull(top) && RawBytes(top) == rem
            && top.item == x && top.body == nb && BodyOf(top, x) == nb
  {
    hide Distinct, Leaf, Nodes, Own, Size, RawBytes, BodyOf;
    HoldingMeans(view, o, x, nb, rem, c, x);
    var top := Holding(view, o, x, nb, rem, c);
    forall n | n in Nodes(top) && n != x
      ensures BodyOf(top, n).Raw? && Own(BodyOf(top, n)) > 0
    {
      HoldingMeans(view, o, x, nb, rem, c, n);
    }
  }

  /** Cuts an instruction out of a raw item, with the bytes behind it as its child. */
  method Insert(ctx: Context, ghost gs: Guesses, raw: Item, offset: nat, nb: Body, rem: nat) returns (x: Item)
    requires CanInsert(ctx, raw, offset, nb, rem) && nb.Instruction? && AllGuessed(gs, ctx.shape)
    modifies ctx, ctx.root, ctx.repr
    ensures fresh(ctx.repr - old(ctx.repr)) && Inserted(ctx, gs, raw, offset, Own(nb) + rem, x)
    ensures BodyOf(ctx.shape, x) == nb && RawBytes(ctx.shape) + Own(nb) == RawBytes(old(ctx.shape))
  {
    hide Live, Placed, Leaves, Leaf, Size, AllRefsKnown, Swap, Own, Nodes, Distinct, SplitForest, Behind, BodyOf, Faithful, RefsKnown, Around, Adopt, Start, OwnBytes, Onward, Holds, RawBytes, Insertable, Holding, NoInner, RawsFull, OnlyNew, FollowedByNew, AllGuessed, StartsKept;
    hide ctx.Core;
    BeforeCut(ctx, raw, offset, nb, rem);
    RawsFullBefore(ctx);
    ghost var f, view, a, pos := ctx.shape, raw.body.view, ctx.labels, PositionsOf(ctx.labels);
    ghost var c, rest;
    x, c, rest := Cut(ctx, raw, offset, nb, rem);
    HoldingReady(f, raw, view, offset, x, nb, rem, c, rest);
    HeaderHeld(f, raw, view, offset, x, nb, rem, c, pos, ctx.file);
    HoldingGuessed(gs, view, offset, x, nb, rem, c);
    InsertedNow(ctx, gs, f, a, pos, raw, view, offset, Holding(view, offset, x, nb, rem, c), Own(nb) + rem, rest);
  }

  lemma HeaderHeld(f: Forest, raw: Item, view: I.View, o: nat, x: Item, nb: Body, rem: nat, c: Item, pos: Positions, file: seq<byte>)
    requires Leaf(f, raw) && BodyOf(f, raw) == Raw(view) && view.Valid() && o + Own(nb) + rem <= view.size && Faithful(f, 0, pos, file)
    requires (nb.Instruction? || nb.Data?) && Holds(file, Start(f, raw) + o, OwnBytes(nb, Own(nb) + rem, pos))
    ensures Faithful(Holding(view, o, x, nb, rem, c), Start(f, raw) + o, pos, file)
  {
    hide Leaf, Own, OwnBytes, BodyOf, Faithful, Start, Holding;
    RawHolds(f, raw, view, pos, file);
    HoldingFaithful(view, o, x, nb, rem, c, Start(f, raw), pos, file);
  }

  /** The bytes of a raw item from an offset on are those of the file. */
  lemma RestHolds(ctx: Context, raw: Item, offset: nat)
    requires ctx.Parsable() && Faithful(ctx.shape, 0, PositionsOf(ctx.labels), ctx.file) && raw in ctx.repr && raw.body.Raw? && offset <= Own(raw.body)
    ensures raw.body.view.Valid() && raw.body.view.size == Own(raw.body) && BodyOf(ctx.shape, raw) == raw.body && raw in Nodes(ctx.shape)
    ensures Holds(ctx.file, raw.position + offset, raw.body.view.Bytes()[offset..]) && AllRefsKnown(ctx.shape, ctx.labels.Keys)
  {
    hide Live, Placed, Distinct, Leaves, Nodes, Heads, Size, Sub, Owner, Leaf, AllRefsKnown, ListOf, Own, Faithful, BodyOf, Start, OwnBytes;
    ctx.RawPlace(raw);
    BodyIs(ctx, raw);
    RawSize(raw.body);
    var view := raw.body.view;
    RawHolds(ctx.shape, raw, view, PositionsOf(ctx.labels), ctx.file);
    SliceOfSlice(ctx.file, raw.position, raw.position + view.size, offset, view.size);
  }

  lemma HoldsPrefix(file: seq<byte>, at: nat, b: seq<byte>, n: nat)
    requires Holds(file, at, b) && n <= |b|
    ensures Holds(file, at, b[..n])
  {
  }

  /** An instruction that was read can be cut out where it was read. */
  lemma InstructionFits(ctx: Context, raw: Item, offset: nat, b: seq<byte>, i: Instr<string>, size: nat)
    requires ctx.Parsable() && Faithful(ctx.shape, 0, PositionsOf(ctx.labels), ctx.file)
    requires raw in ctx.repr && raw.body.Raw? && offset <= Own(raw.body) && |b| == Own(raw.body) - offset && Holds(ctx.file, raw.position + offset, b)
    requires RefsKnown(Instruction(i), ctx.labels.Keys) && ReadInstr(b, ctx.Total()) == Some(Read(Resolve(i, PositionsOf(ctx.labels)), size))
    ensures FixedSize(i) <= size <= |b| && CanInsert(ctx, raw, offset, Instruction(i), size - FixedSize(i))
  {
    hide ReadInstr, Holds, Faithful, InstrBytes, ParamsKnown;
    hide ctx.Core;
    ReadDumpsSame(b, ctx.Total());
    HoldsPrefix(ctx.file, raw.position + offset, b, FixedSize(i));
  }

  /** The data item of the header `d`. */
  function DataOf(d: DataHead): Body {
    Data(d.kind, d.offsetUnit, d.field8)
  }

  lemma DataFits(ctx: Context, raw: Item, offset: nat, b: seq<byte>, d: DataHead)
    requires ctx.Parsable() && Faithful(ctx.shape, 0, PositionsOf(ctx.labels), ctx.file)
    requires raw in ctx.repr && raw.body.Raw? && offset <= Own(raw.body) && |b| == Own(raw.body) - offset && Holds(ctx.file, raw.position + offset, b)
    requires ReadData(b) == Some(d)
    ensures CanInsert(ctx, raw, offset, DataOf(d), d.length) && d.length < 0x1_0000_0000
  {
    hide ReadData, Holds, Faithful, DataHeader;
    hide ctx.Core;
    DataDumpsSame(b);
    HoldsPrefix(ctx.file, raw.position + offset, b, 16);
  }

  /** In place of `span` bytes of a raw item of an earlier tree stands an item with all it holds. */
  ghost predicate Stands(ctx: Context, f: Forest, a: map<string, Ptr>, pos: Positions, raw: Item, view: I.View, o: nat, top: Forest, span: nat, rest: Item)
    reads ctx, ctx.root, ctx.repr
  {
    && ctx.Core() && |ctx.file| in ctx.pmap && Insertable(f, raw, view, o, top, span, rest) && NoInner(top) && RawsFull(top)
    && ctx.shape == Swap(f, raw, Around(raw, view, o, top, span, rest))
    && LabelsStand(f, a, ctx.labels, raw, o, top.item) && PositionsOf(ctx.labels) == pos && Faithful(top, Start(f, raw) + o, pos, ctx.file)
  }

  /** Only labels into the raw item have moved; those to the place of the new one point to it. */
  ghost predicate LabelsStand(f: Forest, a: map<string, Ptr>, b: map<string, Ptr>, raw: Item, o: nat, x: Item) {
    && b.Keys == a.Keys && (forall l {:trigger a[l]} :: l in a ==> a[l].item in Nodes(f))
    && (forall l {:trigger b[l]} :: l in a && a[l].item != raw ==> b[l] == a[l])
    && (forall l {:trigger b[l]} :: l in a && a[l] == Ptr(raw, o) ==> b[l] == Ptr(x, 0))
  }

  /** Labels to an item that was not there before may move. */
  lemma LabelsStandStill(f: Forest, a: map<string, Ptr>, b: map<string, Ptr>, raw: Item, o: nat, x: Item, c: Item, b': map<string, Ptr>,
                         len: nat, t: Item, pieces: set<Item>)
    requires LabelsStand(f, a, b, raw, o, x) && c !in Nodes(f) && c != x && LabelsSplit(b, b', c, 0, len, t, pieces)
    ensures LabelsStand(f, a, b', raw, o, x)
  {
  }

  /** Labels to the new item may go over to another. */
  lemma LabelsGoOver(f: Forest, a: map<string, Ptr>, b: map<string, Ptr>, raw: Item, o: nat, x: Item, s: Item, b': map<string, Ptr>)
    requires LabelsStand(f, a, b, raw, o, x) && x !in Nodes(f)
    requires b' == map l | l in b :: if b[l].item == x then Ptr(s, b[l].offset) else b[l]
    ensures LabelsStand(f, a, b', raw, o, s)
  {
  }

  /** Cuts the data item out, its payload as its child. */
  method CutData(ctx: Context, raw: Item, offset: nat, d: DataHead) returns (x: Item, ghost c: Item, ghost rest: Item)
    requires CanInsert(ctx, raw, offset, DataOf(d), d.length)
    modifies ctx, ctx.root, ctx.repr
    ensures fresh(ctx.repr - old(ctx.repr)) && rest != x && rest != c && c != x
    ensures var view := old(raw.body.view);
            && view.Valid() && offset + 16 + d.length <= view.size
            && Stands(ctx, old(ctx.shape), old(ctx.labels), old(PositionsOf(ctx.labels)), raw, view, offset, Holding(view, offset, x, DataOf(d), d.length, c), 16 + d.length, rest)
    ensures d.length > 0 ==> HasChild(ctx, x, DataOf(d), c, old(raw.body.view.Slice(offset + 16, d.length)))
    ensures HeaderOnly(ctx.labels, x)
  {
    hide Live, Placed, Leaves, Leaf, Size, AllRefsKnown, Swap, Nodes, Distinct, SplitForest, Behind, BodyOf, Faithful, RefsKnown, Around, Adopt, Start, OwnBytes, Onward, Holds, RawBytes, Insertable, Holding, NoInner, RawsFull, HasChild;
    hide ctx.Core;
    BeforeCut(ctx, raw, offset, DataOf(d), d.length);
    ghost var f, view, pos := ctx.shape, raw.body.view, PositionsOf(ctx.labels);
    x, c, rest := Cut(ctx, raw, offset, DataOf(d), d.length);
    HoldingReady(f, raw, view, offset, x, DataOf(d), d.length, c, rest);
    HeaderHeld(f, raw, view, offset, x, DataOf(d), d.length, c, pos, ctx.file);
  }

  lemma DataOwn(d: DataHead)
    ensures Own(DataOf(d)) == 16 && DataOf(d).Data?
  {
  }

  /** What is known of the data item and its payload right after the cut. */
  lemma PayloadHeld(view: I.View, o: nat, x: Item, nb: Body, rem: nat, c: Item, at: nat, pos: Positions, file: seq<byte>)
    requires view.Valid() && o + Own(nb) + rem <= view.size && nb.Data? && rem > 0
    requires Faithful(Holding(view, o, x, nb, rem, c), at, pos, file)
    ensures OwnFaithful(nb, 16 + rem, at, pos, file) && Holds(file, at + 16, view.Slice(o + 16, rem).Bytes())
  {
    hide OwnBytes, Holds, StringThere;
    RawDump(view.Slice(o + 16, rem), pos);
  }

  lemma DataThere(ctx: Context, f: Forest, a: map<string, Ptr>, pos: Positions, raw: Item, view: I.View, o: nat, top: Forest, span: nat, rest: Item)
    requires Stands(ctx, f, a, pos, raw, view, o, top, span, rest)
    ensures top.item in Nodes(ctx.shape) && Sub(ctx.shape, top.item) == top && raw in Nodes(f) && raw !in Nodes(top)
  {
    hide Live, Placed, Leaves, Leaf, Size, AllRefsKnown, Swap, Own, Nodes, Distinct, Around, RawBytes, RawsFull, NoInner, Faithful;
    hide ctx.Core;
    InsertedPieces(f, raw, view, o, top, span, rest);
    TopIn(top);
    LeafIn(f, raw);
    var g := Around(raw, view, o, top, span, rest);
    SwapDistinct(f, raw, g);
    SubAround(raw, view, o, top, span, rest);
    SubSwap(f, raw, g, top.item);
  }

  lemma TabledReady(f: Forest, raw: Item, view: I.View, o: nat, child: I.View, x: Item, nb: Body, t: Item, bytes: seq<byte>, c: Item, span: nat, rest: Item)
    requires view.Valid() && child.Valid() && o + 16 + child.size <= view.size
    requires nb.Data? && Insertable(f, raw, view, o, Holding(view, o, x, nb, child.size, c), span, rest) && child.size > 0 && span == 16 + child.size
    requires |bytes| <= child.size && x != t && x != c && t != c && t !in Nodes(f) && rest != t
    ensures var top := Tabled(child, x, nb, t, bytes, c);
            Insertable(f, raw, view, o, top, span, rest) && NoInner(top) && RawsFull(top) && RawBytes(top) <= child.size
  {
    hide Distinct, Leaf, Nodes, Size, RawBytes, BodyOf, Holding;
    HoldingMeans(view, o, x, nb, child.size, c, c);
    var top := Tabled(child, x, nb, t, bytes, c);
    TabledMeans(child, x, nb, t, bytes, c, x);
    forall n | n in Nodes(top) && n != x
      ensures !Typed(BodyOf(top, n)) && (BodyOf(top, n).Raw? ==> Own(BodyOf(top, n)) > 0)
    {
      TabledMeans(child, x, nb, t, bytes, c, n);
    }
  }

  lemma TableSplits(f: Forest, raw: Item, view: I.View, o: nat, child: I.View, x: Item, nb: Body, t: Item, bytes: seq<byte>, c: Item, span: nat, rest: Item, rest': Item)
    requires view.Valid() && child.Valid() && o + 16 + child.size <= view.size
    requires nb.Data? && Insertable(f, raw, view, o, Holding(view, o, x, nb, child.size, c), span, rest) && child == view.Slice(o + 16, child.size)
    requires 0 < |bytes| <= child.size && x != c
    ensures Swap(Swap(f, raw, Around(raw, view, o, Holding(view, o, x, nb, child.size, c), span, rest)), c, SplitForest(c, child, 0, t, Table(bytes), rest')) ==
              Swap(f, raw, Around(raw, view, o, Tabled(child, x, nb, t, bytes, c), span, rest))
  {
    hide Distinct, Leaf, Size, RawBytes, BodyOf, Around, Swap, SplitForest, Nodes;
    HoldingMeans(view, o, x, nb, child.size, c, c);
    LeafIn(f, raw);
    var top := Holding(view, o, x, nb, child.size, c);
    var h := SplitForest(c, child, 0, t, Table(bytes), rest');
    SwapSwap(f, raw, Around(raw, view, o, top, span, rest), c, h);
    AroundChild(raw, view, o, x, nb, c, Raw(child), span, rest, h);
    TabledSplit(child, t, bytes, c, rest');
  }

  lemma CanSplitChild(ctx: Context, x: Item, nb: Body, c: Item, child: I.View, t: Item, bytes: seq<byte>)
    requires ctx.Core() && HasChild(ctx, x, nb, c, child) && t !in ctx.repr && t != ctx.root && t.body == Table(bytes) && t.children == [] && 0 < |bytes| <= child.size
    ensures ctx.CanSplit(c, 0, t) && (c.parent == ctx.root || c.parent in ctx.repr) && x.children == [c] && c in ctx.repr && c.body == Raw(child)
  {
    hide Live, Placed, Leaves, Size, AllRefsKnown, Distinct, Nodes, Heads;
    ctx.RawPlace(c);
  }

  lemma ChildNew(f: Forest, raw: Item, view: I.View, o: nat, x: Item, d: DataHead, c: Item, rest: Item)
    requires view.Valid() && o + 16 + d.length <= view.size && d.length > 0 && x != c
    requires Insertable(f, raw, view, o, Holding(view, o, x, DataOf(d), d.length, c), 16 + d.length, rest)
    ensures c !in Nodes(f) && x !in Nodes(f) && c != raw && x != raw && Holding(view, o, x, DataOf(d), d.length, c).item == x
  {
    hide Distinct, Leaf, Size, RawBytes, BodyOf, Nodes;
    HoldingMeans(view, o, x, DataOf(d), d.length, c, c);
    LeafIn(f, raw);
  }

  lemma TableStands(ctx: Context, was: map<string, Ptr>, x: Item, d: DataHead, bytes: seq<byte>, t: Item, c: Item, f: Forest, a: map<string, Ptr>, pos: Positions,
                    raw: Item, view: I.View, o: nat, rest: Item, rest': Item, pieces: set<Item>)
    requires view.Valid() && o + 16 + d.length <= view.size && 0 < |bytes| <= d.length && c != x && t != x && t != c && t !in Nodes(f) && rest != t
    requires var top := Holding(view, o, x, DataOf(d), d.length, c);
             && Insertable(f, raw, view, o, top, 16 + d.length, rest) && LabelsStand(f, a, was, raw, o, x)
             && Faithful(top, Start(f, raw) + o, pos, ctx.file)
             && ctx.shape == Swap(Swap(f, raw, Around(raw, view, o, top, 16 + d.length, rest)), c, SplitForest(c, view.Slice(o + 16, d.length), 0, t, Table(bytes), rest'))
    requires ctx.Core() && |ctx.file| in ctx.pmap && PositionsOf(ctx.labels) == pos && LabelsSplit(was, ctx.labels, c, 0, |bytes|, t, pieces)
    ensures Stands(ctx, f, a, pos, raw, view, o, Tabled(view.Slice(o + 16, d.length), x, DataOf(d), t, bytes, c), 16 + d.length, rest)
    ensures RawBytes(Tabled(view.Slice(o + 16, d.length), x, DataOf(d), t, bytes, c)) <= d.length
  {
    hide Live, Placed, Leaves, Leaf, Size, AllRefsKnown, Swap, Own, Nodes, Distinct, SplitForest, BodyOf, Faithful, Around, Start, Insertable, Holding, NoInner, RawsFull, RawBytes, Tabled, LabelsStand, LabelsSplit, DataOf, I.View.Slice, I.View.Valid;
    hide ctx.Core;
    var child := view.Slice(o + 16, d.length);
    DataOwn(d);
    PayloadHeld(view, o, x, DataOf(d), d.length, c, Start(f, raw) + o, pos, ctx.file);
    ChildNew(f, raw, view, o, x, d, c, rest);
    TableSplits(f, raw, view, o, child, x, DataOf(d), t, bytes, c, 16 + d.length, rest, rest');
    TabledReady(f, raw, view, o, child, x, DataOf(d), t, bytes, c, 16 + d.length, rest);
    TabledFaithful(child, x, DataOf(d), t, bytes, c, Start(f, raw) + o, pos, ctx.file);
    LabelsStandStill(f, a, was, raw, o, x, c, ctx.labels, |bytes|, t, pieces);
    TabledItem(child, x, DataOf(d), t, bytes, c);
  }

  lemma TabledItem(child: I.View, x: Item, nb: Body, t: Item, bytes: seq<byte>, c: Item)
    requires child.Valid() && |bytes| <= child.size
    ensures var top := Tabled(child, x, nb, t, bytes, c); top.Cons? && top.item == x && top.body == nb
  {
  }

  /** A table takes the place of the first bytes of the payload. */
  method MakeTable(ctx: Context, x: Item, d: DataHead, bytes: seq<byte>, ghost c: Item, ghost f: Forest, ghost a: map<string, Ptr>, ghost pos: Positions,
                   ghost raw: Item, ghost view: I.View, ghost o: nat, ghost rest: Item) returns (t: Item)
    requires view.Valid() && o + 16 + d.length <= view.size && 0 < |bytes| <= d.length && c != x && rest != c && rest != x
    requires Stands(ctx, f, a, pos, raw, view, o, Holding(view, o, x, DataOf(d), d.length, c), 16 + d.length, rest)
    requires HasChild(ctx, x, DataOf(d), c, view.Slice(o + 16, d.length))
    modifies ctx, ctx.root, ctx.repr
    ensures fresh(ctx.repr - old(ctx.repr))
    ensures Stands(ctx, f, a, pos, raw, view, o, Tabled(view.Slice(o + 16, d.length), x, DataOf(d), t, bytes, c), 16 + d.length, rest)
    ensures RawBytes(Tabled(view.Slice(o + 16, d.length), x, DataOf(d), t, bytes, c)) <= d.length
  {
    hide Live, Placed, Leaves, Leaf, Size, AllRefsKnown, Swap, Own, Nodes, Distinct, SplitForest, BodyOf, Faithful, Around, Start, Insertable, Holding, NoInner, RawsFull, RawBytes, Tabled, LabelsStand, LabelsSplit, HasChild;
    hide ctx.Core, ctx.CanSplit;
    ghost var was, nodes, child := ctx.labels, Nodes(f), view.Slice(o + 16, d.length);
    assert allocated(nodes);
    DataOwn(d);
    t := new Item(Table(bytes));
    CanSplitChild(ctx, x, DataOf(d), c, child, t, bytes);
    var raws := x.children[0];
    ChildNew(f, raw, view, o, x, d, c, rest);
    ghost var rest' := ctx.Split2(raws, 0, t);
    TabledSplit(child, t, bytes, c, rest');
    TableStands(ctx, was, x, d, bytes, t, c, f, a, pos, raw, view, o, rest, rest', Nodes(SplitForest(c, child, 0, t, Table(bytes), rest')));
  }

  /** The data item `d` with this payload is taken for a string. */
  ghost predicate TakenFor(d: DataHead, child: seq<byte>, str: seq<byte>) {
    d.kind == 0 && d.field8 == 1 && |child| == d.length && HoldsString(d.offsetUnit, str, child)
  }

  /** A string for a data item of `length` bytes and its header. */
  function StringOf(str: seq<byte>, length: nat): Body
    requires Rounded(|str|) <= length
  {
    StringData(str, length - Rounded(|str|))
  }

  lemma StringFits(d: DataHead, child: seq<byte>, str: seq<byte>)
    requires TakenFor(d, child, str)
    ensures Rounded(|str|) <= d.length && Own(StringOf(str, d.length)) == 16 + d.length && StringOf(str, d.length).StringData? && 16 <= Weigh(StringOf(str, d.length))
  {
    TruncFour(d.offsetUnit);
    RoundedSize(|str|, |child|);
  }

  lemma StringHeld(d: DataHead, child: seq<byte>, str: seq<byte>, s: Item, at: nat, pos: Positions, file: seq<byte>)
    requires TakenFor(d, child, str) && Rounded(|str|) <= d.length
    requires OwnFaithful(DataOf(d), 16 + d.length, at, pos, file) && Holds(file, at + 16, child) && d.length < 0x1_0000_0000
    ensures Faithful(Cons(s, StringOf(str, d.length), Nil, Nil), at, pos, file)
  {
    hide DataHeader, Holds, Rounded, HoldsString;
    var head := DataHeader(0, d.offsetUnit, 1, d.length);
    HeaderLength(0, d.offsetUnit, 1, d.length);
    TwoHeld(file, at, head, child);
    assert StringThere(str, d.length - Rounded(|str|), at, file) by {
      assert HoldsString(d.offsetUnit, str, child);
      assert child == str + Zeros(d.length - |str|) by {
        StringChild(d.offsetUnit, str, child);
      }
    }
  }

  lemma StringChild(unit: P.word, str: seq<byte>, child: seq<byte>)
    requires HoldsString(unit, str, child)
    ensures |str| < |child| && child == str + Zeros(|child| - |str|)
  {
  }

  lemma TwoHeld(file: seq<byte>, at: nat, a: seq<byte>, b: seq<byte>)
    requires Holds(file, at, a) && Holds(file, at + |a|, b)
    ensures Holds(file, at, a + b)
  {
  }

  lemma StringReady(f: Forest, raw: Item, view: I.View, o: nat, top: Forest, span: nat, rest: Item, s: Item, b: Body)
    requires Insertable(f, raw, view, o, top, span, rest) && Own(b) == span && b.StringData? && s !in Nodes(f) && rest != s
    ensures Insertable(f, raw, view, o, Cons(s, b, Nil, Nil), span, rest) && NoInner(Cons(s, b, Nil, Nil)) && RawsFull(Cons(s, b, Nil, Nil))
    ensures RawBytes(Cons(s, b, Nil, Nil)) == 0
  {
    hide Distinct, Leaf, Nodes, Size, RawBytes, Own;
    NilMeans({});
    LoneMeans(s, b, Nil, Nil, s);
  }

  lemma StringSwaps(f: Forest, raw: Item, view: I.View, o: nat, top: Forest, span: nat, rest: Item, s: Item, b: Body)
    requires Insertable(f, raw, view, o, top, span, rest) && top.item != raw && top.item !in Nodes(f)
    ensures Swap(Swap(f, raw, Around(raw, view, o, top, span, rest)), top.item, Cons(s, b, Nil, Nil)) ==
              Swap(f, raw, Around(raw, view, o, Cons(s, b, Nil, Nil), span, rest))
  {
    hide Distinct, Leaf, Nodes, Size, RawBytes, Own, Swap, Around;
    LeafIn(f, raw);
    SwapSwap(f, raw, Around(raw, view, o, top, span, rest), top.item, Cons(s, b, Nil, Nil));
    AroundRetyped(raw, view, o, top, span, rest, s, b);
  }

  lemma StringStands(ctx: Context, was: map<string, Ptr>, x: Item, d: DataHead, str: seq<byte>, s: Item, c: Item, f: Forest, a: map<string, Ptr>, pos: Positions,
                     raw: Item, view: I.View, o: nat, rest: Item)
    requires view.Valid() && o + 16 + d.length <= view.size && 0 < d.length < 0x1_0000_0000 && c != x && s !in Nodes(f) && rest != s
    requires TakenFor(d, view.Slice(o + 16, d.length).Bytes(), str) && Rounded(|str|) <= d.length
    requires var top := Holding(view, o, x, DataOf(d), d.length, c);
             && Insertable(f, raw, view, o, top, 16 + d.length, rest) && LabelsStand(f, a, was, raw, o, x)
             && Faithful(top, Start(f, raw) + o, pos, ctx.file)
             && ctx.shape == Swap(Swap(f, raw, Around(raw, view, o, top, 16 + d.length, rest)), x, Cons(s, StringOf(str, d.length), Nil, Nil))
    requires ctx.Core() && |ctx.file| in ctx.pmap && PositionsOf(ctx.labels) == pos
    requires ctx.labels == map l | l in was :: if was[l].item == x then Ptr(s, was[l].offset) else was[l]
    ensures Stands(ctx, f, a, pos, raw, view, o, Cons(s, StringOf(str, d.length), Nil, Nil), 16 + d.length, rest)
    ensures RawBytes(Cons(s, StringOf(str, d.length), Nil, Nil)) == 0
  {
    hide Live, Placed, Leaves, Leaf, Size, AllRefsKnown, Swap, Own, Nodes, Distinct, BodyOf, Faithful, Around, Start, Insertable, Holding, NoInner, RawsFull, RawBytes, LabelsStand, HoldsString, Rounded, TakenFor, StringOf, DataOf, I.View.Bytes, I.View.Slice, Zeros;
    hide ctx.Core;
    var child := view.Slice(o + 16, d.length).Bytes();
    DataOwn(d);
    StringFits(d, child, str);
    PayloadHeld(view, o, x, DataOf(d), d.length, c, Start(f, raw) + o, pos, ctx.file);
    ChildNew(f, raw, view, o, x, d, c, rest);
    StringHeld(d, child, str, s, Start(f, raw) + o, pos, ctx.file);
    StringSwaps(f, raw, view, o, Holding(view, o, x, DataOf(d), d.length, c), 16 + d.length, rest, s, StringOf(str, d.length));
    StringReady(f, raw, view, o, Holding(view, o, x, DataOf(d), d.length, c), 16 + d.length, rest, s, StringOf(str, d.length));
    LabelsGoOver(f, a, was, raw, o, x, s, ctx.labels);
  }

  /** Labels to a new data item point into its header. */
  ghost predicate HeaderOnly(labels: map<string, Ptr>, x: Item) {
    forall l {:trigger labels[l]} :: l in labels && labels[l].item == x ==> labels[l].offset < 16
  }

  lemma CanTake(ctx: Context, x: Item, d: DataHead, child: I.View, str: seq<byte>, s: Item, c: Item)
    requires ctx.Core() && HasChild(ctx, x, DataOf(d), c, child) && TakenFor(d, child.Bytes(), str) && Rounded(|str|) <= d.length && HeaderOnly(ctx.labels, x)
    requires forall l {:trigger ctx.labels[l]} :: l in ctx.labels ==> ctx.labels[l].item != c
    requires s !in ctx.repr && s != ctx.root && s.body == StringOf(str, d.length) && s.children == []
    ensures ctx.CanTakeString(x, c, s)
  {
    hide Live, Placed, Leaves, Size, AllRefsKnown, Distinct, Nodes, Heads, HoldsString, Rounded;
    hide ctx.Core;
    StringFits(d, child.Bytes(), str);
    RawSize(c.body);
  }

  /** A string takes the place of the data item and its payload. */
  method MakeString(ctx: Context, x: Item, d: DataHead, str: seq<byte>, ghost c: Item, ghost f: Forest, ghost a: map<string, Ptr>, ghost pos: Positions,
                    ghost raw: Item, ghost view: I.View, ghost o: nat, ghost rest: Item) returns (s: Item)
    requires view.Valid() && o + 16 + d.length <= view.size && 0 < d.length < 0x1_0000_0000 && c != x && rest != c && rest != x
    requires TakenFor(d, view.Slice(o + 16, d.length).Bytes(), str) && Rounded(|str|) <= d.length && HeaderOnly(ctx.labels, x)
    requires Stands(ctx, f, a, pos, raw, view, o, Holding(view, o, x, DataOf(d), d.length, c), 16 + d.length, rest)
    requires HasChild(ctx, x, DataOf(d), c, view.Slice(o + 16, d.length))
    requires forall l {:trigger ctx.labels[l]} :: l in ctx.labels ==> ctx.labels[l].item != c
    modifies ctx, ctx.root, ctx.repr
    ensures fresh(ctx.repr - old(ctx.repr))
    ensures Stands(ctx, f, a, pos, raw, view, o, Cons(s, StringOf(str, d.length), Nil, Nil), 16 + d.length, rest)
    ensures RawBytes(Cons(s, StringOf(str, d.length), Nil, Nil)) == 0
  {
    hide Live, Placed, Leaves, Leaf, Size, AllRefsKnown, Swap, Own, Nodes, Distinct, BodyOf, Faithful, Around, Start, Insertable, Holding, NoInner, RawsFull, RawBytes, LabelsStand, HasChild, TakenFor, HoldsString, Rounded, HeaderOnly;
    hide ctx.Core, ctx.CanTakeString;
    ghost var was, nodes := ctx.labels, Nodes(f);
    assert allocated(nodes);
    ChildNew(f, raw, view, o, x, d, c, rest);
    s := new Item(StringOf(str, d.length));
    CanTake(ctx, x, d, view.Slice(o + 16, d.length), str, s, c);
    ctx.TakeString(x, s, c);
    StringStands(ctx, was, x, d, str, s, c, f, a, pos, raw, view, o, rest);
  }

  /** Some label points to an item. */
  method Pointed(ctx: Context, c: Item) returns (p: bool)
    ensures p <==> exists l :: l in ctx.labels && ctx.labels[l].item == c
  {
    if l: string :| l in ctx.labels && ctx.labels[l].item == c {
      p := true;
    } else {
      p := false;
    }
  }

  lemma BadHere(ctx: Context, gs: Guesses, f: Forest, a: map<string, Ptr>, pos: Positions, raw: Item, view: I.View, o: nat, x: Item, d: DataHead, c: Item, rest: Item)
    requires view.Valid() && o + 16 + d.length <= view.size && d.length > 0
    requires Stands(ctx, f, a, pos, raw, view, o, Holding(view, o, x, DataOf(d), d.length, c), 16 + d.length, rest)
    requires var guess := GuessFor(gs, DataOf(d), view.Slice(o + 16, d.length).Bytes());
             guess.Fails? || (guess.AsString? && exists l :: l in ctx.labels && ctx.labels[l].item == c)
    ensures Refused(ctx.shape, ctx.labels, gs)
  {
    hide Live, Placed, Leaves, Leaf, Size, AllRefsKnown, Swap, Own, Nodes, Distinct, Around, RawBytes, RawsFull, NoInner, Faithful, Insertable, GuessFor, RefusedAt;
    hide ctx.Core;
    DataOwn(d);
    DataThere(ctx, f, a, pos, raw, view, o, Holding(view, o, x, DataOf(d), d.length, c), 16 + d.length, rest);
    assert BadData(ctx.shape, ctx.labels, gs, x);
  }

  lemma GuessedString(gs: Guesses, d: DataHead, child: seq<byte>)
    requires |child| == d.length
    ensures var guess := GuessFor(gs, DataOf(d), child);
            && (guess.AsTable? ==> 0 < |guess.bytes| <= d.length) && (guess.AsString? ==> TakenFor(d, child, guess.str))
  {
  }

  /** What a data item with this payload becomes; nothing if a guess fails at it. */
  function Made(gs: Guesses, d: DataHead, child: seq<byte>): (r: Option<Body>)
    requires |child| == d.length
    ensures r.Some? ==> r.value.Data? || r.value.StringData?
  {
    if d.length == 0 then Some(DataOf(d))
    else
      match GuessFor(gs, DataOf(d), child)
      case Fails => None
      case AsString(str) =>
        GuessedString(gs, d, child);
        StringFits(d, child, str);
        Some(StringOf(str, d.length))
      case _ => Some(DataOf(d))
  }

  lemma MadeMeans(gs: Guesses, d: DataHead, child: seq<byte>)
    requires |child| == d.length
    ensures d.length == 0 ==> Made(gs, d, child) == Some(DataOf(d))
    ensures d.length > 0 ==> (Made(gs, d, child).None? <==> GuessFor(gs, DataOf(d), child).Fails?)
    ensures var guess := GuessFor(gs, DataOf(d), child); d.length > 0 && (guess.Kept? || guess.AsTable?) ==> Made(gs, d, child) == Some(DataOf(d))
    ensures var guess := GuessFor(gs, DataOf(d), child);
            d.length > 0 && guess.AsString? ==> Rounded(|guess.str|) <= d.length && Made(gs, d, child) == Some(StringOf(guess.str, d.length))
  {
    hide GuessFor, StringOf, TakenFor, Rounded;
    var guess := GuessFor(gs, DataOf(d), child);
    if d.length > 0 && guess.AsString? {
      GuessedString(gs, d, child);
      StringFits(d, child, guess.str);
    }
  }

  /** What the bytes of a data item become. */
  function Becomes(gs: Guesses, b: seq<byte>): Option<Body> {
    match ReadData(b)
    case None => None
    case Some(d) => Made(gs, d, b[16..16 + d.length])
  }

  /** A label points to another place of the raw item. */
  ghost predicate PointedInto(labels: map<string, Ptr>, raw: Item, offset: nat) {
    exists l {:trigger labels[l]} :: l in labels && labels[l].item == raw && labels[l].offset != offset
  }

  lemma PointedBefore(f: Forest, a: map<string, Ptr>, b: map<string, Ptr>, raw: Item, o: nat, x: Item, c: Item)
    requires LabelsStand(f, a, b, raw, o, x) && c !in Nodes(f) && c != x && exists l {:trigger b[l]} :: l in b && b[l].item == c
    ensures PointedInto(a, raw, o)
  {
    var l :| l in b && b[l].item == c;
    assert l in a;
    assert a[l].item == raw && a[l].offset != o;
  }

  /** Looks at a new data item and puts something else in its place if a guess says so. */
  method Retype(ctx: Context, gs: Guesses, x: Item, d: DataHead, ghost c: Item, ghost f: Forest, ghost a: map<string, Ptr>, ghost pos: Positions,
                ghost raw: Item, ghost view: I.View, ghost o: nat, ghost rest: Item) returns (ok: bool, ghost top: Forest)
    requires view.Valid() && o + 16 + d.length <= view.size && d.length < 0x1_0000_0000 && c != x && rest != c && rest != x && HeaderOnly(ctx.labels, x)
    requires Stands(ctx, f, a, pos, raw, view, o, Holding(view, o, x, DataOf(d), d.length, c), 16 + d.length, rest)
    requires d.length > 0 ==> HasChild(ctx, x, DataOf(d), c, view.Slice(o + 16, d.length))
    modifies ctx, ctx.root, ctx.repr
    ensures fresh(ctx.repr - old(ctx.repr))
    ensures !ok ==> ctx.Core() && Refused(ctx.shape, ctx.labels, gs)
    ensures ok ==> Stands(ctx, f, a, pos, raw, view, o, top, 16 + d.length, rest) && AllGuessed(gs, top) && RawBytes(top) <= d.length
    ensures var m := Made(gs, d, view.Slice(o + 16, d.length).Bytes());
            if ok then top.Cons? && m == Some(top.body) else m.None? || (m.value.StringData? && PointedInto(a, raw, o))
  {
    hide Live, Placed, Leaves, Leaf, Size, AllRefsKnown, Swap, Own, Nodes, Distinct, BodyOf, Faithful, Around, Start, Insertable, Holding, Tabled, NoInner, RawsFull, RawBytes,
         LabelsStand, HasChild, TakenFor, HoldsString, Rounded, HeaderOnly, Refused, AllGuessed, GuessFor, GuessOf, Made, PointedInto, StringOf;
    hide ctx.Core;
    DataOwn(d);
    MadeMeans(gs, d, view.Slice(o + 16, d.length).Bytes());
    ok, top := true, Holding(view, o, x, DataOf(d), d.length, c);
    HoldingRaw(view, o, x, d, c);
    if d.length == 0 {
      HoldingGuessed(gs, view, o, x, DataOf(d), d.length, c);
      return;
    }
    var raws, child := Payload(ctx, x, d, c, view, o);
    GuessedString(gs, d, child);
    match GuessFor(gs, DataOf(d), child) {
      case Fails =>
        BadHere(ctx, gs, f, a, pos, raw, view, o, x, d, c, rest);
        ok := false;
      case Kept =>
        HoldingGuessed(gs, view, o, x, DataOf(d), d.length, c);
      case AsTable(bytes) =>
        var t := MakeTable(ctx, x, d, bytes, c, f, a, pos, raw, view, o, rest);
        top := Tabled(view.Slice(o + 16, d.length), x, DataOf(d), t, bytes, c);
        TabledGuessed(gs, view.Slice(o + 16, d.length), x, DataOf(d), t, bytes, c);
        TabledItem(view.Slice(o + 16, d.length), x, DataOf(d), t, bytes, c);
      case AsString(str) =>
        StringFits(d, child, str);
        var p := Pointed(ctx, raws);
        if p {
          ChildNew(f, raw, view, o, x, d, c, rest);
          PointedBefore(f, a, ctx.labels, raw, o, x, c);
          BadHere(ctx, gs, f, a, pos, raw, view, o, x, d, c, rest);
          ok := false;
        } else {
          var s := MakeString(ctx, x, d, str, c, f, a, pos, raw, view, o, rest);
          top := Cons(s, StringOf(str, d.length), Nil, Nil);
          StringGuessed(gs, s, StringOf(str, d.length));
        }
    }
  }

  lemma HoldingRaw(view: I.View, o: nat, x: Item, d: DataHead, c: Item)
    requires view.Valid() && o + 16 + d.length <= view.size && c != x
    ensures var top := Holding(view, o, x, DataOf(d), d.length, c); RawBytes(top) == d.length && top.Cons? && top.body == DataOf(d)
  {
    HoldingMeans(view, o, x, DataOf(d), d.length, c, x);
  }

  /** The payload and its bytes. */
  method Payload(ctx: Context, x: Item, d: DataHead, ghost c: Item, ghost view: I.View, ghost o: nat) returns (raws: Item, child: seq<byte>)
    requires view.Valid() && o + 16 + d.length <= view.size && HasChild(ctx, x, DataOf(d), c, view.Slice(o + 16, d.length))
    ensures raws == c && child == view.Slice(o + 16, d.length).Bytes() && |child| == d.length
  {
    raws := x.children[0];
    child := raws.body.view.Bytes();
  }
}
