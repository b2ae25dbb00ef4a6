/** A tree of items with its labels and its position index. */
module StcmContexts {
  import opened Bytes
  import opened Words
  import I = Items
  import R = Registry
  import S = Slices
  import C = Contexts
  import SF = SplitFacts
  import Names
  import P = StcmParams
  import opened StcmInstructions
  import opened StcmFormat
  import opened StcmStrings
  import opened Trees
  import opened Relink
  import opened TreeEdits
  import opened TreeHeaps
  import opened TreeSplits

  /** Labels have only been added. */
  ghost predicate Extends(before: map<string, Ptr>, after: map<string, Ptr>) {
    forall l :: l in before ==> l in after && after[l] == before[l]
  }

  lemma AllInMore(ls: seq<string>, a: set<string>, b: set<string>)
    requires AllIn(ls, a) && a <= b
    ensures AllIn(ls, b)
  {
  }

  lemma {:induction false} RefsMore(f: Forest, a: set<string>, b: set<string>)
    requires AllRefsKnown(f, a) && a <= b
    ensures AllRefsKnown(f, b)
  {
    if f.Cons? {
      RefsMore(f.kids, a, b);
      RefsMore(f.rest, a, b);
    }
  }

  /** Positions agree where both have the label. */
  ghost predicate Agree(known: set<string>, a: Positions, b: Positions) {
    forall l :: l in known ==> l in a && l in b && a[l] == b[l]
  }

  lemma AgreeTransitive(known: set<string>, a: Positions, more: set<string>, b: Positions, c: Positions)
    requires Agree(known, a, b) && Agree(more, b, c) && known <= more
    ensures Agree(known, a, c)
  {
  }

  lemma Resolve48Agrees(p: P.Param48<string>, known: set<string>, a: Positions, b: Positions)
    requires AllIn(Labels48(p), known) && Agree(known, a, b)
    ensures Resolve48(p, a) == Resolve48(p, b)
  {
    assert p.MemOffset? ==> Labels48(p)[0] == p.target;
  }

  lemma ParamAgrees(p: P.Param<string>, known: set<string>, a: Positions, b: Positions)
    requires AllIn(LabelsOfParam(p), known) && Agree(known, a, b)
    ensures ResolveParam(p, a) == ResolveParam(p, b)
  {
    hide AllIn, LabelsOfParam, Resolve48;
    MemoryLabels(p, known);
    match p {
      case Memory(t, p4, p8) =>
        Resolve48Agrees(p4, known, a, b);
        Resolve48Agrees(p8, known, a, b);
      case Through(i, p8) => Resolve48Agrees(p8, known, a, b);
      case _ =>
    }
  }

  lemma ParamsAgree(ps: seq<P.Param<string>>, known: set<string>, a: Positions, b: Positions)
    requires ParamsKnown(ps, known) && Agree(known, a, b)
    ensures ResolveParams(ps, a) == ResolveParams(ps, b)
  {
    hide ResolveParam, LabelsOfParam, Agree, AllIn;
    forall i | 0 <= i < |ps|
      ensures ResolveParam(ps[i], a) == ResolveParam(ps[i], b)
    {
      ParamAgrees(ps[i], known, a, b);
    }
  }

  /** What an item dumps depends on the positions of its own labels only. */
  lemma OwnBytesAgree(b: Body, size: nat, known: set<string>, pos: Positions, pos': Positions)
    requires RefsKnown(b, known) && Agree(known, pos, pos')
    ensures OwnBytes(b, size, pos) == OwnBytes(b, size, pos')
  {
    hide EncWords, InstrBytes, ResolveParams, StringBytes;
    match b {
      case Instruction(i) => ParamsAgree(i.params, known, pos, pos');
      case _ =>
    }
  }

  lemma OwnFaithfulAgrees(b: Body, size: nat, at: nat, known: set<string>, pos: Positions, pos': Positions, file: seq<byte>)
    requires RefsKnown(b, known) && Agree(known, pos, pos') && OwnFaithful(b, size, at, pos, file)
    ensures OwnFaithful(b, size, at, pos', file)
  {
    hide OwnBytes, RefsKnown, Agree, StringThere;
    OwnBytesAgree(b, size, known, pos, pos');
  }

  lemma {:induction false} FaithfulAgrees(f: Forest, at: nat, known: set<string>, pos: Positions, pos': Positions, file: seq<byte>)
    requires AllRefsKnown(f, known) && Agree(known, pos, pos') && Faithful(f, at, pos, file)
    ensures Faithful(f, at, pos', file)
  {
    hide OwnBytes, Own, OwnFaithful, RefsKnown, Agree;
    if f.Cons? {
      OwnFaithfulAgrees(f.body, Own(f.body) + Size(f.kids), at, known, pos, pos', file);
      FaithfulAgrees(f.kids, at + Own(f.body), known, pos, pos', file);
      FaithfulAgrees(f.rest, at + Own(f.body) + Size(f.kids), known, pos, pos', file);
    }
  }

  lemma MemoryKnown(p: P.Param<string>, known: set<string>)
    requires p.Memory? && p.target in known && AllIn(Labels48(p.param4), known) && AllIn(Labels48(p.param8), known)
    ensures AllIn(LabelsOfParam(p), known)
  {
  }

  lemma ParamsStayKnown(ps: seq<P.Param<string>>, a: set<string>, b: set<string>)
    requires ParamsKnown(ps, a) && a <= b
    ensures ParamsKnown(ps, b)
  {
  }

  /** The target of an instruction stays where it is as labels are added. */
  lemma TargetStays(t: Target<string>, ps: seq<P.Param<string>>, known: set<string>, pos: Positions, more: set<string>, pos': Positions)
    requires Agree(known, pos, pos') && known <= more && ParamsKnown(ps, more) && (t.Call? ==> t.target in known)
    ensures RefsKnown(Instruction(Instr(t, ps)), more)
    ensures Resolve(Instr(t, ps), pos').target == match t case Opcode(n) => Opcode(n) case Call(l) => Call(At(pos, l))
    ensures Resolve(Instr(t, ps), pos').params == ResolveParams(ps, pos')
  {
    hide ResolveParams, ParamsKnown;
  }

  lemma NoParams(ps: seq<P.Param<string>>, b: seq<byte>, known: set<string>, pos: Positions, fileSize: nat)
    requires ps == []
    ensures ParamsKnown(ps, known) && ReadParams(b, 0, fileSize) == Some(ResolveParams(ps, pos))
  {
  }

  /** One parameter more has been read, or none can be. */
  lemma ReadMore(b: seq<byte>, i: nat, n: nat, fileSize: nat)
    requires i < n && ParamSize * n <= |b| && ReadParams(b, i, fileSize).Some?
    ensures var p := P.Decode(ReadWords(b[ParamSize * i..]), fileSize);
            if p.Some? then ReadParams(b, i + 1, fileSize) == Some(ReadParams(b, i, fileSize).value + [p.value])
            else ReadParams(b, n, fileSize).None?
  {
    hide P.Decode, ReadWords;
    if P.Decode(ReadWords(b[ParamSize * i..]), fileSize).None? {
      StillNone(b, i + 1, n, fileSize);
    }
  }

  lemma {:induction false} StillNone(b: seq<byte>, i: nat, n: nat, fileSize: nat)
    requires i <= n && ParamSize * n <= |b| && ReadParams(b, i, fileSize).None?
    ensures ReadParams(b, n, fileSize).None?
    decreases n - i
  {
    hide P.Decode, ReadWords;
    if i < n {
      StillNone(b, i + 1, n, fileSize);
    }
  }

  /** The place of an item in a list. */
  method IndexIn(list: seq<Item>, x: Item) returns (i: nat)
    requires x in list
    ensures i < |list| && list[i] == x && forall j :: 0 <= j < i ==> list[j] != x
  {
    i := 0;
    while list[i] != x
      invariant i < |list| && x in list[i..] && forall j :: 0 <= j < i ==> list[j] != x
      decreases |list| - i
    {
      i := i + 1;
    }
  }

  lemma Inserted(a: seq<Item>, b: seq<Item>, c: seq<Item>, x: Item)
    ensures var s := a + b + c;
            |a| + |b| <= |s| && s[..|a| + |b|] + [x] + s[|a| + |b|..] == a + (b + [x]) + c
  {
    assert (a + b + c)[..|a| + |b|] == a + b && (a + b + c)[|a| + |b|..] == c;
  }

  /** Labels keep their offsets when one piece takes the place of an item. */
  lemma WholeHoused(labels: map<string, Ptr>, raw: Item, size: nat, nitem: Item)
    requires forall l {:trigger labels[l]} :: l in labels && labels[l].item == raw ==> labels[l].offset < size
    ensures S.Ascending([0, size]) && AllHoused(labels, raw, [0, size])
    ensures CutLabels(labels, raw, [nitem], [0, size]) ==
              map l | l in labels :: if labels[l].item == raw then Ptr(nitem, labels[l].offset) else labels[l]
  {
    var at := [0, size];
    assert forall o: nat :: S.Home(at, o, 1) == 1;
    assert forall o: nat :: o < size ==> S.Takes(at, 0, o) && S.Home(at, o, 0) == 0;
  }

  /** The pieces of a cut take every label that was inside. */
  lemma PartHoused(labels: map<string, Ptr>, raw: Item, pos: nat, len: nat, size: nat)
    requires pos + len <= size && (len > 0 || pos == size)
    requires forall l {:trigger labels[l]} :: l in labels && labels[l].item == raw ==> labels[l].offset < size
    ensures var at := SF.SplitAt(pos, len, size); S.Ascending(at) && at[0] == 0 && AllHoused(labels, raw, at)
  {
    var at := SF.SplitAt(pos, len, size);
    forall l | l in labels && labels[l].item == raw
      ensures S.Housed(at, labels[l].offset)
    {
      S.HomeExists(at, labels[l].offset);
    }
  }

  /** The pieces of a cut and where they start. */
  lemma PartItems(raw: Item, nitem: Item, rest: Item, pos: nat, len: nat, size: nat)
    requires raw != nitem && rest != raw && rest != nitem && pos + len <= size && (pos != 0 || len != size)
    ensures var items, at := SF.SplitItems(raw, nitem, rest, pos, len, size), SF.SplitAt(pos, len, size);
            && |items| + 1 == |at| && |items| > 1
            && (forall a, b :: 0 <= a < b < |items| ==> items[a] != items[b])
            && (forall a {:trigger items[a]} :: 0 <= a < |items| ==> items[a] == raw || items[a] == nitem || items[a] == rest)
            && (pos == 0 ==> items[0] == nitem && at[0] == 0 && items[1] == raw && at[1] == len)
            && (pos != 0 ==> items[0] == raw && at[0] == 0 && items[1] == nitem && at[1] == pos)
            && (pos != 0 && pos + len < size ==> |items| == 3 && items[2] == rest && at[2] == pos + len && at[3] == size)
            && (pos == 0 ==> |items| == 2 && at[2] == size) && (pos != 0 ==> at[2] == pos + len)
            && (pos != 0 && pos + len == size ==> |items| == 2)
  {
  }

  /** The pieces of a cut stand on their own. */
  lemma PartAlone(p: Item, raw: Item, view: I.View, pos: nat, nitem: Item, nb: Body, rest: Item, base: nat)
    requires view.Valid() && pos + Own(nb) <= view.size && (pos != 0 || Own(nb) < view.size)
    requires nitem.body == nb && nitem.children == [] && nitem.parent == p && nitem.position == base + pos
    requires raw.children == [] && raw.parent == p && raw.position == base + if pos == 0 then Own(nb) else 0
    requires raw.body == Raw(if pos == 0 then view.Slice(Own(nb), view.size - Own(nb)) else view.Slice(0, pos))
    requires pos != 0 && pos + Own(nb) < view.size ==> rest.children == [] && rest.parent == p && rest.position == base + pos + Own(nb)
    requires pos != 0 && pos + Own(nb) < view.size ==> rest.body == Raw(view.Slice(pos + Own(nb), view.size - pos - Own(nb)))
    ensures PiecesAlone(p, raw, view, pos, nitem, nb, rest, base)
  {
  }

  lemma PiecesStand(p: Item, raw: Item, view: I.View, pos: nat, nitem: Item, nb: Body, rest: Item, base: nat)
    requires view.Valid() && pos + Own(nb) <= view.size && PiecesAlone(p, raw, view, pos, nitem, nb, rest, base)
    requires raw != nitem && rest != raw && rest != nitem && (pos != 0 || Own(nb) != view.size)
    ensures var items, at := SF.SplitItems(raw, nitem, rest, pos, Own(nb), view.size), SF.SplitAt(pos, Own(nb), view.size);
            |items| + 1 == |at| && PiecesAt(items, at, base)
  {
    hide SF.SplitItems, SF.SplitAt, FixedSize;
    PartItems(raw, nitem, rest, pos, Own(nb), view.size);
  }

  lemma PartReindexed(pmap: map<nat, Item>, raw: Item, base: nat, items: seq<Item>, at: seq<nat>)
    requires |items| + 1 == |at| && |items| > 0 && at[0] == 0 && forall q {:trigger pmap[q]} :: q in pmap && pmap[q] == raw ==> q == base
    ensures Reindexed(pmap, S.Emplaced(C.Unindexed(pmap, raw, base), base, items, at, |items|), raw, base, items, at)
  {
    hide EntryOf, S.Emplaced;
    var index := C.Unindexed(pmap, raw, base);
    EmplacedEntries(index, base, items, at, |items|);
    var r := S.Emplaced(index, base, items, at, |items|);
    assert base + at[0] == base && base in r;
    forall p | p in pmap
      ensures p in r && (p in index ==> pmap[p] != raw)
    {
      assert p != base ==> p in index;
    }
  }

  /** The state before a cut. */
  datatype Cutting = Cutting(shape: Forest, parent: Item, raw: Item, view: I.View, pos: nat, nitem: Item, nb: Body,
                             others: set<Item>, labels: map<string, Ptr>, index: map<nat, Item>, base: nat, positions: Positions)

  lemma RootList(f: Forest, root: Item)
    ensures ListOf(f, root, root) == Heads(f)
  {
  }

  lemma LoneLive(c: Item, x: Item)
    requires c.parent == x && c.children == []
    ensures Live(Cons(c, c.body, Nil, Nil), x)
  {
  }

  lemma OwnHeader(b: Body)
    requires b.Instruction? || b.Data?
    ensures Own(b) >= 16
  {
  }

  /** The pieces of the raw item behind an item that takes the first `size` bytes in. */
  ghost function MovePieces(t: Item, view: I.View, size: nat, c: Item, rest: Item): Forest
    requires view.Valid() && size <= view.size
  {
    SplitForest(t, view, 0, c, Raw(view.Slice(0, size)), rest)
  }

  lemma RawSize(b: Body)
    requires b.Raw?
    ensures Own(b) == b.view.size
  {
  }

  lemma {:induction false} BehindOther(f: Forest, x: Item)
    requires Distinct(f) && Behind(f, x).Cons?
    ensures Behind(f, x).item != x && Behind(f, x).item in Nodes(f)
  {
    BehindIn(f.kids, x);
    BehindIn(f.rest, x);
    if f.item != x {
      if x in Nodes(f.kids) {
        BehindOther(f.kids, x);
      } else {
        BehindOther(f.rest, x);
      }
    }
  }

  /** After the cut the first piece is right behind. */
  lemma MovedBehind(f: Forest, x: Item, t: Item, view: I.View, size: nat, c: Item, rest: Item)
    requires Distinct(f) && Leaf(f, t) && x in Nodes(f) && x != t && Behind(f, x).Cons? && Behind(f, x).item == t
    requires view.Valid() && size <= view.size && c !in Nodes(f) && rest != c && rest != t && rest !in Nodes(f)
    ensures var now := Behind(Swap(f, t, MovePieces(t, view, size, c, rest)), x);
            now.Cons? && now.item == c && c in Nodes(MovePieces(t, view, size, c, rest)) && Nodes(MovePieces(t, view, size, c, rest)) <= {t, c, rest}
  {
    hide Leaf, Behind, Swap;
    var g := MovePieces(t, view, size, c, rest);
    assert t in Nodes(f) by {
      BehindOther(f, x);
    }
    SplitMeans(t, view, 0, c, Raw(view.Slice(0, size)), rest, {});
    BehindSwap(f, x, t, g);
  }

  lemma OneKid(f: Forest, c: Item)
    requires f.Cons? && f.rest.Nil? && Heads(f.kids) == [c] && Live(f.kids, f.item) && c.children == []
    ensures f.kids == Cons(c, c.body, Nil, Nil) && Size(f) == Own(f.body) + Own(c.body)
  {
    HeadsEmpty(f.kids);
    assert Heads(f.kids) == [f.kids.item] + Heads(f.kids.rest);
    assert Heads(f.kids)[0] == f.kids.item && Heads(f.kids)[1..] == Heads(f.kids.rest);
    HeadsNone(f.kids.rest);
    HeadsNone(f.kids.kids);
  }

  lemma LoneString(s: Item)
    requires s.body.StringData?
    ensures var g := Cons(s, s.body, Nil, Nil);
            Size(g) == Own(s.body) && Placed(g, s.position) && forall known :: AllRefsKnown(g, known)
  {
  }

  /** Labels to an item go over to one of these; all others stay. */
  ghost predicate LabelsOver(a: map<string, Ptr>, b: map<string, Ptr>, t: Item, pieces: set<Item>) {
    && b.Keys == a.Keys && (forall l {:trigger b[l]} :: l in a && a[l].item != t ==> b[l] == a[l])
    && (forall l {:trigger b[l]} :: l in a && a[l].item == t ==> b[l].item in pieces)
  }

  /** Labels into a cut raw item go to the new one if they point to its bytes, and to some piece otherwise; all others stay. */
  ghost predicate LabelsSplit(a: map<string, Ptr>, b: map<string, Ptr>, raw: Item, pos: nat, len: nat, nitem: Item, pieces: set<Item>) {
    && b.Keys == a.Keys && (forall l {:trigger b[l]} :: l in a && a[l].item != raw ==> b[l] == a[l])
    && (forall l {:trigger b[l]} :: l in a && a[l].item == raw && pos <= a[l].offset < pos + len ==> b[l] == Ptr(nitem, a[l].offset - pos))
    && (forall l {:trigger b[l]} :: l in b && b[l].item == nitem && len > 0 ==> b[l].offset < len)
    && (forall l {:trigger b[l]} :: l in a && a[l].item == raw ==> b[l].item in pieces)
  }

  class Context {
    /** Its children are the items of the file. */
    const root: Item
    var pmap: map<nat, Item>
    var labels: map<string, Ptr>
    ghost var shape: Forest
    ghost var repr: set<Item>
    ghost const file: seq<byte>
    /** Where disassembly starts. */
    ghost const starts: Starts

    constructor (ghost file: seq<byte>, ghost starts: Starts)
      ensures this.file == file && this.starts == starts && fresh(root) && root.position == 0
      ensures Shaped() && Labelled() && shape == Nil && labels == map[] && pmap == map[]
    {
      root := new Item(Root);
      this.file, this.starts, pmap, labels, shape, repr := file, starts, map[], map[], Nil, {};
    }

    /** The heap holds the tree, each item once. */
    ghost predicate Shaped()
      reads this`shape, this`repr, root, repr
    {
      && repr == Nodes(shape) && root.body == Root && root.children == Heads(shape) && root !in Nodes(shape)
      && Live(shape, root) && Distinct(shape) && Leaves(shape)
    }

    /** The labels that are used exist and point into the tree. */
    ghost predicate Labelled()
      reads this`shape, this`repr, this`labels
    {
      && AllRefsKnown(shape, labels.Keys)
      && forall l {:trigger labels[l]} :: l in labels ==> labels[l].item in repr
    }

    /** What the items weigh together: less than the file once strings have left bytes out. */
    ghost function Total(): nat
      reads this`shape
    {
      Size(Tight(shape))
    }

    /** Starts with one item that is the whole file. */
    method SetupParseFrom(item: Item)
      requires Shaped() && shape == Nil && labels == map[] && item != root && item.children == [] && BodyOk(item.body) && Own(item.body) == |file| && RefsKnown(item.body, {})
      modifies this`pmap, this`shape, this`repr, root`children, item`parent
      ensures Shaped() && Labelled() && shape == Cons(item, item.body, Nil, Nil) && repr == {item} && pmap == map[0 := item]
    {
      pmap := map[0 := item];
      root.children := [item];
      item.parent := root;
      shape := Cons(item, item.body, Nil, Nil);
      repr := {item};
    }

    /** Every raw item ends where an entry is, or at the end of the file; labels into it point at its bytes. */
    ghost predicate RawsIndexed()
      reads this`pmap, this`repr, repr
    {
      forall n {:trigger n in repr} :: n in repr && n.body.Raw? && Own(n.body) > 0 ==>
        n.position + Own(n.body) in pmap || n.position + Own(n.body) == |file|
    }

    /** The entries of the index lead to items of the tree at their positions. */
    ghost predicate EntriesRight()
      reads this`pmap, this`repr, repr
    {
      0 in pmap && forall p {:trigger pmap[p]} :: p in pmap ==> pmap[p] in repr && pmap[p].position == p
    }

    /** No label points behind the bytes of a raw item. */
    ghost predicate LabelsInside()
      reads this`labels, this`repr, repr
    {
      forall l {:trigger labels[l]} :: l in labels && labels[l].item in repr && labels[l].item.body.Raw? ==>
        labels[l].offset < Own(labels[l].item.body)
    }

    /** The state of a tree that is being disassembled. */
    ghost predicate Core()
      reads this, root, repr
    {
      && Shaped() && Labelled() && Placed(shape, 0) && Size(shape) == |file|
      && RawsIndexed() && EntriesRight() && LabelsInside()
    }

    /** The item with the greatest indexed position not above `pos`. */
    method GetPointer(pos: nat) returns (it: Item, offset: nat)
      requires EntriesRight()
      ensures it in repr && it.position + offset == pos && R.Floor(pmap, pos) == Some(it.position)
      ensures RawsIndexed() && |file| in pmap && it.body.Raw? && Own(it.body) > 0 ==> offset < Own(it.body)
    {
      var key := R.Floor(pmap, pos).value;
      it, offset := pmap[key], pos - key;
    }

    /** A label at this place, if there is one. */
    method LabelAt(it: Item, offset: nat) returns (r: Option<string>)
      ensures r.Some? ==> r.value in labels && labels[r.value] == Ptr(it, offset)
      ensures r.None? ==> forall l :: l in labels ==> labels[l] != Ptr(it, offset)
    {
      if l: string :| l in labels && labels[l] == Ptr(it, offset) {
        r := Some(l);
      } else {
        r := None;
      }
    }

    /** A disassembly state that can be labelled: the end of the file is indexed and no raw item is empty. */
    ghost predicate Parsable()
      reads this, root, repr
    {
      Core() && |file| in pmap && forall n {:trigger n in repr} :: n in repr && n.body.Raw? ==> Own(n.body) > 0
    }

    method AddLabel(l: string, it: Item, offset: nat)
      requires Parsable() && l !in labels && it in repr && (it.body.Raw? ==> offset < Own(it.body))
      modifies this`labels
      ensures Parsable() && labels == old(labels)[l := Ptr(it, offset)]
    {
      hide Shaped, Placed, Size, AllRefsKnown, RawsIndexed, EntriesRight;
      RefsMore(shape, labels.Keys, labels.Keys + {l});
      labels := labels[l := Ptr(it, offset)];
      assert labels.Keys == old(labels.Keys) + {l};
    }

    /** A new label at a file position, under the first variant of a name that is free. */
    method CreateLabelFallback(name: string, pos: nat) returns (l: string, ghost i: nat)
      requires Parsable()
      modifies this`labels
      ensures Parsable() && l !in old(labels) && labels.Keys == old(labels.Keys) + {l} && Extends(old(labels), labels)
      ensures l == Names.Variant(name, i) && forall j :: 0 <= j < i ==> Names.Variant(name, j) in old(labels)
      ensures labels[l].item.position + labels[l].offset == pos && R.Floor(pmap, pos) == Some(labels[l].item.position)
      ensures Agree(old(labels.Keys), old(PositionsOf(labels)), PositionsOf(labels)) && At(PositionsOf(labels), l) == pos
    {
      hide Shaped, Placed, Size, AllRefsKnown, RawsIndexed, LabelsInside, R.Floor, Names.Variant;
      var it, offset := GetPointer(pos);
      l, i := C.FreeName(labels.Keys, name);
      AddLabel(l, it, offset);
    }

    /** A label at a file position: the one that is there, or a new one with a free name. */
    method GetLabelTo(pos: nat) returns (l: string)
      requires Parsable()
      modifies this`labels
      ensures Parsable() && Extends(old(labels), labels)
      ensures l in labels && ToFilePos(labels, l) == pos && R.Floor(pmap, pos) == Some(labels[l].item.position)
      ensures l !in old(labels) ==> forall k :: k in old(labels) ==> old(labels)[k] != labels[l]
      ensures l !in old(labels) ==> Names.FirstFree(l, Names.LocName(pos), old(labels).Keys)
      ensures Agree(old(labels.Keys), old(PositionsOf(labels)), PositionsOf(labels)) && At(PositionsOf(labels), l) == pos
    {
      hide Shaped, Placed, Size, AllRefsKnown, RawsIndexed, LabelsInside, R.Floor, Names.LocName, Names.Variant, Names.FirstFree;
      var it, offset := GetPointer(pos);
      var found := LabelAt(it, offset);
      if found.Some? {
        l := found.value;
      } else {
        ghost var i;
        l, i := C.FreeName(labels.Keys, Names.LocName(pos));
        Names.IsFirst(l, Names.LocName(pos), labels.Keys, i);
        AddLabel(l, it, offset);
      }
    }

    /** Labels have been added, nothing else has changed. */
    twostate predicate Labelling()
      reads this, root, repr
    {
      && Parsable() && Extends(old(labels), labels)
      && Agree(old(labels.Keys), old(PositionsOf(labels)), PositionsOf(labels))
    }

    /** The second or third word of a parameter, with a label for its target. */
    method Label48(x: P.word) returns (r: P.Param48<string>)
      requires Parsable() && P.Decode48(x).Some?
      modifies this`labels
      ensures Labelling() && AllIn(Labels48(r), labels.Keys)
      ensures Resolve48(r, PositionsOf(labels)) == P.Decode48(x).value
    {
      hide Shaped, Labelled, Placed, RawsIndexed, EntriesRight, LabelsInside, R.Floor;
      match P.TypeTag(x) {
        case 0 =>
          var l := GetLabelTo(P.Value(x));
          r := P.MemOffset(l);
        case 1 => r := P.Immediate(P.Value(x));
        case 2 => r := P.Indirect(P.Value(x));
        case _ =>
          if P.OnStack(x) {
            r := P.ReadStack(x - P.ReadStackMin);
          } else {
            r := P.Read4ac(x - P.Read4acMin);
          }
      }
    }

    method LabelMemory(w: P.Words) returns (r: P.Param<string>)
      requires Parsable() && P.Decode48(w.p4).Some? && P.Decode48(w.p8).Some?
      modifies this`labels
      ensures Labelling() && AllIn(LabelsOfParam(r), labels.Keys)
      ensures ResolveParam(r, PositionsOf(labels)) == P.Memory(P.Value(w.p0), P.Decode48(w.p4).value, P.Decode48(w.p8).value)
    {
      hide Parsable, AllIn, Labels48, Resolve48, R.Floor, P.Decode48, P.Value, PositionsOf;
      var l := GetLabelTo(P.Value(w.p0));
      ghost var first, firstAt := labels.Keys, PositionsOf(labels);
      var p4 := Label48(w.p4);
      ghost var mid, midAt := labels.Keys, PositionsOf(labels);
      var p8 := Label48(w.p8);
      Resolve48Agrees(p4, mid, midAt, PositionsOf(labels));
      AllInMore(Labels48(p4), mid, labels.Keys);
      r := P.Memory(l, p4, p8);
      MemoryKnown(r, labels.Keys);
    }

    method LabelSpecial(w: P.Words) returns (r: P.Param<string>)
      requires Parsable() && P.Valid(w, Total()) && P.TypeTag(w.p0) == 3
      modifies this`labels
      ensures Labelling() && AllIn(LabelsOfParam(r), labels.Keys)
      ensures P.Decode(w, Total()) == Some(ResolveParam(r, PositionsOf(labels)))
    {
      hide Parsable, R.Floor, P.Decode48, P.Value, P.TypeTag;
      if P.OnStack(w.p0) {
        r := P.Stack(w.p0 - P.ReadStackMin);
      } else if P.In4ac(w.p0) {
        r := P.Four(w.p0 - P.Read4acMin);
      } else {
        var l := GetLabelTo(w.p4);
        r := if w.p0 == P.InstrPtr0At then P.InstrPtr0(l) else if w.p0 == P.InstrPtr1At then P.InstrPtr1(l)
             else if w.p0 == P.CollLinkAt then P.CollLink(l) else P.Expansion(l);
      }
    }

    /** A parameter with labels for its targets; None if it is not valid. */
    method LabelParam(w: P.Words) returns (r: Option<P.Param<string>>)
      requires Parsable()
      modifies this`labels
      ensures Labelling() && (r.Some? <==> P.Decode(w, Total()).Some?)
      ensures r.Some? ==> AllIn(LabelsOfParam(r.value), labels.Keys)
      ensures r.Some? ==> P.Decode(w, Total()) == Some(ResolveParam(r.value, PositionsOf(labels)))
    {
      hide Shaped, Labelled, Placed, RawsIndexed, EntriesRight, LabelsInside, AllIn, Labels48, R.Floor, P.Decode48, P.Value, P.TypeTag, P.Valid;
      var size := FileSize();
      P.DecodedDumpsSame(w, size);
      P.ValidTags(w, size);
      if !P.Valid(w, size) {
        return None;
      }
      match P.TypeTag(w.p0) {
        case 0 =>
          var p := LabelMemory(w);
          r := Some(p);
        case 2 =>
          var p8 := Label48(w.p8);
          r := Some(P.Through(P.Value(w.p0), p8));
        case _ =>
          var p := LabelSpecial(w);
          r := Some(p);
      }
    }

    /** One more parameter behind those that have been read. */
    method LabelNext(ps: seq<P.Param<string>>, w: P.Words) returns (r: Option<seq<P.Param<string>>>)
      requires Parsable() && ParamsKnown(ps, labels.Keys)
      modifies this`labels
      ensures Labelling() && (r.Some? <==> P.Decode(w, Total()).Some?)
      ensures r.Some? ==> ParamsKnown(r.value, labels.Keys)
      ensures r.Some? ==> ResolveParams(r.value, PositionsOf(labels)) == old(ResolveParams(ps, PositionsOf(labels))) + [P.Decode(w, Total()).value]
    {
      hide Parsable, R.Floor, P.Decode, PositionsOf, AllIn, LabelsOfParam, ResolveParam, Agree;
      ghost var known, pos := labels.Keys, PositionsOf(labels);
      var p := LabelParam(w);
      if p.None? {
        return None;
      }
      r := Some(ps + [p.value]);
      ParamsAgree(ps, known, pos, PositionsOf(labels));
      ParamsStayKnown(ps, known, labels.Keys);
    }

    /** The parameters behind a header, with labels for their targets. */
    method LabelParams(b: seq<byte>, n: nat) returns (r: Option<seq<P.Param<string>>>)
      requires Parsable() && ParamSize * n <= |b|
      modifies this`labels
      ensures Labelling() && (r.Some? <==> ReadParams(b, n, Total()).Some?)
      ensures r.Some? ==> ParamsKnown(r.value, labels.Keys) && ReadParams(b, n, Total()) == Some(ResolveParams(r.value, PositionsOf(labels)))
    {
      hide Parsable, R.Floor, P.Decode, PositionsOf, AllIn, LabelsOfParam, ResolveParam, ReadWords, ResolveParams, ParamsKnown;
      LabellingSelf();
      ghost var fileSize := Total();
      var params: seq<P.Param<string>> := [];
      NoParams(params, b, labels.Keys, PositionsOf(labels), fileSize);
      for i := 0 to n
        invariant Labelling() && ParamsKnown(params, labels.Keys)
        invariant ReadParams(b, i, fileSize) == Some(ResolveParams(params, PositionsOf(labels)))
      {
        var w := ReadWords(b[ParamSize * i..]);
        var more := LabelNext(params, w);
        ReadMore(b, i, n, fileSize);
        if more.None? {
          return None;
        }
        params := more.value;
      }
      r := Some(params);
    }

    /** The instruction at the start of `b` with labels for its targets. */
    method ParseInstruction(b: seq<byte>) returns (r: Option<Instr<string>>, size: nat)
      requires Parsable()
      modifies this`labels
      ensures Labelling() && (r.Some? <==> ReadInstr(b, Total()).Some?)
      ensures r.Some? ==> RefsKnown(Instruction(r.value), labels.Keys)
      ensures r.Some? ==> ReadInstr(b, Total()) == Some(Read(Resolve(r.value, PositionsOf(labels)), size))
    {
      hide Shaped, Labelled, Placed, RawsIndexed, EntriesRight, LabelsInside, R.Floor, P.Decode, PositionsOf, ReadParams, DecWords, Sum, ResolveParams, ParamsKnown, RefsKnown;
      Sums();
      var fileSize := FileSize();
      LabellingSelf();
      ghost var known0, pos0 := labels.Keys, PositionsOf(labels);
      if |b| < HeaderSize {
        return None, 0;
      }
      var h := DecWords(true, HeaderWords, b);
      size := h[3];
      if |b| < size || !HeaderValid(h, fileSize) {
        return None, size;
      }
      var target := Opcode(P.Trunc(h[1]));
      if h[0] == 1 {
        var l := GetLabelTo(h[1]);
        target := Call(l);
      }
      ghost var known, pos := labels.Keys, PositionsOf(labels);
      var params := LabelParams(b[HeaderSize..], h[2]);
      AgreeTransitive(known0, pos0, known, pos, PositionsOf(labels));
      if params.None? {
        return None, size;
      }
      TargetStays(target, params.value, known, pos, labels.Keys, PositionsOf(labels));
      r := Some(Instr(target, params.value));
    }

    twostate lemma LabellingSelf()
      requires Parsable() && labels == old(labels) && repr == old(repr) && forall n :: n in repr ==> n.position == old(n.position)
      ensures Labelling()
    {
    }

    /** The size of the file is that of all its items, as they would be written. */
    method FileSize() returns (size: nat)
      requires Shaped()
      ensures size == Total()
    {
      size := root.GetSize(shape);
    }

    /** Puts an item into a list at a position and, unless the index is off or has it, an entry for it. */
    method Insert(it: Item, pos: nat, p: Item, k: nat, indexed: bool)
      requires p != it && k <= |p.children|
      modifies it`position, it`parent, p`children, this`pmap
      ensures it.position == pos && it.parent == p && p.children == old(p.children[..k]) + [it] + old(p.children[k..])
      ensures pmap == if indexed && pos !in old(pmap) then old(pmap)[pos := it] else old(pmap)
    {
      it.position := pos;
      it.parent := p;
      p.children := p.children[..k] + [it] + p.children[k..];
      if indexed && pos !in pmap {
        pmap := pmap[pos := it];
      }
    }

    /** Puts the pieces in place of an item: labels, positions, the list and the index. */
    method Slice(raw: Item, pieces: seq<Item>, at: seq<nat>)
      requires raw.parent != null && raw in raw.parent.children && raw.parent !in pieces && raw.parent != raw
      requires |pieces| + 1 == |at| && |pieces| > 0 && S.Ascending(at) && at[0] == 0 && AllHoused(labels, raw, at)
      requires forall a, b :: 0 <= a < b < |pieces| ==> pieces[a] != pieces[b]
      modifies this`labels, this`pmap, raw`parent, raw.parent`children, pieces`position, pieces`parent
      ensures old(raw.parent).children == Spliced(old(raw.parent.children), raw, pieces)
      ensures forall j {:trigger pieces[j]} :: 0 <= j < |pieces| ==>
                pieces[j].position == old(raw.position) + at[j] && pieces[j].parent == old(raw.parent)
      ensures labels == CutLabels(old(labels), raw, pieces, at)
      ensures pmap == if old(pmap) == map[] then map[]
                      else S.Emplaced(C.Unindexed(old(pmap), raw, old(raw.position)), old(raw.position), pieces, at, |pieces|)
    {
      hide S.Ascending, S.Home, Spliced, AllHoused, CutLabels;
      var empty, p, base := pmap == map[], raw.parent, raw.position;
      var k := IndexIn(p.children, raw);
      SplicedAt(p.children, k, pieces);
      p.children := p.children[..k] + p.children[k + 1..];
      raw.parent := null;
      pmap := C.Unindexed(pmap, raw, base);
      labels := CutLabels(labels, raw, pieces, at);
      InsertAll(pieces, at, base, p, k, !empty);
    }

    /** Puts items into a list one after the other. */
    method InsertAll(pieces: seq<Item>, at: seq<nat>, base: nat, p: Item, k: nat, indexed: bool)
      requires |pieces| + 1 == |at| && k <= |p.children| && p !in pieces
      requires forall a, b :: 0 <= a < b < |pieces| ==> pieces[a] != pieces[b]
      modifies this`pmap, p`children, pieces`position, pieces`parent
      ensures p.children == old(p.children[..k]) + pieces + old(p.children[k..])
      ensures forall j {:trigger pieces[j]} :: 0 <= j < |pieces| ==> pieces[j].position == base + at[j] && pieces[j].parent == p
      ensures pmap == if indexed then S.Emplaced(old(pmap), base, pieces, at, |pieces|) else old(pmap)
    {
      ghost var was := p.children;
      assert was == was[..k] + pieces[..0] + was[k..];
      for j := 0 to |pieces|
        invariant p.children == was[..k] + pieces[..j] + was[k..]
        invariant forall i {:trigger pieces[i]} :: 0 <= i < j ==> pieces[i].position == base + at[i] && pieces[i].parent == p
        invariant pmap == if indexed then S.Emplaced(old(pmap), base, pieces, at, j) else old(pmap)
      {
        Inserted(was[..k], pieces[..j], was[k..], pieces[j]);
        assert pieces[..j] + [pieces[j]] == pieces[..j + 1];
        Insert(pieces[j], base + at[j], p, k + j, indexed);
      }
      assert pieces[..|pieces|] == pieces;
    }

    /** Puts an item in place of one of the same size. */
    method Replace(raw: Item, nitem: Item)
      requires raw.parent != null && raw in raw.parent.children && raw.parent != nitem && raw.parent != raw && nitem != raw
      modifies this`labels, this`pmap, raw`parent, raw.parent`children, nitem`position, nitem`parent
      ensures old(raw.parent).children == Spliced(old(raw.parent.children), raw, [nitem])
      ensures nitem.position == old(raw.position) && nitem.parent == old(raw.parent)
      ensures labels == map l | l in old(labels) :: if old(labels)[l].item == raw then Ptr(nitem, old(labels)[l].offset) else old(labels)[l]
      ensures pmap == if raw.position in old(pmap) && old(pmap)[raw.position] == raw then old(pmap)[raw.position := nitem] else old(pmap)
    {
      hide Spliced;
      labels := map l | l in labels :: if labels[l].item == raw then Ptr(nitem, labels[l].offset) else labels[l];
      nitem.position := raw.position;
      if raw.position in pmap && pmap[raw.position] == raw {
        pmap := pmap[raw.position := nitem];
      }
      var p := raw.parent;
      var k := IndexIn(p.children, raw);
      SplicedAt(p.children, k, [nitem]);
      p.children := p.children[..k] + [nitem] + p.children[k + 1..];
      nitem.parent := p;
      raw.parent := null;
    }

    /** `nitem` may be cut out of a raw item at `pos`. */
    ghost predicate CanSplit(raw: Item, pos: nat, nitem: Item)
      reads this, root, repr, nitem
    {
      && Core() && raw in repr && raw.body.Raw? && raw.parent != null && nitem !in repr && nitem != root && nitem.children == []
      && BodyOk(nitem.body) && RefsKnown(nitem.body, labels.Keys)
      && Weigh(nitem.body) == Own(nitem.body) && pos + Own(nitem.body) <= Own(raw.body) && (Own(nitem.body) > 0 || (pos == Own(raw.body) && !nitem.body.Raw?))
    }

    /** The list, labels and index after a cut, and the pieces. */
    twostate predicate HasCut(p: Item, raw: Item, view: I.View, pos: nat, nitem: Item, nb: Body, new rest: Item)
      reads this, p, raw, nitem, rest
    {
      && view.Valid() && pos + Own(nb) <= view.size
      && var items, at, base := SF.SplitItems(raw, nitem, rest, pos, Own(nb), view.size), SF.SplitAt(pos, Own(nb), view.size), old(raw.position);
         && p.children == Spliced(old(p.children), raw, items) && p.body == old(p.body) && p.parent == old(p.parent)
         && PiecesAlone(p, raw, view, pos, nitem, nb, rest, base)
         && |items| + 1 == |at| && S.Ascending(at) && at[0] == 0 && PiecesAt(items, at, base) && AllHoused(old(labels), raw, at)
         && labels == CutLabels(old(labels), raw, items, at) && Reindexed(old(pmap), pmap, raw, base, items, at)
    }

    /** What is needed of the heap to cut. */
    ghost predicate Cuttable(p: Item, raw: Item, view: I.View, pos: nat, nitem: Item, nb: Body)
      reads this, p, raw, nitem
    {
      && raw.parent == p && raw in p.children && p != raw && p != nitem && raw != nitem
      && raw.body == Raw(view) && raw.children == [] && nitem.body == nb && nitem.children == []
      && view.Valid() && pos + Own(nb) <= view.size && pmap != map[]
      && (forall q {:trigger pmap[q]} :: q in pmap && pmap[q] == raw ==> q == raw.position)
      && (forall l {:trigger labels[l]} :: l in labels && labels[l].item == raw ==> labels[l].offset < view.size)
    }

    /** The new item covers the raw one. */
    method CutWhole(ghost p: Item, raw: Item, ghost view: I.View, nitem: Item, ghost nb: Body, ghost rest: Item)
      requires Cuttable(p, raw, view, 0, nitem, nb) && Own(nb) == view.size && rest != raw && rest != nitem
      modifies this`labels, this`pmap, raw`parent, p`children, nitem`position, nitem`parent
      ensures HasCut(p, raw, view, 0, nitem, nb, rest)
    {
      hide Own, S.Ascending, S.Housed, Spliced;
      ghost var at := SF.SplitAt(0, view.size, view.size);
      ghost var was := labels;
      assert at == [0, view.size] && SF.SplitItems(raw, nitem, rest, 0, view.size, view.size) == [nitem];
      WholeHoused(labels, raw, view.size, nitem);
      Replace(raw, nitem);
      assert [nitem][0] == nitem && EntryOf(raw.position, nitem, raw.position, [nitem], at);
    }

    /** The new item leaves raw bytes before or behind it, or both. */
    method CutPart(ghost p: Item, raw: Item, view: I.View, pos: nat, nitem: Item, ghost nb: Body, rest: Item, len: nat)
      requires Cuttable(p, raw, view, pos, nitem, nb) && len == Own(nb) && (pos != 0 || len != view.size) && (len > 0 || pos == view.size)
      requires rest != raw && rest != nitem && rest != p
      requires pos != 0 && pos + len < view.size ==> rest.children == [] && rest.body == Raw(view.Slice(pos + len, view.size - pos - len))
      modifies this`labels, this`pmap, raw, p`children, nitem`position, nitem`parent, rest`position, rest`parent
      ensures HasCut(p, raw, view, pos, nitem, nb, rest)
    {
      hide Own, Spliced, PiecesAt, SF.SplitItems, SF.SplitAt, Reindexed, S.Emplaced, CutLabels, AllHoused, S.Ascending, C.Unindexed, PiecesAlone, I.View.Slice;
      var size := view.size;
      var items, at := SF.SplitItems(raw, nitem, rest, pos, len, size), SF.SplitAt(pos, len, size);
      PartHoused(labels, raw, pos, len, size);
      PartItems(raw, nitem, rest, pos, len, size);
      PartReindexed(pmap, raw, raw.position, items, at);
      Slice(raw, items, at);
      if pos == 0 {
        raw.body := Raw(view.Slice(len, size - len));
      } else {
        raw.body := Raw(view.Slice(0, pos));
      }
      PartAlone(p, raw, view, pos, nitem, nb, rest, old(raw.position));
      PiecesStand(p, raw, view, pos, nitem, nb, rest, old(raw.position));
    }

    /** A raw item of the tree, its list and its place. */
    lemma RawPlace(raw: Item)
      requires Core() && raw in repr && raw.body.Raw?
      ensures raw.parent == Owner(shape, root, raw) && raw in raw.parent.children && raw.parent != raw
      ensures raw.parent == root || raw.parent in repr
      ensures Leaf(shape, raw) && Sub(shape, raw).body == raw.body && raw.children == [] && raw.body.view.Valid()
      ensures raw.position == Start(shape, raw) && ListedAs(shape, root, raw.parent, ListOf(shape, root, raw.parent))
      ensures raw.parent.children == ListOf(shape, root, raw.parent)
    {
      hide Placed, Size, AllRefsKnown, RawsIndexed, EntriesRight, LabelsInside;
      OwnerIn(shape, root, raw);
      OwnerLive(shape, root, raw);
      SubLive(shape, root, raw);
      SubLeaves(shape, raw);
      PlacedAtStart(shape, raw, 0);
      if raw.parent in repr {
        LiveListed(shape, root, raw.parent);
      }
    }

    /** What is left of the state when a cut has touched the list of `raw`. */
    lemma ShapedAfter(f: Forest, p: Item, raw: Item, g: Forest)
      requires Distinct(f) && root !in Nodes(f) && Leaf(f, raw) && Leaves(f) && p == Owner(f, root, raw)
      requires LiveBut(f, root, {p, raw}) && ListedAs(f, root, p, Spliced(ListOf(f, root, p), raw, Heads(g)))
      requires Live(g, p) && Distinct(g) && Leaves(g) && root !in Nodes(g) && forall n :: n in Nodes(g) && n in Nodes(f) ==> n == raw
      requires root.body == Root && root.children == if p == root then Spliced(Heads(f), raw, Heads(g)) else Heads(f)
      requires shape == Swap(f, raw, g) && repr == Nodes(f) - {raw} + Nodes(g)
      ensures Shaped()
    {
      hide Live, LiveBut, Distinct, Leaves, Leaf, Swap, Nodes, ListedAs, Owner, ListOf;
      LeafIn(f, raw);
      OwnerIn(f, root, raw);
      SwapLive(f, root, p, raw, g);
      SwapDistinct(f, raw, g);
      SwapHeads(f, raw, g);
      if p != root {
        SplicedAbsent(Heads(f), raw, Heads(g));
      }
      SwapLeaves(f, raw, g);
    }

    /** The raw items but one end where an entry is. */
    ghost predicate OthersIndexed(others: set<Item>, index: map<nat, Item>)
      reads others`position, others`body
    {
      forall n {:trigger n in others} :: n in others && n.body.Raw? && Own(n.body) > 0 ==>
        n.position + Own(n.body) in index || n.position + Own(n.body) == |file|
    }

    /** The entries of all items but one are right. */
    ghost predicate OthersEntered(others: set<Item>, raw: Item, index: map<nat, Item>)
      reads others`position
    {
      0 in index && forall q {:trigger index[q]} :: q in index && index[q] != raw ==> index[q] in others && index[q].position == q
    }

    /** The labels of all items but one are inside. */
    ghost predicate OthersLabelled(others: set<Item>, raw: Item, was: map<string, Ptr>)
      reads others`body
    {
      forall l {:trigger was[l]} :: l in was && was[l].item != raw ==>
        was[l].item in others && (was[l].item.body.Raw? ==> was[l].offset < Own(was[l].item.body))
    }

    /** The index is right again once the pieces are in it. */
    lemma IndexedAfter(others: set<Item>, raw: Item, items: seq<Item>, at: seq<nat>, base: nat, index: map<nat, Item>)
      requires |items| + 1 == |at| && PiecesAt(items, at, base) && Reindexed(index, pmap, raw, base, items, at)
      requires OthersIndexed(others, index) && OthersEntered(others, raw, index) && (forall n :: n in repr <==> n in others || n in items)
      requires |items| > 0 && (at[|items|] > 0 ==> base + at[|items|] in index || base + at[|items|] == |file|)
      ensures RawsIndexed() && EntriesRight()
    {
      hide Own;
      forall n | n in repr && n.body.Raw? && Own(n.body) > 0
        ensures n.position + Own(n.body) in pmap || n.position + Own(n.body) == |file|
      {
        if n in items {
          var j :| 0 <= j < |items| && items[j] == n;
          assert items[j].position == base + at[j] && base + at[j + 1] == n.position + Own(n.body);
        }
      }
      forall p | p in pmap
        ensures pmap[p] in repr && pmap[p].position == p
      {
        if EntryOf(p, pmap[p], base, items, at) {
          var j :| 0 <= j < |items| && items[j] == pmap[p] && p == base + at[j];
        }
      }
    }

    /** The labels of a cut item point into its pieces. */
    lemma LabelsAfter(was: map<string, Ptr>, others: set<Item>, raw: Item, items: seq<Item>, at: seq<nat>, base: nat)
      requires |items| + 1 == |at| && S.Ascending(at) && at[0] == 0 && AllHoused(was, raw, at) && PiecesAt(items, at, base)
      requires labels == CutLabels(was, raw, items, at) && (forall n :: n in repr <==> n in others || n in items)
      requires forall j {:trigger items[j]} :: 0 <= j < |items| && items[j].body.Raw? ==> Own(items[j].body) > 0
      requires OthersLabelled(others, raw, was)
      ensures LabelsInside() && forall l {:trigger labels[l]} :: l in labels ==> labels[l].item in repr
      ensures forall l {:trigger labels[l]} :: l in labels && labels[l].item !in others && Own(labels[l].item.body) > 0 ==>
                labels[l].offset < Own(labels[l].item.body)
      ensures forall l {:trigger labels[l]} :: l in labels && was[l].item == raw ==> labels[l].item in items
    {
      hide Own, S.Ascending, S.Housed, PiecesAt, CutPtr;
      forall l | l in labels
        ensures was[l].item == raw ==> labels[l].item in items
        ensures labels[l].item in repr && (labels[l].item.body.Raw? ==> labels[l].offset < Own(labels[l].item.body))
        ensures labels[l].item !in others && Own(labels[l].item.body) > 0 ==> labels[l].offset < Own(labels[l].item.body)
      {
        assert AllHoused(was, raw, at);
        if was[l].item == raw {
          CutKeepsPosition(was[l], items, at, base);
          var j :| 0 <= j < |items| && items[j] == labels[l].item;
        }
      }
    }

    /** What a split leaves: the new item with raw ones around it in place of the raw item, and every
        label at its file position. */
    twostate predicate HasSplit(raw: Item, pos: nat, nitem: Item, new rest: Item)
      requires old(CanSplit(raw, pos, nitem))
      reads this, root, repr
    {
      && Core() && labels.Keys == old(labels.Keys) && PositionsOf(labels) == old(PositionsOf(labels))
      && (forall q {:trigger q in pmap} :: q in old(pmap) ==> q in pmap)
      && (forall n {:trigger n in old(repr)} :: n in old(repr) && n != raw ==> n in repr && n.position == old(n.position) && n.body == old(n.body))
      && (pos != 0 ==> old(raw.position) + pos in pmap)
      && old(raw.body.view.Valid()) && ReplacedBy(raw, old(raw.body.view), pos, nitem, old(nitem.body), rest)
    }

    twostate predicate ReplacedBy(raw: Item, view: I.View, pos: nat, nitem: Item, nb: Body, new rest: Item)
      requires view.Valid() && pos + Own(nb) <= view.size
      reads this
    {
      var g := SplitForest(raw, view, pos, nitem, nb, rest);
      && shape == Swap(old(shape), raw, g) && repr == old(repr) - {raw} + Nodes(g)
      && (pos != 0 && pos + Own(nb) < view.size ==> rest !in old(repr) && rest != root && rest != nitem)
      && LabelsSplit(old(labels), labels, raw, pos, Own(nb), nitem, Nodes(g))
    }

    /** Cuts in the heap, in one of the two ways. */
    method Cut(ghost p: Item, raw: Item, view: I.View, pos: nat, nitem: Item, ghost nb: Body) returns (rest: Item)
      requires Cuttable(p, raw, view, pos, nitem, nb) && Weigh(nb) == Own(nb) && (Own(nb) > 0 || pos == view.size)
      modifies this`labels, this`pmap, raw, p`children, nitem`position, nitem`parent
      ensures HasCut(p, raw, view, pos, nitem, nb, rest) && fresh(rest)
    {
      hide Own, Weigh, Reindexed, S.Ascending, AllHoused, CutLabels, PiecesAt, SF.SplitItems, SF.SplitAt, PiecesAlone;
      NilLive(nitem, 0);
      NothingYet(Nil, 0);
      NilMeans({});
      var len := nitem.GetSize(Nil);
      if pos == 0 && len == view.size {
        rest := new Item(Eof);
        CutWhole(p, raw, view, nitem, nb, rest);
      } else if pos != 0 && pos + len < view.size {
        rest := new Item(Raw(view.Slice(pos + len, view.size - pos - len)));
        CutPart(p, raw, view, pos, nitem, nb, rest, len);
      } else {
        rest := new Item(Eof);
        CutPart(p, raw, view, pos, nitem, nb, rest, len);
      }
    }

    /** What is known before a cut and still holds after it: of the tree, and of every other item. */
    ghost predicate Ready(c: Cutting)
      reads (Nodes(c.shape) - {c.parent, c.raw}), c.others`position, c.others`body
    {
      && Sound(c)
      && LiveBut(c.shape, root, {c.parent, c.raw}) && PlacedBut(c.shape, 0, c.raw)
      && OthersIndexed(c.others, c.index) && OthersEntered(c.others, c.raw, c.index) && OthersLabelled(c.others, c.raw, c.labels)
    }

    /** What is known of the tree alone. */
    ghost predicate Sound(c: Cutting) {
      && Distinct(c.shape) && Leaves(c.shape) && root !in Nodes(c.shape) && Leaf(c.shape, c.raw) && c.parent == Owner(c.shape, root, c.raw)
      && AllRefsKnown(c.shape, c.labels.Keys) && c.others == Nodes(c.shape) - {c.raw} && Size(c.shape) == |file|
      && Sub(c.shape, c.raw).body == Raw(c.view) && c.view.Valid() && c.base == Start(c.shape, c.raw)
      && (c.view.size > 0 ==> c.base + c.view.size in c.index || c.base + c.view.size == |file|)
      && c.nitem !in Nodes(c.shape) && c.nitem != root && c.nitem != c.raw && c.positions.Keys == c.labels.Keys
      && c.pos + Own(c.nb) <= c.view.size && BodyOk(c.nb) && RefsKnown(c.nb, c.labels.Keys) && (Own(c.nb) > 0 || (c.pos == c.view.size && !c.nb.Raw?))
    }

    ghost function Snapshot(raw: Item, pos: nat, nitem: Item): Cutting
      requires raw.body.Raw? && raw.parent != null
      reads this, root, repr, raw, nitem, Owners(labels)
    {
      Cutting(shape, raw.parent, raw, raw.body.view, pos, nitem, nitem.body, repr - {raw}, labels, pmap, raw.position, PositionsOf(labels))
    }

    lemma SnapshotSound(raw: Item, pos: nat, nitem: Item)
      requires CanSplit(raw, pos, nitem)
      ensures Sound(Snapshot(raw, pos, nitem))
    {
      hide Live, Placed, Distinct, Leaves, Nodes, Heads, Size, Sub, Owner, Leaf, AllRefsKnown, RefsKnown, ListOf;
      RawPlace(raw);
    }

    lemma SnapshotReady(raw: Item, pos: nat, nitem: Item)
      requires CanSplit(raw, pos, nitem)
      ensures Ready(Snapshot(raw, pos, nitem)) && repr == Nodes(shape) && root.body == Root && root.children == Heads(shape)
      ensures forall l {:trigger labels[l]} :: l in labels ==> labels[l].item in repr
      ensures ListedAs(shape, root, raw.parent, ListOf(shape, root, raw.parent)) && raw.parent.children == ListOf(shape, root, raw.parent)
      ensures raw.parent == root || raw.parent in repr
      ensures Cuttable(raw.parent, raw, raw.body.view, pos, nitem, nitem.body)
    {
      hide Live, Placed, Distinct, Leaves, Nodes, Heads, Size, Sub, Owner, Leaf, AllRefsKnown, RefsKnown, ListOf, Sound;
      SnapshotSound(raw, pos, nitem);
      RawPlace(raw);
      LiveForget(shape, root, {raw.parent, raw});
      PlacedForget(shape, 0, raw);
    }

    /** What a cut has done. */
    ghost predicate CutNow(c: Cutting, rest: Item)
      requires Sound(c)
      reads this, root, c.parent, c.raw, c.nitem, rest
    {
      var items, at := SF.SplitItems(c.raw, c.nitem, rest, c.pos, Own(c.nb), c.view.size), SF.SplitAt(c.pos, Own(c.nb), c.view.size);
      && rest !in Nodes(c.shape) && rest != root && rest != c.nitem && rest != c.raw
      && ListedAs(c.shape, root, c.parent, Spliced(ListOf(c.shape, root, c.parent), c.raw, items))
      && root.body == Root && root.children == (if c.parent == root then Spliced(Heads(c.shape), c.raw, items) else Heads(c.shape))
      && PiecesAlone(c.parent, c.raw, c.view, c.pos, c.nitem, c.nb, rest, c.base)
      && |items| + 1 == |at| && S.Ascending(at) && at[0] == 0 && PiecesAt(items, at, c.base) && AllHoused(c.labels, c.raw, at)
      && labels == CutLabels(c.labels, c.raw, items, at) && Reindexed(c.index, pmap, c.raw, c.base, items, at)
      && shape == Swap(c.shape, c.raw, Pieces(c, rest)) && repr == c.others + Nodes(Pieces(c, rest))
    }

    ghost function Pieces(c: Cutting, rest: Item): Forest
      requires Sound(c)
    {
      SplitForest(c.raw, c.view, c.pos, c.nitem, c.nb, rest)
    }

    lemma PiecesMean(c: Cutting, rest: Item)
      requires Sound(c) && CutNow(c, rest)
      ensures var g := Pieces(c, rest);
              && Heads(g) == SF.SplitItems(c.raw, c.nitem, rest, c.pos, Own(c.nb), c.view.size) && (forall n :: n in Nodes(g) <==> n in Heads(g))
              && (forall n :: n in Nodes(g) ==> n == c.raw || n == c.nitem || n == rest)
              && Distinct(g) && Leaves(g) && AllRefsKnown(g, labels.Keys) && Size(g) == c.view.size
              && Live(g, c.parent) && Placed(g, c.base) && labels.Keys == c.labels.Keys
    {
      hide Live, Placed, Distinct, Leaves, Nodes, Heads, Size, Sub, Owner, Leaf, AllRefsKnown, RefsKnown, ListOf, Start, Swap, LiveBut, PlacedBut, ListedAs, Spliced,
           Reindexed, S.Ascending, AllHoused, PiecesAt, PiecesAlone, SF.SplitItems, SF.SplitAt, BodyOk, SplitForest, Own, CutLabels;
      SplitMeans(c.raw, c.view, c.pos, c.nitem, c.nb, rest, c.labels.Keys);
      PiecesLive(c.parent, c.raw, c.view, c.pos, c.nitem, c.nb, rest, c.base);
      CutSame(c.labels, c.raw, SF.SplitItems(c.raw, c.nitem, rest, c.pos, Own(c.nb), c.view.size), SF.SplitAt(c.pos, Own(c.nb), c.view.size));
    }

    lemma AfterShaped(c: Cutting, rest: Item)
      requires Ready(c) && CutNow(c, rest)
      ensures Shaped()
    {
      hide Live, Placed, Distinct, Leaves, Nodes, Heads, Size, Sub, Owner, Leaf, AllRefsKnown, RefsKnown, ListOf, Start, Swap, LiveBut, PlacedBut, ListedAs, Spliced,
           Reindexed, S.Ascending, AllHoused, PiecesAt, PiecesAlone, SF.SplitItems, SF.SplitAt, BodyOk, Own, CutLabels, OthersIndexed, OthersEntered, OthersLabelled, Pieces, Shaped;
      PiecesMean(c, rest);
      LeafIn(c.shape, c.raw);
      ShapedAfter(c.shape, c.parent, c.raw, Pieces(c, rest));
    }

    lemma AfterPlaced(c: Cutting, rest: Item)
      requires Ready(c) && CutNow(c, rest)
      ensures Placed(shape, 0) && Size(shape) == |file| && AllRefsKnown(shape, labels.Keys)
    {
      hide Live, Placed, Distinct, Leaves, Nodes, Heads, Size, Sub, Owner, Leaf, AllRefsKnown, RefsKnown, ListOf, Start, Swap, LiveBut, PlacedBut, ListedAs, Spliced,
           Reindexed, S.Ascending, AllHoused, PiecesAt, PiecesAlone, SF.SplitItems, SF.SplitAt, BodyOk, CutLabels, OthersIndexed, OthersEntered, OthersLabelled, Pieces;
      PiecesMean(c, rest);
      var g := Pieces(c, rest);
      SwapPlaced(c.shape, 0, c.raw, g);
      SwapSize(c.shape, c.raw, g);
      SwapRefs(c.shape, c.raw, g, labels.Keys);
    }

    lemma AfterIndexed(c: Cutting, rest: Item)
      requires Ready(c) && CutNow(c, rest)
      ensures RawsIndexed() && EntriesRight() && forall q {:trigger q in pmap} :: q in c.index ==> q in pmap
      ensures c.pos != 0 ==> c.base + c.pos in pmap
    {
      hide Live, Placed, Distinct, Leaves, Nodes, Heads, Size, Sub, Owner, Leaf, AllRefsKnown, RefsKnown, ListOf, Start, Swap, LiveBut, PlacedBut, ListedAs, Spliced,
           S.Ascending, AllHoused, PiecesAt, PiecesAlone, SF.SplitItems, SF.SplitAt, BodyOk, CutLabels, OthersIndexed, OthersEntered, OthersLabelled, Pieces, Own, EntryOf;
      PiecesMean(c, rest);
      PiecesEnd(c.parent, c.raw, c.view, c.pos, c.nitem, c.nb, rest, c.base);
      var items, at := SF.SplitItems(c.raw, c.nitem, rest, c.pos, Own(c.nb), c.view.size), SF.SplitAt(c.pos, Own(c.nb), c.view.size);
      IndexedAfter(c.others, c.raw, items, at, c.base, c.index);
      if c.pos != 0 {
        PartItems(c.raw, c.nitem, rest, c.pos, Own(c.nb), c.view.size);
        assert at[1] == c.pos;
      }
    }

    lemma AfterLabelled(c: Cutting, rest: Item)
      requires Ready(c) && CutNow(c, rest)
      requires forall l {:trigger c.labels[l]} :: l in c.labels ==>
                 c.positions[l] == (if c.labels[l].item == c.raw then c.base else c.labels[l].item.position) + c.labels[l].offset
      ensures LabelsInside() && PositionsOf(labels) == c.positions && labels.Keys == c.labels.Keys
      ensures forall l {:trigger labels[l]} :: l in labels ==> labels[l].item in repr
      ensures LabelsSplit(c.labels, labels, c.raw, c.pos, Own(c.nb), c.nitem, Nodes(Pieces(c, rest)))
    {
      hide Live, Placed, Distinct, Leaves, Nodes, Heads, Size, Sub, Owner, Leaf, AllRefsKnown, RefsKnown, ListOf, Start, Swap, LiveBut, PlacedBut, ListedAs, Spliced,
           Reindexed, S.Ascending, AllHoused, PiecesAt, PiecesAlone, SF.SplitItems, SF.SplitAt, BodyOk, CutLabels, OthersIndexed, OthersEntered, OthersLabelled, Pieces, Own;
      PiecesMean(c, rest);
      PiecesEnd(c.parent, c.raw, c.view, c.pos, c.nitem, c.nb, rest, c.base);
      var items, at := SF.SplitItems(c.raw, c.nitem, rest, c.pos, Own(c.nb), c.view.size), SF.SplitAt(c.pos, Own(c.nb), c.view.size);
      LabelsAfter(c.labels, c.others, c.raw, items, at, c.base);
      CutKeepsPositions(c.labels, c.positions, c.raw, items, at, c.base);
      CutSame(c.labels, c.raw, items, at);
      NewTakesItsLabels(c.labels, c.raw, c.nitem, rest, c.pos, Own(c.nb), c.view.size);
      NewStays(c, rest);
    }

    lemma NewStays(c: Cutting, rest: Item)
      requires Sound(c) && CutNow(c, rest)
      ensures c.nitem !in c.others && c.nitem.body == c.nb
    {
      hide LiveBut, Distinct, Leaves, Size, AllRefsKnown, CutLabels, Reindexed, PiecesAt, Spliced, ListOf, Swap, SF.SplitItems, SF.SplitAt;
    }

    /** Cuts, and edits the tree as the heap was edited. */
    method CutTree(raw: Item, pos: nat, nitem: Item) returns (ghost rest: Item)
      requires CanSplit(raw, pos, nitem)
      modifies this, raw, raw.parent`children, nitem`position, nitem`parent
      ensures Ready(old(Snapshot(raw, pos, nitem))) && CutNow(old(Snapshot(raw, pos, nitem)), rest)
      ensures fresh(rest) && forall n {:trigger n in old(repr)} :: n in old(repr) && n != raw ==>
                n in repr && n.position == old(n.position) && n.body == old(n.body)
    {
      hide Shaped, Placed, RawsIndexed, EntriesRight, LabelsInside, Live, LiveBut, PlacedBut, Distinct, Leaves, Leaf, Swap, Nodes, Heads, Size, Own, Owner, ListOf, Sub,
           Reindexed, S.Ascending, AllHoused, CutLabels, PiecesAt, PiecesAlone, SF.SplitItems, SF.SplitAt, Spliced, BodyOk, RefsKnown, AllRefsKnown, OthersIndexed, OthersEntered, OthersLabelled, SplitForest, Start;
      RawPlace(raw);
      SnapshotReady(raw, pos, nitem);
      ghost var c := Snapshot(raw, pos, nitem);
      ghost var nodes := repr;
      assert nitem !in nodes && LiveBut(c.shape, root, {c.parent, c.raw});
      rest := Cut(c.parent, raw, raw.body.view, pos, nitem, c.nb);
      shape := Swap(c.shape, raw, Pieces(c, rest));
      repr := c.others + Nodes(Pieces(c, rest));
      assert forall o :: o in nodes - {c.parent, raw} ==> allocated(o) && unchanged(o);
      assert Ready(c);
    }

    lemma LabelPositions(raw: Item, pos: nat, nitem: Item)
      requires CanSplit(raw, pos, nitem)
      ensures var c := Snapshot(raw, pos, nitem);
              && (forall l {:trigger c.labels[l]} :: l in c.labels ==> c.labels[l].item in repr)
              && (forall l {:trigger c.labels[l]} :: l in c.labels ==>
                   c.positions[l] == (if c.labels[l].item == c.raw then c.base else c.labels[l].item.position) + c.labels[l].offset)
    {
    }

    /** Cuts a new item out of a raw one; what is left around it stays raw. */
    method Split2(raw: Item, pos: nat, nitem: Item) returns (ghost rest: Item)
      requires CanSplit(raw, pos, nitem)
      modifies this, raw, raw.parent`children, nitem`position, nitem`parent
      ensures HasSplit(raw, pos, nitem, rest) && fresh(rest)
    {
      hide Shaped, Placed, RawsIndexed, EntriesRight, LabelsInside, Live, LiveBut, PlacedBut, Distinct, Leaves, Leaf, Swap, Nodes, Heads, Size, Own, Owner, ListOf, Sub,
           Reindexed, S.Ascending, AllHoused, CutLabels, PiecesAt, PiecesAlone, SF.SplitItems, SF.SplitAt, Spliced, BodyOk, RefsKnown, AllRefsKnown, OthersIndexed, OthersEntered, OthersLabelled, SplitForest, Start, Ready, CutNow, LabelsSplit;
      LabelPositions(raw, pos, nitem);
      SnapshotReady(raw, pos, nitem);
      SnapshotSound(raw, pos, nitem);
      ghost var c := Snapshot(raw, pos, nitem);
      rest := CutTree(raw, pos, nitem);
      AfterShaped(c, rest);
      AfterPlaced(c, rest);
      AfterIndexed(c, rest);
      AfterLabelled(c, rest);
      AfterTree(c, rest);
    }

    lemma AfterTree(c: Cutting, rest: Item)
      requires Sound(c) && CutNow(c, rest)
      ensures shape == Swap(c.shape, c.raw, SplitForest(c.raw, c.view, c.pos, c.nitem, c.nb, rest))
      ensures repr == c.others + Nodes(SplitForest(c.raw, c.view, c.pos, c.nitem, c.nb, rest))
      ensures rest !in Nodes(c.shape) && rest != root && rest != c.nitem && rest != c.raw
    {
    }

    /** The item behind another in the list they are in. */
    method Next(x: Item) returns (r: Option<Item>)
      requires Core() && x in repr
      ensures r == if Behind(shape, x).Cons? then Some(Behind(shape, x).item) else None
      ensures r.Some? ==> r.value in repr && x.parent != null && x in x.parent.children
    {
      hide Live, Placed, Leaves, Size, AllRefsKnown, RawsIndexed, EntriesRight, LabelsInside;
      OwnerIn(shape, root, x);
      OwnerLive(shape, root, x);
      if Owner(shape, root, x) != root {
        LiveListed(shape, root, Owner(shape, root, x));
      }
      BehindIn(shape, x);
      var list := x.parent.children;
      assert list == ListOf(shape, root, Owner(shape, root, x));
      var i := IndexIn(list, x);
      BehindListed(shape, root, x, i);
      r := if i + 1 < |list| then Some(list[i + 1]) else None;
    }

    /** Takes a childless item out of its list, and its entry out of the index. */
    method Erase(c: Item)
      requires Shaped() && c in repr && Leaf(shape, c) && c.parent != null
      modifies c`parent, c.parent`children, this`pmap, this`shape, this`repr
      ensures Shaped() && shape == Swap(old(shape), c, Nil) && repr == old(repr) - {c} && c.parent == null
      ensures pmap == C.Unindexed(old(pmap), c, c.position)
    {
      hide Live, LiveBut, Distinct, Leaves, Leaf, Swap, Nodes, Heads, Owner, ListOf, Sub, Spliced;
      ghost var f, nodes := shape, repr;
      OwnerIn(f, root, c);
      OwnerLive(f, root, c);
      ghost var p: Item := c.parent;
      if p != root {
        LiveListed(f, root, p);
      }
      LiveForget(f, root, {p, c});
      NilMeans({});
      NilLive(p, 0);
      var list := c.parent.children;
      RootList(f, root);
      var i := IndexIn(list, c);
      SplicedAt(list, i, []);
      c.parent.children := list[..i] + [] + list[i + 1..];
      c.parent := null;
      pmap := C.Unindexed(pmap, c, c.position);
      assert forall o :: o in nodes - {p, c} ==> allocated(o) && unchanged(o);
      shape := Swap(f, c, Nil);
      repr := nodes - {c};
      ShapedAfter(f, p, c, Nil);
    }

    /** Puts a childless item behind the children of another. */
    method PushBack(x: Item, c: Item)
      requires Shaped() && x in repr && MayHold(x.body) && c !in repr && c != root && c.children == [] && BodyOk(c.body)
      modifies c`parent, x`children, this`shape, this`repr
      ensures Shaped() && shape == AddKid(old(shape), x, Cons(c, c.body, Nil, Nil)) && repr == old(repr) + {c} && c.parent == x
    {
      hide Live, LiveBut, Distinct, Leaves, AddKid, Nodes, Heads, Owner, ListOf, Sub;
      ghost var f, nodes, g := shape, repr, Cons(c, c.body, Nil, Nil);
      LiveListed(f, root, x);
      LiveForget(f, root, {x});
      SubLive(f, root, x);
      NilMeans({});
      LeafAhead(c, c.body, Nil, {});
      NilLive(x, 0);
      x.children := x.children + [c];
      c.parent := x;
      assert forall o :: o in nodes - {x} ==> allocated(o) && unchanged(o);
      LoneLive(c, x);
      shape := AddKid(f, x, g);
      repr := nodes + {c};
      AddKidLive(f, root, x, g);
      AddKidDistinct(f, x, g);
      AddKidHeads(f, x, g);
      AddKidLeaves(f, x, g);
    }

    /** A childless item with bytes of its own, and a raw one right behind it. */
    ghost predicate CanTakeIn(x: Item, c: Item)
      reads this, root, repr
    {
      && Core() && x in repr && (x.body.Instruction? || x.body.Data?) && x.children == []
      && Behind(shape, x).Cons? && Behind(shape, x).item == c && c in repr && c.body.Raw? && Own(c.body) > 0 && c.parent != null
    }

    lemma BeforeTakeIn(x: Item, c: Item)
      requires CanTakeIn(x, c)
      ensures c != x && Leaf(shape, c) && Leaf(shape, x) && Sub(shape, x).body == x.body && c.children == [] && MayHold(x.body) && c.parent != c && BodyOk(c.body)
      ensures Adopt(shape, x) == AddKid(Swap(shape, c, Nil), x, Cons(c, c.body, Nil, Nil))
      ensures c.position == x.position + Own(x.body) && c.position + Own(c.body) <= |file| && c.position >= 16
    {
      hide Live, Placed, Leaves, Size, AllRefsKnown, RawsIndexed, EntriesRight, LabelsInside, Own;
      RawPlace(c);
      SubLive(shape, root, x);
      HeadsNone(Sub(shape, x).kids);
      BehindIs(shape, root, x);
      AdoptSteps(shape, x);
      BehindPlaced(shape, 0, x);
      NodesWithin(shape, 0, root, c);
      OwnHeader(x.body);
    }

    /** No raw item ends where the child begins: its parent's own bytes do. */
    lemma NoneEndsThere(x: Item, c: Item, n: Item)
      requires CanTakeIn(x, c) && n in repr && n.body.Raw? && Own(n.body) > 0
      ensures n.position + Own(n.body) != c.position
    {
      hide Placed, Leaves, Size, AllRefsKnown, RawsIndexed, EntriesRight, LabelsInside, Live, Distinct, Behind, Nodes;
      BeforeTakeIn(x, c);
      if n.position + Own(n.body) == c.position {
        OneOwner(shape, 0, root, n, x, c.position - 1);
      }
    }

    /** The child leaves its list and the index and goes behind the children of `x`. */
    method MoveOver(x: Item, c: Item)
      requires CanTakeIn(x, c)
      modifies this`pmap, this`shape, this`repr, c`parent, c.parent`children, x`children
      ensures Shaped() && shape == Adopt(old(shape), x) && repr == old(repr) && pmap == C.Unindexed(old(pmap), c, c.position)
      ensures forall n {:trigger n in repr} :: n in repr ==> n.position == old(n.position) && n.body == old(n.body)
    {
      hide Live, Placed, Leaves, Leaf, Size, AllRefsKnown, RawsIndexed, EntriesRight, LabelsInside, Distinct, Nodes, Heads, Behind, Adopt, AddKid, Swap, Own, Sub;
      BeforeTakeIn(x, c);
      Erase(c);
      PushBack(x, c);
    }

    /** The item behind `x` becomes its child; it leaves the index and keeps its place. */
    method TakeIn(x: Item, c: Item)
      requires CanTakeIn(x, c)
      modifies this`pmap, this`shape, this`repr, c`parent, c.parent`children, x`children
      ensures Core() && shape == Adopt(old(shape), x) && repr == old(repr) && pmap == C.Unindexed(old(pmap), c, c.position)
      ensures PositionsOf(labels) == old(PositionsOf(labels)) && (|file| in old(pmap) ==> |file| in pmap)
      ensures forall n {:trigger n in repr} :: n in repr ==> n.position == old(n.position) && n.body == old(n.body)
      ensures forall q {:trigger pmap[q]} :: q in pmap ==> pmap[q] != c
    {
      hide Shaped, Live, Placed, Leaves, Leaf, Size, AllRefsKnown, RawsIndexed, EntriesRight, LabelsInside, Distinct, Nodes, Heads, Behind, Adopt, AddKid, Swap, Own, Sub;
      hide OthersIndexed, OthersEntered, OthersLabelled, CanTakeIn;
      ghost var f, nodes := shape, repr;
      BeforeIndexed(x, c);
      ShapeFacts(x, c);
      assert Placed(f, 0) && allocated(nodes);
      MoveOver(x, c);
      assert forall n :: n in nodes ==> allocated(n);
      AdoptNodes(f, x);
      AdoptPlaced(f, x, 0);
      AdoptKeeps(f, x, labels.Keys);
      IndexedAgain(c);
    }

    lemma ShapeFacts(x: Item, c: Item)
      requires CanTakeIn(x, c)
      ensures Labelled() && Placed(shape, 0) && Size(shape) == |file| && repr == Nodes(shape) && root !in repr && Distinct(shape) && Leaves(shape)
      ensures x in Nodes(shape) ==> MayHold(Sub(shape, x).body)
    {
      BeforeTakeIn(x, c);
    }

    /** Without the entry of the child the index is as good as before. */
    lemma BeforeIndexed(x: Item, c: Item)
      requires CanTakeIn(x, c)
      ensures var index := C.Unindexed(pmap, c, c.position);
              && OthersIndexed(repr, index) && OthersEntered(repr, c, index) && OthersLabelled(repr, root, labels)
              && (forall q {:trigger index[q]} :: q in index ==> index[q] != c)
              && (|file| in pmap ==> |file| in index)
    {
      hide Live, Placed, Leaves, Leaf, Size, AllRefsKnown, Distinct, Nodes, Heads, Behind, Own, Sub;
      BeforeTakeIn(x, c);
      forall n | n in repr && n.body.Raw? && Own(n.body) > 0
        ensures n.position + Own(n.body) != c.position
      {
        NoneEndsThere(x, c, n);
      }
    }

    lemma IndexedAgain(c: Item)
      requires OthersIndexed(repr, pmap) && OthersEntered(repr, c, pmap) && OthersLabelled(repr, root, labels) && root !in repr
      requires forall q {:trigger pmap[q]} :: q in pmap ==> pmap[q] != c
      requires forall l {:trigger labels[l]} :: l in labels ==> labels[l].item in repr
      ensures RawsIndexed() && EntriesRight() && LabelsInside()
    {
    }

    /** `x` is childless and the first `size` bytes behind it are raw. */
    ghost predicate CanMove(x: Item, size: nat)
      reads this, root, repr
    {
      && Core() && x in repr && (x.body.Instruction? || x.body.Data?) && x.children == []
      && Behind(shape, x).Cons? && Behind(shape, x).item in repr && Behind(shape, x).item.body.Raw?
      && 0 < size <= Own(Behind(shape, x).item.body)
    }

    /** The file is as it was, but `c` and more raw bytes stand for the raw item `t`. */
    twostate predicate HasPieces(size: nat, t: Item, new c: Item, new rest: Item)
      reads this, root, repr
    {
      && Core() && PositionsOf(labels) == old(PositionsOf(labels))
      && old(t.body.Raw?) && old(t.body.view.Valid()) && size <= old(t.body.view.size)
      && repr == old(repr) - {t} + Nodes(MovePieces(t, old(t.body.view), size, c, rest))
      && LabelsOver(old(labels), labels, t, Nodes(MovePieces(t, old(t.body.view), size, c, rest)))
      && (|file| in old(pmap) ==> |file| in pmap)
      && (forall n {:trigger n in old(repr)} :: n in old(repr) && n != t ==> n in repr && n.position == old(n.position) && n.body == old(n.body))
    }

    /** What moving the next bytes in leaves: the raw item behind `x` is cut and its first piece is under `x`. */
    twostate predicate HasMoved(x: Item, size: nat, t: Item, new c: Item, new rest: Item)
      reads this, root, repr
    {
      && HasPieces(size, t, c, rest)
      && shape == Adopt(Swap(old(shape), t, MovePieces(t, old(t.body.view), size, c, rest)), x)
      && forall q {:trigger pmap[q]} :: q in pmap ==> pmap[q] != c
    }

    lemma BeforeMove(x: Item, size: nat)
      requires CanMove(x, size)
      ensures var t := Behind(shape, x).item;
              && t != x && t.parent != null && t.parent != x && (t.parent == root || t.parent in repr) && t.body.view.Valid() && Leaf(shape, t) && size <= t.body.view.size
    {
      hide Placed, Leaves, Size, AllRefsKnown, RawsIndexed, EntriesRight, LabelsInside, Distinct, Nodes, Heads, Behind, Own, Sub;
      var t := Behind(shape, x).item;
      RawPlace(t);
      BehindOther(shape, x);
      RawSize(t.body);
    }

    lemma ChildFits(x: Item, size: nat, c: Item)
      requires CanMove(x, size) && c !in repr && c != root && c.children == []
      requires var t := Behind(shape, x).item; t.body.view.Valid() && size <= t.body.view.size && c.body == Raw(t.body.view.Slice(0, size))
      ensures CanSplit(Behind(shape, x).item, 0, c) && Own(c.body) == size
    {
      hide Shaped, Labelled, Placed, Size, RawsIndexed, EntriesRight, LabelsInside;
      BeforeMove(x, size);
      RawSize(c.body);
    }

    lemma ChildThere(f: Forest, x: Item, t: Item, view: I.View, size: nat, c: Item, rest: Item)
      requires Distinct(f) && Leaf(f, t) && x in Nodes(f) && x != t && Behind(f, x).Cons? && Behind(f, x).item == t
      requires view.Valid() && 0 < size <= view.size && c !in Nodes(f) && rest != c && rest != t && rest !in Nodes(f)
      requires Core() && shape == Swap(f, t, MovePieces(t, view, size, c, rest)) && repr == Nodes(f) - {t} + Nodes(MovePieces(t, view, size, c, rest))
      requires (x.body.Instruction? || x.body.Data?) && x.children == [] && c.body.Raw? && Own(c.body) == size
      ensures CanTakeIn(x, c) && (c.parent == root || c.parent in repr) && Nodes(MovePieces(t, view, size, c, rest)) <= {t, c, rest}
    {
      hide Shaped, Labelled, Placed, Size, RawsIndexed, EntriesRight, LabelsInside, MovePieces, Leaf, Swap, Behind, Nodes, Distinct;
      MovedBehind(f, x, t, view, size, c, rest);
      RawPlace(c);
    }

    /** Cuts the first bytes of a raw item off. */
    method SplitFirst(raw: Item, size: nat, c: Item) returns (ghost rest: Item)
      requires CanSplit(raw, 0, c) && raw in repr && c !in repr && raw.parent != null && raw.body.Raw? && raw.body.view.Valid() && size <= raw.body.view.size
      requires c.body == Raw(raw.body.view.Slice(0, size)) && Own(c.body) == size
      modifies this, raw, raw.parent`children, c`position, c`parent
      ensures HasPieces(size, raw, c, rest) && shape == Swap(old(shape), raw, MovePieces(raw, old(raw.body.view), size, c, rest))
      ensures fresh(rest) && c.body == old(c.body)
    {
      hide Swap, Own, SplitForest, Core, CanSplit, PositionsOf, Nodes;
      rest := Split2(raw, 0, c);
    }

    /** Cuts the next bytes off as a raw item of their own. */
    method CutNext(x: Item, size: nat, ghost t: Item) returns (c: Item, ghost rest: Item)
      requires CanMove(x, size) && t == Behind(shape, x).item
      modifies this, root, repr
      ensures HasPieces(size, t, c, rest) && shape == Swap(old(shape), t, MovePieces(t, old(t.body.view), size, c, rest))
      ensures fresh(c) && fresh(rest) && rest != c && CanTakeIn(x, c) && (c.parent == root || c.parent in old(repr) + {c, rest})
      ensures c.body == Raw(old(t.body.view.Slice(0, size)))
    {
      hide Live, Shaped, Labelled, Placed, Leaves, Leaf, Size, AllRefsKnown, RawsIndexed, EntriesRight, LabelsInside, Distinct, Nodes, Heads, Behind, Adopt, Swap, Own, Sub, SplitForest, MovePieces, CanSplit, CanTakeIn, Core, CanMove;
      MoveShape(x, size);
      BeforeMove(x, size);
      var next := Next(x);
      var raw := next.value;
      c := new Item(Raw(raw.body.view.Slice(0, size)));
      ghost var f, view := shape, raw.body.view;
      ChildFits(x, size, c);
      rest := SplitFirst(raw, size, c);
      ChildThere(f, x, t, view, size, c, rest);
    }

    /** Moves the next bytes in as a raw child. */
    method MoveNextToChild(x: Item, size: nat, ghost t: Item) returns (c: Item, ghost rest: Item)
      requires CanMove(x, size) && t == Behind(shape, x).item
      modifies this, root, repr
      ensures HasMoved(x, size, t, c, rest) && fresh(c) && fresh(rest) && rest != c
    {
      hide Live, Shaped, Labelled, Placed, Leaves, Leaf, Size, AllRefsKnown, RawsIndexed, EntriesRight, LabelsInside, Distinct, Nodes, Heads, Behind, Adopt, Swap, Own, Sub, SplitForest, MovePieces, CanTakeIn, Core;
      c, rest := CutNext(x, size, t);
      InRepr(x, c);
      TakeIn(x, c);
    }

    /** Puts a childless item in place of another. */
    method SwapLeaf(x: Item, s: Item)
      requires Shaped() && x in repr && Leaf(shape, x) && x.parent != null
      requires s !in repr && s != root && s.children == [] && BodyOk(s.body)
      modifies this, x`parent, x.parent`children, s`position, s`parent
      ensures Shaped() && shape == Swap(old(shape), x, Cons(s, s.body, Nil, Nil)) && repr == old(repr) - {x} + {s}
      ensures s.position == old(x.position)
      ensures labels == map l | l in old(labels) :: if old(labels)[l].item == x then Ptr(s, old(labels)[l].offset) else old(labels)[l]
      ensures pmap == if x.position in old(pmap) && old(pmap)[x.position] == x then old(pmap)[x.position := s] else old(pmap)
    {
      hide Live, LiveBut, Distinct, Leaves, Leaf, Swap, Nodes, Heads, Owner, ListOf, Sub, Spliced;
      ghost var f, nodes, g := shape, repr, Cons(s, s.body, Nil, Nil);
      OwnerIn(f, root, x);
      OwnerLive(f, root, x);
      ghost var p: Item := x.parent;
      if p != root {
        LiveListed(f, root, p);
      }
      LiveForget(f, root, {p, x});
      RootList(f, root);
      NilMeans({});
      LeafAhead(s, s.body, Nil, {});
      assert Heads(g) == [s];
      Replace(x, s);
      assert forall o :: o in nodes - {p, x} ==> allocated(o) && unchanged(o);
      LoneLive(s, p);
      shape := Swap(f, x, g);
      repr := nodes - {x} + {s};
      ShapedAfter(f, p, x, g);
    }

    /** `x` is a data item with one raw child that no label and no entry points to, as it is right after the
        child was moved in; `s` is a string for both. */
    ghost predicate CanTakeString(x: Item, c: Item, s: Item)
      reads this, root, repr, s
    {
      && Core() && x in repr && x.body.Data? && x.children == [c] && c in repr && c.body.Raw?
      && s !in repr && s != root && s.children == [] && s.body.StringData? && Own(s.body) == Own(x.body) + Own(c.body)
      && (forall l {:trigger labels[l]} :: l in labels ==> labels[l].item != c)
      && (forall q {:trigger pmap[q]} :: q in pmap ==> pmap[q] != c)
      && (forall l {:trigger labels[l]} :: l in labels && labels[l].item == x ==> labels[l].offset <= Weigh(s.body))
    }

    lemma BeforeTakeString(x: Item, c: Item, s: Item)
      requires CanTakeString(x, c, s)
      ensures x.parent != null && (x.parent == root || x.parent in repr) && x.parent != x && x.parent != c && c.parent == x && c != x
      ensures Leaf(shape, c) && Leaf(Swap(shape, c, Nil), x) && Sub(shape, x).kids == Cons(c, c.body, Nil, Nil) && Sub(shape, x).body == x.body
      ensures x.position == Start(shape, x) && Size(Sub(shape, x)) == Own(s.body) && x in Nodes(shape) && c in Nodes(Sub(shape, x).kids)
      ensures Distinct(shape) && Placed(shape, 0) && Size(shape) == |file| && AllRefsKnown(shape, labels.Keys) && c.parent != null
    {
      hide Placed, Leaves, AllRefsKnown, RawsIndexed, EntriesRight, LabelsInside, Own, Weigh;
      RawPlace(c);
      OwnerIn(shape, root, x);
      OwnerLive(shape, root, x);
      SubLive(shape, root, x);
      OneKid(Sub(shape, x), c);
      PlacedAtStart(shape, x, 0);
      SubNodes(shape, x);
      EmptiedLeaf(shape, x, c);
    }

    lemma OthersBefore(x: Item, c: Item, s: Item)
      requires CanTakeString(x, c, s)
      ensures var others := repr - {x, c};
              && OthersIndexed(others, pmap) && OthersEntered(others, x, pmap) && OthersLabelled(others, x, labels)
              && C.Unindexed(pmap, c, c.position) == pmap && PositionsOf(labels).Keys == labels.Keys
      ensures x.position !in pmap || pmap[x.position] == x || pmap[x.position] in repr - {x, c}
      ensures forall q {:trigger pmap[q]} :: q in pmap && pmap[q] == x ==> q == x.position
    {
      hide Live, Placed, Leaves, Size, Sub, AllRefsKnown, Distinct, Nodes, Heads, Own;
    }

    lemma AfterTakeString(f: Forest, x: Item, c: Item, s: Item, others: set<Item>, was: map<string, Ptr>, index: map<nat, Item>)
      requires Shaped() && shape == Swap(f, x, Cons(s, s.body, Nil, Nil)) && repr == others + {s} && s.body.StringData?
      requires Distinct(f) && x in Nodes(f) && Placed(f, 0) && Size(f) == |file| && Size(Sub(f, x)) == Own(s.body) && s.position == Start(f, x)
      requires x.position == s.position && AllRefsKnown(f, was.Keys)
      requires OthersIndexed(others, index) && OthersEntered(others, x, index) && OthersLabelled(others, x, was)
      requires labels == map l | l in was :: if was[l].item == x then Ptr(s, was[l].offset) else was[l]
      requires pmap == if x.position in index && index[x.position] == x then index[x.position := s] else index
      requires forall q {:trigger index[q]} :: q in index && index[q] == x ==> q == x.position
      ensures Core() && labels.Keys == was.Keys && forall q {:trigger q in pmap} :: q in index ==> q in pmap
    {
      hide Live, Placed, Leaves, Size, Sub, AllRefsKnown, Distinct, Nodes, Heads, Swap, Own, Start;
      LoneString(s);
      SwapWhole(f, 0, x, Cons(s, s.body, Nil, Nil));
      assert labels.Keys == was.Keys;
      RefsSwap(f, x, Cons(s, s.body, Nil, Nil), was.Keys);
    }

    /** The data item goes with its child, the string comes. */
    method DropChild(x: Item, s: Item, ghost c: Item)
      requires CanTakeString(x, c, s)
      modifies this, root, repr, s
      ensures Shaped() && shape == Swap(old(shape), x, Cons(s, s.body, Nil, Nil)) && repr == old(repr) - {x, c} + {s} && s.body == old(s.body)
      ensures s.position == old(x.position)
      ensures labels == map l | l in old(labels) :: if old(labels)[l].item == x then Ptr(s, old(labels)[l].offset) else old(labels)[l]
      ensures pmap == if x.position in old(pmap) && old(pmap)[x.position] == x then old(pmap)[x.position := s] else old(pmap)
      ensures forall n {:trigger n in old(repr)} :: n in old(repr) ==> n.position == old(n.position) && n.body == old(n.body)
    {
      hide Live, Shaped, Labelled, Placed, Leaves, Leaf, Size, Sub, AllRefsKnown, Distinct, Nodes, Heads, Swap, Own, Weigh, Start, OthersIndexed, OthersEntered, OthersLabelled, C.Unindexed;
      BeforeTakeString(x, c, s);
      OthersBefore(x, c, s);
      CoreShaped();
      ghost var f := shape;
      Erase(x.children[0]);
      SwapLeaf(x, s);
      SwapEmptied(f, x, c, Cons(s, s.body, Nil, Nil));
    }

    /** A string takes the place of a data item and its child. */
    method TakeString(x: Item, s: Item, ghost c: Item)
      requires CanTakeString(x, c, s)
      modifies this, root, repr, s
      ensures Core() && shape == Swap(old(shape), x, Cons(s, s.body, Nil, Nil)) && repr == old(repr) - {x, c} + {s} && s.body == old(s.body)
      ensures labels == map l | l in old(labels) :: if old(labels)[l].item == x then Ptr(s, old(labels)[l].offset) else old(labels)[l]
      ensures PositionsOf(labels) == old(PositionsOf(labels)) && forall q {:trigger q in pmap} :: q in old(pmap) ==> q in pmap
      ensures forall n {:trigger n in old(repr)} :: n in old(repr) && n != x && n != c ==> n.position == old(n.position) && n.body == old(n.body)
    {
      hide Live, Shaped, Labelled, Placed, Leaves, Leaf, Size, Sub, AllRefsKnown, Distinct, Nodes, Heads, Swap, Own, Weigh, Start, OthersIndexed, OthersEntered, OthersLabelled, C.Unindexed;
      BeforeTakeString(x, c, s);
      OthersBefore(x, c, s);
      CoreShaped();
      ghost var f, g, others, was, index, nodes := shape, Cons(s, s.body, Nil, Nil), repr - {x, c}, labels, pmap, repr;
      assert allocated(nodes) && Nodes(f) == nodes;
      DropChild(x, s, c);
      assert Placed(f, 0);
      AfterTakeString(f, x, c, s, others, was, index);
    }

    lemma CoreShaped()
      requires Core()
      ensures Shaped() && repr == Nodes(shape) && root !in repr && forall l {:trigger labels[l]} :: l in labels ==> labels[l].item in repr
    {
    }

    lemma InRepr(x: Item, c: Item)
      requires CanTakeIn(x, c)
      ensures x in repr && c in repr && Core()
    {
    }

    lemma MoveShape(x: Item, size: nat)
      requires CanMove(x, size)
      ensures Distinct(shape) && repr == Nodes(shape) && root !in repr && Behind(shape, x).Cons? && Behind(shape, x).item in repr
      ensures Core() && x in repr && (x.body.Instruction? || x.body.Data?) && x.children == [] && Behind(shape, x).item.body.Raw? && 0 < size
    {
    }

    /** Recomputes all positions, after any edit. */
    method Fixup()
      requires Shaped()
      modifies this`pmap, root`position, repr`position
      ensures Shaped() && Placed(Tight(shape), 0) && pmap == map[]
    {
      pmap := map[];
      root.UpdatePosition(0, shape);
    }

    /** What the file is dumped as. */
    method Dump() returns (out: seq<byte>)
      requires Shaped() && Labelled()
      ensures out == Image(Tight(shape), PositionsOf(labels))
    {
      out := root.Dump(labels, shape);
      RootImage(root, shape, PositionsOf(labels));
    }
  }

  lemma RootBytes(total: nat, pos: Positions)
    ensures OwnBytes(Root, total, pos) == []
  {
  }

  lemma RootImage(root: Item, f: Forest, pos: Positions)
    ensures Image(Tight(Cons(root, Root, f, Nil)), pos) == Image(Tight(f), pos)
  {
    hide OwnBytes;
    var t := Tight(f);
    assert Tight(Cons(root, Root, f, Nil)) == Cons(root, Root, t, Nil) by {
      assert Tight(Nil) == Nil;
    }
    RootBytes(Own(Root) + Size(t), pos);
  }
}
