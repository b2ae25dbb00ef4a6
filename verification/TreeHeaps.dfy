/** What editing lists in the heap does to the tree they hold. */
module TreeHeaps {
  import opened Bytes
  import opened Words
  import P = StcmParams
  import opened StcmInstructions
  import opened StcmStrings
  import opened Trees
  import opened Relink
  import opened TreeEdits

  /** The item whose list holds `n`, in a forest whose list is held by `q`. */
  ghost function Owner(f: Forest, q: Item, n: Item): Item {
    match f
    case Nil => q
    case Cons(m, _, kids, rest) =>
      if m == n then q else if n in Nodes(kids) then Owner(kids, m, n) else Owner(rest, q, n)
  }

  lemma {:induction false} OwnerIn(f: Forest, q: Item, n: Item)
    requires n in Nodes(f) && Distinct(f) && q !in Nodes(f)
    ensures Owner(f, q, n) == q || Owner(f, q, n) in Nodes(f)
    ensures Owner(f, q, n) == q <==> n in Heads(f)
    ensures Owner(f, q, n) != n
  {
    if n != f.item {
      HeadsIn(f.rest, n);
      if n in Nodes(f.kids) {
        OwnerIn(f.kids, f.item, n);
      } else {
        OwnerIn(f.rest, q, n);
      }
    }
  }

  /** In the heap, an item's parent is its owner, which lists it. */
  lemma {:induction false} OwnerLive(f: Forest, q: Item, n: Item)
    requires Live(f, q) && n in Nodes(f) && Distinct(f) && q !in Nodes(f)
    ensures n.parent == Owner(f, q, n)
    ensures Owner(f, q, n) == q || n in Owner(f, q, n).children
  {
    if n != f.item {
      if n in Nodes(f.kids) {
        OwnerLive(f.kids, f.item, n);
        OwnerIn(f.kids, f.item, n);
      } else {
        OwnerLive(f.rest, q, n);
      }
    }
  }

  /** The heap holds the tree, but for what it says of the items in `s`. */
  ghost predicate LiveBut(f: Forest, parent: Item, s: set<Item>)
    reads Nodes(f) - s
  {
    match f
    case Nil => true
    case Cons(n, b, kids, rest) =>
      && (n !in s ==> n.body == b && n.parent == parent && n.children == Heads(kids))
      && LiveBut(kids, n, s) && LiveBut(rest, parent, s)
  }

  lemma {:induction false} LiveForget(f: Forest, q: Item, s: set<Item>)
    requires Live(f, q)
    ensures LiveBut(f, q, s)
  {
    if f.Cons? {
      LiveForget(f.kids, f.item, s);
      LiveForget(f.rest, q, s);
    }
  }

  lemma {:induction false} LiveAgain(f: Forest, q: Item, s: set<Item>)
    requires LiveBut(f, q, s) && s !! Nodes(f)
    ensures Live(f, q)
  {
    if f.Cons? {
      LiveAgain(f.kids, f.item, s);
      LiveAgain(f.rest, q, s);
    }
  }

  lemma {:induction false} AppendLive(f: Forest, g: Forest, q: Item)
    ensures Live(Append(f, g), q) <==> Live(f, q) && Live(g, q)
  {
    if f.Cons? {
      AppendLive(f.rest, g, q);
    }
  }

  /** What the heap says of an item is what the tree says, but for its list. */
  ghost predicate ListedAs(f: Forest, q: Item, p: Item, list: seq<Item>)
    reads p
  {
    p in Nodes(f) ==> p.body == Sub(f, p).body && p.parent == Owner(f, q, p) && p.children == list
  }

  ghost function ListOf(f: Forest, q: Item, p: Item): seq<Item> {
    if p == q then Heads(f) else if p in Nodes(f) then Heads(Sub(f, p).kids) else []
  }

  lemma {:induction false} LiveListed(f: Forest, q: Item, p: Item)
    requires Live(f, q) && p in Nodes(f) && Distinct(f) && q !in Nodes(f)
    ensures ListedAs(f, q, p, ListOf(f, q, p))
  {
    if f.item == p {
    } else if p in Nodes(f.kids) {
      LiveListed(f.kids, f.item, p);
    } else {
      LiveListed(f.rest, q, p);
    }
  }

  /** The list that held `r` now holds `g` in its place; the item itself may have changed or gone. */
  lemma {:induction false} SwapLive(f: Forest, q: Item, p: Item, r: Item, g: Forest)
    requires LiveBut(f, q, {p, r}) && Distinct(f) && q !in Nodes(f) && r in Nodes(f) && p == Owner(f, q, r)
    requires ListedAs(f, q, p, Spliced(ListOf(f, q, p), r, Heads(g))) && Live(g, p)
    ensures Live(Swap(f, r, g), q)
  {
    OwnerIn(f, q, r);
    if f.item == r {
      AppendLive(g, f.rest, q);
      LiveAgain(f.rest, q, {p, r});
    } else if r in Nodes(f.kids) {
      Absent(f.rest, r, g);
      OwnerIn(f.kids, f.item, r);
      LiveAgain(f.rest, q, {p, r});
      SwapLive(f.kids, f.item, p, r, g);
      SwapHeads(f.kids, r, g);
      if p != f.item {
        SplicedAbsent(Heads(f.kids), r, Heads(g));
      }
    } else {
      Absent(f.kids, r, g);
      OwnerIn(f.rest, q, r);
      LiveAgain(f.kids, f.item, {p, r});
      SwapLive(f.rest, q, p, r, g);
    }
  }

  /** The list of `x` now holds `g` at its end. */
  lemma {:induction false} AddKidLive(f: Forest, q: Item, x: Item, g: Forest)
    requires LiveBut(f, q, {x}) && Distinct(f) && q !in Nodes(f) && x in Nodes(f)
    requires ListedAs(f, q, x, ListOf(f, q, x) + Heads(g)) && Live(g, x)
    ensures Live(AddKid(f, x, g), q)
  {
    if f.item == x {
      LiveAgain(f.kids, x, {x});
      LiveAgain(f.rest, q, {x});
      AppendLive(f.kids, g, x);
      AppendMeans(f.kids, g);
    } else if x in Nodes(f.kids) {
      Absent(f.rest, x, g);
      LiveAgain(f.rest, q, {x});
      AddKidLive(f.kids, f.item, x, g);
      AddKidHeads(f.kids, x, g);
    } else {
      Absent(f.kids, x, g);
      LiveAgain(f.kids, f.item, {x});
      AddKidLive(f.rest, q, x, g);
    }
  }

  /** The items stand where they should, but for `r`. */
  ghost predicate PlacedBut(f: Forest, at: nat, r: Item)
    reads (Nodes(f) - {r})`position
  {
    match f
    case Nil => true
    case Cons(n, b, kids, rest) =>
      (n != r ==> n.position == at) && PlacedBut(kids, at + Own(b), r) && PlacedBut(rest, at + Own(b) + Size(kids), r)
  }

  lemma {:induction false} PlacedForget(f: Forest, at: nat, r: Item)
    requires Placed(f, at)
    ensures PlacedBut(f, at, r)
  {
    if f.Cons? {
      PlacedForget(f.kids, at + Own(f.body), r);
      PlacedForget(f.rest, at + Own(f.body) + Size(f.kids), r);
    }
  }

  lemma {:induction false} PlacedAgain(f: Forest, at: nat, r: Item)
    requires PlacedBut(f, at, r) && r !in Nodes(f)
    ensures Placed(f, at)
  {
    if f.Cons? {
      PlacedAgain(f.kids, at + Own(f.body), r);
      PlacedAgain(f.rest, at + Own(f.body) + Size(f.kids), r);
    }
  }

  lemma {:induction false} SwapSize(f: Forest, r: Item, g: Forest)
    requires Distinct(f) && Leaf(f, r)
    ensures Size(Swap(f, r, g)) == Size(f) - Own(Sub(f, r).body) + Size(g)
  {
    LeafInside(f, r);
    if f.item == r {
      AppendMeans(g, f.rest);
    } else if r in Nodes(f.kids) {
      SwapSize(f.kids, r, g);
      Absent(f.rest, r, g);
    } else {
      SwapSize(f.rest, r, g);
      Absent(f.kids, r, g);
    }
  }

  lemma PlacedParts(f: Forest, at: nat, r: Item)
    requires f.Cons? && PlacedBut(f, at, r)
    ensures f.item != r ==> f.item.position == at
    ensures PlacedBut(f.kids, at + Own(f.body), r) && PlacedBut(f.rest, at + Own(f.body) + Size(f.kids), r)
    ensures f.kids.Nil? ==> Size(f.kids) == 0
    ensures r in Nodes(f) <==> f.item == r || r in Nodes(f.kids) || r in Nodes(f.rest)
  {
  }

  lemma PlacedWhole(f: Forest, at: nat)
    requires f.Cons? && f.item.position == at && Placed(f.kids, at + Own(f.body)) && Placed(f.rest, at + Own(f.body) + Size(f.kids))
    ensures Placed(f, at)
  {
  }

  /** Pieces that fill the place of an item leave every other item where it is. */
  lemma {:induction false} SwapPlaced(f: Forest, at: nat, r: Item, g: Forest)
    requires PlacedBut(f, at, r) && Distinct(f) && Leaf(f, r)
    requires Size(g) == Own(Sub(f, r).body) && Placed(g, at + Start(f, r))
    ensures Placed(Swap(f, r, g), at)
  {
    hide *;
    LeafInside(f, r);
    SwapStep(f, r, g);
    var a, b := Own(f.body), Size(f.kids);
    PlacedParts(f, at, r);
    if f.item == r {
      AppendPlaced(g, f.rest, at);
      PlacedAgain(f.rest, at + a + b, r);
    } else if r in Nodes(f.kids) {
      SwapPlaced(f.kids, at + a, r, g);
      SwapSize(f.kids, r, g);
      PlacedAgain(f.rest, at + a + b, r);
      PlacedWhole(Swap(f, r, g), at);
    } else {
      SwapPlaced(f.rest, at + a + b, r, g);
      PlacedAgain(f.kids, at + a, r);
      PlacedWhole(Swap(f, r, g), at);
    }
  }

  /** A data item that holds this string, with its end and `lost` bytes more, is at a place of the file. */
  ghost predicate StringThere(str: seq<byte>, lost: nat, at: nat, file: seq<byte>) {
    var len := Rounded(|str|) + lost;
    var child := str + Zeros(len - |str|);
    exists unit: P.word {:trigger HoldsString(unit, str, child)} ::
      HoldsString(unit, str, child) && Holds(file, at, DataHeader(0, unit, 1, len) + child)
  }

  /** An item of `size` bytes with its children stands for what the file holds at its place. It dumps that,
      but for strings and tables. */
  ghost predicate OwnFaithful(b: Body, size: nat, at: nat, pos: Positions, file: seq<byte>) {
    match b
    case StringData(str, lost) => StringThere(str, lost, at, file)
    case Table(bytes) => at + |bytes| <= |file|
    case _ => Holds(file, at, OwnBytes(b, size, pos))
  }

  /** The items stand for the bytes of the file. */
  ghost predicate Faithful(f: Forest, at: nat, pos: Positions, file: seq<byte>) {
    match f
    case Nil => true
    case Cons(_, b, kids, rest) =>
      && OwnFaithful(b, Own(b) + Size(kids), at, pos, file)
      && Faithful(kids, at + Own(b), pos, file)
      && Faithful(rest, at + Own(b) + Size(kids), pos, file)
  }

  lemma {:induction false} AppendFaithful(f: Forest, g: Forest, at: nat, pos: Positions, file: seq<byte>)
    ensures Faithful(Append(f, g), at, pos, file) <==> Faithful(f, at, pos, file) && Faithful(g, at + Size(f), pos, file)
  {
    hide OwnFaithful, Own;
    if f.Cons? {
      AppendFaithful(f.rest, g, at + Own(f.body) + Size(f.kids), pos, file);
    }
  }

  lemma {:induction false} SwapFaithful(f: Forest, at: nat, r: Item, g: Forest, pos: Positions, file: seq<byte>)
    requires Distinct(f) && Leaf(f, r) && Faithful(f, at, pos, file)
    requires Size(g) == Own(Sub(f, r).body) && Faithful(g, at + Start(f, r), pos, file)
    ensures Faithful(Swap(f, r, g), at, pos, file)
  {
    hide OwnFaithful, Own, Sub, Start, Swap, Nodes, Distinct, Leaf;
    LeafInside(f, r);
    SwapStep(f, r, g);
    if f.item == r {
      AppendFaithful(g, f.rest, at, pos, file);
    } else if r in Nodes(f.kids) {
      SwapFaithful(f.kids, at + Own(f.body), r, g, pos, file);
      SwapSize(f.kids, r, g);
    } else {
      SwapFaithful(f.rest, at + Own(f.body) + Size(f.kids), r, g, pos, file);
    }
  }

  /** An item that dumps what it stands for: a string leaves nothing out and its size word counts its bytes,
      a table is written as it was. */
  ghost predicate OwnExact(b: Body, at: nat, file: seq<byte>) {
    match b
    case StringData(str, lost) => lost == 0 && at + 8 <= |file| && 4 * Word32(file, at + 4) == Rounded(|str|)
    case Table(bytes) => Holds(file, at, bytes)
    case _ => true
  }

  ghost predicate AllExact(f: Forest, at: nat, file: seq<byte>) {
    match f
    case Nil => true
    case Cons(_, b, kids, rest) =>
      OwnExact(b, at, file) && AllExact(kids, at + Own(b), file) && AllExact(rest, at + Own(b) + Size(kids), file)
  }

  /** The second word of a data header in a file. */
  lemma UnitWord(file: seq<byte>, at: nat, unit: P.word, len: P.word, child: seq<byte>)
    requires Holds(file, at, DataHeader(0, unit, 1, len) + child)
    ensures at + 8 <= |file| && Word32(file, at + 4) == unit
  {
    hide DataHeader, De;
    HeaderLength(0, unit, 1, len);
    HeaderSecond(unit, len, child);
    var whole := DataHeader(0, unit, 1, len) + child;
    SliceOfSlice(file, at, at + |whole|, 4, 8);
  }

  lemma HeaderSecond(unit: P.word, len: P.word, child: seq<byte>)
    ensures var whole := DataHeader(0, unit, 1, len) + child;
            |whole| >= 16 && De(whole[4..8]) == unit
  {
    hide EncWords, DecWords, Le, De;
    HeaderLength(0, unit, 1, len);
    UnitOf(0, unit, 1, len, child);
    SecondWord(DataHeader(0, unit, 1, len) + child);
    assert [0, unit as nat, 1, len as nat][1] == unit;
  }

  lemma SecondWord(b: seq<byte>)
    requires |b| >= 16
    ensures Sum(HeaderWords) <= |b| && |DecWords(true, HeaderWords, b)| == 4 && DecWords(true, HeaderWords, b)[1] == De(b[4..8])
  {
    hide De;
    Sums();
    var four, three, two: seq<nat> := [4, 4, 4, 4], [4, 4, 4], [4, 4];
    assert four[..3] == three && three[..2] == two && two[..1] == [4];
    assert Sum(two[..1]) == 4;
    assert DecWords(true, four, b)[..3] == DecWords(true, three, b) && DecWords(true, three, b)[..2] == DecWords(true, two, b);
  }

  /** An item with nothing left out dumps the bytes it stands for exactly if it is exact. */
  lemma OwnExactMeans(b: Body, size: nat, at: nat, pos: Positions, file: seq<byte>)
    requires OwnFaithful(b, size, at, pos, file) && BodyOk(b) && (b.StringData? ==> b.lost == 0)
    ensures Holds(file, at, OwnBytes(b, size, pos)) <==> OwnExact(b, at, file)
  {
    hide Holds, StringBytes, InstrBytes, DataHeader, De;
    if b.StringData? {
      StringExact(b.str, at, file);
    }
  }

  lemma StringExact(str: seq<byte>, at: nat, file: seq<byte>)
    requires StringThere(str, 0, at, file)
    ensures at + 8 <= |file| && (Holds(file, at, StringBytes(str)) <==> 4 * Word32(file, at + 4) == Rounded(|str|))
  {
    hide StringBytes, DataHeader, De, Rounded;
    var len := Rounded(|str|);
    var child := str + Zeros(len - |str|);
    var unit: P.word :| HoldsString(unit, str, child) && Holds(file, at, DataHeader(0, unit, 1, len) + child);
    UnitWord(file, at, unit, len, child);
    RoundedShort(|str|);
    ShortSame(unit, str, child);
    StringLength(str);
    HeaderLength(0, unit, 1, len);
  }

  lemma RoundedShort(n: nat)
    ensures Rounded(n) < n + 5
  {
  }

  /** Three parts of a file that follow each other are one, and the other way round. */
  lemma Joined(file: seq<byte>, at: nat, own: seq<byte>, kids: seq<byte>, rest: seq<byte>)
    ensures Holds(file, at, own) && Holds(file, at + |own|, kids) && Holds(file, at + |own| + |kids|, rest) <==> Holds(file, at, own + kids + rest)
  {
    var whole := own + kids + rest;
    if Holds(file, at, whole) {
      SliceOfSlice(file, at, at + |whole|, 0, |own|);
      SliceOfSlice(file, at, at + |whole|, |own|, |own| + |kids|);
      SliceOfSlice(file, at, at + |whole|, |own| + |kids|, |whole|);
    }
  }

  lemma FaithfulParts(f: Forest, at: nat, pos: Positions, file: seq<byte>)
    requires f.Cons? && Leaves(f) && Tight(f) == f && Faithful(f, at, pos, file)
    ensures var size := Own(f.body) + Size(f.kids);
            && OwnFaithful(f.body, size, at, pos, file) && BodyOk(f.body) && (f.body.StringData? ==> f.body.lost == 0)
            && |OwnBytes(f.body, size, pos)| == Own(f.body)
            && Image(f, pos) == OwnBytes(f.body, size, pos) + Image(f.kids, pos) + Image(f.rest, pos)
    ensures Leaves(f.kids) && Tight(f.kids) == f.kids && Faithful(f.kids, at + Own(f.body), pos, file) && |Image(f.kids, pos)| == Size(f.kids)
    ensures Leaves(f.rest) && Tight(f.rest) == f.rest && Faithful(f.rest, at + Own(f.body) + Size(f.kids), pos, file)
    ensures AllExact(f, at, file) <==> OwnExact(f.body, at, file) && AllExact(f.kids, at + Own(f.body), file) && AllExact(f.rest, at + Own(f.body) + Size(f.kids), file)
    ensures Size(f) == Own(f.body) + Size(f.kids) + Size(f.rest)
  {
    hide OwnBytes, Own, OwnFaithful, OwnExact;
    ImageOpen(f, pos);
    OwnLength(f.body, Own(f.body) + Size(f.kids), pos);
    ImageLength(f.kids, pos);
  }

  lemma NilDump(at: nat, pos: Positions, file: seq<byte>)
    requires at <= |file|
    ensures Image(Nil, pos) == [] && Size(Nil) == 0 && AllExact(Nil, at, file) && Holds(file, at, [])
  {
  }

  /** Items that leave nothing out dump what they stand for exactly if every one of them does. */
  lemma {:induction false} FaithfulDump(f: Forest, at: nat, pos: Positions, file: seq<byte>)
    requires Leaves(f) && Tight(f) == f && Faithful(f, at, pos, file) && at + Size(f) <= |file|
    ensures Holds(file, at, Image(f, pos)) <==> AllExact(f, at, file)
  {
    hide *;
    if f.Cons? {
      FaithfulParts(f, at, pos, file);
      var a, b := Own(f.body), Size(f.kids);
      FaithfulDump(f.kids, at + a, pos, file);
      FaithfulDump(f.rest, at + a + b, pos, file);
      OwnExactMeans(f.body, a + b, at, pos, file);
      Joined(file, at, OwnBytes(f.body, a + b, pos), Image(f.kids, pos), Image(f.rest, pos));
    } else {
      NilDump(at, pos, file);
    }
  }

  lemma {:induction false} TightFull(f: Forest)
    ensures Size(Tight(f)) == Size(f) <==> Tight(f) == f
  {
    if f.Cons? {
      TightSame(f.kids);
      TightSame(f.rest);
      TightFull(f.kids);
      TightFull(f.rest);
    }
  }

  lemma {:induction false} ExactTight(f: Forest, at: nat, file: seq<byte>)
    requires AllExact(f, at, file)
    ensures Tight(f) == f
  {
    hide Own, De;
    if f.Cons? {
      ExactTight(f.kids, at + Own(f.body), file);
      ExactTight(f.rest, at + Own(f.body) + Size(f.kids), file);
    }
  }

  /** What a tree that stands for a file is written as: as many bytes as its items weigh, and the file if and
      only if every item is exact. */
  lemma FileExact(f: Forest, pos: Positions, file: seq<byte>)
    requires Leaves(f) && Faithful(f, 0, pos, file) && Size(f) == |file|
    ensures |Image(Tight(f), pos)| == Size(Tight(f))
    ensures Image(Tight(f), pos) == file <==> AllExact(f, 0, file)
  {
    hide Image, Tight, Leaves, Faithful, Size, AllExact;
    TightSame(f);
    TightTwice(f);
    TightFull(f);
    ImageLength(Tight(f), pos);
    if AllExact(f, 0, file) {
      ExactTight(f, 0, file);
    }
    if Tight(f) == f {
      FaithfulDump(f, 0, pos, file);
      assert file[0..|file|] == file;
    }
  }

  /** The bytes that are not disassembled yet. */
  ghost function RawBytes(f: Forest): nat {
    match f
    case Nil => 0
    case Cons(_, b, kids, rest) => (if b.Raw? then Own(b) else 0) + RawBytes(kids) + RawBytes(rest)
  }

  lemma {:induction false} AppendRaw(f: Forest, g: Forest)
    ensures RawBytes(Append(f, g)) == RawBytes(f) + RawBytes(g)
  {
    if f.Cons? {
      AppendRaw(f.rest, g);
    }
  }

  lemma {:induction false} SwapRaw(f: Forest, r: Item, g: Forest)
    requires Distinct(f) && Leaf(f, r) && Sub(f, r).body.Raw?
    ensures RawBytes(Swap(f, r, g)) == RawBytes(f) - Own(Sub(f, r).body) + RawBytes(g)
  {
    LeafInside(f, r);
    if f.item == r {
      AppendRaw(g, f.rest);
    } else if r in Nodes(f.kids) {
      SwapRaw(f.kids, r, g);
      Absent(f.rest, r, g);
    } else {
      SwapRaw(f.rest, r, g);
      Absent(f.kids, r, g);
    }
  }

  lemma {:induction false} NodesWithin(f: Forest, at: nat, parent: Item, n: Item)
    requires Placed(f, at) && Live(f, parent) && n in Nodes(f)
    ensures at <= n.position && n.position + Own(n.body) <= at + Size(f)
  {
    if n == f.item {
    } else if n in Nodes(f.kids) {
      NodesWithin(f.kids, at + Own(f.body), f.item, n);
    } else {
      NodesWithin(f.rest, at + Own(f.body) + Size(f.kids), parent, n);
    }
  }

  ghost predicate OwnHas(n: Item, p: nat)
    reads n
  {
    n.position <= p < n.position + Own(n.body)
  }

  /** No byte belongs to two items. */
  lemma {:induction false} OneOwner(f: Forest, at: nat, parent: Item, n: Item, m: Item, p: nat)
    requires Placed(f, at) && Live(f, parent) && n in Nodes(f) && m in Nodes(f)
    requires OwnHas(n, p) && OwnHas(m, p)
    ensures n == m
  {
    forall k | k in Nodes(f.kids) && OwnHas(k, p)
      ensures at + Own(f.body) <= p < at + Own(f.body) + Size(f.kids)
    {
      NodesWithin(f.kids, at + Own(f.body), f.item, k);
    }
    forall k | k in Nodes(f.rest) && OwnHas(k, p)
      ensures at + Own(f.body) + Size(f.kids) <= p
    {
      NodesWithin(f.rest, at + Own(f.body) + Size(f.kids), parent, k);
    }
    if n in Nodes(f.kids) && m in Nodes(f.kids) {
      OneOwner(f.kids, at + Own(f.body), f.item, n, m, p);
    } else if n in Nodes(f.rest) && m in Nodes(f.rest) {
      OneOwner(f.rest, at + Own(f.body) + Size(f.kids), parent, n, m, p);
    }
  }

  lemma {:induction false} AdoptRaw(f: Forest, x: Item)
    ensures RawBytes(Adopt(f, x)) == RawBytes(f)
  {
    if f.Cons? {
      if f.item == x && f.rest.Cons? {
        AppendRaw(f.kids, First(f.rest));
      } else {
        AdoptRaw(f.kids, x);
        AdoptRaw(f.rest, x);
      }
    }
  }

  /** The item behind another is the next one in the list they are in. */
  lemma {:induction false} BehindListed(f: Forest, q: Item, x: Item, i: nat)
    requires Distinct(f) && q !in Nodes(f) && x in Nodes(f) && i < |ListOf(f, q, Owner(f, q, x))| && ListOf(f, q, Owner(f, q, x))[i] == x
    ensures var list := ListOf(f, q, Owner(f, q, x));
            && (Behind(f, x).Cons? <==> i + 1 < |list|)
            && (Behind(f, x).Cons? ==> Behind(f, x).item == list[i + 1])
  {
    OwnerIn(f, q, x);
    if Owner(f, q, x) == q {
      BehindNext(f, x, i);
    } else if x in Nodes(f.kids) {
      OwnerIn(f.kids, f.item, x);
      ListInside(f, q, x);
      BehindListed(f.kids, f.item, x, i);
    } else {
      OwnerIn(f.rest, q, x);
      ListInside(f, q, x);
      BehindListed(f.rest, q, x, i);
    }
  }

  lemma ListInside(f: Forest, q: Item, x: Item)
    requires Distinct(f) && q !in Nodes(f) && x in Nodes(f) && x !in Heads(f)
    ensures f.item != x
    ensures x in Nodes(f.kids) ==> ListOf(f, q, Owner(f, q, x)) == ListOf(f.kids, f.item, Owner(f, q, x))
    ensures x !in Nodes(f.kids) ==> x in Nodes(f.rest) && ListOf(f, q, Owner(f, q, x)) == ListOf(f.rest, q, Owner(f, q, x))
  {
    if x in Nodes(f.kids) {
      OwnerIn(f.kids, f.item, x);
    } else {
      OwnerIn(f.rest, q, x);
    }
  }

  lemma HeadsNone(f: Forest)
    requires Heads(f) == []
    ensures f.Nil?
  {
  }

  /** The tree behind an item is as the heap has it. */
  lemma {:induction false} BehindIs(f: Forest, q: Item, x: Item)
    requires Live(f, q)
    ensures var b := Behind(f, x); b.Cons? ==> b.body == b.item.body && Heads(b.kids) == b.item.children
  {
    if f.Cons? {
      BehindIs(f.kids, f.item, x);
      BehindIs(f.rest, q, x);
    }
  }
}
