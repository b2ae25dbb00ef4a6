/** After positions have been set, every item of a tree is where its bytes are in the dump. */
module Relink {
  import opened Bytes
  import opened Words
  import P = StcmParams
  import opened StcmInstructions
  import opened StcmStrings
  import opened Trees

  /** An item of a forest with all it holds. */
  ghost function Sub(f: Forest, n: Item): (s: Forest)
    ensures n in Nodes(f) ==> s.Cons? && s.item == n && s.rest.Nil?
  {
    match f
    case Nil => Nil
    case Cons(m, b, kids, rest) =>
      if m == n then First(f) else if n in Nodes(kids) then Sub(kids, n) else Sub(rest, n)
  }

  /** Where the bytes of an item start in the dump of a forest, by the sizes of what is dumped before it. */
  ghost function Start(f: Forest, n: Item): nat {
    match f
    case Nil => 0
    case Cons(m, b, kids, rest) =>
      if m == n then 0
      else if n in Nodes(kids) then Own(b) + Start(kids, n)
      else Own(b) + Size(kids) + Start(rest, n)
  }

  lemma OwnLength(b: Body, size: nat, pos: Positions)
    requires BodyOk(b)
    ensures |OwnBytes(b, size, pos)| == Weigh(b)
  {
    hide EncWords, InstrBytes, StringBytes;
    match b {
      case Instruction(i) => InstrLength(Resolve(i, pos), size);
      case StringData(str, _) => StringLength(str);
      case Data(k, u, f) =>
        Sums();
        WordsLength(true, HeaderWords, [k, u, f, P.Trunc(if size < 16 then 0 else size - 16)]);
      case _ =>
    }
  }

  /** Every item dumps exactly its size. */
  lemma {:induction false} ImageLength(f: Forest, pos: Positions)
    requires Leaves(f) && Tight(f) == f
    ensures |Image(f, pos)| == Size(f)
  {
    hide OwnBytes, Own;
    if f.Cons? {
      OwnLength(f.body, Own(f.body) + Size(f.kids), pos);
      ImageLength(f.kids, pos);
      ImageLength(f.rest, pos);
    }
  }

  ghost predicate Holds(b: seq<byte>, at: nat, part: seq<byte>) {
    at + |part| <= |b| && b[at..at + |part|] == part
  }

  lemma HoldsInside(a: seq<byte>, b: seq<byte>, c: seq<byte>, at: nat, part: seq<byte>)
    requires Holds(b, at, part)
    ensures Holds(a + b + c, |a| + at, part)
  {
    MiddleSlice(a, b, c, at, at + |part|);
  }

  lemma ImageOpen(f: Forest, pos: Positions)
    requires f.Cons? && Leaves(f) && Tight(f) == f
    ensures Tight(f.kids) == f.kids && Tight(f.rest) == f.rest && Weigh(f.body) == Own(f.body)
    ensures Image(f, pos) == OwnBytes(f.body, Own(f.body) + Size(f.kids), pos) + Image(f.kids, pos) + Image(f.rest, pos)
    ensures BodyOk(f.body) && Leaves(f.kids) && Leaves(f.rest) && Leaves(First(f))
  {
    hide *;
    TightParts(f);
    ImageParts(f, pos);
    LeavesParts(f);
  }

  lemma ImageParts(f: Forest, pos: Positions)
    requires f.Cons?
    ensures Image(f, pos) == OwnBytes(f.body, Own(f.body) + Size(f.kids), pos) + Image(f.kids, pos) + Image(f.rest, pos)
  {
    hide OwnBytes, Own, Size;
  }

  lemma LeavesParts(f: Forest)
    requires f.Cons? && Leaves(f)
    ensures BodyOk(f.body) && Leaves(f.kids) && Leaves(f.rest) && Leaves(First(f))
  {
    hide BodyOk;
  }

  lemma TightParts(f: Forest)
    requires f.Cons? && Tight(f) == f
    ensures Tight(f.kids) == f.kids && Tight(f.rest) == f.rest && Weigh(f.body) == Own(f.body)
  {
    hide Own;
    assert Tight(f) == Cons(f.item, TightBody(f.body), Tight(f.kids), Tight(f.rest));
  }

  /** The dump of an item is found in the dump of the whole where the item starts. */
  lemma {:induction false} DumpedAtStart(f: Forest, n: Item, pos: Positions)
    requires Leaves(f) && n in Nodes(f) && Tight(f) == f
    ensures Sub(f, n).Cons? && Sub(f, n).item == n && Sub(f, n).rest.Nil? && Leaves(Sub(f, n))
    ensures Holds(Image(f, pos), Start(f, n), Image(Sub(f, n), pos))
  {
    hide OwnBytes, Own, Holds, Image, Leaves;
    ImageOpen(f, pos);
    var own, kids, rest := OwnBytes(f.body, Own(f.body) + Size(f.kids), pos), Image(f.kids, pos), Image(f.rest, pos);
    OwnLength(f.body, Own(f.body) + Size(f.kids), pos);
    ImageLength(f.kids, pos);
    if f.item == n {
      FirstHeld(own + kids, rest);
      FirstImage(First(f), pos);
    } else if n in Nodes(f.kids) {
      DumpedAtStart(f.kids, n, pos);
      HoldsInside(own, kids, rest, Start(f.kids, n), Image(Sub(f.kids, n), pos));
    } else {
      DumpedAtStart(f.rest, n, pos);
      HoldsInside(own + kids, rest, [], Start(f.rest, n), Image(Sub(f.rest, n), pos));
      assert own + kids + rest + [] == own + kids + rest;
    }
  }

  lemma FirstHeld(a: seq<byte>, b: seq<byte>)
    ensures Holds(a + b, 0, a)
  {
  }

  /** The position of an item is where it starts. */
  lemma {:induction false} PlacedAtStart(f: Forest, n: Item, at: nat)
    requires Placed(f, at) && n in Nodes(f)
    ensures n.position == at + Start(f, n)
  {
    if n == f.item {
    } else if n in Nodes(f.kids) {
      PlacedAtStart(f.kids, n, at + Own(f.body));
    } else {
      PlacedAtStart(f.rest, n, at + Own(f.body) + Size(f.kids));
    }
  }

  lemma {:induction false} SubLive(f: Forest, parent: Item, n: Item)
    requires Live(f, parent) && n in Nodes(f)
    ensures Sub(f, n).Cons? && Sub(f, n).item == n && Sub(f, n).body == n.body && Heads(Sub(f, n).kids) == n.children
    ensures Live(Sub(f, n).kids, n)
  {
    if n == f.item {
    } else if n in Nodes(f.kids) {
      SubLive(f.kids, f.item, n);
    } else {
      SubLive(f.rest, parent, n);
    }
  }

  /** A raw item holds nothing. */
  lemma {:induction false} SubLeaves(f: Forest, n: Item)
    requires Leaves(f) && n in Nodes(f)
    ensures Leaves(Sub(f, n)) && BodyOk(Sub(f, n).body) && (MayHold(Sub(f, n).body) || Sub(f, n).kids.Nil?)
  {
    if n == f.item {
    } else if n in Nodes(f.kids) {
      SubLeaves(f.kids, n);
    } else {
      SubLeaves(f.rest, n);
    }
  }
}
