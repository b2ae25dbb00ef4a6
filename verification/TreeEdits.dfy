/** Editing a tree of items: putting items in place of one, and giving one a child. */
module TreeEdits {
  import opened Bytes
  import opened Trees
  import opened Relink

  /** `g` in place of the item `r`. */
  ghost function Swap(f: Forest, r: Item, g: Forest): Forest {
    match f
    case Nil => Nil
    case Cons(n, b, kids, rest) =>
      if n == r then Append(g, rest) else Cons(n, b, Swap(kids, r, g), Swap(rest, r, g))
  }

  /** The item `x` with `g` behind the children it has. */
  ghost function AddKid(f: Forest, x: Item, g: Forest): Forest {
    match f
    case Nil => Nil
    case Cons(n, b, kids, rest) =>
      if n == x then Cons(n, b, Append(kids, g), rest) else Cons(n, b, AddKid(kids, x, g), AddKid(rest, x, g))
  }

  /** A list with others in place of one. */
  function Spliced<T(==)>(s: seq<T>, r: T, t: seq<T>): seq<T> {
    if s == [] then [] else if s[0] == r then t + s[1..] else [s[0]] + Spliced(s[1..], r, t)
  }

  lemma {:induction false} SplicedAt<T>(s: seq<T>, k: nat, t: seq<T>)
    requires k < |s| && forall i :: 0 <= i < k ==> s[i] != s[k]
    ensures Spliced(s, s[k], t) == s[..k] + t + s[k + 1..]
  {
    if k > 0 {
      SplicedAt(s[1..], k - 1, t);
      assert s[1..][..k - 1] == s[1..k] && s[1..][k..] == s[k + 1..];
      assert s[..k] == [s[0]] + s[1..k];
    }
  }

  lemma {:induction false} Absent(f: Forest, r: Item, g: Forest)
    requires r !in Nodes(f)
    ensures Swap(f, r, g) == f && AddKid(f, r, g) == f && r !in Heads(f)
  {
    if f.Cons? {
      Absent(f.kids, r, g);
      Absent(f.rest, r, g);
    }
  }

  lemma {:induction false} HeadsIn(f: Forest, n: Item)
    ensures n in Heads(f) ==> n in Nodes(f)
  {
    if f.Cons? {
      HeadsIn(f.rest, n);
    }
  }

  lemma {:induction false} SwapHeads(f: Forest, r: Item, g: Forest)
    requires Distinct(f)
    ensures Heads(Swap(f, r, g)) == Spliced(Heads(f), r, Heads(g))
  {
    if f.Cons? {
      if f.item == r {
        AppendMeans(g, f.rest);
      } else {
        SwapHeads(f.rest, r, g);
        assert Heads(f)[1..] == Heads(f.rest);
      }
    }
  }

  lemma {:induction false} SplicedAbsent<T>(s: seq<T>, r: T, t: seq<T>)
    requires r !in s
    ensures Spliced(s, r, t) == s
  {
    if s != [] {
      SplicedAbsent(s[1..], r, t);
    }
  }

  lemma {:induction false} AddKidHeads(f: Forest, x: Item, g: Forest)
    ensures Heads(AddKid(f, x, g)) == Heads(f)
  {
    if f.Cons? && f.item != x {
      AddKidHeads(f.rest, x, g);
    }
  }

  lemma {:induction false} AppendDistinct(f: Forest, g: Forest)
    requires Distinct(f) && Distinct(g) && Nodes(f) !! Nodes(g)
    ensures Distinct(Append(f, g))
  {
    if f.Cons? {
      AppendDistinct(f.rest, g);
      AppendMeans(f.rest, g);
    }
  }

  /** An item of the forest that holds nothing. */
  ghost predicate Leaf(f: Forest, r: Item) {
    r in Nodes(f) && Sub(f, r).kids.Nil?
  }

  lemma LeafInside(f: Forest, r: Item)
    requires Leaf(f, r)
    ensures f.Cons? && (f.item == r ==> f.kids.Nil?)
    ensures f.item == r ==> Sub(f, r).body == f.body && Start(f, r) == 0
    ensures f.item != r && r in Nodes(f.kids) ==>
              Leaf(f.kids, r) && Sub(f, r).body == Sub(f.kids, r).body && Start(f, r) == Own(f.body) + Start(f.kids, r)
    ensures f.item != r && r !in Nodes(f.kids) ==>
              Leaf(f.rest, r) && Sub(f, r).body == Sub(f.rest, r).body && Start(f, r) == Own(f.body) + Size(f.kids) + Start(f.rest, r)
  {
  }

  /** Where the edit of a forest takes place. */
  lemma SwapStep(f: Forest, r: Item, g: Forest)
    requires Distinct(f) && Leaf(f, r)
    ensures f.Cons? && Distinct(f.kids) && Distinct(f.rest)
    ensures f.item == r ==> Swap(f, r, g) == Append(g, f.rest) && f.kids.Nil? && r !in Nodes(f.rest)
    ensures f.item != r && r in Nodes(f.kids) ==>
              Leaf(f.kids, r) && r !in Nodes(f.rest) && Swap(f, r, g) == Cons(f.item, f.body, Swap(f.kids, r, g), f.rest)
    ensures f.item != r && r !in Nodes(f.kids) ==>
              Leaf(f.rest, r) && Swap(f, r, g) == Cons(f.item, f.body, f.kids, Swap(f.rest, r, g))
  {
    LeafInside(f, r);
    if f.item != r {
      if r in Nodes(f.kids) {
        Absent(f.rest, r, g);
      } else {
        Absent(f.kids, r, g);
      }
    }
  }

  /** The items of the edited tree: those of the old one without `r`, and those of `g`. */
  lemma {:induction false} SwapDistinct(f: Forest, r: Item, g: Forest)
    requires Distinct(f) && Distinct(g) && Leaf(f, r) && forall n :: n in Nodes(g) && n in Nodes(f) ==> n == r
    ensures Distinct(Swap(f, r, g)) && Nodes(Swap(f, r, g)) == Nodes(f) - {r} + Nodes(g)
  {
    hide Sub, Swap, Leaf;
    SwapStep(f, r, g);
    if f.item == r {
      AppendDistinct(g, f.rest);
      AppendMeans(g, f.rest);
    } else if r in Nodes(f.kids) {
      SwapDistinct(f.kids, r, g);
    } else {
      SwapDistinct(f.rest, r, g);
    }
  }

  lemma {:induction false} AddKidDistinct(f: Forest, x: Item, g: Forest)
    requires Distinct(f) && Distinct(g) && Nodes(g) !! Nodes(f) && x in Nodes(f)
    ensures Distinct(AddKid(f, x, g)) && Nodes(AddKid(f, x, g)) == Nodes(f) + Nodes(g)
  {
    if f.item == x {
      AppendDistinct(f.kids, g);
      AppendMeans(f.kids, g);
    } else if x in Nodes(f.kids) {
      AddKidDistinct(f.kids, x, g);
      Absent(f.rest, x, g);
    } else {
      AddKidDistinct(f.rest, x, g);
      Absent(f.kids, x, g);
    }
  }

  lemma {:induction false} SwapAppend(a: Forest, b: Forest, r: Item, g: Forest)
    requires r !in Nodes(a) || r !in Nodes(b)
    ensures Swap(Append(a, b), r, g) == Append(Swap(a, r, g), Swap(b, r, g))
  {
    if a.Cons? {
      if a.item == r {
        Absent(b, r, g);
        AppendAssoc(g, a.rest, b);
      } else {
        SwapAppend(a.rest, b, r, g);
      }
    }
  }

  /** Editing what was just put in is putting in the edited. */
  lemma {:induction false} SwapSwap(f: Forest, r: Item, g: Forest, t: Item, h: Forest)
    requires Distinct(f) && r in Nodes(f) && (t == r || t !in Nodes(f))
    ensures Swap(Swap(f, r, g), t, h) == Swap(f, r, Swap(g, t, h))
  {
    if f.item == r {
      Absent(f.rest, t, h);
      SwapAppend(g, f.rest, t, h);
    } else {
      if r in Nodes(f.kids) {
        SwapSwap(f.kids, r, g, t, h);
        Absent(f.rest, t, h);
        Absent(f.rest, r, g);
        Absent(f.rest, r, Swap(g, t, h));
      } else {
        SwapSwap(f.rest, r, g, t, h);
        Absent(f.kids, t, h);
        Absent(f.kids, r, g);
        Absent(f.kids, r, Swap(g, t, h));
      }
    }
  }

  lemma {:induction false} AppendLeaves(f: Forest, g: Forest)
    ensures Leaves(Append(f, g)) <==> Leaves(f) && Leaves(g)
  {
    if f.Cons? {
      AppendLeaves(f.rest, g);
    }
  }

  lemma {:induction false} AppendRefs(f: Forest, g: Forest, known: set<string>)
    ensures AllRefsKnown(Append(f, g), known) <==> AllRefsKnown(f, known) && AllRefsKnown(g, known)
  {
    if f.Cons? {
      AppendRefs(f.rest, g, known);
    }
  }

  lemma {:induction false} SwapLeaves(f: Forest, r: Item, g: Forest)
    requires Distinct(f) && Leaf(f, r) && Leaves(f) && Leaves(g)
    ensures Leaves(Swap(f, r, g))
  {
    if f.item == r {
      AppendLeaves(g, f.rest);
    } else if r in Nodes(f.kids) {
      SwapLeaves(f.kids, r, g);
      Absent(f.rest, r, g);
    } else {
      Absent(f.kids, r, g);
      SwapLeaves(f.rest, r, g);
    }
  }

  lemma {:induction false} SwapRefs(f: Forest, r: Item, g: Forest, known: set<string>)
    requires Distinct(f) && Leaf(f, r) && AllRefsKnown(f, known) && AllRefsKnown(g, known)
    ensures AllRefsKnown(Swap(f, r, g), known)
  {
    if f.item == r {
      AppendRefs(g, f.rest, known);
    } else if r in Nodes(f.kids) {
      SwapRefs(f.kids, r, g, known);
      Absent(f.rest, r, g);
    } else {
      Absent(f.kids, r, g);
      SwapRefs(f.rest, r, g, known);
    }
  }

  lemma LeafIn(f: Forest, r: Item)
    requires Leaf(f, r)
    ensures r in Nodes(f)
  {
  }

  /** What follows an item in the list it is in. */
  ghost function Behind(f: Forest, x: Item): Forest {
    match f
    case Nil => Nil
    case Cons(n, _, kids, rest) => if n == x then rest else if x in Nodes(kids) then Behind(kids, x) else Behind(rest, x)
  }

  /** The item right behind `x` becomes the last child of `x`. */
  ghost function Adopt(f: Forest, x: Item): Forest {
    match f
    case Nil => Nil
    case Cons(n, b, kids, rest) =>
      if n == x && rest.Cons? then Cons(n, b, Append(kids, First(rest)), rest.rest)
      else Cons(n, b, Adopt(kids, x), Adopt(rest, x))
  }

  lemma {:induction false} BehindIn(f: Forest, x: Item)
    ensures Nodes(Behind(f, x)) <= Nodes(f)
  {
    if f.Cons? {
      BehindIn(f.kids, x);
      BehindIn(f.rest, x);
    }
  }

  lemma {:induction false} AdoptAbsent(f: Forest, x: Item)
    requires x !in Nodes(f)
    ensures Adopt(f, x) == f
  {
    if f.Cons? {
      AdoptAbsent(f.kids, x);
      AdoptAbsent(f.rest, x);
    }
  }

  /** Taking the next item in is taking it out of its list and putting it behind the children. */
  lemma {:induction false} AdoptSteps(f: Forest, x: Item)
    requires Distinct(f) && x in Nodes(f) && Behind(f, x).Cons? && Behind(f, x).kids.Nil?
    ensures var c := Behind(f, x); c.item in Nodes(f) && c.item != x && Adopt(f, x) == AddKid(Swap(f, c.item, Nil), x, First(c))
  {
    var c := Behind(f, x);
    BehindIn(f.kids, x);
    BehindIn(f.rest, x);
    if f.item == x {
      assert Swap(f.rest, c.item, Nil) == f.rest.rest;
      Absent(f.kids, c.item, Nil);
    } else if x in Nodes(f.kids) {
      AdoptSteps(f.kids, x);
      AdoptAbsent(f.rest, x);
      Absent(f.rest, c.item, Nil);
      Absent(f.rest, x, First(c));
    } else {
      AdoptSteps(f.rest, x);
      AdoptAbsent(f.kids, x);
      Absent(f.kids, c.item, Nil);
      Absent(f.kids, x, First(c));
    }
  }

  lemma {:induction false} AdoptNodes(f: Forest, x: Item)
    requires Distinct(f)
    ensures Nodes(Adopt(f, x)) == Nodes(f) && Distinct(Adopt(f, x)) && Size(Adopt(f, x)) == Size(f)
  {
    if f.Cons? {
      if f.item == x && f.rest.Cons? {
        AppendMeans(f.kids, First(f.rest));
        AppendDistinct(f.kids, First(f.rest));
      } else {
        AdoptNodes(f.kids, x);
        AdoptNodes(f.rest, x);
      }
    }
  }

  lemma PlacedOpen(f: Forest, at: nat)
    requires f.Cons?
    ensures var a, b := at + Own(f.body), at + Own(f.body) + Size(f.kids);
            Placed(f, at) <==> f.item.position == at && Placed(f.kids, a) && Placed(f.rest, b)
  {
  }

  lemma PlacedFirst(f: Forest, at: nat)
    requires f.Cons?
    ensures Placed(First(f), at) <==> f.item.position == at && Placed(f.kids, at + Own(f.body))
    ensures Size(First(f)) == Own(f.body) + Size(f.kids)
  {
  }

  lemma AdoptStep(f: Forest, x: Item)
    requires f.Cons?
    ensures Adopt(f, x) == if f.item == x && f.rest.Cons? then Cons(x, f.body, Append(f.kids, First(f.rest)), f.rest.rest)
                           else Cons(f.item, f.body, Adopt(f.kids, x), Adopt(f.rest, x))
    ensures Distinct(f) ==> Distinct(f.kids) && Distinct(f.rest)
  {
  }

  lemma AdoptNil(x: Item, at: nat)
    ensures Placed(Adopt(Nil, x), at)
  {
  }

  /** Taking the next item in moves nothing. */
  lemma {:induction false} AdoptPlaced(f: Forest, x: Item, at: nat)
    requires Distinct(f) && Placed(f, at)
    ensures Placed(Adopt(f, x), at)
  {
    hide *;
    AdoptNil(x, at);
    if f.Cons? {
      AdoptStep(f, x);
      PlacedOpen(f, at);
      PlacedOpen(Adopt(f, x), at);
      var a, b := at + Own(f.body), at + Own(f.body) + Size(f.kids);
      if f.item == x && f.rest.Cons? {
        AppendMeans(f.kids, First(f.rest));
        PlacedOpen(f.rest, b);
        PlacedFirst(f.rest, b);
        AppendPlaced(f.kids, First(f.rest), a);
      } else {
        AdoptNodes(f.kids, x);
        AdoptPlaced(f.kids, x, a);
        AdoptPlaced(f.rest, x, b);
      }
    }
  }

  lemma {:induction false} AdoptAppend(a: Forest, b: Forest, x: Item)
    requires x !in Nodes(b) && x in Nodes(a) && Distinct(a) && Behind(a, x).Cons?
    ensures Adopt(Append(a, b), x) == Append(Adopt(a, x), b)
  {
    if a.item != x {
      AdoptAbsent(b, x);
      if x in Nodes(a.kids) {
        AdoptAbsent(a.rest, x);
        AppendMeans(a.rest, b);
        AdoptAbsent(Append(a.rest, b), x);
      } else {
        AdoptAppend(a.rest, b, x);
      }
    }
  }

  lemma {:induction false} AdoptSwap(f: Forest, r: Item, g: Forest, x: Item)
    requires Distinct(f) && Distinct(g) && Leaf(f, r) && x !in Nodes(f) && x in Nodes(g) && Behind(g, x).Cons?
    ensures Adopt(Swap(f, r, g), x) == Swap(f, r, Adopt(g, x))
  {
    hide Leaf, Sub;
    SwapStep(f, r, g);
    SwapStep(f, r, Adopt(g, x));
    if f.item == r {
      AdoptAppend(g, f.rest, x);
    } else if r in Nodes(f.kids) {
      AdoptSwap(f.kids, r, g, x);
      AdoptAbsent(f.rest, x);
    } else {
      AdoptSwap(f.rest, r, g, x);
      AdoptAbsent(f.kids, x);
    }
  }

  lemma {:induction false} AddKidLeaves(f: Forest, x: Item, g: Forest)
    requires Leaves(f) && Leaves(g) && (x in Nodes(f) ==> MayHold(Sub(f, x).body)) && Distinct(f)
    ensures Leaves(AddKid(f, x, g))
  {
    if f.Cons? {
      if f.item == x {
        AppendLeaves(f.kids, g);
      } else {
        AddKidLeaves(f.kids, x, g);
        AddKidLeaves(f.rest, x, g);
      }
    }
  }

  lemma {:induction false} AdoptKeeps(f: Forest, x: Item, known: set<string>)
    requires Leaves(f) && AllRefsKnown(f, known) && (x in Nodes(f) ==> MayHold(Sub(f, x).body)) && Distinct(f)
    ensures Leaves(Adopt(f, x)) && AllRefsKnown(Adopt(f, x), known)
  {
    if f.Cons? {
      if f.item == x && f.rest.Cons? {
        AppendLeaves(f.kids, First(f.rest));
        AppendRefs(f.kids, First(f.rest), known);
      } else {
        AdoptKeeps(f.kids, x, known);
        AdoptKeeps(f.rest, x, known);
      }
    }
  }

  /** The item behind a childless one stands where that ends. */
  lemma {:induction false} BehindPlaced(f: Forest, at: nat, x: Item)
    requires Placed(f, at) && Leaf(f, x) && Behind(f, x).Cons?
    ensures Behind(f, x).item.position == x.position + Own(Sub(f, x).body)
  {
    hide Own;
    LeafInside(f, x);
    if f.item == x {
      assert Size(f.kids) == 0;
    } else if x in Nodes(f.kids) {
      BehindPlaced(f.kids, at + Own(f.body), x);
    } else {
      BehindPlaced(f.rest, at + Own(f.body) + Size(f.kids), x);
    }
  }

  /** In a list, the item behind another is the next one. */
  lemma {:induction false} BehindNext(f: Forest, x: Item, i: nat)
    requires Distinct(f) && i < |Heads(f)| && Heads(f)[i] == x
    ensures Behind(f, x).Cons? <==> i + 1 < |Heads(f)|
    ensures Behind(f, x).Cons? ==> Behind(f, x).item == Heads(f)[i + 1]
  {
    HeadsIn(f.rest, x);
    if i > 0 {
      assert Heads(f)[1..] == Heads(f.rest) && Heads(f.rest)[i - 1] == x;
      BehindNext(f.rest, x, i - 1);
    } else if f.rest.Cons? {
      assert Heads(f)[1] == f.rest.item;
    }
  }

  lemma {:induction false} BehindAppend(g: Forest, f: Forest, x: Item)
    requires x !in Nodes(g)
    ensures Behind(Append(g, f), x) == Behind(f, x)
  {
    if g.Cons? {
      BehindAppend(g.rest, f, x);
    }
  }

  /** What follows an item after an edit elsewhere: what did before, or the first of the pieces. */
  lemma {:induction false} BehindSwap(f: Forest, x: Item, r: Item, g: Forest)
    requires Distinct(f) && Distinct(g) && Leaf(f, r) && x in Nodes(f) && x != r && g.Cons? && x !in Nodes(g)
    requires forall n :: n in Nodes(g) && n in Nodes(f) ==> n == r
    ensures var was, now := Behind(f, x), Behind(Swap(f, r, g), x);
            && (now.Cons? <==> was.Cons?)
            && (was.Cons? ==> now.item == if was.item == r then g.item else was.item)
            && (was.Cons? && was.item == r ==> now.kids == g.kids)
  {
    hide Leaf, Sub;
    SwapStep(f, r, g);
    if f.item == r {
      BehindAppend(g, f.rest, x);
      BehindIn(f.rest, x);
    } else if f.item == x {
      if r !in Nodes(f.kids) {
        SwapStep(f.rest, r, g);
      }
    } else if r in Nodes(f.kids) {
      SwapDistinct(f.kids, r, g);
      if x in Nodes(f.kids) {
        BehindSwap(f.kids, x, r, g);
      } else {
        BehindIn(f.rest, x);
      }
    } else {
      SwapDistinct(f.rest, r, g);
      if x in Nodes(f.kids) {
        BehindIn(f.kids, x);
      } else {
        BehindSwap(f.rest, x, r, g);
      }
    }
  }

  lemma {:induction false} BehindAppendIn(g: Forest, f: Forest, x: Item)
    requires x in Nodes(g) && Distinct(g) && Behind(g, x).Cons?
    ensures Behind(Append(g, f), x).Cons? && Behind(Append(g, f), x).item == Behind(g, x).item
  {
    if g.item != x {
      if x in Nodes(g.kids) {
      } else {
        BehindAppendIn(g.rest, f, x);
      }
    }
  }

  /** What follows one of the new pieces. */
  lemma {:induction false} BehindNew(f: Forest, r: Item, g: Forest, x: Item)
    requires Distinct(f) && Distinct(g) && Leaf(f, r) && x !in Nodes(f) && x in Nodes(g) && Behind(g, x).Cons?
    requires forall n :: n in Nodes(g) && n in Nodes(f) ==> n == r
    ensures Behind(Swap(f, r, g), x).Cons? && Behind(Swap(f, r, g), x).item == Behind(g, x).item
  {
    hide Leaf, Sub;
    SwapStep(f, r, g);
    if f.item == r {
      BehindAppendIn(g, f.rest, x);
    } else if r in Nodes(f.kids) {
      SwapDistinct(f.kids, r, g);
      BehindNew(f.kids, r, g, x);
    } else {
      SwapDistinct(f.rest, r, g);
      BehindNew(f.rest, r, g, x);
    }
  }

  /** Emptying an item and then putting others in its place is putting them in its place. */
  lemma {:induction false} SwapEmptied(f: Forest, x: Item, c: Item, g: Forest)
    requires Distinct(f) && x in Nodes(f) && c in Nodes(Sub(f, x).kids)
    ensures Swap(Swap(f, c, Nil), x, g) == Swap(f, x, g)
  {
    SubNodes(f, x);
    if f.item == x {
      Absent(f.rest, c, Nil);
    } else if x in Nodes(f.kids) {
      SubNodes(f.kids, x);
      SwapEmptied(f.kids, x, c, g);
      Absent(f.rest, c, Nil);
    } else {
      SubNodes(f.rest, x);
      SwapEmptied(f.rest, x, c, g);
      Absent(f.kids, c, Nil);
    }
  }

  lemma {:induction false} SubNodes(f: Forest, x: Item)
    requires x in Nodes(f)
    ensures Nodes(Sub(f, x)) <= Nodes(f) && Nodes(Sub(f, x).kids) <= Nodes(Sub(f, x))
    ensures Distinct(f) ==> Distinct(Sub(f, x)) && x !in Nodes(Sub(f, x).kids)
  {
    if f.item == x {
    } else if x in Nodes(f.kids) {
      SubNodes(f.kids, x);
    } else {
      SubNodes(f.rest, x);
    }
  }

  lemma SwapAnyStep(f: Forest, x: Item, g: Forest)
    requires Distinct(f) && x in Nodes(f)
    ensures f.Cons? && Distinct(f.kids) && Distinct(f.rest) && Size(f) == Own(f.body) + Size(f.kids) + Size(f.rest)
    ensures f.item == x ==> Swap(f, x, g) == Append(g, f.rest) && Sub(f, x) == First(f) && Start(f, x) == 0
    ensures f.item != x && x in Nodes(f.kids) ==>
              && Swap(f, x, g) == Cons(f.item, f.body, Swap(f.kids, x, g), f.rest)
              && Sub(f, x) == Sub(f.kids, x) && Start(f, x) == Own(f.body) + Start(f.kids, x)
    ensures f.item != x && x !in Nodes(f.kids) ==>
              && x in Nodes(f.rest) && Swap(f, x, g) == Cons(f.item, f.body, f.kids, Swap(f.rest, x, g))
              && Sub(f, x) == Sub(f.rest, x) && Start(f, x) == Own(f.body) + Size(f.kids) + Start(f.rest, x)
  {
    if f.item != x {
      if x in Nodes(f.kids) {
        Absent(f.rest, x, g);
      } else {
        Absent(f.kids, x, g);
      }
    }
  }

  lemma SizeOpen(f: Forest)
    requires f.Cons?
    ensures Size(f) == Own(f.body) + Size(f.kids) + Size(f.rest)
  {
  }

  /** Putting items in place of one and all it holds, of the same size, moves nothing else. */
  lemma {:induction false} SwapWhole(f: Forest, at: nat, x: Item, g: Forest)
    requires Distinct(f) && x in Nodes(f) && Placed(f, at) && Size(g) == Size(Sub(f, x)) && Placed(g, at + Start(f, x))
    ensures Placed(Swap(f, x, g), at) && Size(Swap(f, x, g)) == Size(f)
  {
    hide *;
    SwapAnyStep(f, x, g);
    PlacedOpen(f, at);
    var f', a, b := Swap(f, x, g), at + Own(f.body), at + Own(f.body) + Size(f.kids);
    if f.item == x {
      WholeSize(f);
      AppendPlaced(g, f.rest, at);
      AppendMeans(g, f.rest);
    } else if x in Nodes(f.kids) {
      SwapWhole(f.kids, a, x, g);
      PlacedOpen(f', at);
      SizeOpen(f');
    } else {
      SwapWhole(f.rest, b, x, g);
      PlacedOpen(f', at);
      SizeOpen(f');
    }
  }

  /** An item whose only child is taken out holds nothing. */
  lemma {:induction false} EmptiedLeaf(f: Forest, x: Item, c: Item)
    requires Distinct(f) && x in Nodes(f) && Sub(f, x).kids.Cons? && Sub(f, x).kids.item == c && Sub(f, x).kids.rest.Nil?
    ensures Leaf(Swap(f, c, Nil), x) && c in Nodes(Sub(f, x).kids)
  {
    SubNodes(f, x);
    if f.item == x {
      Absent(f.rest, c, Nil);
    } else if x in Nodes(f.kids) {
      SubNodes(f.kids, x);
      EmptiedLeaf(f.kids, x, c);
      Absent(f.rest, c, Nil);
    } else {
      SubNodes(f.rest, x);
      EmptiedLeaf(f.rest, x, c);
      Absent(f.kids, c, Nil);
    }
  }

  lemma WholeSize(f: Forest)
    requires f.Cons?
    ensures Size(First(f)) == Own(f.body) + Size(f.kids) && Sub(f, f.item) == First(f)
  {
  }

  lemma {:induction false} RefsSwap(f: Forest, x: Item, g: Forest, known: set<string>)
    requires AllRefsKnown(f, known) && AllRefsKnown(g, known)
    ensures AllRefsKnown(Swap(f, x, g), known)
  {
    if f.Cons? {
      if f.item == x {
        AppendRefs(g, f.rest, known);
      } else {
        RefsSwap(f.kids, x, g, known);
        RefsSwap(f.rest, x, g, known);
      }
    }
  }
}
