/** What disassembling an STCM tree keeps and what it reaches. */
module StcmClosure {
  import opened Bytes
  import opened Words
  import P = StcmParams
  import opened StcmInstructions
  import opened StcmStrings
  import opened Trees
  import opened Relink
  import opened TreeEdits
  import opened TreeHeaps

  /** What an instruction expects where a label points. */
  datatype Demand = Code(lbl: string) | Datum(lbl: string)

  function ParamDemands(p: P.Param<string>): seq<Demand> {
    match p
    case Memory(t, _, _) => [Datum(t)]
    case InstrPtr0(t) => [Code(t)]
    case InstrPtr1(t) => [Code(t)]
    case _ => []
  }

  function ParamsDemands(ps: seq<P.Param<string>>): seq<Demand> {
    if ps == [] then [] else ParamsDemands(ps[..|ps| - 1]) + ParamDemands(ps[|ps| - 1])
  }

  function CallDemands(i: Instr<string>): seq<Demand> {
    if i.target.Call? then [Code(i.target.target)] else []
  }

  function Demands(i: Instr<string>): seq<Demand> {
    CallDemands(i) + ParamsDemands(i.params)
  }

  /** Instructions 0 and 6 do not return. */
  predicate FallsThrough(i: Instr<string>) {
    i.target.Call? || (i.target.number != 0 && i.target.number != 6)
  }

  ghost function BodyOf(f: Forest, n: Item): Body {
    if n in Nodes(f) then Sub(f, n).body else Root
  }

  /** What serves a demand: a string serves one for data, if it was made from the data item. */
  ghost predicate Suits(d: Demand, b: Body) {
    match d
    case Code(_) => b.Instruction?
    case Datum(_) => b.Data? || b.StringData?
  }

  /** What a demand takes when it is already there: the class is checked, and strings are not data items. */
  ghost predicate Accepts(d: Demand, b: Body) {
    match d
    case Code(_) => b.Instruction?
    case Datum(_) => b.Data?
  }

  /** The label points to the start of what is asked for. */
  ghost predicate Met(f: Forest, labels: map<string, Ptr>, d: Demand) {
    d.lbl in labels && labels[d.lbl].offset == 0 && Suits(d, BodyOf(f, labels[d.lbl].item))
  }

  ghost predicate AllMet(f: Forest, labels: map<string, Ptr>, ds: seq<Demand>, n: nat) {
    n <= |ds| && forall j {:trigger ds[j]} :: 0 <= j < n ==> Met(f, labels, ds[j])
  }

  /** An instruction follows in the same list. */
  ghost predicate Followed(f: Forest, n: Item) {
    Behind(f, n).Cons? && BodyOf(f, Behind(f, n).item).Instruction?
  }

  /** All an instruction leads to has been disassembled. */
  ghost predicate Closed(f: Forest, labels: map<string, Ptr>, n: Item) {
    var b := BodyOf(f, n);
    b.Instruction? ==>
      AllMet(f, labels, Demands(b.instr), |Demands(b.instr)|) && (FallsThrough(b.instr) ==> Followed(f, n))
  }

  /** So it is for every instruction but those being worked on. */
  ghost predicate ClosedBut(f: Forest, labels: map<string, Ptr>, pending: set<Item>) {
    forall n {:trigger n in Nodes(f)} :: n in Nodes(f) && n !in pending ==> Closed(f, labels, n)
  }

  /** Disassembly changes raw items only: others stay what they are, keep the labels that point to them and
      what follows them. */
  ghost predicate Onward(f: Forest, labels: map<string, Ptr>, f': Forest, labels': map<string, Ptr>) {
    && RawBytes(f') <= RawBytes(f)
    && (forall n {:trigger n in Nodes(f)} :: n in Nodes(f) && !BodyOf(f, n).Raw? ==> n in Nodes(f') && BodyOf(f', n) == BodyOf(f, n))
    && (forall l {:trigger l in labels} :: l in labels ==>
         l in labels' && (labels[l].item in Nodes(f) && !BodyOf(f, labels[l].item).Raw? ==> labels'[l] == labels[l]))
    && (forall n {:trigger Behind(f, n)} :: n in Nodes(f) && !BodyOf(f, n).Raw? && NextTyped(f, n) ==> NextSame(f, f', n))
  }

  /** What follows is not raw. */
  ghost predicate NextTyped(f: Forest, n: Item) {
    Behind(f, n).Cons? && Behind(f, n).item in Nodes(f) && !BodyOf(f, Behind(f, n).item).Raw?
  }

  ghost predicate NextSame(f: Forest, f': Forest, n: Item) {
    Behind(f, n).Cons? && Behind(f', n).Cons? && Behind(f', n).item == Behind(f, n).item
  }

  /** New labels take nothing from the old ones. */
  lemma ExtendOnward(f: Forest, a: map<string, Ptr>, b: map<string, Ptr>)
    requires forall l :: l in a ==> l in b && b[l] == a[l]
    ensures Onward(f, a, f, b)
  {
    forall n | n in Nodes(f) && !BodyOf(f, n).Raw? && NextTyped(f, n)
      ensures NextSame(f, f, n)
    {
    }
  }

  lemma OnwardTransitive(f: Forest, a: map<string, Ptr>, g: Forest, b: map<string, Ptr>, h: Forest, c: map<string, Ptr>)
    requires Onward(f, a, g, b) && Onward(g, b, h, c)
    ensures Onward(f, a, h, c)
  {
    forall n | n in Nodes(f) && !BodyOf(f, n).Raw? && NextTyped(f, n)
      ensures NextSame(f, h, n)
    {
      assert Behind(f, n) == Behind(f, n) && NextSame(f, g, n);
      assert Behind(g, n).item in Nodes(g);
      assert NextTyped(g, n);
    }
  }

  lemma MetStays(f: Forest, a: map<string, Ptr>, g: Forest, b: map<string, Ptr>, d: Demand)
    requires Onward(f, a, g, b) && Met(f, a, d)
    ensures Met(g, b, d)
  {
  }

  lemma AllMetStays(f: Forest, a: map<string, Ptr>, g: Forest, b: map<string, Ptr>, ds: seq<Demand>, n: nat)
    requires Onward(f, a, g, b) && AllMet(f, a, ds, n)
    ensures AllMet(g, b, ds, n)
  {
    hide Onward, Met;
    forall j | 0 <= j < n
      ensures Met(g, b, ds[j])
    {
      MetStays(f, a, g, b, ds[j]);
    }
  }

  lemma FollowedStays(f: Forest, a: map<string, Ptr>, g: Forest, b: map<string, Ptr>, n: Item)
    requires Onward(f, a, g, b) && n in Nodes(f) && !BodyOf(f, n).Raw? && Followed(f, n)
    ensures Followed(g, n)
  {
    BehindIn(f, n);
    assert NextTyped(f, n);
    assert NextSame(f, g, n);
  }

  /** What an instruction leads to stays disassembled. */
  lemma ClosedStays(f: Forest, a: map<string, Ptr>, g: Forest, b: map<string, Ptr>, n: Item)
    requires Onward(f, a, g, b) && n in Nodes(f) && BodyOf(f, n).Instruction? && Closed(f, a, n)
    ensures n in Nodes(g) && Closed(g, b, n)
  {
    hide Demands, AllMet, Followed;
    var i := BodyOf(f, n).instr;
    AllMetStays(f, a, g, b, Demands(i), |Demands(i)|);
    if FallsThrough(i) {
      FollowedStays(f, a, g, b, n);
    }
  }

  /** An edit that brings in one new instruction at most leaves the others closed. */
  lemma ClosedButStays(f: Forest, a: map<string, Ptr>, g: Forest, b: map<string, Ptr>, pending: set<Item>, x: Item)
    requires Onward(f, a, g, b) && ClosedBut(f, a, pending)
    requires forall n {:trigger n in Nodes(g)} :: n in Nodes(g) && BodyOf(g, n).Instruction? && n != x ==>
               n in Nodes(f) && BodyOf(f, n).Instruction?
    ensures ClosedBut(g, b, pending + {x})
  {
    hide Onward;
    forall n | n in Nodes(g) && n !in pending + {x}
      ensures Closed(g, b, n)
    {
      if BodyOf(g, n).Instruction? {
        ClosedStays(f, a, g, b, n);
      }
    }
  }

  lemma {:induction false} BodyAppend(f: Forest, g: Forest, n: Item)
    ensures n in Nodes(f) ==> BodyOf(Append(f, g), n) == BodyOf(f, n)
    ensures n !in Nodes(f) ==> BodyOf(Append(f, g), n) == BodyOf(g, n)
  {
    AppendMeans(f, g);
    if f.Cons? {
      AppendMeans(f.rest, g);
      BodyAppend(f.rest, g, n);
    }
  }

  /** What the items are after an edit. */
  lemma {:induction false} BodySwap(f: Forest, r: Item, g: Forest, n: Item)
    requires Distinct(f) && Distinct(g) && Leaf(f, r) && forall m :: m in Nodes(g) && m in Nodes(f) ==> m == r
    ensures n in Nodes(g) ==> BodyOf(Swap(f, r, g), n) == BodyOf(g, n)
    ensures n !in Nodes(g) && n != r ==> BodyOf(Swap(f, r, g), n) == BodyOf(f, n)
  {
    hide Leaf, Swap;
    SwapStep(f, r, g);
    SwapDistinct(f, r, g);
    if f.item == r {
      BodyAppend(g, f.rest, n);
    } else if r in Nodes(f.kids) {
      SwapDistinct(f.kids, r, g);
      BodySwap(f.kids, r, g, n);
    } else {
      SwapDistinct(f.rest, r, g);
      BodySwap(f.rest, r, g, n);
    }
  }

  lemma {:induction false} SubAppend(f: Forest, g: Forest, n: Item)
    requires n in Nodes(f)
    ensures Sub(Append(f, g), n) == Sub(f, n)
  {
    if f.item != n && n !in Nodes(f.kids) {
      SubAppend(f.rest, g, n);
    }
  }

  /** What has been put in is found whole. */
  lemma {:induction false} SubSwap(f: Forest, r: Item, g: Forest, n: Item)
    requires Distinct(f) && Distinct(g) && Leaf(f, r) && n in Nodes(g) && n !in Nodes(f)
    requires forall m :: m in Nodes(g) && m in Nodes(f) ==> m == r
    ensures Sub(Swap(f, r, g), n) == Sub(g, n)
  {
    hide Leaf, Swap;
    SwapStep(f, r, g);
    if f.item == r {
      SubAppend(g, f.rest, n);
    } else if r in Nodes(f.kids) {
      SwapDistinct(f.kids, r, g);
      SubSwap(f.kids, r, g, n);
    } else {
      SwapDistinct(f.rest, r, g);
      SubSwap(f.rest, r, g, n);
    }
  }

  /** Pieces that hold one new item among raw ones: the rest of the tree goes on as it was. */
  lemma SwapOnward(f: Forest, a: map<string, Ptr>, r: Item, g: Forest, b: map<string, Ptr>)
    requires Distinct(f) && Distinct(g) && Leaf(f, r) && BodyOf(f, r).Raw? && g.Cons?
    requires forall m :: m in Nodes(g) && m in Nodes(f) ==> m == r
    requires RawBytes(g) <= Own(BodyOf(f, r))
    requires forall l {:trigger l in a} :: l in a ==> l in b && (a[l].item != r ==> b[l] == a[l])
    ensures Onward(f, a, Swap(f, r, g), b)
  {
    hide Swap, Behind, Leaf, Own, Sub;
    var f' := Swap(f, r, g);
    LeafIn(f, r);
    SwapDistinct(f, r, g);
    SwapRaw(f, r, g);
    forall n | n in Nodes(f) && !BodyOf(f, n).Raw?
      ensures n in Nodes(f') && BodyOf(f', n) == BodyOf(f, n)
    {
      BodySwap(f, r, g, n);
    }
    forall n | n in Nodes(f) && !BodyOf(f, n).Raw? && NextTyped(f, n)
      ensures NextSame(f, f', n)
    {
      BehindSwap(f, n, r, g);
    }
  }

  datatype DataHead = DataHead(kind: P.word, offsetUnit: P.word, field8: P.word, length: nat)

  /** The header of a data item at the start of `b`; None where the original throws. */
  function ReadData(b: seq<byte>): Option<DataHead> {
    if |b| < 16 then None
    else
      Sums();
      var h := DecWords(true, HeaderWords, b);
      if h[0] < 0xff && h[3] <= |b| - 16 then Some(DataHead(P.Trunc(h[0]), P.Trunc(h[1]), P.Trunc(h[2]), h[3])) else None
  }

  /** What a demand asks for can be read. */
  ghost predicate Readable(d: Demand, b: seq<byte>, fileSize: nat) {
    match d
    case Code(_) => ReadInstr(b, fileSize).Some?
    case Datum(_) => ReadData(b).Some?
  }

  /** An item cannot serve a demand: its bytes are not what is asked for, or it is something else. */
  ghost predicate Stuck(f: Forest, d: Demand, it: Item, offset: nat) {
    var b := BodyOf(f, it);
    if b.Raw? then b.view.Valid() && offset <= b.view.size && !Readable(d, b.view.Bytes()[offset..], Size(Tight(f)))
    else offset != 0 || !Accepts(d, b)
  }

  ghost predicate StuckAt(f: Forest, labels: map<string, Ptr>, d: Demand) {
    d.lbl in labels && Stuck(f, d, labels[d.lbl].item, labels[d.lbl].offset)
  }

  /** An instruction asks for something that is not there, or must go on and cannot. */
  ghost predicate RefusedAt(f: Forest, labels: map<string, Ptr>, n: Item) {
    var b := BodyOf(f, n);
    b.Instruction? &&
      (|| (exists j {:trigger Demands(b.instr)[j]} :: 0 <= j < |Demands(b.instr)| && StuckAt(f, labels, Demands(b.instr)[j]))
       || (FallsThrough(b.instr) && (Behind(f, n).Nil? || Stuck(f, Code(""), Behind(f, n).item, 0))))
  }

  /** What is made of a data item whose one raw child has these bytes. */
  function GuessFor(g: Guesses, b: Body, child: seq<byte>): Guess
    requires b.Data?
  {
    GuessOf(g, b.kind, b.offsetUnit, b.field8, child)
  }

  /** A data item with one raw child has been looked at: no guess takes it for something else. */
  ghost predicate OneGuessed(g: Guesses, b: Body, kids: Forest) {
    b.Data? && kids.Cons? && kids.rest.Nil? && kids.body.Raw? && kids.body.view.Valid() ==> GuessFor(g, b, kids.body.view.Bytes()).Kept?
  }

  ghost predicate AllGuessed(g: Guesses, f: Forest) {
    match f
    case Nil => true
    case Cons(_, b, kids, rest) => OneGuessed(g, b, kids) && AllGuessed(g, kids) && AllGuessed(g, rest)
  }

  lemma {:induction false} AppendGuessed(gs: Guesses, f: Forest, g: Forest)
    ensures AllGuessed(gs, Append(f, g)) <==> AllGuessed(gs, f) && AllGuessed(gs, g)
  {
    hide OneGuessed;
    if f.Cons? {
      AppendGuessed(gs, f.rest, g);
    }
  }

  /** Not one raw item alone. */
  ghost predicate NotLone(g: Forest) {
    g.Cons? && (g.rest.Cons? || !g.body.Raw?)
  }

  lemma KidsGuessed(gs: Guesses, b: Body, kids: Forest, r: Item, g: Forest)
    requires Distinct(kids) && Leaf(kids, r) && NotLone(g) && OneGuessed(gs, b, kids)
    ensures OneGuessed(gs, b, Swap(kids, r, g))
  {
    hide Distinct, Leaf, GuessFor;
    SwapStep(kids, r, g);
    if kids.item == r {
      assert g.rest.Cons? ==> Append(g.rest, kids.rest).Cons?;
    }
  }

  /** A cut leaves no data item with one raw child that was not there before. */
  lemma {:induction false} SwapGuessed(gs: Guesses, f: Forest, r: Item, g: Forest)
    requires Distinct(f) && Leaf(f, r) && NotLone(g) && AllGuessed(gs, f) && AllGuessed(gs, g)
    ensures AllGuessed(gs, Swap(f, r, g))
  {
    hide Distinct, Leaf, Swap, OneGuessed, NotLone;
    SwapStep(f, r, g);
    if f.item == r {
      AppendGuessed(gs, g, f.rest);
    } else if r in Nodes(f.kids) {
      SwapGuessed(gs, f.kids, r, g);
      KidsGuessed(gs, f.body, f.kids, r, g);
    } else {
      SwapGuessed(gs, f.rest, r, g);
    }
  }

  /** A data item whose payload makes a guess fail: no zero ends its string, its table cannot be read, or
      it is taken for a string while a label points into it. */
  ghost predicate BadData(f: Forest, labels: map<string, Ptr>, g: Guesses, n: Item) {
    var b, kids := BodyOf(f, n), if n in Nodes(f) then Sub(f, n).kids else Nil;
    && b.Data? && kids.Cons? && kids.body.Raw? && kids.body.view.Valid()
    && var guess := GuessFor(g, b, kids.body.view.Bytes());
       guess.Fails? || (guess.AsString? && exists l :: l in labels && labels[l].item == kids.item)
  }

  /** Why disassembly stops early. */
  ghost predicate Refused(f: Forest, labels: map<string, Ptr>, g: Guesses) {
    exists n {:trigger n in Nodes(f)} :: n in Nodes(f) && (RefusedAt(f, labels, n) || BadData(f, labels, g, n))
  }

  /** A data header that was read dumps the bytes it was read from. */
  lemma {:induction false} DataDumpsSame(b: seq<byte>)
    requires ReadData(b).Some?
    ensures var d := ReadData(b).value;
            16 + d.length <= |b| && DataHeader(d.kind, d.offsetUnit, d.field8, d.length) == b[..16] && d.length < 0x1_0000_0000
  {
    Sums();
    Ranges();
    var h := DecWords(true, HeaderWords, b);
    DecFits(true, HeaderWords, b, 0);
    DecFits(true, HeaderWords, b, 1);
    DecFits(true, HeaderWords, b, 2);
    DecFits(true, HeaderWords, b, 3);
    WordsSame(HeaderWords, b);
    assert h == [h[0], h[1], h[2], h[3]];
  }

  /** An instruction that is done is one less to work on. */
  lemma Finished(f: Forest, labels: map<string, Ptr>, pending: set<Item>, x: Item)
    requires ClosedBut(f, labels, pending + {x}) && Closed(f, labels, x)
    ensures ClosedBut(f, labels, pending)
  {
    hide Closed;
  }
}
