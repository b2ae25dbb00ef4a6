/** Items that hold other items, and the bytes they are dumped as. */
module Trees {
  import opened Bytes
  import opened Words
  import I = Items
  import P = StcmParams
  import opened StcmInstructions
  import opened StcmStrings

  /** What an item is; the root is the context itself. Labels are named, the context knows where they point.
      A string stands for a data item; `lost` counts the bytes of that which it leaves out. */
  datatype Body =
    | Root
    | Raw(view: I.View)
    | Eof
    | Text(str: seq<byte>)
    | Instruction(instr: Instr<string>)
    | Data(kind: P.word, offsetUnit: P.word, field8: P.word)
    | Expansions
    | Expansion(index: P.word, name: string)
    | StringData(str: seq<byte>, lost: nat)
    | Table(bytes: seq<byte>)

  /** The bytes of the file the item itself stands for, without those of its children. */
  function Own(b: Body): nat {
    match b
    case Root => 0
    case Raw(view) => view.size
    case Eof => 0
    case Text(str) => |str| + 1
    case Instruction(i) => FixedSize(i)
    case Data(_, _, _) => 16
    case Expansions => 0
    case Expansion(_, _) => 80
    case StringData(str, lost) => 16 + Rounded(|str|) + lost
    case Table(bytes) => |bytes|
  }

  /** The item as if it had never left anything out. */
  function TightBody(b: Body): Body {
    if b.StringData? then StringData(b.str, 0) else b
  }

  /** The bytes the item itself is written as. */
  function Weigh(b: Body): nat {
    Own(TightBody(b))
  }

  /** Only these hold children. */
  predicate MayHold(b: Body) {
    b.Root? || b.Instruction? || b.Data? || b.Expansions?
  }

  type Positions = map<string, nat>

  function At(pos: Positions, l: string): nat {
    if l in pos then pos[l] else 0
  }

  function Resolve48(p: P.Param48<string>, pos: Positions): P.Param48<nat> {
    match p
    case MemOffset(t) => P.MemOffset(At(pos, t))
    case Immediate(v) => P.Immediate(v)
    case Indirect(v) => P.Indirect(v)
    case ReadStack(v) => P.ReadStack(v)
    case Read4ac(v) => P.Read4ac(v)
  }

  function ResolveParam(p: P.Param<string>, pos: Positions): P.Param<nat> {
    match p
    case Memory(t, p4, p8) => P.Memory(At(pos, t), Resolve48(p4, pos), Resolve48(p8, pos))
    case Through(i, p8) => P.Through(i, Resolve48(p8, pos))
    case Stack(v) => P.Stack(v)
    case Four(v) => P.Four(v)
    case InstrPtr0(t) => P.InstrPtr0(At(pos, t))
    case InstrPtr1(t) => P.InstrPtr1(At(pos, t))
    case CollLink(t) => P.CollLink(At(pos, t))
    case Expansion(t) => P.Expansion(At(pos, t))
  }

  function ResolveParams(ps: seq<P.Param<string>>, pos: Positions): (r: seq<P.Param<nat>>)
    ensures |r| == |ps| && forall i {:trigger r[i]} :: 0 <= i < |r| ==> r[i] == ResolveParam(ps[i], pos)
  {
    seq(|ps|, i requires 0 <= i < |ps| => ResolveParam(ps[i], pos))
  }

  /** The instruction with file positions in place of its labels. */
  function Resolve(i: Instr<string>, pos: Positions): Instr<nat> {
    Instr(match i.target case Opcode(n) => Opcode(n) case Call(l) => Call(At(pos, l)), ResolveParams(i.params, pos))
  }

  /** What an item dumps before its children; `size` counts these. */
  ghost function OwnBytes(b: Body, size: nat, pos: Positions): seq<byte> {
    match b
    case Root => []
    case Raw(view) => if view.Valid() then view.Bytes() else []
    case Eof => []
    case Text(str) => str + [0]
    case Instruction(i) => InstrBytes(Resolve(i, pos), size)
    case Data(kind, unit, field8) => DataHeader(kind, unit, field8, P.Trunc(if size < 16 then 0 else size - 16))
    case Expansions => []
    case Expansion(index, name) => Le(4, index) + Le(4, P.Trunc(At(pos, name))) + Le(72, 0)
    case StringData(str, _) => StringBytes(str)
    case Table(bytes) => bytes
  }

  /** A list of items with all they hold, as it should be in the heap. */
  datatype Forest = Nil | Cons(item: Item, body: Body, kids: Forest, rest: Forest)

  ghost function Nodes(f: Forest): set<Item> {
    match f
    case Nil => {}
    case Cons(n, _, kids, rest) => {n} + Nodes(kids) + Nodes(rest)
  }

  ghost function Heads(f: Forest): seq<Item> {
    match f
    case Nil => []
    case Cons(n, _, _, rest) => [n] + Heads(rest)
  }

  ghost function Count(f: Forest): nat {
    match f
    case Nil => 0
    case Cons(_, _, kids, rest) => 1 + Count(kids) + Count(rest)
  }

  /** No item is twice in it. */
  ghost predicate Distinct(f: Forest) {
    match f
    case Nil => true
    case Cons(n, _, kids, rest) =>
      n !in Nodes(kids) && n !in Nodes(rest) && Nodes(kids) !! Nodes(rest) && Distinct(kids) && Distinct(rest)
  }

  ghost predicate BodyOk(b: Body) {
    b.Raw? ==> b.view.Valid()
  }

  /** Only items that may hold children do. */
  ghost predicate Leaves(f: Forest) {
    match f
    case Nil => true
    case Cons(_, b, kids, rest) => BodyOk(b) && (MayHold(b) || kids.Nil?) && Leaves(kids) && Leaves(rest)
  }

  ghost function Size(f: Forest): nat {
    match f
    case Nil => 0
    case Cons(_, b, kids, rest) => Own(b) + Size(kids) + Size(rest)
  }

  ghost function Image(f: Forest, pos: Positions): seq<byte> {
    match f
    case Nil => []
    case Cons(_, b, kids, rest) => OwnBytes(b, Own(b) + Size(kids), pos) + Image(kids, pos) + Image(rest, pos)
  }

  /** The heap holds these items in these lists. */
  ghost predicate Live(f: Forest, parent: Item)
    reads Nodes(f)`body, Nodes(f)`children, Nodes(f)`parent
  {
    match f
    case Nil => true
    case Cons(n, b, kids, rest) =>
      n.body == b && n.parent == parent && n.children == Heads(kids) && Live(kids, n) && Live(rest, parent)
  }

  /** The items stand one after the other from `at` on, each with its children behind its own bytes. */
  ghost predicate Placed(f: Forest, at: nat)
    reads Nodes(f)`position
  {
    match f
    case Nil => true
    case Cons(n, b, kids, rest) =>
      n.position == at && Placed(kids, at + Own(b)) && Placed(rest, at + Own(b) + Size(kids))
  }

  ghost function Append(f: Forest, g: Forest): Forest {
    match f
    case Nil => g
    case Cons(n, b, kids, rest) => Cons(n, b, kids, Append(rest, g))
  }

  /** The items as if they had never left anything out: this is what is written and laid out. */
  ghost function Tight(f: Forest): (r: Forest)
    ensures Nodes(r) == Nodes(f)
  {
    match f
    case Nil => Nil
    case Cons(n, b, kids, rest) => Cons(n, TightBody(b), Tight(kids), Tight(rest))
  }

  lemma {:induction false} TightSame(f: Forest)
    ensures Nodes(Tight(f)) == Nodes(f) && Heads(Tight(f)) == Heads(f) && Count(Tight(f)) == Count(f)
    ensures Distinct(Tight(f)) <==> Distinct(f)
    ensures Leaves(Tight(f)) <==> Leaves(f)
    ensures Size(Tight(f)) <= Size(f)
  {
    if f.Cons? {
      TightSame(f.kids);
      TightSame(f.rest);
    }
  }

  lemma {:induction false} TightAppend(f: Forest, g: Forest)
    ensures Tight(Append(f, g)) == Append(Tight(f), Tight(g))
  {
    if f.Cons? {
      TightAppend(f.rest, g);
    }
  }

  /** What leaves nothing out is tight already. */
  lemma {:induction false} TightTwice(f: Forest)
    ensures Tight(Tight(f)) == Tight(f)
  {
    if f.Cons? {
      TightTwice(f.kids);
      TightTwice(f.rest);
    }
  }

  datatype Ptr = Ptr(item: Item, offset: nat)

  ghost function Owners(labels: map<string, Ptr>): set<Item> {
    set l | l in labels :: labels[l].item
  }

  /** The file position of a label. */
  function ToFilePos(labels: map<string, Ptr>, l: string): nat
    requires l in labels
    reads Owners(labels)`position
  {
    labels[l].item.position + labels[l].offset
  }

  ghost function PositionsOf(labels: map<string, Ptr>): (pos: Positions)
    reads Owners(labels)`position
  {
    map l | l in labels :: ToFilePos(labels, l)
  }

  /** The labels an item names. */
  function Labels48(p: P.Param48<string>): seq<string> {
    if p.MemOffset? then [p.target] else []
  }

  function LabelsOfParam(p: P.Param<string>): seq<string> {
    match p
    case Memory(t, p4, p8) => [t] + Labels48(p4) + Labels48(p8)
    case Through(_, p8) => Labels48(p8)
    case Stack(_) => []
    case Four(_) => []
    case _ => [p.target]
  }

  ghost predicate AllIn(ls: seq<string>, known: set<string>) {
    forall i {:trigger ls[i]} :: 0 <= i < |ls| ==> ls[i] in known
  }

  ghost predicate ParamsKnown(ps: seq<P.Param<string>>, known: set<string>) {
    forall i {:trigger ps[i]} :: 0 <= i < |ps| ==> AllIn(LabelsOfParam(ps[i]), known)
  }

  ghost predicate RefsKnown(b: Body, known: set<string>) {
    match b
    case Instruction(i) => (i.target.Call? ==> i.target.target in known) && ParamsKnown(i.params, known)
    case Expansion(_, name) => name in known
    case _ => true
  }

  ghost predicate AllRefsKnown(f: Forest, known: set<string>) {
    match f
    case Nil => true
    case Cons(_, b, kids, rest) => RefsKnown(b, known) && AllRefsKnown(kids, known) && AllRefsKnown(rest, known)
  }

  lemma {:induction false} AppendMeans(f: Forest, g: Forest)
    ensures Nodes(Append(f, g)) == Nodes(f) + Nodes(g) && Heads(Append(f, g)) == Heads(f) + Heads(g)
    ensures Size(Append(f, g)) == Size(f) + Size(g) && Count(Append(f, g)) == Count(f) + Count(g)
  {
    if f.Cons? {
      AppendMeans(f.rest, g);
    }
  }

  lemma {:induction false} AppendPlaced(f: Forest, g: Forest, at: nat)
    ensures Placed(Append(f, g), at) <==> Placed(f, at) && Placed(g, at + Size(f))
  {
    if f.Cons? {
      AppendPlaced(f.rest, g, at + Own(f.body) + Size(f.kids));
    }
  }

  lemma {:induction false} AppendImage(f: Forest, g: Forest, pos: Positions)
    ensures Image(Append(f, g), pos) == Image(f, pos) + Image(g, pos)
  {
    hide OwnBytes, Own;
    if f.Cons? {
      AppendImage(f.rest, g, pos);
      var own, kids := OwnBytes(f.body, Own(f.body) + Size(f.kids), pos), Image(f.kids, pos);
      assert own + kids + (Image(f.rest, pos) + Image(g, pos)) == own + kids + Image(f.rest, pos) + Image(g, pos);
    }
  }

  lemma {:induction false} AppendAssoc(f: Forest, g: Forest, h: Forest)
    ensures Append(Append(f, g), h) == Append(f, Append(g, h))
  {
    if f.Cons? {
      AppendAssoc(f.rest, g, h);
    }
  }

  lemma {:induction false} AppendNil(f: Forest)
    ensures Append(f, Nil) == f
  {
    if f.Cons? {
      AppendNil(f.rest);
    }
  }

  /** The first item with all it holds. */
  ghost function First(f: Forest): Forest
    requires f.Cons?
  {
    Cons(f.item, f.body, f.kids, Nil)
  }

  lemma {:induction false} StepOver(done: Forest, f: Forest)
    requires f.Cons?
    ensures Append(Append(done, First(f)), f.rest) == Append(done, f)
    ensures Nodes(Append(done, First(f))) == Nodes(done) + {f.item} + Nodes(f.kids)
    ensures Size(Append(done, First(f))) == Size(done) + Own(f.body) + Size(f.kids)
  {
    AppendAssoc(done, First(f), f.rest);
    AppendMeans(done, First(f));
    assert Append(First(f), f.rest) == Cons(f.item, f.body, f.kids, Append(Nil, f.rest)) == f;
  }

  lemma Opened(f: Forest, parent: Item)
    requires f.Cons? && Live(f, parent) && Distinct(f)
    ensures Heads(f) == [f.item] + Heads(f.rest) && Nodes(f) == {f.item} + Nodes(f.kids) + Nodes(f.rest)
    ensures f.item.body == f.body && f.item.parent == parent && f.item.children == Heads(f.kids)
    ensures Live(f.kids, f.item) && Live(f.rest, parent) && Distinct(f.kids) && Distinct(f.rest)
    ensures f.item !in Nodes(f.kids) && f.item !in Nodes(f.rest) && Nodes(f.kids) !! Nodes(f.rest)
    ensures Count(f) == 1 + Count(f.kids) + Count(f.rest)
  {
  }

  lemma HeadsEmpty(f: Forest)
    ensures Heads(f) == [] <==> f.Nil?
  {
  }

  lemma OpenedBodies(f: Forest, known: set<string>)
    requires f.Cons? && Leaves(f) && AllRefsKnown(f, known)
    ensures BodyOk(f.body) && RefsKnown(f.body, known) && (MayHold(f.body) || f.kids.Nil?)
    ensures Leaves(First(f)) && Leaves(f.rest) && Leaves(f.kids)
    ensures AllRefsKnown(First(f), known) && AllRefsKnown(f.rest, known) && AllRefsKnown(f.kids, known)
  {
  }

  lemma NothingYet(f: Forest, at: nat)
    ensures Append(Nil, f) == f && Size(Nil) == 0 && Nodes(Nil) == {} && Placed(Nil, at) && Tight(Nil) == Nil
  {
  }

  lemma PlacedMore(done: Forest, f: Forest, at: nat)
    requires f.Cons? && Placed(done, at)
    requires f.item.position == at + Size(done) && Placed(f.kids, at + Size(done) + Own(f.body))
    ensures Placed(Append(done, First(f)), at)
  {
    AppendPlaced(done, First(f), at);
  }

  function Dump48(p: P.Param48<string>, labels: map<string, Ptr>): (w: P.word)
    requires AllIn(Labels48(p), labels.Keys)
    reads Owners(labels)`position
    ensures w == P.Encode48(Resolve48(p, PositionsOf(labels)))
  {
    assert p.MemOffset? ==> Labels48(p)[0] == p.target;
    match p
    case MemOffset(t) => P.Tag(0, P.Trunc(ToFilePos(labels, t)))
    case Immediate(v) => P.Tag(1, v)
    case Indirect(v) => P.Tag(2, v)
    case ReadStack(v) => P.Trunc(P.ReadStackMin + v)
    case Read4ac(v) => P.Trunc(P.Read4acMin + v)
  }

  lemma AllInBoth(a: seq<string>, b: seq<string>, known: set<string>)
    requires AllIn(a + b, known)
    ensures AllIn(a, known) && AllIn(b, known)
  {
    assert forall i {:trigger a[i]} :: 0 <= i < |a| ==> a[i] == (a + b)[i];
    assert forall i {:trigger b[i]} :: 0 <= i < |b| ==> b[i] == (a + b)[|a| + i];
  }

  lemma AllInOne(l: string, known: set<string>)
    requires AllIn([l], known)
    ensures l in known
  {
    assert [l][0] == l;
  }

  /** The labels a parameter names are all there. */
  lemma MemoryLabels(p: P.Param<string>, known: set<string>)
    requires AllIn(LabelsOfParam(p), known)
    ensures p.Memory? ==> p.target in known && AllIn(Labels48(p.param4), known) && AllIn(Labels48(p.param8), known)
    ensures p.Through? ==> AllIn(Labels48(p.param8), known)
    ensures p.InstrPtr0? || p.InstrPtr1? || p.CollLink? || p.Expansion? ==> p.target in known
  {
    hide AllIn, Labels48;
    match p {
      case Memory(t, p4, p8) =>
        AllInBoth([t] + Labels48(p4), Labels48(p8), known);
        AllInBoth([t], Labels48(p4), known);
        AllInOne(t, known);
      case Through(_, _) =>
      case Stack(_) =>
      case Four(_) =>
      case InstrPtr0(t) => AllInOne(t, known);
      case InstrPtr1(t) => AllInOne(t, known);
      case CollLink(t) => AllInOne(t, known);
      case Expansion(t) => AllInOne(t, known);
    }
  }

  /** The three words of a parameter, with the current positions of its labels. */
  function DumpParam(p: P.Param<string>, labels: map<string, Ptr>): (w: P.Words)
    requires AllIn(LabelsOfParam(p), labels.Keys)
    reads Owners(labels)`position
    ensures w == P.Encode(ResolveParam(p, PositionsOf(labels)))
  {
    hide P.Tag, P.Encode48, Resolve48, AllIn, LabelsOfParam;
    MemoryLabels(p, labels.Keys);
    match p
    case Memory(t, p4, p8) => P.Words(P.Tag(0, P.Trunc(ToFilePos(labels, t))), Dump48(p4, labels), Dump48(p8, labels))
    case Through(i, p8) => P.Words(P.Tag(2, i), P.Unused, Dump48(p8, labels))
    case Stack(v) => P.Words(P.Trunc(P.ReadStackMin + v), P.Unused, P.Unused)
    case Four(v) => P.Words(P.Trunc(P.Read4acMin + v), P.Unused, P.Unused)
    case InstrPtr0(t) => P.Words(P.InstrPtr0At, P.Trunc(ToFilePos(labels, t)), P.Unused)
    case InstrPtr1(t) => P.Words(P.InstrPtr1At, P.Trunc(ToFilePos(labels, t)), P.Unused)
    case CollLink(t) => P.Words(P.CollLinkAt, P.Trunc(ToFilePos(labels, t)), 0)
    case Expansion(t) => P.Words(P.ExpansionAt, P.Trunc(ToFilePos(labels, t)), 0)
  }

  method DumpInstruction(i: Instr<string>, size: nat, labels: map<string, Ptr>) returns (out: seq<byte>)
    requires RefsKnown(Instruction(i), labels.Keys)
    ensures out == InstrBytes(Resolve(i, PositionsOf(labels)), size)
  {
    hide P.Encode, EncWords, AllIn, ResolveParam, DumpParam, LabelsOfParam;
    ghost var pos := PositionsOf(labels);
    ghost var all := ResolveParams(i.params, pos);
    var opcode;
    match i.target {
      case Call(l) => opcode := P.Trunc(ToFilePos(labels, l));
      case Opcode(n) => opcode := n;
    }
    out := EncWords(true, HeaderWords, [if i.target.Call? then 1 else 0, opcode, P.Trunc(|i.params|), P.Trunc(size)]);
    ghost var head := out;
    assert head == HeaderBytes(Resolve(i, pos), size);
    assert all[..0] == [];
    for k := 0 to |i.params|
      invariant out == head + ParamsBytes(all[..k])
    {
      var w := DumpParam(i.params[k], labels);
      out := out + EncWords(true, ParamWords, [w.p0, w.p4, w.p8]);
      assert w == P.Encode(all[k]);
      assert all[..k + 1][..k] == all[..k] && all[..k + 1][k] == all[k];
      assert ParamsBytes(all[..k + 1]) == ParamsBytes(all[..k]) + ParamBytes(all[k]);
    }
    assert all[..|all|] == all;
  }

  class Item {
    var position: nat
    var body: Body
    var parent: Item?
    var children: seq<Item>

    constructor (body: Body)
      ensures this.body == body && position == 0 && parent == null && children == []
    {
      this.body, position, parent, children := body, 0, null, [];
    }

    /** The size of the item with its children. */
    method GetSize(ghost kids: Forest) returns (size: nat)
      requires children == Heads(kids) && Live(kids, this)
      ensures size == Weigh(body) + Size(Tight(kids))
      decreases Count(kids)
    {
      hide Own;
      size := Weigh(body);
      ghost var g, all := kids, Nodes(kids);
      for i := 0 to |children|
        invariant children[i..] == Heads(g) && Live(g, this) && Count(g) <= Count(kids)
        invariant Nodes(g) <= all && allocated(all)
        invariant size + Size(Tight(g)) == Weigh(body) + Size(Tight(kids))
      {
        assert children[i..][0] == g.item && children[i..][1..] == children[i + 1..];
        var s := children[i].GetSize(g.kids);
        size := size + s;
        g := g.rest;
      }
    }

    /** Moves the item and, behind its own bytes, all it holds. */
    method UpdatePosition(npos: nat, ghost kids: Forest)
      requires children == Heads(kids) && Live(kids, this) && Distinct(kids) && this !in Nodes(kids)
      modifies this`position, Nodes(kids)`position
      ensures position == npos && Placed(Tight(kids), npos + Weigh(body)) && Live(kids, this)
      decreases Count(kids), 0
    {
      hide Placed, Append, Size, Own, Nodes, Live, Distinct, Heads, Count, Tight, Weigh;
      position := npos;
      var pos := npos + Weigh(body);
      ghost var done, g, all := Nil, kids, Nodes(kids);
      NothingYet(kids, npos + Weigh(body));
      for i := 0 to |children|
        invariant children[i..] == Heads(g) && Live(g, this) && Live(kids, this) && Distinct(g) && Count(g) <= Count(kids)
        invariant Nodes(g) <= all && allocated(all) && Nodes(done) !! Nodes(g) && Nodes(done) <= all
        invariant kids == Append(done, g) && pos == npos + Weigh(body) + Size(Tight(done))
        invariant position == npos && Placed(Tight(done), npos + Weigh(body))
      {
        HeadsEmpty(g);
        Opened(g, this);
        assert children[i..][0] == g.item && children[i..][1..] == children[i + 1..];
        StepOver(done, g);
        TightOver(done, g);
        TightSame(done);
        TightSame(g.kids);
        pos := children[i].MoveTo(pos, g.kids);
        PlacedMore(Tight(done), Tight(g), npos + Weigh(body));
        done, g := Append(done, First(g)), g.rest;
      }
      HeadsEmpty(g);
      AppendNil(done);
    }

    /** Moves the item and tells where the next one goes. */
    method MoveTo(npos: nat, ghost kids: Forest) returns (next: nat)
      requires children == Heads(kids) && Live(kids, this) && Distinct(kids) && this !in Nodes(kids)
      modifies this`position, Nodes(kids)`position
      ensures position == npos && Placed(Tight(kids), npos + Weigh(body)) && Live(kids, this)
      ensures next == npos + Weigh(body) + Size(Tight(kids))
      decreases Count(kids), 1
    {
      hide Placed, Size, Own, Nodes, Live, Distinct, Heads, Tight, Weigh;
      TightSame(kids);
      ghost var all := Nodes(kids);
      assert allocated(all);
      UpdatePosition(npos, kids);
      var size := GetSize(kids);
      next := npos + size;
    }

    /** What the item writes before its children. */
    method DumpOwn(labels: map<string, Ptr>, size: nat) returns (out: seq<byte>)
      requires BodyOk(body) && RefsKnown(body, labels.Keys) && size >= Weigh(body)
      ensures out == OwnBytes(body, size, PositionsOf(labels))
    {
      hide EncWords, Le, Resolve, InstrBytes;
      match body {
        case Root => out := [];
        case Raw(view) => out := view.Bytes();
        case Eof => out := [];
        case Text(str) => out := str + [0];
        case Instruction(i) => out := DumpInstruction(i, size, labels);
        case Data(kind, unit, field8) => out := EncWords(true, HeaderWords, [kind, unit, field8, P.Trunc(size - 16)]);
        case Expansions => out := [];
        case Expansion(index, name) => out := Le(4, index) + Le(4, P.Trunc(ToFilePos(labels, name))) + Le(72, 0);
        case StringData(str, _) => out := StringBytes(str);
        case Table(bytes) => out := bytes;
      }
    }

    /** What the item writes, with the current positions of the labels. */
    method Dump(labels: map<string, Ptr>, ghost kids: Forest) returns (out: seq<byte>)
      requires children == Heads(kids) && Live(kids, this) && Distinct(kids) && Leaves(Cons(this, body, kids, Nil))
      requires AllRefsKnown(Cons(this, body, kids, Nil), labels.Keys)
      ensures out == Image(Tight(Cons(this, body, kids, Nil)), PositionsOf(labels))
      decreases Count(kids), 1
    {
      hide Image, Size, Nodes, Live, Distinct, Heads, Count, Leaves, AllRefsKnown, OwnBytes, BodyOk, RefsKnown, MayHold, Tight, Weigh;
      ghost var pos, all := PositionsOf(labels), Nodes(kids);
      assert allocated(all);
      var size := GetSize(kids);
      OpenedBodies(Cons(this, body, kids, Nil), labels.Keys);
      out := DumpOwn(labels, size);
      assert PositionsOf(labels) == pos;
      var held := DumpChildren(labels, kids);
      assert PositionsOf(labels) == pos;
      out := out + held;
      TightImage(Cons(this, body, kids, Nil), pos);
    }

    /** What the children write, one after the other. */
    method DumpChildren(labels: map<string, Ptr>, ghost kids: Forest) returns (out: seq<byte>)
      requires children == Heads(kids) && Live(kids, this) && Distinct(kids) && Leaves(kids) && AllRefsKnown(kids, labels.Keys)
      ensures out == Image(Tight(kids), PositionsOf(labels))
      decreases Count(kids), 0
    {
      hide Image, Append, Size, Nodes, Live, Distinct, Heads, Count, Leaves, AllRefsKnown, OwnBytes, BodyOk, RefsKnown, MayHold, Tight, Weigh;
      ghost var pos, all := PositionsOf(labels), Nodes(kids);
      assert allocated(all);
      out := [];
      ghost var done, g := Nil, kids;
      NoBytesYet(kids, pos);
      for i := 0 to |children|
        invariant children[i..] == Heads(g) && Live(g, this) && Distinct(g) && Count(g) <= Count(kids) && Nodes(g) <= all && allocated(all)
        invariant Leaves(g) && AllRefsKnown(g, labels.Keys)
        invariant kids == Append(done, g) && out == Image(Tight(done), pos) && PositionsOf(labels) == pos
      {
        HeadsEmpty(g);
        Opened(g, this);
        OpenedBodies(g, labels.Keys);
        assert children[i..][0] == g.item && children[i..][1..] == children[i + 1..];
        StepOver(done, g);
        TightOver(done, g);
        AppendImage(Tight(done), First(Tight(g)), pos);
        var part := children[i].Dump(labels, g.kids);
        assert PositionsOf(labels) == pos;
        out := out + part;
        done, g := Append(done, First(g)), g.rest;
      }
      HeadsEmpty(g);
      AppendNil(done);
    }
  }

  /** One more item, tight or not. */
  lemma TightOver(done: Forest, f: Forest)
    requires f.Cons?
    ensures Tight(f).Cons? && Tight(f).item == f.item && Tight(f).kids == Tight(f.kids) && Own(Tight(f).body) == Weigh(f.body)
    ensures Tight(First(f)) == First(Tight(f)) && Tight(Append(done, First(f))) == Append(Tight(done), First(Tight(f)))
    ensures Size(Tight(Append(done, First(f)))) == Size(Tight(done)) + Weigh(f.body) + Size(Tight(f.kids))
  {
    TightAppend(done, First(f));
    AppendMeans(Tight(done), First(Tight(f)));
  }

  lemma TightImage(f: Forest, pos: Positions)
    requires f.Cons? && f.rest.Nil?
    ensures Image(Tight(f), pos) == OwnBytes(f.body, Weigh(f.body) + Size(Tight(f.kids)), pos) + Image(Tight(f.kids), pos)
  {
    hide OwnBytes, Own, TightBody;
    assert Tight(f.rest) == Nil;
    FirstImage(Tight(f), pos);
    TightOwn(f.body, Weigh(f.body) + Size(Tight(f.kids)), pos);
  }

  lemma TightOwn(b: Body, size: nat, pos: Positions)
    ensures OwnBytes(TightBody(b), size, pos) == OwnBytes(b, size, pos)
  {
    hide InstrBytes, DataHeader, StringBytes;
  }

  lemma NoBytesYet(f: Forest, pos: Positions)
    ensures Append(Nil, f) == f && Image(Nil, pos) == [] && Tight(Nil) == Nil
  {
  }

  lemma FirstImage(f: Forest, pos: Positions)
    requires f.Cons? && f.rest.Nil?
    ensures Image(f, pos) == OwnBytes(f.body, Own(f.body) + Size(f.kids), pos) + Image(f.kids, pos)
  {
  }
}
