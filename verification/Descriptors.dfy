/** The record type of a GBNL table: from type descriptors to fields with padding, and back. */
module Descriptors {
  import opened Bytes

  datatype FieldKind = Int8 | Int16 | Int32 | Int64 | Float | String | FixString | Padding

  datatype FieldType = FieldType(kind: FieldKind, size: nat)

  datatype Descriptor = Descriptor(code: nat, offset: nat)

  function KindOf(code: nat): Option<FieldKind> {
    match code
    case 0 => Some(Int32)
    case 1 => Some(Int8)
    case 2 => Some(Int16)
    case 3 => Some(Float)
    case 5 => Some(String)
    case 6 => Some(Int64)
    case _ => None
  }

  function CodeOf(k: FieldKind): nat {
    match k
    case Int8 => 1
    case Int16 => 2
    case Int32 => 0
    case Int64 => 6
    case Float => 3
    case String => 5
    case FixString => 1
    case Padding => 0
  }

  /** The size of a field whose kind fixes it. */
  function NaturalSize(k: FieldKind): nat {
    match k
    case Int8 => 1
    case Int16 => 2
    case Int64 => 8
    case _ => 4
  }

  function TotalSize(types: seq<FieldType>): nat {
    if types == [] then 0 else TotalSize(types[..|types| - 1]) + types[|types| - 1].size
  }

  /** The descriptors a record type is written as: padding has none, a fixed string is a byte. */
  function Described(types: seq<FieldType>): seq<Descriptor> {
    if types == [] then []
    else
      var init, t := types[..|types| - 1], types[|types| - 1];
      if t.kind == Padding then Described(init) else Described(init) + [Descriptor(CodeOf(t.kind), TotalSize(init))]
  }

  /** The fields for a gap of `diff` bytes. A byte in front of it is a field of its own if at most
      three bytes follow; with more it is taken for a fixed string that reaches to the next field. */
  function Padded(diff: nat, int8: bool): seq<FieldType> {
    if int8 && diff > 3 then [FieldType(FixString, diff + 1)]
    else (if int8 then [FieldType(Int8, 1)] else []) + (if diff > 0 then [FieldType(Padding, diff)] else [])
  }

  /** The fields so far, how many bytes they and a pending byte take, and whether one is pending. */
  datatype Building = Building(types: seq<FieldType>, end: nat, int8: bool)

  /** The descriptors name known types and do not overlap. */
  predicate Ordered(ds: seq<Descriptor>) {
    ds == [] || (Ordered(ds[..|ds| - 1]) && KindOf(ds[|ds| - 1].code).Some? && Reach(ds[..|ds| - 1]) <= ds[|ds| - 1].offset)
  }

  /** Where the last field named ends. */
  function Reach(ds: seq<Descriptor>): nat {
    if ds == [] then 0
    else
      var d := ds[|ds| - 1];
      d.offset + if KindOf(d.code).Some? then NaturalSize(KindOf(d.code).value) else 0
  }

  function Begun(ds: seq<Descriptor>): Building
    requires Ordered(ds)
  {
    if ds == [] then Building([], 0, false)
    else
      var b, d := Begun(ds[..|ds| - 1]), ds[|ds| - 1];
      var k := KindOf(d.code).value;
      var types := b.types + if d.offset < b.end then [] else Padded(d.offset - b.end, b.int8);
      Building(if k == Int8 then types else types + [FieldType(k, NaturalSize(k))], d.offset + NaturalSize(k), k == Int8)
  }

  /** The fields with the gap up to the record size. The gap goes through a 16-bit number. */
  function Built(ds: seq<Descriptor>, size: nat): seq<FieldType>
    requires Ordered(ds)
  {
    var b := Begun(ds);
    b.types + Padded((size - b.end) % 0x1_0000, b.int8)
  }

  /** Filling a gap adds its bytes, and the descriptor of a pending byte. */
  lemma {:induction false} GapMeans(types: seq<FieldType>, diff: nat, int8: bool)
    ensures var r := types + Padded(diff, int8);
            && TotalSize(r) == TotalSize(types) + diff + (if int8 then 1 else 0)
            && Described(r) == Described(types) + (if int8 then [Descriptor(1, TotalSize(types))] else [])
  {
    var r := types + Padded(diff, int8);
    if int8 && diff > 3 {
      assert r[..|types|] == types;
    } else if int8 {
      var one := types + [FieldType(Int8, 1)];
      assert one[..|types|] == types;
      if diff > 0 {
        assert r[..|types| + 1] == one;
      } else {
        assert r == one;
      }
    } else if diff > 0 {
      assert r[..|types|] == types;
    } else {
      assert r == types;
    }
  }

  /** One more field adds its size and its descriptor. */
  lemma {:induction false} FieldMeans(types: seq<FieldType>, t: FieldType)
    requires t.kind != Padding
    ensures TotalSize(types + [t]) == TotalSize(types) + t.size
    ensures Described(types + [t]) == Described(types) + [Descriptor(CodeOf(t.kind), TotalSize(types))]
  {
    assert (types + [t])[..|types|] == types;
  }

  lemma CodeOfKind(code: nat)
    ensures KindOf(code).Some? ==> CodeOf(KindOf(code).value) == code && KindOf(code).value != Padding
    ensures CodeOf(Int8) == 1 && NaturalSize(Int8) == 1
  {
  }

  lemma BegunStep(ds: seq<Descriptor>)
    requires Ordered(ds) && ds != []
    ensures var init, d := ds[..|ds| - 1], ds[|ds| - 1];
            && Ordered(init) && KindOf(d.code).Some? && Reach(init) <= d.offset && Reach(ds) == d.offset + NaturalSize(KindOf(d.code).value)
            && ds == init + [d]
            && var b, k := Begun(init), KindOf(d.code).value;
               var types := b.types + if d.offset < b.end then [] else Padded(d.offset - b.end, b.int8);
               Begun(ds) == Building(if k == Int8 then types else types + [FieldType(k, NaturalSize(k))], d.offset + NaturalSize(k), k == Int8)
  {
    hide Padded, KindOf, NaturalSize;
  }

  /** What the fields begun so far say about the descriptors read. */
  lemma {:induction false} BegunMeans(ds: seq<Descriptor>)
    requires Ordered(ds)
    ensures Begun(ds).end == Reach(ds) == TotalSize(Begun(ds).types) + (if Begun(ds).int8 then 1 else 0)
    ensures ds == Described(Begun(ds).types) + (if Begun(ds).int8 then [Descriptor(1, TotalSize(Begun(ds).types))] else [])
  {
    hide Padded, Described, TotalSize, KindOf, NaturalSize;
    if ds == [] {
      NoFields();
    } else {
      var init, d := ds[..|ds| - 1], ds[|ds| - 1];
      BegunStep(ds);
      BegunMeans(init);
      NextMeans(init, d, Begun(init), KindOf(d.code).value);
    }
  }

  lemma {:induction false} NextMeans(init: seq<Descriptor>, d: Descriptor, b: Building, k: FieldKind)
    requires KindOf(d.code) == Some(k) && b.end <= d.offset
    requires b.end == TotalSize(b.types) + (if b.int8 then 1 else 0)
    requires init == Described(b.types) + (if b.int8 then [Descriptor(1, TotalSize(b.types))] else [])
    ensures var types := b.types + Padded(d.offset - b.end, b.int8);
            var next := if k == Int8 then types else types + [FieldType(k, NaturalSize(k))];
            && d.offset + NaturalSize(k) == TotalSize(next) + (if k == Int8 then 1 else 0)
            && init + [d] == Described(next) + (if k == Int8 then [Descriptor(1, TotalSize(next))] else [])
  {
    hide Padded, Described, TotalSize, KindOf, CodeOf, NaturalSize;
    CodeOfKind(d.code);
    GapMeans(b.types, d.offset - b.end, b.int8);
    FieldMeans(b.types + Padded(d.offset - b.end, b.int8), FieldType(k, NaturalSize(k)));
  }

  lemma NoFields()
    ensures Described([]) == [] && TotalSize([]) == 0
  {
  }

  /** For every ordered descriptor list and record size, the fields built from it are written as
      exactly the same descriptors; and they fill the record if and only if the last gap fits 16 bits. */
  lemma {:induction false} BuiltDescribes(ds: seq<Descriptor>, size: nat)
    requires Ordered(ds)
    ensures Described(Built(ds, size)) == ds
    ensures TotalSize(Built(ds, size)) == size <==> Reach(ds) <= size < Reach(ds) + 0x1_0000
  {
    hide Padded, Described, TotalSize, Ordered, Reach, Begun;
    var b := Begun(ds);
    BegunMeans(ds);
    GapMeans(b.types, (size - b.end) % 0x1_0000, b.int8);
  }

  /** A field that may stand where it does: this is what the reader builds. */
  predicate FieldFits(types: seq<FieldType>, i: nat)
    requires i < |types|
  {
    match types[i].kind
    case Padding =>
      && 0 < types[i].size < 0x1_0000
      && (i > 0 ==> types[i - 1].kind != Padding && types[i - 1].kind != FixString && (types[i - 1].kind == Int8 ==> types[i].size <= 3))
    case FixString => 5 <= types[i].size <= 0x1_0000
    case k => types[i].size == NaturalSize(k)
  }

  predicate CanonicalTypes(types: seq<FieldType>) {
    forall i {:trigger types[i]} :: 0 <= i < |types| ==> FieldFits(types, i)
  }

  lemma CanonicalPrefix(types: seq<FieldType>, n: nat)
    requires CanonicalTypes(types) && n <= |types|
    ensures CanonicalTypes(types[..n])
  {
    forall i | 0 <= i < n
      ensures FieldFits(types[..n], i)
    {
      assert FieldFits(types, i);
    }
  }

  lemma {:induction false} PaddingRebuilt(init: seq<FieldType>, t: FieldType)
    requires CanonicalTypes(init) && t.kind == Padding && FieldFits(init + [t], |init|)
    requires Ordered(Described(init)) && Built(Described(init), TotalSize(init)) == init
    ensures Built(Described(init), TotalSize(init) + t.size) == init + [t]
  {
    hide TotalSize, Described, Ordered, Reach, Begun, CanonicalTypes;
    assert |init| > 0 ==> (init + [t])[|init| - 1] == init[|init| - 1];
    var b := Begun(Described(init));
    LastFits(init, b);
    assert (TotalSize(init) + t.size - b.end) % 0x1_0000 == t.size;
    assert Padded(t.size, b.int8) == (if b.int8 then [FieldType(Int8, 1)] else []) + [t];
  }

  lemma {:induction false} FieldRebuilt(init: seq<FieldType>, t: FieldType)
    requires CanonicalTypes(init) && t.kind != Padding && FieldFits(init + [t], |init|)
    requires Ordered(Described(init)) && Reach(Described(init)) <= TotalSize(init) && Built(Described(init), TotalSize(init)) == init
    ensures Ordered(Described(init + [t])) && Reach(Described(init + [t])) <= TotalSize(init) + t.size
    ensures Built(Described(init + [t]), TotalSize(init) + t.size) == init + [t]
  {
    hide TotalSize, Described, CanonicalTypes, Begun, Ordered, Reach, Padded, KindOf, FieldFits;
    var size, ds, d := TotalSize(init), Described(init), Descriptor(CodeOf(t.kind), TotalSize(init));
    GapSmall(init, Begun(ds));
    FieldMeans(init, t);
    KindOfCode(t);
    var b := Begun(ds);
    assert init == b.types + Padded(size - b.end, b.int8);
    NextBegun(ds, d, init);
    FieldFilled(init, t, Begun(ds + [d]), size);
  }

  lemma FieldFilled(init: seq<FieldType>, t: FieldType, now: Building, size: nat)
    requires t.kind != Padding && FieldFits(init + [t], |init|)
    requires var k := if t.kind == FixString then Int8 else t.kind;
             now == Building(if k == Int8 then init else init + [FieldType(k, NaturalSize(k))], size + NaturalSize(k), k == Int8)
    ensures now.end <= size + t.size && now.types + Padded((size + t.size - now.end) % 0x1_0000, now.int8) == init + [t]
  {
    assert (init + [t])[|init|] == t;
    assert (size + t.size - now.end) % 0x1_0000 == if t.kind == FixString then t.size - 1 else 0;
  }

  lemma KindOfCode(t: FieldType)
    requires t.kind != Padding
    ensures var k := KindOf(CodeOf(t.kind)); k == Some(if t.kind == FixString then Int8 else t.kind)
  {
  }

  lemma {:induction false} NextBegun(ds: seq<Descriptor>, d: Descriptor, types: seq<FieldType>)
    requires Ordered(ds) && KindOf(d.code).Some? && Reach(ds) <= d.offset && Begun(ds).end <= d.offset
    requires types == Begun(ds).types + Padded(d.offset - Begun(ds).end, Begun(ds).int8)
    ensures Ordered(ds + [d]) && Reach(ds + [d]) == d.offset + NaturalSize(KindOf(d.code).value)
    ensures var k := KindOf(d.code).value;
            Begun(ds + [d]) == Building(if k == Int8 then types else types + [FieldType(k, NaturalSize(k))], d.offset + NaturalSize(k), k == Int8)
  {
    hide Padded, KindOf;
    assert (ds + [d])[..|ds|] == ds;
  }

  /** A canonical record type is rebuilt from its own descriptors. */
  lemma {:induction false} CanonicalRebuilt(types: seq<FieldType>)
    requires CanonicalTypes(types)
    ensures Ordered(Described(types)) && Reach(Described(types)) <= TotalSize(types)
    ensures Built(Described(types), TotalSize(types)) == types
  {
    hide FieldFits, Ordered, Reach, Built;
    if types == [] {
      NothingBuilt();
    } else {
      var n := |types| - 1;
      var init, t := types[..n], types[n];
      CanonicalPrefix(types, n);
      CanonicalRebuilt(init);
      assert FieldFits(types, n);
      assert types == init + [t];
      if t.kind == Padding {
        PaddingRebuilt(init, t);
      } else {
        FieldRebuilt(init, t);
      }
    }
  }

  lemma NothingBuilt()
    ensures Ordered([]) && Reach([]) == 0 && Built([], 0) == []
  {
  }

  /** In front of padding nothing is pending but a byte. */
  lemma {:induction false} LastFits(init: seq<FieldType>, b: Building)
    requires init == [] || (init[|init| - 1].kind != Padding && init[|init| - 1].kind != FixString)
    requires Ordered(Described(init)) && b == Begun(Described(init)) && CanonicalTypes(init)
    requires Built(Described(init), TotalSize(init)) == init
    ensures b.end == TotalSize(init)
    ensures if init != [] && init[|init| - 1].kind == Int8 then b.int8 && init == b.types + [FieldType(Int8, 1)] else !b.int8 && init == b.types
  {
    hide TotalSize, Described, Ordered, Begun, KindOf, CodeOf;
    var ds := Described(init);
    if init == [] {
      NoFields();
      NothingBegun();
    } else {
      var n := |init| - 1;
      assert FieldFits(init, n);
      assert init == init[..n] + [init[n]];
      FieldMeans(init[..n], init[n]);
      KindOfCode(init[n]);
      LastBegun(ds, ds[|ds| - 1]);
    }
  }

  lemma NothingBegun()
    ensures Ordered([]) && Begun([]) == Building([], 0, false)
  {
  }

  lemma {:induction false} LastBegun(ds: seq<Descriptor>, d: Descriptor)
    requires ds != [] && d == ds[|ds| - 1] && Ordered(ds)
    ensures KindOf(d.code).Some? && Begun(ds).end == d.offset + NaturalSize(KindOf(d.code).value) && Begun(ds).int8 == (KindOf(d.code).value == Int8)
  {
    hide KindOf, Padded, NaturalSize;
  }

  /** The gap behind the last field named fits 16 bits. */
  lemma {:induction false} GapSmall(init: seq<FieldType>, b: Building)
    requires Ordered(Described(init)) && b == Begun(Described(init)) && CanonicalTypes(init)
    requires Reach(Described(init)) <= TotalSize(init) && Built(Described(init), TotalSize(init)) == init
    ensures b.end <= TotalSize(init) < b.end + 0x1_0000
  {
    BegunMeans(Described(init));
    BuiltDescribes(Described(init), TotalSize(init));
  }
}
