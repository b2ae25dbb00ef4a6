/** Parameters of STCM instructions: three tagged words that stand for one of eight things. */
module StcmParams {
  import opened Bytes

  type word = x: nat | x < 0x1_0000_0000

  function Trunc(x: nat): word {
    x % 0x1_0000_0000
  }

  /** Stands in the words a parameter does not use. */
  const Unused: word := 0x4000_0000

  const ReadStackMin: word := 0xffff_ff00
  const ReadStackMax: word := 0xffff_ff0f
  const Read4acMin: word := 0xffff_ff20
  const Read4acMax: word := 0xffff_ff27
  const InstrPtr0At: word := 0xffff_ff40
  const InstrPtr1At: word := 0xffff_ff41
  const CollLinkAt: word := 0xffff_ff42
  const ExpansionAt: word := 0xffff_ff43

  /** The two top bits of a word tell what it is, the others are its value. */
  function TypeTag(x: word): nat {
    x / 0x4000_0000
  }

  function Value(x: word): word {
    x % 0x4000_0000
  }

  /** The bits of two numbers below 4 together. */
  function Or2(a: nat, b: nat): nat
    requires a < 4 && b < 4
  {
    (if a / 2 == 1 || b / 2 == 1 then 2 else 0) + (if a % 2 == 1 || b % 2 == 1 then 1 else 0)
  }

  /** A tag put over a value: bits of the value that reach into the tag stay there. */
  function Tag(tag: nat, val: word): word
    requires tag < 4
  {
    Or2(tag, TypeTag(val)) * 0x4000_0000 + Value(val)
  }

  datatype Words = Words(p0: word, p4: word, p8: word)

  /** What the second and third word of a parameter stand for. A target is a file position or a label. */
  datatype Param48<+L> =
    | MemOffset(target: L)
    | Immediate(value: word)
    | Indirect(value: word)
    | ReadStack(value: word)
    | Read4ac(value: word)

  datatype Param<+L> =
    | Memory(target: L, param4: Param48<L>, param8: Param48<L>)
    | Through(index: word, param8: Param48<L>)
    | Stack(value: word)
    | Four(value: word)
    | InstrPtr0(target: L)
    | InstrPtr1(target: L)
    | CollLink(target: L)
    | Expansion(target: L)

  predicate OnStack(x: word) { ReadStackMin <= x <= ReadStackMax }

  predicate In4ac(x: word) { Read4acMin <= x <= Read4acMax }

  predicate Valid48(x: word, fileSize: nat) {
    match TypeTag(x)
    case 0 => Trunc(Value(x) + 16) < fileSize
    case 1 => true
    case 2 => true
    case _ => OnStack(x) || In4ac(x)
  }

  /** Sums with a position are those of 32-bit words and wrap. */
  predicate Valid(w: Words, fileSize: nat) {
    match TypeTag(w.p0)
    case 0 => Value(w.p0) < fileSize && Valid48(w.p4, fileSize) && Valid48(w.p8, fileSize)
    case 2 => Value(w.p0) < 256 && w.p4 == Unused && Valid48(w.p8, fileSize)
    case 3 =>
      if OnStack(w.p0) || In4ac(w.p0) then w.p4 == Unused && w.p8 == Unused
      else if w.p0 == InstrPtr0At || w.p0 == InstrPtr1At then w.p4 < fileSize && w.p8 == Unused
      else if w.p0 == CollLinkAt then Trunc(w.p4 + 8) < fileSize && w.p8 == 0
      else if w.p0 == ExpansionAt then Trunc(w.p4 + 80) < fileSize && w.p8 == 0
      else false
    case _ => false
  }

  /** None where the original has no case left. */
  function Decode48(x: word): Option<Param48<nat>> {
    match TypeTag(x)
    case 0 => Some(MemOffset(Value(x)))
    case 1 => Some(Immediate(Value(x)))
    case 2 => Some(Indirect(Value(x)))
    case _ =>
      if OnStack(x) then Some(ReadStack(x - ReadStackMin))
      else if In4ac(x) then Some(Read4ac(x - Read4acMin))
      else None
  }

  /** What three words stand for, with the targets as file positions. */
  function Decode(w: Words, fileSize: nat): Option<Param<nat>> {
    if !Valid(w, fileSize) then None
    else
      match TypeTag(w.p0)
      case 0 =>
        var d4, d8 := Decode48(w.p4), Decode48(w.p8);
        if d4.Some? && d8.Some? then Some(Memory(Value(w.p0), d4.value, d8.value)) else None
      case 2 =>
        var d8 := Decode48(w.p8);
        if d8.Some? then Some(Through(Value(w.p0), d8.value)) else None
      case 3 =>
        if OnStack(w.p0) then Some(Stack(w.p0 - ReadStackMin))
        else if In4ac(w.p0) then Some(Four(w.p0 - Read4acMin))
        else if w.p0 == InstrPtr0At then Some(InstrPtr0(w.p4))
        else if w.p0 == InstrPtr1At then Some(InstrPtr1(w.p4))
        else if w.p0 == CollLinkAt then Some(CollLink(w.p4))
        else if w.p0 == ExpansionAt then Some(Expansion(w.p4))
        else None
      case _ => None
  }

  function Encode48(p: Param48<nat>): word {
    match p
    case MemOffset(t) => Tag(0, Trunc(t))
    case Immediate(v) => Tag(1, v)
    case Indirect(v) => Tag(2, v)
    case ReadStack(v) => Trunc(ReadStackMin + v)
    case Read4ac(v) => Trunc(Read4acMin + v)
  }

  function Encode(p: Param<nat>): Words {
    match p
    case Memory(t, p4, p8) => Words(Tag(0, Trunc(t)), Encode48(p4), Encode48(p8))
    case Through(i, p8) => Words(Tag(2, i), Unused, Encode48(p8))
    case Stack(v) => Words(Trunc(ReadStackMin + v), Unused, Unused)
    case Four(v) => Words(Trunc(Read4acMin + v), Unused, Unused)
    case InstrPtr0(t) => Words(InstrPtr0At, Trunc(t), Unused)
    case InstrPtr1(t) => Words(InstrPtr1At, Trunc(t), Unused)
    case CollLink(t) => Words(CollLinkAt, Trunc(t), 0)
    case Expansion(t) => Words(ExpansionAt, Trunc(t), 0)
  }

  lemma {:induction false} Split(x: word)
    ensures x == TypeTag(x) * 0x4000_0000 + Value(x) && TypeTag(x) < 4 && Value(x) < 0x4000_0000
  {
  }

  lemma {:induction false} SpecialTag(x: word)
    ensures x >= 0xc000_0000 <==> TypeTag(x) == 3
  {
  }

  lemma {:induction false} TagSplits(tag: nat, val: word)
    requires tag < 4
    ensures Value(Tag(tag, val)) == Value(val) && TypeTag(Tag(tag, val)) == Or2(tag, TypeTag(val))
    ensures Tag(0, val) == val
    ensures val < 0x4000_0000 ==> Tag(tag, val) == tag * 0x4000_0000 + val && TypeTag(Tag(tag, val)) == tag && Value(val) == val
  {
    Split(val);
    var t := Or2(tag, TypeTag(val));
    DivMod(t * 0x4000_0000 + Value(val), t, Value(val), 0x4000_0000);
  }

  lemma {:induction false} Exact48(x: word, fileSize: nat)
    requires Valid48(x, fileSize)
    ensures Decode48(x).Some? && Encode48(Decode48(x).value) == x
  {
    hide Tag, Value, TypeTag, Or2;
    Split(x);
    TagSplits(0, Value(x));
    TagSplits(1, Value(x));
    TagSplits(2, Value(x));
  }

  /** Exactly the valid words stand for something, and dumping it gives the same three words. */
  lemma {:induction false} DecodedDumpsSame(w: Words, fileSize: nat)
    ensures Decode(w, fileSize).Some? <==> Valid(w, fileSize)
    ensures Valid(w, fileSize) ==> Encode(Decode(w, fileSize).value) == w
  {
    hide Tag, Value, TypeTag, Or2, Decode48, Encode48, Valid48;
    if Valid(w, fileSize) {
      Split(w.p0);
      SpecialTag(w.p0);
      TagSplits(0, Value(w.p0));
      TagSplits(2, Value(w.p0));
      if TypeTag(w.p0) == 0 {
        Exact48(w.p4, fileSize);
      }
      if TypeTag(w.p0) == 0 || TypeTag(w.p0) == 2 {
        Exact48(w.p8, fileSize);
      }
    }
  }

  lemma {:induction false} ValidTags(w: Words, fileSize: nat)
    ensures Valid(w, fileSize) ==> TypeTag(w.p0) == 0 || TypeTag(w.p0) == 2 || TypeTag(w.p0) == 3
    ensures Valid(w, fileSize) && TypeTag(w.p0) == 0 ==> Decode48(w.p4).Some? && Decode48(w.p8).Some?
    ensures Valid(w, fileSize) && TypeTag(w.p0) == 2 ==> Decode48(w.p8).Some?
  {
    hide Tag, Value, Or2, Decode48, Encode48, Valid48;
    if Valid(w, fileSize) && TypeTag(w.p0) == 0 {
      Exact48(w.p4, fileSize);
    }
    if Valid(w, fileSize) && (TypeTag(w.p0) == 0 || TypeTag(w.p0) == 2) {
      Exact48(w.p8, fileSize);
    }
  }

  /** The ranges the words have room for. A value is 30 bits wide, a stack slot 4 bits, the other 3. */
  predicate Fits48(p: Param48<nat>, fileSize: nat) {
    match p
    case MemOffset(t) => t < 0x4000_0000 && t + 16 < fileSize
    case Immediate(v) => v < 0x4000_0000
    case Indirect(v) => v < 0x4000_0000
    case ReadStack(v) => v < 16
    case Read4ac(v) => v < 8
  }

  predicate Fits(p: Param<nat>, fileSize: nat) {
    match p
    case Memory(t, p4, p8) => t < 0x4000_0000 && t < fileSize && Fits48(p4, fileSize) && Fits48(p8, fileSize)
    case Through(i, p8) => i < 256 && Fits48(p8, fileSize)
    case Stack(v) => v < 16
    case Four(v) => v < 8
    case InstrPtr0(t) => t < 0x1_0000_0000 && t < fileSize
    case InstrPtr1(t) => t < 0x1_0000_0000 && t < fileSize
    case CollLink(t) => t < 0x1_0000_0000 && Trunc(t + 8) < fileSize
    case Expansion(t) => t < 0x1_0000_0000 && Trunc(t + 80) < fileSize
  }

  lemma {:induction false} ValueBelow(v: word)
    ensures Value(v) == v <==> v < 0x4000_0000
    ensures Value(v) < 0x4000_0000
  {
  }

  /** A dumped value comes back exactly when it leaves the tag alone. */
  lemma {:induction false} TaggedBack(tag: nat, v: word)
    requires tag == 1 || tag == 2
    ensures var x := Tag(tag, v);
            (TypeTag(x) == tag && Value(x) == v) <==> v < 0x4000_0000
  {
    TagSplits(tag, v);
    ValueBelow(v);
  }

  lemma {:induction false} SpecialBack(min: word, v: word, n: nat)
    requires (min == ReadStackMin && n == 16) || (min == Read4acMin && n == 8)
    ensures var x := Trunc(min + v); (min <= x < min + n && x - min == v) <==> v < n
  {
  }

  lemma {:induction false} Survives48(p: Param48<nat>, fileSize: nat)
    ensures Valid48(Encode48(p), fileSize) && Decode48(Encode48(p)) == Some(p) <==> Fits48(p, fileSize)
  {
    hide Tag, Value, TypeTag, Or2;
    var x := Encode48(p);
    SpecialTag(x);
    match p
    case MemOffset(t) =>
      TagSplits(0, Trunc(t));
      ValueBelow(Trunc(t));
      Split(Trunc(t));
    case Immediate(v) => TaggedBack(1, v);
    case Indirect(v) => TaggedBack(2, v);
    case ReadStack(v) => SpecialBack(ReadStackMin, v, 16);
    case Read4ac(v) => SpecialBack(Read4acMin, v, 8);
  }

  lemma {:induction false} MemorySurvives(t: nat, p4: Param48<nat>, p8: Param48<nat>, fileSize: nat)
    ensures var p := Memory(t, p4, p8); Decode(Encode(p), fileSize) == Some(p) <==> Fits(p, fileSize)
  {
    hide Tag, Value, TypeTag, Or2, Decode48, Encode48, Valid48, Fits48;
    var w := Encode(Memory(t, p4, p8));
    DecodedDumpsSame(w, fileSize);
    TagSplits(0, Trunc(t));
    ValueBelow(Trunc(t));
    Split(Trunc(t));
    Survives48(p4, fileSize);
    Survives48(p8, fileSize);
  }

  lemma {:induction false} ThroughSurvives(i: word, p8: Param48<nat>, fileSize: nat)
    ensures var p := Through(i, p8); Decode(Encode(p), fileSize) == Some(p) <==> Fits(p, fileSize)
  {
    hide Tag, Value, TypeTag, Or2, Decode48, Encode48, Valid48, Fits48;
    DecodedDumpsSame(Encode(Through(i, p8)), fileSize);
    TaggedBack(2, i);
    Survives48(p8, fileSize);
  }

  lemma {:induction false} PlainSurvives(p: Param<nat>, fileSize: nat)
    requires !p.Memory? && !p.Through?
    ensures Decode(Encode(p), fileSize) == Some(p) <==> Fits(p, fileSize)
  {
    hide Tag, Value, TypeTag, Or2, Decode48, Encode48, Valid48, Fits48;
    DecodedDumpsSame(Encode(p), fileSize);
    SpecialTag(Encode(p).p0);
    SpecialBack(ReadStackMin, if p.Stack? then p.value else 0, 16);
    SpecialBack(Read4acMin, if p.Four? then p.value else 0, 8);
  }

  /** A parameter survives dumping and decoding exactly when its numbers and targets are in range. */
  lemma {:induction false} DumpedDecodesSame(p: Param<nat>, fileSize: nat)
    ensures Decode(Encode(p), fileSize) == Some(p) <==> Fits(p, fileSize)
  {
    hide Decode, Encode, Fits;
    if p.Memory? {
      MemorySurvives(p.target, p.param4, p.param8, fileSize);
    } else if p.Through? {
      ThroughSurvives(p.index, p.param8, fileSize);
    } else {
      PlainSurvives(p, fileSize);
    }
  }

  /** The file positions a parameter names. */
  function Targets48(p: Param48<nat>): seq<nat> {
    if p.MemOffset? then [p.target] else []
  }

  function Targets(p: Param<nat>): seq<nat> {
    match p
    case Memory(t, p4, p8) => [t] + Targets48(p4) + Targets48(p8)
    case Through(_, p8) => Targets48(p8)
    case Stack(_) => []
    case Four(_) => []
    case _ => [p.target]
  }

  predicate AllBelow(ts: seq<nat>, bound: nat) {
    forall i {:trigger ts[i]} :: 0 <= i < |ts| ==> ts[i] < bound
  }

  /** The size check of a link or an expansion wraps for the last few positions of 32 bits. */
  predicate Wraps(w: Words) {
    (w.p0 == CollLinkAt && w.p4 + 8 >= 0x1_0000_0000) || (w.p0 == ExpansionAt && w.p4 + 80 >= 0x1_0000_0000)
  }

  lemma {:induction false} Inside48(x: word, fileSize: nat)
    requires Valid48(x, fileSize)
    ensures Decode48(x).Some? && AllBelow(Targets48(Decode48(x).value), fileSize)
  {
    Exact48(x, fileSize);
    Split(x);
  }

  /** A valid parameter names positions of the file only, unless its size check wrapped. */
  lemma {:induction false} TargetsInside(w: Words, fileSize: nat)
    requires Valid(w, fileSize)
    ensures Decode(w, fileSize).Some?
    ensures AllBelow(Targets(Decode(w, fileSize).value), fileSize) <==> !(Wraps(w) && fileSize <= w.p4)
  {
    DecodedDumpsSame(w, fileSize);
    SpecialTag(w.p0);
    hide Tag, Value, TypeTag, Or2, Decode48, Encode48, Valid48, Targets48;
    var ts := Targets(Decode(w, fileSize).value);
    if TypeTag(w.p0) == 0 {
      Inside48(w.p4, fileSize);
      Inside48(w.p8, fileSize);
    } else if TypeTag(w.p0) == 2 {
      Inside48(w.p8, fileSize);
    } else if OnStack(w.p0) || In4ac(w.p0) {
      assert ts == [];
    } else {
      assert ts == [w.p4] && ts[0] == w.p4;
    }
  }

  /** A link to the last byte of 32 bits passes the checks of a file of 100 bytes. */
  lemma {:induction false} OutsideAccepted()
    ensures var w := Words(CollLinkAt, 0xffff_ffff, 0);
            Valid(w, 100) && Decode(w, 100) == Some(CollLink(0xffff_ffff))
  {
    assert TypeTag(CollLinkAt) == 3;
  }
}
