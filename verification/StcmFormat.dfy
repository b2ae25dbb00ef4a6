/** What the words of an STCM file say an instruction is, written out. */
module StcmFormat {
  import opened Bytes
  import opened Numbers
  import opened Words
  import P = StcmParams
  import opened StcmInstructions
  import opened StcmStrings
  import opened Trees
  import opened Relink

  /** The second or third word of a parameter says this. */
  ghost predicate Says48(p: P.Param48<string>, w: nat, pos: Positions) {
    if w < 0x4000_0000 then p.MemOffset? && p.target in pos && pos[p.target] == w
    else if w < 0x8000_0000 then p == P.Immediate(w - 0x4000_0000)
    else if w < 0xc000_0000 then p == P.Indirect(w - 0x8000_0000)
    else if 0xffff_ff00 <= w <= 0xffff_ff0f then p == P.ReadStack(w - 0xffff_ff00)
    else 0xffff_ff20 <= w <= 0xffff_ff27 && p == P.Read4ac(w - 0xffff_ff20)
  }

  /** The three words of a parameter say this. */
  ghost predicate SaysParam(p: P.Param<string>, w0: nat, w1: nat, w2: nat, pos: Positions) {
    if w0 < 0x4000_0000 then p.Memory? && p.target in pos && pos[p.target] == w0 && Says48(p.param4, w1, pos) && Says48(p.param8, w2, pos)
    else if 0x8000_0000 <= w0 < 0x8000_0100 then p.Through? && p.index == w0 - 0x8000_0000 && w1 == 0x4000_0000 && Says48(p.param8, w2, pos)
    else if 0xffff_ff00 <= w0 <= 0xffff_ff0f then p == P.Stack(w0 - 0xffff_ff00) && w1 == w2 == 0x4000_0000
    else if 0xffff_ff20 <= w0 <= 0xffff_ff27 then p == P.Four(w0 - 0xffff_ff20) && w1 == w2 == 0x4000_0000
    else if w0 == 0xffff_ff40 then p.InstrPtr0? && p.target in pos && pos[p.target] == w1 && w2 == 0x4000_0000
    else if w0 == 0xffff_ff41 then p.InstrPtr1? && p.target in pos && pos[p.target] == w1 && w2 == 0x4000_0000
    else if w0 == 0xffff_ff42 then p.CollLink? && p.target in pos && pos[p.target] == w1 && w2 == 0
    else w0 == 0xffff_ff43 && p.Expansion? && p.target in pos && pos[p.target] == w1 && w2 == 0
  }

  /** The words from `p` on say this instruction, of so many bytes with what it holds. */
  ghost predicate SaysInstr(i: Instr<string>, file: seq<byte>, p: nat, size: nat, pos: Positions) {
    && p + 16 + 12 * |i.params| <= |file| && |i.params| < 16 && Four(file, p + 8) == |i.params| && Four(file, p + 12) == size >= 16 + 12 * |i.params|
    && (match i.target
        case Call(l) => Four(file, p) == 1 && l in pos && pos[l] == Four(file, p + 4)
        case Opcode(n) => Four(file, p) == 0 && n == Four(file, p + 4) && (n < 0x1000 || 0xffff_ff00 <= n <= 0xffff_ff14))
    && forall k {:trigger i.params[k]} :: 0 <= k < |i.params| ==>
         SaysParam(i.params[k], Four(file, p + 16 + 12 * k), Four(file, p + 20 + 12 * k), Four(file, p + 24 + 12 * k), pos)
  }

  const Anywhere := 0x2_0000_0000

  /** Everything in the instruction is in range of its words, wherever the file ends. */
  ghost predicate Ranged(i: Instr<string>, pos: Positions) {
    && |i.params| < 16
    && (match i.target case Call(l) => At(pos, l) < 0x1_0000_0000 case Opcode(n) => KnownOpcode(n))
    && forall k {:trigger i.params[k]} :: 0 <= k < |i.params| ==> P.Fits(ResolveParam(i.params[k], pos), Anywhere)
  }

  lemma Fits48Anywhere(p: P.Param48<nat>, fileSize: nat)
    requires P.Fits48(p, fileSize)
    ensures P.Fits48(p, Anywhere)
  {
  }

  lemma FitsAnywhere(p: P.Param<nat>, fileSize: nat)
    requires P.Fits(p, fileSize)
    ensures P.Fits(p, Anywhere)
  {
    match p
    case Memory(_, p4, p8) =>
      Fits48Anywhere(p4, fileSize);
      Fits48Anywhere(p8, fileSize);
    case Through(_, p8) => Fits48Anywhere(p8, fileSize);
    case _ =>
  }

  lemma DecodedFits(w: P.Words, fileSize: nat)
    requires P.Decode(w, fileSize).Some?
    ensures P.Fits(P.Decode(w, fileSize).value, Anywhere)
  {
    hide P.Decode, P.Encode, P.Fits, P.Valid;
    P.DecodedDumpsSame(w, fileSize);
    var p := P.Decode(w, fileSize).value;
    P.DumpedDecodesSame(p, fileSize);
    FitsAnywhere(p, fileSize);
  }

  lemma {:induction false} ParamsRanged(b: seq<byte>, n: nat, fileSize: nat)
    requires |b| >= ParamSize * n && ReadParams(b, n, fileSize).Some?
    ensures forall k {:trigger ReadParams(b, n, fileSize).value[k]} :: 0 <= k < n ==> P.Fits(ReadParams(b, n, fileSize).value[k], Anywhere)
  {
    hide P.Decode, P.Fits, ReadWords;
    if n > 0 {
      ParamsRanged(b, n - 1, fileSize);
      DecodedFits(ReadWords(b[ParamSize * (n - 1)..]), fileSize);
    }
  }

  /** An instruction that was read is in range. */
  lemma ReadRanged(b: seq<byte>, fileSize: nat, i: Instr<string>, size: nat, pos: Positions)
    requires ReadInstr(b, fileSize) == Some(Read(Resolve(i, pos), size))
    ensures Ranged(i, pos)
  {
    hide ReadParams, DecWords, P.Fits, KnownOpcode, ResolveParam;
    Sums();
    Ranges();
    var h := DecWords(true, HeaderWords, b);
    DecFits(true, HeaderWords, b, 1);
    ParamsRanged(b[HeaderSize..], h[2], fileSize);
    var ps := ReadParams(b[HeaderSize..], h[2], fileSize).value;
    assert ps == ResolveParams(i.params, pos);
    forall k | 0 <= k < |i.params|
      ensures P.Fits(ResolveParam(i.params[k], pos), Anywhere)
    {
      assert ps[k] == ResolveParam(i.params[k], pos);
    }
    KnownSame(P.Trunc(h[1]), h[1]);
  }

  lemma KnownSame(a: nat, b: nat)
    requires a == b
    ensures KnownOpcode(a) == KnownOpcode(b)
  {
  }

  lemma HeldWord(file: seq<byte>, at: nat, v: nat)
    requires v < 0x1_0000_0000 && Holds(file, at, Le(4, v))
    ensures at + 4 <= |file| && Four(file, at) == v
  {
    hide De, Four, Le;
    Ranges();
    DeLe(4, v);
    WordsAre(file, at);
  }

  lemma OneMore(ws: seq<nat>, vs: seq<nat>, w: nat, v: nat)
    requires |ws| == |vs|
    ensures EncWords(true, ws + [w], vs + [v]) == EncWords(true, ws, vs) + Le(w, v)
  {
    hide Le;
    assert (ws + [w])[..|ws|] == ws && (vs + [v])[..|vs|] == vs;
  }

  lemma OneWord(a: nat)
    ensures EncWords(true, [4], [a]) == Le(4, a)
  {
    hide Le;
    var none: seq<nat> := [];
    assert EncWords(true, none, none) == [];
  }

  lemma ThreeWords(a: nat, b: nat, c: nat)
    ensures EncWords(true, ParamWords, [a, b, c]) == Le(4, a) + Le(4, b) + Le(4, c)
  {
    hide Le, EncWords;
    OneWord(a);
    OneMore([4], [a], 4, b);
    OneMore([4, 4], [a, b], 4, c);
    assert [a] + [b] == [a, b] && [a, b] + [c] == [a, b, c];
    assert [4] + [4] == [4, 4] && [4, 4] + [4] == ParamWords;
  }

  lemma FourWords(a: nat, b: nat, c: nat, d: nat)
    ensures EncWords(true, HeaderWords, [a, b, c, d]) == Le(4, a) + Le(4, b) + Le(4, c) + Le(4, d)
  {
    hide Le, EncWords;
    ThreeWords(a, b, c);
    OneMore([4, 4, 4], [a, b, c], 4, d);
    assert [a, b, c] + [d] == [a, b, c, d] && [4, 4, 4] + [4] == HeaderWords;
  }

  lemma HeldParts(file: seq<byte>, at: nat, a: seq<byte>, b: seq<byte>)
    requires Holds(file, at, a + b)
    ensures Holds(file, at, a) && Holds(file, at + |a|, b)
  {
    var whole := a + b;
    SliceOfSlice(file, at, at + |whole|, 0, |a|);
    SliceOfSlice(file, at, at + |whole|, |a|, |whole|);
    assert whole[0..|a|] == a && whole[|a|..|whole|] == b;
  }

  lemma HeldThree(file: seq<byte>, at: nat, a: P.word, b: P.word, c: P.word)
    requires Holds(file, at, EncWords(true, ParamWords, [a, b, c]))
    ensures at + 12 <= |file| && Four(file, at) == a && Four(file, at + 4) == b && Four(file, at + 8) == c
  {
    hide Le, Four, Holds, EncWords;
    ThreeWords(a, b, c);
    HeldParts(file, at, Le(4, a) + Le(4, b), Le(4, c));
    HeldParts(file, at, Le(4, a), Le(4, b));
    HeldWord(file, at, a);
    HeldWord(file, at + 4, b);
    HeldWord(file, at + 8, c);
  }

  lemma HeldFour(file: seq<byte>, at: nat, a: P.word, b: P.word, c: P.word, d: P.word)
    requires Holds(file, at, EncWords(true, HeaderWords, [a, b, c, d]))
    ensures at + 16 <= |file| && Four(file, at) == a && Four(file, at + 4) == b && Four(file, at + 8) == c && Four(file, at + 12) == d
  {
    hide Le, Four, Holds, EncWords;
    FourWords(a, b, c, d);
    ThreeWords(a, b, c);
    HeldParts(file, at, Le(4, a) + Le(4, b) + Le(4, c), Le(4, d));
    HeldThree(file, at, a, b, c);
    HeldWord(file, at + 12, d);
  }

  /** A parameter in range, as it is dumped, says itself. */
  lemma EncodedSays48(p: P.Param48<string>, pos: Positions)
    requires P.Fits48(Resolve48(p, pos), Anywhere) && AllIn(Labels48(p), pos.Keys)
    ensures Says48(p, P.Encode48(Resolve48(p, pos)), pos)
  {
    hide P.Tag, P.Value, P.TypeTag, P.Or2;
    match p
    case MemOffset(t) =>
      assert Labels48(p)[0] == t;
      P.TagSplits(0, P.Trunc(pos[t]));
    case Immediate(v) => P.TagSplits(1, v);
    case Indirect(v) => P.TagSplits(2, v);
    case _ =>
  }

  lemma ParamLabels(p: P.Param<string>, known: set<string>)
    requires AllIn(LabelsOfParam(p), known)
    ensures p.Memory? ==> p.target in known && AllIn(Labels48(p.param4), known) && AllIn(Labels48(p.param8), known)
    ensures p.Through? ==> AllIn(Labels48(p.param8), known)
    ensures p.InstrPtr0? || p.InstrPtr1? || p.CollLink? || p.Expansion? ==> p.target in known
  {
    var ls := LabelsOfParam(p);
    if p.Memory? {
      assert ls[0] == p.target;
      var n := |Labels48(p.param4)|;
      assert forall i {:trigger Labels48(p.param4)[i]} :: 0 <= i < n ==> Labels48(p.param4)[i] == ls[1 + i];
      assert forall i {:trigger Labels48(p.param8)[i]} :: 0 <= i < |Labels48(p.param8)| ==> Labels48(p.param8)[i] == ls[1 + n + i];
    } else if !p.Through? && !p.Stack? && !p.Four? {
      assert ls[0] == p.target;
    }
  }

  lemma EncodedSays(p: P.Param<string>, pos: Positions)
    requires P.Fits(ResolveParam(p, pos), Anywhere) && AllIn(LabelsOfParam(p), pos.Keys)
    ensures var w := P.Encode(ResolveParam(p, pos)); SaysParam(p, w.p0, w.p4, w.p8, pos)
  {
    hide P.Tag, P.Value, P.TypeTag, P.Or2, Says48, P.Encode48, P.Fits48, Labels48, LabelsOfParam;
    ParamLabels(p, pos.Keys);
    match p
    case Memory(t, p4, p8) =>
      P.TagSplits(0, P.Trunc(pos[t]));
      EncodedSays48(p4, pos);
      EncodedSays48(p8, pos);
    case Through(i, p8) =>
      P.TagSplits(2, i);
      EncodedSays48(p8, pos);
    case _ =>
  }

  /** Where the bytes of parameters are held, those of each are. */
  lemma {:induction false} HeldParam(file: seq<byte>, at: nat, ps: seq<P.Param<nat>>, k: nat)
    requires Holds(file, at, ParamsBytes(ps)) && k < |ps|
    ensures Holds(file, at + 12 * k, ParamBytes(ps[k]))
  {
    hide Holds, ParamBytes;
    var n := |ps| - 1;
    ParamsLength(ps[..n]);
    HeldParts(file, at, ParamsBytes(ps[..n]), ParamBytes(ps[n]));
    if k < n {
      HeldParam(file, at, ps[..n], k);
    }
  }

  /** An instruction in range whose bytes are in the file is what the words there say. */
  lemma HeldSays(i: Instr<string>, file: seq<byte>, p: nat, size: nat, pos: Positions)
    requires Holds(file, p, InstrBytes(Resolve(i, pos), size)) && Ranged(i, pos) && RefsKnown(Instruction(i), pos.Keys)
    requires FixedSize(i) <= size < 0x1_0000_0000
    ensures SaysInstr(i, file, p, size, pos)
  {
    hide P.Fits, SaysParam, Holds, Four, EncWords, ResolveParam, LabelsOfParam, P.Encode;
    var r := Resolve(i, pos);
    InstrLength(r, size);
    HeldParts(file, p, HeaderBytes(r, size), ParamsBytes(r.params));
    HeldFour(file, p, if r.target.Call? then 1 else 0, if r.target.Call? then P.Trunc(r.target.target) else r.target.number, P.Trunc(|r.params|), P.Trunc(size));
    ParamsLength(r.params);
    HeldBound(file, p + 16, ParamsBytes(r.params));
    forall k | 0 <= k < |i.params|
      ensures SaysParam(i.params[k], Four(file, p + 16 + 12 * k), Four(file, p + 20 + 12 * k), Four(file, p + 24 + 12 * k), pos)
    {
      HeldParam(file, p + 16, r.params, k);
      var w := P.Encode(r.params[k]);
      HeldThree(file, p + 16 + 12 * k, w.p0, w.p4, w.p8);
      assert r.params[k] == ResolveParam(i.params[k], pos);
      EncodedSays(i.params[k], pos);
    }
  }

  lemma HeldBound(file: seq<byte>, at: nat, b: seq<byte>)
    requires Holds(file, at, b)
    ensures at + |b| <= |file|
  {
  }

  // ---- what an item is written as

  /** The four words of the header of a data item. */
  predicate DataWords(file: seq<byte>, p: nat, kind: nat, unit: nat, field8: nat, length: nat) {
    p + 16 <= |file| && Four(file, p) == kind && Four(file, p + 4) == unit && Four(file, p + 8) == field8 && Four(file, p + 12) == length % 0x1_0000_0000
  }

  predicate ZerosFrom(file: seq<byte>, from: nat, end: nat) {
    from <= end <= |file| && forall k {:trigger file[k]} :: from <= k < end ==> file[k] == 0
  }

  /** The bytes from `p` on are those of an item of `size` bytes, word by word: for a string the header of its data, the letters and
      one to four zeros; for an expansion its number, where its name is and 72 zeros. */
  ghost predicate Written(b: Body, file: seq<byte>, p: nat, size: nat, pos: Positions) {
    match b
    case Raw(view) => view.Valid() && Holds(file, p, view.Bytes())
    case Text(str) => Holds(file, p, str + [0])
    case Instruction(i) => Ranged(i, pos) && size < 0x1_0000_0000 ==> SaysInstr(i, file, p, size, pos)
    case Data(kind, unit, field8) => size >= 16 && DataWords(file, p, kind, unit, field8, size - 16)
    case Expansion(index, name) =>
      && p + 80 <= |file| && Four(file, p) == index && name in pos && Four(file, p + 4) == pos[name] % 0x1_0000_0000 && ZerosFrom(file, p + 8, p + 80)
    case StringData(str, _) =>
      var len := |str| - |str| % 4 + 4;
      && DataWords(file, p, 0, len / 4 % 0x1_0000_0000, 1, len) && Holds(file, p + 16, str) && ZerosFrom(file, p + 16 + |str|, p + 16 + len)
    case Table(bytes) => Holds(file, p, bytes)
    case _ => true
  }

  lemma HeldZeros(file: seq<byte>, at: nat, n: nat)
    requires Holds(file, at, Zeros(n))
    ensures ZerosFrom(file, at, at + n)
  {
    forall k | at <= k < at + n
      ensures file[k] == 0
    {
      assert file[at..at + n][k - at] == Zeros(n)[k - at];
    }
  }

  lemma {:induction false} NoBits(n: nat)
    ensures Le(n, 0) == Zeros(n)
  {
    if n > 0 {
      NoBits(n - 1);
      assert Le(n, 0) == [0] + Le(n - 1, 0);
    }
  }

  lemma HeldData(file: seq<byte>, p: nat, kind: P.word, unit: P.word, field8: P.word, length: nat)
    requires Holds(file, p, DataHeader(kind, unit, field8, P.Trunc(length)))
    ensures DataWords(file, p, kind, unit, field8, length)
  {
    hide Holds, EncWords, Four;
    HeldFour(file, p, kind, unit, field8, P.Trunc(length));
  }

  lemma HeldString(str: seq<byte>, file: seq<byte>, p: nat, lost: nat, size: nat, pos: Positions)
    requires Holds(file, p, StringBytes(str))
    ensures Written(StringData(str, lost), file, p, size, pos)
  {
    hide Holds, Four, DataHeader, DataWords, ZerosFrom;
    var len := Rounded(|str|);
    assert len == |str| - |str| % 4 + 4;
    HeaderLength(0, P.Trunc(len / 4), 1, P.Trunc(len));
    HeldParts(file, p, DataHeader(0, P.Trunc(len / 4), 1, P.Trunc(len)) + str, Zeros(len - |str|));
    HeldParts(file, p, DataHeader(0, P.Trunc(len / 4), 1, P.Trunc(len)), str);
    HeldData(file, p, 0, P.Trunc(len / 4), 1, len);
    HeldZeros(file, p + 16 + |str|, len - |str|);
  }

  lemma HeldExpansion(index: P.word, name: string, file: seq<byte>, p: nat, size: nat, pos: Positions)
    requires Holds(file, p, Le(4, index) + Le(4, P.Trunc(At(pos, name))) + Le(72, 0)) && name in pos
    ensures Written(Expansion(index, name), file, p, size, pos)
  {
    hide Holds, Four, Le, ZerosFrom;
    HeldParts(file, p, Le(4, index) + Le(4, P.Trunc(At(pos, name))), Le(72, 0));
    HeldParts(file, p, Le(4, index), Le(4, P.Trunc(At(pos, name))));
    HeldWord(file, p, index);
    HeldWord(file, p + 4, P.Trunc(At(pos, name)));
    NoBits(72);
    HeldZeros(file, p + 8, 72);
    ZerosInside(file, p + 8, p + 80);
  }

  lemma ZerosInside(file: seq<byte>, from: nat, end: nat)
    requires ZerosFrom(file, from, end)
    ensures end <= |file|
  {
  }

  /** Whatever holds the bytes of an item holds them word by word. */
  lemma HeldWritten(b: Body, file: seq<byte>, p: nat, size: nat, pos: Positions)
    requires BodyOk(b) && RefsKnown(b, pos.Keys) && Holds(file, p, OwnBytes(b, size, pos)) && size >= Weigh(b)
    ensures Written(b, file, p, size, pos)
  {
    hide Holds, EncWords, Four, InstrBytes, StringBytes, SaysInstr, Ranged, DataHeader, DataWords, Le, Rounded;
    match b {
      case Instruction(i) =>
        if Ranged(i, pos) && size < 0x1_0000_0000 {
          HeldSays(i, file, p, size, pos);
        }
      case Data(kind, unit, field8) => HeldData(file, p, kind, unit, field8, size - 16);
      case StringData(str, lost) => HeldString(str, file, p, lost, size, pos);
      case Expansion(index, name) => HeldExpansion(index, name, file, p, size, pos);
      case _ =>
    }
  }

  // ---- what the words of an instruction lead to

  /** Where disassembly starts. */
  datatype Starts = Starts(code: set<nat>, data: set<nat>)

  /** Parameter `k` of the instruction at `q` names code at `p`. */
  ghost predicate ParamCode(file: seq<byte>, q: nat, k: nat, p: nat) {
    var at := q + 16 + 12 * k;
    at + 12 <= |file| && (Four(file, at) == 0xffff_ff40 || Four(file, at) == 0xffff_ff41) && p == Four(file, at + 4)
  }

  /** Parameter `k` of the instruction at `q` names data at `p`. */
  ghost predicate ParamData(file: seq<byte>, q: nat, k: nat, p: nat) {
    var at := q + 16 + 12 * k;
    at + 12 <= |file| && Four(file, at) < 0x4000_0000 && p == Four(file, at)
  }

  /** The instruction at `q` leads to one at `p`: it is called, follows an instruction that is a call or not one of the opcodes
      0 and 6, or is named by a parameter. */
  ghost predicate CodeFrom(file: seq<byte>, q: nat, p: nat) {
    q + 16 <= |file| &&
    (|| (Four(file, q) == 1 && p == Four(file, q + 4))
     || ((Four(file, q) == 1 || (Four(file, q + 4) != 0 && Four(file, q + 4) != 6)) && p == q + Four(file, q + 12))
     || exists k: nat {:trigger ParamCode(file, q, k, p)} :: k < Four(file, q + 8) && ParamCode(file, q, k, p))
  }

  ghost predicate DataFrom(file: seq<byte>, q: nat, p: nat) {
    q + 16 <= |file| && exists k: nat {:trigger ParamData(file, q, k, p)} :: k < Four(file, q + 8) && ParamData(file, q, k, p)
  }

  /** Code is `n` steps from where disassembly starts. */
  ghost predicate CodeSteps(file: seq<byte>, starts: Starts, p: nat, n: nat)
    decreases n
  {
    if n == 0 then p in starts.code
    else exists q: nat {:trigger CodeFrom(file, q, p)} :: CodeFrom(file, q, p) && CodeSteps(file, starts, q, n - 1)
  }

  ghost predicate CodeSought(file: seq<byte>, starts: Starts, p: nat) {
    exists n: nat :: CodeSteps(file, starts, p, n)
  }

  ghost predicate DataSought(file: seq<byte>, starts: Starts, p: nat) {
    p in starts.data || exists q: nat {:trigger DataFrom(file, q, p)} :: DataFrom(file, q, p) && CodeSought(file, starts, q)
  }

  lemma CodeStep(file: seq<byte>, starts: Starts, q: nat, p: nat)
    requires CodeSought(file, starts, q) && CodeFrom(file, q, p)
    ensures CodeSought(file, starts, p)
  {
    hide CodeFrom;
    var n: nat :| CodeSteps(file, starts, q, n);
    assert CodeSteps(file, starts, p, n + 1);
  }

  lemma DataStep(file: seq<byte>, starts: Starts, q: nat, p: nat)
    requires CodeSought(file, starts, q) && DataFrom(file, q, p)
    ensures DataSought(file, starts, p)
  {
    hide DataFrom;
  }

  lemma Began(file: seq<byte>, starts: Starts, p: nat)
    ensures p in starts.code ==> CodeSought(file, starts, p)
    ensures p in starts.data ==> DataSought(file, starts, p)
  {
    if p in starts.code {
      assert CodeSteps(file, starts, p, 0);
    }
  }

  /** What the parameters of an instruction say its words say. */
  lemma ParamWords3(i: Instr<string>, file: seq<byte>, p: nat, size: nat, pos: Positions, k: nat)
    requires SaysInstr(i, file, p, size, pos) && k < |i.params|
    ensures i.params[k].Memory? ==> i.params[k].target in pos && ParamData(file, p, k, pos[i.params[k].target])
    ensures i.params[k].InstrPtr0? || i.params[k].InstrPtr1? ==> i.params[k].target in pos && ParamCode(file, p, k, pos[i.params[k].target])
    ensures p + 28 + 12 * k <= |file| && SaysParam(i.params[k], Four(file, p + 16 + 12 * k), Four(file, p + 20 + 12 * k), Four(file, p + 24 + 12 * k), pos)
  {
    hide Four, Says48;
    assert SaysParam(i.params[k], Four(file, p + 16 + 12 * k), Four(file, p + 20 + 12 * k), Four(file, p + 24 + 12 * k), pos);
    assert p + 16 + 12 * k + 12 <= |file|;
  }

  /** The header words of an instruction that was read. */
  lemma ReadHeader(b: seq<byte>, fileSize: nat)
    requires ReadInstr(b, fileSize).Some?
    ensures |b| >= 16 && ReadInstr(b, fileSize).value.size == Four(b, 12)
  {
    hide ReadParams, HeaderValid, Four;
    HeaderRead(b);
  }

  lemma HeaderRead(b: seq<byte>)
    requires |b| >= 16
    ensures Sum(HeaderWords) == 16 && DecWords(true, HeaderWords, b) == [Four(b, 0), Four(b, 4), Four(b, 8), Four(b, 12)]
  {
    hide Four, De;
    Sums();
    ReadThree(b);
    assert [4, 4, 4, 4][..3] == [4, 4, 4] && b[12..16] == b[12..12 + 4];
    WordsAre(b, 12);
  }

  lemma ReadThree(b: seq<byte>)
    requires |b| >= 12
    ensures Sum(ParamWords) == 12 && DecWords(true, ParamWords, b) == [Four(b, 0), Four(b, 4), Four(b, 8)]
  {
    hide Four, De;
    Sums();
    var none: seq<nat> := [];
    var one: seq<nat> := [4];
    var two: seq<nat> := [4, 4];
    assert ParamWords[..2] == two && two[..1] == one && one[..0] == none;
    assert Sum(none) == 0 && Sum(one) == 4 && Sum(two) == 8;
    WordsAre(b, 0);
    WordsAre(b, 4);
    WordsAre(b, 8);
    assert DecWords(true, none, b) == [];
    assert DecWords(true, one, b) == [Four(b, 0)];
    assert DecWords(true, two, b) == [Four(b, 0), Four(b, 4)];
  }

  // ---- what is refused

  ghost predicate Accepts48(w: nat, fileSize: nat) {
    if w < 0x4000_0000 then w + 16 < fileSize
    else w < 0xc000_0000 || 0xffff_ff00 <= w <= 0xffff_ff0f || 0xffff_ff20 <= w <= 0xffff_ff27
  }

  /** The three words of a parameter are accepted; the sums of links and expansions wrap. */
  ghost predicate AcceptsParam(w0: nat, w1: nat, w2: nat, fileSize: nat) {
    if w0 < 0x4000_0000 then w0 < fileSize && Accepts48(w1, fileSize) && Accepts48(w2, fileSize)
    else if 0x8000_0000 <= w0 < 0x8000_0100 then w1 == 0x4000_0000 && Accepts48(w2, fileSize)
    else if 0xffff_ff00 <= w0 <= 0xffff_ff0f || 0xffff_ff20 <= w0 <= 0xffff_ff27 then w1 == w2 == 0x4000_0000
    else if w0 == 0xffff_ff40 || w0 == 0xffff_ff41 then w1 < fileSize && w2 == 0x4000_0000
    else if w0 == 0xffff_ff42 then (w1 + 8) % 0x1_0000_0000 < fileSize && w2 == 0
    else w0 == 0xffff_ff43 && (w1 + 80) % 0x1_0000_0000 < fileSize && w2 == 0
  }

  lemma Valid48Accepts(x: P.word, fileSize: nat)
    ensures P.Valid48(x, fileSize) <==> Accepts48(x, fileSize)
  {
  }

  lemma ValidAccepts(w: P.Words, fileSize: nat)
    ensures P.Decode(w, fileSize).Some? <==> AcceptsParam(w.p0, w.p4, w.p8, fileSize)
  {
    hide P.Valid48, Accepts48, P.Decode;
    P.DecodedDumpsSame(w, fileSize);
    Valid48Accepts(w.p4, fileSize);
    Valid48Accepts(w.p8, fileSize);
  }

  lemma WordsRead(b: seq<byte>, at: nat)
    requires at + 12 <= |b|
    ensures ReadWords(b[at..]) == P.Words(Four(b, at), Four(b, at + 4), Four(b, at + 8))
  {
    hide De;
    ReadThree(b[at..]);
    assert Four(b[at..], 0) == Four(b, at) && Four(b[at..], 4) == Four(b, at + 4) && Four(b[at..], 8) == Four(b, at + 8);
    WordsAre(b, at);
    WordsAre(b, at + 4);
    WordsAre(b, at + 8);
  }

  ghost predicate ParamAccepted(b: seq<byte>, k: nat, fileSize: nat) {
    var at := 16 + 12 * k;
    at + 12 <= |b| && AcceptsParam(Four(b, at), Four(b, at + 4), Four(b, at + 8), fileSize)
  }

  lemma LastAccepted(b: seq<byte>, n: nat, fileSize: nat)
    requires n > 0 && |b| >= 16 + 12 * n
    ensures ReadParams(b[16..], n, fileSize).Some? <==> ReadParams(b[16..], n - 1, fileSize).Some? && ParamAccepted(b, n - 1, fileSize)
  {
    hide P.Decode, ReadWords, AcceptsParam, Four;
    var at := 16 + 12 * (n - 1);
    assert b[16..][12 * (n - 1)..] == b[at..];
    WordsRead(b, at);
    ValidAccepts(ReadWords(b[at..]), fileSize);
  }

  lemma NoneRead(b: seq<byte>, fileSize: nat)
    ensures ReadParams(b, 0, fileSize).Some?
  {
  }

  lemma {:induction false} ParamsAccepted(b: seq<byte>, n: nat, fileSize: nat)
    requires |b| >= 16 + 12 * n
    ensures ReadParams(b[16..], n, fileSize).Some? <==> forall k: nat {:trigger ParamAccepted(b, k, fileSize)} :: k < n ==> ParamAccepted(b, k, fileSize)
  {
    hide ParamAccepted, ReadParams;
    if n == 0 {
      NoneRead(b[16..], fileSize);
    } else {
      LastAccepted(b, n, fileSize);
      ParamsAccepted(b, n - 1, fileSize);
      assert forall k: nat {:trigger ParamAccepted(b, k, fileSize)} :: k < n <==> k < n - 1 || k == n - 1;
    }
  }

  /** An instruction is readable exactly if its words are these; its size is the fourth of them. */
  lemma ReadableMeans(b: seq<byte>, fileSize: nat)
    ensures ReadInstr(b, fileSize).Some? <==>
              && |b| >= 16 && Four(b, 0) <= 1 && Four(b, 8) < 16 && 16 + 12 * Four(b, 8) <= Four(b, 12) <= |b|
              && (if Four(b, 0) == 1 then Four(b, 4) < fileSize else Four(b, 4) < 0x1000 || 0xffff_ff00 <= Four(b, 4) <= 0xffff_ff14)
              && forall k: nat {:trigger ParamAccepted(b, k, fileSize)} :: k < Four(b, 8) ==> ParamAccepted(b, k, fileSize)
  {
    hide ReadParams, Four, ParamAccepted;
    if |b| >= 16 {
      HeaderRead(b);
      if |b| >= 16 + 12 * Four(b, 8) {
        ParamsAccepted(b, Four(b, 8), fileSize);
      }
    }
  }
}
