/** The bytes of an STCM instruction: a header of four words and three words for each parameter. */
module StcmInstructions {
  import opened Bytes
  import opened Words
  import P = StcmParams

  datatype Target<+L> = Opcode(number: P.word) | Call(target: L)

  datatype Instr<+L> = Instr(target: Target<L>, params: seq<P.Param<L>>)

  const HeaderSize := 16
  const ParamSize := 12

  function FixedSize<L>(i: Instr<L>): nat { HeaderSize + ParamSize * |i.params| }

  const HeaderWords: seq<nat> := [4, 4, 4, 4]
  const ParamWords: seq<nat> := [4, 4, 4]

  predicate KnownOpcode(op: nat) {
    op < 0x1000 || 0xffff_ff00 <= op <= 0xffff_ff14
  }

  /** The header's checks. */
  predicate HeaderValid(h: seq<nat>, fileSize: nat)
    requires |h| == 4
  {
    && (h[0] == 0 || h[0] == 1) && h[2] < 16 && h[3] >= HeaderSize + ParamSize * h[2]
    && (if h[0] == 1 then h[1] < fileSize else KnownOpcode(h[1]))
  }

  function ParamBytes(p: P.Param<nat>): (r: seq<byte>) {
    var w := P.Encode(p);
    EncWords(true, ParamWords, [w.p0, w.p4, w.p8])
  }

  function ParamsBytes(ps: seq<P.Param<nat>>): seq<byte> {
    if ps == [] then [] else ParamsBytes(ps[..|ps| - 1]) + ParamBytes(ps[|ps| - 1])
  }

  /** What an instruction dumps that has `size` bytes with its children. */
  function HeaderBytes(i: Instr<nat>, size: nat): seq<byte> {
    var call := i.target.Call?;
    EncWords(true, HeaderWords, [if call then 1 else 0, if call then P.Trunc(i.target.target) else i.target.number, P.Trunc(|i.params|), P.Trunc(size)])
  }

  function InstrBytes(i: Instr<nat>, size: nat): seq<byte> {
    HeaderBytes(i, size) + ParamsBytes(i.params)
  }

  /** The header of a data item. */
  function DataHeader(kind: nat, unit: nat, field8: nat, length: nat): seq<byte> {
    EncWords(true, HeaderWords, [kind, unit, field8, length])
  }

  function ReadWords(b: seq<byte>): P.Words
    requires |b| >= ParamSize
  {
    Sums();
    var ws := DecWords(true, ParamWords, b);
    P.Words(P.Trunc(ws[0]), P.Trunc(ws[1]), P.Trunc(ws[2]))
  }

  /** The first `n` parameters. */
  function ReadParams(b: seq<byte>, n: nat, fileSize: nat): (r: Option<seq<P.Param<nat>>>)
    requires |b| >= ParamSize * n
    ensures r.Some? ==> |r.value| == n
  {
    if n == 0 then Some([])
    else
      var init := ReadParams(b, n - 1, fileSize);
      var last := P.Decode(ReadWords(b[ParamSize * (n - 1)..]), fileSize);
      if init.Some? && last.Some? then Some(init.value + [last.value]) else None
  }

  datatype Read = Read(instr: Instr<nat>, size: nat)

  /** The instruction at the start of `b` and its size; None where the original throws. */
  function ReadInstr(b: seq<byte>, fileSize: nat): Option<Read> {
    if |b| < HeaderSize then None
    else
      Sums();
      var h := DecWords(true, HeaderWords, b);
      if |b| < h[3] || !HeaderValid(h, fileSize) then None
      else
        var ps := ReadParams(b[HeaderSize..], h[2], fileSize);
        if ps.None? then None
        else Some(Read(Instr(if h[0] == 1 then Call(h[1]) else Opcode(P.Trunc(h[1])), ps.value), h[3]))
  }

  lemma Sums()
    ensures Sum(HeaderWords) == HeaderSize && Sum(ParamWords) == ParamSize
  {
    assert [4, 4, 4, 4][..3] == [4, 4, 4] && [4, 4, 4][..2] == [4, 4] && [4, 4][..1] == [4] && [4][..0] == [];
    var one: seq<nat> := [4];
    var two: seq<nat> := [4, 4];
    assert Sum([]) == 0 && Sum(one) == 4 && Sum(two) == 8 && Sum(ParamWords) == 12;
  }

  lemma {:induction false} ParamLength(p: P.Param<nat>)
    ensures |ParamBytes(p)| == ParamSize
  {
    Sums();
    var w := P.Encode(p);
    WordsLength(true, ParamWords, [w.p0, w.p4, w.p8]);
  }

  lemma {:induction false} ParamsLength(ps: seq<P.Param<nat>>)
    ensures |ParamsBytes(ps)| == ParamSize * |ps|
  {
    if ps != [] {
      ParamsLength(ps[..|ps| - 1]);
      ParamLength(ps[|ps| - 1]);
    }
  }

  lemma {:induction false} InstrLength(i: Instr<nat>, size: nat)
    ensures |HeaderBytes(i, size)| == HeaderSize && |InstrBytes(i, size)| == FixedSize(i)
  {
    Sums();
    var call := i.target.Call?;
    WordsLength(true, HeaderWords, [if call then 1 else 0, if call then P.Trunc(i.target.target) else i.target.number, P.Trunc(|i.params|), P.Trunc(size)]);
    ParamsLength(i.params);
  }

  lemma {:induction false} ParamSame(b: seq<byte>, fileSize: nat)
    requires |b| >= ParamSize && P.Valid(ReadWords(b), fileSize)
    ensures var d := P.Decode(ReadWords(b), fileSize); d.Some? && ParamBytes(d.value) == b[..ParamSize]
  {
    hide P.Decode, P.Encode, P.Valid, EncWords, DecWords;
    Sums();
    Ranges();
    P.DecodedDumpsSame(ReadWords(b), fileSize);
    var ws := DecWords(true, ParamWords, b);
    DecFits(true, ParamWords, b, 0);
    DecFits(true, ParamWords, b, 1);
    DecFits(true, ParamWords, b, 2);
    WordsSame(ParamWords, b);
    assert ws == [ws[0], ws[1], ws[2]];
  }

  lemma {:induction false} ParamsSame(b: seq<byte>, n: nat, fileSize: nat)
    requires |b| >= ParamSize * n && ReadParams(b, n, fileSize).Some?
    ensures ParamsBytes(ReadParams(b, n, fileSize).value) == b[..ParamSize * n]
  {
    hide P.Decode, P.Encode, P.Valid, ReadWords, ParamBytes;
    if n > 0 {
      ParamsSame(b, n - 1, fileSize);
      var at := ParamSize * (n - 1);
      P.DecodedDumpsSame(ReadWords(b[at..]), fileSize);
      ParamSame(b[at..], fileSize);
      var ps := ReadParams(b, n, fileSize).value;
      assert ps[..|ps| - 1] == ReadParams(b, n - 1, fileSize).value;
      assert b[at..][..ParamSize] == b[at..at + ParamSize];
      assert b[..at] + b[at..at + ParamSize] == b[..ParamSize * n];
    }
  }

  /** An instruction that was read dumps the bytes it was read from. */
  lemma {:induction false} ReadDumpsSame(b: seq<byte>, fileSize: nat)
    requires ReadInstr(b, fileSize).Some?
    ensures var r := ReadInstr(b, fileSize).value;
            && FixedSize(r.instr) <= r.size <= |b| && r.size < 0x1_0000_0000
            && InstrBytes(r.instr, r.size) == b[..FixedSize(r.instr)]
  {
    hide ReadParams, EncWords, DecWords;
    Sums();
    Ranges();
    var r := ReadInstr(b, fileSize).value;
    var h := DecWords(true, HeaderWords, b);
    DecFits(true, HeaderWords, b, 1);
    DecFits(true, HeaderWords, b, 2);
    DecFits(true, HeaderWords, b, 3);
    WordsSame(HeaderWords, b);
    assert h == [h[0], h[1], h[2], h[3]];
    assert HeaderBytes(r.instr, r.size) == b[..HeaderSize];
    ParamsSame(b[HeaderSize..], h[2], fileSize);
    var n := ParamSize * h[2];
    assert b[HeaderSize..][..n] == b[HeaderSize..HeaderSize + n];
    assert b[..HeaderSize] + b[HeaderSize..HeaderSize + n] == b[..HeaderSize + n];
  }

  predicate AllFit(ps: seq<P.Param<nat>>, fileSize: nat) {
    forall i {:trigger ps[i]} :: 0 <= i < |ps| ==> P.Fits(ps[i], fileSize)
  }

  lemma NoneFit(fileSize: nat)
    ensures AllFit([], fileSize)
  {
  }

  /** The ranges the words of an instruction have room for, and the header's checks. */
  predicate Fits(r: Read, room: nat, fileSize: nat) {
    && |r.instr.params| < 16 && FixedSize(r.instr) <= r.size <= room && r.size < 0x1_0000_0000
    && (match r.instr.target
        case Call(t) => t < 0x1_0000_0000 && t < fileSize
        case Opcode(n) => KnownOpcode(n))
    && AllFit(r.instr.params, fileSize)
  }

  lemma {:induction false} ParamBack(p: P.Param<nat>, rest: seq<byte>)
    ensures var b := ParamBytes(p) + rest;
            |b| >= ParamSize && ReadWords(b) == P.Encode(p)
  {
    hide P.Encode;
    Sums();
    Ranges();
    ParamLength(p);
    var w := P.Encode(p);
    WordsBack(true, ParamWords, [w.p0, w.p4, w.p8], rest);
  }

  lemma AllFitSplits(ps: seq<P.Param<nat>>, n: nat, fileSize: nat)
    requires |ps| == n + 1
    ensures AllFit(ps, fileSize) <==> AllFit(ps[..n], fileSize) && P.Fits(ps[n], fileSize)
    ensures ps == ps[..n] + [ps[n]]
  {
    hide P.Fits;
    var init := ps[..n];
    assert forall i {:trigger init[i]} :: 0 <= i < n ==> init[i] == ps[i];
  }

  lemma {:induction false} ParamsBack(ps: seq<P.Param<nat>>, rest: seq<byte>, fileSize: nat)
    ensures var b := ParamsBytes(ps) + rest;
            && |b| >= ParamSize * |ps|
            && (ReadParams(b, |ps|, fileSize) == Some(ps) <==> AllFit(ps, fileSize))
  {
    hide P.Encode, P.Decode, P.Fits, ReadWords, ParamBytes, AllFit;
    NoneFit(fileSize);
    ParamsLength(ps);
    if ps != [] {
      var n := |ps| - 1;
      var init, last := ps[..n], ParamBytes(ps[n]);
      var b := ParamsBytes(ps) + rest;
      ParamsLength(init);
      ParamsBack(init, last + rest, fileSize);
      assert b == ParamsBytes(init) + (last + rest);
      assert b[ParamSize * n..] == last + rest;
      ParamBack(ps[n], rest);
      P.DumpedDecodesSame(ps[n], fileSize);
      AllFitSplits(ps, n, fileSize);
    }
  }

  /** An instruction survives dumping and reading exactly when everything in it is in range. */
  lemma {:induction false} DumpReadsSame(r: Read, rest: seq<byte>, fileSize: nat)
    ensures ReadInstr(InstrBytes(r.instr, r.size) + rest, fileSize) == Some(r) <==>
              Fits(r, FixedSize(r.instr) + |rest|, fileSize)
  {
    hide P.Fits, ReadParams, ParamsBytes, DecWords, EncWords;
    Sums();
    Ranges();
    InstrLength(r.instr, r.size);
    var head, tail := HeaderBytes(r.instr, r.size), ParamsBytes(r.instr.params) + rest;
    var b := InstrBytes(r.instr, r.size) + rest;
    assert b == head + tail && b[HeaderSize..] == tail;
    var call := r.instr.target.Call?;
    WordsBack(true, HeaderWords, [if call then 1 else 0, if call then P.Trunc(r.instr.target.target) else r.instr.target.number, P.Trunc(|r.instr.params|), P.Trunc(r.size)], tail);
    ParamsBack(r.instr.params, rest, fileSize);
  }
}
