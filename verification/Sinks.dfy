/** Chunked writing: to a stream through a buffer, and to a file through a mapped window. */
module Sinks {
  import opened Bytes

  lemma ZerosAdd(m: nat, n: nat)
    ensures Zeros(m) + Zeros(n) == Zeros(m + n)
  {
  }

  lemma NoZeros()
    ensures Zeros(0) == []
  {
  }

  lemma Small(len: nat, chunk: nat)
    requires len < chunk
    ensures len % chunk == len
  {
  }

  lemma ZerosBehind(before: seq<byte>, now: seq<byte>, m: nat, tail: seq<byte>, n: nat)
    requires now == before + Zeros(m) && tail == Zeros(n)
    ensures now + tail == before + Zeros(m + n)
  {
    ZerosAdd(m, n);
  }

  lemma ZerosFront(m: nat, n: nat)
    requires n <= m
    ensures Zeros(m)[..n] == Zeros(n)
  {
  }

  // ---- runs of operations, on values

  datatype Op = Write(data: seq<byte>) | Pad(len: nat) | Flush

  /** What a stream has been given, and how much of it is still in the buffer. */
  datatype Stream = Stream(content: seq<byte>, put: nat)

  /** What an operation should append. */
  function Meant(op: Op): seq<byte> {
    match op
    case Write(data) => data
    case Pad(len) => Zeros(len)
    case Flush => []
  }

  /** How much of a padding goes beyond the buffer. */
  function Leftover(chunk: nat, put: nat, len: nat): nat
    requires put <= chunk
  {
    if len <= chunk - put then 0 else len - (chunk - put)
  }

  /** A padding that loses a chunk: what goes beyond the buffer is a whole number of chunks. */
  predicate Drops(chunk: nat, put: nat, len: nat)
    requires 0 < chunk && put <= chunk
  {
    Leftover(chunk, put, len) > 0 && Leftover(chunk, put, len) % chunk == 0
  }

  /** What an operation does to a stream. */
  function After(chunk: nat, s: Stream, op: Op): (r: Stream)
    requires 0 < chunk && s.put <= chunk
    ensures r.put <= chunk
  {
    match op
    case Write(data) =>
      var left := Leftover(chunk, s.put, |data|);
      Stream(s.content + data, if left == 0 then s.put + |data| else if left >= chunk then 0 else left)
    case Pad(len) =>
      var left := Leftover(chunk, s.put, len);
      if left == 0 then Stream(s.content + Zeros(len), s.put + len)
      else Stream(s.content + Zeros(if left % chunk == 0 then len - chunk else len), left % chunk)
    case Flush => s.(put := 0)
  }

  function AfterAll(chunk: nat, s: Stream, ops: seq<Op>): (r: Stream)
    requires 0 < chunk && s.put <= chunk
    ensures r.put <= chunk
  {
    if ops == [] then s else After(chunk, AfterAll(chunk, s, ops[..|ops| - 1]), ops[|ops| - 1])
  }

  function AllMeant(ops: seq<Op>): seq<byte> {
    if ops == [] then [] else AllMeant(ops[..|ops| - 1]) + Meant(ops[|ops| - 1])
  }

  predicate LosesNothing(chunk: nat, s: Stream, ops: seq<Op>)
    requires 0 < chunk && s.put <= chunk
  {
    forall n {:trigger ops[n]} :: 0 <= n < |ops| && ops[n].Pad? ==> !Drops(chunk, AfterAll(chunk, s, ops[..n]).put, ops[n].len)
  }

  /** What is appended does not go beyond the announced size. */
  predicate HasRoom(size: nat, s: Stream, op: Op) {
    op.Flush? || |s.content| + |Meant(op)| <= size
  }

  lemma FlushHasRoom(size: nat, s: Stream)
    ensures HasRoom(size, s, Flush)
  {
  }

  lemma {:induction false} NeverLonger(chunk: nat, s: Stream, ops: seq<Op>)
    requires 0 < chunk && s.put <= chunk
    ensures |AfterAll(chunk, s, ops).content| <= |s.content + AllMeant(ops)|
    ensures |AfterAll(chunk, s, ops).content| == |s.content + AllMeant(ops)| ==> LosesNothing(chunk, s, ops)
  {
    hide After, Meant, Drops;
    if ops != [] {
      var n := |ops| - 1;
      NeverLonger(chunk, s, ops[..n]);
      OneKeeps(chunk, AfterAll(chunk, s, ops[..n]), ops[n]);
      assert forall i {:trigger ops[i]} :: 0 <= i < n ==> ops[..n][i] == ops[i] && ops[..n][..i] == ops[..i];
    }
  }

  /** Over any run, the stream gets exactly the data and zero runs, one after the other, if and only
      if no padding goes a whole number of chunks beyond the buffer. */
  lemma {:induction false} RunExact(chunk: nat, s: Stream, ops: seq<Op>)
    requires 0 < chunk && s.put <= chunk
    ensures AfterAll(chunk, s, ops).content == s.content + AllMeant(ops) <==> LosesNothing(chunk, s, ops)
  {
    NeverLonger(chunk, s, ops);
    if LosesNothing(chunk, s, ops) {
      RunKeeps(chunk, s, ops);
    }
  }

  lemma {:induction false} RunKeeps(chunk: nat, s: Stream, ops: seq<Op>)
    requires 0 < chunk && s.put <= chunk && LosesNothing(chunk, s, ops)
    ensures AfterAll(chunk, s, ops).content == s.content + AllMeant(ops)
  {
    hide After, Meant, Drops;
    if ops != [] {
      var n := |ops| - 1;
      assert forall i {:trigger ops[i]} :: 0 <= i < n ==> ops[..n][i] == ops[i] && ops[..n][..i] == ops[..i];
      RunKeeps(chunk, s, ops[..n]);
      var before := AfterAll(chunk, s, ops[..n]);
      assert ops[n].Pad? ==> !Drops(chunk, before.put, ops[n].len);
      OneKeeps(chunk, before, ops[n]);
    }
  }

  /** What one operation appends. */
  lemma {:induction false} OneKeeps(chunk: nat, s: Stream, op: Op)
    requires 0 < chunk && s.put <= chunk
    ensures |After(chunk, s, op).content| <= |s.content + Meant(op)|
    ensures After(chunk, s, op).content == s.content + Meant(op) <==> !(op.Pad? && Drops(chunk, s.put, op.len))
    ensures |After(chunk, s, op).content| == |s.content + Meant(op)| ==> !(op.Pad? && Drops(chunk, s.put, op.len))
  {
  }

  /** Padding an empty buffer by two chunks writes one. */
  lemma TwoChunksLost(chunk: nat)
    requires 0 < chunk
    ensures After(chunk, Stream([], 0), Pad(2 * chunk)).content == Zeros(chunk) != Zeros(2 * chunk)
  {
    assert Leftover(chunk, 0, 2 * chunk) == chunk;
    assert |Zeros(chunk)| != |Zeros(2 * chunk)|;
  }

  // ---- the stream sink

  /** Writes to a stream, one full buffer at a time. */
  class SimpleSink {
    const chunk: nat
    const buf: array<byte>
    const size: nat
    var stored: seq<byte>
    var offset: nat
    var bufPut: nat

    ghost predicate Valid()
      reads this
    {
      0 < chunk == buf.Length && bufPut <= chunk && offset == |stored|
    }

    /** Everything written so far: what the stream has, then what the buffer holds. */
    ghost function State(): Stream
      requires bufPut <= buf.Length
      reads this, buf
    {
      Stream(stored + buf[..bufPut], bufPut)
    }

    constructor (chunk: nat, size: nat)
      requires chunk > 0
      ensures Valid() && fresh(buf) && this.chunk == chunk && this.size == size && State() == Stream([], 0)
    {
      this.chunk, this.size := chunk, size;
      buf := new byte[chunk](_ => 0);
      stored, offset, bufPut := [], 0, 0;
    }

    method Tell() returns (pos: nat)
      requires Valid()
      ensures pos == |State().content|
    {
      pos := offset + bufPut;
    }

    method Flush()
      requires Valid()
      modifies this`stored, this`offset, this`bufPut
      ensures Valid() && State() == After(chunk, old(State()), Op.Flush)
    {
      if bufPut > 0 {
        stored := stored + buf[..bufPut];
        offset := offset + bufPut;
        bufPut := 0;
      }
    }

    /** Fills the buffer and hands the rest on. Refused if it goes beyond the announced size. */
    method Write(data: seq<byte>) returns (ok: bool)
      requires Valid()
      modifies this`stored, this`offset, this`bufPut, buf
      ensures Valid() && (ok <==> HasRoom(size, old(State()), Op.Write(data)))
      ensures State() == if ok then After(chunk, old(State()), Op.Write(data)) else old(State())
    {
      ok := offset + bufPut + |data| <= size;
      if !ok {
        return;
      }
      var cp := if |data| < chunk - bufPut then |data| else chunk - bufPut;
      Put(data[..cp]);
      assert data == data[..cp] + data[cp..];
      if cp < |data| {
        WriteRest(data[cp..]);
      }
    }

    /** Appends to the buffer. */
    method Put(data: seq<byte>)
      requires Valid() && bufPut + |data| <= chunk
      modifies this`bufPut, buf
      ensures Valid() && bufPut == old(bufPut) + |data| && buf[..bufPut] == old(buf[..bufPut]) + data
    {
      for k := 0 to |data|
        invariant bufPut == old(bufPut) && bufPut + |data| <= chunk
        invariant forall i {:trigger buf[i]} :: 0 <= i < bufPut ==> buf[i] == old(buf[i])
        invariant forall i {:trigger data[i]} :: 0 <= i < k ==> buf[bufPut + i] == data[i]
      {
        buf[bufPut + k] := data[k];
      }
      bufPut := bufPut + |data|;
    }

    method WriteRest(data: seq<byte>)
      requires Valid() && bufPut == chunk && data != []
      modifies this`stored, this`offset, this`bufPut, buf
      ensures Valid() && State().content == old(State()).content + data
      ensures bufPut == if |data| >= chunk then 0 else |data|
    {
      stored := stored + buf[..];
      offset := offset + chunk;
      bufPut := 0;
      assert old(buf[..]) == old(buf[..bufPut]);
      if |data| >= chunk {
        stored := stored + data;
        offset := offset + |data|;
      } else {
        Put(data);
      }
    }

    /** Pads with zeros. Refused if it goes beyond the announced size. */
    method Pad(len: nat) returns (ok: bool)
      requires Valid()
      modifies this`stored, this`offset, this`bufPut, buf
      ensures Valid() && (ok <==> HasRoom(size, old(State()), Op.Pad(len)))
      ensures State() == if ok then After(chunk, old(State()), Op.Pad(len)) else old(State())
    {
      ok := offset + bufPut + len <= size;
      if !ok {
        return;
      }
      var cp := if len < chunk - bufPut then len else chunk - bufPut;
      Put(Zeros(cp));
      if cp < len {
        PadRest(len - cp);
        ghost var left := len - cp;
        ghost var done := if left % chunk == 0 then left - chunk else left;
        ZerosAdd(cp, done);
      }
    }

    /** Pads by full buffers of zeros. The loop starts one buffer ahead, and what the last one leaves is
        kept back only if it is not a whole buffer. */
    method PadRest(len: nat)
      requires Valid() && bufPut == chunk && len > 0
      modifies this`stored, this`offset, this`bufPut, buf
      ensures Valid() && bufPut == len % chunk
      ensures State().content == old(State()).content + Zeros(if len % chunk == 0 then len - chunk else len)
    {
      hide Zeros;
      stored := stored + buf[..];
      offset := offset + chunk;
      ghost var before := stored;
      assert before == old(State()).content;
      if len >= chunk {
        Clear(chunk);
        var i := ZeroChunks(len);
        offset := offset + (i - chunk);
        bufPut := len % chunk;
        ZerosFront(chunk, bufPut);
        assert buf[..bufPut] == buf[..chunk][..bufPut];
        ZerosBehind(before, stored, i - chunk, buf[..bufPut], bufPut);
      } else {
        Clear(len);
        bufPut := len % chunk;
        Small(len, chunk);
        NoZeros();
        ZerosBehind(before, stored, 0, buf[..bufPut], bufPut);
      }
    }

    /** Writes the cleared buffer as often as the loop goes round. */
    method ZeroChunks(len: nat) returns (i: nat)
      requires 0 < chunk == buf.Length && chunk <= len && buf[..chunk] == Zeros(chunk)
      modifies this`stored
      ensures chunk <= i && i - chunk == (if len % chunk == 0 then len - chunk else len - len % chunk)
      ensures stored == old(stored) + Zeros(i - chunk)
    {
      hide Zeros;
      i := chunk;
      ghost var k := 1;
      NoZeros();
      assert buf[..] == buf[..chunk];
      while i < len
        invariant i == k * chunk && chunk <= i && i - chunk < len
        invariant stored == old(stored) + Zeros(i - chunk)
      {
        stored := stored + buf[..];
        ZerosAdd(i - chunk, chunk);
        i := i + chunk;
        k := k + 1;
      }
      LastMultiple(k, len, chunk);
    }

    /** Carries out operations until one is refused, and says how many: the first that does not fit is refused
        and changes nothing. */
    method Run(ops: seq<Op>) returns (done: nat)
      requires Valid()
      modifies this`stored, this`offset, this`bufPut, buf
      ensures Valid() && done <= |ops| && State() == AfterAll(chunk, old(State()), ops[..done])
      ensures forall k {:trigger ops[k]} :: 0 <= k < done ==> HasRoom(size, AfterAll(chunk, old(State()), ops[..k]), ops[k])
      ensures done < |ops| ==> !HasRoom(size, AfterAll(chunk, old(State()), ops[..done]), ops[done])
    {
      hide After, AfterAll, HasRoom, Meant;
      ghost var s := State();
      NothingAfter(chunk, s);
      done := 0;
      while done < |ops|
        invariant Valid() && done <= |ops| && State() == AfterAll(chunk, s, ops[..done])
        invariant forall k {:trigger ops[k]} :: 0 <= k < done ==> HasRoom(size, AfterAll(chunk, s, ops[..k]), ops[k])
      {
        OneAfter(chunk, s, ops, done);
        var ok := true;
        match ops[done] {
          case Write(data) => ok := Write(data);
          case Pad(len) => ok := Pad(len);
          case Flush =>
            FlushHasRoom(size, State());
            Flush();
        }
        if !ok {
          return;
        }
        done := done + 1;
      }
    }

    method Clear(len: nat)
      requires len <= buf.Length
      modifies buf
      ensures buf[..len] == Zeros(len)
    {
      for k := 0 to len
        invariant forall i {:trigger buf[i]} :: 0 <= i < k ==> buf[i] == 0
      {
        buf[k] := 0;
      }
    }
  }

  /** The first multiple of a chunk not below a length. */
  lemma LastMultiple(k: nat, len: nat, chunk: nat)
    requires 0 < chunk && len <= k * chunk < len + chunk
    ensures k * chunk - chunk == (if len % chunk == 0 then len - chunk else len - len % chunk)
  {
    var b, r := len / chunk, len % chunk;
    assert len == b * chunk + r;
    Between(k, b, r, chunk);
  }

  lemma Between(k: nat, b: nat, r: nat, chunk: nat)
    requires r < chunk && b * chunk + r <= k * chunk < b * chunk + r + chunk
    ensures k * chunk == if r == 0 then b * chunk else b * chunk + chunk
  {
    if k < b {
      Scaled(k + 1, b, chunk);
    } else if k > b + 1 {
      Scaled(b + 2, k, chunk);
    }
  }

  lemma Scaled(a: nat, b: nat, n: nat)
    requires a <= b
    ensures a * n <= b * n
  {
    assert (b - a) * n == b * n - a * n;
  }

  // ---- runs of a mapped sink, on values

  /** How much of the file has been written, where the window ends, and whether the position kept is wrong. */
  datatype Window = Window(done: nat, end: nat, stale: bool)

  /** How much of what comes next goes beyond the window. */
  function Over(w: Window, len: nat): nat {
    if w.done + len <= w.end then 0 else w.done + len - w.end
  }

  /** A padding that ends with the file, a positive number of whole chunks beyond the window. */
  predicate LosesPosition(chunk: nat, total: nat, w: Window, len: nat)
    requires 0 < chunk
  {
    !w.stale && Over(w, len) > 0 && Over(w, len) % chunk == 0 && w.done + len == total
  }

  /** The position the sink keeps. */
  function Told(chunk: nat, total: nat, w: Window): nat {
    if w.stale then total + chunk else w.done
  }

  predicate Takes(chunk: nat, total: nat, w: Window, op: Op) {
    op.Flush? || Told(chunk, total, w) + |Meant(op)| <= total
  }

  /** The window after `over` bytes beyond its end: the next one begins behind the whole chunks of these. */
  function Past(chunk: nat, total: nat, end: nat, over: nat, pad: bool): Window
    requires 0 < chunk
  {
    var start := end + Whole(over, chunk);
    Window(end + over, if start + chunk < total then start + chunk else total, pad && over % chunk == 0 && end + over == total)
  }

  /** What an operation does to the window; one that is refused does nothing. */
  function Step(chunk: nat, total: nat, w: Window, op: Op): Window
    requires 0 < chunk
  {
    var n := |Meant(op)|;
    if op.Flush? || !Takes(chunk, total, w, op) then w
    else if Over(w, n) == 0 then w.(done := w.done + n)
    else Past(chunk, total, w.end, Over(w, n), op.Pad?)
  }

  function Steps(chunk: nat, total: nat, w: Window, ops: seq<Op>): Window
    requires 0 < chunk
  {
    if ops == [] then w else Step(chunk, total, Steps(chunk, total, w, ops[..|ops| - 1]), ops[|ops| - 1])
  }

  /** What the operations that were not refused append. */
  function AllTaken(chunk: nat, total: nat, w: Window, ops: seq<Op>): seq<byte>
    requires 0 < chunk
  {
    if ops == [] then []
    else
      var init, op := ops[..|ops| - 1], ops[|ops| - 1];
      AllTaken(chunk, total, w, init) + if Takes(chunk, total, Steps(chunk, total, w, init), op) then Meant(op) else []
  }

  /** Some padding of the run has lost the position. */
  predicate LostPosition(chunk: nat, total: nat, w: Window, ops: seq<Op>)
    requires 0 < chunk
  {
    exists n {:trigger ops[n]} :: 0 <= n < |ops| && ops[n].Pad? && LosesPosition(chunk, total, Steps(chunk, total, w, ops[..n]), ops[n].len)
  }

  lemma StaleOnce(chunk: nat, total: nat, w: Window, op: Op)
    requires 0 < chunk && w.done <= total
    ensures Step(chunk, total, w, op).stale <==> w.stale || (op.Pad? && LosesPosition(chunk, total, w, op.len))
    ensures Step(chunk, total, w, op).done <= total
  {
    hide Zeros;
    if op.Pad? {
      ZerosLength(op.len);
    }
  }

  /** The ways an operation can go. */
  lemma StepMeans(chunk: nat, total: nat, w: Window, op: Op)
    requires 0 < chunk && w.done <= w.end && !op.Flush?
    ensures var n, r := |Meant(op)|, Step(chunk, total, w, op);
            && (Takes(chunk, total, w, op) <==> Told(chunk, total, w) + n <= total)
            && (!Takes(chunk, total, w, op) || n == 0 ==> r == w)
            && (Takes(chunk, total, w, op) && w.done + n <= w.end ==> r == w.(done := w.done + n))
            && (Takes(chunk, total, w, op) && w.done + n > w.end ==> r == Past(chunk, total, w.end, w.done + n - w.end, op.Pad?))
  {
    hide Told, Past;
  }

  lemma Joined(a: seq<byte>, b: seq<byte>, n: nat)
    requires n <= |b|
    ensures a + b[..n] + b[n..] == a + b && (n == |b| ==> a + b[..n] == a + b)
  {
  }

  lemma ZerosLength(n: nat)
    ensures |Zeros(n)| == n
  {
  }

  lemma DoneMore(chunk: nat, total: nat, w: Window, op: Op)
    requires 0 < chunk && Takes(chunk, total, w, op)
    ensures Step(chunk, total, w, op).done == w.done + |Meant(op)|
  {
  }

  /** The position is wrong at the end of a run if and only if some padding of it ended with the file, a
      positive number of whole chunks beyond the window. */
  lemma {:induction false} StaleExactly(chunk: nat, total: nat, w: Window, ops: seq<Op>)
    requires 0 < chunk && w.done <= total && !w.stale
    ensures Steps(chunk, total, w, ops).stale <==> LostPosition(chunk, total, w, ops)
    ensures Steps(chunk, total, w, ops).done <= total
  {
    hide Step, LosesPosition;
    if ops != [] {
      var n := |ops| - 1;
      var init := ops[..n];
      StaleExactly(chunk, total, w, init);
      StaleOnce(chunk, total, Steps(chunk, total, w, init), ops[n]);
      assert forall i {:trigger ops[i]} :: 0 <= i < n ==> init[i] == ops[i] && init[..i] == ops[..i];
    }
  }

  lemma NothingAfter(chunk: nat, s: Stream)
    requires 0 < chunk && s.put <= chunk
    ensures AfterAll(chunk, s, []) == s
  {
  }

  lemma OneAfter(chunk: nat, s: Stream, ops: seq<Op>, n: nat)
    requires 0 < chunk && s.put <= chunk && n < |ops|
    ensures AfterAll(chunk, s, ops[..n + 1]) == After(chunk, AfterAll(chunk, s, ops[..n]), ops[n])
  {
    hide After;
    assert ops[..n + 1][..n] == ops[..n];
  }

  lemma NoSteps(chunk: nat, total: nat, w: Window)
    requires 0 < chunk
    ensures Steps(chunk, total, w, []) == w && AllTaken(chunk, total, w, []) == []
  {
  }

  lemma OneStep(chunk: nat, total: nat, w: Window, ops: seq<Op>, n: nat)
    requires 0 < chunk && n < |ops|
    ensures var v := Steps(chunk, total, w, ops[..n]);
            && Steps(chunk, total, w, ops[..n + 1]) == Step(chunk, total, v, ops[n])
            && AllTaken(chunk, total, w, ops[..n + 1]) == AllTaken(chunk, total, w, ops[..n]) + (if Takes(chunk, total, v, ops[n]) then Meant(ops[n]) else [])
  {
    hide Step, Takes, Meant;
    assert ops[..n + 1][..n] == ops[..n];
  }

  lemma GrownBy(before: seq<byte>, taken: seq<byte>, meant: seq<byte>, data: seq<byte>, ok: bool)
    requires meant == data
    ensures (if ok then before + taken + data else before + taken) == before + (taken + if ok then meant else [])
  {
    assert before + taken + data == before + (taken + data);
  }

  lemma FlushNothing(chunk: nat, total: nat, w: Window)
    requires 0 < chunk
    ensures Step(chunk, total, w, Flush) == w && Meant(Flush) == []
  {
  }

  /** After that nothing is taken any more, not even empty data, and the content stays what it is. */
  lemma {:induction false} RefusedAfter(chunk: nat, total: nat, w: Window, ops: seq<Op>)
    requires 0 < chunk && w.stale
    ensures Steps(chunk, total, w, ops) == w && AllTaken(chunk, total, w, ops) == []
    ensures forall op :: Takes(chunk, total, w, op) <==> op.Flush?
  {
    if ops != [] {
      var n := |ops| - 1;
      RefusedAfter(chunk, total, w, ops[..n]);
    }
  }

  /** As long as no padding loses the position, what fits is taken: a run whose data fit writes all of them. */
  lemma {:induction false} AllFits(chunk: nat, total: nat, w: Window, ops: seq<Op>)
    requires 0 < chunk && !w.stale && w.done + |AllMeant(ops)| <= total
    requires |ops| > 0 ==> !LostPosition(chunk, total, w, ops[..|ops| - 1])
    ensures AllTaken(chunk, total, w, ops) == AllMeant(ops) && Steps(chunk, total, w, ops).done == w.done + |AllMeant(ops)|
  {
    hide Meant, LosesPosition;
    if ops != [] {
      var n := |ops| - 1;
      var init := ops[..n];
      if n > 0 {
        assert forall i {:trigger init[..n - 1][i]} :: 0 <= i < n - 1 ==> init[..n - 1][i] == init[i] && init[..n - 1][..i] == init[..i];
      }
      AllFits(chunk, total, w, init);
      StaleExactly(chunk, total, w, init);
      DoneMore(chunk, total, Steps(chunk, total, w, init), ops[n]);
    }
  }

  // ---- the mapped sink

  /** Writes to a file of fixed size through a window that is mapped into memory. */
  class MmapSink {
    const chunk: nat
    const file: array<byte>
    var mapped: bool
    var offset: nat
    var bufPut: nat
    var bufSize: nat

    /** How much of the file has been written. Behind the last window that is all of it. */
    function Done(): nat
      reads this
    {
      if mapped then offset + bufPut else offset
    }

    ghost predicate Valid()
      reads this, file
    {
      && 0 < chunk && bufPut <= bufSize && offset <= file.Length
      && (mapped ==> offset + bufSize <= file.Length && (offset + bufSize < file.Length ==> bufSize == chunk))
      && (!mapped ==> offset == file.Length && (bufPut == 0 || bufPut == bufSize == chunk))
      && BlankBehind(Done())
    }

    /** Everything written so far. */
    ghost function Content(): seq<byte>
      requires Done() <= file.Length
      reads this, file
    {
      file[..Done()]
    }

    /** A padding that ended with the file on a chunk boundary has left the buffer position behind. */
    ghost predicate Stale()
      reads this
    {
      !mapped && bufPut != 0
    }

    ghost function End(): nat
      reads this
    {
      if mapped then offset + bufSize else file.Length
    }

    ghost function View(): Window
      reads this
    {
      Window(Done(), End(), Stale())
    }

    /** A small file is mapped whole, a large one chunk by chunk. */
    constructor (chunk: nat, limit: nat, size: nat)
      requires 0 < chunk <= limit && size > 0
      ensures Valid() && fresh(file) && this.chunk == chunk && file.Length == size && Content() == []
      ensures View() == Window(0, if size < limit then size else chunk, false)
    {
      this.chunk := chunk;
      file := new byte[size](_ => 0);
      mapped, offset, bufPut, bufSize := true, 0, 0, if size < limit then size else chunk;
    }

    method Tell() returns (pos: nat)
      requires Valid()
      ensures pos == Told(chunk, file.Length, View()) && (pos == |Content()| <==> !Stale())
    {
      pos := offset + bufPut;
    }

    /** Maps the window at the offset, with `len` of its bytes taken; behind the file there is none. */
    method MapNext(len: nat)
      requires 0 < chunk && offset <= file.Length && offset + len <= file.Length && len < chunk
      modifies this`mapped, this`bufPut, this`bufSize
      ensures mapped == (offset < file.Length) && End() == (if offset + chunk < file.Length then offset + chunk else file.Length)
      ensures mapped ==> bufPut == len <= bufSize && (offset + bufSize < file.Length ==> bufSize == chunk)
      ensures !mapped ==> bufPut == old(bufPut) && bufSize == old(bufSize)
    {
      if offset < file.Length {
        mapped, bufPut := true, len;
        bufSize := if chunk < file.Length - offset then chunk else file.Length - offset;
      } else {
        mapped := false;
      }
    }

    /** Stores bytes at a place of the file. */
    method Store(at: nat, data: seq<byte>)
      requires at + |data| <= file.Length
      modifies file
      ensures Overwritten(file[..], old(file[..]), at, data)
    {
      for k := 0 to |data|
        invariant forall i {:trigger file[i]} :: 0 <= i < file.Length ==> file[i] == if at <= i < at + k then data[i - at] else old(file[i])
      {
        file[at + k] := data[k];
      }
    }

    /** Nothing has been written behind what is done. */
    ghost predicate BlankBehind(at: nat)
      reads file
    {
      forall i {:trigger file[i]} :: at <= i < file.Length ==> file[i] == 0
    }

    /** Fills part of the window. */
    method Fill(data: seq<byte>)
      requires Valid() && mapped && bufPut + |data| <= bufSize
      modifies this`bufPut, file
      ensures Valid() && bufPut == old(bufPut) + |data| && Content() == old(Content()) + data
    {
      ghost var before := file[..];
      Store(offset + bufPut, data);
      bufPut := bufPut + |data|;
      OverwrittenAt(file[..], before, offset + old(bufPut), data);
    }

    /** The position that is kept, and where what comes next goes. */
    lemma Bounds()
      requires Valid()
      ensures offset + bufPut == Told(chunk, file.Length, View()) && Done() <= End() <= file.Length && Stale() == View().stale
      ensures offset + bufPut < file.Length ==> mapped && End() - Done() == bufSize - bufPut && Done() == offset + bufPut
    {
    }

    /** Fills the window and hands the rest on. Refused if the position it keeps says it does not fit. */
    method Write(data: seq<byte>) returns (ok: bool)
      requires Valid()
      modifies this`mapped, this`offset, this`bufPut, this`bufSize, file
      ensures Valid() && (ok <==> Takes(chunk, file.Length, old(View()), Op.Write(data)))
      ensures Content() == if ok then old(Content()) + data else old(Content())
      ensures View() == Step(chunk, file.Length, old(View()), Op.Write(data))
    {
      hide Past, Step, BlankBehind, Told;
      Bounds();
      ghost var w := View();
      StepMeans(chunk, file.Length, w, Op.Write(data));
      ok := offset + bufPut + |data| <= file.Length;
      if !ok || data == [] {
        assert data == [] ==> old(Content()) + data == old(Content());
        return;
      }
      var cp := if |data| < bufSize - bufPut then |data| else bufSize - bufPut;
      Fill(data[..cp]);
      Joined(old(Content()), data, cp);
      if cp < |data| {
        WriteRest(data[cp..]);
      }
    }

    /** Whole chunks go to the file at once. */
    method StoreChunks(data: seq<byte>) returns (whole: nat)
      requires chunk > 0 && offset + |data| <= file.Length && bufPut == chunk
      modifies this`offset, this`bufPut, file
      ensures whole == Whole(|data|, chunk) <= |data| < whole + chunk && offset == old(offset) + whole && (whole > 0 ==> bufPut == 0)
      ensures Overwritten(file[..], old(file[..]), old(offset), data[..whole])
    {
      whole := |data| / chunk * chunk;
      Quotient(|data|, chunk);
      if |data| / chunk > 0 {
        Store(offset, data[..whole]);
        offset := offset + whole;
        bufPut := 0;
      } else {
        NothingOver(file[..], offset);
      }
    }

    /** The rest of the data goes to the next window, after whole chunks have gone to the file. */
    method WriteRest(data: seq<byte>)
      requires Valid() && mapped && bufPut == bufSize && data != [] && offset + bufPut + |data| <= file.Length
      modifies this`mapped, this`offset, this`bufPut, this`bufSize, file
      ensures Valid() && Content() == old(Content()) + data && View() == Past(chunk, file.Length, old(End()), |data|, false)
    {
      hide Overwritten, BlankBehind, Blank, Whole, Past, Content, View;
      BlankNow();
      ghost var start, before, was := offset + bufPut, file[..], Content();
      offset := offset + bufPut;
      var whole := StoreChunks(data);
      ghost var between := file[..];
      StoreLast(data[whole..]);
      OverwrittenTwice(file[..], between, before, start, whole, data);
      ViewLater(start, |data|, whole);
      AllWritten(before, start, data, was);
    }

    /** Where the sink stands once the bytes beyond a window are written. */
    lemma ViewLater(start: nat, len: nat, whole: nat)
      requires 0 < chunk && offset == start + whole && 0 < len && whole == Whole(len, chunk) <= len && start + len <= file.Length
      requires mapped == (offset < file.Length) && End() == (if offset + chunk < file.Length then offset + chunk else file.Length)
      requires if mapped then bufPut == len - whole else whole > 0 ==> bufPut == 0
      ensures View() == Past(chunk, file.Length, start, len, false) && Done() == start + len
    {
      hide Whole, Past;
      PastWritten(chunk, file.Length, start, len);
    }

    /** What is less than a chunk goes to a new window. */
    method StoreLast(rest: seq<byte>)
      requires 0 < chunk && offset + |rest| <= file.Length && |rest| < chunk
      modifies this`mapped, this`bufPut, this`bufSize, file
      ensures mapped == (offset < file.Length) && End() == (if offset + chunk < file.Length then offset + chunk else file.Length)
      ensures mapped ==> bufPut == |rest| <= bufSize && (offset + bufSize < file.Length ==> bufSize == chunk)
      ensures !mapped ==> bufPut == old(bufPut) && bufSize == old(bufSize)
      ensures Overwritten(file[..], old(file[..]), offset, rest)
    {
      MapNext(|rest|);
      if mapped {
        Store(offset, rest);
      } else {
        NothingOver(file[..], offset);
      }
    }

    lemma BlankNow()
      requires Valid()
      ensures Blank(file[..], Done()) && Content() == file[..][..Done()]
    {
    }

    lemma AllWritten(before: seq<byte>, start: nat, data: seq<byte>, was: seq<byte>)
      requires Overwritten(file[..], before, start, data) && Blank(before, start) && Done() == start + |data| && was == before[..start]
      ensures BlankBehind(Done()) && Content() == was + data
    {
      OverwrittenAt(file[..], before, start, data);
    }

    /** Pads with zeros: the file is zero where nothing has been written. The position the sink keeps is
        wrong afterwards exactly if the padding ends with the file, whole chunks beyond the window. */
    method Pad(len: nat) returns (ok: bool)
      requires Valid()
      modifies this`mapped, this`offset, this`bufPut, this`bufSize, file
      ensures Valid() && (ok <==> Takes(chunk, file.Length, old(View()), Op.Pad(len)))
      ensures Content() == if ok then old(Content()) + Zeros(len) else old(Content())
      ensures View() == Step(chunk, file.Length, old(View()), Op.Pad(len))
      ensures Stale() <==> old(Stale()) || LosesPosition(chunk, file.Length, old(View()), len)
    {
      hide Past, Step, BlankBehind, Told, Zeros;
      Bounds();
      ghost var w := View();
      StepMeans(chunk, file.Length, w, Op.Pad(len));
      StaleOnce(chunk, file.Length, w, Op.Pad(len));
      ZerosLength(len);
      ok := offset + bufPut + len <= file.Length;
      if !ok || len == 0 {
        NoZeros();
        assert len == 0 ==> old(Content()) + Zeros(len) == old(Content());
        return;
      }
      var cp := if len < bufSize - bufPut then len else bufSize - bufPut;
      Fill(Zeros(cp));
      if cp < len {
        PadRest(len - cp);
        ZerosAdd(cp, len - cp);
      }
    }

    /** Carries out operations; one that is refused changes nothing. What is written is what was not refused,
        and the position that is told in the end is right unless some padding has lost it. */
    method Run(ops: seq<Op>) returns (pos: nat)
      requires Valid()
      modifies this`mapped, this`offset, this`bufPut, this`bufSize, file
      ensures Valid() && View() == Steps(chunk, file.Length, old(View()), ops)
      ensures Content() == old(Content()) + AllTaken(chunk, file.Length, old(View()), ops)
      ensures old(!Stale()) ==> (pos == |Content()| <==> !LostPosition(chunk, file.Length, old(View()), ops))
    {
      hide Step, Steps, AllTaken, Takes, LosesPosition, Told, LostPosition, Zeros;
      NoSteps(chunk, file.Length, View());
      ghost var w, before := View(), Content();
      for n := 0 to |ops|
        invariant Valid() && View() == Steps(chunk, file.Length, w, ops[..n])
        invariant Content() == before + AllTaken(chunk, file.Length, w, ops[..n])
      {
        OneStep(chunk, file.Length, w, ops, n);
        ghost var v, taken := View(), AllTaken(chunk, file.Length, w, ops[..n]);
        match ops[n] {
          case Write(data) =>
            var ok := Write(data);
            GrownBy(before, taken, Meant(ops[n]), data, ok);
          case Pad(len) =>
            var ok := Pad(len);
            GrownBy(before, taken, Meant(ops[n]), Zeros(len), ok);
          case Flush =>
            FlushNothing(chunk, file.Length, View());
        }
      }
      assert ops[..|ops|] == ops;
      pos := Tell();
      if !w.stale {
        StaleExactly(chunk, file.Length, w, ops);
      }
    }

    method PadRest(len: nat)
      requires Valid() && mapped && bufPut == bufSize && len > 0 && offset + bufPut + len <= file.Length
      modifies this`mapped, this`offset, this`bufPut, this`bufSize
      ensures Valid() && Content() == old(Content()) + Zeros(len) && View() == Past(chunk, file.Length, old(End()), len, true)
    {
      Quotient(len, chunk);
      ghost var start := offset + bufPut;
      assert forall i {:trigger file[i]} :: start <= i < start + len ==> file[i] == 0;
      offset := offset + bufPut + len / chunk * chunk;
      MapNext(len % chunk);
      assert file[..start + len] == file[..start] + Zeros(len);
    }
  }

  ghost predicate Overwritten(now: seq<byte>, before: seq<byte>, at: nat, data: seq<byte>) {
    at + |data| <= |before| && now == before[..at] + data + before[at + |data|..]
  }

  ghost predicate Blank(b: seq<byte>, at: nat) {
    at <= |b| && forall i {:trigger b[i]} :: at <= i < |b| ==> b[i] == 0
  }

  lemma NothingOver(b: seq<byte>, at: nat)
    requires at <= |b|
    ensures Overwritten(b, b, at, [])
  {
  }

  lemma OverwrittenAt(now: seq<byte>, before: seq<byte>, at: nat, data: seq<byte>)
    requires Overwritten(now, before, at, data)
    ensures |now| == |before| && now[..at + |data|] == before[..at] + data && now[at + |data|..] == before[at + |data|..]
    ensures forall i {:trigger now[i]} :: at + |data| <= i < |now| ==> now[i] == before[i]
  {
  }

  lemma OverwrittenTwice(now: seq<byte>, between: seq<byte>, before: seq<byte>, at: nat, n: nat, data: seq<byte>)
    requires n <= |data| && Overwritten(between, before, at, data[..n]) && Overwritten(now, between, at + n, data[n..])
    ensures Overwritten(now, before, at, data)
  {
    assert between[..at + n] == before[..at] + data[..n];
    assert between[at + |data|..] == before[at + |data|..];
    assert data == data[..n] + data[n..];
  }

  lemma PastWritten(chunk: nat, total: nat, end: nat, over: nat)
    requires 0 < chunk
    ensures var start := end + Whole(over, chunk);
            Past(chunk, total, end, over, false) == Window(end + over, if start + chunk < total then start + chunk else total, false)
  {
  }

  /** The bytes of whole chunks. */
  function Whole(len: nat, chunk: nat): nat
    requires chunk > 0
  {
    len / chunk * chunk
  }

  lemma Quotient(len: nat, chunk: nat)
    requires chunk > 0
    ensures len == len / chunk * chunk + len % chunk
    ensures len / chunk > 0 || len % chunk == len
  {
  }

  lemma TwoChunksPadded(chunk: nat)
    requires chunk > 0
    ensures var w, op := Window(0, chunk, false), Pad(2 * chunk);
            && Takes(chunk, 2 * chunk, w, op) && LosesPosition(chunk, 2 * chunk, w, 2 * chunk)
            && Step(chunk, 2 * chunk, w, op) == Window(2 * chunk, 2 * chunk, true)
  {
    hide Zeros;
    ZerosLength(2 * chunk);
    assert chunk % chunk == 0 && chunk / chunk * chunk == chunk;
  }

  /** A file of two chunks that is padded at once: it is right, but the sink says it is three chunks long, and
      refuses even to write nothing. */
  method PaddedWhole(chunk: nat) returns (told: nat, content: seq<byte>, again: bool)
    requires chunk > 0
    ensures told == 3 * chunk && content == Zeros(2 * chunk) && !again
  {
    hide Zeros, Step;
    var s := new MmapSink(chunk, chunk, 2 * chunk);
    TwoChunksPadded(chunk);
    var ok := s.Pad(2 * chunk);
    told := s.Tell();
    content := s.file[..s.Done()];
    again := s.Write([]);
  }
}
