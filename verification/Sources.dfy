/** Buffered reading: a file behind a cache of four chunks. */
module Sources {
  import opened Bytes
  import R = Recency

  /** Memory obtained for part of a file, and how often it has been given back. */
  class Chunk {
    const data: seq<byte>
    var releases: nat

    constructor (data: seq<byte>)
      ensures this.data == data && releases == 0
    {
      this.data, releases := data, 0;
    }
  }

  datatype BufEntry = BufEntry(ptr: Chunk?, offset: nat, size: nat)

  const EMPTY := BufEntry(null, 0, 0)

  /** An entry that is in use holds exactly the bytes of the file it claims. */
  ghost predicate EntryOk(e: BufEntry, file: seq<byte>, obtained: set<Chunk>) {
    if e.size == 0 then e.ptr == null
    else e.ptr != null && e.ptr in obtained && e.offset + e.size <= |file| && e.ptr.data == file[e.offset..e.offset + e.size]
  }

  ghost predicate EntriesOk(s: seq<BufEntry>, file: seq<byte>, obtained: set<Chunk>) {
    && |s| == 4
    && (forall i {:trigger s[i]} :: 0 <= i < |s| ==> EntryOk(s[i], file, obtained))
    && (forall i, j {:trigger s[i], s[j]} :: 0 <= i < j < |s| && s[i].ptr != null ==> s[i].ptr != s[j].ptr)
  }

  predicate Held(s: seq<BufEntry>, c: Chunk) {
    exists i :: 0 <= i < |s| && s[i].ptr == c
  }

  /** A chunk is given back exactly when no entry holds it any more. */
  ghost predicate Released(s: seq<BufEntry>, obtained: set<Chunk>)
    reads obtained
  {
    forall c {:trigger c in obtained} :: c in obtained ==> c.releases == if Held(s, c) then 0 else 1
  }

  /** Entry `i` to the front. */
  function Fronted(s: seq<BufEntry>, i: nat): (r: seq<BufEntry>)
    requires i < |s|
    ensures |r| == |s|
  {
    [s[i]] + s[..i] + s[i + 1..]
  }

  /** An entry holds the byte at a position. */
  predicate Covers(e: BufEntry, offs: nat) {
    e.offset <= offs < e.offset + e.size
  }

  /** The entries in use come first, and each is another chunk of the file. */
  predicate Chunked(s: seq<BufEntry>, chunk: nat, total: nat)
    requires chunk > 0
  {
    && (forall i {:trigger s[i]} :: 0 <= i < |s| && s[i].size > 0 ==> s[i].offset % chunk == 0 && s[i].size == if chunk < total - s[i].offset then chunk else total - s[i].offset)
    && (forall i, j {:trigger s[i], s[j]} :: 0 <= i < j < |s| && s[j].size > 0 ==> s[i].size > 0 && s[i].offset != s[j].offset)
  }

  /** The chunks that are held, by number. */
  function Keys(s: seq<BufEntry>, chunk: nat): seq<nat>
    requires chunk > 0
  {
    if s == [] || s[0].size == 0 then [] else [s[0].offset / chunk] + Keys(s[1..], chunk)
  }

  lemma ChunkedTail(s: seq<BufEntry>, chunk: nat, total: nat)
    requires chunk > 0 && s != [] && Chunked(s, chunk, total)
    ensures Chunked(s[1..], chunk, total)
  {
    assert forall i :: 0 <= i < |s[1..]| ==> s[1..][i] == s[i + 1];
  }

  lemma SameChunk(a: nat, b: nat, chunk: nat)
    requires chunk > 0 && a % chunk == 0 && b % chunk == 0 && a / chunk == b / chunk
    ensures a == b
  {
  }

  /** A chunk is held under its number. */
  lemma {:induction false} KeyHeld(s: seq<BufEntry>, chunk: nat, total: nat, k: nat)
    requires chunk > 0 && Chunked(s, chunk, total) && k in Keys(s, chunk)
    ensures exists i :: 0 <= i < |s| && s[i].size > 0 && s[i].offset / chunk == k
  {
    if s[0].offset / chunk != k {
      ChunkedTail(s, chunk, total);
      KeyHeld(s[1..], chunk, total, k);
      var i :| 0 <= i < |s[1..]| && s[1..][i].size > 0 && s[1..][i].offset / chunk == k;
      assert s[i + 1] == s[1..][i];
    }
  }

  lemma HeadApart(s: seq<BufEntry>, chunk: nat, total: nat)
    requires chunk > 0 && Chunked(s, chunk, total) && s != [] && s[0].size > 0
    ensures s[0].offset / chunk !in Keys(s[1..], chunk)
  {
    hide Keys;
    ChunkedTail(s, chunk, total);
    if s[0].offset / chunk in Keys(s[1..], chunk) {
      KeyHeld(s[1..], chunk, total, s[0].offset / chunk);
      var i :| 0 <= i < |s[1..]| && s[1..][i].size > 0 && s[1..][i].offset / chunk == s[0].offset / chunk;
      SameChunk(s[i + 1].offset, s[0].offset, chunk);
    }
  }

  /** Bringing an entry to the front. */
  lemma {:induction false} KeysFronted(s: seq<BufEntry>, chunk: nat, total: nat, i: nat)
    requires chunk > 0 && Chunked(s, chunk, total) && i < |s| && s[i].size > 0
    ensures Keys(s[..i] + s[i + 1..], chunk) == R.Without(Keys(s, chunk), s[i].offset / chunk)
  {
    hide R.Without;
    HeadApart(s, chunk, total);
    var k := s[i].offset / chunk;
    var rest := s[1..];
    LeaveFirst(s[0].offset / chunk, Keys(rest, chunk), k);
    if i == 0 {
      assert s[..0] + s[1..] == rest;
    } else {
      ChunkedTail(s, chunk, total);
      KeysFronted(rest, chunk, total, i - 1);
      if s[0].offset / chunk == k {
        SameChunk(s[0].offset, s[i].offset, chunk);
      }
      var t := s[..i] + s[i + 1..];
      assert t[0] == s[0] && t[1..] == rest[..i - 1] + rest[i..] && rest[i - 1] == s[i];
    }
  }

  lemma LeaveFirst(x: nat, t: seq<nat>, k: nat)
    ensures R.Without([x] + t, k) == if x == k then R.Without(t, k) else [x] + R.Without(t, k)
    ensures k !in t ==> R.Without(t, k) == t
  {
    assert ([x] + t)[1..] == t;
  }

  lemma {:induction false} KeysFew(s: seq<BufEntry>, chunk: nat, n: nat)
    requires chunk > 0 && n <= |s|
    ensures |Keys(s, chunk)| <= |s| && Keys(s[..n], chunk) == R.First(n, Keys(s, chunk))
  {
    if n > 0 {
      KeysFew(s[1..], chunk, n - 1);
      assert s[..n][0] == s[0] && s[..n][1..] == s[1..][..n - 1];
    } else if s != [] {
      KeysFew(s[1..], chunk, 0);
    }
  }

  lemma TouchedFront(s: seq<BufEntry>, chunk: nat, total: nat, i: nat, offs: nat)
    requires chunk > 0 && |s| == 4 && Chunked(s, chunk, total) && i < 4 && Covers(s[i], offs)
    ensures Chunked(Fronted(s, i), chunk, total) && Keys(Fronted(s, i), chunk) == R.Touch(Keys(s, chunk), offs / chunk)
  {
    hide Keys, R.Without;
    InChunk(s[i].offset, s[i].size, chunk, offs);
    FrontedChunked(s, chunk, total, i);
    KeysFronted(s, chunk, total, i);
    FrontKeys(s[i], s[..i] + s[i + 1..], chunk);
    assert Fronted(s, i) == [s[i]] + (s[..i] + s[i + 1..]);
    KeysFew(s[..i] + s[i + 1..], chunk, 0);
  }

  lemma FrontKeys(e: BufEntry, t: seq<BufEntry>, chunk: nat)
    requires chunk > 0 && e.size > 0
    ensures Keys([e] + t, chunk) == [e.offset / chunk] + Keys(t, chunk)
  {
    assert ([e] + t)[1..] == t;
  }

  lemma InChunk(at: nat, size: nat, chunk: nat, offs: nat)
    requires chunk > 0 && at % chunk == 0 && size <= chunk && at <= offs < at + size
    ensures offs / chunk == at / chunk
  {
    assert at == at / chunk * chunk;
    assert offs == offs / chunk * chunk + offs % chunk;
    var a, b := at / chunk, offs / chunk;
    assert b > a ==> b * chunk >= (a + 1) * chunk;
    assert b < a ==> b * chunk <= (a - 1) * chunk;
  }

  lemma FrontedChunked(s: seq<BufEntry>, chunk: nat, total: nat, i: nat)
    requires chunk > 0 && Chunked(s, chunk, total) && i < |s| && s[i].size > 0
    ensures Chunked(Fronted(s, i), chunk, total)
  {
    var r := Fronted(s, i);
    forall j | 0 <= j < |r|
      ensures r[j] == s[if j == 0 then i else if j <= i then j - 1 else j]
    {
      FrontedAt(s, i, j);
    }
  }

  lemma ChunkedNew(s: seq<BufEntry>, chunk: nat, total: nat, e: BufEntry)
    requires chunk > 0 && |s| == 4 && Chunked(s, chunk, total) && e.size > 0 && e.offset % chunk == 0
    requires e.size == if chunk < total - e.offset then chunk else total - e.offset
    requires forall i {:trigger s[i]} :: 0 <= i < 4 && s[i].size > 0 ==> s[i].offset != e.offset
    ensures Chunked([e] + s[..3], chunk, total)
  {
    var r := [e] + s[..3];
    assert r[0] == e && r[1] == s[0] && r[2] == s[1] && r[3] == s[2];
  }

  lemma NotHeld(s: seq<BufEntry>, chunk: nat, total: nat, e: BufEntry, offs: nat)
    requires chunk > 0 && |s| == 4 && Chunked(s, chunk, total) && offs < total && (forall i {:trigger s[i]} :: 0 <= i < 4 ==> !Covers(s[i], offs))
    requires e.offset == offs / chunk * chunk && e.size == if chunk < total - e.offset then chunk else total - e.offset
    ensures e.size > 0 && e.offset % chunk == 0 && e.offset / chunk == offs / chunk
    ensures forall i {:trigger s[i]} :: 0 <= i < 4 && s[i].size > 0 ==> s[i].offset != e.offset
  {
    ChunkCovers(offs, chunk);
    MultipleOf(offs / chunk, chunk);
    forall i | 0 <= i < 4 && s[i].size > 0
      ensures s[i].offset != e.offset
    {
      assert !Covers(s[i], offs);
    }
  }

  lemma TouchedNew(s: seq<BufEntry>, chunk: nat, total: nat, e: BufEntry, offs: nat)
    requires chunk > 0 && |s| == 4 && Chunked(s, chunk, total) && offs < total && (forall i {:trigger s[i]} :: 0 <= i < 4 ==> !Covers(s[i], offs))
    requires e.offset == offs / chunk * chunk && e.size == if chunk < total - e.offset then chunk else total - e.offset
    ensures Chunked([e] + s[..3], chunk, total) && Keys([e] + s[..3], chunk) == R.Touch(Keys(s, chunk), offs / chunk)
  {
    hide Keys, R.Without, Chunked, Covers;
    NotHeld(s, chunk, total, e, offs);
    ChunkedNew(s, chunk, total, e);
    KeyNew(s, chunk, total, e);
    FrontKeys(e, s[..3], chunk);
    KeysFew(s, chunk, 3);
    R.FirstFront(offs / chunk, Keys(s, chunk), 3);
  }

  lemma KeyNew(s: seq<BufEntry>, chunk: nat, total: nat, e: BufEntry)
    requires chunk > 0 && |s| == 4 && Chunked(s, chunk, total) && e.offset % chunk == 0
    requires forall i {:trigger s[i]} :: 0 <= i < 4 && s[i].size > 0 ==> s[i].offset != e.offset
    ensures R.Without(Keys(s, chunk), e.offset / chunk) == Keys(s, chunk)
  {
    hide Keys;
    if e.offset / chunk in Keys(s, chunk) {
      KeyHeld(s, chunk, total, e.offset / chunk);
      var i :| 0 <= i < |s| && s[i].size > 0 && s[i].offset / chunk == e.offset / chunk;
      SameChunk(s[i].offset, e.offset, chunk);
    }
  }

  lemma MultipleOf(n: nat, chunk: nat)
    requires chunk > 0
    ensures n * chunk % chunk == 0 && n * chunk / chunk == n
  {
    var q, r := n * chunk / chunk, n * chunk % chunk;
    assert n * chunk == q * chunk + r;
    assert n > q ==> n * chunk >= (q + 1) * chunk;
    assert n < q ==> n * chunk <= (q - 1) * chunk;
  }

  lemma FrontedAt(s: seq<BufEntry>, i: nat, j: nat)
    requires i < |s| && j < |s|
    ensures Fronted(s, i)[j] == s[if j == 0 then i else if j <= i then j - 1 else j]
  {
  }

  lemma FrontedOk(s: seq<BufEntry>, i: nat, file: seq<byte>, obtained: set<Chunk>)
    requires EntriesOk(s, file, obtained) && i < |s|
    ensures EntriesOk(Fronted(s, i), file, obtained)
  {
    var r := Fronted(s, i);
    forall j | 0 <= j < |r|
      ensures EntryOk(r[j], file, obtained)
    {
      FrontedAt(s, i, j);
    }
    forall j, k | 0 <= j < k < |r| && r[j].ptr != null
      ensures r[j].ptr != r[k].ptr
    {
      FrontedAt(s, i, j);
      FrontedAt(s, i, k);
    }
  }

  lemma FrontedHeld(s: seq<BufEntry>, i: nat, c: Chunk)
    requires i < |s|
    ensures Held(Fronted(s, i), c) <==> Held(s, c)
  {
    var r := Fronted(s, i);
    if Held(s, c) {
      var j :| 0 <= j < |s| && s[j].ptr == c;
      FrontedAt(s, i, if j == i then 0 else if j < i then j + 1 else j);
    }
    if Held(r, c) {
      var j :| 0 <= j < |r| && r[j].ptr == c;
      FrontedAt(s, i, j);
    }
  }

  lemma FrontedReleased(s: seq<BufEntry>, i: nat, obtained: set<Chunk>)
    requires i < |s| && Released(s, obtained)
    ensures Released(Fronted(s, i), obtained)
  {
    forall c | c in obtained
      ensures Held(Fronted(s, i), c) <==> Held(s, c)
    {
      FrontedHeld(s, i, c);
    }
  }

  /** A file read through a cache. `chunkSize` is the unit of caching. */
  class Provider {
    const file: seq<byte>
    const chunkSize: nat
    const lru: array<BufEntry>
    ghost var obtained: set<Chunk>

    ghost predicate Valid()
      reads this, lru, obtained
    {
      && chunkSize > 0 && lru.Length == 4
      && EntriesOk(lru[..], file, obtained) && Released(lru[..], obtained)
    }

    /** Reading with ordinary calls: nothing is cached at first. */
    constructor Unix(file: seq<byte>, chunkSize: nat)
      requires chunkSize > 0
      ensures Valid() && fresh(lru) && this.file == file && this.chunkSize == chunkSize && obtained == {}
      ensures InChunks() && Keys(lru[..], chunkSize) == []
    {
      this.file, this.chunkSize, obtained := file, chunkSize, {};
      lru := new BufEntry[4](_ => EMPTY);
      new;
      assert forall i {:trigger lru[..][i]} :: 0 <= i < 4 ==> lru[..][i] == EMPTY;
    }

    /** Mapping: a small file is mapped whole, a large one by its first chunk. */
    constructor Mmap(file: seq<byte>, chunkSize: nat, limit: nat)
      requires chunkSize > 0 && |file| > 0 && chunkSize <= limit
      ensures Valid() && fresh(lru) && fresh(obtained) && this.file == file && this.chunkSize == chunkSize
      ensures lru[0].offset == 0 && lru[0].size == if |file| < limit then |file| else chunkSize
    {
      var toMap := if |file| < limit then |file| else chunkSize;
      var c := new Chunk(file[0..toMap]);
      this.file, this.chunkSize, obtained := file, chunkSize, {c};
      lru := new BufEntry[4](i => if i == 0 then BufEntry(c, 0, toMap) else EMPTY);
      new;
      assert forall i {:trigger lru[..][i]} :: 0 <= i < 4 ==> lru[..][i] == if i == 0 then BufEntry(c, 0, toMap) else EMPTY;
      assert Held(lru[..], c) by {
        assert lru[..][0].ptr == c;
      }
    }

    /** Moves the first `i` entries one place down; the first stays where it is as well. */
    method MoveDown(i: nat)
      requires i < lru.Length
      modifies lru
      ensures lru[..] == [old(lru[0])] + old(lru[..i]) + old(lru[i + 1..])
    {
      ghost var was := lru[..];
      var j := i;
      while j > 0
        invariant 0 <= j <= i
        invariant forall k {:trigger lru[k]} :: 0 <= k < lru.Length ==> lru[k] == was[if j < k <= i then k - 1 else k]
      {
        lru[j] := lru[j - 1];
        j := j - 1;
      }
    }

    /** Looks for an entry that covers a position and brings it to the front. */
    method LruGet(offs: nat) returns (found: bool, ghost i: nat)
      requires Valid()
      modifies lru
      ensures Valid() && obtained == old(obtained)
      ensures found ==> i < 4 && Covers(old(lru[..])[i], offs) && lru[..] == Fronted(old(lru[..]), i)
      ensures !found ==> lru[..] == old(lru[..]) && forall i {:trigger lru[..][i]} :: 0 <= i < 4 ==> !Covers(lru[..][i], offs)
    {
      hide EntryOk;
      i := 0;
      for k := 0 to lru.Length
        invariant lru[..] == old(lru[..]) && Valid()
        invariant forall j {:trigger lru[..][j]} :: 0 <= j < k ==> !Covers(lru[..][j], offs)
      {
        var x := lru[k];
        if x.offset <= offs && x.offset + x.size > offs {
          ghost var s := lru[..];
          MoveDown(k);
          lru[0] := x;
          i := k;
          assert lru[..] == Fronted(s, i);
          FrontedOk(s, i, file, obtained);
          FrontedReleased(s, i, obtained);
          return true, i;
        }
      }
      found := false;
    }

    /** Puts a new entry in front; the last one drops out. */
    method LruPush(e: BufEntry)
      requires lru.Length == 4
      modifies lru
      ensures lru[..] == [e] + old(lru[..3])
    {
      MoveDown(3);
      lru[0] := e;
    }

    /** Gives back the memory of an entry, which must not have been given back before. */
    method DeleteChunk(i: nat)
      requires i < lru.Length && (lru[i].ptr != null ==> lru[i].ptr.releases == 0)
      modifies lru[i].ptr
      ensures lru[i].ptr != null ==> lru[i].ptr.releases == 1
    {
      if lru[i].ptr != null {
        lru[i].ptr.releases := lru[i].ptr.releases + 1;
      }
    }

    /** Every entry in use is a chunk of the file, none twice. */
    ghost predicate InChunks()
      reads this, lru
    {
      chunkSize > 0 && Chunked(lru[..], chunkSize, |file|)
    }

    lemma LastDrops()
      requires Valid()
      ensures Dropped(lru[..], obtained) && EntriesOk(lru[..], file, obtained)
      ensures forall c {:trigger c in obtained} :: c in obtained ==> c.releases == (if Held(lru[..], c) then 0 else 1) && allocated(c)
      ensures lru[3].ptr != null ==> Held(lru[..], lru[3].ptr)
    {
      assert lru[..][3] == lru[3];
    }

    /** Makes sure the first entry covers a position of the file. As long as all entries are chunks, they are those
        asked for last, the latest first. */
    method EnsureChunk(offs: nat)
      requires Valid() && offs < |file|
      modifies this, lru, obtained
      ensures Valid() && old(obtained) <= obtained && fresh(obtained - old(obtained))
      ensures lru[0].offset <= offs < lru[0].offset + lru[0].size
      ensures old(InChunks()) ==> InChunks() && Keys(lru[..], chunkSize) == R.Touch(old(Keys(lru[..], chunkSize)), offs / chunkSize)
    {
      hide EntriesOk, Released, Chunked, Keys, R.Touch;
      var chOffs := offs / chunkSize * chunkSize;
      ghost var was := lru[..];
      var found;
      ghost var i;
      found, i := LruGet(offs);
      if found {
        FrontedAt(was, i, 0);
        if Chunked(was, chunkSize, |file|) {
          TouchedFront(was, chunkSize, |file|, i, offs);
        }
        return;
      }
      ChunkCovers(offs, chunkSize);
      var size := if chunkSize < |file| - chOffs then chunkSize else |file| - chOffs;
      Bring(chOffs, size);
      if Chunked(was, chunkSize, |file|) {
        TouchedNew(was, chunkSize, |file|, lru[0], offs);
      }
    }

    /** Gets part of the file and puts it in front; the memory of the last entry is given back. */
    method Bring(offs: nat, size: nat)
      requires Valid() && 0 < size && offs + size <= |file|
      modifies this, lru, obtained
      ensures Valid() && old(obtained) <= obtained && fresh(obtained - old(obtained))
      ensures lru[..] == [lru[0]] + old(lru[..3]) && lru[0].offset == offs && lru[0].size == size
    {
      hide EntriesOk, Released, Held, EntryOk;
      var c := new Chunk(file[offs..offs + size]);
      ghost var s, e := lru[..], BufEntry(c, offs, size);
      LastDrops();
      DeleteChunk(3);
      LruPush(BufEntry(c, offs, size));
      NewEntry(e);
      PushedOk(s, e, file, obtained);
      ReleasedPushed(s, e, obtained);
      obtained := obtained + {c};
    }

    lemma NewEntry(e: BufEntry)
      requires e.size > 0 && e.ptr != null && e.offset + e.size <= |file| && e.ptr.data == file[e.offset..e.offset + e.size]
      ensures EntryOk(e, file, obtained + {e.ptr})
    {
    }

    /** Copies bytes of the first entry. */
    method CopyFirst(offs: nat, buf: array<byte>, at: nat, len: nat) returns (n: nat)
      requires Valid() && lru[0].offset <= offs < lru[0].offset + lru[0].size
      requires at + len <= buf.Length && len > 0
      modifies buf
      ensures Valid() && 0 < n <= len && offs + n <= |file|
      ensures Filled(buf[..], old(buf[..]), at, file, offs, n)
    {
      var e := lru[0];
      assert EntryOk(lru[..][0], file, obtained);
      var bufOffs := offs - e.offset;
      n := if len < e.size - bufOffs then len else e.size - bufOffs;
      Copy(buf, at, e.ptr.data[bufOffs..bufOffs + n]);
      SliceOfSlice(file, e.offset, e.offset + e.size, bufOffs, bufOffs + n);
    }

    /** Reads as much as one chunk has, bringing it into the cache if need be. */
    method ReadChunk(offs: nat, buf: array<byte>, at: nat, len: nat) returns (n: nat)
      requires Valid() && offs < |file| && at + len <= buf.Length && len > 0
      modifies this, lru, obtained, buf
      ensures Valid() && old(obtained) <= obtained && fresh(obtained - old(obtained))
      ensures 0 < n <= len && Filled(buf[..], old(buf[..]), at, file, offs, n)
    {
      hide EntriesOk, Released, Filled;
      EnsureChunk(offs);
      n := CopyFirst(offs, buf, at, len);
    }

    /** Reads part of the file: directly if it is longer than a chunk, otherwise through the cache. */
    method Pread(offs: nat, buf: array<byte>, at: nat, len: nat)
      requires Valid() && offs + len <= |file| && at + len <= buf.Length && (len == 0 ==> offs < |file|)
      modifies this, lru, obtained, buf
      ensures Valid() && old(obtained) <= obtained && fresh(obtained - old(obtained))
      ensures Filled(buf[..], old(buf[..]), at, file, offs, len)
      ensures len == 0 ==> lru[0].offset <= offs < lru[0].offset + lru[0].size
    {
      hide EntriesOk, Released, Filled;
      if len > chunkSize {
        Copy(buf, at, file[offs..offs + len]);
        CopyFilled(old(buf[..]), buf[..], at, file, offs, len);
        return;
      }
      NothingFilled(buf[..], at, file, offs);
      if len == 0 {
        EnsureChunk(offs);
        return;
      }
      var done := 0;
      while done < len
        invariant Valid() && old(obtained) <= obtained && fresh(obtained - old(obtained)) && done <= len
        invariant Filled(buf[..], old(buf[..]), at, file, offs, done)
      {
        ghost var was := buf[..];
        var n := ReadChunk(offs + done, buf, at + done, len - done);
        Extended(file, offs, done, n, old(buf[..]), at, was, buf[..]);
        done := done + n;
      }
    }

    /** Gives back whatever is still cached. Every chunk has then been given back exactly once. */
    method Destroy()
      requires Valid()
      modifies obtained
      ensures forall c {:trigger c in obtained} :: c in obtained ==> c.releases == 1
    {
      ghost var s := lru[..];
      for i := 0 to lru.Length
        invariant lru[..] == s
        invariant forall c {:trigger c in obtained} :: c in obtained ==> c.releases == if Held(s[i..], c) then 0 else 1
      {
        assert EntryOk(s[i], file, obtained);
        OneLess(s, i, file, obtained);
        if lru[i].size > 0 {
          assert Held(s[i..], lru[i].ptr) by {
            assert s[i..][0] == lru[i];
          }
          DeleteChunk(i);
        }
      }
    }

    /** The last entry is the only one to hold its chunk. */
    ghost predicate Dropped(s: seq<BufEntry>, obtained: set<Chunk>)
      reads obtained
    {
      |s| == 4 && Released(s, obtained) && (s[3].ptr != null ==> s[3].ptr in obtained && s[3].ptr.releases == 0)
    }
  }

  /** Leaving an entry out leaves out its chunk and no other. */
  lemma OneLess(s: seq<BufEntry>, i: nat, file: seq<byte>, obtained: set<Chunk>)
    requires EntriesOk(s, file, obtained) && i < 4
    ensures forall c {:trigger Held(s[i + 1..], c)} {:trigger Held(s[i..], c)} :: c in obtained ==> (Held(s[i + 1..], c) <==> Held(s[i..], c) && c != s[i].ptr)
  {
    forall c | c in obtained
      ensures Held(s[i + 1..], c) <==> Held(s[i..], c) && c != s[i].ptr
    {
      if Held(s[i + 1..], c) {
        var j :| 0 <= j < |s[i + 1..]| && s[i + 1..][j].ptr == c;
        assert s[i..][j + 1].ptr == c && s[i + 1 + j].ptr == c;
      }
      if Held(s[i..], c) && c != s[i].ptr {
        var j :| 0 <= j < |s[i..]| && s[i..][j].ptr == c;
        assert s[i + 1..][j - 1].ptr == c;
      }
    }
  }

  method Copy(buf: array<byte>, at: nat, data: seq<byte>)
    requires at + |data| <= buf.Length
    modifies buf
    ensures buf[..] == old(buf[..at]) + data + old(buf[at + |data|..])
  {
    for k := 0 to |data|
      invariant forall i {:trigger buf[i]} :: 0 <= i < buf.Length ==> buf[i] == if at <= i < at + k then data[i - at] else old(buf[i])
    {
      buf[at + k] := data[k];
    }
  }

  /** A buffer in which `done` bytes from `at` on have been replaced by file bytes. */
  ghost predicate Filled(now: seq<byte>, before: seq<byte>, at: nat, file: seq<byte>, offs: nat, done: nat) {
    && at + done <= |before| == |now| && offs + done <= |file|
    && now == before[..at] + file[offs..offs + done] + before[at + done..]
  }

  lemma NothingFilled(before: seq<byte>, at: nat, file: seq<byte>, offs: nat)
    requires at <= |before| && offs <= |file|
    ensures Filled(before, before, at, file, offs, 0)
  {
  }

  lemma CopyFilled(before: seq<byte>, now: seq<byte>, at: nat, file: seq<byte>, offs: nat, len: nat)
    requires at + len <= |before| && offs + len <= |file| && now == before[..at] + file[offs..offs + len] + before[at + len..]
    ensures Filled(now, before, at, file, offs, len)
  {
  }

  lemma AllFilled(now: seq<byte>, before: seq<byte>, file: seq<byte>, offs: nat, len: nat)
    requires Filled(now, before, 0, file, offs, len)
    ensures len <= |before| && now == file[offs..offs + len] + before[len..]
  {
  }

  /** Copying the next bytes behind those already copied. */
  lemma Extended(file: seq<byte>, offs: nat, done: nat, n: nat, before: seq<byte>, at: nat, was: seq<byte>, now: seq<byte>)
    requires Filled(was, before, at, file, offs, done) && Filled(now, was, at + done, file, offs + done, n)
    ensures Filled(now, before, at, file, offs, done + n)
  {
    assert was[..at + done] == before[..at] + file[offs..offs + done];
    assert was[at + done + n..] == before[at + done + n..];
    assert file[offs..offs + done + n] == file[offs..offs + done] + file[offs + done..offs + done + n];
  }

  lemma ChunkCovers(offs: nat, size: nat)
    requires size > 0
    ensures offs / size * size <= offs < offs / size * size + size
  {
    assert offs == offs / size * size + offs % size;
  }

  lemma ReleasedPushed(s: seq<BufEntry>, e: BufEntry, obtained: set<Chunk>)
    requires |s| == 4 && e.ptr != null && e.ptr !in obtained && e.ptr.releases == 0 && Held([e] + s[..3], e.ptr)
    requires forall c {:trigger Held([e] + s[..3], c)} :: c in obtained ==> (Held([e] + s[..3], c) <==> Held(s, c) && c != s[3].ptr)
    requires forall c {:trigger c in obtained} :: c in obtained ==> c.releases == if Held(s, c) && c != s[3].ptr then 0 else 1
    ensures Released([e] + s[..3], obtained + {e.ptr})
  {
    hide Held;
    forall c | c in obtained + {e.ptr}
      ensures c.releases == if Held([e] + s[..3], c) then 0 else 1
    {
    }
  }

  lemma PushedEntries(s: seq<BufEntry>, e: BufEntry, file: seq<byte>, obtained: set<Chunk>)
    requires EntriesOk(s, file, obtained) && e.ptr != null && e.ptr !in obtained && EntryOk(e, file, obtained + {e.ptr})
    ensures EntriesOk([e] + s[..3], file, obtained + {e.ptr})
  {
    var r := [e] + s[..3];
    assert r[0] == e && r[1] == s[0] && r[2] == s[1] && r[3] == s[2];
  }

  lemma PushedHeld(s: seq<BufEntry>, e: BufEntry, c: Chunk)
    requires |s| == 4 && e.ptr != c && forall i, j {:trigger s[i], s[j]} :: 0 <= i < j < |s| && s[i].ptr != null ==> s[i].ptr != s[j].ptr
    ensures Held([e] + s[..3], c) <==> Held(s, c) && c != s[3].ptr
  {
    var r := [e] + s[..3];
    assert r[0] == e && r[1] == s[0] && r[2] == s[1] && r[3] == s[2];
    if Held(r, c) {
      var i :| 0 <= i < 4 && r[i].ptr == c;
      assert s[i - 1].ptr == c;
    }
    if Held(s, c) && c != s[3].ptr {
      var i :| 0 <= i < 4 && s[i].ptr == c;
      assert r[i + 1].ptr == c;
    }
  }

  lemma PushedOk(s: seq<BufEntry>, e: BufEntry, file: seq<byte>, obtained: set<Chunk>)
    requires EntriesOk(s, file, obtained) && e.ptr != null && e.ptr !in obtained && EntryOk(e, file, obtained + {e.ptr})
    ensures EntriesOk([e] + s[..3], file, obtained + {e.ptr})
    ensures forall c {:trigger Held([e] + s[..3], c)} :: c in obtained ==> (Held([e] + s[..3], c) <==> Held(s, c) && c != s[3].ptr)
    ensures Held([e] + s[..3], e.ptr)
  {
    hide EntryOk;
    PushedEntries(s, e, file, obtained);
    forall c | c in obtained
      ensures Held([e] + s[..3], c) <==> Held(s, c) && c != s[3].ptr
    {
      PushedHeld(s, e, c);
    }
    assert ([e] + s[..3])[0] == e;
  }

  /** A window into a file, with a read position. */
  class Source {
    const p: Provider
    var offset: nat
    var size: nat
    var get: nat

    ghost predicate Valid()
      reads this, p, p.lru, p.obtained
    {
      p.Valid() && offset + size <= |p.file|
    }

    /** The bytes of the window. */
    ghost function Bytes(): seq<byte>
      requires offset + size <= |p.file|
      reads this
    {
      p.file[offset..offset + size]
    }

    constructor (p: Provider)
      requires p.Valid()
      ensures Valid() && this.p == p && Bytes() == p.file && get == 0
    {
      this.p, offset, size, get := p, 0, |p.file|, 0;
    }

    /** Narrows the window. */
    method Slice(offs: nat, len: nat) returns (ok: bool)
      requires Valid()
      modifies this
      ensures Valid() && (ok <==> offs + len <= old(size))
      ensures Bytes() == if ok then old(Bytes())[offs..offs + len] else old(Bytes())
    {
      ok := offs <= size && offs + len <= size;
      if ok {
        SliceOfSlice(p.file, offset, offset + size, offs, offs + len);
        offset, size := offset + offs, len;
      }
    }

    /** Reads what is cached at a position, or leaves the whole rest to the provider. */
    method ReadSome(pos: nat, buf: array<byte>, at: nat, len: nat) returns (n: nat)
      requires Valid() && pos + len <= |p.file| && at + len <= buf.Length && len > 0
      modifies p, p.lru, p.obtained, buf
      ensures Valid() && old(p.obtained) <= p.obtained && fresh(p.obtained - old(p.obtained))
      ensures 0 < n <= len && Filled(buf[..], old(buf[..]), at, p.file, pos, n)
    {
      hide EntriesOk, Released, EntryOk, Filled;
      var hit;
      ghost var place;
      hit, place := p.LruGet(pos);
      if hit {
        n := p.CopyFirst(pos, buf, at, len);
      } else {
        p.Pread(pos, buf, at, len);
        n := len;
      }
    }

    /** Reads bytes of the file, whichever way they are found. */
    method ReadAll(pos: nat, buf: array<byte>, len: nat)
      requires Valid() && pos + len <= |p.file| && len <= buf.Length
      modifies p, p.lru, p.obtained, buf
      ensures Valid() && fresh(p.obtained - old(p.obtained)) && Filled(buf[..], old(buf[..]), 0, p.file, pos, len)
    {
      hide EntriesOk, Released, EntryOk, Filled;
      var done := 0;
      NothingFilled(buf[..], 0, p.file, pos);
      while done < len
        invariant Valid() && old(p.obtained) <= p.obtained && fresh(p.obtained - old(p.obtained)) && done <= len
        invariant Filled(buf[..], old(buf[..]), 0, p.file, pos, done)
      {
        ghost var was := buf[..];
        var n := ReadSome(pos + done, buf, done, len - done);
        Extended(p.file, pos, done, n, old(buf[..]), 0, was, buf[..]);
        done := done + n;
      }
    }

    lemma InWindow(now: seq<byte>, before: seq<byte>, offs: nat, len: nat)
      requires Valid() && offs + len <= size && Filled(now, before, 0, p.file, offset + offs, len)
      ensures len <= |before| && now == Bytes()[offs..offs + len] + before[len..]
    {
      hide EntriesOk, Released, EntryOk, Filled;
      AllFilled(now, before, p.file, offset + offs, len);
      SliceOfSlice(p.file, offset, offset + size, offs, offs + len);
    }

    /** Reads a part of the window. */
    method PreadCached(offs: nat, buf: array<byte>, len: nat)
      requires Valid() && offs + len <= size && len <= buf.Length
      modifies p, p.lru, p.obtained, buf
      ensures Valid() && fresh(p.obtained - old(p.obtained))
      ensures buf[..] == Bytes()[offs..offs + len] + old(buf[len..])
    {
      hide EntriesOk, Released, EntryOk, Filled;
      ReadAll(offset + offs, buf, len);
      InWindow(buf[..], old(buf[..]), offs, len);
    }

    /** Reads at a place of the window; reading past its end is refused. */
    method Pread(offs: nat, buf: array<byte>, len: nat) returns (ok: bool)
      requires Valid() && len <= buf.Length
      modifies p, p.lru, p.obtained, buf
      ensures Valid() && fresh(p.obtained - old(p.obtained)) && (ok <==> offs + len <= size)
      ensures buf[..] == if ok then Bytes()[offs..offs + len] + old(buf[len..]) else old(buf[..])
    {
      ok := offs <= size && offs + len <= size;
      if ok {
        PreadCached(offs, buf, len);
      }
    }

    /** Reads at the read position and moves it on. */
    method Read(buf: array<byte>, len: nat) returns (ok: bool)
      requires Valid() && len <= buf.Length
      modifies this, p, p.lru, p.obtained, buf
      ensures Valid() && fresh(p.obtained - old(p.obtained)) && offset == old(offset) && size == old(size)
      ensures ok <==> old(get) + len <= size
      ensures get == if ok then old(get) + len else old(get)
      ensures buf[..] == if ok then Bytes()[old(get)..get] + old(buf[len..]) else old(buf[..])
    {
      ok := Pread(get, buf, len);
      if ok {
        get := get + len;
      }
    }

    method GetTemporaryEntry(pos: nat) returns (e: BufEntry)
      requires Valid() && pos < |p.file|
      modifies p, p.lru, p.obtained
      ensures Valid() && old(p.obtained) <= p.obtained && fresh(p.obtained - old(p.obtained))
      ensures e.offset <= pos < e.offset + e.size && EntryOk(e, p.file, p.obtained)
    {
      var hit;
      ghost var place;
      hit, place := p.LruGet(pos);
      if !hit {
        var none := new byte[0];
        p.Pread(pos, none, 0, 0);
      }
      e := p.lru[0];
      assert EntryOk(p.lru[..][0], p.file, p.obtained);
    }

    /** Some bytes from a place of the window on, as far as one cache entry reaches. */
    method GetChunk(offs: nat) returns (chunk: seq<byte>)
      requires Valid() && offs < size
      modifies p, p.lru, p.obtained
      ensures Valid() && old(p.obtained) <= p.obtained && fresh(p.obtained - old(p.obtained))
      ensures 0 < |chunk| <= size - offs && chunk == Bytes()[offs..offs + |chunk|]
    {
      var e := GetTemporaryEntry(offset + offs);
      var eoffs := offset + offs - e.offset;
      var n := if e.size - eoffs < size - offs then e.size - eoffs else size - offs;
      chunk := e.ptr.data[eoffs..eoffs + n];
      SliceOfSlice(p.file, e.offset, e.offset + e.size, eoffs, eoffs + n);
      SliceOfSlice(p.file, offset, offset + size, offs, offs + n);
    }

    /** The string at a place of the window, collected chunk by chunk; refused if no zero ends it. */
    method PreadCString(offs: nat) returns (r: Option<seq<byte>>)
      requires Valid() && offs <= size
      modifies p, p.lru, p.obtained
      ensures Valid() && fresh(p.obtained - old(p.obtained)) && r == CStringIn(Bytes()[offs..])
    {
      hide EntriesOk, Released, EntryOk, CStringIn;
      var str: seq<byte>, pos := [], offs;
      while pos < size
        invariant Valid() && old(p.obtained) <= p.obtained && fresh(p.obtained - old(p.obtained)) && offs <= pos <= size
        invariant str == Bytes()[offs..pos] && 0 !in str
      {
        var e := GetChunk(pos);
        var len := ZeroIn(e);
        assert Bytes()[offs..pos] + e == Bytes()[offs..pos + |e|];
        if len < |e| {
          str := str + e[..len];
          Ended(Bytes()[offs..], str);
          return Some(str);
        }
        str := str + e;
        pos := pos + |e|;
      }
      assert Bytes()[offs..] == Bytes()[offs..pos];
      r := None;
    }

    /** Writes the whole window, chunk by chunk. */
    method Dump() returns (out: seq<byte>)
      requires Valid()
      modifies p, p.lru, p.obtained
      ensures Valid() && fresh(p.obtained - old(p.obtained)) && out == Bytes()
    {
      hide EntriesOk, Released, EntryOk;
      out := [];
      while |out| < size
        invariant Valid() && old(p.obtained) <= p.obtained && fresh(p.obtained - old(p.obtained)) && |out| <= size
        invariant out == Bytes()[..|out|]
      {
        var chunk := GetChunk(|out|);
        out := out + chunk;
      }
    }
  }

  /** strnlen: the place of the first zero, or the length. */
  method ZeroIn(e: seq<byte>) returns (n: nat)
    ensures n <= |e| && 0 !in e[..n] && (n < |e| ==> e[n] == 0)
  {
    n := 0;
    while n < |e| && e[n] != 0
      invariant n <= |e| && 0 !in e[..n]
    {
      n := n + 1;
    }
  }

  lemma Ended(b: seq<byte>, str: seq<byte>)
    requires |str| < |b| && b[..|str|] == str && b[|str|] == 0 && 0 !in str
    ensures CStringIn(b) == Some(str)
  {
    assert b == str + [0] + b[|str| + 1..];
    CStringFound(str, b[|str| + 1..]);
  }
}
