/** What the bytes of a CL3 file say its archive is, written out. */
module Cl3Format {
  import opened Bytes
  import opened Numbers
  import opened Words
  import opened Cl3Files

  // ---- names

  /** A field of `size` bytes holds a name and a zero behind it. */
  predicate NameIn(file: seq<byte>, at: nat, size: nat, name: seq<byte>) {
    |name| < size && at + size <= |file| && 0 !in name && file[at..at + |name|] == name && file[at + |name|] == 0
  }

  /** The name in a field is spelled like this. */
  predicate NamedLike(file: seq<byte>, at: nat, size: nat, letters: string) {
    |letters| < size && at + size <= |file| && file[at + |letters|] == 0 && forall k {:trigger letters[k]} :: 0 <= k < |letters| ==> file[at + k] as int == letters[k] as int
  }

  predicate NameEnds(file: seq<byte>, at: nat, size: nat) {
    at + size <= |file| && exists k {:trigger file[k]} :: at <= k < at + size && file[k] == 0
  }

  /** All words from `at` on are zero. */
  predicate ZeroWords(file: seq<byte>, at: nat, n: nat) {
    at + 4 * n <= |file| && forall k {:trigger file[k]} :: at <= k < at + 4 * n ==> file[k] == 0
  }

  // ---- sections

  /** A section is a name of 32 bytes, a count at 0x20, a size at 0x24, an offset at 0x28 and nine zero words, 0x50 bytes in all.
      What it points to ends inside the file; links take 32 bytes each. */
  predicate SectionIn(file: seq<byte>, little: bool, at: nat) {
    && at + 0x50 <= |file| && NameEnds(file, at, 32) && ZeroWords(file, at + 0x2c, 9)
    && FourIn(little, file, at + 0x28) <= |file| && (FourIn(little, file, at + 0x28) + FourIn(little, file, at + 0x24)) % 0x1_0000_0000 <= |file|
    && (NamedLike(file, at, 32, "FILE_LINK") ==> FourIn(little, file, at + 0x24) == 32 * FourIn(little, file, at + 0x20))
  }

  /** Where the last of `n` sections with a name is. */
  function LastNamed(file: seq<byte>, at: nat, n: nat, letters: string): (r: Option<nat>)
    ensures r.Some? ==> exists k {:trigger SectionPlace(at, k)} :: 0 <= k < n && r.value == SectionPlace(at, k) && NamedLike(file, r.value, 32, letters) &&
                          forall k' {:trigger SectionPlace(at, k')} :: k < k' < n ==> !NamedLike(file, SectionPlace(at, k'), 32, letters)
    ensures r.None? ==> forall k: nat {:trigger SectionPlace(at, k)} :: k < n ==> !NamedLike(file, SectionPlace(at, k), 32, letters)
  {
    if n == 0 then None
    else if NamedLike(file, SectionPlace(at, n - 1), 32, letters) then Some(SectionPlace(at, n - 1))
    else LastNamed(file, at, n - 1, letters)
  }

  function SectionPlace(at: nat, k: nat): nat { at + 0x50 * k }

  // ---- files

  /** Link `k` of a file is the word at 4 of the record of 0x20 bytes at `at`, which also holds `k` at 8, and zeros. */
  predicate LinkIn(link: nat, k: nat, file: seq<byte>, little: bool, at: nat, count: nat) {
    && at + 0x20 <= |file| && ZeroWords(file, at, 1) && ZeroWords(file, at + 0xc, 5)
    && FourIn(little, file, at + 4) == link < count && FourIn(little, file, at + 8) == k
  }

  /** The number of links: none if the numbers of their records would run past 32 bits. */
  function LinksIn(start: nat, count: nat): nat {
    if start + count < 0x1_0000_0000 then count else 0
  }

  /** The links of a file are the records from `start` on of the table at `links`. */
  predicate LinkedTo(f: File, file: seq<byte>, little: bool, start: nat, links: Option<nat>, count: nat) {
    (links.None? ==> f.links == []) &&
    forall k {:trigger f.links[k]} :: 0 <= k < |f.links| ==> LinkIn(f.links[k], k, file, little, links.value + 0x20 * (start + k), count)
  }

  /** The data of a file: a window of the archive, where and as long as its record says. */
  predicate DataIn(data: seq<byte>, file: seq<byte>, p: nat, block: nat, offset: nat, size: nat) {
    && offset <= block && (offset + size) % 0x1_0000_0000 <= block
    && var from := (p + offset) % 0x1_0000_0000; from + size <= |file| && data == file[from..from + size]
  }

  /** The record of a file: its name in 0x200 bytes, then a word of its own, the offset and the size of its data, the first of its
      links and how many there are, and seven zero words. */
  predicate FileIn(f: File, file: seq<byte>, little: bool, p: nat, block: nat, at: nat, links: Option<nat>, count: nat) {
    && at + 0x230 <= |file| && NameIn(file, at, 0x200, f.name) && ZeroWords(file, at + 0x214, 7)
    && f.field200 == FourIn(little, file, at + 0x200)
    && DataIn(f.data, file, p, block, FourIn(little, file, at + 0x204), FourIn(little, file, at + 0x208))
    && |f.links| == LinksIn(FourIn(little, file, at + 0x20c), FourIn(little, file, at + 0x210))
    && LinkedTo(f, file, little, FourIn(little, file, at + 0x20c), links, count)
  }

  function FilePlace(at: nat, i: nat): nat { at + 0x230 * i }

  predicate FilesIn(files: seq<File>, file: seq<byte>, little: bool, p: nat, block: nat, links: Option<nat>, count: nat) {
    forall i {:trigger files[i]} :: 0 <= i < |files| ==> FileIn(files[i], file, little, p, block, FilePlace(p, i), links, count)
  }

  // ---- archives

  /** The letters CL3, the byte order, 0 at 4, 3 at 8, the number of sections at 0xc and their place at 0x10. */
  predicate HeaderIn(file: seq<byte>) {
    && |file| >= 24 && file[0] == 0x43 && file[1] == 0x4c && file[2] == 0x33 && (file[3] == 0x4c || file[3] == 0x42)
    && ZeroWords(file, 4, 1) && FourIn(file[3] == 0x4c, file, 8) == 3
    && FourIn(file[3] == 0x4c, file, 0x10) + 0x50 * FourIn(file[3] == 0x4c, file, 0xc) <= |file|
  }

  predicate AllSections(file: seq<byte>, little: bool, at: nat, n: nat) {
    forall k: nat {:trigger SectionPlace(at, k)} :: k < n ==> SectionIn(file, little, SectionPlace(at, k))
  }

  /** The files are those of the last section FILE_COLLECTION, their links those of the last section FILE_LINK. */
  predicate Collected(files: seq<File>, file: seq<byte>, little: bool, collection: Option<nat>, table: Option<nat>)
    requires (collection.Some? ==> collection.value + 0x50 <= |file|) && (table.Some? ==> table.value + 0x50 <= |file|)
  {
    if collection.None? then files == []
    else
      var c := collection.value;
      var links := if table.None? then None else Some(FourIn(little, file, table.value + 0x28));
      && |files| == FourIn(little, file, c + 0x20) && DistinctNames(files)
      && FilesIn(files, file, little, FourIn(little, file, c + 0x28), FourIn(little, file, c + 0x24), links, |files|)
  }

  predicate ArchiveIn(a: Archive, file: seq<byte>) {
    HeaderIn(file) &&
    var little, count, at := file[3] == 0x4c, FourIn(file[3] == 0x4c, file, 0xc), FourIn(file[3] == 0x4c, file, 0x10);
    && a.little == little && a.field14 == FourIn(little, file, 0x14) && AllSections(file, little, at, count)
    && Collected(a.files, file, little, LastNamed(file, at, count, "FILE_COLLECTION"), LastNamed(file, at, count, "FILE_LINK"))
  }

  // ---- the reader

  lemma FoursBefore(n: nat, i: nat)
    requires i < n
    ensures Sum(Fours(n)[..i]) == 4 * i && Fours(n)[i] == 4
  {
    hide Sum;
    FoursSum(i);
    assert Fours(n)[..i] == Fours(i);
  }

  lemma {:induction false} FoursAt(little: bool, n: nat, b: seq<byte>, i: nat)
    requires 4 * n <= |b| && i < n
    ensures Sum(Fours(n)) == 4 * n && DecWords(little, Fours(n), b)[i] == FourIn(little, b, 4 * i)
  {
    hide DecWords, FourIn, Fours, Sum, Dec;
    FoursSum(n);
    FoursBefore(n, i);
    WordAt(little, Fours(n), b, i);
    WordsIn(little, b, 4 * i);
  }

  lemma FourThere(little: bool, file: seq<byte>, at: nat, end: nat, i: nat)
    requires at + i + 4 <= end <= |file|
    ensures FourIn(little, file[at..end], i) == FourIn(little, file, at + i)
  {
  }

  lemma WordRead(file: seq<byte>, little: bool, at: nat, n: nat, i: nat)
    requires at + 4 * n <= |file| && i < n
    ensures WordsAt(file, little, at, n)[i] == FourIn(little, file, at + 4 * i)
  {
    hide FourIn, DecWords, Sum, Fours;
    FoursAt(little, n, file[at..at + 4 * n], i);
    FourThere(little, file, at, at + 4 * n, 4 * i);
  }

  lemma NameRead(file: seq<byte>, at: nat, size: nat, name: seq<byte>)
    requires at + size <= |file|
    ensures NameAt(file, at, size) == Some(name) <==> NameIn(file, at, size, name)
    ensures NameAt(file, at, size).Some? <==> NameEnds(file, at, size)
  {
    hide CStringIn;
    var b := file[at..at + size];
    if NameIn(file, at, size, name) {
      var rest := b[|name| + 1..];
      assert b[..|name|] == name && b[|name|] == 0;
      assert b == name + [0] + rest;
      CStringFound(name, rest);
    }
    if NameEnds(file, at, size) {
      var k :| at <= k < at + size && file[k] == 0;
      assert b[k - at] == 0;
    }
    if CStringIn(b).Some? {
      var s := CStringIn(b).value;
      assert file[at + |s|] == b[|s|] == 0 && file[at..at + |s|] == b[..|s|];
    }
  }

  lemma NameLike(file: seq<byte>, at: nat, size: nat, letters: string, name: seq<byte>)
    requires |name| == |letters| && 0 !in name && NameEnds(file, at, size) && forall k {:trigger name[k]} :: 0 <= k < |name| ==> name[k] as int == letters[k] as int
    ensures NameAt(file, at, size) == Some(name) <==> NamedLike(file, at, size, letters)
  {
    hide NameAt;
    NameRead(file, at, size, name);
    if NameIn(file, at, size, name) {
      forall k | 0 <= k < |letters|
        ensures file[at + k] as int == letters[k] as int
      {
        assert file[at..at + |name|][k] == name[k];
      }
    }
    if NamedLike(file, at, size, letters) {
      forall k | 0 <= k < |name|
        ensures file[at..at + |name|][k] == name[k]
      {
        var c := letters[k];
      }
    }
  }

  lemma ZeroFour(little: bool, file: seq<byte>, at: nat)
    requires at + 4 <= |file|
    ensures FourIn(little, file, at) == 0 <==> ZeroWords(file, at, 1)
  {
  }

  lemma {:induction false} ZerosRead(file: seq<byte>, little: bool, at: nat, n: nat, from: nat)
    requires at + 4 * n <= |file| && from <= n
    ensures (forall i {:trigger WordsAt(file, little, at, n)[i]} :: from <= i < n ==> WordsAt(file, little, at, n)[i] == 0) <==> ZeroWords(file, at + 4 * from, n - from)
    decreases n - from
  {
    hide WordsAt, FourIn;
    if from < n {
      ZerosRead(file, little, at, n, from + 1);
      WordRead(file, little, at, n, from);
      ZeroFour(little, file, at + 4 * from);
    }
  }

  /** The place a section names. */
  function PlaceIn(file: seq<byte>, little: bool, at: nat): Place
    requires at + 0x50 <= |file|
  {
    Place(FourIn(little, file, at + 0x28), FourIn(little, file, at + 0x20), FourIn(little, file, at + 0x24))
  }

  lemma SectionRead(file: seq<byte>, little: bool, at: nat, s: Scan)
    ensures SectionAt(file, little, at, s).Some? <==> SectionIn(file, little, at)
    ensures SectionIn(file, little, at) ==>
              SectionAt(file, little, at, s) ==
                Some(Scan(if NamedLike(file, at, 32, "FILE_COLLECTION") then Some(PlaceIn(file, little, at)) else s.files,
                          if NamedLike(file, at, 32, "FILE_LINK") then Some(PlaceIn(file, little, at)) else s.links))
  {
    hide WordsAt, FourIn, NameAt, NamedLike, NameEnds, ZeroWords;
    if at + 80 <= |file| {
      var name, w := NameAt(file, at, 32), WordsAt(file, little, at + 32, 12);
      WordRead(file, little, at + 32, 12, 0);
      WordRead(file, little, at + 32, 12, 1);
      WordRead(file, little, at + 32, 12, 2);
      ZerosRead(file, little, at + 32, 12, 3);
      NameRead(file, at, 32, []);
      if name.Some? {
        Spelt(file, at);
      }
    }
  }

  lemma Spelt(file: seq<byte>, at: nat)
    requires NameEnds(file, at, 32)
    ensures NameAt(file, at, 32) == Some(FileCollection()) <==> NamedLike(file, at, 32, "FILE_COLLECTION")
    ensures NameAt(file, at, 32) == Some(FileLink()) <==> NamedLike(file, at, 32, "FILE_LINK")
    ensures FileCollection() != FileLink()
  {
    hide NameAt, NameEnds, NamedLike;
    assert |FileCollection()| == |"FILE_COLLECTION"| && |FileLink()| == |"FILE_LINK"|;
    NameLike(file, at, 32, "FILE_COLLECTION", FileCollection());
    NameLike(file, at, 32, "FILE_LINK", FileLink());
  }

  /** What the sections say. */
  lemma {:induction false} SectionsRead(file: seq<byte>, little: bool, at: nat, n: nat)
    ensures SectionsAt(file, little, at, n).Some? <==> AllSections(file, little, at, n)
    ensures AllSections(file, little, at, n) ==>
              var c, t := LastNamed(file, at, n, "FILE_COLLECTION"), LastNamed(file, at, n, "FILE_LINK");
              && (c.Some? ==> c.value + 0x50 <= |file|) && (t.Some? ==> t.value + 0x50 <= |file|)
              && SectionsAt(file, little, at, n) == Some(Scan(if c.None? then None else Some(PlaceIn(file, little, c.value)), if t.None? then None else Some(PlaceIn(file, little, t.value))))
  {
    hide SectionAt, NamedLike, SectionIn, PlaceIn, AllSections;
    if n > 0 {
      SectionsRead(file, little, at, n - 1);
      OneMore(file, little, at, n);
      if AllSections(file, little, at, n - 1) {
        var here := SectionPlace(at, n - 1);
        SectionRead(file, little, here, SectionsAt(file, little, at, n - 1).value);
        if SectionIn(file, little, here) {
          SectionInside(file, little, here);
        }
      }
    } else {
      OneMore(file, little, at, 0);
    }
  }

  lemma OneMore(file: seq<byte>, little: bool, at: nat, n: nat)
    ensures AllSections(file, little, at, n) <==> (n > 0 ==> AllSections(file, little, at, n - 1) && SectionIn(file, little, SectionPlace(at, n - 1)))
  {
    hide SectionIn;
    assert forall k: nat :: k < n ==> k < n - 1 || SectionPlace(at, k) == SectionPlace(at, n - 1);
  }

  lemma SectionInside(file: seq<byte>, little: bool, at: nat)
    requires SectionIn(file, little, at)
    ensures at + 0x50 <= |file|
  {
  }

  lemma EntryRead(file: seq<byte>, little: bool, at: nat, block: nat)
    requires at + 0x230 <= |file|
    ensures var w := WordsAt(file, little, at + 512, 12);
            && w[0] == FourIn(little, file, at + 0x200) && w[1] == FourIn(little, file, at + 0x204) && w[2] == FourIn(little, file, at + 0x208)
            && w[3] == FourIn(little, file, at + 0x20c) && w[4] == FourIn(little, file, at + 0x210)
            && (EntryValid(NameAt(file, at, 512), w, block) <==>
                  NameAt(file, at, 512).Some? && w[1] <= block && (w[1] + w[2]) % 0x1_0000_0000 <= block && ZeroWords(file, at + 0x214, 7))
  {
    hide WordsAt, FourIn, NameAt, ZeroWords;
    WordRead(file, little, at + 512, 12, 0);
    WordRead(file, little, at + 512, 12, 1);
    WordRead(file, little, at + 512, 12, 2);
    WordRead(file, little, at + 512, 12, 3);
    WordRead(file, little, at + 512, 12, 4);
    ZerosRead(file, little, at + 512, 12, 5);
  }

  lemma SpanIs(start: nat, count: nat)
    requires start < LIMIT && count < LIMIT
    ensures LinksSpan(start, count) == LinksIn(start, count)
  {
    if start + count >= LIMIT {
      assert (start + count) % LIMIT == start + count - LIMIT;
    }
  }

  lemma FourFits(little: bool, file: seq<byte>, at: nat)
    requires at + 4 <= |file|
    ensures FourIn(little, file, at) < LIMIT
  {
  }

  /** What a record says of its file, but for the links. */
  predicate RecordIn(r: Record, file: seq<byte>, little: bool, p: nat, block: nat, at: nat) {
    && at + 0x230 <= |file| && NameIn(file, at, 0x200, r.name) && ZeroWords(file, at + 0x214, 7)
    && r.field200 == FourIn(little, file, at + 0x200)
    && DataIn(r.data, file, p, block, FourIn(little, file, at + 0x204), FourIn(little, file, at + 0x208))
    && r.linkStart == FourIn(little, file, at + 0x20c) && r.linkCount == LinksIn(FourIn(little, file, at + 0x20c), FourIn(little, file, at + 0x210))
  }

  /** The data of a record, or none if it leads outside. */
  function DataAt(file: seq<byte>, p: nat, block: nat, offset: nat, size: nat): Option<seq<byte>> {
    if offset <= block && (offset + size) % 0x1_0000_0000 <= block && (p + offset) % 0x1_0000_0000 + size <= |file|
    then Some(file[(p + offset) % 0x1_0000_0000..(p + offset) % 0x1_0000_0000 + size]) else None
  }

  lemma DataIs(data: seq<byte>, file: seq<byte>, p: nat, block: nat, offset: nat, size: nat)
    ensures DataIn(data, file, p, block, offset, size) <==> DataAt(file, p, block, offset, size) == Some(data)
  {
  }

  lemma RecordIs(file: seq<byte>, little: bool, p: Place, i: nat)
    requires p.offset + 0x230 * i + 0x230 <= |file|
    ensures var at := p.offset + 0x230 * i;
            var name, w, data := NameAt(file, at, 512), WordsAt(file, little, at + 512, 12), DataAt(file, p.offset, p.size, FourIn(little, file, at + 0x204), FourIn(little, file, at + 0x208));
            RecordAt(file, little, p, i) ==
              if name.Some? && ZeroWords(file, at + 0x214, 7) && data.Some?
              then Some(Record(name.value, w[0], data.value, w[3], LinksSpan(w[3], w[4]))) else None
  {
    hide WordsAt, FourIn, NameAt, ZeroWords, LinksSpan, EntryValid;
    EntryRead(file, little, p.offset + 0x230 * i, p.size);
  }

  lemma NoRecord(file: seq<byte>, little: bool, p: Place, i: nat)
    requires p.offset + 0x230 * i + 0x230 > |file|
    ensures RecordAt(file, little, p, i).None?
  {
  }

  lemma RecordRead(file: seq<byte>, little: bool, p: Place, i: nat, r: Record)
    ensures RecordAt(file, little, p, i) == Some(r) <==> RecordIn(r, file, little, p.offset, p.size, FilePlace(p.offset, i))
  {
    hide WordsAt, FourIn, NameAt, NameIn, ZeroWords, LinksSpan, LinksIn, EntryValid, RecordAt, DataIn, DataAt;
    var at := FilePlace(p.offset, i);
    if at + 0x230 > |file| {
      NoRecord(file, little, p, i);
    } else {
      RecordIs(file, little, p, i);
      EntryRead(file, little, at, p.size);
      NameRead(file, at, 512, r.name);
      DataIs(r.data, file, p.offset, p.size, FourIn(little, file, at + 0x204), FourIn(little, file, at + 0x208));
      FourFits(little, file, at + 0x20c);
      FourFits(little, file, at + 0x210);
      SpanIs(FourIn(little, file, at + 0x20c), FourIn(little, file, at + 0x210));
    }
  }

  lemma LinkRead(file: seq<byte>, little: bool, at: nat, k: nat, count: nat, link: nat)
    ensures LinkAt(file, little, at, k, count) == Some(link) <==> LinkIn(link, k, file, little, at, count)
  {
    hide WordsAt, FourIn, ZeroWords;
    if at + 32 <= |file| {
      var w := WordsAt(file, little, at, 8);
      WordRead(file, little, at, 8, 0);
      ZeroFour(little, file, at);
      WordRead(file, little, at, 8, 1);
      WordRead(file, little, at, 8, 2);
      ZerosRead(file, little, at, 8, 3);
      assert (forall i {:trigger w[i]} :: 3 <= i < 8 ==> w[i] == 0) <==> w[3] == 0 && w[4] == 0 && w[5] == 0 && w[6] == 0 && w[7] == 0;
    }
  }

  lemma {:induction false} LinksRead(file: seq<byte>, little: bool, at: nat, base: nat, n: nat, count: nat, links: seq<nat>)
    requires |links| == n
    ensures LinksAt(file, little, at, base, n, count) == Some(links) <==>
              forall k {:trigger links[k]} :: 0 <= k < n ==> LinkIn(links[k], k, file, little, at + 0x20 * (base + k), count)
  {
    hide LinkAt, LinkIn;
    if n > 0 {
      var front, last := links[..n - 1], links[n - 1];
      LinksRead(file, little, at, base, n - 1, count, front);
      LinkRead(file, little, at + 32 * (base + n - 1), n - 1, count, last);
      assert front + [last] == links;
      if LinksAt(file, little, at, base, n, count) == Some(links) {
        var rest := LinksAt(file, little, at, base, n - 1, count).value;
        assert links[..n - 1] == rest && links[n - 1] == LinkAt(file, little, at + 32 * (base + n - 1), n - 1, count).value;
        assert forall k :: 0 <= k < n - 1 ==> front[k] == links[k];
      }
      if forall k {:trigger links[k]} :: 0 <= k < n ==> LinkIn(links[k], k, file, little, at + 0x20 * (base + k), count) {
        assert forall k :: 0 <= k < n - 1 ==> front[k] == links[k];
      }
    }
  }

  lemma FileRead(file: seq<byte>, little: bool, p: Place, i: nat, links: Option<Place>, f: File)
    ensures FileAt(file, little, p, i, links) == Some(f) <==>
              FileIn(f, file, little, p.offset, p.size, FilePlace(p.offset, i), if links.None? then None else Some(links.value.offset), p.count)
  {
    hide FourIn, ZeroWords, LinksIn, LinkIn, RecordAt, DataIn, NameIn;
    var at := FilePlace(p.offset, i);
    var o := RecordAt(file, little, p, i);
    if o.Some? {
      RecordRead(file, little, p, i, o.value);
      if |f.links| == o.value.linkCount {
        LinksRead(file, little, if links.Some? then links.value.offset else 0, o.value.linkStart, o.value.linkCount, p.count, f.links);
      }
      RecordRead(file, little, p, i, Record(f.name, f.field200, f.data, o.value.linkStart, o.value.linkCount));
    } else if at + 0x230 <= |file| {
      RecordRead(file, little, p, i, Record(f.name, f.field200, f.data, FourIn(little, file, at + 0x20c), LinksIn(FourIn(little, file, at + 0x20c), FourIn(little, file, at + 0x210))));
    }
  }

  lemma NamesMore(files: seq<File>, f: File)
    ensures DistinctNames(files + [f]) <==> DistinctNames(files) && !Named(files, f.name)
  {
    var all := files + [f];
    if DistinctNames(all) {
      forall i | 0 <= i < |files|
        ensures files[i].name != f.name
      {
        assert all[i].name != all[|files|].name;
      }
      assert forall i, j {:trigger files[i], files[j]} :: 0 <= i < j < |files| ==> all[i].name != all[j].name;
    }
  }

  lemma {:induction false} FilesRead(file: seq<byte>, little: bool, p: Place, n: nat, links: Option<Place>, files: seq<File>)
    requires |files| == n
    ensures FilesAt(file, little, p, n, links) == Some(files) <==>
              DistinctNames(files) && FilesIn(files, file, little, p.offset, p.size, if links.None? then None else Some(links.value.offset), p.count)
  {
    hide FileAt, FileIn, Named, DistinctNames;
    if n > 0 {
      var front, last := files[..n - 1], files[n - 1];
      var table := if links.None? then None else Some(links.value.offset);
      assert front + [last] == files;
      FilesRead(file, little, p, n - 1, links, front);
      FileRead(file, little, p, n - 1, links, last);
      NamesMore(front, last);
      FilesMore(front, last, file, little, p.offset, p.size, table, p.count);
      var rest, f := FilesAt(file, little, p, n - 1, links), FileAt(file, little, p, n - 1, links);
      if FilesAt(file, little, p, n, links) == Some(files) {
        assert front == rest.value && last == f.value;
      }
    } else {
      NoNames();
    }
  }

  lemma NoNames()
    ensures DistinctNames([])
  {
  }

  lemma FilesMore(files: seq<File>, f: File, file: seq<byte>, little: bool, p: nat, block: nat, links: Option<nat>, count: nat)
    ensures FilesIn(files + [f], file, little, p, block, links, count) <==>
              FilesIn(files, file, little, p, block, links, count) && FileIn(f, file, little, p, block, FilePlace(p, |files|), links, count)
  {
    hide FileIn;
    var all := files + [f];
    assert all[|files|] == f;
    assert forall i :: 0 <= i < |files| ==> all[i] == files[i];
  }

  lemma HeaderRead(file: seq<byte>)
    requires |file| >= 24
    ensures var little := file[3] == 0x4c; var w := WordsAt(file, little, 4, 5);
            && (HeaderIn(file) <==> file[..3] == [67, 76, 51] && (file[3] == 76 || file[3] == 66) && w[0] == 0 && w[1] == 3 && w[3] + 80 * w[2] <= |file|)
            && w[2] == FourIn(little, file, 0xc) && w[3] == FourIn(little, file, 0x10) && w[4] == FourIn(little, file, 0x14)
  {
    hide WordsAt, FourIn, ZeroWords;
    var little := file[3] == 0x4c;
    assert file[..3] == [file[0], file[1], file[2]];
    WordRead(file, little, 4, 5, 0);
    ZeroFour(little, file, 4);
    WordRead(file, little, 4, 5, 1);
    WordRead(file, little, 4, 5, 2);
    WordRead(file, little, 4, 5, 3);
    WordRead(file, little, 4, 5, 4);
  }

  /** What is read of a file with a good header and good sections. */
  lemma ParsedBy(file: seq<byte>)
    requires |file| >= 24
    ensures var little, count, at := file[3] == 0x4c, FourIn(file[3] == 0x4c, file, 0xc), FourIn(file[3] == 0x4c, file, 0x10);
            Parsed(file) ==
              if !HeaderIn(file) || SectionsAt(file, little, at, count).None? then None
              else
                var s := SectionsAt(file, little, at, count).value;
                if s.files.None? then Some(Archive(little, FourIn(little, file, 0x14), []))
                else
                  var fs := FilesAt(file, little, s.files.value, s.files.value.count, s.links);
                  if fs.None? then None else Some(Archive(little, FourIn(little, file, 0x14), fs.value))
  {
    hide WordsAt, FourIn, SectionsAt, FilesAt, HeaderIn;
    HeaderRead(file);
  }

  /** A file is read as an archive exactly if its bytes say that archive. */
  lemma ParsedExactly(file: seq<byte>, a: Archive)
    ensures Parsed(file) == Some(a) <==> ArchiveIn(a, file)
  {
    hide Parsed, FourIn, SectionsAt, FilesAt, AllSections, LastNamed, FilesIn, DistinctNames, HeaderIn, Collected;
    if |file| < 24 {
      TooShort(file);
    } else {
      ParsedBy(file);
      if HeaderIn(file) {
        SectionsRead(file, file[3] == 0x4c, FourIn(file[3] == 0x4c, file, 0x10), FourIn(file[3] == 0x4c, file, 0xc));
        CollectedRead(file, file[3] == 0x4c, FourIn(file[3] == 0x4c, file, 0x10), FourIn(file[3] == 0x4c, file, 0xc), a.files);
      }
    }
  }

  lemma TooShort(file: seq<byte>)
    ensures HeaderIn(file) ==> |file| >= 24
    ensures |file| < 24 ==> Parsed(file).None?
  {
  }

  /** The files of sections that are good. */
  lemma CollectedRead(file: seq<byte>, little: bool, at: nat, count: nat, files: seq<File>)
    ensures AllSections(file, little, at, count) ==>
              var c, t := LastNamed(file, at, count, "FILE_COLLECTION"), LastNamed(file, at, count, "FILE_LINK");
              (c.Some? ==> c.value + 0x50 <= |file|) && (t.Some? ==> t.value + 0x50 <= |file|) && SectionsAt(file, little, at, count).Some? &&
              var s := SectionsAt(file, little, at, count).value;
              if s.files.None? then Collected(files, file, little, c, t) <==> files == []
              else Collected(files, file, little, c, t) <==> FilesAt(file, little, s.files.value, s.files.value.count, s.links) == Some(files)
  {
    hide FourIn, SectionsAt, FilesAt, AllSections, LastNamed, FilesIn, DistinctNames;
    SectionsRead(file, little, at, count);
    if AllSections(file, little, at, count) {
      var s := SectionsAt(file, little, at, count).value;
      if s.files.Some? {
        FilesRead(file, little, s.files.value, |files|, s.links, files);
      }
    }
  }

  // ---- an archive

  function Letter(s: string, k: nat): byte
    requires k < |s|
  {
    (s[k] as int) % 0x100
  }

  /** The bytes of an archive of two files that link to each other. */
  function ExampleByte(k: nat): byte {
    if k < 4 then Letter("CL3L", k)
    else if 0x40 <= k < 0x4f then Letter("FILE_COLLECTION", k - 0x40)
    else if 0x90 <= k < 0x99 then Letter("FILE_LINK", k - 0x90)
    else if 0x100 <= k < 0x105 then Letter("a.bin", k - 0x100)
    else if 0x330 <= k < 0x335 then Letter("b.bin", k - 0x330)
    else
      match k
      // three, two sections at 0x40, and a word of the header
      case 0x08 => 3 case 0x0c => 2 case 0x10 => 0x40 case 0x14 => 7
      // two files, 0x500 bytes from 0x100 on
      case 0x60 => 2 case 0x65 => 5 case 0x69 => 1
      // two links, 0x40 bytes from 0x600 on
      case 0xb0 => 2 case 0xb4 => 0x40 case 0xb9 => 6
      // two bytes at 0x580, one link from the first record on
      case 0x300 => 9 case 0x304 => 0x80 case 0x305 => 4 case 0x308 => 2 case 0x310 => 1
      // one byte at 0x5c0, one link from the second record on
      case 0x534 => 0xc0 case 0x535 => 4 case 0x538 => 1 case 0x53c => 1 case 0x540 => 1
      case 0x580 => 0x48 case 0x581 => 0x69 case 0x5c0 => 0x21
      // the first link leads to the second file, the second to the first
      case 0x604 => 1
      case _ => 0
  }

  function Example(): (r: seq<byte>)
    ensures |r| == 0x640 && forall k {:trigger r[k]} :: 0 <= k < |r| ==> r[k] == ExampleByte(k)
  {
    seq(0x640, k requires k >= 0 => ExampleByte(k))
  }

  function ExampleFiles(): seq<File> {
    [File([0x61, 0x2e, 0x62, 0x69, 0x6e], 9, [0x48, 0x69], [1]), File([0x62, 0x2e, 0x62, 0x69, 0x6e], 0, [0x21], [0])]
  }

  lemma ExampleFour(at: nat, v: nat)
    requires at + 4 <= 0x640 && ExampleByte(at) as nat + 0x100 * ExampleByte(at + 1) as nat == v && ExampleByte(at + 2) == 0 && ExampleByte(at + 3) == 0
    ensures FourIn(true, Example(), at) == v
  {
    hide Example, ExampleByte;
  }

  lemma ExampleWords()
    ensures var f := Example();
            && FourIn(true, f, 0x8) == 3 && FourIn(true, f, 0xc) == 2 && FourIn(true, f, 0x10) == 0x40 && FourIn(true, f, 0x14) == 7
            && FourIn(true, f, 0x60) == 2 && FourIn(true, f, 0x64) == 0x500 && FourIn(true, f, 0x68) == 0x100
            && FourIn(true, f, 0xb0) == 2 && FourIn(true, f, 0xb4) == 0x40 && FourIn(true, f, 0xb8) == 0x600
  {
    hide Example, FourIn;
    ExampleFour(0x8, 3);
    ExampleFour(0xc, 2);
    ExampleFour(0x10, 0x40);
    ExampleFour(0x14, 7);
    ExampleFour(0x60, 2);
    ExampleFour(0x64, 0x500);
    ExampleFour(0x68, 0x100);
    ExampleFour(0xb0, 2);
    ExampleFour(0xb4, 0x40);
    ExampleFour(0xb8, 0x600);
  }

  lemma ExampleRecords()
    ensures var f := Example();
            && FourIn(true, f, 0x300) == 9 && FourIn(true, f, 0x304) == 0x480 && FourIn(true, f, 0x308) == 2 && FourIn(true, f, 0x30c) == 0 && FourIn(true, f, 0x310) == 1
            && FourIn(true, f, 0x530) == 0 && FourIn(true, f, 0x534) == 0x4c0 && FourIn(true, f, 0x538) == 1 && FourIn(true, f, 0x53c) == 1 && FourIn(true, f, 0x540) == 1
            && FourIn(true, f, 0x604) == 1 && FourIn(true, f, 0x608) == 0 && FourIn(true, f, 0x624) == 0 && FourIn(true, f, 0x628) == 0
  {
    hide Example, FourIn;
    ExampleFour(0x300, 9);
    ExampleFour(0x304, 0x480);
    ExampleFour(0x308, 2);
    ExampleFour(0x30c, 0);
    ExampleFour(0x310, 1);
    ExampleFour(0x530, 0);
    ExampleFour(0x534, 0x4c0);
    ExampleFour(0x538, 1);
    ExampleFour(0x53c, 1);
    ExampleFour(0x540, 1);
    ExampleFour(0x604, 1);
    ExampleFour(0x608, 0);
    ExampleFour(0x624, 0);
    ExampleFour(0x628, 0);
  }

  predicate NoByte(at: nat, end: nat) {
    forall k {:trigger ExampleByte(k)} :: at <= k < end ==> ExampleByte(k) == 0
  }

  lemma ExampleZeros(at: nat, n: nat)
    requires NoByte(at, at + 4 * n) && at + 4 * n <= 0x640
    ensures ZeroWords(Example(), at, n)
  {
    hide Example, ExampleByte;
  }

  lemma NoBytes()
    ensures NoByte(4, 8) && NoByte(0x6c, 0x90) && NoByte(0xbc, 0xe0) && NoByte(0x314, 0x330) && NoByte(0x544, 0x560)
  {
  }

  lemma NoLinkBytes()
    ensures NoByte(0x600, 0x604) && NoByte(0x60c, 0x620) && NoByte(0x620, 0x624) && NoByte(0x62c, 0x640)
  {
  }

  lemma ExampleNames()
    ensures NamedLike(Example(), 0x40, 32, "FILE_COLLECTION") && NamedLike(Example(), 0x90, 32, "FILE_LINK")
    ensures !NamedLike(Example(), 0x40, 32, "FILE_LINK") && !NamedLike(Example(), 0x90, 32, "FILE_COLLECTION")
    ensures NameEnds(Example(), 0x40, 32) && NameEnds(Example(), 0x90, 32)
  {
    hide Example;
    var file := Example();
    assert file[0x4f] == 0 && file[0x99] == 0;
    assert "FILE_LINK"[5] != "FILE_COLLECTION"[5];
    assert file[0x40 + 5] == 0x43 && file[0x90 + 5] == 0x4c;
  }

  lemma ExampleSections()
    ensures HeaderIn(Example()) && FourIn(true, Example(), 0xc) == 2 && FourIn(true, Example(), 0x10) == 0x40 && FourIn(true, Example(), 0x14) == 7
    ensures AllSections(Example(), true, 0x40, 2)
    ensures LastNamed(Example(), 0x40, 2, "FILE_COLLECTION") == Some(0x40) && LastNamed(Example(), 0x40, 2, "FILE_LINK") == Some(0x90)
  {
    hide Example, FourIn, ZeroWords, NoByte, NamedLike, NameEnds;
    var file := Example();
    ExampleWords();
    ExampleNames();
    NoBytes();
    ExampleZeros(4, 1);
    ExampleZeros(0x6c, 9);
    ExampleZeros(0xbc, 9);
    assert file[0] == 0x43 && file[1] == 0x4c && file[2] == 0x33 && file[3] == 0x4c;
    assert SectionIn(file, true, 0x40) && SectionIn(file, true, 0x90);
    assert SectionPlace(0x40, 0) == 0x40 && SectionPlace(0x40, 1) == 0x90;
  }

  lemma ExampleWindows()
    ensures var f := Example();
            && f[0x100..0x105] == [0x61, 0x2e, 0x62, 0x69, 0x6e] && f[0x105] == 0 && f[0x330..0x335] == [0x62, 0x2e, 0x62, 0x69, 0x6e] && f[0x335] == 0
            && f[0x580..0x582] == [0x48, 0x69] && f[0x5c0..0x5c1] == [0x21]
  {
    hide Example;
  }

  lemma FirstFile()
    ensures FileIn(ExampleFiles()[0], Example(), true, 0x100, 0x500, 0x100, Some(0x600), 2)
  {
    hide Example, FourIn, ZeroWords, NoByte, ExampleByte;
    ExampleRecords();
    ExampleWindows();
    NoBytes();
    NoLinkBytes();
    ExampleZeros(0x314, 7);
    ExampleZeros(0x600, 1);
    ExampleZeros(0x60c, 5);
    assert LinkIn(1, 0, Example(), true, 0x600, 2);
    assert NameIn(Example(), 0x100, 0x200, [0x61, 0x2e, 0x62, 0x69, 0x6e]);
    assert DataIn([0x48, 0x69], Example(), 0x100, 0x500, 0x480, 2);
  }

  lemma SecondFile()
    ensures FileIn(ExampleFiles()[1], Example(), true, 0x100, 0x500, 0x330, Some(0x600), 2)
  {
    hide Example, FourIn, ZeroWords, NoByte, ExampleByte;
    ExampleRecords();
    ExampleWindows();
    NoBytes();
    NoLinkBytes();
    ExampleZeros(0x544, 7);
    ExampleZeros(0x620, 1);
    ExampleZeros(0x62c, 5);
    assert LinkIn(0, 0, Example(), true, 0x620, 2);
    assert NameIn(Example(), 0x330, 0x200, [0x62, 0x2e, 0x62, 0x69, 0x6e]);
    assert DataIn([0x21], Example(), 0x100, 0x500, 0x4c0, 1);
  }

  /** That archive is read. */
  lemma ExampleRead()
    ensures Parsed(Example()) == Some(Archive(true, 7, ExampleFiles()))
  {
    hide Example, Parsed, FileIn, LastNamed, AllSections, HeaderIn, FourIn;
    var file := Example();
    ExampleSections();
    FirstFile();
    SecondFile();
    ExampleWords();
    assert file[3] == 0x4c && FilePlace(0x100, 0) == 0x100 && FilePlace(0x100, 1) == 0x330;
    ParsedExactly(file, Archive(true, 7, ExampleFiles()));
  }
}
