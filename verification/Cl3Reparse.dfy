/** Reading back what was written: a CL3 archive survives a dump and a parse. */
module Cl3Reparse {
  import opened Bytes
  import opened Words
  import opened Cl3Files
  import F = Cl3Format

  /** Five parts of a file, each where the ones before it end. */
  lemma {:induction false} FiveParts(a: seq<byte>, b: seq<byte>, c: seq<byte>, d: seq<byte>, e: seq<byte>, f: seq<byte>)
    requires f == a + b + c + d + e
    ensures f[..|a|] == a
    ensures f[|a|..|a| + |b|] == b
    ensures f[|a| + |b|..|a| + |b| + |c|] == c
    ensures f[|a| + |b| + |c|..|a| + |b| + |c| + |d|] == d
    ensures f[|a| + |b| + |c| + |d|..] == e
  {
    assert f == (a + b) + c + (d + e);
    MiddleSlice(a + b, c, d + e, 0, |c|);
    assert f == (a + b + c) + d + e;
    MiddleSlice(a + b + c, d, e, 0, |d|);
    assert f == a + b + (c + d + e);
    MiddleSlice(a, b, c + d + e, 0, |b|);
  }

  /** The parts of a dump are where the sections say, and the whole has the announced size. */
  lemma {:induction false} DumpLayout(a: Archive)
    requires NamesFit(a.files)
    ensures |Dumped(a)| == GetSize(a.files) >= FILES_OFFSET
    ensures Dumped(a)[..24] == HeaderBytes(a)
    ensures Dumped(a)[64..64 + 160] == SectionsBytes(a)
    ensures FILES_OFFSET + 0x230 * |a.files| <= DataOffset(|a.files|) <= LinkOffset(a.files) <= GetSize(a.files)
    ensures var t := Concat(EntryParts(a.little, a.files)); |t| == 0x230 * |a.files| && Dumped(a)[FILES_OFFSET..FILES_OFFSET + |t|] == t
    ensures Dumped(a)[DataOffset(|a.files|)..LinkOffset(a.files)] == DataBytes(a.files)
    ensures Dumped(a)[LinkOffset(a.files)..] == Concat(AllLinkParts(a.little, a.files))
  {
    hide HeaderBytes, SectionsBytes, Concat, EntryParts, AllLinkParts, DataBytes, DataSize, LinkCount, Padded;
    ConcatLength(EntryParts(a.little, a.files), 0x230);
    ConcatLength(AllLinkParts(a.little, a.files), 32);
    var t := Concat(EntryParts(a.little, a.files));
    AlignFrom(FILES_OFFSET, |t|);
    var p, q, r := Padded(HeaderBytes(a)), Padded(SectionsBytes(a)), Padded(t);
    assert |p| == 64 && |q| == 192;
    var f := Dumped(a);
    FiveParts(p, q, r, DataBytes(a.files), Concat(AllLinkParts(a.little, a.files)), f);
    hide Dumped;
    FrontOf(f, 0, p, 24);
    FrontOf(f, 64, q, 160);
    FrontOf(f, FILES_OFFSET, r, |t|);
  }

  lemma {:induction false} FrontOf(f: seq<byte>, at: nat, p: seq<byte>, n: nat)
    requires at + |p| <= |f| && f[at..at + |p|] == p && n <= |p|
    ensures f[at..at + n] == p[..n]
  {
    WindowOf(f, at, p, 0, n);
  }

  // ---- header and sections

  lemma {:induction false} HeaderBack(a: Archive)
    requires WellFormed(a)
    ensures |Dumped(a)| >= 24 && Dumped(a)[..3] == [67, 76, 51] && Dumped(a)[3] == (if a.little then 76 else 66)
    ensures WordsAt(Dumped(a), a.little, 4, 5) == HeaderWords(a)
  {
    hide WordsAt, WordBytes, Dumped, LinkOffset, GetSize, DataOffset, SectionsBytes, EntryParts, AllLinkParts, DataBytes, Concat, NamesFit, DistinctNames;
    DumpLayout(a);
    var f, h := Dumped(a), HeaderBytes(a);
    assert f[0..24] == h;
    WindowOf(f, 0, h, 4, 24);
    assert h[4..24] == WordBytes(a.little, HeaderWords(a));
    assert f[..3] == h[..3] && f[3] == h[3];
    WordsAtBack(f, a.little, 4, HeaderWords(a));
  }

  lemma {:induction false} SectionBack(file: seq<byte>, little: bool, at: nat, name: seq<byte>, count: nat, size: nat, offset: nat)
    requires |name| < 32 && 0 !in name && count < LIMIT && size < LIMIT && offset < LIMIT
    requires at + 80 <= |file| && file[at..at + 80] == SectionBytes(little, name, count, size, offset)
    ensures NameAt(file, at, 32) == Some(name) && WordsAt(file, little, at + 32, 12) == SectionWords(count, size, offset)
  {
    hide WordsAt, NameAt, NamedBytes;
    NamedBack(file, little, at, name, 32, SectionWords(count, size, offset));
  }

  lemma {:induction false} SectionSlices(a: Archive)
    requires WellFormed(a)
    ensures var f, l := Dumped(a), LinkCount(a.files);
            && |f| == GetSize(a.files) >= 224 && GetSize(a.files) == LinkOffset(a.files) + 32 * l < LIMIT
            && f[64..144] == SectionBytes(a.little, FileCollection(), |a.files|, LinkOffset(a.files) - FILES_OFFSET, FILES_OFFSET)
            && f[144..224] == SectionBytes(true, FileLink(), l, 32 * l, LinkOffset(a.files))
            && FILES_OFFSET + 0x230 * |a.files| <= LinkOffset(a.files)
  {
    hide Dumped, SectionBytes, DataSize, LinkCount, NamesFit, DistinctNames, DataOffset, HeaderBytes, EntryParts, AllLinkParts, DataBytes, Concat;
    DumpLayout(a);
    var l := LinkCount(a.files);
    SplitSlice(Dumped(a), 64, SectionBytes(a.little, FileCollection(), |a.files|, LinkOffset(a.files) - FILES_OFFSET, FILES_OFFSET),
               SectionBytes(true, FileLink(), l, 32 * l, LinkOffset(a.files)));
  }

  lemma {:induction false} FirstSection(f: seq<byte>, little: bool, at: nat, s: Scan, count: nat, size: nat, offset: nat)
    requires at + 80 <= |f| && NameAt(f, at, 32) == Some(FileCollection()) && WordsAt(f, little, at + 32, 12) == SectionWords(count, size, offset)
    requires offset + size <= |f| && offset + size < LIMIT
    ensures SectionAt(f, little, at, s) == Some(s.(files := Some(Place(offset, count, size))))
  {
    hide WordsAt, NameAt;
  }

  /** The second section is accepted if its numbers, as they are seen, make a section. */
  lemma {:induction false} SecondSection(f: seq<byte>, little: bool, at: nat, s: Scan, w: seq<nat>)
    requires at + 80 <= |f| && NameAt(f, at, 32) == Some(FileLink()) && |w| == 12 && WordsAt(f, little, at + 32, 12) == w
    requires forall i {:trigger w[i]} :: 3 <= i < 12 ==> w[i] == 0
    ensures SectionAt(f, little, at, s) ==
              if w[2] <= |f| && (w[2] + w[1]) % LIMIT <= |f| && w[1] == 32 * w[0] then Some(s.(links := Some(Place(w[2], w[0], w[1])))) else None
  {
    hide WordsAt, NameAt;
    assert FileLink()[5] != FileCollection()[5];
  }

  /** A number of the second section as a reader in the order of the archive sees it. */
  function SeenWord(little: bool, v: nat): nat { Dec(little, Enc(true, 4, v)) }

  lemma {:induction false} SeenWords(little: bool, ws: seq<nat>, b: seq<byte>)
    requires Word32s(ws) && b == WordBytes(true, ws)
    ensures forall i {:trigger ws[i]} :: 0 <= i < |ws| ==> WordsAt(b, little, 0, |ws|)[i] == SeenWord(little, ws[i])
  {
    hide Enc, Dec;
    if ws != [] {
      var n := |ws| - 1;
      var init := WordBytes(true, ws[..n]);
      assert Fours(n + 1)[..n] == Fours(n);
      assert b == init + Enc(true, 4, ws[n]);
      SeenWords(little, ws[..n], init);
      FoursSum(n);
      FoursSum(n + 1);
      assert b[0..4 * (n + 1)] == b;
      DecWordsPrefix(little, Fours(n), b, init);
      assert init[0..4 * n] == init;
    }
  }

  lemma {:induction false} DecWordsPrefix(little: bool, ws: seq<nat>, b: seq<byte>, init: seq<byte>)
    requires Sum(ws) <= |init| && init <= b
    ensures DecWords(little, ws, b) == DecWords(little, ws, init)
  {
    hide Dec;
    if ws != [] {
      var n := |ws| - 1;
      DecWordsPrefix(little, ws[..n], b, init);
      assert b[Sum(ws[..n])..Sum(ws[..n]) + ws[n]] == init[Sum(ws[..n])..Sum(ws[..n]) + ws[n]];
    }
  }

  lemma {:induction false} SeenSection(file: seq<byte>, little: bool, at: nat, name: seq<byte>, ws: seq<nat>)
    requires |name| < 32 && 0 !in name && Word32s(ws) && |ws| == 12
    requires at + 80 <= |file| && file[at..at + 80] == NamedBytes(true, name, 32, ws)
    ensures NameAt(file, at, 32) == Some(name)
    ensures forall i {:trigger ws[i]} :: 0 <= i < 12 ==> WordsAt(file, little, at + 32, 12)[i] == SeenWord(little, ws[i])
  {
    hide WordBytes, SeenWord, CStringIn, DecWords;
    NamedBack(file, true, at, name, 32, ws);
    SplitSlice(file, at, NameBytes(name, 32), WordBytes(true, ws));
    SeenWords(little, ws, WordBytes(true, ws));
    var b := WordBytes(true, ws);
    assert b[0..48] == b;
  }

  lemma {:induction false} SeenZero(little: bool)
    ensures SeenWord(little, 0) == 0
  {
    Le4(0, 0, 0, 0);
    De4(0, 0, 0, 0);
    assert Rev<byte>([0, 0, 0, 0]) == [0, 0, 0, 0];
  }

  function FilesPlace(a: Archive): Place { Place(FILES_OFFSET, |a.files|, LinkOffset(a.files) - FILES_OFFSET) }

  /** Where the second section sends a reader. */
  function LinksPlace(a: Archive): Place {
    var n := LinkCount(a.files);
    Place(SeenWord(a.little, LinkOffset(a.files)), SeenWord(a.little, n), SeenWord(a.little, 32 * n))
  }

  predicate LinkSectionValid(a: Archive) {
    var p := LinksPlace(a);
    p.offset <= GetSize(a.files) && (p.offset + p.size) % LIMIT <= GetSize(a.files) && p.size == 32 * p.count
  }

  lemma {:induction false} SectionsBack(a: Archive)
    requires WellFormed(a)
    ensures SectionsAt(Dumped(a), a.little, 64, 2) == if LinkSectionValid(a) then Some(Scan(Some(FilesPlace(a)), Some(LinksPlace(a)))) else None
  {
    hide Dumped, WordsAt, NameAt, NamesFit, DistinctNames, LinkCount, LinkOffset, GetSize, SectionAt, SeenWord, NamedBytes;
    SectionSlices(a);
    var f, n, l, link := Dumped(a), |a.files|, LinkCount(a.files), LinkOffset(a.files);
    SectionBack(f, a.little, 64, FileCollection(), n, link - FILES_OFFSET, FILES_OFFSET);
    SeenSection(f, a.little, 144, FileLink(), SectionWords(l, 32 * l, link));
    SeenZero(a.little);
    var s0 := Scan(None, None);
    var s1 := s0.(files := Some(FilesPlace(a)));
    FirstSection(f, a.little, 64, s0, n, link - FILES_OFFSET, FILES_OFFSET);
    var ws, w := SectionWords(l, 32 * l, link), WordsAt(f, a.little, 176, 12);
    assert w[0] == SeenWord(a.little, ws[0]) && w[1] == SeenWord(a.little, ws[1]) && w[2] == SeenWord(a.little, ws[2]);
    assert forall i {:trigger w[i]} :: 3 <= i < 12 ==> ws[i] == 0;
    SecondSection(f, a.little, 144, s1, w);
    assert SectionsAt(f, a.little, 64, 0) == Some(s0);
    assert SectionsAt(f, a.little, 64, 1) == Some(s1);
  }

  // ---- files

  lemma {:induction false} SizesAscend(files: seq<File>, i: nat)
    requires i < |files|
    ensures DataSize(files[..i]) + |files[i].data| <= DataSize(files[..i + 1]) <= DataSize(files)
    ensures LinkCount(files[..i]) + |files[i].links| == LinkCount(files[..i + 1]) <= LinkCount(files)
    decreases |files|
  {
    assert files[..i + 1][..i] == files[..i];
    if i + 1 < |files| {
      var init := files[..|files| - 1];
      SizesAscend(init, i);
      assert init[..i] == files[..i] && init[..i + 1] == files[..i + 1];
    } else {
      assert files[..i + 1] == files;
    }
  }

  lemma DataOpen(files: seq<File>, n: nat)
    requires n + 1 == |files|
    ensures DataBytes(files) == DataBytes(files[..n]) + Padded(files[n].data) && |DataBytes(files)| == DataSize(files)
  {
    hide Padded, DataSize;
  }

  lemma PrefixOf(files: seq<File>, n: nat, i: nat)
    requires i <= n <= |files|
    ensures files[..n][..i] == files[..i]
  {
  }

  lemma Behind(head: seq<byte>, data: seq<byte>)
    ensures (head + Padded(data))[|head|..|head| + |data|] == data
  {
    MiddleSlice(head, Padded(data), [], 0, |data|);
    assert head + Padded(data) + [] == head + Padded(data);
  }

  /** The data of a file is where the sizes before it end. */
  lemma {:induction false} DataPlaced(files: seq<File>, i: nat)
    requires i < |files|
    ensures DataSize(files[..i]) + |files[i].data| <= |DataBytes(files)|
    ensures DataBytes(files)[DataSize(files[..i])..DataSize(files[..i]) + |files[i].data|] == files[i].data
    decreases |files|
  {
    hide Padded, DataSize, DataBytes;
    var n := |files| - 1;
    SizesAscend(files, i);
    DataOpen(files, n);
    if i < n {
      DataPlaced(files[..n], i);
      PrefixOf(files, n, i);
      InHead(DataBytes(files[..n]), Padded(files[n].data), DataSize(files[..i]), DataSize(files[..i]) + |files[i].data|);
    } else {
      Behind(DataBytes(files[..n]), files[n].data);
    }
  }

  lemma {:induction false} InHead(head: seq<byte>, last: seq<byte>, s: nat, e: nat)
    requires s <= e <= |head|
    ensures (head + last)[s..e] == head[s..e]
  {
  }

  lemma PartsOpen(little: bool, files: seq<File>, n: nat)
    requires n + 1 == |files|
    ensures AllLinkParts(little, files) == AllLinkParts(little, files[..n]) + LinkParts(little, files[n].links)
    ensures |AllLinkParts(little, files[..n])| == LinkCount(files[..n])
  {
    hide LinkParts, LinkCount;
  }

  /** The link records of a file are where the counts before it end. */
  lemma {:induction false} LinkPlaced(little: bool, files: seq<File>, i: nat, k: nat)
    requires i < |files| && k < |files[i].links|
    ensures LinkCount(files[..i]) + k < |AllLinkParts(little, files)|
    ensures AllLinkParts(little, files)[LinkCount(files[..i]) + k] == LinkBytes(little, files[i].links[k], k)
    decreases |files|
  {
    hide LinkBytes, LinkCount, AllLinkParts;
    var n := |files| - 1;
    PartsOpen(little, files, n);
    if i < n {
      LinkPlaced(little, files[..n], i, k);
      PrefixOf(files, n, i);
    }
  }

  lemma {:induction false} EntryFits(a: Archive, i: nat)
    requires WellFormed(a) && i < |a.files|
    ensures |a.files[i].name| < 512 && 0 !in a.files[i].name && Word32s(EntryWords(a.files, i))
    ensures FILES_OFFSET + DataStart(a.files, i) + |a.files[i].data| <= LinkOffset(a.files) < LIMIT
    ensures LinkCount(a.files[..i]) + |a.files[i].links| < LIMIT
  {
    hide DataSize, LinkCount, DistinctNames;
    SizesAscend(a.files, i);
  }

  lemma {:induction false} EntryAt(a: Archive, i: nat)
    requires WellFormed(a) && i < |a.files|
    ensures |Dumped(a)| == GetSize(a.files) && FILES_OFFSET + 0x230 * i + 0x230 <= |Dumped(a)|
    ensures NameAt(Dumped(a), FILES_OFFSET + 0x230 * i, 512) == Some(a.files[i].name)
    ensures WordsAt(Dumped(a), a.little, FILES_OFFSET + 0x230 * i + 512, 12) == EntryWords(a.files, i)
  {
    hide Dumped, WordsAt, NameAt, DataSize, LinkCount, NamedBytes, DistinctNames, Concat, LinkOffset, GetSize, DataOffset, EntryWords, HeaderBytes, SectionsBytes;
    DumpLayout(a);
    var f, parts := Dumped(a), EntryParts(a.little, a.files);
    ConcatAt(parts, 0x230, i);
    var at := FILES_OFFSET + 0x230 * i;
    WindowOf(f, FILES_OFFSET, Concat(parts), i * 0x230, i * 0x230 + 0x230);
    EntryFits(a, i);
    NamedBack(f, a.little, at, a.files[i].name, 512, EntryWords(a.files, i));
  }

  lemma LinksLast(a: Archive)
    requires NamesFit(a.files)
    ensures LinkOffset(a.files) <= |Dumped(a)| && Dumped(a)[LinkOffset(a.files)..] == Concat(AllLinkParts(a.little, a.files))
  {
    hide Dumped, HeaderBytes, SectionsBytes, Concat, EntryParts, AllLinkParts, DataBytes, LinkOffset;
    DumpLayout(a);
  }

  /** One part of equal ones at the end of a file. */
  lemma PartAt(f: seq<byte>, at: nat, parts: seq<seq<byte>>, n: nat)
    requires at <= |f| && f[at..] == Concat(parts) && Even(parts, 32) && n < |parts|
    ensures at + 32 * n + 32 <= |f| && f[at + 32 * n..at + 32 * n + 32] == parts[n]
  {
    hide Concat, Even;
    ConcatAt(parts, 32, n);
    var c := f[at..];
    assert f[at + 32 * n..at + 32 * n + 32] == c[32 * n..32 * n + 32];
  }

  /** Where the record of a link is in the dump. */
  lemma LinkRecord(a: Archive, i: nat, k: nat)
    requires WellFormed(a) && i < |a.files| && k < |a.files[i].links|
    ensures var at := LinkOffset(a.files) + 32 * (LinkCount(a.files[..i]) + k);
            at + 32 <= |Dumped(a)| && Dumped(a)[at..at + 32] == LinkBytes(a.little, a.files[i].links[k], k)
  {
    hide Dumped, LinkBytes, LinkCount, NamesFit, DistinctNames, Concat, AllLinkParts, AllLinksInside, LinkOffset, GetSize, Even;
    LinksLast(a);
    LinkPlaced(a.little, a.files, i, k);
    PartAt(Dumped(a), LinkOffset(a.files), AllLinkParts(a.little, a.files), LinkCount(a.files[..i]) + k);
  }

  lemma LinkReads(f: seq<byte>, little: bool, at: nat, target: nat, id: nat, count: nat)
    requires at + 32 <= |f| && f[at..at + 32] == LinkBytes(little, target, id) && target < count < LIMIT && id < LIMIT
    ensures LinkAt(f, little, at, id, count) == Some(target)
  {
    hide WordsAt, WordBytes;
    WordsAtBack(f, little, at, [0, target, id, 0, 0, 0, 0, 0]);
  }

  lemma {:induction false} LinkBack(a: Archive, i: nat, k: nat)
    requires WellFormed(a) && i < |a.files| && k < |a.files[i].links|
    ensures LinkAt(Dumped(a), a.little, LinkOffset(a.files) + 32 * (LinkCount(a.files[..i]) + k), k, |a.files|) == Some(a.files[i].links[k])
  {
    hide Dumped, LinkBytes, LinkAt, DataSize, LinkCount, NamesFit, DistinctNames, DataOffset, LinkOffset, AllLinkParts, Concat;
    LinkRecord(a, i, k);
    LinkFits(a, i, k);
    LinkReads(Dumped(a), a.little, LinkOffset(a.files) + 32 * (LinkCount(a.files[..i]) + k), a.files[i].links[k], k, |a.files|);
  }

  lemma LinkFits(a: Archive, i: nat, k: nat)
    requires WellFormed(a) && i < |a.files| && k < |a.files[i].links|
    ensures a.files[i].links[k] < |a.files| < LIMIT && k < LIMIT
  {
    hide DataSize, LinkCount, NamesFit, DistinctNames, LinksInside;
    SizesAscend(a.files, i);
    assert LinksInside(a.files[i].links, |a.files|);
    LinkInside(a.files[i].links, k, |a.files|);
  }

  lemma LinkInside(links: seq<nat>, k: nat, n: nat)
    requires LinksInside(links, n) && k < |links|
    ensures links[k] < n
  {
  }

  /** The link table found at an offset is that of the archive. */
  predicate LinksMatch(a: Archive, at: nat)
    requires NamesFit(a.files)
  {
    forall i, k {:trigger a.files[i].links[k]} :: 0 <= i < |a.files| && 0 <= k < |a.files[i].links| ==>
      LinkAt(Dumped(a), a.little, at + 32 * (LinkCount(a.files[..i]) + k), k, |a.files|) == Some(a.files[i].links[k])
  }

  lemma {:induction false} LinksFound(a: Archive)
    requires WellFormed(a)
    ensures LinksMatch(a, LinkOffset(a.files))
  {
    hide LinkAt, Dumped, LinkCount, LinkOffset, GetSize, DistinctNames, NamesFit;
    forall i, k | 0 <= i < |a.files| && 0 <= k < |a.files[i].links|
      ensures LinkAt(Dumped(a), a.little, LinkOffset(a.files) + 32 * (LinkCount(a.files[..i]) + k), k, |a.files|) == Some(a.files[i].links[k])
    {
      LinkBack(a, i, k);
    }
  }

  predicate OwnLinksMatch(a: Archive, at: nat, i: nat, n: nat)
    requires NamesFit(a.files) && i < |a.files| && n <= |a.files[i].links|
  {
    forall k {:trigger a.files[i].links[k]} :: 0 <= k < n ==>
      LinkAt(Dumped(a), a.little, at + 32 * (LinkCount(a.files[..i]) + k), k, |a.files|) == Some(a.files[i].links[k])
  }

  lemma {:induction false} LinksBack(a: Archive, at: nat, i: nat, n: nat)
    requires WellFormed(a) && i < |a.files| && n <= |a.files[i].links|
    ensures LinksAt(Dumped(a), a.little, at, LinkCount(a.files[..i]), n, |a.files|) == Some(a.files[i].links[..n]) <==> OwnLinksMatch(a, at, i, n)
  {
    hide Dumped, LinkAt, LinkOffset, LinkCount, DistinctNames;
    if n > 0 {
      LinksBack(a, at, i, n - 1);
      var links := a.files[i].links;
      assert links[..n] == links[..n - 1] + [links[n - 1]];
      var last := LinkAt(Dumped(a), a.little, at + 32 * (LinkCount(a.files[..i]) + (n - 1)), n - 1, |a.files|);
      assert OwnLinksMatch(a, at, i, n) <==> (OwnLinksMatch(a, at, i, n - 1) && last == Some(links[n - 1]));
      var rest := LinksAt(Dumped(a), a.little, at, LinkCount(a.files[..i]), n - 1, |a.files|);
      hide OwnLinksMatch;
      if rest.Some? {
        LastOf(rest.value, links[..n - 1], links[n - 1]);
      }
    }
  }

  lemma LastOf(s: seq<nat>, t: seq<nat>, x: nat)
    requires |s| == |t|
    ensures forall y: nat {:trigger s + [y]} :: s + [y] == t + [x] <==> s == t && y == x
  {
    forall y: nat
      ensures s + [y] == t + [x] <==> s == t && y == x
    {
      if s + [y] == t + [x] {
        assert (s + [y])[..|s|] == s && (t + [x])[..|t|] == t;
        assert (s + [y])[|s|] == y && (t + [x])[|t|] == x;
      }
    }
  }

  lemma {:induction false} DataBack(a: Archive, i: nat)
    requires WellFormed(a) && i < |a.files|
    ensures var at := FILES_OFFSET + DataStart(a.files, i);
            at + |a.files[i].data| <= |Dumped(a)| && Dumped(a)[at..at + |a.files[i].data|] == a.files[i].data
  {
    hide Dumped, DataSize, LinkCount, NamesFit, DistinctNames, DataBytes, GetSize, HeaderBytes, SectionsBytes, Concat, EntryParts, AllLinkParts;
    DumpLayout(a);
    DataPlaced(a.files, i);
    var s := DataSize(a.files[..i]);
    WindowOf(Dumped(a), DataOffset(|a.files|), DataBytes(a.files), s, s + |a.files[i].data|);
  }

  /** A file is read back if and only if its links are. */
  lemma {:induction false} FileBack(a: Archive, i: nat, links: Place)
    requires WellFormed(a) && i < |a.files|
    ensures FileAt(Dumped(a), a.little, FilesPlace(a), i, Some(links)) == Some(a.files[i]) <==> OwnLinksMatch(a, links.offset, i, |a.files[i].links|)
    ensures FileAt(Dumped(a), a.little, FilesPlace(a), i, Some(links)).Some? ==>
              FileAt(Dumped(a), a.little, FilesPlace(a), i, Some(links)).value.name == a.files[i].name
  {
    hide Dumped, WordsAt, NameAt, DataSize, LinkCount, NamesFit, DistinctNames, LinksAt, LinkOffset, GetSize, DataStart, OwnLinksMatch;
    EntryAt(a, i);
    EntryFits(a, i);
    DataBack(a, i);
    LinksBack(a, links.offset, i, |a.files[i].links|);
    assert a.files[i].links[..|a.files[i].links|] == a.files[i].links;
    var f := a.files[i];
    assert LinksSpan(LinkCount(a.files[..i]), |f.links|) == |f.links|;
  }

  predicate FirstLinksMatch(a: Archive, at: nat, n: nat)
    requires NamesFit(a.files) && n <= |a.files|
  {
    forall i {:trigger a.files[i]} :: 0 <= i < n ==> OwnLinksMatch(a, at, i, |a.files[i].links|)
  }

  lemma FilesOpen(file: seq<byte>, little: bool, p: Place, n: nat, links: Place)
    requires n > 0
    ensures FilesAt(file, little, p, n, Some(links)) ==
              (var rest, own := FilesAt(file, little, p, n - 1, Some(links)), FileAt(file, little, p, n - 1, Some(links));
               if rest.None? || own.None? || Named(rest.value, own.value.name) then None else Some(rest.value + [own.value]))
  {
    hide FileAt, Named;
  }

  lemma NoFiles(file: seq<byte>, little: bool, p: Place, files: seq<File>, links: Place)
    ensures FilesAt(file, little, p, 0, Some(links)) == Some(files[..0])
  {
  }

  lemma FirstMore(a: Archive, at: nat, n: nat)
    requires NamesFit(a.files) && 0 < n <= |a.files|
    ensures FirstLinksMatch(a, at, n) <==> FirstLinksMatch(a, at, n - 1) && OwnLinksMatch(a, at, n - 1, |a.files[n - 1].links|)
  {
    hide OwnLinksMatch, NamesFit;
  }

  /** The same list with the same last element, or not. */
  lemma LastSame<T>(xs: seq<T>, x: T, ys: seq<T>, y: T)
    ensures xs + [x] == ys + [y] <==> xs == ys && x == y
  {
    if xs + [x] == ys + [y] {
      assert (xs + [x])[..|xs|] == xs && (ys + [y])[..|ys|] == ys && (xs + [x])[|xs|] == x && (ys + [y])[|ys|] == y;
    }
  }

  lemma NamesApart(files: seq<File>, n: nat)
    requires DistinctNames(files) && 0 < n <= |files|
    ensures !Named(files[..n - 1], files[n - 1].name) && files[..n] == files[..n - 1] + [files[n - 1]]
  {
  }

  lemma {:induction false} FilesBack(a: Archive, n: nat, links: Place)
    requires WellFormed(a) && n <= |a.files|
    ensures FilesAt(Dumped(a), a.little, FilesPlace(a), n, Some(links)) == Some(a.files[..n]) <==> FirstLinksMatch(a, links.offset, n)
  {
    hide Dumped, FileAt, FilesPlace, NamesFit, OwnLinksMatch, FilesAt, FirstLinksMatch, DistinctNames, Named, GetSize;
    if n > 0 {
      FilesBack(a, n - 1, links);
      FileBack(a, n - 1, links);
      FilesOpen(Dumped(a), a.little, FilesPlace(a), n, links);
      FirstMore(a, links.offset, n);
      NamesApart(a.files, n);
      var f := a.files[n - 1];
      var rest, own := FilesAt(Dumped(a), a.little, FilesPlace(a), n - 1, Some(links)), FileAt(Dumped(a), a.little, FilesPlace(a), n - 1, Some(links));
      if rest.Some? && own.Some? {
        LastSame(rest.value, own.value, a.files[..n - 1], f);
      }
    } else {
      NoFiles(Dumped(a), a.little, FilesPlace(a), a.files, links);
      NoneMatch(a, links.offset);
    }
  }

  lemma NoneMatch(a: Archive, at: nat)
    requires NamesFit(a.files)
    ensures FirstLinksMatch(a, at, 0)
  {
  }

  lemma {:induction false} AllLinksMatch(a: Archive, at: nat)
    requires NamesFit(a.files)
    ensures LinksMatch(a, at) <==> FirstLinksMatch(a, at, |a.files|)
  {
    hide LinkAt, Dumped, LinkCount;
    if FirstLinksMatch(a, at, |a.files|) {
      forall i, k | 0 <= i < |a.files| && 0 <= k < |a.files[i].links|
        ensures LinkAt(Dumped(a), a.little, at + 32 * (LinkCount(a.files[..i]) + k), k, |a.files|) == Some(a.files[i].links[k])
      {
        assert OwnLinksMatch(a, at, i, |a.files[i].links|);
      }
    }
  }

  /** The dump of an archive with distinct, fitting names and links inside the archive is read back as
      the same archive if and only if the FILE_LINK section, which is always written in little-endian
      order, passes the section checks when it is read in the order of the archive, and the link records
      it leads to are those of the archive. */
  lemma {:induction false} Reparsed(a: Archive)
    requires WellFormed(a)
    ensures Parsed(Dumped(a)) == Some(a) <==> LinkSectionValid(a) && LinksMatch(a, LinksPlace(a).offset)
  {
    hide Dumped, Parsed, FilesAt, LinkOffset, GetSize, NamesFit, DistinctNames, LinkCount, LinksMatch, FirstLinksMatch, LinksPlace, LinkSectionValid;
    ParsedIs(a);
    AllLinksMatch(a, LinksPlace(a).offset);
    FilesBack(a, |a.files|, LinksPlace(a));
    assert a.files[..|a.files|] == a.files;
  }

  lemma {:induction false} ParsedIs(a: Archive)
    requires WellFormed(a)
    ensures Parsed(Dumped(a)) ==
              if !LinkSectionValid(a) then None
              else
                var fs := FilesAt(Dumped(a), a.little, FilesPlace(a), |a.files|, Some(LinksPlace(a)));
                if fs.None? then None else Some(a.(files := fs.value))
  {
    hide Dumped, WordsAt, FilesAt, SectionsAt, LinkOffset, GetSize, NamesFit, DistinctNames, LinkCount, LinksPlace, LinkSectionValid;
    HeaderBack(a);
    SectionsBack(a);
    SectionSlices(a);
  }

  /** Every little-endian archive is read back. */
  lemma {:induction false} LittleReparsed(a: Archive)
    requires WellFormed(a) && a.little
    ensures Parsed(Dumped(a)) == Some(a)
  {
    hide Dumped, Parsed, LinksMatch, LinkCount, LinkOffset, NamesFit, DistinctNames;
    var n := LinkCount(a.files);
    Ranges();
    SectionSlices(a);
    DecEnc(true, 4, n);
    DecEnc(true, 4, 32 * n);
    DecEnc(true, 4, LinkOffset(a.files));
    LinksFound(a);
    Reparsed(a);
  }

  /** A big-endian archive without links is read back if and only if its link offset, with its bytes
      reversed, lies within the file. */
  lemma {:induction false} BigWithoutLinks(a: Archive)
    requires WellFormed(a) && !a.little && LinkCount(a.files) == 0
    ensures Parsed(Dumped(a)) == Some(a) <==> Dec(false, Enc(true, 4, LinkOffset(a.files))) <= GetSize(a.files)
  {
    hide Dumped, Parsed, NamesFit, DistinctNames, LinkOffset, GetSize, LinkAt;
    SeenZero(false);
    Reparsed(a);
    SectionSlices(a);
    forall i | 0 <= i < |a.files|
      ensures |a.files[i].links| == 0
    {
      SizesAscend(a.files, i);
    }
    var at := LinksPlace(a).offset;
    assert at < LIMIT;
    assert LinksMatch(a, at);
  }

  lemma {:induction false} Reversed256()
    ensures Dec(false, Enc(true, 4, 256)) == 65536
  {
    Le4(0, 1, 0, 0);
    De4(0, 0, 1, 0);
    assert Rev<byte>([0, 1, 0, 0]) == [0, 0, 1, 0];
  }

  /** The empty big-endian archive is not read back. */
  lemma {:induction false} EmptyBig() returns (a: Archive)
    ensures WellFormed(a) && !a.little && a.files == [] && Parsed(Dumped(a)) != Some(a)
  {
    hide Dumped, Parsed, Dec, Enc;
    a := Archive(false, 0, []);
    assert LinkOffset([]) == 256 && GetSize([]) == 256 by {
      assert DataOffset(0) == 256;
    }
    Reversed256();
    BigWithoutLinks(a);
  }

  /** Every file starts on a multiple of 64 and ends before the next one. */
  lemma {:induction false} RegionsApart(files: seq<File>, i: nat, j: nat)
    requires i < j <= |files|
    ensures (FILES_OFFSET + DataStart(files, i)) % 64 == 0
    ensures DataStart(files, i) + |files[i].data| <= DataStart(files, j)
    ensures FILES_OFFSET + DataStart(files, j) <= LinkOffset(files)
    decreases j - i
  {
    hide DataSize, Align, DataOffset;
    SizesAscend(files, i);
    if i + 1 < j {
      RegionsApart(files, i + 1, j);
    } else if j < |files| {
      SizesAscend(files, j);
    } else {
      assert files[..j] == files;
    }
  }

  /** What the dump of a little-endian archive says, byte by byte, is that archive and no other. */
  lemma DumpSays(a: Archive, b: Archive)
    requires WellFormed(a) && a.little
    ensures F.ArchiveIn(b, Dumped(a)) <==> b == a
  {
    hide Dumped, Parsed, F.ArchiveIn;
    LittleReparsed(a);
    F.ParsedExactly(Dumped(a), b);
  }
}
