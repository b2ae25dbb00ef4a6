/** A CL3 archive as objects: files with weak links to each other. */
module Cl3 {
  import opened Bytes
  import opened Words
  import opened Cl3Files
  import F = Cl3Format

  /** A file of an archive. A link is null once the file it pointed to is gone. */
  class Entry {
    const name: seq<byte>
    var field200: nat
    var src: Option<seq<byte>>
    var links: seq<Entry?>

    constructor (name: seq<byte>, field200: nat, src: Option<seq<byte>>)
      ensures this.name == name && this.field200 == field200 && this.src == src && links == []
    {
      this.name, this.field200, this.src, links := name, field200, src, [];
    }
  }

  /** The place of an entry, or the number of entries if it is not there. */
  function LinkIndex(entries: seq<Entry>, e: Entry?): (i: nat)
    ensures i <= |entries|
    ensures i < |entries| ==> entries[i] == e
    ensures forall k {:trigger entries[k]} :: 0 <= k < i ==> entries[k] != e
  {
    if entries == [] then 0 else if entries[0] == e then 0 else 1 + LinkIndex(entries[1..], e)
  }

  function LinkIndices(entries: seq<Entry>, links: seq<Entry?>): (r: seq<nat>)
    ensures |r| == |links| && forall k {:trigger r[k]} {:trigger links[k]} :: 0 <= k < |r| ==> r[k] == LinkIndex(entries, links[k])
  {
    seq(|links|, k requires 0 <= k < |links| => LinkIndex(entries, links[k]))
  }

  function DataOf(src: Option<seq<byte>>): seq<byte> {
    if src.Some? then src.value else []
  }

  /** An entry as a value; a missing source counts as empty. */
  function FileOf(entries: seq<Entry>, e: Entry): File
    reads e
  {
    File(e.name, e.field200, DataOf(e.src), LinkIndices(entries, e.links))
  }

  function FilesOf(entries: seq<Entry>, part: seq<Entry>): (r: seq<File>)
    reads part
    ensures |r| == |part| && forall i {:trigger r[i]} {:trigger part[i]} :: 0 <= i < |r| ==> r[i] == FileOf(entries, part[i])
  {
    if part == [] then [] else FilesOf(entries, part[..|part| - 1]) + [FileOf(entries, part[|part| - 1])]
  }

  lemma {:induction false} LinkCountNext(files: seq<File>, i: nat)
    requires i < |files|
    ensures LinkCount(files[..i + 1]) == LinkCount(files[..i]) + |files[i].links|
    ensures DataSize(files[..i + 1]) == Align(DataSize(files[..i]) + |files[i].data|)
  {
    assert files[..i + 1][..i] == files[..i];
  }

  lemma {:induction false} DataBytesNext(files: seq<File>, i: nat)
    requires i < |files|
    ensures DataBytes(files[..i + 1]) == DataBytes(files[..i]) + Padded(files[i].data)
  {
    hide DataSize, Padded, Align;
    assert files[..i + 1][..i] == files[..i];
  }

  lemma {:induction false} ConcatNext(parts: seq<seq<byte>>, n: nat)
    requires n < |parts|
    ensures Concat(parts[..n + 1]) == Concat(parts[..n]) + parts[n]
  {
    assert parts[..n + 1][..n] == parts[..n];
  }

  lemma {:induction false} ConcatTwo(a: seq<seq<byte>>, b: seq<seq<byte>>)
    ensures Concat(a + b) == Concat(a) + Concat(b)
  {
    if b == [] {
      assert a + b == a;
    } else {
      ConcatTwo(a, b[..|b| - 1]);
      assert (a + b)[..|a + b| - 1] == a + b[..|b| - 1];
    }
  }

  lemma {:induction false} LinkPartsNext(little: bool, files: seq<File>, i: nat)
    requires i < |files|
    ensures Concat(AllLinkParts(little, files[..i + 1])) == Concat(AllLinkParts(little, files[..i])) + Concat(LinkParts(little, files[i].links))
  {
    hide Concat, LinkCount, LinkParts;
    assert files[..i + 1][..i] == files[..i];
    ConcatTwo(AllLinkParts(little, files[..i]), LinkParts(little, files[i].links));
  }

  class Cl3 {
    var little: bool
    var field14: nat
    var entries: seq<Entry>
    var dataSize: nat
    var linkCount: nat

    constructor (little: bool)
      ensures this.little == little && field14 == 0 && entries == []
    {
      this.little, field14, entries, dataSize, linkCount := little, 0, [], 0, 0;
    }

    ghost function Contents(): Archive
      reads this, entries
    {
      Archive(little, field14, FilesOf(entries, entries))
    }

    /** The sizes of the last Fixup are those of the files. */
    ghost predicate Fixed()
      reads this, entries
    {
      dataSize == DataSize(Contents().files) && linkCount == LinkCount(Contents().files)
    }

    /** The sizes of a part of the archive. */
    static method Measure(entries: seq<Entry>) returns (size: nat, links: nat)
      ensures size == DataSize(FilesOf(entries, entries)) && links == LinkCount(FilesOf(entries, entries))
    {
      hide DataSize, LinkCount, Align, LinkIndices;
      size, links := 0, 0;
      ghost var files := FilesOf(entries, entries);
      NoFiles();
      assert files[..0] == [];
      for i := 0 to |entries|
        invariant size == DataSize(files[..i]) && links == LinkCount(files[..i])
      {
        LinkCountNext(files, i);
        var e := entries[i];
        assert files[i] == FileOf(entries, e);
        if e.src.Some? {
          size := size + |e.src.value|;
        }
        size := Align(size);
        links := links + |e.links|;
      }
      assert files[..|entries|] == files;
    }

    /** Brings the sizes up to date with the files and their links. */
    method Fixup()
      modifies this
      ensures Fixed() && Contents() == old(Contents()) && entries == old(entries)
    {
      hide DataSize, LinkCount, LinkIndices;
      dataSize, linkCount := Measure(entries);
    }

    method Size() returns (ret: nat)
      requires Fixed()
      ensures ret == GetSize(Contents().files)
    {
      hide DataSize, LinkCount;
      ret := Align(24);
      ret := Align(ret + 2 * 80);
      ret := Align(ret + 0x230 * |entries|);
      ret := ret + dataSize + 32 * linkCount;
    }

    /** The place of a linked file; none if the link is gone or leads out of the archive. */
    method IndexOf(ptr: Entry?) returns (r: Option<nat>)
      ensures r.Some? <==> LinkIndex(entries, ptr) < |entries|
      ensures r.Some? ==> ptr != null && r.value == LinkIndex(entries, ptr) && entries[r.value] == ptr
    {
      if ptr == null {
        return None;
      }
      for i := 0 to |entries|
        invariant forall k {:trigger entries[k]} :: 0 <= k < i ==> entries[k] != ptr
      {
        if entries[i] == ptr {
          return Some(i);
        }
      }
      r := None;
    }

    /** The file records: offsets and link numbers run on from record to record. */
    method DumpEntries() returns (out: seq<byte>)
      requires NamesFit(Contents().files)
      ensures out == Concat(EntryParts(little, Contents().files))
    {
      hide DataSize, LinkCount, Align, Concat, NamedBytes, DataOffset;
      ghost var files := Contents().files;
      ghost var parts := EntryParts(little, files);
      var offset, linkI := DataOffset(|entries|) - FILES_OFFSET, 0;
      out := [];
      NoFiles();
      assert files[..0] == [] && parts[..0] == [];
      for i := 0 to |entries|
        invariant offset == DataStart(files, i) && linkI == LinkCount(files[..i])
        invariant out == Concat(parts[..i])
      {
        var e := entries[i];
        assert files[i] == FileOf(entries, e);
        LinkCountNext(files, i);
        ConcatNext(parts, i);
        var size := if e.src.Some? then |e.src.value| else 0;
        out := out + NamedBytes(little, e.name, 512, [e.field200, offset, size, linkI, |e.links|, 0, 0, 0, 0, 0, 0, 0]);
        assert parts[i] == EntryBytes(little, files, i);
        OffsetNext(files, i);
        offset := Align(offset + size);
        linkI := linkI + |e.links|;
      }
      assert parts[..|entries|] == parts;
    }

    method DumpData() returns (out: seq<byte>)
      ensures out == DataBytes(Contents().files)
    {
      hide DataSize, Align, DataBytes, Padded;
      ghost var files := Contents().files;
      out := [];
      NoFiles();
      assert files[..0] == [];
      for i := 0 to |entries|
        invariant out == DataBytes(files[..i])
      {
        var e := entries[i];
        assert files[i] == FileOf(entries, e);
        DataBytesNext(files, i);
        EmptyPadded();
        if e.src.Some? {
          out := out + Padded(e.src.value);
        }
      }
      assert files[..|entries|] == files;
    }

    /** The links of one file; fails at one that leads nowhere. */
    method DumpOwnLinks(e: Entry) returns (out: Option<seq<byte>>)
      ensures out.Some? <==> LinksInside(LinkIndices(entries, e.links), |entries|)
      ensures out.Some? ==> out.value == Concat(LinkParts(little, LinkIndices(entries, e.links)))
    {
      hide Concat, LinkBytes;
      ghost var links := LinkIndices(entries, e.links);
      ghost var parts := LinkParts(little, links);
      var b: seq<byte> := [];
      EmptyConcat();
      assert parts[..0] == [];
      for i := 0 to |e.links|
        invariant b == Concat(parts[..i])
        invariant forall k {:trigger links[k]} :: 0 <= k < i ==> links[k] < |entries|
      {
        assert links[i] == LinkIndex(entries, e.links[i]);
        var id := IndexOf(e.links[i]);
        if id.None? {
          return None;
        }
        ConcatNext(parts, i);
        b := b + LinkBytes(little, id.value, i);
      }
      assert parts[..|e.links|] == parts;
      out := Some(b);
    }

    method DumpLinks() returns (out: Option<seq<byte>>)
      ensures out.Some? <==> AllLinksInside(Contents().files)
      ensures out.Some? ==> out.value == Concat(AllLinkParts(little, Contents().files))
    {
      hide Concat, AllLinkParts, LinkCount, LinkIndices, LinksInside;
      ghost var files := Contents().files;
      var b: seq<byte> := [];
      NoLinkParts(little);
      assert files[..0] == [];
      for i := 0 to |entries|
        invariant b == Concat(AllLinkParts(little, files[..i]))
        invariant forall k {:trigger files[k]} :: 0 <= k < i ==> LinksInside(files[k].links, |entries|)
      {
        assert files[i] == FileOf(entries, entries[i]);
        var own := DumpOwnLinks(entries[i]);
        if own.None? {
          assert !LinksInside(files[i].links, |files|);
          return None;
        }
        LinkPartsNext(little, files, i);
        b := b + own.value;
      }
      assert files[..|entries|] == files;
      out := Some(b);
    }

    /** Writes the archive; fails exactly if a link leads nowhere. The second section is not converted
        to the byte order of the archive. */
    method Dump() returns (out: Option<seq<byte>>)
      requires Fixed() && NamesFit(Contents().files)
      ensures out.Some? <==> AllLinksInside(Contents().files)
      ensures out.Some? ==> out.value == Dumped(Contents())
    {
      hide DataSize, LinkCount, Concat, AllLinkParts, EntryParts, DataBytes, NamedBytes, WordBytes, AllLinksInside, Padded, DataOffset, NamesFit;
      var linkOffset := DataOffset(|entries|) + dataSize;
      var header := [67, 76, 51] + [if little then 76 else 66] + WordBytes(little, [0, 3, 2, 64, field14]);
      var sections := SectionBytes(little, FileCollection(), |entries|, linkOffset - FILES_OFFSET, FILES_OFFSET) +
                      SectionBytes(true, FileLink(), linkCount, 32 * linkCount, linkOffset);
      assert header == HeaderBytes(Contents()) && sections == SectionsBytes(Contents());
      var records := DumpEntries();
      var data := DumpData();
      var links := DumpLinks();
      if links.None? {
        return None;
      }
      out := Some(Padded(header) + Padded(sections) + Padded(records) + data + links.value);
    }

    static method ParseSections(file: seq<byte>, little: bool, at: nat, n: nat) returns (r: Option<Scan>)
      ensures r == SectionsAt(file, little, at, n)
    {
      hide SectionAt;
      var s := Scan(None, None);
      for i := 0 to n
        invariant SectionsAt(file, little, at, i) == Some(s)
      {
        var next := SectionAt(file, little, at + 80 * i, s);
        if next.None? {
          SectionsFail(file, little, at, i + 1, n);
          return None;
        }
        s := next.value;
      }
      r := Some(s);
    }

    /** First pass: the files without their links. A second file of the same name is refused. */
    static method ParseEntries(file: seq<byte>, little: bool, p: Place) returns (r: Option<seq<Entry>>)
      ensures r.None? ==> forall links: Option<Place> :: FilesAt(file, little, p, p.count, links).None?
      ensures r.Some? ==> |r.value| == p.count && NoDuplicates(r.value) && forall i {:trigger r.value[i]} :: 0 <= i < |r.value| ==>
                fresh(r.value[i]) && IsRecord(r.value[i], RecordAt(file, little, p, i)) && r.value[i].links == []
      ensures r.Some? ==> DifferentNames(r.value)
    {
      hide RecordAt;
      var list: seq<Entry> := [];
      for i := 0 to p.count
        invariant |list| == i && NoDuplicates(list) && DifferentNames(list)
        invariant forall k {:trigger list[k]} :: 0 <= k < i ==> fresh(list[k]) && IsRecord(list[k], RecordAt(file, little, p, k)) && list[k].links == []
      {
        var rec := RecordAt(file, little, p, i);
        if rec.None? {
          RecordMissing(file, little, p, i);
          return None;
        }
        var known := Has(list, rec.value.name);
        if known.Some? {
          NameTwice(file, little, p, known.value, i);
          return None;
        }
        var e := new Entry(rec.value.name, rec.value.field200, Some(rec.value.data));
        list := list + [e];
      }
      r := Some(list);
    }

    /** An entry with a name. */
    static method Has(list: seq<Entry>, name: seq<byte>) returns (r: Option<nat>)
      ensures r.None? <==> forall k {:trigger list[k]} :: 0 <= k < |list| ==> list[k].name != name
      ensures r.Some? ==> r.value < |list| && list[r.value].name == name
    {
      for k := 0 to |list|
        invariant forall j {:trigger list[j]} :: 0 <= j < k ==> list[j].name != name
      {
        if list[k].name == name {
          return Some(k);
        }
      }
      r := None;
    }

    /** The link records of one file, as references. */
    static method ParseLinks(file: seq<byte>, little: bool, list: seq<Entry>, rec: Record, links: Option<Place>) returns (r: Option<seq<Entry?>>)
      ensures var ls := LinksOf(file, little, rec, links, |list|);
              && (r.Some? <==> ls.Some?)
              && (r.Some? ==> |r.value| == |ls.value| && LinksInside(ls.value, |list|) && Refers(list, r.value, ls.value))
    {
      hide LinkAt;
      if rec.linkCount > 0 && links.None? {
        return None;
      }
      var at := if links.Some? then links.value.offset else 0;
      var refs: seq<Entry?> := [];
      ghost var ids: seq<nat> := [];
      for k := 0 to rec.linkCount
        invariant LinksAt(file, little, at, rec.linkStart, k, |list|) == Some(ids)
        invariant |refs| == |ids| == k && LinksInside(ids, |list|) && Refers(list, refs, ids)
      {
        var l := LinkAt(file, little, at + 32 * (rec.linkStart + k), k, |list|);
        if l.None? {
          LinksFail(file, little, at, rec.linkStart, k + 1, rec.linkCount, |list|);
          return None;
        }
        LinkInside(file, little, at + 32 * (rec.linkStart + k), k, |list|);
        refs := refs + [list[l.value]];
        ids := ids + [l.value];
      }
      r := Some(refs);
    }

    /** Second pass: the links of every file, now that all files are there. */
    static method LinkEntries(file: seq<byte>, little: bool, p: Place, links: Option<Place>, list: seq<Entry>) returns (ok: bool)
      requires |list| == p.count && NoDuplicates(list) && DifferentNames(list)
      requires forall i {:trigger list[i]} :: 0 <= i < |list| ==> IsRecord(list[i], RecordAt(file, little, p, i)) && list[i].links == []
      modifies list
      ensures ok <==> FilesAt(file, little, p, p.count, links).Some?
      ensures ok ==> FilesOf(list, list) == FilesAt(file, little, p, p.count, links).value
    {
      hide RecordAt, LinksOf, FilesAt, FilesOf;
      for i := 0 to p.count
        invariant forall k {:trigger list[k]} :: 0 <= k < |list| ==> IsRecord(list[k], RecordAt(file, little, p, k))
        invariant forall k {:trigger list[k]} :: 0 <= k < i ==> HasLinks(list, list[k], RecordAt(file, little, p, k), file, little, links)
      {
        assert IsRecord(list[i], RecordAt(file, little, p, i));
        var rec := RecordAt(file, little, p, i).value;
        var refs := ParseLinks(file, little, list, rec, links);
        if refs.None? {
          NoLinks(file, little, p, i, links);
          return false;
        }
        list[i].links := refs.value;
      }
      Linked(file, little, p, links, list);
      ok := true;
    }

    /** Reads an archive by its sections. */
    method ParseFile(file: seq<byte>) returns (ok: bool)
      modifies this
      ensures ok <==> Parsed(file).Some?
      ensures ok ==> Contents() == Parsed(file).value && forall i {:trigger entries[i]} :: 0 <= i < |entries| ==> fresh(entries[i])
    {
      hide WordsAt, SectionsAt, FilesAt, FilesOf, RecordAt;
      if |file| < 24 {
        return false;
      }
      little := file[3] == 76;
      var w := WordsAt(file, little, 4, 5);
      if file[..3] != [67, 76, 51] || (!little && file[3] != 66) || w[0] != 0 || w[1] != 3 || w[3] + 80 * w[2] > |file| {
        return false;
      }
      field14 := w[4];
      var s := ParseSections(file, little, w[3], w[2]);
      if s.None? {
        return false;
      }
      entries := [];
      if s.value.files.None? {
        NoEntries();
        return true;
      }
      var list := ParseEntries(file, little, s.value.files.value);
      if list.None? {
        return false;
      }
      ok := LinkEntries(file, little, s.value.files.value, s.value.links, list.value);
      if ok {
        entries := list.value;
      }
    }

    /** Reads an archive; succeeds exactly if the bytes of the file say one, and then holds it. */
    method Parse(file: seq<byte>) returns (ok: bool)
      modifies this
      ensures ok <==> Parsed(file).Some?
      ensures ok <==> exists a :: F.ArchiveIn(a, file)
      ensures ok ==> Contents() == Parsed(file).value && F.ArchiveIn(Contents(), file)
      ensures ok ==> forall i {:trigger entries[i]} :: 0 <= i < |entries| ==> fresh(entries[i])
    {
      hide Parsed, F.ArchiveIn;
      ParsedArchive(file);
      ok := ParseFile(file);
    }
  }

  lemma ParsedArchive(file: seq<byte>)
    ensures Parsed(file).Some? <==> exists a :: F.ArchiveIn(a, file)
    ensures Parsed(file).Some? ==> F.ArchiveIn(Parsed(file).value, file)
  {
    hide Parsed, F.ArchiveIn;
    if Parsed(file).Some? {
      F.ParsedExactly(file, Parsed(file).value);
    }
    if a :| F.ArchiveIn(a, file) {
      F.ParsedExactly(file, a);
    }
  }

  predicate NoDuplicates(list: seq<Entry>) {
    forall i, j {:trigger list[i], list[j]} :: 0 <= i < j < |list| ==> list[i] != list[j]
  }

  predicate DifferentNames(list: seq<Entry>) {
    forall i, j {:trigger list[i], list[j]} :: 0 <= i < j < |list| ==> list[i].name != list[j].name
  }

  predicate IsRecord(e: Entry, r: Option<Record>)
    reads e
  {
    r.Some? && e.name == r.value.name && e.field200 == r.value.field200 && e.src == Some(r.value.data)
  }

  /** References to the entries at these places. */
  predicate Refers(list: seq<Entry>, refs: seq<Entry?>, ids: seq<nat>) {
    |refs| == |ids| && forall k {:trigger refs[k]} {:trigger ids[k]} :: 0 <= k < |refs| ==> ids[k] < |list| && refs[k] == list[ids[k]]
  }

  lemma NoEntries()
    ensures FilesOf([], []) == []
  {
  }

  /** An entry refers to the files its link records name. */
  ghost predicate HasLinks(list: seq<Entry>, e: Entry, r: Option<Record>, file: seq<byte>, little: bool, links: Option<Place>)
    reads e
  {
    r.Some? &&
    var ls := LinksOf(file, little, r.value, links, |list|);
    ls.Some? && Refers(list, e.links, ls.value)
  }

  lemma {:induction false} NoLinks(file: seq<byte>, little: bool, p: Place, i: nat, links: Option<Place>)
    requires i < p.count && RecordAt(file, little, p, i).Some? && LinksOf(file, little, RecordAt(file, little, p, i).value, links, p.count).None?
    ensures FilesAt(file, little, p, p.count, links).None?
  {
    hide RecordAt, LinksOf;
    FileFails(file, little, p, i, p.count, links);
  }

  /** References are turned back into the places they came from. */
  lemma {:induction false} IndicesBack(list: seq<Entry>, refs: seq<Entry?>, ids: seq<nat>)
    requires NoDuplicates(list) && Refers(list, refs, ids)
    ensures LinkIndices(list, refs) == ids
  {
    forall k | 0 <= k < |refs|
      ensures LinkIndices(list, refs)[k] == ids[k]
    {
      var i := LinkIndex(list, refs[k]);
      assert list[ids[k]] == refs[k];
    }
  }

  lemma {:induction false} EntryIsFile(file: seq<byte>, little: bool, p: Place, links: Option<Place>, list: seq<Entry>, i: nat)
    requires |list| == p.count && NoDuplicates(list) && i < |list|
    requires IsRecord(list[i], RecordAt(file, little, p, i)) && HasLinks(list, list[i], RecordAt(file, little, p, i), file, little, links)
    ensures FileAt(file, little, p, i, links) == Some(FileOf(list, list[i]))
  {
    hide RecordAt, LinksOf, LinkIndices;
    var ls := LinksOf(file, little, RecordAt(file, little, p, i).value, links, p.count).value;
    IndicesBack(list, list[i].links, ls);
  }

  /** Linked entries are the files of the archive. */
  lemma {:induction false} Linked(file: seq<byte>, little: bool, p: Place, links: Option<Place>, list: seq<Entry>)
    requires |list| == p.count && NoDuplicates(list) && DifferentNames(list)
    requires forall i {:trigger list[i]} :: 0 <= i < |list| ==> IsRecord(list[i], RecordAt(file, little, p, i))
    requires forall i {:trigger list[i]} :: 0 <= i < |list| ==> HasLinks(list, list[i], RecordAt(file, little, p, i), file, little, links)
    ensures FilesAt(file, little, p, p.count, links) == Some(FilesOf(list, list))
  {
    FirstLinked(file, little, p, links, list, |list|);
    assert FilesOf(list, list)[..|list|] == FilesOf(list, list);
  }

  lemma {:induction false} FirstLinked(file: seq<byte>, little: bool, p: Place, links: Option<Place>, list: seq<Entry>, n: nat)
    requires |list| == p.count && NoDuplicates(list) && DifferentNames(list) && n <= |list|
    requires forall i {:trigger list[i]} :: 0 <= i < |list| ==> IsRecord(list[i], RecordAt(file, little, p, i))
    requires forall i {:trigger list[i]} :: 0 <= i < |list| ==> HasLinks(list, list[i], RecordAt(file, little, p, i), file, little, links)
    ensures FilesAt(file, little, p, n, links) == Some(FilesOf(list, list)[..n])
  {
    hide RecordAt, HasLinks, IsRecord, FileAt, LinkIndices;
    if n > 0 {
      FirstLinked(file, little, p, links, list, n - 1);
      EntryIsFile(file, little, p, links, list, n - 1);
      var files := FilesOf(list, list);
      assert files[n - 1] == FileOf(list, list[n - 1]);
      assert files[..n] == files[..n - 1] + [files[n - 1]];
      NotNamed(list, n - 1);
    }
  }

  lemma {:induction false} NotNamed(list: seq<Entry>, n: nat)
    requires DifferentNames(list) && n < |list|
    ensures !Named(FilesOf(list, list)[..n], list[n].name)
  {
    var files := FilesOf(list, list);
    forall i | 0 <= i < n
      ensures files[..n][i].name != list[n].name
    {
      assert files[i] == FileOf(list, list[i]);
    }
  }

  lemma {:induction false} SectionsFail(file: seq<byte>, little: bool, at: nat, i: nat, n: nat)
    requires i <= n && SectionsAt(file, little, at, i).None?
    ensures SectionsAt(file, little, at, n).None?
    decreases n
  {
    hide SectionAt;
    if i < n {
      SectionsFail(file, little, at, i, n - 1);
    }
  }

  lemma {:induction false} LinksFail(file: seq<byte>, little: bool, at: nat, base: nat, i: nat, n: nat, count: nat)
    requires i <= n && LinksAt(file, little, at, base, i, count).None?
    ensures LinksAt(file, little, at, base, n, count).None?
    decreases n
  {
    hide LinkAt;
    if i < n {
      LinksFail(file, little, at, base, i, n - 1, count);
    }
  }

  lemma LinkInside(file: seq<byte>, little: bool, at: nat, id: nat, count: nat)
    ensures LinkAt(file, little, at, id, count).Some? ==> LinkAt(file, little, at, id, count).value < count
  {
  }

  /** A file that cannot be read makes all fail. */
  lemma {:induction false} FileFails(file: seq<byte>, little: bool, p: Place, i: nat, n: nat, links: Option<Place>)
    requires i < n && FileAt(file, little, p, i, links).None?
    ensures FilesAt(file, little, p, n, links).None?
    decreases n
  {
    hide FileAt, Named;
    if i < n - 1 {
      FileFails(file, little, p, i, n - 1, links);
    }
  }

  lemma {:induction false} FilesPrefix(file: seq<byte>, little: bool, p: Place, i: nat, n: nat, links: Option<Place>)
    requires i < n && FilesAt(file, little, p, n, links).Some?
    ensures FileAt(file, little, p, i, links) == Some(FilesAt(file, little, p, n, links).value[i])
    decreases n
  {
    hide FileAt;
    if i < n - 1 {
      FilesPrefix(file, little, p, i, n - 1, links);
    }
  }

  lemma {:induction false} RecordMissing(file: seq<byte>, little: bool, p: Place, i: nat)
    requires i < p.count && RecordAt(file, little, p, i).None?
    ensures forall links: Option<Place> :: FilesAt(file, little, p, p.count, links).None?
  {
    forall links: Option<Place>
      ensures FilesAt(file, little, p, p.count, links).None?
    {
      FileFails(file, little, p, i, p.count, links);
    }
  }

  /** Two files of one name make all fail. */
  lemma {:induction false} NameTwice(file: seq<byte>, little: bool, p: Place, i: nat, j: nat)
    requires i < j < p.count && RecordAt(file, little, p, i).Some? && RecordAt(file, little, p, j).Some?
    requires RecordAt(file, little, p, i).value.name == RecordAt(file, little, p, j).value.name
    ensures forall links: Option<Place> :: FilesAt(file, little, p, p.count, links).None?
  {
    hide RecordAt, LinksOf;
    forall links: Option<Place>
      ensures FilesAt(file, little, p, p.count, links).None?
    {
      SecondFails(file, little, p, i, j, links);
      FilesShorter(file, little, p, j + 1, p.count, links);
    }
  }

  lemma {:induction false} SecondFails(file: seq<byte>, little: bool, p: Place, i: nat, j: nat, links: Option<Place>)
    requires i < j && RecordAt(file, little, p, i).Some? && RecordAt(file, little, p, j).Some?
    requires RecordAt(file, little, p, i).value.name == RecordAt(file, little, p, j).value.name
    ensures FilesAt(file, little, p, j + 1, links).None?
  {
    hide RecordAt, LinksOf;
    var rest, f := FilesAt(file, little, p, j, links), FileAt(file, little, p, j, links);
    if rest.Some? && f.Some? {
      FilesPrefix(file, little, p, i, j, links);
      assert rest.value[i].name == f.value.name;
    }
  }

  lemma {:induction false} FilesShorter(file: seq<byte>, little: bool, p: Place, i: nat, n: nat, links: Option<Place>)
    requires i <= n && FilesAt(file, little, p, i, links).None?
    ensures FilesAt(file, little, p, n, links).None?
    decreases n
  {
    hide FileAt, Named;
    if i < n {
      FilesShorter(file, little, p, i, n - 1, links);
    }
  }

  lemma NoFiles()
    ensures DataSize([]) == 0 && LinkCount([]) == 0 && DataBytes([]) == [] && Concat([]) == []
  {
  }

  lemma EmptyConcat()
    ensures Concat([]) == []
  {
  }

  lemma NoLinkParts(little: bool)
    ensures Concat(AllLinkParts(little, [])) == []
  {
  }

  lemma EmptyPadded()
    ensures Padded([]) == []
  {
  }

  lemma {:induction false} OffsetNext(files: seq<File>, i: nat)
    requires i < |files|
    ensures DataStart(files, i + 1) == Align(DataStart(files, i) + |files[i].data|)
  {
    hide DataSize, LinkCount, Align, DataOffset;
    LinkCountNext(files, i);
    AlignFrom(DataOffset(|files|) - FILES_OFFSET, DataSize(files[..i]) + |files[i].data|);
  }
}
