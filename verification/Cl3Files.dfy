/** CL3 archives on values: how they are laid out and read. */
module Cl3Files {
  import opened Bytes
  import opened Words

  /** A file of an archive; its links are positions of other files. */
  datatype File = File(name: seq<byte>, field200: nat, data: seq<byte>, links: seq<nat>)

  datatype Archive = Archive(little: bool, field14: nat, files: seq<File>)

  const LIMIT: nat := 0x1_0000_0000

  function Align(x: nat): (r: nat)
    ensures x <= r < x + 64 && r % 64 == 0
  {
    (x + 63) / 64 * 64
  }

  lemma AlignFrom(x: nat, y: nat)
    requires x % 64 == 0
    ensures Align(x + y) == x + Align(y)
  {
  }

  function Padded(b: seq<byte>): (r: seq<byte>)
    ensures |r| == Align(|b|) && r[..|b|] == b
  {
    b + Zeros(Align(|b|) - |b|)
  }

  /** What is padded is filled up with zeros to the next multiple of 64. */
  lemma PaddedIs(b: seq<byte>, k: nat)
    ensures |b| <= |Padded(b)| < |b| + 64 && |Padded(b)| % 64 == 0
    ensures k < |Padded(b)| ==> Padded(b)[k] == if k < |b| then b[k] else 0
  {
  }

  // ---- records

  function Fours(n: nat): (r: seq<nat>)
    ensures |r| == n && forall i {:trigger r[i]} :: 0 <= i < n ==> r[i] == 4
  {
    seq(n, _ => 4)
  }

  lemma {:induction false} FoursSum(n: nat)
    ensures Sum(Fours(n)) == 4 * n
  {
    if n > 0 {
      FoursSum(n - 1);
      assert Fours(n)[..n - 1] == Fours(n - 1);
    }
  }

  function WordBytes(little: bool, ws: seq<nat>): (r: seq<byte>)
    ensures |r| == 4 * |ws|
  {
    FoursSum(|ws|);
    WordsLength(little, Fours(|ws|), ws);
    EncWords(little, Fours(|ws|), ws)
  }

  function WordsAt(file: seq<byte>, little: bool, at: nat, n: nat): (r: seq<nat>)
    requires at + 4 * n <= |file|
    ensures |r| == n
  {
    FoursSum(n);
    DecWords(little, Fours(n), file[at..at + 4 * n])
  }

  predicate Word32s(ws: seq<nat>) {
    forall i {:trigger ws[i]} :: 0 <= i < |ws| ==> ws[i] < LIMIT
  }

  lemma {:induction false} WordsAtBack(file: seq<byte>, little: bool, at: nat, ws: seq<nat>)
    requires Word32s(ws) && at + 4 * |ws| <= |file| && file[at..at + 4 * |ws|] == WordBytes(little, ws)
    ensures WordsAt(file, little, at, |ws|) == ws
  {
    hide EncWords, DecWords, Sum;
    Ranges();
    WordsBack(little, Fours(|ws|), ws, []);
    assert WordBytes(little, ws) + [] == WordBytes(little, ws);
  }

  /** A name in a field of fixed size, filled up with zeros. */
  function NameBytes(name: seq<byte>, size: nat): (r: seq<byte>)
    requires |name| < size
    ensures |r| == size
  {
    name + Zeros(size - |name|)
  }

  function NamedBytes(little: bool, name: seq<byte>, size: nat, ws: seq<nat>): (r: seq<byte>)
    requires |name| < size
    ensures |r| == size + 4 * |ws|
  {
    NameBytes(name, size) + WordBytes(little, ws)
  }

  /** A record that starts with a name: the name, if it ends, and the words behind it. */
  function NameAt(file: seq<byte>, at: nat, size: nat): Option<seq<byte>>
    requires at + size <= |file|
  {
    CStringIn(file[at..at + size])
  }

  lemma {:induction false} NamedBack(file: seq<byte>, little: bool, at: nat, name: seq<byte>, size: nat, ws: seq<nat>)
    requires |name| < size && 0 !in name && Word32s(ws)
    requires at + size + 4 * |ws| <= |file| && file[at..at + size + 4 * |ws|] == NamedBytes(little, name, size, ws)
    ensures NameAt(file, at, size) == Some(name) && WordsAt(file, little, at + size, |ws|) == ws
  {
    hide WordBytes, WordsAt, CStringIn;
    var rest := Zeros(size - |name| - 1);
    assert NameBytes(name, size) == name + [0] + rest;
    CStringFound(name, rest);
    SplitSlice(file, at, NameBytes(name, size), WordBytes(little, ws));
    WordsAtBack(file, little, at + size, ws);
  }

  // ---- layout

  const FILES_OFFSET: nat := 0x100

  function DataSize(files: seq<File>): (r: nat)
    ensures r % 64 == 0
  {
    if files == [] then 0 else Align(DataSize(files[..|files| - 1]) + |files[|files| - 1].data|)
  }

  function LinkCount(files: seq<File>): nat {
    if files == [] then 0 else LinkCount(files[..|files| - 1]) + |files[|files| - 1].links|
  }

  function DataOffset(n: nat): (r: nat)
    ensures r % 64 == 0 && r >= FILES_OFFSET
  {
    Align(FILES_OFFSET + 0x230 * n)
  }

  function LinkOffset(files: seq<File>): nat { DataOffset(|files|) + DataSize(files) }

  function GetSize(files: seq<File>): nat { LinkOffset(files) + 32 * LinkCount(files) }

  function HeaderWords(a: Archive): seq<nat> { [0, 3, 2, 64, a.field14] }

  function HeaderBytes(a: Archive): (r: seq<byte>)
    ensures |r| == 24
  {
    [67, 76, 51] + [if a.little then 76 else 66] + WordBytes(a.little, HeaderWords(a))
  }

  function FileCollection(): seq<byte> { [70, 73, 76, 69, 95, 67, 79, 76, 76, 69, 67, 84, 73, 79, 78] }

  function FileLink(): seq<byte> { [70, 73, 76, 69, 95, 76, 73, 78, 75] }

  function SectionWords(count: nat, size: nat, offset: nat): seq<nat> {
    [count, size, offset, 0, 0, 0, 0, 0, 0, 0, 0, 0]
  }

  function SectionBytes(little: bool, name: seq<byte>, count: nat, size: nat, offset: nat): (r: seq<byte>)
    requires |name| < 32
    ensures |r| == 80
  {
    NamedBytes(little, name, 32, SectionWords(count, size, offset))
  }

  /** Both sections. The second is always written in little-endian order. */
  function SectionsBytes(a: Archive): (r: seq<byte>)
    ensures |r| == 160
  {
    SectionBytes(a.little, FileCollection(), |a.files|, LinkOffset(a.files) - FILES_OFFSET, FILES_OFFSET) +
    SectionBytes(true, FileLink(), LinkCount(a.files), 32 * LinkCount(a.files), LinkOffset(a.files))
  }

  /** Where the data of file `i` is, from the start of the file table. */
  function DataStart(files: seq<File>, i: nat): nat
    requires i <= |files|
  {
    DataOffset(|files|) - FILES_OFFSET + DataSize(files[..i])
  }

  function EntryWords(files: seq<File>, i: nat): seq<nat>
    requires i < |files|
  {
    [files[i].field200, DataStart(files, i), |files[i].data|, LinkCount(files[..i]), |files[i].links|, 0, 0, 0, 0, 0, 0, 0]
  }

  function EntryBytes(little: bool, files: seq<File>, i: nat): (r: seq<byte>)
    requires i < |files| && |files[i].name| < 512
    ensures |r| == 0x230
  {
    NamedBytes(little, files[i].name, 512, EntryWords(files, i))
  }

  predicate NamesFit(files: seq<File>) {
    forall i {:trigger files[i]} :: 0 <= i < |files| ==> |files[i].name| < 512 && 0 !in files[i].name
  }

  function EntryParts(little: bool, files: seq<File>): (r: seq<seq<byte>>)
    requires NamesFit(files)
    ensures |r| == |files| && Even(r, 0x230)
    ensures forall i {:trigger r[i]} :: 0 <= i < |r| ==> r[i] == EntryBytes(little, files, i)
  {
    seq(|files|, i requires 0 <= i < |files| => EntryBytes(little, files, i))
  }

  function DataBytes(files: seq<File>): (r: seq<byte>)
    ensures |r| == DataSize(files)
  {
    if files == [] then []
    else
      AlignFrom(DataSize(files[..|files| - 1]), |files[|files| - 1].data|);
      DataBytes(files[..|files| - 1]) + Padded(files[|files| - 1].data)
  }

  function LinkBytes(little: bool, target: nat, id: nat): (r: seq<byte>)
    ensures |r| == 32
  {
    WordBytes(little, [0, target, id, 0, 0, 0, 0, 0])
  }

  function LinkParts(little: bool, links: seq<nat>): (r: seq<seq<byte>>)
    ensures |r| == |links| && Even(r, 32)
    ensures forall k {:trigger r[k]} :: 0 <= k < |r| ==> r[k] == LinkBytes(little, links[k], k)
  {
    seq(|links|, k requires 0 <= k < |links| => LinkBytes(little, links[k], k))
  }

  function AllLinkParts(little: bool, files: seq<File>): (r: seq<seq<byte>>)
    ensures |r| == LinkCount(files) && Even(r, 32)
  {
    if files == [] then [] else AllLinkParts(little, files[..|files| - 1]) + LinkParts(little, files[|files| - 1].links)
  }

  function Dumped(a: Archive): seq<byte>
    requires NamesFit(a.files)
  {
    Padded(HeaderBytes(a)) + Padded(SectionsBytes(a)) + Padded(Concat(EntryParts(a.little, a.files))) + DataBytes(a.files) +
    Concat(AllLinkParts(a.little, a.files))
  }

  // ---- reading

  datatype Place = Place(offset: nat, count: nat, size: nat)

  /** What the sections said: where the files are and where the links. */
  datatype Scan = Scan(files: Option<Place>, links: Option<Place>)

  predicate SectionValid(name: Option<seq<byte>>, w: seq<nat>, size: nat)
    requires |w| == 12
  {
    name.Some? && w[2] <= size && (w[2] + w[1]) % LIMIT <= size && forall i {:trigger w[i]} :: 3 <= i < 12 ==> w[i] == 0
  }

  function SectionAt(file: seq<byte>, little: bool, at: nat, s: Scan): Option<Scan> {
    if at + 80 > |file| then None
    else
      var name, w := NameAt(file, at, 32), WordsAt(file, little, at + 32, 12);
      if !SectionValid(name, w, |file|) then None
      else if name.value == FileCollection() then Some(s.(files := Some(Place(w[2], w[0], w[1]))))
      else if name.value == FileLink() then if w[1] == 32 * w[0] then Some(s.(links := Some(Place(w[2], w[0], w[1])))) else None
      else Some(s)
  }

  function SectionsAt(file: seq<byte>, little: bool, at: nat, n: nat): Option<Scan> {
    if n == 0 then Some(Scan(None, None))
    else
      var s := SectionsAt(file, little, at, n - 1);
      if s.None? then None else SectionAt(file, little, at + 80 * (n - 1), s.value)
  }

  predicate EntryValid(name: Option<seq<byte>>, w: seq<nat>, block: nat)
    requires |w| == 12
  {
    name.Some? && w[1] <= block && (w[1] + w[2]) % LIMIT <= block && forall i {:trigger w[i]} :: 5 <= i < 12 ==> w[i] == 0
  }

  function LinkAt(file: seq<byte>, little: bool, at: nat, id: nat, count: nat): Option<nat> {
    if at + 32 > |file| then None
    else
      var w := WordsAt(file, little, at, 8);
      if w[0] == 0 && w[1] < count && w[2] == id && w[3] == 0 && w[4] == 0 && w[5] == 0 && w[6] == 0 && w[7] == 0 then Some(w[1]) else None
  }

  /** The first `n` links from record `base` on. */
  function LinksAt(file: seq<byte>, little: bool, at: nat, base: nat, n: nat, count: nat): (r: Option<seq<nat>>)
    ensures r.Some? ==> |r.value| == n
  {
    if n == 0 then Some([])
    else
      var rest := LinksAt(file, little, at, base, n - 1, count);
      var l := LinkAt(file, little, at + 32 * (base + n - 1), n - 1, count);
      if rest.None? || l.None? then None else Some(rest.value + [l.value])
  }

  /** The number of link records a 32-bit loop from `start` to `start + count` visits. */
  function LinksSpan(start: nat, count: nat): nat {
    var end := (start + count) % LIMIT;
    if start < end then end - start else 0
  }

  /** What the record of a file says: its own fields, and how many link records from which on. */
  datatype Record = Record(name: seq<byte>, field200: nat, data: seq<byte>, linkStart: nat, linkCount: nat)

  function RecordAt(file: seq<byte>, little: bool, p: Place, i: nat): Option<Record> {
    var at := p.offset + 0x230 * i;
    if at + 0x230 > |file| then None
    else
      var name, w := NameAt(file, at, 512), WordsAt(file, little, at + 512, 12);
      if !EntryValid(name, w, p.size) then None
      else
        var start := (p.offset + w[1]) % LIMIT;
        if start + w[2] > |file| then None else Some(Record(name.value, w[0], file[start..start + w[2]], w[3], LinksSpan(w[3], w[4])))
  }

  /** The links of a record. There must be a link section if it has any. */
  function LinksOf(file: seq<byte>, little: bool, r: Record, links: Option<Place>, count: nat): (ls: Option<seq<nat>>)
    ensures ls.Some? ==> |ls.value| == r.linkCount
  {
    if r.linkCount > 0 && links.None? then None
    else LinksAt(file, little, if links.Some? then links.value.offset else 0, r.linkStart, r.linkCount, count)
  }

  function FileAt(file: seq<byte>, little: bool, p: Place, i: nat, links: Option<Place>): Option<File> {
    var r := RecordAt(file, little, p, i);
    if r.None? then None
    else
      var ls := LinksOf(file, little, r.value, links, p.count);
      if ls.None? then None else Some(File(r.value.name, r.value.field200, r.value.data, ls.value))
  }

  /** The first `n` files; their names must differ. */
  function FilesAt(file: seq<byte>, little: bool, p: Place, n: nat, links: Option<Place>): (r: Option<seq<File>>)
    ensures r.Some? ==> |r.value| == n
  {
    if n == 0 then Some([])
    else
      var rest := FilesAt(file, little, p, n - 1, links);
      var f := FileAt(file, little, p, n - 1, links);
      if rest.None? || f.None? || Named(rest.value, f.value.name) then None else Some(rest.value + [f.value])
  }

  predicate Named(files: seq<File>, name: seq<byte>) {
    exists i :: 0 <= i < |files| && files[i].name == name
  }

  function Parsed(file: seq<byte>): Option<Archive> {
    if |file| < 24 then None
    else
      var little, w := file[3] == 76, WordsAt(file, file[3] == 76, 4, 5);
      if file[..3] != [67, 76, 51] || (!little && file[3] != 66) || w[0] != 0 || w[1] != 3 || w[3] + 80 * w[2] > |file| then None
      else
        var s := SectionsAt(file, little, w[3], w[2]);
        if s.None? then None
        else if s.value.files.None? then Some(Archive(little, w[4], []))
        else
          var fs := FilesAt(file, little, s.value.files.value, s.value.files.value.count, s.value.links);
          if fs.None? then None else Some(Archive(little, w[4], fs.value))
  }

  // ---- what an archive must meet

  predicate DistinctNames(files: seq<File>) {
    forall i, j {:trigger files[i], files[j]} :: 0 <= i < j < |files| ==> files[i].name != files[j].name
  }

  predicate LinksInside(links: seq<nat>, n: nat) {
    forall k {:trigger links[k]} :: 0 <= k < |links| ==> links[k] < n
  }

  /** No link leads out of the archive. */
  predicate AllLinksInside(files: seq<File>) {
    forall i {:trigger files[i]} :: 0 <= i < |files| ==> LinksInside(files[i].links, |files|)
  }

  predicate WellFormed(a: Archive) {
    && NamesFit(a.files) && DistinctNames(a.files) && AllLinksInside(a.files) && a.field14 < LIMIT && GetSize(a.files) < LIMIT
    && forall i {:trigger a.files[i]} :: 0 <= i < |a.files| ==> a.files[i].field200 < LIMIT
  }
}
