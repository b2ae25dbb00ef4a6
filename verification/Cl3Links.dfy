/** Big-endian archives with links: their link section is written in little-endian order. */
module Cl3Links {
  import opened Bytes
  import opened Words
  import opened Cl3Files
  import opened Cl3Reparse

  /** A word whose bytes are read in the other order. */
  lemma Turned(b0: byte, b1: byte, b2: byte, b3: byte)
    ensures var x := b0 + 256 * (b1 + 256 * (b2 + 256 * b3));
            x < LIMIT && SeenWord(false, x) == b3 + 256 * (b2 + 256 * (b1 + 256 * b0))
  {
    hide De, Le;
    Le4(b0, b1, b2, b3);
    De4(b3, b2, b1, b0);
    assert Rev<byte>([b0, b1, b2, b3]) == [b3, b2, b1, b0];
  }

  /** The first byte of a word becomes the highest one. */
  lemma TurnedHigh(x: nat)
    requires x < LIMIT
    ensures var high := x % 256 * 0x100_0000; high <= SeenWord(false, x) < high + 0x100_0000
  {
    hide SeenWord;
    var y, z := x / 256, x / 256 / 256;
    Turned(x % 256, y % 256, z % 256, z / 256);
    assert x == x % 256 + 256 * y && y == y % 256 + 256 * z && z == z % 256 + 256 * (z / 256);
  }

  lemma OffsetAligned(files: seq<File>)
    ensures LinkOffset(files) % 64 == 0
  {
    hide DataSize, DataOffset;
    SumAligned(DataOffset(|files|), DataSize(files));
  }

  lemma SumAligned(x: nat, y: nat)
    requires x % 64 == 0 && y % 64 == 0
    ensures (x + y) % 64 == 0
  {
    assert x + y == 64 * (x / 64 + y / 64);
  }

  /** A turned multiple of 64 that is small is smaller still. */
  lemma TurnedOffset(x: nat)
    requires x < LIMIT && x % 64 == 0 && SeenWord(false, x) < 0x2000_0000
    ensures SeenWord(false, x) < 0x100_0000
  {
    hide SeenWord;
    LowByte(x);
    TurnedHigh(x);
  }

  lemma LowByte(x: nat)
    requires x % 64 == 0
    ensures x % 256 == 0 || x % 256 >= 64
  {
    assert x == 64 * (x / 64);
  }

  /** The link section of an archive of less than 512 MiB is refused unless the number of its links is a multiple
      of 256. */
  lemma SectionRefused(a: Archive)
    requires WellFormed(a) && !a.little && GetSize(a.files) < 0x2000_0000 && LinkCount(a.files) % 256 != 0
    ensures !LinkSectionValid(a)
  {
    hide SeenWord, LinkOffset, LinkCount, NamesFit, DistinctNames;
    var n, at := LinkCount(a.files), LinkOffset(a.files);
    OffsetAligned(a.files);
    TurnedHigh(n);
    TurnedHigh(32 * n);
    var p := LinksPlace(a);
    if p.offset <= GetSize(a.files) && p.size == 32 * p.count {
      TurnedOffset(at);
      assert p.size >= 0x2000_0000;
      assert 32 * n % 256 <= 224;
    }
  }

  /** A big-endian archive of less than 512 MiB is not read back if the number of its links is not a multiple of
      256. */
  lemma BigLinksLost(a: Archive)
    requires WellFormed(a) && !a.little && GetSize(a.files) < 0x2000_0000 && LinkCount(a.files) % 256 != 0
    ensures Parsed(Dumped(a)) != Some(a)
  {
    hide Dumped, Parsed, LinkSectionValid, LinksMatch, LinksPlace, LinkOffset, GetSize, LinkCount, NamesFit, DistinctNames;
    SectionRefused(a);
    Reparsed(a);
  }

  /** A big-endian archive is read back if the words of its link section are the same in both orders. */
  lemma BigLinksBack(a: Archive)
    requires WellFormed(a) && !a.little
    requires SeenWord(false, LinkOffset(a.files)) == LinkOffset(a.files)
    requires SeenWord(false, LinkCount(a.files)) == LinkCount(a.files) && SeenWord(false, 32 * LinkCount(a.files)) == 32 * LinkCount(a.files)
    ensures Parsed(Dumped(a)) == Some(a)
  {
    hide Dumped, Parsed, LinksMatch, LinkCount, LinkOffset, NamesFit, DistinctNames, SeenWord;
    LinksFound(a);
    Reparsed(a);
  }

  /** One file with 65792 links to itself, its data as long as to have the links at 65792: such an archive of about
      two megabytes is read back. */
  lemma SameBothWays() returns (a: Archive)
    ensures WellFormed(a) && !a.little && LinkCount(a.files) == 0x1_0100 && GetSize(a.files) == 33 * 0x1_0100
    ensures Parsed(Dumped(a)) == Some(a)
  {
    hide Dumped, Parsed, SeenWord;
    var f := File([], 0, Zeros(64960), seq(0x1_0100, _ => 0));
    a := Archive(false, 0, [f]);
    OneFile(f);
    Turned(0, 1, 1, 0);
    Turned(0, 32, 32, 0);
    BigLinksBack(a);
  }

  lemma OneFile(f: File)
    requires |f.data| == 64960
    ensures LinkOffset([f]) == 0x1_0100 && LinkCount([f]) == |f.links|
  {
    assert [f][..0] == [];
    assert DataSize([f]) == Align(DataSize([]) + 64960);
    assert Align(64960) == 64960 && DataOffset(1) == 832;
    assert LinkCount([f]) == LinkCount([]) + |f.links|;
  }
}
