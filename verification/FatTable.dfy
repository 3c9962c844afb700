/** Entry and cluster access: the routines that touch sectors, each tied to the volume it changes. */
module FatTable {
  import opened Bytes
  import opened Blocks
  import opened FatLayout
  import opened BlockDevice
  import opened FatChains

  class FileSystem {
    const g: Geometry
    const disk: Disk

    ghost predicate Valid()
      reads disk
    {
      && disk.Valid() && disk.blockLen == g.bytesPerSector
      && g.totalSectors <= |disk.blocks|
    }

    ghost function Vol(): Volume
      requires Valid()
      reads disk
    {
      VolumeOf(g, disk.blocks)
    }

    /** A disk may hold fewer sectors than the boot sector counts; the clusters are then those it holds. */
    constructor (boot: BootSector, disk: Disk)
      requires disk.Valid() && disk.blockLen == boot.bytesPerSector && boot.Within(|disk.blocks|).Valid()
      ensures Valid() && this.g == boot.Within(|disk.blocks|) && this.disk == disk
    {
      this.g := boot.Within(|disk.blocks|);
      this.disk := disk;
    }

    /** A newly allocated buffer holding sector `s`, if the disk has it. */
    method LoadSector(s: nat) returns (buf: array<Byte>)
      requires Valid()
      ensures fresh(buf) && buf.Length == g.bytesPerSector
      ensures s < |disk.blocks| ==> buf.Length == |disk.blocks[s]| && buf[..] == disk.blocks[s]
    {
      buf := new Byte[g.bytesPerSector];
      disk.Read(s, buf, 0, g.bytesPerSector);
      assert s < |disk.blocks| ==> buf[..] == disk.blocks[s];
    }

    /** What is found where the entry of a number without one would be, in a cluster. */
    ghost function StrayWord(c: nat): nat
      requires Valid() && Strays(g, c)
      reads disk
    {
      StrayEntry(g, disk.blocks, c, 0);
      StrayRead(g, Vol(), c)
    }

    /** For a number that the FAT has no entry for, the result is whatever is found behind the FAT. */
    method GetSuccessorCluster(c: nat) returns (r: nat)
      requires Valid()
      ensures r < 0x1_0000
      ensures c < g.FatEntries() ==> c < |Vol().fat| && r == Vol().fat[c]
      ensures Strays(g, c) ==> r == StrayWord(c)
    {
      hide VolumeOf, Span, Whole, Words, BootSector.Valid;
      Basics(g);
      if c < g.FatEntries() {
        FatEntryRead(g, disk.blocks, c);
      } else if Strays(g, c) {
        StrayEntry(g, disk.blocks, c, 0);
      }
      var entriesPerSector := U16(g.bytesPerSector / 2);
      FatEntryPosition(g, c, entriesPerSector);
      var inFatSector := Whole(c * 2, g.bytesPerSector);
      var inSector := g.FatStart() + inFatSector;
      var entryInSector := U16(c - Span(inFatSector, entriesPerSector));
      var fatSector := LoadSector(inSector);
      r := Word(fatSector[entryInSector * 2], fatSector[entryInSector * 2 + 1]);
    }

    /** For a number that the FAT has no entry for, two bytes behind the FAT are overwritten. */
    method SetSuccessorCluster(c: nat, successor: nat)
      requires Valid() && successor < 0x1_0000
      modifies disk
      ensures Valid()
      ensures c < g.FatEntries() ==> c < |old(Vol()).fat| && Vol() == old(Vol()).WithEntry(c, successor)
      ensures Strays(g, c) ==>
                var v := old(Vol()); var d := StrayCluster(g, c);
                && v.HasCluster(d) && |v.Cluster(d)| == g.BytesPerCluster()
                && Vol() == StrayWritten(g, v, c, successor)
    {
      hide VolumeOf, Span, Whole, BootSector.Valid;
      Basics(g);
      FatEntryPosition(g, c, g.bytesPerSector / 2);
      EntrySet(g, disk.blocks, c, successor);
      hide Strays;
      ghost var img := disk.blocks;
      var inFatSector := Whole(c * 2, g.bytesPerSector);
      var inSector := g.FatStart() + inFatSector;
      var fatSector := LoadSector(inSector);
      var indexInSector := U16(c * 2 - Span(inFatSector, g.bytesPerSector));
      fatSector[indexInSector] := successor % 256;
      fatSector[indexInSector + 1] := successor / 256 % 256;
      assert inSector < |img| ==>
          fatSector[0..g.bytesPerSector] == Splice(img[inSector], indexInSector, WordBytes(successor));
      disk.Write(inSector, fatSector, 0, g.bytesPerSector);
      assert disk.blocks == WithEntryBytes(g, img, c, WordBytes(successor));
    }

    method FindFirstFreeCluster() returns (r: nat)
      requires Valid()
      ensures r < |Vol().fat| && IsFirstFree(Vol().fat, r)
    {
      hide VolumeOf, Span, BootSector.Valid;
      FatLength(g, disk.blocks);
      ghost var fat := Vol().fat;
      var fatSector := new Byte[g.bytesPerSector];
      var entriesPerSector := g.bytesPerSector / 2;
      SpanStep(0, entriesPerSector);
      var i := 0;
      while i < g.sectorsPerFat
        invariant 0 <= i <= g.sectorsPerFat && Span(i, entriesPerSector) <= |fat|
        invariant forall d :: 0 <= d < Span(i, entriesPerSector) ==> fat[d] != 0
      {
        var j := FirstFreeInSector(i, fatSector, entriesPerSector);
        if j < entriesPerSector {
          return U16(Span(i, entriesPerSector) + j);
        }
        i := i + 1;
      }
      return 0;
    }

    /** Reads FAT sector `i` and looks for its first zero entry. */
    method FirstFreeInSector(i: nat, fatSector: array<Byte>, perSector: nat) returns (j: nat)
      requires Valid() && i < g.sectorsPerFat && fatSector.Length == g.bytesPerSector
      requires perSector == g.bytesPerSector / 2
      modifies fatSector
      ensures j <= perSector && Span(i + 1, perSector) == Span(i, perSector) + perSector <= |Vol().fat|
      ensures forall d :: Span(i, perSector) <= d < Span(i, perSector) + j ==> Vol().fat[d] != 0
      ensures j < perSector ==> Vol().fat[Span(i, perSector) + j] == 0
    {
      hide VolumeOf, Span, BootSector.Valid;
      SectorWords(g, disk.blocks, perSector, i);
      disk.Read(g.FatStart() + i, fatSector, 0, g.bytesPerSector);
      assert fatSector[..] == disk.blocks[g.FatStart() + i];
      j := FirstZeroEntry(fatSector, perSector);
    }

    /** The inner loop of the search: the first zero entry of a sector, or `entries` if there is none. */
    method FirstZeroEntry(sector: array<Byte>, entries: nat) returns (j: nat)
      requires sector.Length / 2 == entries
      ensures j <= entries == |Words(sector[..])|
      ensures forall k :: 0 <= k < j ==> Words(sector[..])[k] != 0
      ensures j < entries ==> Words(sector[..])[j] == 0
    {
      j := 0;
      while j < entries
        invariant 0 <= j <= entries
        invariant forall k :: 0 <= k < j ==> Words(sector[..])[k] != 0
      {
        if sector[j * 2] == 0x00 && sector[j * 2 + 1] == 0x00 {
          return;
        }
        j := j + 1;
      }
    }

    /** Sector by sector; a sector that the disk does not have leaves its part of the buffer as it was. The numbers 0
        and 1 are not refused: they lead to the end of the root directory, if that has as many sectors. */
    method LoadCluster(c: nat, buf: array<Byte>)
      requires Valid() && buf.Length == g.BytesPerCluster()
      modifies buf
      ensures 2 <= c < g.ClusterEnd() ==> Vol().HasCluster(c) && buf[..] == Vol().Cluster(c)
      ensures LeadsToRoot(g, c) ==>
                var at := RootIndex(g, c);
                0 <= at && at + buf.Length <= |Vol().root| && buf[..] == Vol().root[at..at + buf.Length]
    {
      hide VolumeOf, Flatten, Span, BootSector.ClusterSector, BootSector.Valid, BootSector.ClusterEnd, LeadsToRoot;
      Basics(g);
      LayoutInOrder(g);
      ClusterSectors(g, disk.blocks, disk.blocks, c);
      disk.ReadBlocks(g.ClusterSector(c), g.sectorsPerCluster, buf);
    }

    /** Sector by sector. A number from 2 on without sectors of its own leads behind all that the volume holds, the
        numbers 0 and 1 to the end of the root directory. */
    method WriteCluster(c: nat, buf: array<Byte>)
      requires Valid() && buf.Length == g.BytesPerCluster()
      modifies disk
      ensures Valid()
      ensures LeadsToRoot(g, c) ==>
                var at, root := RootIndex(g, c), old(Vol().root);
                0 <= at && at + buf.Length <= |root| && Vol() == old(Vol()).(root := Splice(root, at, buf[..]))
      ensures 2 <= c < g.ClusterEnd() ==> old(Vol()).HasCluster(c) && Vol() == old(Vol()).WithCluster(c, buf[..])
      ensures g.ClusterEnd() <= c ==> Vol() == old(Vol()).(rest := Vol().rest)
      ensures |disk.blocks| <= g.ClusterSector(c) ==> disk.blocks == old(disk.blocks)
    {
      hide VolumeOf, Flatten, Span, BootSector.ClusterSector, BootSector.Valid, BootSector.ClusterEnd, LeadsToRoot;
      Basics(g);
      LayoutInOrder(g);
      ghost var img := disk.blocks;
      disk.WriteBlocks(g.ClusterSector(c), g.sectorsPerCluster, buf);
      ClusterSectors(g, img, disk.blocks, c);
      assert g.ClusterSector(c) >= |img| ==> disk.blocks == img;
    }
  }
}
