/** The file system on the emulator's file: which clusters the kernel can load. */
module DiskFile {
  import opened Bytes
  import opened Blocks
  import opened FatLayout
  import opened FatChains
  import opened FatContent
  import opened DiskServer

  /** The answer to the read of a block is as long as the kernel expects it; for a shorter one it waits forever. */
  ghost predicate IsAnswered(file: seq<Byte>, blockNum: nat, blockLen: nat, a: nat) {
    var answer := Serve(file, blockNum, blockLen, ReadLine(a));
    answer.Served? && |answer.reply| == 2 + 1 + 2 * blockLen + 1
  }

  lemma AnsweredIffHeld(file: seq<Byte>, blockNum: nat, blockLen: nat, a: nat)
    requires a < 0x8000_0000 && 0 < blockLen
    ensures IsAnswered(file, blockNum, blockLen, a) <==> a < blockNum && a < Whole(|file|, blockLen)
  {
    hide Serve, Span, Whole;
    ReadIsServed(file, blockNum, blockLen, a);
    if a < blockNum {
      AnswerIsWholeIffFileIs(file, blockNum, blockLen, a);
    }
    HeldBlock(|file|, blockLen, a);
  }

  /** A block is one of the first whole ones exactly when it ends inside. */
  lemma HeldBlock(total: nat, size: nat, a: nat)
    requires 0 < size
    ensures a < Whole(total, size) <==> Span(a, size) + size <= total
  {
    hide Span, Whole;
    WholeSpan(total, size);
    SpanStep(a, size);
    if a < Whole(total, size) {
      SpanOrder(a + 1, Whole(total, size), size);
    } else {
      SpanOrder(Whole(total, size), a, size);
    }
  }

  /** The reads that loading a cluster makes are all answered. */
  ghost predicate IsLoaded(boot: BootSector, file: seq<Byte>, blockNum: nat, c: nat)
    requires 0 < boot.bytesPerSector
  {
    forall a: nat :: boot.ClusterSector(c) <= a < boot.ClusterSector(c) + boot.sectorsPerCluster ==>
      IsAnswered(file, blockNum, boot.bytesPerSector, a)
  }

  /** They are if and only if the file holds all sectors of the cluster. Of the clusters that the boot sector counts,
      these are the clusters of the volume as far as the file holds it. */
  lemma LoadedIffHeld(boot: Geometry, file: seq<Byte>, blockNum: nat, c: nat)
    requires 2 <= c < boot.FatEntries() && boot.totalSectors <= blockNum
    ensures var m := Whole(|file|, boot.bytesPerSector);
      && (IsLoaded(boot, file, blockNum, c) <==> boot.ClusterSector(c) + boot.sectorsPerCluster <= Min(m, blockNum))
      && (boot.Within(m).Valid() && c < boot.ClusterEnd() ==>
            (IsLoaded(boot, file, blockNum, c) <==> c < boot.Within(m).ClusterEnd()))
  {
    hide IsAnswered;
    var s, k, m := boot.ClusterSector(c), boot.sectorsPerCluster, Whole(|file|, boot.bytesPerSector);
    SectorBound(boot, c);
    forall a: nat | s <= a < s + k
      ensures IsAnswered(file, blockNum, boot.bytesPerSector, a) <==> a < Min(m, blockNum)
    {
      AnsweredIffHeld(file, blockNum, boot.bytesPerSector, a);
    }
    if IsLoaded(boot, file, blockNum, c) {
      var last: nat := s + k - 1;
      assert IsAnswered(file, blockNum, boot.bytesPerSector, last);
    }
    if boot.Within(m).Valid() && c < boot.ClusterEnd() {
      HeldClusters(boot, m, c);
    }
  }

  lemma SectorBound(boot: Geometry, c: nat)
    requires 2 <= c < boot.FatEntries()
    ensures boot.ClusterSector(c) + boot.sectorsPerCluster < 0x8000_0000
  {
    hide Span;
    LayoutInOrder(boot);
    SpanIsProduct(c - 2, boot.sectorsPerCluster);
    Products(c - 2, boot.sectorsPerCluster);
  }

  lemma Products(a: nat, b: nat)
    requires a < 0x1_0000 && b < 0x100
    ensures a * b < 0x100_0000
  {
    MoreBlocks(a, 0x1_0000, b);
  }

  /** The clusters of the volume as far as `m` sectors hold it. */
  lemma HeldClusters(boot: Geometry, m: nat, c: nat)
    requires boot.Within(m).Valid() && 2 <= c < boot.ClusterEnd()
    ensures boot.ClusterSector(c) + boot.sectorsPerCluster <= boot.totalSectors
    ensures c < boot.Within(m).ClusterEnd() <==> boot.ClusterSector(c) + boot.sectorsPerCluster <= m
  {
    hide Span, Whole;
    var held: Geometry := boot.Within(m);
    LayoutInOrder(boot);
    LayoutInOrder(held);
    ClusterInRange(boot, c);
    HeldBlock(held.totalSectors - boot.DataStart(), boot.sectorsPerCluster, c - 2);
  }

  /** On the disk file as the repository makes it the clusters up to 1000 can be loaded. */
  lemma ShippedClusters(file: seq<Byte>, c: nat)
    requires |file| == 16 * 65536 && 2 <= c < 4096
    ensures IsLoaded(SHIPPED, file, 8192, c) <==> c <= 1000
  {
    hide IsLoaded;
    ShippedGeometry();
    WholeIsQuotient(16 * 65536, 512);
    SpanIsProduct(c - 2, 2);
    LoadedIffHeld(SHIPPED, file, 8192, c);
  }

  /** So the first free cluster, which the allocating loop loads, can be loaded exactly when it is a cluster of the
      volume as the file holds it. */
  lemma ShippedAllocation(g: Geometry, img: Image, file: seq<Byte>, c: nat)
    requires g == SHIPPED.Within(2048) && ValidImage(g, img) && |file| == 16 * 65536
    requires IsFirstFree(VolumeOf(g, img).fat, c) && 2 <= c
    ensures IsLoaded(SHIPPED, file, 8192, c) <==> VolumeOf(g, img).HasCluster(c)
  {
    hide VolumeOf, IsLoaded;
    VolumeShape(g, img);
    ShippedGeometry();
    ShippedFileGeometry();
    ShippedClusters(file, c);
  }
}
