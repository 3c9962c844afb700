/** How a FAT16 volume is laid out in sectors, and the volume those sectors stand for. */
module FatLayout {
  import opened Bytes
  import opened Blocks
  import opened BlockDevice

  type Sector = seq<Byte>
  type Image = seq<Sector>

  const SLOT_BYTES := 32
  /** First value of a FAT entry that ends a chain: the loops run while an entry is below it. */
  const CHAIN_END := 0xfff0
  const LAST_CLUSTER := 0xffff

  /** The fields of the boot sector that the file system works with. */
  datatype BootSector = BootSector(
    bytesPerSector: nat,
    sectorsPerCluster: nat,
    reservedSectors: nat,
    numFats: nat,
    rootEntries: nat,
    totalSectors: nat,
    sectorsPerFat: nat)
  {
    function FatStart(): nat { reservedSectors }

    function RootStart(): nat { FatStart() + Span(numFats, sectorsPerFat) }

    function RootSectors(): nat
      requires 0 < bytesPerSector
    {
      Whole(rootEntries * 32, bytesPerSector)
    }

    function DataStart(): nat
      requires 0 < bytesPerSector
    {
      RootStart() + RootSectors()
    }

    function BytesPerCluster(): nat { Span(sectorsPerCluster, bytesPerSector) }

    function FatEntries(): nat { Span(sectorsPerFat, bytesPerSector / 2) }

    /** First sector of a cluster; numbering starts from 2, and the numbers 0 and 1 lead to sectors in front of the data
        region. */
    function ClusterSector(c: nat): nat
      requires 0 < bytesPerSector
    {
      if c < 2 then U32(DataStart() - Span(2 - c, sectorsPerCluster)) else DataStart() + Span(c - 2, sectorsPerCluster)
    }

    /** Where the routines look for the entry of a cluster number in the FAT: sector, and index in the sector. For a
        number that the FAT has no entry for, this is behind it. */
    function EntrySector(c: nat): nat
      requires 0 < bytesPerSector
    {
      FatStart() + Whole(c * 2, bytesPerSector)
    }

    function EntryIndex(c: nat): int
      requires 0 < bytesPerSector
    {
      c * 2 - Span(Whole(c * 2, bytesPerSector), bytesPerSector)
    }

    /** The same volume on a disk that holds only the first `sectors` sectors. The routines read the number of sectors
        and never use it. */
    function Within(sectors: nat): BootSector {
      this.(totalSectors := Min(totalSectors, sectors))
    }

    /** How many clusters there are: those the volume has sectors for, as far as the FAT has entries for them. The
        FAT may have more entries, and then some clusters that it can name do not exist. */
    function Clusters(): nat
      requires 0 < bytesPerSector && 0 < sectorsPerCluster && DataStart() <= totalSectors && 2 <= FatEntries()
    {
      Min(FatEntries() - 2, Whole(totalSectors - DataStart(), sectorsPerCluster))
    }

    /** The first cluster number without sectors. */
    function ClusterEnd(): nat
      requires 0 < bytesPerSector && 0 < sectorsPerCluster && DataStart() <= totalSectors && 2 <= FatEntries()
    {
      Clusters() + 2
    }

    /** First sector past the last cluster. */
    function DataEnd(): nat
      requires 0 < bytesPerSector && 0 < sectorsPerCluster && DataStart() <= totalSectors && 2 <= FatEntries()
    {
      DataStart() + Span(Clusters(), sectorsPerCluster)
    }

    /** The volumes the code can work on. */
    ghost predicate Valid() {
      && 0 < bytesPerSector < 0x1_0000 && bytesPerSector % SLOT_BYTES == 0
      && 0 < sectorsPerCluster < 0x100
      && BytesPerCluster() <= 0x1_0000
      && 0 < numFats && 0 < sectorsPerFat
      && rootEntries < 0x8000
      && rootEntries * 32 == Span(RootSectors(), bytesPerSector)
      && 2 <= FatEntries() <= CHAIN_END
      && DataStart() + sectorsPerCluster <= totalSectors < 0x1_0000
    }
  }

  /** The boot sectors of the volumes the code can work on. */
  type Geometry = b: BootSector | b.Valid() ghost witness SmallestVolume()

  ghost function SmallestVolume(): (b: BootSector)
    ensures b.Valid()
  {
    SpanIsProduct(14, 1);
    BootSector(32, 1, 1, 1, 1, 17, 1)
  }

  /** What the sectors mean: the FAT as a successor map, the clusters from number 2 on, the root
      directory table, and every sector that is none of these. */
  datatype Volume = Volume(fat: seq<nat>, data: seq<seq<Byte>>, root: seq<Byte>, rest: seq<Sector>) {
    predicate HasCluster(c: int) {
      2 <= c < |fat| && c - 2 < |data|
    }

    function Cluster(c: nat): seq<Byte>
      requires HasCluster(c)
    {
      data[c - 2]
    }

    function WithCluster(c: nat, bytes: seq<Byte>): Volume
      requires HasCluster(c)
    {
      this.(data := data[c - 2 := bytes])
    }

    function WithEntry(c: nat, successor: nat): Volume
      requires c < |fat|
    {
      this.(fat := fat[c := successor])
    }
  }

  ghost predicate ValidImage(g: Geometry, img: Image) {
    && g.totalSectors <= |img|
    && Uniform(img, g.bytesPerSector)
  }

  function Words(b: seq<Byte>): (w: seq<nat>)
    ensures |w| == |b| / 2
    ensures forall c :: 0 <= c < |w| ==> w[c] == Word(b[2 * c], b[2 * c + 1])
  {
    seq(|b| / 2, c requires 0 <= c < |b| / 2 => Word(b[2 * c], b[2 * c + 1]))
  }

  ghost function FatBytes(g: Geometry, img: Image): seq<Byte>
    requires ValidImage(g, img)
  {
    LayoutInOrder(g);
    Flatten(img[g.FatStart()..g.FatStart() + g.sectorsPerFat])
  }

  ghost function RootBytes(g: Geometry, img: Image): seq<Byte>
    requires ValidImage(g, img)
  {
    LayoutInOrder(g);
    Flatten(img[g.RootStart()..g.DataStart()])
  }

  ghost function ClusterBytes(g: Geometry, img: Image, c: nat): seq<Byte>
    requires ValidImage(g, img) && 2 <= c < g.ClusterEnd()
  {
    LayoutInOrder(g);
    ClusterInRange(g, c);
    Flatten(img[g.ClusterSector(c)..g.ClusterSector(c) + g.sectorsPerCluster])
  }

  ghost function RestSectors(g: Geometry, img: Image): seq<Sector>
    requires ValidImage(g, img)
  {
    LayoutInOrder(g);
    img[..g.FatStart()] + img[g.FatStart() + g.sectorsPerFat..g.RootStart()] + img[g.DataEnd()..]
  }

  ghost function VolumeOf(g: Geometry, img: Image): (v: Volume)
    requires ValidImage(g, img)
  {
    Volume(
      Words(FatBytes(g, img)),
      seq(g.Clusters(), i requires 0 <= i < g.Clusters() => ClusterBytes(g, img, i + 2)),
      RootBytes(g, img),
      RestSectors(g, img))
  }

  /** The FAT, its mirrors, the root directory and the data region follow each other. */
  lemma LayoutInOrder(g: Geometry)
    ensures g.FatStart() + g.sectorsPerFat <= g.RootStart() <= g.DataStart() < g.DataEnd() <= g.totalSectors
    ensures g.RootSectors() == g.DataStart() - g.RootStart()
    ensures 3 <= g.ClusterEnd() <= g.FatEntries()
  {
    SpanInside(0, g.numFats, g.sectorsPerFat);
    ClusterCount(g);
  }

  /** There is a cluster, and all there are lie inside the volume. */
  lemma ClusterCount(g: Geometry)
    ensures 0 < g.Clusters() <= g.FatEntries() - 2
    ensures 0 < Span(g.Clusters(), g.sectorsPerCluster) <= g.totalSectors - g.DataStart()
  {
    var room := g.totalSectors - g.DataStart();
    SpanInside(0, g.sectorsPerFat, g.bytesPerSector / 2);
    assert 16 <= g.FatEntries();
    WholeSpan(room, g.sectorsPerCluster);
    var all := Whole(room, g.sectorsPerCluster);
    assert 0 < all;
    SpanAdd(g.Clusters(), all - g.Clusters(), g.sectorsPerCluster);
    SpanInside(0, g.Clusters(), g.sectorsPerCluster);
  }

  lemma ClusterInRange(g: Geometry, c: nat)
    requires 2 <= c < g.ClusterEnd()
    ensures g.DataStart() <= g.ClusterSector(c) <= g.ClusterSector(c) + g.sectorsPerCluster <= g.DataEnd()
  {
    SpanInside(c - 2, g.Clusters(), g.sectorsPerCluster);
  }

  lemma BehindClusters(g: Geometry, c: nat)
    requires g.ClusterEnd() <= c
    ensures g.DataEnd() <= g.ClusterSector(c)
  {
    SpanAdd(g.Clusters(), c - g.ClusterEnd(), g.sectorsPerCluster);
  }

  /** The sector ranges of two clusters never meet. */
  lemma ClustersApart(g: Geometry, c: nat, d: nat)
    requires 2 <= c < g.ClusterEnd() && 2 <= d < g.ClusterEnd() && c != d
    ensures g.ClusterSector(c) + g.sectorsPerCluster <= g.ClusterSector(d)
         || g.ClusterSector(d) + g.sectorsPerCluster <= g.ClusterSector(c)
  {
    if c < d {
      SpanInside(c - 2, d - 2, g.sectorsPerCluster);
    } else {
      SpanInside(d - 2, c - 2, g.sectorsPerCluster);
    }
  }

  /** Sizes of everything in a volume. */
  lemma VolumeShape(g: Geometry, img: Image)
    requires ValidImage(g, img)
    ensures var v := VolumeOf(g, img);
      && |v.fat| == g.FatEntries() && |v.data| == g.Clusters() <= |v.fat| - 2
      && |v.root| == g.rootEntries * 32
      && (forall c :: v.HasCluster(c) <==> 2 <= c < g.ClusterEnd())
      && (forall c :: v.HasCluster(c) ==> |v.Cluster(c)| == g.BytesPerCluster())
      && (forall c :: 0 <= c < |v.fat| ==> v.fat[c] < 0x1_0000)
  {
    LayoutInOrder(g);
    FatBytesLength(g, img);
    FlattenLength(img[g.RootStart()..g.DataStart()], g.bytesPerSector);
    forall c: nat | 2 <= c < g.ClusterEnd() ensures |ClusterBytes(g, img, c)| == g.BytesPerCluster() {
      ClusterBytesLength(g, img, c);
    }
  }

  lemma Basics(g: Geometry)
    ensures 0 < g.bytesPerSector == 2 * (g.bytesPerSector / 2) < 0x1_0000
    ensures g.bytesPerSector == 32 * (g.bytesPerSector / 32)
    ensures 2 <= g.FatEntries() <= CHAIN_END
  {
  }

  lemma FatBytesLength(g: Geometry, img: Image)
    requires ValidImage(g, img)
    ensures |FatBytes(g, img)| == 2 * g.FatEntries()
  {
    hide Span, Flatten, BootSector.Valid;
    LayoutInOrder(g);
    Basics(g);
    FlattenLength(img[g.FatStart()..g.FatStart() + g.sectorsPerFat], g.bytesPerSector);
    SpanHalf(g.sectorsPerFat, g.bytesPerSector, g.bytesPerSector / 2);
  }

  lemma ClusterBytesLength(g: Geometry, img: Image, c: nat)
    requires ValidImage(g, img) && 2 <= c < g.ClusterEnd()
    ensures |ClusterBytes(g, img, c)| == g.BytesPerCluster()
  {
    LayoutInOrder(g);
    ClusterInRange(g, c);
    FlattenLength(img[g.ClusterSector(c)..g.ClusterSector(c) + g.sectorsPerCluster], g.bytesPerSector);
  }

  /** A FAT entry lies in one sector, at an even byte index; the index computed from the entry number
      is the one computed from the byte offset. */
  lemma FatEntryPosition(g: Geometry, c: nat, perSector: nat)
    requires perSector == g.bytesPerSector / 2
    ensures var n := g.bytesPerSector; var q := Whole(c * 2, n);
      && (c < g.FatEntries() ==> q < g.sectorsPerFat)
      && Span(q, n) <= c * 2 && c * 2 - Span(q, n) + 2 <= n
      && 0 <= c - Span(q, perSector) < perSector
      && (c - Span(q, perSector)) * 2 == c * 2 - Span(q, n)
  {
    hide Span, Whole, BootSector.Valid;
    Basics(g);
    var n := g.bytesPerSector;
    SpanHalf(g.sectorsPerFat, n, perSector);
    WholeSpan(c * 2, n);
    if c < g.FatEntries() {
      WholeInside(c * 2, g.sectorsPerFat, n);
    }
    SpanHalf(Whole(c * 2, n), n, perSector);
  }

  /** The words of block `i` are the words from `i*half` on of the whole. */
  lemma WordsOfBlock(blocks: seq<seq<Byte>>, n: nat, half: nat, i: nat)
    requires Uniform(blocks, n) && n == 2 * half && i < |blocks|
    ensures Span(i, half) + half <= |Words(Flatten(blocks))|
    ensures forall d :: Span(i, half) <= d < Span(i, half) + half ==>
              Words(Flatten(blocks))[d] == Words(blocks[i])[d - Span(i, half)]
  {
    hide Span, Flatten;
    SpanHalf(i, n, half);
    FlattenSlice(blocks, n, i);
    WordsInSlice(Flatten(blocks), Span(i, n), blocks[i], Span(i, half));
  }

  lemma WordsInSlice(whole: seq<Byte>, at: nat, block: seq<Byte>, first: nat)
    requires at == 2 * first && at + |block| <= |whole| && whole[at..at + |block|] == block && |block| % 2 == 0
    ensures first + |block| / 2 <= |Words(whole)|
    ensures forall d :: first <= d < first + |block| / 2 ==> Words(whole)[d] == Words(block)[d - first]
  {
    forall d | first <= d < first + |block| / 2 ensures Words(whole)[d] == Words(block)[d - first] {
      assert block[2 * (d - first)] == whole[2 * d] && block[2 * (d - first) + 1] == whole[2 * d + 1];
    }
  }

  lemma FatLength(g: Geometry, img: Image)
    requires ValidImage(g, img)
    ensures 2 <= |VolumeOf(g, img).fat| == g.FatEntries() <= CHAIN_END
  {
    hide Span, Flatten;
    FatBytesLength(g, img);
  }

  /** FAT sector `i` holds the entries from `i*perSector` on. */
  lemma SectorWords(g: Geometry, img: Image, perSector: nat, i: nat)
    requires ValidImage(g, img) && perSector == g.bytesPerSector / 2 && i < g.sectorsPerFat
    ensures var s := g.FatStart() + i; var from := Span(i, perSector);
      && s < |img| && |img[s]| == g.bytesPerSector
      && Span(i + 1, perSector) == from + perSector <= |VolumeOf(g, img).fat|
      && forall d :: from <= d < from + perSector ==> VolumeOf(g, img).fat[d] == Words(img[s])[d - from]
  {
    hide Span, Flatten, Words, BootSector.Valid;
    SpanStep(i, perSector);
    Basics(g);
    LayoutInOrder(g);
    WordsOfBlock(img[g.FatStart()..g.FatStart() + g.sectorsPerFat], g.bytesPerSector, perSector, i);
  }

  /** Reading an entry: the word at its position is the successor map's value. */
  lemma FatEntryRead(g: Geometry, img: Image, c: nat)
    requires ValidImage(g, img) && c < g.FatEntries()
    ensures var q := Whole(c * 2, g.bytesPerSector); var at := c * 2 - Span(q, g.bytesPerSector);
      && q < g.sectorsPerFat && g.FatStart() + q < |img|
      && 0 <= at && at + 2 <= g.bytesPerSector == |img[g.FatStart() + q]|
      && c < |VolumeOf(g, img).fat|
      && VolumeOf(g, img).fat[c] == Word(img[g.FatStart() + q][at], img[g.FatStart() + q][at + 1])
  {
    hide VolumeOf, Span, Whole, BootSector.Valid;
    var perSector := g.bytesPerSector / 2;
    FatEntryPosition(g, c, perSector);
    var q := Whole(c * 2, g.bytesPerSector);
    SectorWords(g, img, perSector, q);
  }

  lemma ClusterUntouched(g: Geometry, img: Image, img': Image, from: int, to: int, d: nat)
    requires ValidImage(g, img) && ValidImage(g, img') && 2 <= d < g.ClusterEnd()
    requires SameOutside(img, img', from, to)
    requires to <= g.ClusterSector(d) || g.ClusterSector(d) + g.sectorsPerCluster <= from
    ensures ClusterBytes(g, img', d) == ClusterBytes(g, img, d)
  {
    hide Span, Flatten, Words, BootSector.Valid;
    LayoutInOrder(g);
    ClusterInRange(g, d);
    var first, end := g.ClusterSector(d), g.ClusterSector(d) + g.sectorsPerCluster;
    assert img'[first..end] == img[first..end];
  }

  /** Changing sectors of the first FAT only changes the successor map. */
  lemma FatRegionFrame(g: Geometry, img: Image, img': Image)
    requires ValidImage(g, img) && ValidImage(g, img')
    requires SameOutside(img, img', g.FatStart(), g.FatStart() + g.sectorsPerFat)
    ensures VolumeOf(g, img') == VolumeOf(g, img).(fat := Words(FatBytes(g, img')))
  {
    hide Span, Flatten, Words, BootSector.Valid;
    Basics(g);
    LayoutInOrder(g);
    assert img'[g.RootStart()..g.DataStart()] == img[g.RootStart()..g.DataStart()];
    assert RestSectors(g, img') == RestSectors(g, img);
    forall d: nat | 2 <= d < g.ClusterEnd() ensures ClusterBytes(g, img', d) == ClusterBytes(g, img, d) {
      ClusterInRange(g, d);
      ClusterUntouched(g, img, img', g.FatStart(), g.FatStart() + g.sectorsPerFat, d);
    }
    assert VolumeOf(g, img').data == VolumeOf(g, img).data;
  }

  /** Changing sectors of the root directory only changes the root table. */
  lemma RootRegionFrame(g: Geometry, img: Image, img': Image)
    requires ValidImage(g, img) && ValidImage(g, img')
    requires SameOutside(img, img', g.RootStart(), g.DataStart())
    ensures VolumeOf(g, img') == VolumeOf(g, img).(root := RootBytes(g, img'))
  {
    hide Span, Flatten, Words, BootSector.Valid;
    Basics(g);
    LayoutInOrder(g);
    assert img'[g.FatStart()..g.FatStart() + g.sectorsPerFat] == img[g.FatStart()..g.FatStart() + g.sectorsPerFat];
    assert RestSectors(g, img') == RestSectors(g, img);
    forall d: nat | 2 <= d < g.ClusterEnd() ensures ClusterBytes(g, img', d) == ClusterBytes(g, img, d) {
      ClusterInRange(g, d);
      ClusterUntouched(g, img, img', g.RootStart(), g.DataStart(), d);
    }
    assert VolumeOf(g, img').data == VolumeOf(g, img).data;
  }

  /** Changing sectors past the last cluster changes none of what the volume holds. */
  lemma RestRegionFrame(g: Geometry, img: Image, img': Image, from: nat, to: nat)
    requires ValidImage(g, img) && ValidImage(g, img')
    requires SameOutside(img, img', from, to) && g.DataEnd() <= from
    ensures VolumeOf(g, img') == VolumeOf(g, img).(rest := RestSectors(g, img'))
  {
    hide Span, Flatten, Words, BootSector.Valid;
    Basics(g);
    LayoutInOrder(g);
    assert img'[g.FatStart()..g.FatStart() + g.sectorsPerFat] == img[g.FatStart()..g.FatStart() + g.sectorsPerFat];
    assert img'[g.RootStart()..g.DataStart()] == img[g.RootStart()..g.DataStart()];
    forall d: nat | 2 <= d < g.ClusterEnd() ensures ClusterBytes(g, img', d) == ClusterBytes(g, img, d) {
      ClusterInRange(g, d);
      ClusterUntouched(g, img, img', from, to, d);
    }
    assert VolumeOf(g, img').data == VolumeOf(g, img).data;
  }

  /** Changing sectors of one cluster changes that cluster and nothing else. */
  lemma ClusterRegionFrame(g: Geometry, img: Image, img': Image, c: nat)
    requires ValidImage(g, img) && ValidImage(g, img') && 2 <= c < g.ClusterEnd()
    requires SameOutside(img, img', g.ClusterSector(c), g.ClusterSector(c) + g.sectorsPerCluster)
    ensures VolumeOf(g, img).HasCluster(c)
    ensures VolumeOf(g, img') == VolumeOf(g, img).WithCluster(c, ClusterBytes(g, img', c))
  {
    hide Span, Flatten, Words, BootSector.Valid;
    LayoutInOrder(g);
    ClusterInRange(g, c);
    VolumeShape(g, img);
    assert img'[g.FatStart()..g.FatStart() + g.sectorsPerFat] == img[g.FatStart()..g.FatStart() + g.sectorsPerFat];
    assert img'[g.RootStart()..g.DataStart()] == img[g.RootStart()..g.DataStart()];
    assert RestSectors(g, img') == RestSectors(g, img);
    forall d: nat | 2 <= d < g.ClusterEnd() && d != c ensures ClusterBytes(g, img', d) == ClusterBytes(g, img, d) {
      ClustersApart(g, c, d);
      ClusterUntouched(g, img, img', g.ClusterSector(c), g.ClusterSector(c) + g.sectorsPerCluster, d);
    }
    assert VolumeOf(g, img').data == VolumeOf(g, img).WithCluster(c, ClusterBytes(g, img', c)).data;
  }

  /** Writing an entry's two bytes into its sector updates the successor map there and nothing else. */
  lemma FatEntryWrite(g: Geometry, img: Image, c: nat, successor: nat)
    requires ValidImage(g, img) && c < g.FatEntries() && successor < 0x1_0000
    ensures var q := Whole(c * 2, g.bytesPerSector);
      var at, s := c * 2 - Span(q, g.bytesPerSector), g.FatStart() + q;
      && s < |img| && 0 <= at && at + 2 <= |img[s]| < 0x1_0000
      && var img' := img[s := Splice(img[s], at, WordBytes(successor))];
      && ValidImage(g, img')
      && c < |VolumeOf(g, img).fat|
      && VolumeOf(g, img') == VolumeOf(g, img).WithEntry(c, successor)
  {
    hide Span, Whole, Flatten, Splice, Words, WordBytes, BootSector.Valid;
    FatEntryPosition(g, c, g.bytesPerSector / 2);
    Basics(g);
    LayoutInOrder(g);
    var q := Whole(c * 2, g.bytesPerSector);
    var at := c * 2 - Span(q, g.bytesPerSector);
    var s := g.FatStart() + q;
    var img' := img[s := Splice(img[s], at, WordBytes(successor))];
    FatRegionFrame(g, img, img');
    FatEntryBytes(g, img, q, at, WordBytes(successor));
    FatBytesLength(g, img);
    WordsSplice(FatBytes(g, img), c, successor);
  }

  lemma FatEntryBytes(g: Geometry, img: Image, q: nat, at: nat, x: seq<Byte>)
    requires ValidImage(g, img) && q < g.sectorsPerFat && at + |x| <= g.bytesPerSector
    ensures var s := g.FatStart() + q;
      && s < |img|
      && ValidImage(g, img[s := Splice(img[s], at, x)])
      && Span(q, g.bytesPerSector) + at + |x| <= |FatBytes(g, img)|
      && FatBytes(g, img[s := Splice(img[s], at, x)]) == Splice(FatBytes(g, img), Span(q, g.bytesPerSector) + at, x)
  {
    hide Span, Flatten, Words, BootSector.Valid;
    LayoutInOrder(g);
    var s := g.FatStart() + q;
    var img' := img[s := Splice(img[s], at, x)];
    var sectors := img[g.FatStart()..g.FatStart() + g.sectorsPerFat];
    FlattenSplice(sectors, g.bytesPerSector, q, at, x);
    assert img'[g.FatStart()..g.FatStart() + g.sectorsPerFat] == sectors[q := img'[s]];
  }

  lemma WordsSplice(b: seq<Byte>, c: nat, w: nat)
    requires 2 * c + 2 <= |b| && w < 0x1_0000
    ensures Words(Splice(b, 2 * c, WordBytes(w))) == Words(b)[c := w]
  {
    var after := Splice(b, 2 * c, WordBytes(w));
    forall d | 0 <= d < |b| / 2 ensures Words(after)[d] == Words(b)[c := w][d] {
      if d == c {
        WordRoundTrip(w);
      }
    }
  }

  /** Overwriting bytes of one root directory sector overwrites the root table there and nothing else. */
  lemma RootWrite(g: Geometry, img: Image, i: nat, at: nat, x: seq<Byte>)
    requires ValidImage(g, img) && i < g.RootSectors() && at + |x| <= g.bytesPerSector
    ensures var s := g.RootStart() + i;
      && s < |img| && at + |x| <= |img[s]|
      && var img' := img[s := Splice(img[s], at, x)];
      && ValidImage(g, img')
      && Span(i, g.bytesPerSector) + at + |x| <= |VolumeOf(g, img).root|
      && VolumeOf(g, img')
         == VolumeOf(g, img).(root := Splice(VolumeOf(g, img).root, Span(i, g.bytesPerSector) + at, x))
  {
    hide Span, Flatten, Words;
    LayoutInOrder(g);
    var s := g.RootStart() + i;
    var img' := img[s := Splice(img[s], at, x)];
    var sectors := img[g.RootStart()..g.DataStart()];
    FlattenSplice(sectors, g.bytesPerSector, i, at, x);
    assert img'[g.RootStart()..g.DataStart()] == sectors[i := img'[s]];
    RootRegionFrame(g, img, img');
  }

  /** Overwriting bytes of one sector of a cluster overwrites the cluster there and nothing else. */
  lemma ClusterSectorWrite(g: Geometry, img: Image, c: nat, i: nat, at: nat, x: seq<Byte>)
    requires ValidImage(g, img) && 2 <= c < g.ClusterEnd() && i < g.sectorsPerCluster && at + |x| <= g.bytesPerSector
    ensures var s := g.ClusterSector(c) + i; var o := Span(i, g.bytesPerSector) + at; var v := VolumeOf(g, img);
      && s < |img| && |img[s]| == g.bytesPerSector
      && v.HasCluster(c) && o + |x| <= |v.Cluster(c)| == g.BytesPerCluster()
      && img[s][at..at + |x|] == v.Cluster(c)[o..o + |x|]
      && var img' := img[s := Splice(img[s], at, x)];
      && ValidImage(g, img')
      && VolumeOf(g, img') == v.WithCluster(c, Splice(v.Cluster(c), o, x))
  {
    hide Span, Flatten, Words, BootSector.Valid;
    LayoutInOrder(g);
    ClusterInRange(g, c);
    VolumeShape(g, img);
    var first := g.ClusterSector(c);
    var s := first + i;
    var img' := img[s := Splice(img[s], at, x)];
    var sectors := img[first..first + g.sectorsPerCluster];
    FlattenSplice(sectors, g.bytesPerSector, i, at, x);
    FlattenSlice(sectors, g.bytesPerSector, i);
    PartOfSlice(Flatten(sectors), Span(i, g.bytesPerSector), img[s], at, |x|);
    assert img'[first..first + g.sectorsPerCluster] == sectors[i := img'[s]];
    ClusterRegionFrame(g, img, img', c);
  }

  lemma PartOfSlice(whole: seq<Byte>, from: nat, part: seq<Byte>, at: nat, n: nat)
    requires from + |part| <= |whole| && whole[from..from + |part|] == part && at + n <= |part|
    ensures part[at..at + n] == whole[from + at..from + at + n]
  {
    assert forall k :: 0 <= k < |part| ==> part[k] == whole[from + k];
  }

  /** For a number without an entry in the FAT: the cluster that the place looked at is in. */
  function StrayCluster(g: Geometry, c: nat): nat {
    if g.EntrySector(c) < g.DataStart() then 0 else 2 + Whole(g.EntrySector(c) - g.DataStart(), g.sectorsPerCluster)
  }

  ghost predicate Strays(g: Geometry, c: nat) {
    LayoutInOrder(g);
    g.FatEntries() <= c < 0x1_0000 && 2 <= StrayCluster(g, c) < g.ClusterEnd()
  }

  /** And the index in that cluster. */
  ghost function StrayIndex(g: Geometry, c: nat): (o: nat)
    requires Strays(g, c)
    ensures o + 2 <= g.BytesPerCluster()
  {
    StrayPosition(g, c);
    Span(g.EntrySector(c) - g.ClusterSector(StrayCluster(g, c)), g.bytesPerSector) + g.EntryIndex(c)
  }

  lemma StrayPosition(g: Geometry, c: nat)
    requires Strays(g, c)
    ensures var d := StrayCluster(g, c); var i := g.EntrySector(c) - g.ClusterSector(d);
      && 0 <= i < g.sectorsPerCluster
      && 0 <= g.EntryIndex(c) && g.EntryIndex(c) + 2 <= g.bytesPerSector
      && Span(i, g.bytesPerSector) + g.EntryIndex(c) + 2 <= g.BytesPerCluster()
  {
    hide Span, Whole;
    Basics(g);
    FatEntryPosition(g, c, g.bytesPerSector / 2);
    WholeSpan(g.EntrySector(c) - g.DataStart(), g.sectorsPerCluster);
    SpanInside(g.EntrySector(c) - g.ClusterSector(StrayCluster(g, c)), g.sectorsPerCluster, g.bytesPerSector);
  }

  /** Reading the entry of such a number reads two bytes of that cluster, and writing it overwrites them. */
  lemma StrayEntry(g: Geometry, img: Image, c: nat, successor: nat)
    requires ValidImage(g, img) && Strays(g, c)
    ensures var d, o := StrayCluster(g, c), StrayIndex(g, c); var s, at := g.EntrySector(c), g.EntryIndex(c);
      var v := VolumeOf(g, img);
      && s < |img| && 0 <= at && at + 2 <= |img[s]|
      && v.HasCluster(d) && o + 2 <= |v.Cluster(d)| == g.BytesPerCluster()
      && Word(img[s][at], img[s][at + 1]) == Word(v.Cluster(d)[o], v.Cluster(d)[o + 1])
      && var img' := img[s := Splice(img[s], at, WordBytes(successor))];
      && ValidImage(g, img')
      && VolumeOf(g, img') == v.WithCluster(d, Splice(v.Cluster(d), o, WordBytes(successor)))
  {
    hide VolumeOf, Span, Whole, BootSector.Valid;
    StrayPosition(g, c);
    var d, o := StrayCluster(g, c), StrayIndex(g, c);
    var s, at := g.EntrySector(c), g.EntryIndex(c);
    ClusterSectorWrite(g, img, d, s - g.ClusterSector(d), at, WordBytes(successor));
    var bytes := VolumeOf(g, img).Cluster(d);
    assert img[s][at] == img[s][at..at + 2][0] == bytes[o..o + 2][0];
    assert img[s][at + 1] == img[s][at..at + 2][1] == bytes[o..o + 2][1];
  }

  /** The image with the two bytes overwritten where the entry of a cluster number is looked for. */
  ghost function WithEntryBytes(g: Geometry, img: Image, c: nat, x: seq<Byte>): Image
    requires Uniform(img, g.bytesPerSector) && |x| == 2
  {
    FatEntryPosition(g, c, g.bytesPerSector / 2);
    Basics(g);
    var s := g.EntrySector(c);
    if s < |img| then img[s := Splice(img[s], g.EntryIndex(c), x)] else img
  }

  lemma EntrySet(g: Geometry, img: Image, c: nat, successor: nat)
    requires ValidImage(g, img) && successor < 0x1_0000
    ensures var v, img' := VolumeOf(g, img), WithEntryBytes(g, img, c, WordBytes(successor));
      && ValidImage(g, img')
      && (c < g.FatEntries() ==> c < |v.fat| && VolumeOf(g, img') == v.WithEntry(c, successor))
      && (Strays(g, c) ==>
            var d := StrayCluster(g, c);
            && v.HasCluster(d) && |v.Cluster(d)| == g.BytesPerCluster()
            && VolumeOf(g, img') == StrayWritten(g, v, c, successor))
  {
    hide VolumeOf, Span, Whole, Splice, WordBytes, StrayIndex, BootSector.Valid;
    if c < g.FatEntries() {
      FatEntryWrite(g, img, c, successor);
    } else if Strays(g, c) {
      StrayEntry(g, img, c, successor);
    }
    EntrySetValid(g, img, c, WordBytes(successor));
  }

  lemma EntrySetValid(g: Geometry, img: Image, c: nat, x: seq<Byte>)
    requires ValidImage(g, img) && |x| == 2
    ensures ValidImage(g, WithEntryBytes(g, img, c, x))
  {
    hide Span, Whole, BootSector.Valid;
  }

  /** What those two bytes say. */
  ghost function StrayRead(g: Geometry, v: Volume, c: nat): nat
    requires Strays(g, c) && v.HasCluster(StrayCluster(g, c))
    requires |v.Cluster(StrayCluster(g, c))| == g.BytesPerCluster()
  {
    var bytes, o := v.Cluster(StrayCluster(g, c)), StrayIndex(g, c);
    Word(bytes[o], bytes[o + 1])
  }

  /** The volume with those two bytes overwritten. */
  ghost function StrayWritten(g: Geometry, v: Volume, c: nat, successor: nat): (w: Volume)
    requires Strays(g, c) && v.HasCluster(StrayCluster(g, c))
    requires |v.Cluster(StrayCluster(g, c))| == g.BytesPerCluster()
    ensures w.fat == v.fat && |w.data| == |v.data|
  {
    var d := StrayCluster(g, c);
    v.WithCluster(d, Splice(v.Cluster(d), StrayIndex(g, c), WordBytes(successor)))
  }

  /** The sectors that a cluster number below 2 leads to, when they belong to the root directory. */
  predicate LeadsToRoot(g: Geometry, c: nat) {
    c < 2 && Span(2 - c, g.sectorsPerCluster) <= g.RootSectors()
  }

  function RootIndex(g: Geometry, c: nat): int
    requires c < 2
  {
    g.rootEntries * 32 - Span(2 - c, g.BytesPerCluster())
  }

  lemma RootCluster(g: Geometry, img: Image, img': Image, c: nat)
    requires ValidImage(g, img) && ValidImage(g, img') && LeadsToRoot(g, c)
    requires SameOutside(img, img', g.ClusterSector(c), g.ClusterSector(c) + g.sectorsPerCluster)
    ensures var s := g.ClusterSector(c); var v := VolumeOf(g, img); var at := RootIndex(g, c);
      && g.RootStart() <= s && s + g.sectorsPerCluster <= g.DataStart() <= |img|
      && 0 <= at && at + g.BytesPerCluster() <= |v.root|
      && |Flatten(img'[s..s + g.sectorsPerCluster])| == g.BytesPerCluster()
      && v.root[at..at + g.BytesPerCluster()] == Flatten(img[s..s + g.sectorsPerCluster])
      && VolumeOf(g, img') == v.(root := Splice(v.root, at, Flatten(img'[s..s + g.sectorsPerCluster])))
  {
    hide Words, Flatten;
    LayoutInOrder(g);
    RootClusterRange(g, c);
    var s, end := g.ClusterSector(c), g.ClusterSector(c) + g.sectorsPerCluster;
    FlattenParts(img, g.bytesPerSector, g.RootStart(), s, end, g.DataStart());
    FlattenParts(img', g.bytesPerSector, g.RootStart(), s, end, g.DataStart());
    assert img'[g.RootStart()..s] == img[g.RootStart()..s];
    assert img'[end..g.DataStart()] == img[end..g.DataStart()];
    RootRegionFrame(g, img, img');
  }

  /** What changing the sectors that a cluster number leads to does to the volume. */
  lemma ClusterSectors(g: Geometry, img: Image, img': Image, c: nat)
    requires ValidImage(g, img) && ValidImage(g, img')
    requires SameOutside(img, img', g.ClusterSector(c), g.ClusterSector(c) + g.sectorsPerCluster)
    ensures var s := g.ClusterSector(c); var v, v' := VolumeOf(g, img), VolumeOf(g, img');
      && (2 <= c < g.ClusterEnd() ==>
            && s + g.sectorsPerCluster <= |img| && v.HasCluster(c)
            && v.Cluster(c) == Flatten(img[s..s + g.sectorsPerCluster])
            && v' == v.WithCluster(c, Flatten(img'[s..s + g.sectorsPerCluster])))
      && (g.ClusterEnd() <= c ==> v' == v.(rest := v'.rest))
      && (LeadsToRoot(g, c) ==>
            && var at := RootIndex(g, c);
            && s + g.sectorsPerCluster <= |img| && |Flatten(img'[s..s + g.sectorsPerCluster])| == g.BytesPerCluster()
            && 0 <= at && at + g.BytesPerCluster() <= |v.root|
            && v.root[at..at + g.BytesPerCluster()] == Flatten(img[s..s + g.sectorsPerCluster])
            && v' == v.(root := Splice(v.root, at, Flatten(img'[s..s + g.sectorsPerCluster]))))
  {
    hide Flatten, Words, BootSector.Valid;
    LayoutInOrder(g);
    if LeadsToRoot(g, c) {
      RootCluster(g, img, img', c);
    } else if 2 <= c < g.ClusterEnd() {
      ClusterInRange(g, c);
      ClusterRegionFrame(g, img, img', c);
    } else if 2 <= c {
      BehindClusters(g, c);
      RestRegionFrame(g, img, img', g.ClusterSector(c), g.ClusterSector(c) + g.sectorsPerCluster);
    }
  }

  lemma RootClusterRange(g: Geometry, c: nat)
    requires LeadsToRoot(g, c)
    ensures var s := g.ClusterSector(c);
      && s == g.DataStart() - Span(2 - c, g.sectorsPerCluster)
      && g.RootStart() <= s && s + g.sectorsPerCluster <= g.DataStart()
      && RootIndex(g, c) == Span(s - g.RootStart(), g.bytesPerSector)
  {
    LayoutInOrder(g);
    var back := Span(2 - c, g.sectorsPerCluster);
    OneOrTwo(2 - c, g.sectorsPerCluster);
    OneOrTwo(2 - c, g.BytesPerCluster());
    SpanAdd(g.sectorsPerCluster, g.sectorsPerCluster, g.bytesPerSector);
    SpanAdd(g.RootSectors() - back, back, g.bytesPerSector);
  }

  lemma OneOrTwo(n: nat, size: nat)
    requires 0 < n <= 2
    ensures Span(n, size) == if n == 1 then size else size + size
  {
    SpanStep(0, size);
    SpanStep(1, size);
  }

  lemma FlattenParts(img: Image, n: nat, a: nat, b: nat, c: nat, d: nat)
    requires Uniform(img, n) && a <= b <= c <= d <= |img|
    ensures Flatten(img[a..d]) == Flatten(img[a..b]) + Flatten(img[b..c]) + Flatten(img[c..d])
    ensures |Flatten(img[a..b])| == Span(b - a, n) && |Flatten(img[b..c])| == Span(c - b, n)
  {
    hide Flatten;
    assert img[a..d] == img[a..b] + img[b..c] + img[c..d];
    FlattenConcat(img[a..b] + img[b..c], img[c..d]);
    FlattenConcat(img[a..b], img[b..c]);
    FlattenLength(img[a..b], n);
    FlattenLength(img[b..c], n);
  }

  /** The first sector of the data region is the first sector of cluster 2. */
  lemma FirstDataSector(g: Geometry, img: Image, x: Sector)
    requires ValidImage(g, img) && |x| == g.bytesPerSector
    ensures g.DataStart() < |img| && VolumeOf(g, img).HasCluster(2)
    ensures var v := VolumeOf(g, img); var n := g.bytesPerSector; var img' := img[g.DataStart() := x];
      && n <= |v.Cluster(2)| && img[g.DataStart()] == v.Cluster(2)[..n]
      && ValidImage(g, img')
      && VolumeOf(g, img') == v.WithCluster(2, x + v.Cluster(2)[n..])
  {
    hide VolumeOf, Splice, BootSector.Valid;
    LayoutInOrder(g);
    Basics(g);
    SpanStep(0, g.sectorsPerCluster);
    SpanStep(0, g.bytesPerSector);
    hide Span, Whole;
    ClusterSectorWrite(g, img, 2, 0, 0, x);
    SpliceFront(img[g.DataStart()], x);
    SpliceFront(VolumeOf(g, img).Cluster(2), x);
  }

  lemma SpliceFront(s: seq<Byte>, x: seq<Byte>)
    requires |x| <= |s|
    ensures Splice(s, 0, x) == x + s[|x|..] && s[0..|x|] == s[..|x|] && s[..|s|] == s
    ensures |x| == |s| ==> Splice(s, 0, x) == x
  {
  }

  /** The volume the repository comes with. Its FAT has entries for 4094 clusters, its sectors are enough for 4071. */
  const SHIPPED := BootSector(512, 2, 1, 1, 512, 8192, 16)

  lemma ShippedGeometry()
    ensures SHIPPED.Valid() && SHIPPED.FatEntries() == 4096 && SHIPPED.DataStart() == 49
    ensures SHIPPED.Clusters() == 4071 && SHIPPED.ClusterEnd() == 4073
  {
    SpanIsProduct(2, 512);
    SpanIsProduct(16, 256);
    SpanIsProduct(1, 16);
    WholeIsQuotient(512 * 32, 512);
    SpanIsProduct(32, 512);
    WholeIsQuotient(8192 - 49, 2);
  }

  /** The disk file made for it holds 2048 blocks, and so the clusters up to number 1000. */
  lemma ShippedFileGeometry()
    ensures SHIPPED.Within(2048).Valid() && SHIPPED.Within(2048).ClusterEnd() == 1001
  {
    ShippedGeometry();
    SpanIsProduct(2, 512);
    SpanIsProduct(32, 512);
    WholeIsQuotient(2048 - 49, 2);
  }

  /** The entry of the end mark 0xffff is looked for in the last two bytes of cluster 105. */
  lemma ShippedEndMark(g: Geometry)
    requires g == SHIPPED || g == SHIPPED.Within(2048)
    ensures Strays(g, LAST_CLUSTER) && StrayCluster(g, LAST_CLUSTER) == 105 && StrayIndex(g, LAST_CLUSTER) == 1022
  {
    ShippedGeometry();
    ShippedFileGeometry();
    WholeIsQuotient(LAST_CLUSTER * 2, 512);
    SpanIsProduct(255, 512);
    SpanIsProduct(103, 2);
    SpanIsProduct(1, 512);
    hide Whole, Span;
    WholeIsQuotient(256 - 49, 2);
  }
}
