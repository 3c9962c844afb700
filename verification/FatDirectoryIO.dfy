/** Directory routines on disk: searching, adding, updating and listing the root table and directories
    kept in cluster chains, and creating and deleting files. */
module FatDirectoryIO {
  import opened Bytes
  import opened Blocks
  import opened FatLayout
  import opened BlockDevice
  import opened FatChains
  import opened FatContent
  import opened FatTable
  import opened FatFiles
  import opened FatDirectory

  /** Whether the slot at byte `at` has the given name and extension. */
  method SlotHasName(buf: array<Byte>, at: nat, name: seq<Byte>, extension: seq<Byte>) returns (matches: bool)
    requires at % 32 == 0 && at + 32 <= buf.Length && |name| == NAME_BYTES && |extension| == EXTENSION_BYTES
    ensures matches == Named(name, extension).Hits(buf[at..at + 32])
  {
    ghost var s: Slot := buf[at..at + 32];
    matches := true;
    var j := 0;
    while j < NAME_BYTES && !(buf[at + j] == SPACE && name[j] == 0)
      invariant 0 <= j <= NAME_BYTES
      invariant NameMatches(s, name, 0) == (matches && NameMatches(s, name, j))
    {
      matches := matches && buf[at + j] == name[j];
      j := j + 1;
    }
    ghost var named := matches;
    var k := 0;
    while k < EXTENSION_BYTES
      invariant 0 <= k <= EXTENSION_BYTES
      invariant matches == (named && s[8..8 + k] == extension[..k])
    {
      assert s[8..8 + k + 1] == s[8..8 + k] + [s[8 + k]] && extension[..k + 1] == extension[..k] + [extension[k]];
      matches := matches && buf[at + 0x08 + k] == extension[k];
      k := k + 1;
    }
    assert extension[..3] == extension;
  }

  /** Byte index of the first slot of the buffer that the query hits, or -1. */
  method FindSlot(buf: array<Byte>, q: Query) returns (r: int)
    requires q.Valid() && buf.Length % 32 == 0
    ensures r == if First(buf[..], q) == -1 then -1 else 32 * First(buf[..], q)
  {
    hide NameMatches;
    var i := 0;
    while i < buf.Length / 32
      invariant 0 <= i <= buf.Length / 32
      invariant forall j :: 0 <= j < i ==> !q.Hits(SlotAt(buf[..], j))
    {
      var hit;
      assert SlotAt(buf[..], i) == buf[i * 32..i * 32 + 32];
      match q {
        case Space => hit := buf[i * 32] == 0x00 || buf[i * 32] == 0xe5;
        case Named(name, extension) => hit := SlotHasName(buf, i * 32, name, extension);
      }
      if hit {
        FirstIs(buf[..], q, i);
        return i * 32;
      }
      i := i + 1;
    }
    FirstIsNone(buf[..], q);
    return -1;
  }

  /** Overwrites bytes of the slot at byte `at`. */
  method WriteField(buf: array<Byte>, at: nat, o: nat, x: seq<Byte>, ghost was: seq<Byte>, ghost s: Slot)
    returns (ghost r: Slot)
    requires at + 32 <= buf.Length == |was| && o + |x| <= 32 && buf[..] == Splice(was, at, s)
    modifies buf
    ensures r == Splice(s, o, x) && buf[..] == Splice(was, at, r)
  {
    CopyIn(buf, at + o, x, 0, |x|);
    r := Splice(s, o, x);
    assert x[0..|x|] == x;
  }

  /** Writes an entry over the slot at byte `at`, slot number `j`; `first` goes to the first byte of the name. */
  method WriteEntry(buf: array<Byte>, at: nat, e: DirEntry, first: Byte, ghost j: nat)
    requires e.Valid() && at == 32 * j && at + 32 <= buf.Length
    modifies buf
    ensures buf[..] == WithSlot(old(buf[..]), j, EncodeSlot(SlotAt(old(buf[..]), j), e, first))
  {
    hide EncodeSlot, Splice;
    ghost var was := buf[..];
    ghost var s: Slot := SlotAt(was, j);
    ghost var r := s;
    assert buf[..] == Splice(was, at, s);
    r := WriteField(buf, at, 0, [first], was, r);
    r := WriteField(buf, at, 1, e.name[1..], was, r);
    r := WriteField(buf, at, 0x08, e.extension, was, r);
    r := WriteField(buf, at, 0x0b, [e.attributes], was, r);
    r := WriteField(buf, at, 0x1a, WordBytes(e.firstCluster), was, r);
    r := WriteField(buf, at, 0x1c, DWordBytes(e.size), was, r);
    FieldByField(s, e, first);
  }

  lemma FieldByField(s: Slot, e: DirEntry, first: Byte)
    requires e.Valid()
    ensures Splice(Splice(Splice(Splice(Splice(Splice(s, 0, [first]), 1, e.name[1..]), 0x08, e.extension),
                   0x0b, [e.attributes]), 0x1a, WordBytes(e.firstCluster)), 0x1c, DWordBytes(e.size))
         == EncodeSlot(s, e, first)
  {
    var head := [first] + e.name[1..] + e.extension + [e.attributes];
    NameFields(s, e, first);
    var a := head + s[0x0c..];
    hide Splice;
    SpliceTail(a, head + s[0x0c..0x1a], WordBytes(e.firstCluster), s[0x1c..]);
    var b := head + s[0x0c..0x1a] + WordBytes(e.firstCluster);
    SpliceTail(b + s[0x1c..], b, DWordBytes(e.size), []);
    assert b + DWordBytes(e.size) + [] == EncodeSlot(s, e, first);
  }

  lemma NameFields(s: Slot, e: DirEntry, first: Byte)
    requires e.Valid()
    ensures Splice(Splice(Splice(Splice(s, 0, [first]), 1, e.name[1..]), 0x08, e.extension), 0x0b, [e.attributes])
         == [first] + e.name[1..] + e.extension + [e.attributes] + s[0x0c..]
  {
    hide Splice;
    SpliceTail(s, [], [first], s[1..]);
    var a := [] + [first];
    SpliceTail(a + s[1..], a, e.name[1..], s[8..]);
    var b := a + e.name[1..];
    SpliceTail(b + s[8..], b, e.extension, s[0x0b..]);
    var c := b + e.extension;
    SpliceTail(c + s[0x0b..], c, [e.attributes], s[0x0c..]);
    assert a == [first];
  }

  /** Overwriting what follows a prefix. */
  lemma SpliceTail(s: seq<Byte>, head: seq<Byte>, x: seq<Byte>, tail: seq<Byte>)
    requires |s| == |head| + |x| + |tail| && s[..|head|] == head && s[|head| + |x|..] == tail
    ensures Splice(s, |head|, x) == head + x + tail
  {
  }

  /** The sectors of the root directory table. */
  ghost function RootBlocks(g: Geometry, img: Image): (blocks: seq<Sector>)
    requires ValidImage(g, img)
    ensures Uniform(blocks, g.bytesPerSector) && |blocks| == g.RootSectors()
    ensures Flatten(blocks) == VolumeOf(g, img).root
    ensures g.DataStart() < |img|
    ensures forall b :: 0 <= b < |blocks| ==> blocks[b] == img[g.RootStart() + b]
  {
    hide Span, Flatten;
    RootRange(g);
    img[g.RootStart()..g.DataStart()]
  }

  lemma RootRange(g: Geometry)
    ensures g.RootStart() <= g.DataStart() < g.totalSectors < 0x1_0000
    ensures g.RootSectors() == g.DataStart() - g.RootStart()
    ensures g.bytesPerSector == 32 * (g.bytesPerSector / 32)
  {
    LayoutInOrder(g);
    Basics(g);
  }

  /** Where a search of the root directory ends: the sector, and the slot in it. The search reads one
      sector more than the table has, the first one of the data region. */
  ghost predicate FoundInRoot(g: Geometry, img: Image, q: Query, sector: nat, j: int)
    requires ValidImage(g, img) && q.Valid()
  {
    var blocks := RootBlocks(g, img);
    var per := g.bytesPerSector / 32;
    if First(VolumeOf(g, img).root, q) != -1 then
      && g.RootStart() <= sector < g.DataStart()
      && 0 <= j == First(img[sector], q)
      && First(VolumeOf(g, img).root, q) == Span(sector - g.RootStart(), per) + j
    else
      && sector == g.DataStart()
      && j == First(img[sector], q)
  }

  /** Reads one sector into the buffer and searches it. */
  method SearchSector(fs: FileSystem, sector: nat, q: Query, buf: array<Byte>) returns (at: int)
    requires fs.Valid() && q.Valid() && buf.Length == fs.g.bytesPerSector && sector < |fs.disk.blocks|
    modifies buf
    ensures buf[..] == fs.disk.blocks[sector]
    ensures at == if First(fs.disk.blocks[sector], q) == -1 then -1 else 32 * First(fs.disk.blocks[sector], q)
  {
    hide BootSector.Valid, Query.Hits, First;
    Basics(fs.g);
    fs.disk.Read(sector, buf, 0, fs.g.bytesPerSector);
    assert buf[..] == fs.disk.blocks[sector];
    at := FindSlot(buf, q);
  }

  /** Searches the root directory sector by sector; `buf` ends up holding the sector returned. */
  method SearchRoot(fs: FileSystem, q: Query, buf: array<Byte>) returns (sector: nat, at: int)
    requires fs.Valid() && q.Valid() && buf.Length == fs.g.bytesPerSector
    modifies buf
    ensures sector < |fs.disk.blocks| && buf[..] == fs.disk.blocks[sector]
    ensures at == -1 || (0 <= at && at % 32 == 0 && at + 32 <= buf.Length)
    ensures FoundInRoot(fs.g, fs.disk.blocks, q, sector, if at == -1 then -1 else at / 32)
  {
    hide VolumeOf, Span, Flatten, BootSector.Valid, Query.Hits, First;
    RootRange(fs.g);
    ghost var blocks := RootBlocks(fs.g, fs.disk.blocks);
    ghost var per := fs.g.bytesPerSector / 32;
    sector := fs.g.RootStart();
    at := SearchSector(fs, sector, q, buf);
    while at == -1
      invariant fs.g.RootStart() <= sector <= fs.g.DataStart() && buf[..] == fs.disk.blocks[sector]
      invariant at == if First(fs.disk.blocks[sector], q) == -1 then -1 else 32 * First(fs.disk.blocks[sector], q)
      invariant forall b :: 0 <= b < sector - fs.g.RootStart() ==> First(blocks[b], q) == -1
      decreases fs.g.DataStart() - sector
    {
      if U16(sector + 1) > fs.g.RootStart() + fs.g.RootSectors() {
        FirstInBlocks(blocks, fs.g.bytesPerSector, per, q, |blocks|);
        return;
      }
      sector := U16(sector + 1);
      at := SearchSector(fs, sector, q, buf);
    }
    FirstInBlocks(blocks, fs.g.bytesPerSector, per, q, sector - fs.g.RootStart());
    FirstRange(fs.disk.blocks[sector], q);
  }

  lemma FirstRange(table: seq<Byte>, q: Query)
    requires q.Valid()
    ensures First(table, q) == -1 || 0 <= First(table, q) < Slots(table)
  {
  }

  /** What writing an entry at the place a root search found does to the image. */
  lemma RootSlotWritten(g: Geometry, img: Image, q: Query, sector: nat, j: nat, s: Slot)
    requires ValidImage(g, img) && q.Valid() && FoundInRoot(g, img, q, sector, j)
    ensures sector < |img| && j < Slots(img[sector])
    ensures var img' := img[sector := WithSlot(img[sector], j, s)]; var root := VolumeOf(g, img).root;
      && ValidImage(g, img')
      && (First(root, q) != -1 ==>
            && SlotAt(root, First(root, q)) == SlotAt(img[sector], j)
            && VolumeOf(g, img') == VolumeOf(g, img).(root := WithSlot(root, First(root, q), s)))
  {
    hide VolumeOf, Span, Flatten, BootSector.Valid, Query.Hits;
    RootRange(g);
    var blocks := RootBlocks(g, img);
    var per := g.bytesPerSector / 32;
    var root := VolumeOf(g, img).root;
    if First(root, q) != -1 {
      var k := sector - g.RootStart();
      SlotInBlock(blocks, g.bytesPerSector, per, k, j);
      RootWrite(g, img, k, 32 * j, s);
    }
  }

  /** The sector past the root directory table, which is the first one of cluster 2. */
  ghost predicate HasOverrun(v: Volume, n: nat) {
    v.HasCluster(2) && n <= |v.Cluster(2)|
  }

  ghost function Overrun(v: Volume, n: nat): Sector
    requires HasOverrun(v, n)
  {
    v.Cluster(2)[..n]
  }

  ghost function WithOverrun(v: Volume, n: nat, sector: Sector): Volume
    requires HasOverrun(v, n)
  {
    v.WithCluster(2, sector + v.Cluster(2)[n..])
  }

  /** Writing an entry where a root search ended that found nothing in the table. */
  lemma OverrunSlotWritten(g: Geometry, img: Image, q: Query, sector: nat, j: int, s: Slot)
    requires ValidImage(g, img) && q.Valid() && FoundInRoot(g, img, q, sector, j)
    requires First(VolumeOf(g, img).root, q) == -1
    ensures HasOverrun(VolumeOf(g, img), g.bytesPerSector) && sector < |img|
    ensures var v := VolumeOf(g, img); var over := Overrun(v, g.bytesPerSector);
      && img[sector] == over && j == First(over, q)
      && (0 <= j ==>
            && j < Slots(over) && ValidImage(g, img[sector := WithSlot(over, j, s)])
            && VolumeOf(g, img[sector := WithSlot(over, j, s)])
               == WithOverrun(v, g.bytesPerSector, WithSlot(over, j, s)))
  {
    hide VolumeOf, Span, Flatten, BootSector.Valid, Query.Hits, First;
    RootRange(g);
    FirstRange(img[sector], q);
    FirstDataSector(g, img, img[sector]);
    if 0 <= j {
      FirstDataSector(g, img, WithSlot(img[sector], j, s));
    }
  }

  /** What is written there is not listed, and overwrites bytes of the file that cluster 2 belongs to. */
  lemma OverrunHitsFile(v: Volume, size: nat, cs: seq<nat>, k: nat, n: nat, sector: Sector)
    requires WellFormed(v, size) && Stored(v, cs) && k < |cs| && cs[k] == 2
    requires HasOverrun(v, n) && |sector| == n
    ensures var v' := WithOverrun(v, n, sector);
      && List(v'.root) == List(v.root)
      && Stored(v', cs) && Span(k, size) + n <= |Content(v, cs)|
      && Content(v', cs) == Splice(Content(v, cs), Span(k, size), sector)
  {
    hide Span, Content;
    ChainIsAcyclic(v.fat, cs);
    assert Splice(v.Cluster(2), 0, sector) == sector + v.Cluster(2)[n..];
    ContentWrite(v, size, cs, k, 0, sector);
  }

  /** A table without spaces is one whose slots are all in use; here one of slots that start with `A`. */
  lemma FullTable(slots: nat)
    ensures First(Repeat(0x41 as Byte, 32 * slots), Space) == -1
  {
    hide First;
    FirstIsNone(Repeat(0x41 as Byte, 32 * slots), Space);
  }

  /** Adds an entry to the root directory. With a space in the table the table is what `AddEntry` says and
      nothing else changes. With a full table the search runs on into the first data sector: the entry
      then overwrites a slot of that sector, or -1 is returned when that sector has no space either. */
  method AddRootDirectoryEntry(fs: FileSystem, e: DirEntry) returns (r: int)
    requires fs.Valid() && e.Valid()
    modifies fs.disk
    ensures fs.Valid() && (r == 0 || r == -1)
    ensures First(old(fs.Vol()).root, Space) != -1 ==>
              r == 0 && fs.Vol() == old(fs.Vol()).(root := AddEntry(old(fs.Vol()).root, e))
    ensures First(old(fs.Vol()).root, Space) == -1 ==>
              var v := old(fs.Vol()); var n := fs.g.bytesPerSector;
              && HasOverrun(v, n)
              && (r == -1 <==> First(Overrun(v, n), Space) == -1)
              && fs.Vol() == if r == -1 then v else WithOverrun(v, n, AddEntry(Overrun(v, n), e))
  {
    hide VolumeOf, Span, Flatten, BootSector.Valid, Query.Hits, EncodeSlot, WithSlot, SlotAt, First;
    RootRange(fs.g);
    var buf := new Byte[fs.g.bytesPerSector];
    var sector, at := SearchRoot(fs, Space, buf);
    ghost var v, was := fs.Vol(), buf[..];
    if at == -1 {
      OverrunSlotWritten(fs.g, fs.disk.blocks, Space, sector, -1, Repeat(0, 32));
      return -1;
    }
    ghost var j := at / 32;
    ghost var s := EncodeSlot(SlotAt(was, j), e, Escape(e.name[0]));
    RootSlotWritten(fs.g, fs.disk.blocks, Space, sector, j, s);
    if First(v.root, Space) == -1 {
      OverrunSlotWritten(fs.g, fs.disk.blocks, Space, sector, j, s);
    }
    WriteEntry(buf, at, e, if e.name[0] == 0xe5 then 0x05 else e.name[0], j);
    assert buf[0..fs.g.bytesPerSector] == buf[..];
    fs.disk.Write(sector, buf, 0, fs.g.bytesPerSector);
    return 0;
  }

  /** Rewrites the root directory entry with the given old name. A name the table does not have is looked
      for in the first data sector as well. */
  method UpdateRootDirectoryEntry(fs: FileSystem, e: DirEntry, oldName: seq<Byte>, oldExtension: seq<Byte>)
    returns (r: int)
    requires fs.Valid() && e.Valid() && Named(oldName, oldExtension).Valid()
    modifies fs.disk
    ensures fs.Valid() && (r == 0 || r == -1)
    ensures var i := First(old(fs.Vol()).root, Named(oldName, oldExtension));
      i != -1 ==> r == 0 && fs.Vol() == old(fs.Vol()).(root := UpdateEntry(old(fs.Vol()).root, i, e))
    ensures First(old(fs.Vol()).root, Named(oldName, oldExtension)) == -1 ==>
              var v := old(fs.Vol()); var n := fs.g.bytesPerSector;
              && HasOverrun(v, n)
              && var j := First(Overrun(v, n), Named(oldName, oldExtension));
              && (r == -1 <==> j == -1)
              && fs.Vol() == if j == -1 then v else WithOverrun(v, n, UpdateEntry(Overrun(v, n), j, e))
  {
    hide VolumeOf, Span, Flatten, BootSector.Valid, Query.Hits, EncodeSlot, WithSlot, SlotAt, First;
    RootRange(fs.g);
    var q := Named(oldName, oldExtension);
    var buf := new Byte[fs.g.bytesPerSector];
    var sector, at := SearchRoot(fs, q, buf);
    ghost var v, was := fs.Vol(), buf[..];
    if at == -1 {
      OverrunSlotWritten(fs.g, fs.disk.blocks, q, sector, -1, Repeat(0, 32));
      return -1;
    }
    ghost var j := at / 32;
    ghost var s := EncodeSlot(SlotAt(was, j), e, e.name[0]);
    RootSlotWritten(fs.g, fs.disk.blocks, q, sector, j, s);
    if First(v.root, q) == -1 {
      OverrunSlotWritten(fs.g, fs.disk.blocks, q, sector, j, s);
    }
    WriteEntry(buf, at, e, e.name[0], j);
    assert buf[0..fs.g.bytesPerSector] == buf[..];
    fs.disk.Write(sector, buf, 0, fs.g.bytesPerSector);
    return 0;
  }

  /** The volume after the table kept in the chain `cs` became `table`, and nothing else. */
  ghost predicate TableChanged(v: Volume, v': Volume, size: nat, cs: seq<nat>, table: seq<Byte>) {
    && WellFormed(v', size)
    && v'.fat == v.fat && v'.root == v.root && v'.rest == v.rest && |v'.data| == |v.data|
    && (forall c :: v.HasCluster(c) && c !in cs ==> v'.Cluster(c) == v.Cluster(c))
    && Holds(v', cs) && Content(v', cs) == table
  }

  lemma DirectorySlotWritten(v: Volume, size: nat, cs: seq<nat>, k: nat, j: nat, s: Slot)
    requires WellFormed(v, size) && Stored(v, cs) && size == 32 * (size / 32) && k < |cs| && j < size / 32
    ensures Slots(v.Cluster(cs[k])) == size / 32
    ensures Span(k, size / 32) + j < Slots(Content(v, cs))
    ensures SlotAt(Content(v, cs), Span(k, size / 32) + j) == SlotAt(v.Cluster(cs[k]), j)
    ensures TableChanged(v, v.WithCluster(cs[k], WithSlot(v.Cluster(cs[k]), j, s)), size, cs,
                         WithSlot(Content(v, cs), Span(k, size / 32) + j, s))
  {
    hide Span, Flatten;
    ChainIsAcyclic(v.fat, cs);
    PiecesUniform(v, size, cs);
    SlotInBlock(Pieces(v, cs), size, size / 32, k, j);
    ContentWrite(v, size, cs, k, 32 * j, s);
  }

  lemma ClusterSlots(g: Geometry)
    ensures 0 < g.BytesPerCluster() == 32 * (g.BytesPerCluster() / 32)
  {
    ClusterBytesPositive(g);
    Basics(g);
    hide BootSector.Valid;
    SpanScaled(g.sectorsPerCluster, g.bytesPerSector, g.bytesPerSector / 32);
  }

  /** The clusters of a directory's chain that the walks over it get to: they stop at a number above 0x0fef. */
  function Near(cs: seq<nat>): (near: seq<nat>)
    ensures near <= cs && (cs != [] ==> near != [])
    ensures forall i :: 1 <= i < |near| ==> near[i] <= 0x0fef
    ensures |near| < |cs| ==> cs[|near|] > 0x0fef
  {
    if |cs| <= 1 then cs
    else
      var near := Near(cs[..|cs| - 1]);
      if |near| == |cs| - 1 && cs[|cs| - 1] <= 0x0fef then cs else near
  }

  /** What the walks see of a directory's table. */
  ghost function NearTable(v: Volume, cs: seq<nat>): (table: seq<Byte>)
    requires Holds(v, cs)
  {
    NearHolds(v, cs);
    Content(v, Near(cs))
  }

  lemma NearHolds(v: Volume, cs: seq<nat>)
    requires Holds(v, cs)
    ensures Holds(v, Near(cs))
  {
    var near := Near(cs);
    assert forall i :: 0 <= i < |near| ==> near[i] == cs[i];
  }

  /** What a search finds there is what it would find in the whole table. */
  lemma FoundNear(v: Volume, size: nat, cs: seq<nat>, q: Query)
    requires WellFormed(v, size) && Holds(v, cs) && size == 32 * (size / 32) && q.Valid()
    requires First(NearTable(v, cs), q) != -1
    ensures First(Content(v, cs), q) == First(NearTable(v, cs), q)
  {
    hide Near, Content, First, Query.Hits, SlotAt;
    var near := Near(cs);
    var far := cs[|near|..];
    assert cs == near + far;
    NearHolds(v, cs);
    ContentAppend(v, near, far);
    PiecesUniform(v, size, near);
    SpanScaled(|near|, size, size / 32);
    FirstInPart(Content(v, near), Content(v, far), q);
  }

  lemma FirstInPart(table: seq<Byte>, more: seq<Byte>, q: Query)
    requires q.Valid() && First(table, q) != -1 && |table| == 32 * Slots(table)
    ensures First(table + more, q) == First(table, q)
  {
    hide Query.Hits, SlotAt;
    var i := First(table, q);
    forall j | 0 <= j <= i ensures SlotAt(table + more, j) == SlotAt(table, j) {
      SlotInPart(table, more, j);
    }
    FirstIs(table + more, q, i);
  }

  lemma SlotInPart(table: seq<Byte>, more: seq<Byte>, j: nat)
    requires j < Slots(table)
    ensures j < Slots(table + more) && SlotAt(table + more, j) == SlotAt(table, j)
  {
    assert (table + more)[32 * j..32 * j + 32] == table[32 * j..32 * j + 32];
  }

  /** Reads one cluster of a directory into the buffer and searches it. */
  method SearchCluster(fs: FileSystem, c: nat, q: Query, data: array<Byte>) returns (at: int)
    requires fs.Valid() && q.Valid() && 2 <= c < fs.g.ClusterEnd() && data.Length == fs.g.BytesPerCluster()
    modifies data
    ensures fs.Vol().HasCluster(c) && data[..] == fs.Vol().Cluster(c)
    ensures at == if First(fs.Vol().Cluster(c), q) == -1 then -1 else 32 * First(fs.Vol().Cluster(c), q)
  {
    hide VolumeOf, BootSector.Valid, Query.Hits, First;
    ClusterSlots(fs.g);
    fs.LoadCluster(c, data);
    at := FindSlot(data, q);
  }

  /** Searches a directory cluster by cluster along its chain. */
  method SearchDirectory(fs: FileSystem, q: Query, dirCluster: nat, data: array<Byte>, ghost cs: seq<nat>)
    returns (current: nat, at: int, ghost k: nat)
    requires HasChain(fs, cs) && dirCluster == cs[0] && q.Valid() && data.Length == fs.g.BytesPerCluster()
    modifies data
    ensures k < |Near(cs)| && current == cs[k] && Holds(fs.Vol(), cs)
    ensures data[..] == fs.Vol().Cluster(cs[k])
    ensures var j := First(fs.Vol().Cluster(cs[k]), q);
      && at == (if j == -1 then -1 else 32 * j)
      && First(NearTable(fs.Vol(), cs), q) == (if j == -1 then -1 else Span(k, fs.g.BytesPerCluster() / 32) + j)
      && (j == -1 ==> k == |Near(cs)| - 1)
  {
    hide VolumeOf, Span, Flatten, WellFormed, BootSector.Valid, Query.Hits, First, Near;
    var size := fs.g.BytesPerCluster();
    ghost var v := fs.Vol();
    ghost var per := size / 32;
    ClusterSlots(fs.g);
    VolumeWellFormed(fs);
    ghost var near := Near(cs);
    NearHolds(v, cs);
    PiecesUniform(v, size, near);
    ghost var blocks := Pieces(v, near);
    current, k := dirCluster, 0;
    NextInChain(v.fat, cs, 0);
    at := SearchCluster(fs, current, q, data);
    while at == -1
      invariant k < |near| && current == cs[k] && data[..] == v.Cluster(cs[k])
      invariant at == if First(blocks[k], q) == -1 then -1 else 32 * First(blocks[k], q)
      invariant forall b :: 0 <= b < k ==> First(blocks[b], q) == -1
      decreases |near| - k
    {
      NextInChain(v.fat, cs, k);
      var next := fs.GetSuccessorCluster(current);
      if next < 0x0002 || next > 0x0fef {
        FirstInBlocks(blocks, size, per, q, |near|);
        return;
      }
      current, k := next, k + 1;
      NextInChain(v.fat, cs, k);
      at := SearchCluster(fs, current, q, data);
    }
    FirstInBlocks(blocks, size, per, q, k);
    FirstRange(blocks[k], q);
  }

  /** A directory extended by the cluster `c` for one more entry: `last` leads to `c`, which gets a copy of its bytes
      with the entry in the first slot. The entry of `c` itself in the FAT stays as it was, free. */
  ghost predicate Extended(v: Volume, v': Volume, size: nat, last: nat, c: nat, e: DirEntry) {
    && WellFormed(v, size) && WellFormed(v', size) && e.Valid()
    && 2 <= last < |v.fat| && v'.fat == v.fat[last := c] && v'.root == v.root && |v'.data| == |v.data|
    && (forall d :: v.HasCluster(d) && d != c ==> v'.Cluster(d) == v.Cluster(d))
    && (v.HasCluster(c) ==>
          && v.HasCluster(last) && 0 < Slots(v.Cluster(last)) && v'.rest == v.rest
          && v'.Cluster(c) == WithSlot(v.Cluster(last), 0, FirstSlot(v.Cluster(last), e)))
  }

  function FirstSlot(table: seq<Byte>, e: DirEntry): Slot
    requires 0 < Slots(table) && e.Valid()
  {
    EncodeSlot(SlotAt(table, 0), e, Escape(e.name[0]))
  }

  /** What adding an entry to a directory kept in a cluster chain does: with a space where the walk gets to, the entry
      goes there; otherwise the directory is extended by the first free cluster, or, without one, -1 is returned. */
  ghost predicate DirectoryAdded(v: Volume, v': Volume, size: nat, cs: seq<nat>, e: DirEntry, r: int)
    requires Stored(v, cs) && e.Valid()
  {
    if First(NearTable(v, cs), Space) != -1
    then r == 0 && First(Content(v, cs), Space) != -1 && TableChanged(v, v', size, cs, AddEntry(Content(v, cs), e))
    else if FreeList(v.fat) == [] then r == -1 && v' == v
    else r == 0 && Extended(v, v', size, Near(cs)[|Near(cs)| - 1], FreeList(v.fat)[0], e)
  }

  lemma ExtendedBy(v: Volume, v': Volume, size: nat, last: nat, c: nat, e: DirEntry)
    requires WellFormed(v, size) && size == 32 * (size / 32) && e.Valid() && v.HasCluster(last) && 2 <= c < |v.fat|
    requires |v.Cluster(last)| == size && last < |v.fat|
    requires var table := v.Cluster(last); var v1 := v.WithEntry(last, c);
      if v.HasCluster(c) then v' == v1.WithCluster(c, WithSlot(table, 0, FirstSlot(table, e)))
      else v' == v1.(rest := v'.rest)
    ensures Extended(v, v', size, last, c, e)
  {
    hide EncodeSlot, SlotAt, Splice;
  }

  /** Adds an entry to a directory kept in a cluster chain. */
  method AddDirectoryEntry(fs: FileSystem, dirCluster: nat, e: DirEntry, ghost cs: seq<nat>) returns (r: int)
    requires HasChain(fs, cs) && dirCluster == cs[0] && e.Valid()
    modifies fs.disk
    ensures fs.Valid()
    ensures DirectoryAdded(old(fs.Vol()), fs.Vol(), fs.g.BytesPerCluster(), cs, e, r)
  {
    hide VolumeOf, Span, Flatten, BootSector.Valid, Query.Hits, EncodeSlot, WithSlot, SlotAt, TableChanged, Content,
         First, Near, FreeList, Extended;
    ClusterSlots(fs.g);
    VolumeWellFormed(fs);
    var size := fs.g.BytesPerCluster();
    ghost var v := fs.Vol();
    var data := new Byte[size];
    var current, at, k := SearchDirectory(fs, Space, dirCluster, data, cs);
    ghost var was := data[..];
    FirstRange(was, Space);
    if at == -1 {
      var next := fs.FindFirstFreeCluster();
      FirstFreeIsHead(v.fat, next);
      if next < 2 {
        return -1;
      }
      fs.SetSuccessorCluster(current, next);
      WriteEntry(data, 0, e, if e.name[0] == 0xe5 then 0x05 else e.name[0], 0);
      fs.WriteCluster(next, data);
      VolumeShape(fs.g, fs.disk.blocks);
      ExtendedBy(v, fs.Vol(), size, current, next, e);
      return 0;
    }
    ghost var j := at / 32;
    ghost var s := EncodeSlot(SlotAt(was, j), e, Escape(e.name[0]));
    DirectorySlotWritten(v, size, cs, k, j, s);
    FoundNear(v, size, cs, Space);
    WriteEntry(data, at, e, if e.name[0] == 0xe5 then 0x05 else e.name[0], j);
    fs.WriteCluster(current, data);
    return 0;
  }

  /** Rewrites the entry with the given old name in a directory kept in a cluster chain, if the walk gets to it. */
  method UpdateDirectoryEntry(fs: FileSystem, dirCluster: nat, e: DirEntry, oldName: seq<Byte>, oldExtension: seq<Byte>,
                              ghost cs: seq<nat>) returns (r: int)
    requires HasChain(fs, cs) && dirCluster == cs[0] && e.Valid() && Named(oldName, oldExtension).Valid()
    modifies fs.disk
    ensures fs.Valid() && Holds(old(fs.Vol()), cs)
    ensures var v := old(fs.Vol()); var i := First(NearTable(v, cs), Named(oldName, oldExtension));
      if i == -1 then r == -1 && fs.Vol() == v
      else
        && r == 0 && i == First(Content(v, cs), Named(oldName, oldExtension))
        && TableChanged(v, fs.Vol(), fs.g.BytesPerCluster(), cs, UpdateEntry(Content(v, cs), i, e))
  {
    hide VolumeOf, Span, Flatten, BootSector.Valid, Query.Hits, EncodeSlot, WithSlot, SlotAt, TableChanged, Content,
         First, Near;
    ClusterSlots(fs.g);
    VolumeWellFormed(fs);
    var size := fs.g.BytesPerCluster();
    ghost var v := fs.Vol();
    var data := new Byte[size];
    var q := Named(oldName, oldExtension);
    var current, at, k := SearchDirectory(fs, q, dirCluster, data, cs);
    if at == -1 {
      return -1;
    }
    ghost var j := at / 32;
    ghost var was := data[..];
    FirstRange(was, q);
    ghost var s := EncodeSlot(SlotAt(was, j), e, e.name[0]);
    DirectorySlotWritten(v, size, cs, k, j, s);
    FoundNear(v, size, cs, q);
    WriteEntry(data, at, e, e.name[0], j);
    fs.WriteCluster(current, data);
    return 0;
  }

  lemma SliceOfSlice(s: seq<Byte>, from: nat, to: nat, i: nat, j: nat)
    requires from <= to <= |s| && i <= j <= to - from
    ensures s[from..to][i..j] == s[from + i..from + j]
  {
    var part := s[from..to];
    assert forall k :: 0 <= k < j - i ==> part[i..j][k] == s[from + i..from + j][k];
  }

  /** Appends the entries of one sector to the listing; true when a never-used slot ended it. */
  method AddSectorEntries(buf: array<Byte>, from: nat, n: nat, list: seq<DirEntry>)
    returns (entries: seq<DirEntry>, ended: bool)
    requires n % 32 == 0 && from + n <= buf.Length
    ensures entries == list + List(buf[from..from + n]) && ended == Ends(buf[from..from + n], 0)
  {
    hide DecodeSlot;
    ghost var all := buf[..];
    ghost var table := all[from..from + n];
    assert buf[from..from + n] == table;
    entries := list;
    var j := 0;
    while j < n / 32
      invariant 0 <= j <= n / 32
      invariant list + List(table) == entries + ListFrom(table, j)
      invariant Ends(table, 0) == Ends(table, j)
    {
      var at := from + 32 * j;
      var s: Slot := buf[at..at + 32];
      assert s == all[at..at + 32];
      SliceOfSlice(all, from, from + n, 32 * j, 32 * j + 32);
      if s[0] == 0x00 {
        ended := true;
        return;
      } else if s[0] != 0xe5 {
        entries := entries + [DecodeSlot(s)];
      }
      j := j + 1;
    }
    ended := false;
  }

  /** Lists the root directory. The routine takes the table to start behind one reserved sector. */
  method GetRootDir(fs: FileSystem) returns (entries: seq<DirEntry>)
    requires fs.Valid() && fs.g.reservedSectors == 1
    ensures entries == List(fs.Vol().root)
  {
    hide VolumeOf, Span, Whole, Flatten, BootSector.Valid, List, Ends, ListedSoFar, RootBlocks;
    RootRange(fs.g);
    RootSectorCount(fs.g);
    ghost var blocks := RootBlocks(fs.g, fs.disk.blocks);
    var buf := new Byte[fs.g.bytesPerSector];
    var entriesPerSector := fs.g.bytesPerSector / 32;
    var numSectors := Whole(fs.g.rootEntries, entriesPerSector);
    var ended := false;
    entries := [];
    ListedNothing();
    FlattenEmpty(blocks, 0);
    var i := 0;
    while i < numSectors && !ended
      invariant 0 <= i <= |blocks|
      invariant ListedSoFar(Flatten(blocks[0..i]), entries, ended)
    {
      ReadRootSector(fs, i, buf);
      FlattenGrow(blocks, 0, i);
      entries, ended := AddBlock(buf, Flatten(blocks[0..i]), blocks[i], entries);
      i := i + 1;
    }
    ListRest(blocks, fs.g.bytesPerSector, i, entries, ended);
  }

  method ReadRootSector(fs: FileSystem, i: nat, buf: array<Byte>)
    requires fs.Valid() && fs.g.reservedSectors == 1 && buf.Length == fs.g.bytesPerSector
    requires i < |RootBlocks(fs.g, fs.disk.blocks)|
    modifies buf
    ensures buf[..] == RootBlocks(fs.g, fs.disk.blocks)[i]
  {
    hide Span, Whole, VolumeOf, RootBlocks, BootSector.Valid;
    RootBlock(fs.g, fs.disk.blocks, i);
    var sector := 1 + Span(fs.g.numFats, fs.g.sectorsPerFat) + i;
    fs.disk.Read(sector, buf, 0, fs.g.bytesPerSector);
    assert buf[..] == fs.disk.blocks[sector];
  }

  lemma RootBlock(g: Geometry, img: Image, i: nat)
    requires ValidImage(g, img) && i < |RootBlocks(g, img)|
    ensures var s := g.FatStart() + Span(g.numFats, g.sectorsPerFat) + i;
      s < |img| && |img[s]| == g.bytesPerSector && img[s] == RootBlocks(g, img)[i]
  {
    hide Span, Whole, BootSector.Valid;
    RootRange(g);
  }

  /** Appends the entries of a sector just read. */
  method AddBlock(buf: array<Byte>, ghost before: seq<Byte>, ghost block: seq<Byte>, list: seq<DirEntry>)
    returns (entries: seq<DirEntry>, ended: bool)
    requires buf[..] == block && buf.Length % 32 == 0
    requires ListedSoFar(before, list, false)
    ensures ListedSoFar(before + block, entries, ended)
  {
    hide List, Ends;
    ListOn(before, block, list, false);
    assert buf[0..buf.Length] == block;
    entries, ended := AddSectorEntries(buf, 0, buf.Length, list);
  }

  lemma ListedNothing()
    ensures ListedSoFar([], [], false)
  {
  }

  /** Whatever follows the end of a listing does not matter. */
  lemma ListRest(blocks: seq<seq<Byte>>, n: nat, i: nat, entries: seq<DirEntry>, ended: bool)
    requires Uniform(blocks, n) && n % 32 == 0 && i <= |blocks|
    requires ListedSoFar(Flatten(blocks[0..i]), entries, ended) && (ended || i == |blocks|)
    ensures ListedSoFar(Flatten(blocks), entries, ended) && entries == List(Flatten(blocks))
  {
    hide Flatten, List, Ends;
    assert blocks == blocks[0..i] + blocks[i..];
    FlattenConcat(blocks[0..i], blocks[i..]);
    if ended {
      BlocksWhole(blocks[i..], n);
      ListOn(Flatten(blocks[0..i]), Flatten(blocks[i..]), entries, ended);
    } else {
      assert blocks[0..i] == blocks;
    }
  }

  lemma BlocksWhole(blocks: seq<seq<Byte>>, n: nat)
    requires Uniform(blocks, n) && n % 32 == 0
    ensures |Flatten(blocks)| % 32 == 0
  {
    hide Span, Flatten;
    FlattenLength(blocks, n);
    SpanScaled(|blocks|, n, n / 32);
  }

  /** The number of root directory sectors computed from the number of entries. */
  lemma RootSectorCount(g: Geometry)
    ensures 0 < g.bytesPerSector / 32
    ensures Whole(g.rootEntries, g.bytesPerSector / 32) == g.RootSectors()
  {
    Basics(g);
    var per := g.bytesPerSector / 32;
    SpanScaled(g.RootSectors(), g.bytesPerSector, per);
    assert Span(g.RootSectors(), per) == g.rootEntries;
    WholeOfSpan(g.RootSectors(), per);
  }

  lemma {:induction false} WholeOfSpan(k: nat, n: nat)
    requires 0 < n
    ensures Whole(Span(k, n), n) == k
  {
    if k != 0 {
      WholeOfSpan(k - 1, n);
    }
  }

  /** Lists a directory kept in a cluster chain, and nothing for one whose first cluster is no data cluster; what is no
      directory has no listing. */
  method GetDir(fs: FileSystem, entry: DirEntry, ghost cs: seq<nat>) returns (isDirectory: bool, entries: seq<DirEntry>)
    requires fs.Valid() && (InChain(entry.firstCluster) ==> HasChain(fs, cs) && entry.firstCluster == cs[0])
    ensures isDirectory == IsSubdirectory(entry.attributes)
    ensures isDirectory && InChain(entry.firstCluster) ==> Holds(fs.Vol(), cs) && entries == List(Content(fs.Vol(), cs))
    ensures !isDirectory || !InChain(entry.firstCluster) ==> entries == []
  {
    hide VolumeOf, Span, Flatten, WellFormed, BootSector.Valid, List, Ends, Pieces;
    entries := [];
    isDirectory := IsSubdirectory(entry.attributes);
    var size := fs.g.BytesPerCluster();
    ghost var v := fs.Vol();
    if !isDirectory || !InChain(entry.firstCluster) {
      return;
    }
    ClusterSlots(fs.g);
    VolumeWellFormed(fs);
    PiecesUniform(v, size, cs);
    ghost var blocks := Pieces(v, cs);
    var data := new Byte[size];
    var ended := false;
    ListedNothing();
    FlattenEmpty(blocks, 0);
    var next := entry.firstCluster;
    ghost var i := 0;
    while InChain(next) && !ended
      invariant 0 <= i <= |cs| && (InChain(next) <==> i < |cs|) && (i < |cs| ==> next == cs[i])
      invariant ListedSoFar(Flatten(blocks[0..i]), entries, ended)
      decreases |cs| - i
    {
      fs.LoadCluster(next, data);
      FlattenGrow(blocks, 0, i);
      entries, ended := AddClusterEntries(fs, data, Flatten(blocks[0..i]), entries);
      NextInChain(v.fat, cs, i);
      next := fs.GetSuccessorCluster(next);
      i := i + 1;
    }
    ListRest(blocks, size, i, entries, ended);
  }

  /** The attribute byte's subdirectory bit. */
  predicate IsSubdirectory(attributes: Byte) {
    attributes / 0x10 % 2 == 1
  }

  /** Appends the entries of a loaded cluster, sector by sector, until the listing ends. */
  method AddClusterEntries(fs: FileSystem, data: array<Byte>, ghost before: seq<Byte>, list: seq<DirEntry>)
    returns (entries: seq<DirEntry>, ended: bool)
    requires data.Length == fs.g.BytesPerCluster() && ListedSoFar(before, list, false)
    ensures ListedSoFar(before + data[..], entries, ended)
  {
    hide Span, Flatten, BootSector.Valid, List, Ends;
    ClusterSlots(fs.g);
    Basics(fs.g);
    var n := fs.g.bytesPerSector;
    ghost var bytes := data[..];
    entries, ended := list, false;
    SpanStep(0, n);
    assert before + bytes[..0] == before;
    var i := 0;
    while i < fs.g.sectorsPerCluster && !ended
      invariant 0 <= i <= fs.g.sectorsPerCluster && Span(i, n) <= |bytes|
      invariant ListedSoFar(before + bytes[..Span(i, n)], entries, ended)
    {
      SpanInside(i, fs.g.sectorsPerCluster, n);
      var from := Span(i, n);
      ghost var piece := bytes[from..from + n];
      assert before + bytes[..from + n] == before + bytes[..from] + piece;
      ListOn(before + bytes[..from], piece, entries, ended);
      entries, ended := AddSectorEntries(data, from, n, entries);
      i := i + 1;
    }
    SpanScaled(i, n, n / 32);
    ListEnd(before, bytes, Span(i, n / 32), entries, ended);
  }

  lemma ListEnd(before: seq<Byte>, bytes: seq<Byte>, slots: nat, entries: seq<DirEntry>, ended: bool)
    requires |bytes| == 32 * (|bytes| / 32) && 32 * slots <= |bytes|
    requires ListedSoFar(before + bytes[..32 * slots], entries, ended) && (ended || 32 * slots == |bytes|)
    ensures ListedSoFar(before + bytes, entries, ended)
  {
    hide List, Ends;
    var done := before + bytes[..32 * slots];
    var rest := bytes[32 * slots..];
    assert |rest| == 32 * (|bytes| / 32 - slots);
    assert before + bytes == done + rest;
    if ended {
      ListOn(done, rest, entries, ended);
    } else {
      assert done + rest == done;
    }
  }
}
