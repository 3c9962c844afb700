/** Creating, deleting and resizing files: the directory entry and the FAT together. */
module FatFileOps {
  import opened Bytes
  import opened Blocks
  import opened FatLayout
  import opened BlockDevice
  import opened FatChains
  import opened FatContent
  import opened FatTable
  import opened FatFiles
  import opened FatDirectory
  import opened FatDirectoryIO

  /** The bytes of a C string held in a buffer. */
  function CString(s: seq<Byte>): (r: seq<Byte>)
    ensures |r| <= |s| && r == s[..|r|] && 0 !in r
    ensures |r| < |s| ==> s[|r|] == 0
  {
    if s == [] || s[0] == 0 then [] else [s[0]] + CString(s[1..])
  }

  function Pad(s: seq<Byte>, n: nat): (r: seq<Byte>)
    requires |s| <= n
    ensures |r| == n
  {
    s + Repeat(SPACE, n - |s|)
  }

  /** The entry of a new file: padded name, no bytes, and the cluster that was free. */
  function NewEntry(base: seq<Byte>, extension: seq<Byte>, attributes: Byte, c: nat): (e: DirEntry)
    requires |base| <= NAME_BYTES && |extension| <= EXTENSION_BYTES && c < 0x1_0000
    ensures e.Valid() && e.firstCluster == c && e.attributes == attributes && e.size == 0
  {
    DirEntry(Pad(base, NAME_BYTES), Pad(extension, EXTENSION_BYTES), attributes, c, 0)
  }

  /** The first listed entry with the given name. */
  function FindNamed(entries: seq<DirEntry>, base: seq<Byte>, extension: seq<Byte>): (r: Option<DirEntry>)
    ensures r.Some? ==> r.value in entries && CString(r.value.name) == base && CString(r.value.extension) == extension
    ensures r.None? ==> forall e :: e in entries ==> CString(e.name) != base || CString(e.extension) != extension
  {
    if entries == [] then None
    else if CString(entries[0].name) == base && CString(entries[0].extension) == extension then Some(entries[0])
    else FindNamed(entries[1..], base, extension)
  }

  /** Where a directory's table is kept. */
  datatype Directory = Root | Chained(cs: seq<nat>)

  ghost predicate IsDirectory(v: Volume, d: Directory) {
    d.Chained? ==> Stored(v, d.cs)
  }

  ghost function TableIn(v: Volume, d: Directory): seq<Byte>
    requires IsDirectory(v, d)
  {
    if d.Root? then v.root else Content(v, d.cs)
  }

  /** The volume after the directory's table became `table`, and nothing else. */
  ghost predicate TableSet(v: Volume, v': Volume, size: nat, d: Directory, table: seq<Byte>) {
    match d
    case Root => WellFormed(v', size) && v' == v.(root := table)
    case Chained(cs) => TableChanged(v, v', size, cs, table)
  }

  /** The volume after creating a file: its entry is in the directory and its cluster, which was free, is
      a chain of its own. */
  ghost predicate Created(v: Volume, v': Volume, size: nat, d: Directory, e: DirEntry) {
    && WellFormed(v, size) && IsDirectory(v, d) && e.Valid()
    && FreeList(v.fat) != [] && e.firstCluster == FreeList(v.fat)[0]
    && First(TableIn(v, d), Space) != -1
    && |v'.fat| == |v.fat| && v'.fat == v.fat[e.firstCluster := LAST_CLUSTER]
    && TableSet(v, v'.(fat := v.fat), size, d, AddEntry(TableIn(v, d), e))
  }

  /** The last step of creating a file: the cluster the entry names is marked as a chain. */
  lemma MarkCreated(v: Volume, v1: Volume, size: nat, d: Directory, e: DirEntry)
    requires WellFormed(v, size) && IsDirectory(v, d) && e.Valid()
    requires FreeList(v.fat) != [] && e.firstCluster == FreeList(v.fat)[0]
    requires First(TableIn(v, d), Space) != -1 && TableSet(v, v1, size, d, AddEntry(TableIn(v, d), e))
    ensures 2 <= e.firstCluster < |v1.fat| == |v.fat|
    ensures Created(v, v1.WithEntry(e.firstCluster, LAST_CLUSTER), size, d, e)
  {
    hide TableChanged, AddEntry, Content, FreeList, First;
    assert v1.fat == v.fat by { TableKeepsFat(v, v1, size, d, AddEntry(TableIn(v, d), e)); }
    var v2 := v1.WithEntry(e.firstCluster, LAST_CLUSTER);
    HeadIsData(v.fat);
    assert v2.(fat := v.fat) == v1;
  }

  lemma TableKeepsFat(v: Volume, v1: Volume, size: nat, d: Directory, table: seq<Byte>)
    requires TableSet(v, v1, size, d, table)
    ensures v1.fat == v.fat && WellFormed(v1, size)
  {
  }

  /** The new file has a cluster to hold its bytes exactly when the free entry found has one. */
  lemma CreatedIsStored(v: Volume, v': Volume, size: nat, d: Directory, e: DirEntry)
    requires Created(v, v', size, d, e)
    ensures IsChain(v'.fat, [e.firstCluster])
    ensures Stored(v', [e.firstCluster]) <==> e.firstCluster < |v.data| + 2
  {
    hide FreeList, AddEntry, First, Content;
    HeadIsData(v.fat);
    assert |v'.data| == |v.data| by {
      assert v'.data == v'.(fat := v.fat).data;
    }
  }

  lemma HeadIsData(fat: seq<nat>)
    requires FreeList(fat) != [] && 2 <= |fat| && fat[0] != 0 && fat[1] != 0
    ensures 2 <= FreeList(fat)[0] < |fat|
  {
    assert fat[FreeList(fat)[0]] == 0;
  }

  /** What putting an entry into a directory does, with 0, or -1 when there is no place for it. Behind a root table
      without a space the first `n` bytes of the data region are taken for a part of it. */
  ghost predicate Placed(v: Volume, v': Volume, size: nat, n: nat, d: Directory, e: DirEntry, r: int) {
    && IsDirectory(v, d) && e.Valid() && WellFormed(v', size)
    && match d
       case Chained(cs) => DirectoryAdded(v, v', size, cs, e, r)
       case Root =>
         if First(v.root, Space) != -1 then r == 0 && v' == v.(root := AddEntry(v.root, e))
         else
           && HasOverrun(v, n) && (r == 0 || r == -1)
           && (r == -1 <==> First(Overrun(v, n), Space) == -1)
           && v' == if r == -1 then v else WithOverrun(v, n, AddEntry(Overrun(v, n), e))
  }

  /** The directory has a space where a search gets to. */
  ghost predicate HasSpace(v: Volume, d: Directory)
    requires IsDirectory(v, d)
  {
    First(if d.Root? then v.root else NearTable(v, d.cs), Space) != -1
  }

  /** The first cluster of a new file: the first free one, or 0 when none is free. */
  ghost function FirstFree(fat: seq<nat>): nat {
    if FreeList(fat) == [] then 0 else FreeList(fat)[0]
  }

  /** Creates a file in the root directory or in a directory kept in a chain; the caller has found the parent directory.
      The entry is placed, and then the cluster it names is marked as a chain of its own. Without a free cluster the
      entry names cluster 0, and the entry 0 of the FAT is marked. */
  method CreateNewFile(fs: FileSystem, base: seq<Byte>, extension: seq<Byte>, attributes: Byte,
                       inRoot: bool, dirCluster: nat, ghost d: Directory)
    returns (r: int, ghost e: DirEntry, ghost placed: Volume)
    requires fs.Valid() && WellFormed(fs.Vol(), fs.g.BytesPerCluster())
    requires |base| <= NAME_BYTES && |extension| <= EXTENSION_BYTES
    requires inRoot == d.Root? && (d.Chained? ==> HasChain(fs, d.cs) && dirCluster == d.cs[0])
    modifies fs.disk
    ensures fs.Valid() && (r == 0 || r == -1)
    ensures e == NewEntry(base, extension, attributes, FirstFree(old(fs.Vol()).fat))
    ensures Placed(old(fs.Vol()), placed, fs.g.BytesPerCluster(), fs.g.bytesPerSector, d, e, r)
    ensures if r == -1 then fs.Vol() == placed == old(fs.Vol())
            else e.firstCluster < |placed.fat| && fs.Vol() == placed.WithEntry(e.firstCluster, LAST_CLUSTER)
    ensures IsDirectory(old(fs.Vol()), d)
    ensures HasSpace(old(fs.Vol()), d) && FreeList(old(fs.Vol()).fat) != [] ==>
              r == 0 && Created(old(fs.Vol()), fs.Vol(), fs.g.BytesPerCluster(), d, e)
  {
    hide VolumeOf, Span, AddEntry, Content, First, BootSector.Valid, FreeList, Near, Overrun;
    VolumeWellFormed(fs);
    Basics(fs.g);
    ghost var v := fs.Vol();
    ghost var size := fs.g.BytesPerCluster();
    var firstCluster := fs.FindFirstFreeCluster();
    FirstFreeIs(v.fat, firstCluster);
    var newFile := NewEntry(base, extension, attributes, firstCluster);
    e, placed := newFile, v;
    if inRoot {
      var rootResult := AddRootDirectoryEntry(fs, newFile);
      placed := fs.Vol();
      if rootResult != 0 {
        return -1, e, placed;
      }
    } else {
      var dirResult := AddDirectoryEntry(fs, dirCluster, newFile, d.cs);
      placed := fs.Vol();
      if dirResult != 0 {
        return -1, e, placed;
      }
    }
    VolumeWellFormed(fs);
    PlacedMarked(v, placed, size, fs.g.bytesPerSector, d, e);
    fs.SetSuccessorCluster(newFile.firstCluster, 0xFFFF);
    return 0, e, placed;
  }

  lemma FirstFreeIs(fat: seq<nat>, c: nat)
    requires 2 <= |fat| && fat[0] != 0 && fat[1] != 0 && IsFirstFree(fat, c)
    ensures c == FirstFree(fat) < |fat|
  {
    FirstFreeIsHead(fat, c);
  }

  /** An entry placed in a space of its directory and its cluster marked: the file is created. */
  lemma PlacedMarked(v: Volume, placed: Volume, size: nat, n: nat, d: Directory, e: DirEntry)
    requires WellFormed(v, size) && Placed(v, placed, size, n, d, e, 0) && e.firstCluster == FirstFree(v.fat)
    ensures e.firstCluster < |placed.fat|
    ensures HasSpace(v, d) && FreeList(v.fat) != [] ==>
              Created(v, placed.WithEntry(e.firstCluster, LAST_CLUSTER), size, d, e)
  {
    hide AddEntry, Content, FreeList, First, Near;
    PlacedShape(v, placed, size, n, d, e);
    assert e.firstCluster < |v.fat| by {
      if FreeList(v.fat) != [] {
        HeadIsData(v.fat);
      }
    }
    if HasSpace(v, d) && FreeList(v.fat) != [] {
      MarkCreated(v, placed, size, d, e);
    }
  }

  lemma PlacedShape(v: Volume, placed: Volume, size: nat, n: nat, d: Directory, e: DirEntry)
    requires WellFormed(v, size) && Placed(v, placed, size, n, d, e, 0)
    ensures |placed.fat| == |v.fat|
    ensures HasSpace(v, d) ==>
              First(TableIn(v, d), Space) != -1 && TableSet(v, placed, size, d, AddEntry(TableIn(v, d), e))
  {
    hide AddEntry, Content, FreeList, First, Near, EncodeSlot;
  }

  /** Deletes a file of the root directory. Deleting rewrites the first slot that matches the name as a
      listing shows it, with the name marked deleted; the FAT is not touched. When no slot matches (see
      `FindsItself`), the table and so the listing stay, and the call still returns 0; the search has then gone on into
      the first sector of cluster 2, where it deletes what matches. */
  method UnlinkInRoot(fs: FileSystem, base: seq<Byte>, extension: seq<Byte>, isOpen: bool) returns (r: int)
    requires fs.Valid() && fs.g.reservedSectors == 1
    modifies fs.disk
    ensures fs.Valid()
    ensures var root := old(fs.Vol()).root; var found := FindNamed(List(root), base, extension);
      if isOpen || found.None? then
        r == -1 && fs.Vol() == old(fs.Vol())
      else
        && r == 0
        && found.value.Valid()
        && var e := found.value; var i := First(root, Named(e.name, e.extension));
        && (i != -1 ==> fs.Vol() == old(fs.Vol()).(root := UpdateEntry(root, i, e.(name := e.name[0 := DELETED]))))
        && (i == -1 ==>
              var v := old(fs.Vol()); var n := fs.g.bytesPerSector;
              && fs.Vol().root == root
              && HasOverrun(v, n)
              && var j := First(Overrun(v, n), Named(e.name, e.extension));
              fs.Vol() == if j == -1 then v
                          else WithOverrun(v, n, UpdateEntry(Overrun(v, n), j, e.(name := e.name[0 := DELETED]))))
  {
    hide VolumeOf, Span, BootSector.Valid, First, List, FindNamed, UpdateEntry;
    if isOpen {
      return -1;
    }
    var entries := GetRootDir(fs);
    ListedValid(fs.Vol().root);
    var file := FindNamed(entries, base, extension);
    if file.None? {
      return -1;
    }
    var e := file.value;
    var _ := UpdateRootDirectoryEntry(fs, e.(name := e.name[0 := 0xe5]), e.name, e.extension);
    return 0;
  }

  /** Deletes a file of a directory kept in a cluster chain, whose entry the caller has found; as in the root
      directory, a name that no slot matches stays and the call returns 0. */
  method UnlinkInDirectory(fs: FileSystem, base: seq<Byte>, extension: seq<Byte>, isOpen: bool, parent: DirEntry,
                           ghost cs: seq<nat>) returns (r: int)
    requires HasChain(fs, cs) && parent.firstCluster == cs[0] && IsSubdirectory(parent.attributes)
    modifies fs.disk
    ensures fs.Valid() && Holds(old(fs.Vol()), cs)
    ensures var v := old(fs.Vol()); var table := Content(v, cs); var found := FindNamed(List(table), base, extension);
      if isOpen || found.None? then
        r == -1 && fs.Vol() == v
      else
        && r == 0
        && found.value.Valid()
        && var e := found.value; var i := First(NearTable(v, cs), Named(e.name, e.extension));
        && (i == -1 ==> fs.Vol() == v)
        && (i != -1 ==>
              && i == First(table, Named(e.name, e.extension))
              && TableChanged(v, fs.Vol(), fs.g.BytesPerCluster(), cs,
                              UpdateEntry(table, i, e.(name := e.name[0 := DELETED]))))
  {
    hide VolumeOf, Span, BootSector.Valid, First, List, FindNamed, UpdateEntry, Content, TableChanged;
    VolumeWellFormed(fs);
    if isOpen {
      return -1;
    }
    var _, entries := GetDir(fs, parent, cs);
    ListedValid(Content(fs.Vol(), cs));
    var file := FindNamed(entries, base, extension);
    if file.None? {
      return -1;
    }
    var e := file.value;
    var _ := UpdateDirectoryEntry(fs, parent.firstCluster, e.(name := e.name[0 := 0xe5]), e.name, e.extension, cs);
    return 0;
  }

  lemma ListedValid(table: seq<Byte>)
    ensures forall e :: e in List(table) ==> e.Valid()
  {
    ListedFromValid(table, 0);
  }

  lemma {:induction false} ListedFromValid(table: seq<Byte>, i: nat)
    ensures forall e :: e in ListFrom(table, i) ==> e.Valid()
    decreases Slots(table) - i
  {
    hide DecodeSlot, SlotAt;
    if i < Slots(table) {
      ListedFromValid(table, i + 1);
    }
  }

  /** A listed entry stands in a slot that the listing reaches. */
  lemma {:induction false} ListedSlot(table: seq<Byte>, e: DirEntry, from: nat) returns (i: nat)
    requires e in ListFrom(table, from)
    ensures from <= i < Slots(table) && DecodeSlot(SlotAt(table, i)) == e && !IsSpace(SlotAt(table, i))
    ensures forall j :: from <= j <= i ==> SlotAt(table, j)[0] != NEVER_USED
    decreases Slots(table) - from
  {
    hide DecodeSlot, SlotAt;
    if SlotAt(table, from)[0] != DELETED && DecodeSlot(SlotAt(table, from)) == e {
      i := from;
    } else {
      i := ListedSlot(table, e, from + 1);
    }
  }

  /** Deleting by name works exactly when the name is not escaped on disk and the extension is not padded:
      for the one slot the name stands in, the search of `UnlinkInRoot` finds that slot if and only if both
      hold, and then exactly that entry leaves the listing. */
  lemma DeleteByName(table: seq<Byte>, i: nat)
    requires i < Slots(table) && !IsSpace(SlotAt(table, i))
    requires forall j :: 0 <= j <= i ==> SlotAt(table, j)[0] != NEVER_USED
    requires var e := DecodeSlot(SlotAt(table, i));
      forall j :: 0 <= j < Slots(table) && j != i ==> !Named(e.name, e.extension).Hits(SlotAt(table, j))
    ensures var e := DecodeSlot(SlotAt(table, i)); var at := First(table, Named(e.name, e.extension));
      && (at != -1 <==> SlotAt(table, i)[0] != ESCAPED && SPACE !in SlotAt(table, i)[8..0x0b])
      && (at != -1 ==>
            && at == i
            && List(table) == Kept(table, 0, i) + [e] + ListFrom(table, i + 1)
            && List(UpdateEntry(table, at, e.(name := e.name[0 := DELETED])))
               == Kept(table, 0, i) + ListFrom(table, i + 1))
  {
    FindsItself(SlotAt(table, i));
    DeleteThenList(table, i);
    hide SlotAt, DecodeSlot, Query.Hits, Kept, ListFrom, UpdateEntry;
    var e := DecodeSlot(SlotAt(table, i));
    var q := Named(e.name, e.extension);
    if q.Hits(SlotAt(table, i)) {
      FirstIs(table, q, i);
    } else {
      FirstIsNone(table, q);
    }
  }

  /** Updating the size by name: the slot is rewritten that the search for the listed name finds, if it finds one. */
  function ResizedByName(table: seq<Byte>, e: DirEntry): seq<Byte>
    requires e.Valid()
  {
    var at := First(table, Named(e.name, e.extension));
    if at == -1 then table else UpdateEntry(table, at, e)
  }

  /** It changes the listing at the entry alone exactly when the name is not escaped on disk, does not start with a
      space, and the extension is not padded. Otherwise the size on disk stays, or, for a name that starts with a space,
      the listing ends there. */
  lemma ResizeByName(table: seq<Byte>, i: nat, size: nat)
    requires i < Slots(table) && !IsSpace(SlotAt(table, i)) && size < 0x1_0000_0000
    requires forall j :: 0 <= j <= i ==> SlotAt(table, j)[0] != NEVER_USED
    requires var e := DecodeSlot(SlotAt(table, i));
      && e.size != size
      && forall j :: 0 <= j < Slots(table) && j != i ==> !Named(e.name, e.extension).Hits(SlotAt(table, j))
    ensures var s := SlotAt(table, i); var e := DecodeSlot(s);
      && List(table) == Kept(table, 0, i) + [e] + ListFrom(table, i + 1)
      && (List(ResizedByName(table, e.(size := size)))
          == Kept(table, 0, i) + [e.(size := size)] + ListFrom(table, i + 1)
          <==> s[0] != ESCAPED && s[0] != SPACE && SPACE !in s[8..0x0b])
      && (s[0] == ESCAPED || SPACE in s[8..0x0b] ==> ResizedByName(table, e.(size := size)) == table)
      && (s[0] == SPACE && SPACE !in s[8..0x0b] ==> List(ResizedByName(table, e.(size := size))) == Kept(table, 0, i))
  {
    FindsItself(SlotAt(table, i));
    ResizeThenList(table, i, size);
    hide SlotAt, DecodeSlot, Query.Hits, Kept, ListFrom, UpdateEntry;
    var e := DecodeSlot(SlotAt(table, i));
    var q := Named(e.name, e.extension);
    if q.Hits(SlotAt(table, i)) {
      FirstIs(table, q, i);
    } else {
      FirstIsNone(table, q);
      DifferentAt(Kept(table, 0, i), e, e.(size := size), ListFrom(table, i + 1));
    }
  }

  lemma DifferentAt<T>(before: seq<T>, x: T, y: T, after: seq<T>)
    requires x != y
    ensures before + [x] + after != before + [y] + after
  {
    assert (before + [x] + after)[|before|] == x && (before + [y] + after)[|before|] == y;
  }

  /** Files whose size cannot be updated: here `.TXT`, the first file of an empty table, whose update ends the listing
      before it, and one whose name is the byte 0xe5, which keeps its size. */
  lemma CannotResizeSpaceOrEscape(c: nat, size: nat)
    requires c < 0x1_0000 && 0 < size < 0x1_0000_0000
    ensures var table := AddEntry(Repeat(0, 64), NewEntry([], TXT, 0, c)); var e := DecodeSlot(SlotAt(table, 0));
      List(table) == [e] && e.size == 0 && List(ResizedByName(table, e.(size := size))) == []
    ensures var table := AddEntry(Repeat(0, 64), NewEntry([DELETED], TXT, 0, c)); var e := DecodeSlot(SlotAt(table, 0));
      List(table) == [e] && e.size == 0 && ResizedByName(table, e.(size := size)) == table
  {
    FirstFileResized([], SPACE, c, size);
    FirstFileResized([DELETED], ESCAPED, c, size);
  }

  const TXT: seq<Byte> := [0x54, 0x58, 0x54]

  lemma FirstFileResized(base: seq<Byte>, first: Byte, c: nat, size: nat)
    requires |base| <= 1 && c < 0x1_0000 && 0 < size < 0x1_0000_0000
    requires first == Escape(Pad(base, NAME_BYTES)[0]) && (first == SPACE || first == ESCAPED)
    ensures var table := AddEntry(Repeat(0, 64), NewEntry(base, TXT, 0, c));
      && var e := DecodeSlot(SlotAt(table, 0));
      && List(table) == [e] && e.size == 0
      && (first == ESCAPED ==> ResizedByName(table, e.(size := size)) == table)
      && (first == SPACE ==> List(ResizedByName(table, e.(size := size))) == [])
  {
    hide EncodeSlot, DecodeSlot, SlotAt, NewEntry, AddEntry, First, ResizedByName;
    FirstOfTwo(base, first, c);
    var table := AddEntry(Repeat(0, 64), NewEntry(base, TXT, 0, c));
    SizeOfNew(SlotAt(table, 0));
    var e := DecodeSlot(SlotAt(table, 0));
    NotInUnused(SlotAt(table, 1), e);
    ResizeByName(table, 0, size);
    assert ListFrom(table, 1) == [];
  }

  lemma FirstOfTwo(base: seq<Byte>, first: Byte, c: nat)
    requires |base| <= 1 && c < 0x1_0000 && first == Escape(Pad(base, NAME_BYTES)[0])
    requires first == SPACE || first == ESCAPED
    ensures First(Repeat(0, 64), Space) != -1
    ensures var table := AddEntry(Repeat(0, 64), NewEntry(base, TXT, 0, c));
      && Slots(table) == 2
      && var s := SlotAt(table, 0); var u := SlotAt(table, 1);
      && s[0] == first && s[8..0x0b] == TXT && s[0x1c..0x20] == DWordBytes(0)
      && u[0] == NEVER_USED && u[8] == 0
  {
    var empty: seq<Byte> := Repeat(0, 64);
    var file := NewEntry(base, TXT, 0, c);
    assert file.extension == TXT && file.name[0] == Pad(base, NAME_BYTES)[0];
    assert SlotAt(empty, 1)[0] == empty[32] && SlotAt(empty, 1)[8] == empty[40];
    FirstIs(empty, Space, 0);
    var added := EncodeSlot(SlotAt(empty, 0), file, first);
    EncodedFields(SlotAt(empty, 0), file, first);
    hide EncodeSlot, NewEntry;
    WithSlotSlots(empty, 0, added, 0);
    WithSlotSlots(empty, 0, added, 1);
  }

  lemma NotInUnused(u: Slot, e: DirEntry)
    requires u[8] == 0 && e.Valid() && e.extension == TXT
    ensures !Named(e.name, e.extension).Hits(u)
  {
    assert u[8..0x0b][0] == 0;
  }

  lemma SizeOfNew(s: Slot)
    requires s[8..0x0b] == TXT && s[0x1c..0x20] == DWordBytes(0)
    ensures DecodeSlot(s).size == 0 && DecodeSlot(s).extension == TXT && SPACE !in s[8..0x0b]
  {
    DWordRoundTrip(0);
  }

  /** A file made without an extension cannot be deleted: here `AB`, the first file of an empty table. */
  lemma CannotDeleteWithoutExtension(c: nat)
    requires c < 0x1_0000
    ensures var table := AddEntry(Repeat(0, 64), NewEntry([0x41, 0x42], [], 0, c));
      && var e := DecodeSlot(SlotAt(table, 0));
      && CString(e.name) == [0x41, 0x42] && CString(e.extension) == []
      && First(table, Named(e.name, e.extension)) == -1
  {
    hide EncodeSlot, DecodeSlot, NameMatches, SlotAt, CString;
    FirstOfEmpty(c);
    var table := AddEntry(Repeat(0, 64), NewEntry([0x41, 0x42], [], 0, c));
    ShortName(SlotAt(table, 0));
    var e := DecodeSlot(SlotAt(table, 0));
    UnusedMatchesNothing(SlotAt(table, 1), e);
    FindsItself(SlotAt(table, 0));
    FirstIsNone(table, Named(e.name, e.extension));
  }

  lemma FirstOfEmpty(c: nat)
    requires c < 0x1_0000
    ensures var empty: seq<Byte> := Repeat(0, 64);
      && First(empty, Space) == 0
      && var table := AddEntry(empty, NewEntry([0x41, 0x42], [], 0, c));
      && var s := SlotAt(table, 0);
      && s[0] == 0x41 && s[1..8] == [0x42] + Repeat(SPACE, 6) && s[8..0x0b] == Repeat(SPACE, 3)
      && SlotAt(table, 1)[0] == NEVER_USED
  {
    var empty: seq<Byte> := Repeat(0, 64);
    var file := NewEntry([0x41, 0x42], [], 0, c);
    FirstIs(empty, Space, 0);
    var added := EncodeSlot(SlotAt(empty, 0), file, 0x41);
    EncodedFields(SlotAt(empty, 0), file, 0x41);
    WithSlotSlots(empty, 0, added, 0);
    WithSlotSlots(empty, 0, added, 1);
  }

  lemma ShortName(s: Slot)
    requires s[0] == 0x41 && s[1..8] == [0x42] + Repeat(SPACE, 6) && s[8..0x0b] == Repeat(SPACE, 3)
    ensures var e := DecodeSlot(s);
      e.name[0] == 0x41 && CString(e.name) == [0x41, 0x42] && CString(e.extension) == [] && SPACE in s[8..0x0b]
  {
    var e := DecodeSlot(s);
    assert s[1] == s[1..8][0] && s[2] == s[1..8][1] && s[8] == s[8..0x0b][0];
    assert e.name[0] == 0x41 && e.name[1] == 0x42 && e.name[2] == 0 && e.extension[0] == 0;
    assert e.name[1..][0] == 0x42 && e.name[1..][1..] == e.name[2..] && e.name[2..][0] == 0;
    assert CString(e.name[2..]) == [];
    assert CString(e.name[1..]) == [0x42] + CString(e.name[2..]);
    assert CString(e.name) == [0x41] + CString(e.name[1..]);
  }

  lemma UnusedMatchesNothing(s: Slot, e: DirEntry)
    requires s[0] == NEVER_USED && e.Valid() && e.name[0] != 0
    ensures !Named(e.name, e.extension).Hits(s)
  {
  }
}
