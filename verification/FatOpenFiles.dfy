/** Reading and writing through open files: offsets, appending, and the size kept in the directory entry. */
module FatOpenFiles {
  import opened Bytes
  import opened Blocks
  import opened FatLayout
  import opened FatChains
  import opened FatContent
  import opened FatTable
  import opened FatFiles
  import opened FatDirectory
  import opened FatDirectoryIO
  import opened FatFileOps
  import opened FatTree

  /** An open file: its entry as last read or written, its position, and whether it appends. */
  class OpenFile {
    var entry: DirEntry
    var offset: nat
    var append: bool

    constructor (entry: DirEntry, append: bool)
      ensures this.entry == entry && this.offset == 0 && this.append == append
    {
      this.entry, this.offset, this.append := entry, 0, append;
    }

    /** Where a write starts. */
    function Position(): nat
      reads this
    {
      if append then entry.size else offset
    }
  }

  /** The entry is that of a file of the tree, in the directory `dir`, slot `i`; size and name may differ from the
      slot's. */
  ghost predicate IsOpenAt(v: Volume, paths: iset<Path>, dir: Path, i: nat, e: DirEntry) {
    && dir + [i] in paths && IsLive(v, dir + [i]) && !IsFolder(SlotOf(v, dir + [i]).value)
    && TableOf(v, dir).Some? && i < Slots(TableOf(v, dir).value)
    && SlotOf(v, dir + [i]) == Some(SlotAt(TableOf(v, dir).value, i))
    && e.Valid() && FirstClusterOf(SlotAt(TableOf(v, dir).value, i)) == e.firstCluster
  }

  /** And it is as in the slot, and a search by its name finds it there. */
  ghost predicate IsFileAt(v: Volume, paths: iset<Path>, dir: Path, i: nat, e: DirEntry) {
    && IsOpenAt(v, paths, dir, i, e)
    && DecodeSlot(SlotAt(TableOf(v, dir).value, i)) == e
    && First(TableOf(v, dir).value, Named(e.name, e.extension)) == i
    && SlotAt(TableOf(v, dir).value, i)[0] != SPACE
  }

  /** Searches of the directory get to all of it: it is the root, or a chain of low-numbered clusters. */
  ghost predicate IsSearchable(v: Volume, dir: Path) {
    dir != [] && IsLive(v, dir) ==> Near(ChainAt(v, dir)) == ChainAt(v, dir)
  }

  /** The table of a directory as far as searches get. */
  ghost function SearchedTable(v: Volume, dir: Path): seq<Byte>
    requires TableOf(v, dir).Some?
  {
    if dir == [] then v.root else NearTable(v, ChainAt(v, dir))
  }

  /** What rewriting the entry of a file in its directory does: the first slot with its name is rewritten. A name that
      is not found there is looked for no further, except behind the root directory, in the `n` bytes of the data
      region's first block. */
  ghost predicate DetailsUpdated(v: Volume, v': Volume, size: nat, n: nat, dir: Path, e: DirEntry)
    requires e.Valid() && TableOf(v, dir).Some?
  {
    var table := TableOf(v, dir).value;
    var i := First(SearchedTable(v, dir), Named(e.name, e.extension));
    if i != -1
    then i == First(table, Named(e.name, e.extension)) && 0 <= i < Slots(table)
         && TableSet(v, v', size, DirectoryAt(v, dir), UpdateEntry(table, i, e))
    else if dir != [] then v' == v
    else
      && HasOverrun(v, n)
      && var j := First(Overrun(v, n), Named(e.name, e.extension));
      v' == if j == -1 then v else WithOverrun(v, n, UpdateEntry(Overrun(v, n), j, e))
  }

  method UpdateFileDetails(fs: FileSystem, inRoot: bool, dirCluster: nat, e: DirEntry, ghost dir: Path)
    requires fs.Valid() && WellFormed(fs.Vol(), fs.g.BytesPerCluster()) && e.Valid()
    requires TableOf(fs.Vol(), dir).Some?
    requires inRoot == (dir == []) && (dir != [] ==> dirCluster == ChainAt(fs.Vol(), dir)[0])
    modifies fs.disk
    ensures fs.Valid()
    ensures DetailsUpdated(old(fs.Vol()), fs.Vol(), fs.g.BytesPerCluster(), fs.g.bytesPerSector, dir, e)
  {
    hide VolumeOf, SlotOf, Content, ChainFrom, UpdateEntry, TableChanged, BootSector.Valid, First;
    DirectoryTable(fs.Vol(), dir);
    VolumeWellFormed(fs);
    FirstRange(TableOf(fs.Vol(), dir).value, Named(e.name, e.extension));
    if inRoot {
      var _ := UpdateRootDirectoryEntry(fs, e, e.name, e.extension);
      VolumeWellFormed(fs);
    } else {
      var _ := UpdateDirectoryEntry(fs, dirCluster, e, e.name, e.extension, ChainAt(fs.Vol(), dir));
    }
  }

  /** The slot of a file rewritten with the entry: a step of the tree. */
  ghost predicate Renewed(v: Volume, v': Volume, size: nat, dir: Path, i: nat, e: DirEntry) {
    && e.Valid() && TableOf(v, dir).Some? && i < Slots(TableOf(v, dir).value)
    && var s := EncodeSlot(SlotAt(TableOf(v, dir).value, i), e, e.name[0]);
    Takes(v, v', size, Rewrite(dir, i, s)) && DecodeSlot(s) == e
  }

  /** Writes to an open file at its position, or at its end when it appends: a write step on the tree and,
      when the file became longer, an update of its entry with the new size. From a position behind the file's chain,
      as after filling it, nothing is stored, but the size grows all the same. When the search for the name finds the
      file's slot, that is a rewrite step, and the file is then as ready for the next write as it was for this one. */
  method SysWrite(fs: FileSystem, file: OpenFile, buf: seq<Byte>, nbytes: nat, inRoot: bool, dirCluster: nat,
                  ghost paths: iset<Path>, ghost dir: Path, ghost i: nat)
    returns (r: nat, ghost more: seq<nat>, ghost mid: Volume)
    requires fs.Valid() && Tree(fs.Vol(), fs.g.BytesPerCluster(), paths)
    requires IsOpenAt(fs.Vol(), paths, dir, i, file.entry)
    requires inRoot == (dir == []) && (dir != [] ==> dirCluster == ChainAt(fs.Vol(), dir)[0])
    requires nbytes <= |buf| && nbytes < 0x8000_0000 && file.Position() + nbytes < 0x1_0000_0000
    requires var v := fs.Vol(); var size := fs.g.BytesPerCluster(); var len := |ChainAt(v, dir + [i])|;
      && InReach(size, len, file.Position(), nbytes)
      && (file.Position() < Span(len, size) ==> Fits(size, len, |Room(v)|, |FreeList(v.fat)|, file.Position(), nbytes))
    modifies fs.disk, file
    ensures fs.Valid() && r <= nbytes && file.append == old(file.append)
    ensures var v := old(fs.Vol()); var size := fs.g.BytesPerCluster(); var at := old(file.Position());
      && file.offset == at + r
      && file.entry == old(file.entry).(size := if at + r > old(file.entry).size then at + r else old(file.entry).size)
      && (if Span(|ChainAt(v, dir + [i])|, size) <= at then r == nbytes && more == [] && mid == v.(rest := mid.rest)
          else
            && Takes(v, mid, size, Write(dir + [i], at, buf[..r], more))
            && Outcome(size, |ChainAt(v, dir + [i])|, |FreeList(v.fat)|, at, nbytes, r, |more|))
      && Tree(mid, size, paths) && IsOpenAt(mid, paths, dir, i, file.entry)
      && TableOf(mid, dir) == TableOf(v, dir) && ChainAt(mid, dir + [i]) == ChainAt(v, dir + [i]) + more
      && (if at + r > old(file.entry).size
          then DetailsUpdated(mid, fs.Vol(), size, fs.g.bytesPerSector, dir, file.entry)
          else fs.Vol() == mid)
    ensures old(IsFileAt(fs.Vol(), paths, dir, i, file.entry) && IsSearchable(fs.Vol(), dir)) ==>
      var size := fs.g.BytesPerCluster();
      && (old(file.Position()) + r > old(file.entry.size) ==> Renewed(mid, fs.Vol(), size, dir, i, file.entry))
      && Tree(fs.Vol(), size, paths)
      && IsFileAt(fs.Vol(), paths, dir, i, file.entry) && IsSearchable(fs.Vol(), dir)
      && (dir != [] ==> IsLive(fs.Vol(), dir) && ChainAt(fs.Vol(), dir) == old(ChainAt(fs.Vol(), dir)))
      && ChainAt(fs.Vol(), dir + [i]) == old(ChainAt(fs.Vol(), dir + [i])) + more
  {
    hide VolumeOf, Span, Content, SlotOf, TableOf, ChainFrom, SlotAt, DecodeSlot, EncodeSlot, Owns, BootSector.Valid,
      FreeList, Written, Stranded, GrownBy, First, Tree, Outcome, TableSet, Room, Fits, WellFormed, IsChain, Near;
    ghost var v := fs.Vol();
    ghost var size := fs.g.BytesPerCluster();
    ghost var found := IsFileAt(v, paths, dir, i, file.entry) && IsSearchable(v, dir);
    ghost var cs := ChainAt(v, dir + [i]);
    if file.append {
      file.offset := file.entry.size;
    }
    FileChain(v, size, paths, dir, i, file.entry);
    r, more := WriteToFile(fs, file.entry.firstCluster, file.offset, buf, nbytes, cs);
    mid := fs.Vol();
    FileWritten(v, mid, size, paths, dir, i, file.entry, file.offset, buf[..r], more);
    if file.offset + r > file.entry.size {
      ghost var before := file.entry;
      file.entry := file.entry.(size := file.offset + r);
      UpdateFileDetails(fs, inRoot, dirCluster, file.entry, dir);
      if found {
        FileUpdated(mid, fs.Vol(), size, fs.g.bytesPerSector, paths, dir, i, before, file.offset + r);
      }
    }
    file.offset := file.offset + r;
  }

  /** After the write the file and its directory are where they were. */
  lemma FileWritten(v: Volume, mid: Volume, size: nat, paths: iset<Path>, dir: Path, i: nat, e: DirEntry, at: nat,
                    x: seq<Byte>, more: seq<nat>)
    requires Tree(v, size, paths) && IsOpenAt(v, paths, dir, i, e)
    requires if Span(|ChainAt(v, dir + [i])|, size) <= at then more == [] && mid == v.(rest := mid.rest)
             else Written(v, mid, size, ChainAt(v, dir + [i]), more, at, x)
    ensures Span(|ChainAt(v, dir + [i])|, size) > at ==> Takes(v, mid, size, Write(dir + [i], at, x, more))
    ensures Tree(mid, size, paths) && IsOpenAt(mid, paths, dir, i, e)
    ensures IsSearchable(v, dir) ==> IsSearchable(mid, dir)
    ensures IsFileAt(v, paths, dir, i, e) ==> IsFileAt(mid, paths, dir, i, e)
    ensures TableOf(mid, dir) == TableOf(v, dir) && WellFormed(mid, size)
    ensures dir != [] ==> IsLive(v, dir) && IsLive(mid, dir) && ChainAt(mid, dir) == ChainAt(v, dir)
    ensures ChainAt(mid, dir + [i]) == ChainAt(v, dir + [i]) + more
  {
    hide SlotOf, TableOf, Tree, IsFileAt, IsSearchable, Takes, Written, ChainFrom, Span, DecodeSlot, SlotAt;
    if Span(|ChainAt(v, dir + [i])|, size) <= at {
      FileUntouched(v, mid, size, paths, dir, i, e);
    } else {
      FileStays(v, mid, size, paths, dir, i, e, at, x, more);
    }
  }

  /** And after the update of its entry, when the search finds it. */
  lemma FileUpdated(v: Volume, v': Volume, size: nat, n: nat, paths: iset<Path>, dir: Path, i: nat, e: DirEntry,
                    length: nat)
    requires Tree(v, size, paths) && IsFileAt(v, paths, dir, i, e) && IsSearchable(v, dir)
    requires length < 0x1_0000_0000 && DetailsUpdated(v, v', size, n, dir, e.(size := length))
    ensures var e' := e.(size := length);
      && Renewed(v, v', size, dir, i, e') && Tree(v', size, paths)
      && IsFileAt(v', paths, dir, i, e') && IsSearchable(v', dir)
    ensures dir != [] ==> IsLive(v, dir) && IsLive(v', dir) && ChainAt(v', dir) == ChainAt(v, dir)
    ensures IsLive(v, dir + [i]) && IsLive(v', dir + [i]) && ChainAt(v', dir + [i]) == ChainAt(v, dir + [i])
  {
    hide SlotOf, TableOf, Tree, IsSearchable, Takes, ChainFrom, DecodeSlot, EncodeSlot, SlotAt, First, TableSet, Owns,
         DetailsUpdated;
    var e' := e.(size := length);
    FileResized(v, size, paths, dir, i, e, length);
    FoundDetails(v, v', size, n, dir, i, e');
    FileStillThere(v, v', size, paths, dir, i, e');
  }

  lemma FoundDetails(v: Volume, v': Volume, size: nat, n: nat, dir: Path, i: nat, e: DirEntry)
    requires e.Valid() && TableOf(v, dir).Some? && DetailsUpdated(v, v', size, n, dir, e)
    requires IsSearchable(v, dir) && First(TableOf(v, dir).value, Named(e.name, e.extension)) == i
    ensures i < Slots(TableOf(v, dir).value)
    ensures TableSet(v, v', size, DirectoryAt(v, dir), UpdateEntry(TableOf(v, dir).value, i, e))
  {
    hide SlotOf, Content, ChainFrom, First, UpdateEntry, TableChanged, Near;
    DirectoryTable(v, dir);
  }

  lemma FileChain(v: Volume, size: nat, paths: iset<Path>, dir: Path, i: nat, e: DirEntry)
    requires Tree(v, size, paths) && IsOpenAt(v, paths, dir, i, e)
    ensures Stored(v, ChainAt(v, dir + [i])) && ChainAt(v, dir + [i])[0] == e.firstCluster >= 2 && WellFormed(v, size)
  {
    hide SlotOf, TableOf, ChainFrom, First;
    TreeOwner(v, size, paths, dir + [i]);
  }

  /** What the tree is made of does not include the sectors behind the clusters. */
  lemma {:induction false} SameButRest(v: Volume, v': Volume, p: Path)
    requires v' == v.(rest := v'.rest)
    ensures SlotOf(v', p) == SlotOf(v, p) && TableOf(v', p) == TableOf(v, p)
    decreases |p|
  {
    hide Content, ChainFrom, Owns, SlotAt;
    if p != [] {
      SameButRest(v, v', p[..|p| - 1]);
      if IsLive(v, p) {
        FolderButRest(v, v', SlotOf(v, p).value);
      }
    }
  }

  lemma FolderButRest(v: Volume, v': Volume, s: Slot)
    requires v' == v.(rest := v'.rest)
    ensures FolderTable(v', s) == FolderTable(v, s)
  {
    hide Content, ChainFrom;
    var cs := ChainFrom(v.fat, FirstClusterOf(s));
    if Holds(v, cs) {
      assert forall c :: v.HasCluster(c) ==> v'.HasCluster(c) && v'.Cluster(c) == v.Cluster(c);
      ContentSame(v, v', cs);
    }
  }

  lemma FileUntouched(v: Volume, mid: Volume, size: nat, paths: iset<Path>, dir: Path, i: nat, e: DirEntry)
    requires Tree(v, size, paths) && IsOpenAt(v, paths, dir, i, e) && mid == v.(rest := mid.rest)
    ensures Tree(mid, size, paths) && IsOpenAt(mid, paths, dir, i, e) && WellFormed(mid, size)
    ensures IsSearchable(v, dir) ==> IsSearchable(mid, dir)
    ensures IsFileAt(v, paths, dir, i, e) ==> IsFileAt(mid, paths, dir, i, e)
    ensures TableOf(mid, dir) == TableOf(v, dir)
    ensures dir != [] ==> IsLive(v, dir) && IsLive(mid, dir) && ChainAt(mid, dir) == ChainAt(v, dir)
    ensures ChainAt(mid, dir + [i]) == ChainAt(v, dir + [i]) + []
  {
    hide SlotOf, TableOf, Content, ChainFrom, First, FreeList, SlotAt, DecodeSlot;
    forall p ensures SlotOf(mid, p) == SlotOf(v, p) && TableOf(mid, p) == TableOf(v, p) {
      SameButRest(v, mid, p);
    }
    DirectoryLives(v, dir);
    TreeButRest(v, mid, size, paths);
  }

  lemma DirectoryLives(v: Volume, dir: Path)
    requires TableOf(v, dir).Some?
    ensures dir != [] ==> IsLive(v, dir)
  {
  }

  lemma TreeButRest(v: Volume, v': Volume, size: nat, paths: iset<Path>)
    requires Tree(v, size, paths) && v' == v.(rest := v'.rest)
    requires forall p :: SlotOf(v', p) == SlotOf(v, p)
    ensures Tree(v', size, paths)
  {
    hide SlotOf, TableOf, Content, ChainFrom;
    forall p | p in paths ensures Owner(v', p) && ChainAt(v', p) == ChainAt(v, p) {
      FileOwner(v, size, paths, p);
    }
    forall p, q | p in paths && q in paths && p != q ensures Apart(ChainAt(v', p), ChainAt(v', q)) {
      assert Apart(ChainAt(v, p), ChainAt(v, q));
    }
    assert forall c :: v'.HasCluster(c) ==> v.HasCluster(c) && v'.Cluster(c) == v.Cluster(c);
  }

  /** After the write step the file's slot is where it was. */
  lemma FileStays(v: Volume, mid: Volume, size: nat, paths: iset<Path>, dir: Path, i: nat, e: DirEntry, at: nat,
                  x: seq<Byte>, more: seq<nat>)
    requires Tree(v, size, paths) && IsOpenAt(v, paths, dir, i, e)
    requires Written(v, mid, size, ChainAt(v, dir + [i]), more, at, x)
    ensures Takes(v, mid, size, Write(dir + [i], at, x, more))
    ensures Tree(mid, size, paths) && IsOpenAt(mid, paths, dir, i, e)
    ensures IsSearchable(v, dir) ==> IsSearchable(mid, dir)
    ensures IsFileAt(v, paths, dir, i, e) ==> IsFileAt(mid, paths, dir, i, e)
    ensures TableOf(mid, dir) == TableOf(v, dir) && WellFormed(mid, size)
    ensures dir != [] ==> IsLive(v, dir) && IsLive(mid, dir) && ChainAt(mid, dir) == ChainAt(v, dir)
    ensures ChainAt(mid, dir + [i]) == ChainAt(v, dir + [i]) + more
  {
    hide SlotOf, TableOf, Content, ChainFrom, First, Written, FreeList, SlotAt, DecodeSlot, TablesCarry;
    WriteKeeps(v, mid, size, paths, dir + [i], at, x, more);
    TableStays(v, mid, size, paths, dir, i, at, x, more);
  }

  /** Rewriting it with a new size is a step. */
  lemma FileResized(v: Volume, size: nat, paths: iset<Path>, dir: Path, i: nat, e: DirEntry, length: nat)
    requires Tree(v, size, paths) && IsFileAt(v, paths, dir, i, e) && length < 0x1_0000_0000
    ensures var table := TableOf(v, dir).value; var e' := e.(size := length);
      var s := EncodeSlot(SlotAt(table, i), e', e'.name[0]);
      && SameFile(SlotAt(table, i), s) && DecodeSlot(s) == e' && Owns(s) && !IsFolder(s)
      && s[0] != SPACE && s[0] != ESCAPED && SPACE !in s[8..0x0b]
      && UpdateEntry(table, i, e') == WithSlot(table, i, s)
      && First(table, Named(e'.name, e'.extension)) == i
      && First(WithSlot(table, i, s), Named(e'.name, e'.extension)) == i
  {
    hide SlotOf, TableOf, ChainsOwned, ClearFree;
    FileSlot(v, paths, dir, i, e);
    var table := TableOf(v, dir).value;
    ResizedFile(table, i, length);
  }

  lemma FileSlot(v: Volume, paths: iset<Path>, dir: Path, i: nat, e: DirEntry)
    requires IsFileAt(v, paths, dir, i, e)
    ensures var s := SlotAt(TableOf(v, dir).value, i);
      Owns(s) && !IsFolder(s) && s[0] != ESCAPED && SPACE !in s[8..0x0b]
  {
    hide DecodeSlot;
    assert (dir + [i])[..|dir|] == dir;
    FindsItself(SlotAt(TableOf(v, dir).value, i));
  }

  /** The slot of a file with another size: still its own, with the same name, and found first under it. */
  lemma ResizedFile(table: seq<Byte>, i: nat, length: nat)
    requires i < Slots(table) && length < 0x1_0000_0000
    requires var s := SlotAt(table, i);
      Owns(s) && !IsFolder(s) && s[0] != ESCAPED && s[0] != SPACE && SPACE !in s[8..0x0b]
    requires var e := DecodeSlot(SlotAt(table, i)); First(table, Named(e.name, e.extension)) == i
    ensures var was := SlotAt(table, i); var e := DecodeSlot(was).(size := length);
      var s := EncodeSlot(was, e, e.name[0]);
      && SameFile(was, s) && DecodeSlot(s) == e && Owns(s) && !IsFolder(s)
      && s[0] != SPACE && s[0] != ESCAPED && SPACE !in s[8..0x0b]
      && UpdateEntry(table, i, e) == WithSlot(table, i, s)
      && First(WithSlot(table, i, s), Named(e.name, e.extension)) == i
  {
    var was := SlotAt(table, i);
    var e := DecodeSlot(was).(size := length);
    var s := EncodeSlot(was, e, e.name[0]);
    ResizingIsRewrite(table, i, length);
    ResizedSlot(was, length);
    EncodedFields(was, e, e.name[0]);
    KeepsName(was, s, e);
    hide EncodeSlot, DecodeSlot, SlotAt, Query.Hits, First;
    FindsItself(s);
    WithSlotAll(table, i, s);
    FirstUnchanged(table, WithSlot(table, i, s), Named(e.name, e.extension), i);
  }

  lemma KeepsName(was: Slot, s: Slot, e: DirEntry)
    requires e.name == DecodeSlot(was).name && e.extension == DecodeSlot(was).extension
    requires was[0] != ESCAPED && was[0] != SPACE && SPACE !in was[8..0x0b]
    requires s[0] == e.name[0] && s[8..0x0b] == e.extension && s[0x0b] == was[0x0b]
    ensures s[0] == was[0] && s[8..0x0b] == was[8..0x0b]
    ensures Owns(was) ==> Owns(s)
  {
    var x := was[8..0x0b];
    assert forall k :: 0 <= k < 3 ==> x[k] != SPACE && e.extension[k] == x[k];
    assert e.extension == x;
  }

  lemma FirstUnchanged(table: seq<Byte>, table': seq<Byte>, q: Query, i: nat)
    requires q.Valid() && First(table, q) == i && Slots(table') == Slots(table) && i < Slots(table)
    requires forall j :: 0 <= j < i ==> SlotAt(table', j) == SlotAt(table, j)
    requires q.Hits(SlotAt(table', i))
    ensures First(table', q) == i
  {
    hide Query.Hits, SlotAt;
    FirstIs(table', q, i);
  }

  /** After the rewrite the file is there with its new size, in the tree as before. */
  lemma FileStillThere(v: Volume, v': Volume, size: nat, paths: iset<Path>, dir: Path, i: nat, e: DirEntry)
    requires Tree(v, size, paths) && IsSearchable(v, dir) && e.Valid()
    requires dir + [i] in paths && TableOf(v, dir).Some? && i < Slots(TableOf(v, dir).value)
    requires var table := TableOf(v, dir).value; var s := EncodeSlot(SlotAt(table, i), e, e.name[0]);
      && SameFile(SlotAt(table, i), s) && DecodeSlot(s) == e && Owns(s) && !IsFolder(s) && s[0] != SPACE
      && First(WithSlot(table, i, s), Named(e.name, e.extension)) == i
      && TableSet(v, v', size, DirectoryAt(v, dir), WithSlot(table, i, s))
    ensures var s := EncodeSlot(SlotAt(TableOf(v, dir).value, i), e, e.name[0]); Takes(v, v', size, Rewrite(dir, i, s))
    ensures Tree(v', size, paths) && IsFileAt(v', paths, dir, i, e) && IsSearchable(v', dir)
    ensures dir != [] ==> IsLive(v, dir) && IsLive(v', dir) && ChainAt(v', dir) == ChainAt(v, dir)
    ensures IsLive(v, dir + [i]) && IsLive(v', dir + [i]) && ChainAt(v', dir + [i]) == ChainAt(v, dir + [i])
  {
    var s := EncodeSlot(SlotAt(TableOf(v, dir).value, i), e, e.name[0]);
    hide EncodeSlot, DecodeSlot, SlotOf, TableOf, ChainAt, First, TableSet, SlotAt, Owns, FolderTable, Tree,
         TablesCarry, SameFile, IsChain, Owner, WithSlot, IsFolder, Near;
    ParentWithin(v, size, paths, dir, i);
    Rewritten(v, v', size, paths, dir, i, s);
    RewrittenSlot(v, v', paths, dir, i, s);
    DecodedFirst(s);
  }

  lemma DecodedFirst(s: Slot)
    ensures DecodeSlot(s).firstCluster == FirstClusterOf(s)
  {
  }

  /** The slot and the table after a rewrite. */
  lemma RewrittenSlot(v: Volume, v': Volume, paths: iset<Path>, dir: Path, i: nat, s: Slot)
    requires TablesCarry(v, v', paths, Edit(dir, i, s)) && Within(paths, dir) && Owns(s)
    requires TableOf(v, dir).Some? && i < Slots(TableOf(v, dir).value)
    ensures SlotOf(v', dir + [i]) == Some(s) && SlotOf(v', dir) == SlotOf(v, dir)
    ensures TableOf(v', dir) == Some(WithSlot(TableOf(v, dir).value, i, s))
    ensures i < Slots(TableOf(v', dir).value) && SlotAt(TableOf(v', dir).value, i) == s
  {
    hide SlotOf, TableOf, TablesCarry, Owns, WithSlot, SlotAt;
    EditedSlot(v, v', paths, dir, i, s);
    EditedTable(v, v', paths, dir, i, s);
    WithSlotAll(TableOf(v, dir).value, i, s);
  }

  /** A rewrite that deletes nothing keeps the tree, with every chain. */
  lemma Rewritten(v: Volume, v': Volume, size: nat, paths: iset<Path>, dir: Path, i: nat, s: Slot)
    requires Tree(v, size, paths) && Within(paths, dir) && Takes(v, v', size, Rewrite(dir, i, s)) && Owns(s)
    ensures Tree(v', size, paths) && TablesCarry(v, v', paths, Edit(dir, i, s))
    ensures v'.fat == v.fat && |v'.data| == |v.data|
    ensures forall p :: p in paths ==> Owner(v, p) && Owner(v', p) && ChainAt(v', p) == ChainAt(v, p)
  {
    hide Owns, SlotOf, TableOf, ChainAt, TableSet, Tree, FreeList, SameFile, Owner, OthersKept, BytesKept, Complete,
         TablesCarry, WithSlot;
    var step := Rewrite(dir, i, s);
    RewriteKeeps(v, v', size, paths, dir, i, s);
    assert step.After(v, v', paths) == paths;
    RewriteKeepsFat(v, v', size, dir, WithSlot(TableOf(v, dir).value, i, s));
    RewriteCarry(v, v', size, paths, dir, i, s);
    forall p | p in paths
      ensures IsLive(v, p) && Owner(v, p) && IsLive(v', p) && Owner(v', p) && ChainAt(v', p) == ChainAt(v, p)
    {
      FileOwner(v, size, paths, p);
      FileOwner(v', size, paths, p);
      assert ChainAt(v, p) + [] == ChainAt(v, p);
    }
  }

  lemma RewriteCarry(v: Volume, v': Volume, size: nat, paths: iset<Path>, dir: Path, i: nat, s: Slot)
    requires Tree(v, size, paths) && Within(paths, dir) && Takes(v, v', size, Rewrite(dir, i, s))
    ensures TablesCarry(v, v', paths, Edit(dir, i, s)) && |v'.data| == |v.data|
  {
    hide Owns, SlotOf, TableOf, ChainAt, TableSet, Tree, SameFile, Owner, TablesCarry, WithSlot;
    RewriteKeepsFat(v, v', size, dir, WithSlot(TableOf(v, dir).value, i, s));
    RewriteCarries(v, v', size, paths, dir, i, s);
  }

  lemma ParentWithin(v: Volume, size: nat, paths: iset<Path>, dir: Path, i: nat)
    requires Tree(v, size, paths) && dir + [i] in paths
    ensures Within(paths, dir)
    ensures dir != [] ==> dir in paths && Owner(v, dir)
  {
    assert (dir + [i])[..|dir|] == dir;
  }

  lemma EditedTable(v: Volume, v': Volume, paths: iset<Path>, dir: Path, i: nat, s: Slot)
    requires TablesCarry(v, v', paths, Edit(dir, i, s)) && Within(paths, dir)
    requires TableOf(v, dir).Some? && i < Slots(TableOf(v, dir).value)
    ensures TableOf(v', dir) == Some(WithSlot(TableOf(v, dir).value, i, s)) && SlotOf(v', dir) == SlotOf(v, dir)
  {
    hide WithSlot, FolderTable;
    assert !Edit(dir, i, s).Below(dir);
    PathsCarry(v, v', paths, Edit(dir, i, s), dir);
  }

  /** A directory's table and chain do not change with a write to a file. */
  lemma TableStays(v: Volume, mid: Volume, size: nat, paths: iset<Path>, dir: Path, i: nat, at: nat, x: seq<Byte>,
                   more: seq<nat>)
    requires Tree(v, size, paths) && TableOf(v, dir).Some? && dir + [i] in paths
    requires Takes(v, mid, size, Write(dir + [i], at, x, more))
    ensures TableOf(mid, dir) == TableOf(v, dir)
    ensures dir != [] ==> IsLive(v, dir) && IsLive(mid, dir) && ChainAt(mid, dir) == ChainAt(v, dir)
  {
    hide Content, ChainFrom, SlotOf, TableOf, Written, FreeList, FolderTable;
    ParentWithin(v, size, paths, dir, i);
    WriteKeeps(v, mid, size, paths, dir + [i], at, x, more);
    PathsCarry(v, mid, paths, NoEdit, dir);
  }

  /** Two writes to an open file, the second where the first ended, with the entry rewritten in between or not: the file
      holds the bytes of both, one after the other, and is otherwise what it was. */
  lemma WritesConcatenate(v: Volume, mid: Volume, w: Volume, end: Volume, size: nat, paths: iset<Path>, dir: Path,
                          i: nat, s: Slot, at: nat, x: seq<Byte>, more: seq<nat>, y: seq<Byte>, further: seq<nat>)
    requires Tree(v, size, paths) && dir + [i] in paths && Owns(s)
    requires Takes(v, mid, size, Write(dir + [i], at, x, more))
    requires w == mid || Takes(mid, w, size, Rewrite(dir, i, s))
    requires Takes(w, end, size, Write(dir + [i], at + |x|, y, further))
    ensures IsLive(v, dir + [i])
    ensures var all := ChainAt(v, dir + [i]) + more + further;
      && Stored(end, all) && Holds(v, all)
      && at + |x + y| <= |Content(v, all)| && Content(end, all) == Splice(Content(v, all), at, x + y)
  {
    hide SlotOf, TableOf, Content, Written, FreeList, Owns, WithSlot, Tree, ChainAt, Owner, SameFile, TableSet;
    var path := dir + [i];
    FileOwner(v, size, paths, path);
    var cs := ChainAt(v, path);
    FileGrown(v, mid, size, paths, path, at, x, more);
    ParentWithin(v, size, paths, dir, i);
    if w != mid {
      Rewritten(mid, w, size, paths, dir, i, s);
    }
    FileOwner(w, size, paths, path);
    assert ChainAt(w, path) == ChainAt(mid, path) == cs + more;
    forall c | w.HasCluster(c) && c in cs + more + further
      ensures mid.HasCluster(c) && w.Cluster(c) == mid.Cluster(c)
    {
      if w != mid {
        NotInTable(mid, w, end, size, paths, dir, i, s, at + |x|, y, further, c);
      }
    }
    hide Takes;
    WriteTwice(v, mid, w, end, size, cs, more, further, at, x, y);
  }

  lemma FileOwner(v: Volume, size: nat, paths: iset<Path>, p: Path)
    requires Tree(v, size, paths) && p in paths
    ensures IsLive(v, p) && Owner(v, p)
  {
    hide SlotOf, TableOf, ChainAt;
  }

  lemma FileGrown(v: Volume, v': Volume, size: nat, paths: iset<Path>, p: Path, at: nat, x: seq<Byte>, more: seq<nat>)
    requires Tree(v, size, paths) && p in paths && Takes(v, v', size, Write(p, at, x, more))
    ensures Tree(v', size, paths) && IsLive(v, p) && IsLive(v', p) && ChainAt(v', p) == ChainAt(v, p) + more
  {
    hide SlotOf, TableOf, ChainAt, Tree, Written, StepKeeps;
    WriteKeeps(v, v', size, paths, p, at, x, more);
  }

  /** The clusters of a file, and free ones, are not in its directory's table. */
  lemma NotInTable(v: Volume, w: Volume, end: Volume, size: nat, paths: iset<Path>, dir: Path, i: nat, s: Slot, at: nat,
                   y: seq<Byte>, further: seq<nat>, c: nat)
    requires Tree(v, size, paths) && dir + [i] in paths && Takes(v, w, size, Rewrite(dir, i, s))
    requires w.fat == v.fat && IsLive(w, dir + [i]) && IsLive(v, dir + [i])
    requires ChainAt(w, dir + [i]) == ChainAt(v, dir + [i])
    requires Takes(w, end, size, Write(dir + [i], at, y, further))
    requires v.HasCluster(c) && c in ChainAt(v, dir + [i]) + further
    ensures w.Cluster(c) == v.Cluster(c)
  {
    hide Content, ChainFrom, SlotOf, TableOf, FolderTable, Owns, WithSlot, SameFile, Linked, FreeBelow;
    ParentWithin(v, size, paths, dir, i);
    DirectoryTable(v, dir);
    if dir != [] {
      assert Apart(ChainAt(v, dir + [i]), ChainAt(v, dir));
      InUse(v.fat, ChainAt(v, dir));
      assert c in further ==> c in FreeList(v.fat);
    }
  }

  /** Reads from an open file at its position, as far as its chain goes, and moves the position on. */
  method SysRead(fs: FileSystem, file: OpenFile, buf: array<Byte>, nbytes: nat, ghost cs: seq<nat>) returns (r: int)
    requires file.entry.firstCluster >= 2 ==>
               HasChain(fs, cs) && file.entry.firstCluster == cs[0]
               && InReach(fs.g.BytesPerCluster(), |cs|, file.offset, nbytes)
    requires nbytes <= buf.Length && nbytes < 0x8000_0000
    modifies buf, file
    ensures file.entry == old(file.entry) && file.append == old(file.append)
    ensures if file.entry.firstCluster < 2 then r == -1 && file.offset == old(file.offset) && buf[..] == old(buf[..])
            else
              && Holds(fs.Vol(), cs) && 0 <= r && file.offset == old(file.offset) + r
              && if |Content(fs.Vol(), cs)| <= old(file.offset)
                 then r == nbytes && buf[nbytes..] == old(buf[nbytes..])
                 else
                   && r == Min(nbytes, |Content(fs.Vol(), cs)| - old(file.offset))
                   && buf[..] == Splice(old(buf[..]), 0, Content(fs.Vol(), cs)[old(file.offset)..file.offset])
  {
    hide VolumeOf, Span, Content, WellFormed, IsChain, BootSector.Valid;
    if file.entry.firstCluster < 2 {
      return -1;
    }
    var bytesRead := ReadFromFile(fs, file.entry.firstCluster, file.offset, buf, nbytes, cs);
    file.offset := file.offset + bytesRead;
    return bytesRead;
  }
}
