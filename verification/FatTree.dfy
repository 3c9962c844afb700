/** The whole directory tree: every path of it, at every depth, owns a chain, no two share a cluster, and free
    clusters are clear. These hold over every run of creating, writing, resizing and deleting. The tree may be part of
    what is on the disk: the theorems are about any set of paths that starts out so. */
module FatTree {
  import opened Bytes
  import opened Blocks
  import opened FatLayout
  import opened FatChains
  import opened FatContent
  import opened FatDirectory
  import opened FatDirectoryIO
  import opened FatFileOps

  const DOT: Byte := 0x2e

  /** The slot stands for a file or directory of its own: it is in use, is not a link to the directory
      itself or its parent, and is not the volume label. */
  predicate Owns(s: Slot) {
    !IsSpace(s) && s[0] != DOT && s[0x0b] / 8 % 2 == 0
  }

  function FirstClusterOf(s: Slot): nat {
    Word(s[0x1a], s[0x1b])
  }

  predicate IsFolder(s: Slot) {
    IsSubdirectory(s[0x0b])
  }

  /** The chain that starts at `c`, or nothing. */
  ghost function ChainFrom(fat: seq<nat>, c: nat): (cs: seq<nat>)
    ensures cs != [] ==> IsChain(fat, cs) && cs[0] == c
  {
    if exists ds :: IsChain(fat, ds) && ds[0] == c then
      var ds :| IsChain(fat, ds) && ds[0] == c; ds
    else []
  }

  lemma ChainFromIs(fat: seq<nat>, cs: seq<nat>)
    requires IsChain(fat, cs)
    ensures ChainFrom(fat, cs[0]) == cs
  {
    ChainIsUnique(fat, ChainFrom(fat, cs[0]), cs);
  }

  /** The table of the directory that the slot stands for. */
  ghost function FolderTable(v: Volume, s: Slot): Option<seq<Byte>> {
    var cs := ChainFrom(v.fat, FirstClusterOf(s));
    if IsFolder(s) && cs != [] && Holds(v, cs) then Some(Content(v, cs)) else None
  }

  /** A list of slot numbers leading down from the root directory. */
  type Path = seq<nat>

  /** The slot at a path. */
  ghost function SlotOf(v: Volume, path: Path): Option<Slot>
    decreases |path|, 0
  {
    if path == [] then None
    else
      var i := path[|path| - 1];
      match TableOf(v, path[..|path| - 1])
      case None => None
      case Some(table) =>
        if i < Slots(table) && Owns(SlotAt(table, i)) then Some(SlotAt(table, i)) else None
  }

  ghost function TableOf(v: Volume, path: Path): Option<seq<Byte>>
    decreases |path|, 1
  {
    if path == [] then Some(v.root)
    else match SlotOf(v, path)
      case None => None
      case Some(s) => FolderTable(v, s)
  }

  ghost predicate IsLive(v: Volume, path: Path) {
    SlotOf(v, path).Some?
  }

  ghost function ChainAt(v: Volume, path: Path): seq<nat>
    requires IsLive(v, path)
  {
    ChainFrom(v.fat, FirstClusterOf(SlotOf(v, path).value))
  }

  ghost predicate Apart(a: seq<nat>, b: seq<nat>) {
    forall c :: c in a ==> c !in b
  }

  ghost predicate Zeros(s: seq<Byte>) {
    forall i :: 0 <= i < |s| ==> s[i] == 0
  }

  ghost predicate ClearFree(v: Volume) {
    forall c :: v.HasCluster(c) && v.fat[c] == 0 ==> Zeros(v.Cluster(c))
  }

  /** With a path the set has every directory on the way to it. */
  ghost predicate Closed(paths: iset<Path>) {
    forall p :: p in paths ==> p != [] && (|p| > 1 ==> p[..|p| - 1] in paths)
  }

  ghost predicate Within(paths: iset<Path>, dir: Path) {
    dir == [] || dir in paths
  }

  /** The path owns a chain of clusters that exist. */
  ghost predicate Owner(v: Volume, p: Path) {
    IsLive(v, p) && ChainAt(v, p) != [] && Holds(v, ChainAt(v, p))
  }

  /** Every path of the set owns a chain, and two of them never share a cluster. */
  ghost predicate ChainsOwned(v: Volume, paths: iset<Path>) {
    && Closed(paths)
    && (forall p :: p in paths ==> Owner(v, p))
    && (forall p, q :: p in paths && q in paths && p != q ==> Apart(ChainAt(v, p), ChainAt(v, q)))
  }

  ghost predicate Tree(v: Volume, size: nat, paths: iset<Path>) {
    WellFormed(v, size) && ChainsOwned(v, paths) && ClearFree(v)
  }

  /** The set has all there are. */
  ghost predicate Complete(v: Volume, paths: iset<Path>) {
    forall p :: IsLive(v, p) ==> p in paths
  }

  /** One slot of one directory replaced. */
  datatype Edit = NoEdit | Edit(dir: Path, i: nat, s: Slot) {
    ghost predicate Below(path: Path) {
      Edit? && dir + [i] <= path
    }

    ghost function Apply(path: Path, table: Option<seq<Byte>>): Option<seq<Byte>> {
      if Edit? && path == dir && table.Some? && i < Slots(table.value) then Some(WithSlot(table.value, i, s)) else table
    }
  }

  /** The tables of the paths carry over from `v` to `v'` but for the edit. */
  ghost predicate TablesCarry(v: Volume, v': Volume, paths: iset<Path>, edit: Edit) {
    && Closed(paths) && (forall p :: p in paths ==> IsLive(v, p))
    && Some(v'.root) == edit.Apply([], Some(v.root))
    && forall p :: p in paths && !edit.Below(p) ==>
         FolderTable(v', SlotOf(v, p).value) == edit.Apply(p, FolderTable(v, SlotOf(v, p).value))
  }

  lemma BelowExtends(edit: Edit, d: Path, k: nat)
    ensures edit.Below(d) ==> edit.Below(d + [k])
    ensures edit.Edit? && edit.Below(d + [k]) && !edit.Below(d) ==> d == edit.dir && k == edit.i
  {
    if edit.Edit? && edit.Below(d + [k]) && !edit.Below(d) {
      PrefixOfLonger(edit.dir + [edit.i], d, k);
      assert (edit.dir + [edit.i])[..|edit.dir|] == edit.dir && (d + [k])[..|d|] == d;
    }
  }

  lemma PrefixOfLonger(e: Path, d: Path, k: nat)
    requires e <= d + [k]
    ensures e <= d || e == d + [k]
  {
    if |e| <= |d| {
      assert d == (d + [k])[..|d|];
    }
  }

  /** Then every path in one of the directories, outside the edit, leads to the same slot as before. */
  lemma {:induction false} PathsCarry(v: Volume, v': Volume, paths: iset<Path>, edit: Edit, p: Path)
    requires TablesCarry(v, v', paths, edit) && !edit.Below(p)
    requires p != [] ==> Within(paths, p[..|p| - 1])
    ensures SlotOf(v', p) == SlotOf(v, p)
    ensures Within(paths, p) ==> TableOf(v', p) == edit.Apply(p, TableOf(v, p))
    decreases |p|
  {
    hide FolderTable, SlotOf, Owns, Edit.Below, Edit.Apply;
    RootHasNoSlot(v);
    RootHasNoSlot(v');
    if p != [] {
      var d, k := p[..|p| - 1], p[|p| - 1];
      assert p == d + [k];
      BelowExtends(edit, d, k);
      PathsCarry(v, v', paths, edit, d);
      SlotCarries(v, v', edit, d, k);
      if p in paths {
        assert FolderTable(v', SlotOf(v, p).value) == edit.Apply(p, FolderTable(v, SlotOf(v, p).value));
      }
    }
  }

  lemma RootHasNoSlot(v: Volume)
    ensures SlotOf(v, []) == None
  {
  }

  lemma SlotCarries(v: Volume, v': Volume, edit: Edit, d: Path, k: nat)
    requires TableOf(v', d) == edit.Apply(d, TableOf(v, d)) && !edit.Below(d + [k])
    ensures SlotOf(v', d + [k]) == SlotOf(v, d + [k])
  {
    hide FolderTable, SlotAt, WithSlot, Owns, TableOf;
    assert (d + [k])[..|d|] == d;
    if edit.Edit? && d == edit.dir && TableOf(v, d).Some? && edit.i < Slots(TableOf(v, d).value) {
      assert k != edit.i;
      WithSlotAll(TableOf(v, d).value, edit.i, edit.s);
    }
  }

  /** And when the set has all paths there were, a path outside the edit that is live was so before. */
  lemma {:induction false} LiveBefore(v: Volume, v': Volume, paths: iset<Path>, edit: Edit, q: Path)
    requires TablesCarry(v, v', paths, edit) && Complete(v, paths)
    requires IsLive(v', q) && !edit.Below(q)
    ensures q in paths
    decreases |q|
  {
    hide FolderTable, SlotAt, WithSlot, Owns, SlotOf, TableOf, Edit.Below, TablesCarry;
    LiveIsBelow(v', q);
    var d, k := q[..|q| - 1], q[|q| - 1];
    assert q == d + [k];
    BelowExtends(edit, d, k);
    if d != [] {
      LiveBefore(v, v', paths, edit, d);
    }
    PathsCarry(v, v', paths, edit, q);
  }

  /** What is live is in a directory that is live. */
  lemma LiveIsBelow(v: Volume, q: Path)
    requires IsLive(v, q)
    ensures q != [] && TableOf(v, q[..|q| - 1]).Some? && (|q| > 1 ==> IsLive(v, q[..|q| - 1]))
  {
    hide FolderTable, SlotAt, Owns;
  }

  /** Nothing is live below a path without a table or with a table without owners. */
  lemma {:induction false} NothingBelow(v: Volume, p: Path, q: Path)
    requires p <= q && p != q
    requires TableOf(v, p).Some? ==>
               forall i :: 0 <= i < Slots(TableOf(v, p).value) ==> !Owns(SlotAt(TableOf(v, p).value, i))
    ensures SlotOf(v, q) == None
    decreases |q|
  {
    hide FolderTable, SlotAt, Owns;
    var d := q[..|q| - 1];
    if d != p {
      NothingBelow(v, p, d);
    }
  }

  /** A chain none of whose entries changed is the same chain, and with its clusters unchanged it holds
      the same bytes. */
  lemma ChainCarries(v: Volume, v': Volume, cs: seq<nat>)
    requires |v'.fat| == |v.fat| && |v'.data| == |v.data| && Stored(v, cs)
    requires forall c :: c in cs ==> v'.fat[c] == v.fat[c]
    ensures Stored(v', cs) && ChainFrom(v'.fat, cs[0]) == cs && ChainFrom(v.fat, cs[0]) == cs
    ensures (forall c :: c in cs ==> v'.Cluster(c) == v.Cluster(c)) ==> Content(v', cs) == Content(v, cs)
  {
    hide Content, ChainFrom;
    assert forall i :: 0 <= i < |cs| ==> v'.fat[cs[i]] == v.fat[cs[i]];
    ChainFromIs(v.fat, cs);
    ChainFromIs(v'.fat, cs);
    if forall c :: c in cs ==> v'.Cluster(c) == v.Cluster(c) {
      ContentSame(v, v', cs);
    }
  }

  /** The directory that a path leads to. */
  ghost function DirectoryAt(v: Volume, p: Path): Directory
    requires TableOf(v, p).Some?
  {
    if p == [] then Root else Chained(ChainAt(v, p))
  }

  lemma DirectoryTable(v: Volume, p: Path)
    requires TableOf(v, p).Some?
    ensures IsDirectory(v, DirectoryAt(v, p)) && TableIn(v, DirectoryAt(v, p)) == TableOf(v, p).value
    ensures p != [] ==> IsLive(v, p) && ChainAt(v, p) != [] && IsFolder(SlotOf(v, p).value)
  {
  }

  /** One operation on the tree. `Rewrite` replaces a slot by one for the same file, or by one that owns
      nothing; resizing and deleting are rewrites. */
  datatype Step =
    | Create(dir: Path, entry: DirEntry)
    | Write(path: Path, at: nat, bytes: seq<Byte>, more: seq<nat>)
    | Rewrite(dir: Path, i: nat, s: Slot)
  {
    /** The path the operation is about. */
    ghost function Target(v: Volume): Path {
      match this
      case Create(dir, _) => if TableOf(v, dir).Some? && First(TableOf(v, dir).value, Space) != -1
                             then dir + [First(TableOf(v, dir).value, Space)] else dir
      case Write(path, _, _, _) => path
      case Rewrite(dir, i, _) => dir + [i]
    }

    /** The path whose bytes it changes: the file written, or the directory edited. */
    function Changes(): Path {
      match this
      case Create(dir, _) => dir
      case Write(path, _, _, _) => path
      case Rewrite(dir, _, _) => dir
    }

    /** How many free clusters it takes. */
    function Taken(): nat {
      match this
      case Create(_, _) => 1
      case Write(_, _, _, more) => |more|
      case Rewrite(_, _, _) => 0
    }

    /** It is about one of the paths, or a new one in one of the directories. */
    ghost predicate On(paths: iset<Path>) {
      match this
      case Create(dir, _) => Within(paths, dir)
      case Write(path, _, _, _) => path in paths
      case Rewrite(dir, _, _) => Within(paths, dir)
    }

    /** It leaves nothing at the path or on the way to it. */
    predicate Deletes(p: Path) {
      Rewrite? && !Owns(s) && dir + [i] <= p
    }

    /** The paths after it: a created one is added, and those that a deletion cuts off are not among them. */
    ghost function After(v: Volume, v': Volume, paths: iset<Path>): iset<Path> {
      if Create? && IsLive(v', Target(v)) then paths + iset{Target(v)}
      else iset p | p in paths && !Deletes(p)
    }
  }

  ghost predicate SameFile(s: Slot, s': Slot) {
    Owns(s') ==> Owns(s) && !IsFolder(s) && !IsFolder(s') && FirstClusterOf(s') == FirstClusterOf(s)
  }

  ghost predicate Takes(v: Volume, v': Volume, size: nat, step: Step) {
    match step
    case Create(dir, e) =>
      TableOf(v, dir).Some? && Created(v, v', size, DirectoryAt(v, dir), e) && v.HasCluster(e.firstCluster)
    case Write(path, at, bytes, more) =>
      IsLive(v, path) && !IsFolder(SlotOf(v, path).value) && Written(v, v', size, ChainAt(v, path), more, at, bytes)
    case Rewrite(dir, i, s) =>
      && TableOf(v, dir).Some? && i < Slots(TableOf(v, dir).value)
      && TableSet(v, v', size, DirectoryAt(v, dir), WithSlot(TableOf(v, dir).value, i, s))
      && SameFile(SlotAt(TableOf(v, dir).value, i), s)
  }

  /** Paths other than `own` lead to the same slots and chains as before. */
  ghost predicate OthersKept(v: Volume, v': Volume, paths: iset<Path>, own: Path) {
    forall q :: q in paths && q != own ==>
      Owner(v, q) && IsLive(v', q) && SlotOf(v', q) == SlotOf(v, q) && ChainAt(v', q) == ChainAt(v, q)
  }

  /** What an operation does to the tree, one lemma an operation: the tree stays, the free list loses the clusters
      taken, every other path keeps its slot, its chain and, unless it is the directory that was edited, its bytes, and
      no path comes to light that was not in the tree. */
  ghost predicate StepKeeps(v: Volume, v': Volume, size: nat, paths: iset<Path>, step: Step) {
    var paths' := step.After(v, v', paths);
    && Tree(v', size, paths')
    && step.Taken() <= |FreeList(v.fat)| && FreeList(v'.fat) == FreeList(v.fat)[step.Taken()..]
    && OthersKept(v, v', paths', step.Target(v))
    && (forall p :: p in paths && p in paths' ==>
          && Owner(v, p) && Owner(v', p)
          && ChainAt(v', p) == ChainAt(v, p) + if step.Write? && p == step.path then step.more else [])
    && BytesKept(v, v', paths, step.Changes())
    && (Complete(v, paths) ==> Complete(v', paths'))
  }

  /** The chain of every path but one holds the bytes it held. */
  ghost predicate BytesKept(v: Volume, v': Volume, paths: iset<Path>, changed: Path) {
    forall q :: q in paths && q != changed ==>
      Owner(v, q) && Holds(v', ChainAt(v, q)) && Content(v', ChainAt(v, q)) == Content(v, ChainAt(v, q))
  }

  /** Paths of the tree that keep their chains, and one with a chain apart from theirs, own chains. */
  lemma OwnedStill(v: Volume, v': Volume, paths: iset<Path>, paths': iset<Path>, own: Path, cs: seq<nat>)
    requires ChainsOwned(v, paths) && (forall p :: p in paths' && p != own ==> p in paths) && Closed(paths')
    requires OthersKept(v, v', paths', own) && |v'.fat| == |v.fat| && |v'.data| == |v.data|
    requires own in paths' ==> IsLive(v', own) && ChainAt(v', own) == cs != [] && Holds(v', cs)
    requires own in paths' ==> forall q :: q in paths' && q != own ==> IsLive(v, q) && Apart(ChainAt(v, q), cs)
    ensures ChainsOwned(v', paths')
  {
    hide SlotOf, ChainAt, IsLive;
    forall p, q | p in paths' && q in paths' && p != q
      ensures IsLive(v', p) && IsLive(v', q) && Apart(ChainAt(v', p), ChainAt(v', q))
    {
      if p == own {
        assert Apart(ChainAt(v, q), cs);
      } else if q == own {
        assert Apart(ChainAt(v, p), cs);
      } else {
        assert Apart(ChainAt(v, p), ChainAt(v, q));
      }
    }
  }

  /** A directory's table set to `WithSlot(table, i, s)`: all other tables carry over. */
  lemma RewriteCarries(v: Volume, v': Volume, size: nat, paths: iset<Path>, dir: Path, i: nat, s: Slot)
    requires Tree(v, size, paths) && Within(paths, dir) && TableOf(v, dir).Some? && i < Slots(TableOf(v, dir).value)
    requires WellFormed(v', size) && |v'.fat| == |v.fat|
    requires forall c :: 0 <= c < |v.fat| && v.fat[c] != 0 ==> v'.fat[c] == v.fat[c]
    requires TableSet(v, v'.(fat := v.fat), size, DirectoryAt(v, dir), WithSlot(TableOf(v, dir).value, i, s))
    ensures TablesCarry(v, v', paths, Edit(dir, i, s)) && |v'.data| == |v.data|
    ensures forall p :: p in paths && !Edit(dir, i, s).Below(p) ==>
              && Owner(v, p) && Stored(v', ChainAt(v, p))
              && ChainFrom(v'.fat, FirstClusterOf(SlotOf(v, p).value)) == ChainAt(v, p)
  {
    hide SlotOf, Content, Owns, ChainFrom, WithSlot, FolderTable;
    var edit := Edit(dir, i, s);
    RootCarries(v, v', size, dir, i, s);
    assert edit.Apply([], Some(v.root)) == Some(v'.root);
    hide TableSet;
    forall p | p in paths && !edit.Below(p)
      ensures FolderTable(v', SlotOf(v, p).value) == edit.Apply(p, FolderTable(v, SlotOf(v, p).value))
      ensures Stored(v', ChainAt(v, p)) && ChainFrom(v'.fat, FirstClusterOf(SlotOf(v, p).value)) == ChainAt(v, p)
    {
      TableCarries(v, v', size, paths, dir, i, s, p);
    }
  }

  lemma RootCarries(v: Volume, v': Volume, size: nat, dir: Path, i: nat, s: Slot)
    requires TableOf(v, dir).Some? && i < Slots(TableOf(v, dir).value)
    requires TableSet(v, v'.(fat := v.fat), size, DirectoryAt(v, dir), WithSlot(TableOf(v, dir).value, i, s))
    ensures v'.root == (if dir == [] then WithSlot(v.root, i, s) else v.root) && |v'.data| == |v.data|
  {
    assert v'.data == v'.(fat := v.fat).data && v'.root == v'.(fat := v.fat).root;
  }

  lemma TableCarries(v: Volume, v': Volume, size: nat, paths: iset<Path>, dir: Path, i: nat, s: Slot, p: Path)
    requires Tree(v, size, paths) && Within(paths, dir) && TableOf(v, dir).Some? && i < Slots(TableOf(v, dir).value)
    requires WellFormed(v', size) && |v'.fat| == |v.fat| && |v'.data| == |v.data|
    requires forall c :: 0 <= c < |v.fat| && v.fat[c] != 0 ==> v'.fat[c] == v.fat[c]
    requires TableSet(v, v'.(fat := v.fat), size, DirectoryAt(v, dir), WithSlot(TableOf(v, dir).value, i, s))
    requires p in paths
    ensures Stored(v', ChainAt(v, p)) && ChainFrom(v'.fat, FirstClusterOf(SlotOf(v, p).value)) == ChainAt(v, p)
    ensures FolderTable(v', SlotOf(v, p).value) == Edit(dir, i, s).Apply(p, FolderTable(v, SlotOf(v, p).value))
  {
    hide SlotOf, Content, Owns, ChainFrom, WithSlot, SlotAt;
    assert Owner(v, p);
    var cs := ChainAt(v, p);
    InUse(v.fat, cs);
    ChainCarries(v, v', cs);
    var v1 := v'.(fat := v.fat);
    SameContent(v1, v', cs);
    LiveTable(v, p);
    if p == dir {
      DirectoryTable(v, dir);
    } else {
      OtherChain(v, v1, size, paths, dir, p, WithSlot(TableOf(v, dir).value, i, s));
    }
  }

  lemma LiveTable(v: Volume, p: Path)
    requires IsLive(v, p)
    ensures p != [] && TableOf(v, p) == FolderTable(v, SlotOf(v, p).value)
  {
  }

  /** The bytes of a path's chain do not change with another directory's table. */
  lemma OtherChain(v: Volume, v1: Volume, size: nat, paths: iset<Path>, dir: Path, p: Path, table: seq<Byte>)
    requires Tree(v, size, paths) && Within(paths, dir) && TableOf(v, dir).Some? && p in paths && p != dir
    requires TableSet(v, v1, size, DirectoryAt(v, dir), table)
    ensures Owner(v, p) && Holds(v1, ChainAt(v, p))
    ensures Content(v1, ChainAt(v, p)) == Content(v, ChainAt(v, p))
  {
    hide SlotOf, Content, ChainFrom;
    assert Owner(v, p);
    var cs := ChainAt(v, p);
    DirectoryTable(v, dir);
    if dir != [] {
      assert Apart(cs, ChainAt(v, dir));
    }
    ContentSame(v, v1, cs);
  }

  lemma SameContent(v1: Volume, v': Volume, cs: seq<nat>)
    requires Holds(v', cs) && v1.data == v'.data && |v1.fat| == |v'.fat|
    ensures Holds(v1, cs) && Content(v1, cs) == Content(v', cs)
  {
    ContentSame(v1, v', cs);
  }

  lemma EditKeepsBytes(v: Volume, v': Volume, size: nat, paths: iset<Path>, dir: Path, table: seq<Byte>)
    requires Tree(v, size, paths) && Within(paths, dir) && TableOf(v, dir).Some? && |v'.fat| == |v.fat|
    requires TableSet(v, v'.(fat := v.fat), size, DirectoryAt(v, dir), table)
    ensures BytesKept(v, v', paths, dir)
  {
    hide Content, ChainFrom, SlotOf, TableSet, Tree;
    forall q | q in paths && q != dir
      ensures Owner(v, q) && Holds(v', ChainAt(v, q)) && Content(v', ChainAt(v, q)) == Content(v, ChainAt(v, q))
    {
      OtherChain(v, v'.(fat := v.fat), size, paths, dir, q, table);
      SameContent(v'.(fat := v.fat), v', ChainAt(v, q));
    }
  }

  /** A rewrite keeps every path of the tree that it does not delete. */
  lemma RewritePaths(v: Volume, v': Volume, size: nat, paths: iset<Path>, dir: Path, i: nat, s: Slot)
    requires Tree(v, size, paths) && Within(paths, dir) && Takes(v, v', size, Rewrite(dir, i, s))
    requires v'.fat == v.fat && TablesCarry(v, v', paths, Edit(dir, i, s)) && |v'.data| == |v.data|
    ensures var paths' := Rewrite(dir, i, s).After(v, v', paths); var own := dir + [i];
      && Closed(paths') && OthersKept(v, v', paths', own) && ChainsOwned(v', paths')
      && (forall q :: q in paths' ==> Owner(v, q) && Owner(v', q) && ChainAt(v', q) == ChainAt(v, q))
  {
    hide Content, Owns, ChainFrom, WithSlot, SlotAt, SlotOf, FreeList, TableSet, Takes, TablesCarry, Owner, ChainAt,
         Apart, ChainsOwned, Closed, WellFormed, ClearFree;
    var own, step := dir + [i], Rewrite(dir, i, s);
    var paths' := step.After(v, v', paths);
    forall q | q in paths'
      ensures IsLive(v, q) && Owner(v, q) && IsLive(v', q) && Owner(v', q) && ChainAt(v', q) == ChainAt(v, q) != []
      ensures Holds(v', ChainAt(v, q)) && (q != own ==> SlotOf(v', q) == SlotOf(v, q))
      ensures own in paths' && q != own ==> IsLive(v, own) && Apart(ChainAt(v, q), ChainAt(v, own))
    {
      RewrittenElsewhere(v, v', size, paths, dir, i, s, q);
    }
    StillClosed(v, paths, step);
    OwnedStill(v, v', paths, paths', own, if own in paths' then ChainAt(v, own) else []);
  }

  lemma RewrittenElsewhere(v: Volume, v': Volume, size: nat, paths: iset<Path>, dir: Path, i: nat, s: Slot, q: Path)
    requires Tree(v, size, paths) && Within(paths, dir) && Takes(v, v', size, Rewrite(dir, i, s))
    requires v'.fat == v.fat && TablesCarry(v, v', paths, Edit(dir, i, s)) && |v'.data| == |v.data|
    requires q in paths && !Rewrite(dir, i, s).Deletes(q)
    ensures IsLive(v, q) && Owner(v, q) && IsLive(v', q) && Owner(v', q) && ChainAt(v', q) == ChainAt(v, q) != []
    ensures Holds(v', ChainAt(v, q)) && (q != dir + [i] ==> SlotOf(v', q) == SlotOf(v, q))
    ensures dir + [i] in paths && q != dir + [i] ==> IsLive(v, dir + [i]) && Apart(ChainAt(v, q), ChainAt(v, dir + [i]))
  {
    hide Content, Owns, ChainFrom, WithSlot, SlotAt, SlotOf, FreeList, TableSet, TablesCarry, WellFormed, ClearFree;
    assert Owner(v, q) && (dir + [i] in paths ==> Owner(v, dir + [i]));
    if dir + [i] <= q {
      RewrittenPath(v, v', size, paths, dir, i, s, q);
    } else {
      PathsCarry(v, v', paths, Edit(dir, i, s), q);
    }
  }

  lemma RewriteKeeps(v: Volume, v': Volume, size: nat, paths: iset<Path>, dir: Path, i: nat, s: Slot)
    requires Tree(v, size, paths) && Within(paths, dir) && Takes(v, v', size, Rewrite(dir, i, s))
    ensures StepKeeps(v, v', size, paths, Rewrite(dir, i, s))
  {
    hide Content, Owns, ChainFrom, WithSlot, SlotAt, SlotOf, FreeList, TableSet, TablesCarry;
    hide ChainsOwned, Owner, OthersKept, BytesKept, ClearFree, WellFormed, Closed;
    var step, table := Rewrite(dir, i, s), WithSlot(TableOf(v, dir).value, i, s);
    var paths' := step.After(v, v', paths);
    RewriteKeepsFat(v, v', size, dir, table);
    EditKeepsBytes(v, v', size, paths, dir, table);
    RewriteCarries(v, v', size, paths, dir, i, s);
    RewritePaths(v, v', size, paths, dir, i, s);
    StillClear(v, v', size, paths, dir, table);
    if Complete(v, paths) {
      forall q | IsLive(v', q) ensures q in paths' {
        RewriteComplete(v, v', size, paths, dir, i, s, q);
      }
    }
  }

  lemma StillClear(v: Volume, v': Volume, size: nat, paths: iset<Path>, dir: Path, table: seq<Byte>)
    requires Tree(v, size, paths) && TableOf(v, dir).Some? && |v'.fat| == |v.fat|
    requires forall c :: 0 <= c < |v.fat| && v'.fat[c] == 0 ==> v.fat[c] == 0
    requires TableSet(v, v'.(fat := v.fat), size, DirectoryAt(v, dir), table)
    ensures ClearFree(v')
  {
    hide SlotOf, TableSet, ChainFrom;
    forall c | v'.HasCluster(c) && v'.fat[c] == 0 ensures Zeros(v'.Cluster(c)) {
      FreeOutside(v, v', size, paths, dir, table, c);
    }
  }

  lemma RewriteKeepsFat(v: Volume, v': Volume, size: nat, dir: Path, table: seq<Byte>)
    requires TableOf(v, dir).Some? && TableSet(v, v', size, DirectoryAt(v, dir), table)
    ensures v'.fat == v.fat && WellFormed(v', size) && v'.(fat := v.fat) == v'
  {
  }

  lemma StillClosed(v: Volume, paths: iset<Path>, step: Step)
    requires ChainsOwned(v, paths)
    ensures Closed(iset p | p in paths && !step.Deletes(p))
  {
    hide Owner, Apart, ChainAt;
  }

  /** The rewritten path itself, and what the tree has below it: nothing. */
  lemma RewrittenPath(v: Volume, v': Volume, size: nat, paths: iset<Path>, dir: Path, i: nat, s: Slot, q: Path)
    requires Tree(v, size, paths) && Within(paths, dir) && Takes(v, v', size, Rewrite(dir, i, s))
    requires TablesCarry(v, v', paths, Edit(dir, i, s)) && v'.fat == v.fat
    requires dir + [i] <= q && q in paths && Owns(s)
    ensures q == dir + [i] && IsLive(v', q) && ChainAt(v', q) == ChainAt(v, q)
  {
    hide Content, Owns, ChainFrom, WithSlot, SlotAt, TableSet, TablesCarry, WellFormed, ClearFree;
    var own := dir + [i];
    assert own[..|own| - 1] == dir;
    assert Owner(v, q);
    EditedSlot(v, v', paths, dir, i, s);
    if q != own {
      NothingBelow(v, own, q);
    }
  }

  lemma RewriteComplete(v: Volume, v': Volume, size: nat, paths: iset<Path>, dir: Path, i: nat, s: Slot, q: Path)
    requires Tree(v, size, paths) && Within(paths, dir) && Takes(v, v', size, Rewrite(dir, i, s))
    requires TablesCarry(v, v', paths, Edit(dir, i, s)) && Complete(v, paths) && IsLive(v', q)
    ensures q in paths && !Rewrite(dir, i, s).Deletes(q)
  {
    hide Content, Owns, ChainFrom, WithSlot, SlotAt, SlotOf, TablesCarry, TableSet, ChainsOwned, ClearFree, WellFormed;
    if Edit(dir, i, s).Below(q) {
      LiveInEdit(v, v', paths, dir, i, s, q);
    } else {
      LiveBefore(v, v', paths, Edit(dir, i, s), q);
    }
  }

  /** What is live at or below the rewritten path is that path, and the slot owns something. */
  lemma LiveInEdit(v: Volume, v': Volume, paths: iset<Path>, dir: Path, i: nat, s: Slot, q: Path)
    requires TablesCarry(v, v', paths, Edit(dir, i, s)) && Within(paths, dir)
    requires TableOf(v, dir).Some? && i < Slots(TableOf(v, dir).value) && SameFile(SlotAt(TableOf(v, dir).value, i), s)
    requires dir + [i] <= q && IsLive(v', q)
    ensures q == dir + [i] && Owns(s) && IsLive(v, q)
  {
    hide Owns, FirstClusterOf, WithSlot, SlotAt, TablesCarry, ChainFrom;
    EditedSlot(v, v', paths, dir, i, s);
    if q != dir + [i] {
      NoTableThere(v', dir + [i], s);
      NothingBelow(v', dir + [i], q);
    } else if Owns(s) {
      ChildSlot(v, dir, i);
    }
  }

  lemma NoTableThere(v: Volume, own: Path, s: Slot)
    requires own != [] && SlotOf(v, own) == (if Owns(s) then Some(s) else None) && (Owns(s) ==> !IsFolder(s))
    ensures TableOf(v, own) == None
  {
    hide SlotOf, Owns;
  }

  /** A free cluster is in no directory's chain, so it keeps its bytes. */
  lemma FreeOutside(v: Volume, v': Volume, size: nat, paths: iset<Path>, dir: Path, table: seq<Byte>, c: nat)
    requires Tree(v, size, paths) && TableOf(v, dir).Some? && v'.HasCluster(c) && |v'.fat| == |v.fat| && v.fat[c] == 0
    requires TableSet(v, v'.(fat := v.fat), size, DirectoryAt(v, dir), table)
    ensures v.HasCluster(c) && v'.Cluster(c) == v.Cluster(c)
  {
    hide SlotOf, Content, ChainFrom;
    DirectoryTable(v, dir);
    assert v'.(fat := v.fat).data == v'.data;
    if dir != [] {
      InUse(v.fat, ChainAt(v, dir));
    }
    assert v'.(fat := v.fat).Cluster(c) == v'.Cluster(c);
  }

  /** Linking changes only the entry of the old end and those of the clusters linked. */
  lemma {:induction false} LinkedElsewhere(fat: seq<nat>, last: nat, more: seq<nat>, d: nat)
    requires last < |fat| && (forall i :: 0 <= i < |more| ==> more[i] < |fat|)
    requires d < |fat| && d != last && d !in more
    ensures Linked(fat, last, more)[d] == fat[d]
  {
    if more != [] {
      var init := more[..|more| - 1];
      LinkedElsewhere(fat, last, init, d);
      assert forall i :: 0 <= i < |init| ==> init[i] == more[i];
      assert more[|more| - 1] in more && (init != [] ==> init[|init| - 1] in more);
    }
  }

  /** The clusters a chain grows by are in no chain. */
  lemma GrownApart(fat: seq<nat>, fat': seq<nat>, cs: seq<nat>, more: seq<nat>, ds: seq<nat>)
    requires GrownBy(fat, fat', cs, more) && IsChain(fat, ds)
    ensures Apart(ds, more)
    ensures forall c :: c in ds && c != cs[|cs| - 1] ==> fat'[c] == fat[c]
  {
    hide FreeList, Linked;
    InUse(fat, ds);
    var free := FreeList(fat);
    assert forall i :: 0 <= i < |more| ==> more[i] == free[i] && more[i] in free;
    forall c | c in ds && c != cs[|cs| - 1] ensures fat'[c] == fat[c] {
      LinkedElsewhere(fat, cs[|cs| - 1], more, c);
    }
  }

  /** A chain apart from the written one is left alone: its entries and its bytes. */
  lemma OtherChainUnwritten(v: Volume, v': Volume, size: nat, cs: seq<nat>, more: seq<nat>, at: nat, x: seq<Byte>,
                            ds: seq<nat>)
    requires Written(v, v', size, cs, more, at, x) && Stored(v, ds) && Apart(ds, cs)
    ensures Stored(v', ds) && ChainFrom(v'.fat, ds[0]) == ds
    ensures Apart(ds, cs + more)
    ensures Content(v', ds) == Content(v, ds)
  {
    hide Content, ChainFrom, FreeList, Linked;
    GrownApart(v.fat, v'.fat, cs, more, ds);
    assert cs[|cs| - 1] in cs;
    forall c | c in ds ensures c !in cs + more && v'.fat[c] == v.fat[c] {
    }
    ChainCarries(v, v', ds);
  }

  lemma WriteKeeps(v: Volume, v': Volume, size: nat, paths: iset<Path>, p: Path, at: nat, x: seq<Byte>, more: seq<nat>)
    requires Tree(v, size, paths) && p in paths && Takes(v, v', size, Write(p, at, x, more))
    ensures StepKeeps(v, v', size, paths, Write(p, at, x, more)) && Tree(v', size, paths)
    ensures IsLive(v', p) && ChainAt(v', p) == ChainAt(v, p) + more && SlotOf(v', p) == SlotOf(v, p)
    ensures TablesCarry(v, v', paths, NoEdit)
  {
    hide Content, ChainFrom, SlotOf, FreeList, Linked, Written, FolderTable, OthersKept, Owner, BytesKept;
    var cs, step := ChainAt(v, p), Write(p, at, x, more);
    assert step.After(v, v', paths) == paths;
    WrittenHoldsAll(v, v', size, cs, more, at, x);
    WritePaths(v, v', size, paths, p, at, x, more);
    hide ChainsOwned, TablesCarry, WellFormed;
    forall c | v'.HasCluster(c) && v'.fat[c] == 0 ensures Zeros(v'.Cluster(c)) {
      StillFree(v, v', size, cs, more, at, x, c);
    }
    if Complete(v, paths) {
      forall q | IsLive(v', q) ensures q in paths {
        LiveBefore(v, v', paths, NoEdit, q);
      }
    }
  }

  /** What a write leaves of another path: its chain, its bytes and its table. */
  lemma PathUnwritten(v: Volume, v': Volume, size: nat, paths: iset<Path>, p: Path, at: nat, x: seq<Byte>,
                      more: seq<nat>, q: Path)
    requires Tree(v, size, paths) && p in paths && q in paths && q != p && Takes(v, v', size, Write(p, at, x, more))
    ensures Owner(v, q) && ChainFrom(v'.fat, FirstClusterOf(SlotOf(v, q).value)) == ChainAt(v, q)
    ensures Apart(ChainAt(v, q), ChainAt(v, p) + more)
    ensures Holds(v', ChainAt(v, q)) && Content(v', ChainAt(v, q)) == Content(v, ChainAt(v, q))
    ensures FolderTable(v', SlotOf(v, q).value) == FolderTable(v, SlotOf(v, q).value)
  {
    hide Content, ChainFrom, SlotOf, FreeList, Linked, Written;
    assert Owner(v, q) && Apart(ChainAt(v, q), ChainAt(v, p));
    OtherChainUnwritten(v, v', size, ChainAt(v, p), more, at, x, ChainAt(v, q));
  }

  /** A write keeps every path of the tree, and the written one's chain goes on with the new clusters. */
  lemma WritePaths(v: Volume, v': Volume, size: nat, paths: iset<Path>, p: Path, at: nat, x: seq<Byte>, more: seq<nat>)
    requires Tree(v, size, paths) && p in paths && Takes(v, v', size, Write(p, at, x, more))
    ensures IsLive(v', p) && ChainAt(v', p) == ChainAt(v, p) + more && SlotOf(v', p) == SlotOf(v, p)
    ensures TablesCarry(v, v', paths, NoEdit) && ChainsOwned(v', paths)
    ensures OthersKept(v, v', paths, p) && BytesKept(v, v', paths, p)
    ensures Owner(v, p) && Owner(v', p)
    ensures forall q :: q in paths && q != p ==> Owner(v, q) && Owner(v', q) && ChainAt(v', q) == ChainAt(v, q)
  {
    hide Content, ChainFrom, SlotOf, FreeList, Linked, Written, FolderTable;
    var cs := ChainAt(v, p);
    WrittenHoldsAll(v, v', size, cs, more, at, x);
    assert Owner(v, p);
    forall q | q in paths && q != p
      ensures Owner(v, q) && ChainFrom(v'.fat, FirstClusterOf(SlotOf(v, q).value)) == ChainAt(v, q)
      ensures Apart(ChainAt(v, q), cs + more)
      ensures Holds(v', ChainAt(v, q)) && Content(v', ChainAt(v, q)) == Content(v, ChainAt(v, q))
      ensures FolderTable(v', SlotOf(v, q).value) == FolderTable(v, SlotOf(v, q).value)
    {
      PathUnwritten(v, v', size, paths, p, at, x, more, q);
    }
    FileHasNoTable(v, v', p);
    assert TablesCarry(v, v', paths, NoEdit);
    forall q | q in paths ensures SlotOf(v', q) == SlotOf(v, q) {
      PathsCarry(v, v', paths, NoEdit, q);
    }
    ChainFromIs(v'.fat, cs + more);
    OwnedStill(v, v', paths, paths, p, cs + more);
  }

  lemma FileHasNoTable(v: Volume, v': Volume, p: Path)
    requires IsLive(v, p) && !IsFolder(SlotOf(v, p).value)
    ensures FolderTable(v, SlotOf(v, p).value) == FolderTable(v', SlotOf(v, p).value) == None
  {
  }

  lemma WrittenHoldsAll(v: Volume, v': Volume, size: nat, cs: seq<nat>, more: seq<nat>, at: nat, x: seq<Byte>)
    requires Written(v, v', size, cs, more, at, x)
    ensures WellFormed(v', size) && Stored(v', cs + more) && (cs + more)[0] == cs[0] && v'.root == v.root
    ensures |v'.fat| == |v.fat| && |v'.data| == |v.data|
    ensures |more| <= |FreeList(v.fat)| && FreeList(v'.fat) == FreeList(v.fat)[|more|..]
  {
  }

  /** A cluster that is free after a write was free before, and its bytes are what they were. */
  lemma StillFree(v: Volume, v': Volume, size: nat, cs: seq<nat>, more: seq<nat>, at: nat, x: seq<Byte>, c: nat)
    requires Written(v, v', size, cs, more, at, x) && v'.HasCluster(c) && v'.fat[c] == 0
    ensures v.HasCluster(c) && v.fat[c] == 0 && v'.Cluster(c) == v.Cluster(c)
  {
    hide Content, Linked, FreeBelow;
    InUse(v'.fat, cs + more);
    assert c in FreeList(v'.fat);
    var i :| 0 <= i < |FreeList(v'.fat)| && FreeList(v'.fat)[i] == c;
    assert FreeList(v.fat)[|more| + i] == c;
  }

  /** Creating keeps every path of the tree and adds the new one, apart from all of them. */
  lemma CreatePaths(v: Volume, v': Volume, size: nat, paths: iset<Path>, dir: Path, i: nat, s: Slot, e: DirEntry)
    requires Tree(v, size, paths) && Within(paths, dir) && Takes(v, v', size, Create(dir, e))
    requires TablesCarry(v, v', paths, Edit(dir, i, s)) && |v'.data| == |v.data| && |v'.fat| == |v.fat|
    requires !IsLive(v, dir + [i]) && e.firstCluster < |v.fat| && v.fat[e.firstCluster] == 0
    requires Create(dir, e).Target(v) == dir + [i]
    requires forall p :: p in paths && !Edit(dir, i, s).Below(p) ==>
               && Owner(v, p) && Stored(v', ChainAt(v, p))
               && ChainFrom(v'.fat, FirstClusterOf(SlotOf(v, p).value)) == ChainAt(v, p)
    requires IsLive(v', dir + [i]) ==> ChainAt(v', dir + [i]) == [e.firstCluster] && Holds(v', [e.firstCluster])
    ensures var paths' := Create(dir, e).After(v, v', paths); var own := dir + [i];
      && own !in paths && Closed(paths') && OthersKept(v, v', paths', own) && ChainsOwned(v', paths')
      && (forall q :: q in paths ==> Owner(v, q) && Owner(v', q) && ChainAt(v', q) == ChainAt(v, q))
  {
    hide Content, Owns, ChainFrom, WithSlot, SlotAt, SlotOf, FreeList, EncodeSlot, First, TableSet, Takes, FolderTable;
    hide TablesCarry, Edit.Below, Owner, WellFormed, ClearFree, ChainsOwned, Closed, Apart, ChainAt, Stored;
    var own, paths' := dir + [i], Create(dir, e).After(v, v', paths);
    forall q | q in paths
      ensures q != own
      ensures IsLive(v, q) && Owner(v, q) && IsLive(v', q) && Owner(v', q) && SlotOf(v', q) == SlotOf(v, q)
      ensures ChainAt(v', q) == ChainAt(v, q) && Apart(ChainAt(v, q), [e.firstCluster])
    {
      CreatedElsewhere(v, v', size, paths, dir, i, s, e, q);
    }
    CreatedClosed(v, paths, dir, i);
    OwnedStill(v, v', paths, paths', own, [e.firstCluster]);
  }

  lemma CreatedElsewhere(v: Volume, v': Volume, size: nat, paths: iset<Path>, dir: Path, i: nat, s: Slot, e: DirEntry,
                         q: Path)
    requires Tree(v, size, paths) && Within(paths, dir) && q in paths
    requires TablesCarry(v, v', paths, Edit(dir, i, s)) && !IsLive(v, dir + [i])
    requires e.firstCluster < |v.fat| && v.fat[e.firstCluster] == 0
    requires !Edit(dir, i, s).Below(q) ==>
               && Owner(v, q) && Stored(v', ChainAt(v, q))
               && ChainFrom(v'.fat, FirstClusterOf(SlotOf(v, q).value)) == ChainAt(v, q)
    ensures q != dir + [i]
    ensures IsLive(v, q) && Owner(v, q) && IsLive(v', q) && Owner(v', q) && SlotOf(v', q) == SlotOf(v, q)
    ensures ChainAt(v', q) == ChainAt(v, q) && Apart(ChainAt(v, q), [e.firstCluster])
  {
    hide Content, Owns, ChainFrom, WithSlot, SlotAt, SlotOf, FolderTable, TablesCarry;
    assert Owner(v, q);
    NotBelowSpace(v, dir, i, q);
    PathsCarry(v, v', paths, Edit(dir, i, s), q);
    InUse(v.fat, ChainAt(v, q));
  }

  lemma CreateKeeps(v: Volume, v': Volume, size: nat, paths: iset<Path>, dir: Path, e: DirEntry)
    requires Tree(v, size, paths) && Within(paths, dir) && Takes(v, v', size, Create(dir, e))
    ensures StepKeeps(v, v', size, paths, Create(dir, e))
    ensures var own := Create(dir, e).Target(v);
      && own !in paths && !IsLive(v, own)
      && (OwnsEntry(e) ==> IsLive(v', own))
      && (IsLive(v', own) ==> ChainAt(v', own) == [e.firstCluster])
      && (IsLive(v', own) && IsFolder(SlotOf(v', own).value) ==>
            TableOf(v', own).Some? && Zeros(TableOf(v', own).value))
  {
    hide Content, Owns, ChainFrom, WithSlot, SlotAt, SlotOf, FreeList, EncodeSlot, First, TableSet, TablesCarry;
    hide ChainsOwned, Owner, OthersKept, BytesKept, ClearFree, Closed;
    var table := TableOf(v, dir).value;
    var i, step := First(table, Space), Create(dir, e);
    var own, paths' := dir + [i], step.After(v, v', paths);
    DirectoryTable(v, dir);
    AddedSlot(table, e);
    var s := EncodeSlot(SlotAt(table, i), e, Escape(e.name[0]));
    HeadIsData(v.fat);
    HeadIsFree(v.fat);
    TakeFirstFree(v.fat);
    CreatedShape(v, v', size, dir, e);
    EditKeepsBytes(v, v', size, paths, dir, AddEntry(table, e));
    RewriteCarries(v, v', size, paths, dir, i, s);
    NotLiveInSpace(v, dir, i);
    NewChain(v, v', size, paths, dir, i, s, e);
    EntryOwns(SlotAt(table, i), e);
    EditedSlot(v, v', paths, dir, i, s);
    CreatePaths(v, v', size, paths, dir, i, s, e);
    StillClear(v, v', size, paths, dir, AddEntry(table, e));
    if Complete(v, paths) {
      CreateComplete(v, v', paths, dir, i, s);
    }
  }

  lemma CreateComplete(v: Volume, v': Volume, paths: iset<Path>, dir: Path, i: nat, s: Slot)
    requires TablesCarry(v, v', paths, Edit(dir, i, s)) && Complete(v, paths)
    requires TableOf(v', dir + [i]).Some? ==>
               forall k :: 0 <= k < Slots(TableOf(v', dir + [i]).value) ==>
                 !Owns(SlotAt(TableOf(v', dir + [i]).value, k))
    ensures forall q :: IsLive(v', q) && q != dir + [i] ==> q in paths
  {
    hide Owns, SlotAt, SlotOf, FolderTable;
    forall q | IsLive(v', q) && q != dir + [i] ensures q in paths {
      if Edit(dir, i, s).Below(q) {
        NothingBelow(v', dir + [i], q);
      } else {
        LiveBefore(v, v', paths, Edit(dir, i, s), q);
      }
    }
  }

  lemma CreatedShape(v: Volume, v': Volume, size: nat, dir: Path, e: DirEntry)
    requires Takes(v, v', size, Create(dir, e))
    ensures v'.fat == v.fat[e.firstCluster := LAST_CLUSTER] && WellFormed(v', size)
    ensures TableSet(v, v'.(fat := v.fat), size, DirectoryAt(v, dir), AddEntry(TableOf(v, dir).value, e))
  {
    hide First, AddEntry, Content, FreeList;
    DirectoryTable(v, dir);
    HeadIsData(v.fat);
    TableKeepsFat(v, v'.(fat := v.fat), size, DirectoryAt(v, dir), AddEntry(TableOf(v, dir).value, e));
    assert v'.data == v'.(fat := v.fat).data;
  }

  lemma CreatedClosed(v: Volume, paths: iset<Path>, dir: Path, i: nat)
    requires ChainsOwned(v, paths) && Within(paths, dir)
    ensures Closed(paths)
    ensures Closed(paths + iset{dir + [i]})
    ensures forall step: Step :: step.Create? ==> (iset p | p in paths && !step.Deletes(p)) == paths
  {
    hide Owner, Apart, ChainAt;
    assert (dir + [i])[..|dir|] == dir;
  }

  lemma NotBelowSpace(v: Volume, dir: Path, i: nat, q: Path)
    requires !IsLive(v, dir + [i]) && IsLive(v, q)
    ensures !(dir + [i] <= q)
  {
    hide SlotAt, Owns, FolderTable;
    if dir + [i] <= q {
      NothingBelow(v, dir + [i], q);
    }
  }

  /** What adding an entry writes: the slot at the first space. */
  lemma AddedSlot(table: seq<Byte>, e: DirEntry)
    requires e.Valid() && First(table, Space) != -1
    ensures 0 <= First(table, Space) < Slots(table)
    ensures var i := First(table, Space); var s := EncodeSlot(SlotAt(table, i), e, Escape(e.name[0]));
      && IsSpace(SlotAt(table, i))
      && AddEntry(table, e) == WithSlot(table, i, s)
      && FirstClusterOf(s) == e.firstCluster
  {
    var i := First(table, Space);
    EncodedFields(SlotAt(table, i), e, Escape(e.name[0]));
    var s := EncodeSlot(SlotAt(table, i), e, Escape(e.name[0]));
    assert s[0x1a] == s[0x1a..0x1c][0] && s[0x1b] == s[0x1a..0x1c][1];
    WordRoundTrip(e.firstCluster);
  }

  /** Marking the first free cluster as a chain of its own. */
  lemma TakeFirstFree(fat: seq<nat>)
    requires FreeList(fat) != [] && 2 <= |fat| <= CHAIN_END && fat[0] != 0 && fat[1] != 0
    ensures var c := FreeList(fat)[0]; var fat' := fat[c := LAST_CLUSTER];
      && 2 <= c && fat[c] == 0 && FreeList(fat') == FreeList(fat)[1..]
      && IsChain(fat', [c]) && ChainFrom(fat', c) == [c]
  {
    hide ChainFrom;
    var c := FreeList(fat)[0];
    HeadIsData(fat);
    FreeIsLeast(fat);
    FreeBelowTake(fat, c, LAST_CLUSTER, |fat|);
    ChainFromIs(fat[c := LAST_CLUSTER], [c]);
  }

  lemma NotLiveInSpace(v: Volume, dir: Path, i: nat)
    requires TableOf(v, dir).Some? && i < Slots(TableOf(v, dir).value) && IsSpace(SlotAt(TableOf(v, dir).value, i))
    ensures !IsLive(v, dir + [i])
  {
    assert (dir + [i])[..|dir|] == dir;
  }

  /** The new entry: its chain, and, if it is a directory, its table of zero bytes. */
  lemma NewChain(v: Volume, v': Volume, size: nat, paths: iset<Path>, dir: Path, i: nat, s: Slot, e: DirEntry)
    requires Tree(v, size, paths) && Within(paths, dir) && Takes(v, v', size, Create(dir, e))
    requires i < Slots(TableOf(v, dir).value)
    requires TablesCarry(v, v', paths, Edit(dir, i, s)) && FirstClusterOf(s) == e.firstCluster
    requires ChainFrom(v'.fat, e.firstCluster) == [e.firstCluster] && |v'.data| == |v.data|
    ensures var own := dir + [i];
      && (IsLive(v', own) ==> ChainAt(v', own) == [e.firstCluster] && Holds(v', [e.firstCluster]))
      && (TableOf(v', own).Some? ==> Zeros(TableOf(v', own).value))
      && (IsLive(v', own) && IsFolder(SlotOf(v', own).value) ==> TableOf(v', own).Some?)
      && (TableOf(v', own).Some? ==>
            forall k :: 0 <= k < Slots(TableOf(v', own).value) ==> !Owns(SlotAt(TableOf(v', own).value, k)))
  {
    hide ChainFrom, WithSlot, FreeList, EncodeSlot, First, Content, Created, Owns, SlotAt, SlotOf, FolderTable, Tree,
         TablesCarry;
    EditedSlot(v, v', paths, dir, i, s);
    NewClusterIsZero(v, v', size, paths, dir, e);
    ZerosOwnNothing(v'.Cluster(e.firstCluster));
    OneClusterTable(v', dir + [i], e.firstCluster);
  }

  /** The edited path leads to the new slot, if that owns anything. */
  lemma EditedSlot(v: Volume, v': Volume, paths: iset<Path>, dir: Path, i: nat, s: Slot)
    requires TablesCarry(v, v', paths, Edit(dir, i, s)) && Within(paths, dir)
    requires TableOf(v, dir).Some? && i < Slots(TableOf(v, dir).value)
    ensures SlotOf(v', dir + [i]) == if Owns(s) then Some(s) else None
  {
    hide Owns, SlotAt, WithSlot, FolderTable;
    var own := dir + [i];
    assert own[..|own| - 1] == dir && !Edit(dir, i, s).Below(dir);
    PathsCarry(v, v', paths, Edit(dir, i, s), dir);
    WithSlotAll(TableOf(v, dir).value, i, s);
  }

  lemma OneClusterTable(v: Volume, own: Path, c: nat)
    requires own != [] && v.HasCluster(c) && ChainFrom(v.fat, c) == [c]
    requires IsLive(v, own) ==> FirstClusterOf(SlotOf(v, own).value) == c
    ensures IsLive(v, own) ==> ChainAt(v, own) == [c]
    ensures TableOf(v, own).Some? ==> TableOf(v, own).value == v.Cluster(c)
    ensures IsLive(v, own) && IsFolder(SlotOf(v, own).value) ==> TableOf(v, own).Some?
  {
    hide ChainFrom, Content, SlotOf;
    ContentSingle(v, c);
  }

  lemma NewClusterIsZero(v: Volume, v': Volume, size: nat, paths: iset<Path>, dir: Path, e: DirEntry)
    requires Tree(v, size, paths) && Takes(v, v', size, Create(dir, e))
    ensures v'.HasCluster(e.firstCluster) && Zeros(v'.Cluster(e.firstCluster))
  {
    hide ChainFrom, FreeList, AddEntry, First, Content, SlotOf, TableSet;
    HeadIsData(v.fat);
    HeadIsFree(v.fat);
    CreatedShape(v, v', size, dir, e);
    assert |v'.data| == |v.data| by { TableSetShape(v, v', size, dir, AddEntry(TableOf(v, dir).value, e)); }
    FreeOutside(v, v', size, paths, dir, AddEntry(TableOf(v, dir).value, e), e.firstCluster);
  }

  lemma TableSetShape(v: Volume, v': Volume, size: nat, dir: Path, table: seq<Byte>)
    requires TableOf(v, dir).Some? && TableSet(v, v'.(fat := v.fat), size, DirectoryAt(v, dir), table)
    ensures |v'.data| == |v.data|
  {
    assert v'.data == v'.(fat := v.fat).data;
  }

  lemma HeadIsFree(fat: seq<nat>)
    requires FreeList(fat) != []
    ensures FreeList(fat)[0] < |fat| && fat[FreeList(fat)[0]] == 0
  {
  }

  lemma ZerosOwnNothing(table: seq<Byte>)
    requires Zeros(table)
    ensures forall k :: 0 <= k < Slots(table) ==> !Owns(SlotAt(table, k))
  {
    forall k | 0 <= k < Slots(table) ensures !Owns(SlotAt(table, k)) {
      assert SlotAt(table, k)[0] == table[32 * k];
    }
  }

  /** Every operation keeps the tree. */
  lemma StepKeepsTree(v: Volume, v': Volume, size: nat, paths: iset<Path>, step: Step)
    requires Tree(v, size, paths) && step.On(paths) && Takes(v, v', size, step)
    ensures StepKeeps(v, v', size, paths, step)
  {
    match step
    case Create(dir, e) => CreateKeeps(v, v', size, paths, dir, e);
    case Write(path, at, bytes, more) => WriteKeeps(v, v', size, paths, path, at, bytes, more);
    case Rewrite(dir, i, s) => RewriteKeeps(v, v', size, paths, dir, i, s);
  }

  function TotalTaken(steps: seq<Step>): nat {
    if steps == [] then 0 else TotalTaken(steps[..|steps| - 1]) + steps[|steps| - 1].Taken()
  }

  ghost predicate IsRun(run: seq<Volume>, steps: seq<Step>, size: nat) {
    |run| == |steps| + 1 && forall k :: 0 <= k < |steps| ==> Takes(run[k], run[k + 1], size, steps[k])
  }

  /** The tree after `k` steps of a run. */
  ghost function PathsAt(run: seq<Volume>, steps: seq<Step>, paths: iset<Path>, k: nat): iset<Path>
    requires |run| == |steps| + 1 && k <= |steps|
  {
    if k == 0 then paths else steps[k - 1].After(run[k - 1], run[k], PathsAt(run, steps, paths, k - 1))
  }

  /** Every step is about the tree as it then is. */
  ghost predicate StaysOn(run: seq<Volume>, steps: seq<Step>, paths: iset<Path>) {
    |run| == |steps| + 1 && forall k :: 0 <= k < |steps| ==> steps[k].On(PathsAt(run, steps, paths, k))
  }

  lemma TotalTakenNext(steps: seq<Step>, k: nat)
    requires k < |steps|
    ensures TotalTaken(steps[..k + 1]) == TotalTaken(steps[..k]) + steps[k].Taken()
  {
    assert steps[..k + 1][..k] == steps[..k];
  }

  /** Over every run the tree stays: its chains end, are disjoint and hold no free cluster, free clusters stay clear,
      the free list loses exactly the clusters the run linked in, and a tree of all there is stays one. */
  lemma {:induction false} RunKeepsTree(run: seq<Volume>, steps: seq<Step>, size: nat, paths: iset<Path>, k: nat)
    requires IsRun(run, steps, size) && Tree(run[0], size, paths) && StaysOn(run, steps, paths) && k <= |steps|
    ensures Tree(run[k], size, PathsAt(run, steps, paths, k))
    ensures TotalTaken(steps[..k]) <= |FreeList(run[0].fat)|
    ensures FreeList(run[k].fat) == FreeList(run[0].fat)[TotalTaken(steps[..k])..]
    ensures Complete(run[0], paths) ==> Complete(run[k], PathsAt(run, steps, paths, k))
  {
    hide Tree, Takes, FreeList, Complete, Step.On, Step.After, Step.Taken, TotalTaken, IsRun, StaysOn;
    NothingTaken(steps);
    if k > 0 {
      RunKeepsTree(run, steps, size, paths, k - 1);
      RunStep(run, steps, size, paths, k - 1);
      AfterStep(run[k - 1], run[k], size, PathsAt(run, steps, paths, k - 1), steps[k - 1]);
      TotalTakenNext(steps, k - 1);
      DropTwice(FreeList(run[0].fat), TotalTaken(steps[..k - 1]), steps[k - 1].Taken());
    }
  }

  lemma RunStep(run: seq<Volume>, steps: seq<Step>, size: nat, paths: iset<Path>, k: nat)
    requires IsRun(run, steps, size) && StaysOn(run, steps, paths) && k < |steps|
    ensures |run| == |steps| + 1
    ensures Takes(run[k], run[k + 1], size, steps[k]) && steps[k].On(PathsAt(run, steps, paths, k))
  {
    hide Takes, Step.On, PathsAt;
  }

  lemma DropTwice(s: seq<nat>, m: nat, n: nat)
    requires m + n <= |s|
    ensures s[m..][n..] == s[m + n..]
  {
  }

  lemma NothingTaken(steps: seq<Step>)
    ensures TotalTaken(steps[..0]) == 0
  {
  }

  lemma AfterStep(v: Volume, v': Volume, size: nat, paths: iset<Path>, step: Step)
    requires Tree(v, size, paths) && step.On(paths) && Takes(v, v', size, step)
    ensures Tree(v', size, step.After(v, v', paths))
    ensures step.Taken() <= |FreeList(v.fat)| && FreeList(v'.fat) == FreeList(v.fat)[step.Taken()..]
    ensures Complete(v, paths) ==> Complete(v', step.After(v, v', paths))
  {
    hide Tree, Takes, FreeList, Complete, Step.On, Step.After, OthersKept, BytesKept, Owner;
    StepKeepsTree(v, v', size, paths, step);
  }

  lemma PathAfterStep(v: Volume, v': Volume, size: nat, paths: iset<Path>, step: Step, p: Path)
    requires Tree(v, size, paths) && step.On(paths) && Takes(v, v', size, step) && p in paths && !step.Deletes(p)
    ensures p in step.After(v, v', paths) && Owner(v, p) && Owner(v', p)
    ensures ChainAt(v, p) <= ChainAt(v', p)
    ensures step.Changes() != p ==>
              ChainAt(v', p) == ChainAt(v, p)
              && Holds(v, ChainAt(v, p)) && Holds(v', ChainAt(v, p))
              && Content(v', ChainAt(v, p)) == Content(v, ChainAt(v, p))
  {
    hide Tree, Takes, FreeList, Complete, Step.On, OthersKept, Content, ChainAt, IsLive, Step.Deletes;
    StepKeepsTree(v, v', size, paths, step);
  }

  /** Path by path: one that no step deletes keeps owning a chain, which only grows, and one whose bytes no step is
      about keeps its chain and its bytes. */
  lemma {:induction false} RunKeepsPath(run: seq<Volume>, steps: seq<Step>, size: nat, paths: iset<Path>, p: Path,
                                        k: nat)
    requires IsRun(run, steps, size) && Tree(run[0], size, paths) && StaysOn(run, steps, paths) && k <= |steps|
    requires p in paths && forall j :: 0 <= j < k ==> !steps[j].Deletes(p)
    ensures p in PathsAt(run, steps, paths, k) && Owner(run[0], p) && Owner(run[k], p)
    ensures ChainAt(run[0], p) <= ChainAt(run[k], p)
    ensures (forall j :: 0 <= j < k ==> steps[j].Changes() != p) ==>
              ChainAt(run[k], p) == ChainAt(run[0], p)
              && Content(run[k], ChainAt(run[0], p)) == Content(run[0], ChainAt(run[0], p))
  {
    hide Takes, FreeList, Complete, Step.On, Step.After, Step.Deletes, Content, ChainAt, Owner;
    if k == 0 {
      TreeOwner(run[0], size, paths, p);
    } else {
      hide Tree;
      RunKeepsPath(run, steps, size, paths, p, k - 1);
      RunKeepsTree(run, steps, size, paths, k - 1);
      assert Takes(run[k - 1], run[k], size, steps[k - 1]) && steps[k - 1].On(PathsAt(run, steps, paths, k - 1));
      PathAfterStep(run[k - 1], run[k], size, PathsAt(run, steps, paths, k - 1), steps[k - 1], p);
    }
  }

  lemma TreeOwner(v: Volume, size: nat, paths: iset<Path>, p: Path)
    requires Tree(v, size, paths) && p in paths
    ensures Owner(v, p)
  {
  }

  /** Pair by pair: two that no step deletes stay apart. */
  lemma RunKeepsPair(run: seq<Volume>, steps: seq<Step>, size: nat, paths: iset<Path>, p: Path, q: Path, k: nat)
    requires IsRun(run, steps, size) && Tree(run[0], size, paths) && StaysOn(run, steps, paths) && k <= |steps|
    requires p in paths && q in paths && p != q
    requires forall j :: 0 <= j < k ==> !steps[j].Deletes(p) && !steps[j].Deletes(q)
    ensures Owner(run[k], p) && Owner(run[k], q) && Apart(ChainAt(run[k], p), ChainAt(run[k], q))
  {
    hide Takes, FreeList, Complete, Step.On, ChainAt, WellFormed, ClearFree, Closed, Apart;
    RunKeepsPath(run, steps, size, paths, p, k);
    RunKeepsPath(run, steps, size, paths, q, k);
    RunKeepsTree(run, steps, size, paths, k);
  }

  /** What a step appends to a chain: the clusters written, if the chain ends where the written one does. */
  ghost function Appended(v: Volume, step: Step, ds: seq<nat>): seq<nat>
    requires ds != []
  {
    if step.Write? && IsLive(v, step.path) && ChainAt(v, step.path) != []
       && ds[|ds| - 1] == ChainAt(v, step.path)[|ChainAt(v, step.path)| - 1]
    then step.more else []
  }

  /** On any volume, whatever shares clusters there: every chain stays a chain. */
  lemma ChainSurvives(v: Volume, v': Volume, size: nat, step: Step, ds: seq<nat>)
    requires Takes(v, v', size, step) && IsChain(v.fat, ds)
    ensures IsChain(v'.fat, ds + Appended(v, step, ds))
  {
    hide Content, ChainFrom, SlotOf, FreeList, Linked, TableSet, First;
    match step
    case Create(dir, e) =>
      CreatedShape(v, v', size, dir, e);
      HeadIsFree(v.fat);
      InUse(v.fat, ds);
      assert ds + [] == ds;
      SameChain(v.fat, v'.fat, ds);
    case Write(path, at, bytes, more) =>
      GrownChain(v.fat, v'.fat, ChainAt(v, path), more, ds);
      assert ds + [] == ds;
    case Rewrite(dir, i, s) =>
      RewriteKeepsFat(v, v', size, dir, WithSlot(TableOf(v, dir).value, i, s));
      assert ds + [] == ds;
  }

  lemma SameChain(fat: seq<nat>, fat': seq<nat>, ds: seq<nat>)
    requires IsChain(fat, ds) && |fat'| == |fat| && forall c :: c in ds ==> fat'[c] == fat[c]
    ensures IsChain(fat', ds)
  {
    assert forall i :: 0 <= i < |ds| ==> fat'[ds[i]] == fat[ds[i]];
  }

  lemma GrownChain(fat: seq<nat>, fat': seq<nat>, cs: seq<nat>, more: seq<nat>, ds: seq<nat>)
    requires GrownBy(fat, fat', cs, more) && IsChain(fat, ds)
    ensures IsChain(fat', if ds[|ds| - 1] == cs[|cs| - 1] then ds + more else ds)
  {
    var last := cs[|cs| - 1];
    GrownApart(fat, fat', cs, more, ds);
    EndsOnce(fat, cs, ds);
    hide FreeList, Linked, IsChain;
    forall i | 0 <= i < |ds| - 1 ensures fat'[ds[i]] == ds[i + 1] {
      assert ds[i] in ds && ds[i] != last;
    }
    assert ds[|ds| - 1] in ds;
    if ds[|ds| - 1] == last {
      SameTail(fat', cs, ds, more);
    } else {
      assert fat'[ds[|ds| - 1]] == fat[ds[|ds| - 1]];
      IsChainAgain(fat', ds);
    }
  }

  /** The end of one chain is in another one only as its end. */
  lemma EndsOnce(fat: seq<nat>, cs: seq<nat>, ds: seq<nat>)
    requires IsChain(fat, cs) && IsChain(fat, ds)
    ensures cs != [] && ds != [] && |fat| <= CHAIN_END && CHAIN_END <= fat[ds[|ds| - 1]]
    ensures forall i :: 0 <= i < |ds| ==> 2 <= ds[i] < |fat|
    ensures forall i :: 0 <= i < |ds| - 1 ==> ds[i] != cs[|cs| - 1] && fat[ds[i]] == ds[i + 1]
  {
    forall i | 0 <= i < |ds| - 1 ensures ds[i] != cs[|cs| - 1] {
      assert fat[ds[i]] == ds[i + 1] && CHAIN_END <= fat[cs[|cs| - 1]];
    }
  }

  lemma IsChainAgain(fat: seq<nat>, ds: seq<nat>)
    requires ds != [] && |fat| <= CHAIN_END && (forall i :: 0 <= i < |ds| ==> 2 <= ds[i] < |fat|)
    requires (forall i :: 0 <= i < |ds| - 1 ==> fat[ds[i]] == ds[i + 1]) && CHAIN_END <= fat[ds[|ds| - 1]]
    ensures IsChain(fat, ds)
  {
  }

  lemma SameTail(fat: seq<nat>, cs: seq<nat>, ds: seq<nat>, more: seq<nat>)
    requires IsChain(fat, cs + more) && cs != [] && ds != [] && cs[|cs| - 1] == ds[|ds| - 1]
    requires forall i :: 0 <= i < |ds| ==> 2 <= ds[i] < |fat|
    requires forall i :: 0 <= i < |ds| - 1 ==> fat[ds[i]] == ds[i + 1]
    ensures IsChain(fat, ds + more)
  {
    var all, other := ds + more, cs + more;
    forall i | 0 <= i < |all| ensures 2 <= all[i] < |fat| && (i + 1 < |all| ==> fat[all[i]] == all[i + 1]) {
      if |ds| - 1 <= i {
        var j := i - |ds| + |cs|;
        assert all[i] == other[j] && (i + 1 < |all| ==> all[i + 1] == other[j + 1] == fat[other[j]]);
      }
    }
    assert all[|all| - 1] == other[|other| - 1];
  }

  /** Two chains apart stay apart, and one created is apart from all. */
  lemma ChainsStayApart(v: Volume, v': Volume, size: nat, step: Step, ds: seq<nat>, es: seq<nat>)
    requires Takes(v, v', size, step) && IsChain(v.fat, ds) && IsChain(v.fat, es) && Apart(ds, es)
    ensures Apart(ds + Appended(v, step, ds), es + Appended(v, step, es))
    ensures step.Create? ==> IsChain(v'.fat, [step.entry.firstCluster]) && step.entry.firstCluster !in ds
  {
    hide Content, ChainFrom, SlotOf, FreeList, Linked, TableSet, First;
    assert ds[|ds| - 1] in ds && es[|es| - 1] in es;
    match step
    case Create(dir, e) =>
      CreatedShape(v, v', size, dir, e);
      HeadIsFree(v.fat);
      InUse(v.fat, ds);
      TakeFirstFree(v.fat);
    case Write(path, at, bytes, more) =>
      GrownApart(v.fat, v'.fat, ChainAt(v, path), more, ds);
      GrownApart(v.fat, v'.fat, ChainAt(v, path), more, es);
    case Rewrite(dir, i, s) =>
  }

  /** So over every run from any volume: two chains apart go on as chains, and apart. */
  lemma {:induction false} RunKeepsChains(run: seq<Volume>, steps: seq<Step>, size: nat, ds: seq<nat>, es: seq<nat>,
                                          k: nat)
    returns (ds': seq<nat>, es': seq<nat>)
    requires IsRun(run, steps, size) && k <= |steps|
    requires IsChain(run[0].fat, ds) && IsChain(run[0].fat, es) && Apart(ds, es)
    ensures ds <= ds' && es <= es' && IsChain(run[k].fat, ds') && IsChain(run[k].fat, es') && Apart(ds', es')
  {
    hide Takes, IsChain, Appended, Apart;
    if k == 0 {
      ds', es' := ds, es;
    } else {
      var d, e := RunKeepsChains(run, steps, size, ds, es, k - 1);
      ChainNonempty(run[k - 1].fat, d);
      ChainNonempty(run[k - 1].fat, e);
      ChainSurvives(run[k - 1], run[k], size, steps[k - 1], d);
      ChainSurvives(run[k - 1], run[k], size, steps[k - 1], e);
      ChainsStayApart(run[k - 1], run[k], size, steps[k - 1], d, e);
      ds', es' := d + Appended(run[k - 1], steps[k - 1], d), e + Appended(run[k - 1], steps[k - 1], e);
    }
  }

  lemma ChainNonempty(fat: seq<nat>, cs: seq<nat>)
    requires IsChain(fat, cs)
    ensures cs != []
  {
  }

  /** What the tree invariant says of one path: its chain visits no cluster twice, ends at an end mark, holds
      no free cluster, and shares none with another path. */
  lemma LiveChain(v: Volume, size: nat, paths: iset<Path>, p: Path)
    requires Tree(v, size, paths) && p in paths
    ensures Owner(v, p)
    ensures var cs := ChainAt(v, p);
      && cs[0] == FirstClusterOf(SlotOf(v, p).value) && Stored(v, cs) && Distinct(cs)
      && v.fat[cs[|cs| - 1]] >= CHAIN_END && (forall c :: c in cs ==> v.fat[c] != 0)
      && (forall q :: q in paths && q != p ==> Owner(v, q) && forall c :: c in ChainAt(v, q) ==> c !in cs)
  {
    hide SlotOf, ChainFrom;
    assert Owner(v, p);
    var cs := ChainAt(v, p);
    InUse(v.fat, cs);
    ChainIsAcyclic(v.fat, cs);
    forall q | q in paths && q != p ensures Owner(v, q) && forall c :: c in ChainAt(v, q) ==> c !in cs {
      assert Owner(v, q) && Apart(ChainAt(v, q), cs);
    }
  }

  /** Bytes that a grown file was not given are zero. */
  lemma GrownTailIsZero(v: Volume, v': Volume, size: nat, p: Path, at: nat, x: seq<Byte>, more: seq<nat>)
    requires WellFormed(v, size) && ClearFree(v) && Takes(v, v', size, Write(p, at, x, more))
    ensures var cs := ChainAt(v, p);
      && Holds(v', cs + more) && Span(|cs|, size) <= |Content(v', cs + more)|
      && forall k :: Span(|cs|, size) <= k < |Content(v', cs + more)| && at + |x| <= k ==>
           Content(v', cs + more)[k] == 0
  {
    hide Span, Flatten, Content, Linked, FreeBelow;
    var cs := ChainAt(v, p);
    ContentAppend(v, cs, more);
    PiecesUniform(v, size, cs);
    FreeContentIsZero(v, size, more);
  }

  lemma {:induction false} FreeContentIsZero(v: Volume, size: nat, more: seq<nat>)
    requires WellFormed(v, size) && ClearFree(v) && Holds(v, more)
    requires forall i :: 0 <= i < |more| ==> v.fat[more[i]] == 0
    ensures Zeros(Content(v, more))
  {
    if more != [] {
      var init, last := more[..|more| - 1], more[|more| - 1];
      assert more == init + [last];
      FreeContentIsZero(v, size, init);
      ContentAppend(v, init, [last]);
      ContentSingle(v, last);
    }
  }

  /** A directory made while free clusters are clear lists as empty. */
  lemma NewDirectoryIsEmpty(v: Volume, v': Volume, size: nat, paths: iset<Path>, dir: Path, e: DirEntry)
    requires Tree(v, size, paths) && Within(paths, dir) && Takes(v, v', size, Create(dir, e))
    requires var own := Create(dir, e).Target(v); IsLive(v', own) && IsFolder(SlotOf(v', own).value)
    ensures var own := Create(dir, e).Target(v); TableOf(v', own).Some? && List(TableOf(v', own).value) == []
  {
    CreateKeeps(v, v', size, paths, dir, e);
    ZeroTableIsEmpty(TableOf(v', Create(dir, e).Target(v)).value);
  }

  /** Creating a file in a directory, as `CreateNewFile` does it: the entry is placed, and the first free cluster,
      which it names, is marked. */
  ghost predicate CreatesIn(v: Volume, placed: Volume, v': Volume, size: nat, n: nat, dir: Path, e: DirEntry) {
    && TableOf(v, dir).Some? && Placed(v, placed, size, n, DirectoryAt(v, dir), e, 0)
    && FreeList(v.fat) != [] && e.firstCluster == FreeList(v.fat)[0] && v.HasCluster(e.firstCluster)
    && e.firstCluster < |placed.fat| && v' == placed.WithEntry(e.firstCluster, LAST_CLUSTER)
  }

  /** An entry that stands for a file or directory of its own wherever it is put. */
  predicate OwnsEntry(e: DirEntry)
    requires e.Valid()
  {
    e.name[0] != NEVER_USED && e.name[0] != DOT && e.attributes / 8 % 2 == 0
  }

  lemma EntryOwns(was: Slot, e: DirEntry)
    requires e.Valid()
    ensures var s := EncodeSlot(was, e, Escape(e.name[0]));
      (Owns(s) <==> OwnsEntry(e)) && FirstClusterOf(s) == e.firstCluster
  {
    EncodedFields(was, e, Escape(e.name[0]));
    var s := EncodeSlot(was, e, Escape(e.name[0]));
    assert s[0x1a] == s[0x1a..0x1c][0] && s[0x1b] == s[0x1a..0x1c][1];
    WordRoundTrip(e.firstCluster);
  }

  /** Where the new entry is: in the first space, or in the first slot of the cluster the directory was extended by. */
  ghost function NewPath(v: Volume, dir: Path): Path
    requires TableOf(v, dir).Some?
  {
    var table := TableOf(v, dir).value;
    dir + [if First(table, Space) != -1 then First(table, Space) else Slots(table)]
  }

  /** In a directory without a space the free cluster is taken twice: the directory goes on in it, and the new file
      starts in it. */
  lemma CreateInFullDirectory(v: Volume, placed: Volume, v': Volume, size: nat, n: nat, paths: iset<Path>, dir: Path,
                              e: DirEntry)
    requires Tree(v, size, paths) && dir in paths && CreatesIn(v, placed, v', size, n, dir, e)
    requires size == 32 * (size / 32) && Near(ChainAt(v, dir)) == ChainAt(v, dir)
    requires First(TableOf(v, dir).value, Space) == -1 && OwnsEntry(e)
    ensures IsLive(v', dir) && ChainAt(v', dir) == ChainAt(v, dir) + [e.firstCluster]
    ensures IsLive(v', NewPath(v, dir)) && ChainAt(v', NewPath(v, dir)) == [e.firstCluster]
  {
    hide SlotOf, Content, ChainFrom, First, FreeList, AddEntry, EncodeSlot, SlotAt, Near;
    var cs, c := ChainAt(v, dir), e.firstCluster;
    DirectoryTable(v, dir);
    TreeOwner(v, size, paths, dir);
    ExtendedShape(v, placed, v', size, n, cs, e);
    AncestorsCarry(v, v', size, paths, dir, c);
    LinkFirstFree(v.fat, cs);
    ExtendedTable(v, v', size, cs, c, FirstSlot(v.Cluster(cs[|cs| - 1]), e));
    FullTablePath(v, v', size, dir, cs, c, e);
  }

  lemma ExtendedShape(v: Volume, placed: Volume, v': Volume, size: nat, n: nat, cs: seq<nat>, e: DirEntry)
    requires WellFormed(v, size) && Stored(v, cs) && Near(cs) == cs && Placed(v, placed, size, n, Chained(cs), e, 0)
    requires First(Content(v, cs), Space) == -1 && FreeList(v.fat) != [] && e.firstCluster == FreeList(v.fat)[0]
    requires v.HasCluster(e.firstCluster) && e.firstCluster < |placed.fat|
    requires v' == placed.WithEntry(e.firstCluster, LAST_CLUSTER)
    ensures var last, c := cs[|cs| - 1], e.firstCluster;
      && v.HasCluster(last) && v'.fat == Link(v.fat, last, c)
      && v'.root == v.root && |v'.data| == |v.data| && 0 < Slots(v.Cluster(last))
      && (forall d :: v.HasCluster(d) && d != c ==> v'.Cluster(d) == v.Cluster(d))
      && v'.Cluster(c) == WithSlot(v.Cluster(last), 0, FirstSlot(v.Cluster(last), e))
  {
    hide Content, First, FreeList, EncodeSlot, SlotAt, Near, IsChain;
    Extends(v, placed, size, n, cs, e);
    assert |v'.data| == |placed.data|;
    forall d | v.HasCluster(d) ensures v'.Cluster(d) == placed.Cluster(d) {
    }
  }

  lemma Extends(v: Volume, placed: Volume, size: nat, n: nat, cs: seq<nat>, e: DirEntry)
    requires WellFormed(v, size) && Stored(v, cs) && Near(cs) == cs && Placed(v, placed, size, n, Chained(cs), e, 0)
    requires First(Content(v, cs), Space) == -1 && FreeList(v.fat) != []
    ensures Extended(v, placed, size, cs[|cs| - 1], FreeList(v.fat)[0], e)
  {
    hide Content, First, FreeList, AddEntry, Extended, TableChanged;
  }

  /** The way to a directory is as it was when only its own chain's entries and free clusters changed. */
  lemma AncestorsCarry(v: Volume, v': Volume, size: nat, paths: iset<Path>, dir: Path, c: nat)
    requires Tree(v, size, paths) && dir in paths && IsLive(v, dir) && ChainAt(v, dir) != []
    requires c < |v.fat| && v.fat[c] == 0 && v'.fat == Link(v.fat, ChainAt(v, dir)[|ChainAt(v, dir)| - 1], c)
    requires v'.root == v.root && |v'.data| == |v.data|
    requires forall d :: v.HasCluster(d) && d != c ==> v'.Cluster(d) == v.Cluster(d)
    ensures SlotOf(v', dir) == SlotOf(v, dir)
  {
    hide SlotOf, Content, ChainFrom, FolderTable, Owner, WellFormed, ClearFree;
    var before := iset p | p in paths && |p| < |dir|;
    assert Closed(before);
    forall p | p in before
      ensures IsLive(v, p) && FolderTable(v', SlotOf(v, p).value) == FolderTable(v, SlotOf(v, p).value)
    {
      AncestorCarries(v, v', size, paths, dir, c, p);
    }
    assert TablesCarry(v, v', before, NoEdit);
    PathsCarry(v, v', before, NoEdit, dir);
  }

  lemma AncestorCarries(v: Volume, v': Volume, size: nat, paths: iset<Path>, dir: Path, c: nat, p: Path)
    requires Tree(v, size, paths) && dir in paths && IsLive(v, dir) && ChainAt(v, dir) != []
    requires c < |v.fat| && v.fat[c] == 0 && v'.fat == Link(v.fat, ChainAt(v, dir)[|ChainAt(v, dir)| - 1], c)
    requires |v'.data| == |v.data| && forall d :: v.HasCluster(d) && d != c ==> v'.Cluster(d) == v.Cluster(d)
    requires p in paths && p != dir
    ensures IsLive(v, p) && FolderTable(v', SlotOf(v, p).value) == FolderTable(v, SlotOf(v, p).value)
  {
    hide SlotOf, Content, ChainFrom, ClearFree;
    TreeOwner(v, size, paths, p);
    var cs, ds := ChainAt(v, dir), ChainAt(v, p);
    assert Apart(ds, cs) && cs[|cs| - 1] in cs;
    InUse(v.fat, ds);
    ChainCarries(v, v', ds);
  }

  lemma ExtendedTable(v: Volume, v': Volume, size: nat, cs: seq<nat>, c: nat, s: Slot)
    requires WellFormed(v, size) && Stored(v, cs) && v.HasCluster(c) && c !in cs && |v'.fat| == |v.fat|
    requires |v'.data| == |v.data| && (forall d :: v.HasCluster(d) && d != c ==> v'.Cluster(d) == v.Cluster(d))
    requires size == 32 * (size / 32)
    requires var last := cs[|cs| - 1]; 0 < Slots(v.Cluster(last)) && v'.Cluster(c) == WithSlot(v.Cluster(last), 0, s)
    ensures Holds(v', cs + [c])
    ensures var table, table' := Content(v, cs), Content(v', cs + [c]);
      && table' == table + v'.Cluster(c)
      && |table| == 32 * Slots(table) && Slots(table) < Slots(table') && SlotAt(table', Slots(table)) == s
  {
    hide Content, SlotAt;
    var last := cs[|cs| - 1];
    assert Holds(v', cs + [c]);
    assert Holds(v', cs);
    ContentAppend(v', cs, [c]);
    ContentSingle(v', c);
    ContentSame(v, v', cs);
    PiecesUniform(v, size, cs);
    SpanScaled(|cs|, size, size / 32);
    WithSlotAll(v.Cluster(last), 0, s);
    SlotBehind(Content(v, cs), v'.Cluster(c));
  }

  lemma SlotBehind(table: seq<Byte>, more: seq<Byte>)
    requires |table| == 32 * Slots(table) && 0 < Slots(more)
    ensures Slots(table) < Slots(table + more) && SlotAt(table + more, Slots(table)) == SlotAt(more, 0)
  {
    var i := Slots(table);
    assert (table + more)[32 * i..32 * i + 32] == more[0..32];
  }

  lemma FullTablePath(v: Volume, v': Volume, size: nat, dir: Path, cs: seq<nat>, c: nat, e: DirEntry)
    requires IsLive(v, dir) && SlotOf(v', dir) == SlotOf(v, dir) && cs == ChainAt(v, dir) != []
    requires Holds(v, cs) && TableOf(v, dir) == Some(Content(v, cs)) && IsFolder(SlotOf(v, dir).value)
    requires IsChain(v'.fat, cs + [c]) && IsChain(v'.fat, [c]) && Holds(v', cs + [c])
    requires e.Valid() && OwnsEntry(e) && e.firstCluster == c && First(Content(v, cs), Space) == -1
    requires v.HasCluster(cs[|cs| - 1]) && 0 < Slots(v.Cluster(cs[|cs| - 1]))
    requires var table, table' := Content(v, cs), Content(v', cs + [c]);
      Slots(table) < Slots(table') && SlotAt(table', Slots(table)) == FirstSlot(v.Cluster(cs[|cs| - 1]), e)
    ensures ChainAt(v', dir) == cs + [c]
    ensures IsLive(v', NewPath(v, dir)) && ChainAt(v', NewPath(v, dir)) == [c]
  {
    hide SlotOf, Content, ChainFrom, First, EncodeSlot, SlotAt, IsChain;
    ChainFromIs(v'.fat, cs + [c]);
    ChainFromIs(v'.fat, [c]);
    EntryOwns(SlotAt(v.Cluster(cs[|cs| - 1]), 0), e);
    var i := Slots(Content(v, cs));
    LiveTable(v', dir);
    ChildSlot(v', dir, i);
  }

  lemma ChildSlot(v: Volume, dir: Path, i: nat)
    requires TableOf(v, dir).Some? && i < Slots(TableOf(v, dir).value) && Owns(SlotAt(TableOf(v, dir).value, i))
    ensures SlotOf(v, dir + [i]) == Some(SlotAt(TableOf(v, dir).value, i))
  {
    hide Owns, SlotAt;
    assert (dir + [i])[..|dir|] == dir;
  }

  /** So creating a file keeps a tree, with the new file in it, exactly when there was a space for its entry. */
  lemma CreateKeepsIffSpace(v: Volume, placed: Volume, v': Volume, size: nat, n: nat, paths: iset<Path>, dir: Path,
                            e: DirEntry)
    requires Tree(v, size, paths) && dir in paths && CreatesIn(v, placed, v', size, n, dir, e)
    requires size == 32 * (size / 32) && Near(ChainAt(v, dir)) == ChainAt(v, dir) && OwnsEntry(e)
    ensures IsLive(v', NewPath(v, dir)) && NewPath(v, dir) !in paths
    ensures Tree(v', size, paths + iset{NewPath(v, dir)}) <==> First(TableOf(v, dir).value, Space) != -1
  {
    hide SlotOf, Content, ChainFrom, First, FreeList, AddEntry, EncodeSlot, SlotAt, Near, Owner, WellFormed, ClearFree;
    DirectoryTable(v, dir);
    var own, paths' := NewPath(v, dir), paths + iset{NewPath(v, dir)};
    NewPathIsNew(v, size, paths, dir);
    if First(TableOf(v, dir).value, Space) != -1 {
      SpaceIsCreate(v, placed, v', size, n, dir, e);
      hide Takes, Tree;
      CreateKeeps(v, v', size, paths, dir, e);
    } else {
      CreateInFullDirectory(v, placed, v', size, n, paths, dir, e);
      Sharing(v', size, paths', dir, own, e.firstCluster);
    }
  }

  lemma Sharing(v: Volume, size: nat, paths: iset<Path>, p: Path, q: Path, c: nat)
    requires p in paths && q in paths && p != q && IsLive(v, p)
    requires IsLive(v, q) && c in ChainAt(v, p) && c in ChainAt(v, q)
    ensures !Tree(v, size, paths)
  {
    hide SlotOf, ChainFrom, Owner;
  }

  lemma NewPathIsNew(v: Volume, size: nat, paths: iset<Path>, dir: Path)
    requires Tree(v, size, paths) && TableOf(v, dir).Some?
    ensures NewPath(v, dir) !in paths
  {
    var table := TableOf(v, dir).value;
    SpaceFound(table);
    hide Owns, SlotAt, First, ChainFrom, FolderTable, WellFormed, ClearFree;
    var own := NewPath(v, dir);
    if First(table, Space) != -1 {
      NotLiveInSpace(v, dir, First(table, Space));
    } else {
      NotLiveBehind(v, dir, Slots(table));
    }
    assert own in paths ==> Owner(v, own);
  }

  lemma SpaceFound(table: seq<Byte>)
    ensures First(table, Space) != -1 ==>
              0 <= First(table, Space) < Slots(table) && IsSpace(SlotAt(table, First(table, Space)))
  {
  }

  lemma NotLiveBehind(v: Volume, dir: Path, i: nat)
    requires TableOf(v, dir).Some? && Slots(TableOf(v, dir).value) <= i
    ensures !IsLive(v, dir + [i])
  {
    assert (dir + [i])[..|dir|] == dir;
  }

  lemma SpaceIsCreate(v: Volume, placed: Volume, v': Volume, size: nat, n: nat, dir: Path, e: DirEntry)
    requires WellFormed(v, size) && dir != [] && CreatesIn(v, placed, v', size, n, dir, e)
    requires IsLive(v, dir) && Near(ChainAt(v, dir)) == ChainAt(v, dir) && First(TableOf(v, dir).value, Space) != -1
    ensures Takes(v, v', size, Create(dir, e))
  {
    hide SlotOf, Content, ChainFrom, First, AddEntry, EncodeSlot, Near;
    DirectoryTable(v, dir);
    PlacedMarked(v, placed, size, n, DirectoryAt(v, dir), e);
  }

  /** What deleting does to a directory, at any depth, is a step of a run. */
  lemma UnlinkIsStep(v: Volume, v': Volume, size: nat, dir: Path, i: nat, e: DirEntry)
    requires TableOf(v, dir).Some? && i < Slots(TableOf(v, dir).value) && e.Valid()
    requires TableSet(v, v', size, DirectoryAt(v, dir),
                      UpdateEntry(TableOf(v, dir).value, i, e.(name := e.name[0 := DELETED])))
    ensures Takes(v, v', size,
                  Rewrite(dir, i,
                          EncodeSlot(SlotAt(TableOf(v, dir).value, i), e.(name := e.name[0 := DELETED]), DELETED)))
  {
    hide TableSet, SlotOf, TableOf;
    var s := EncodeSlot(SlotAt(TableOf(v, dir).value, i), e.(name := e.name[0 := DELETED]), DELETED);
    assert IsSpace(s);
  }

  /** Rewriting a file's entry with another size is a rewrite. */
  lemma ResizingIsRewrite(table: seq<Byte>, i: nat, size: nat)
    requires i < Slots(table) && size < 0x1_0000_0000 && Owns(SlotAt(table, i)) && !IsFolder(SlotAt(table, i))
    ensures var e := DecodeSlot(SlotAt(table, i)).(size := size); var s := EncodeSlot(SlotAt(table, i), e, e.name[0]);
      && UpdateEntry(table, i, e) == WithSlot(table, i, s)
      && SameFile(SlotAt(table, i), s)
  {
    ResizedOwner(SlotAt(table, i), size);
  }

  lemma ResizedOwner(was: Slot, size: nat)
    requires size < 0x1_0000_0000 && Owns(was) && !IsFolder(was)
    ensures var e := DecodeSlot(was).(size := size); SameFile(was, EncodeSlot(was, e, e.name[0]))
  {
    var e := DecodeSlot(was).(size := size);
    assert e.firstCluster == FirstClusterOf(was) && e.attributes == was[0x0b];
    hide DecodeSlot, Word;
    EncodedFields(was, e, e.name[0]);
    var s := EncodeSlot(was, e, e.name[0]);
    hide EncodeSlot;
    assert s[0x1a] == s[0x1a..0x1c][0] && s[0x1b] == s[0x1a..0x1c][1];
    WordRoundTrip(e.firstCluster);
  }

  /** A volume whose root directory and clusters are zero holds nothing, so the empty tree is all there is. */
  lemma ClearVolumeIsTree(v: Volume, size: nat)
    requires WellFormed(v, size) && Zeros(v.root) && forall c :: v.HasCluster(c) ==> Zeros(v.Cluster(c))
    ensures Tree(v, size, iset{}) && Complete(v, iset{})
  {
    ZerosOwnNothing(v.root);
    forall p ensures !IsLive(v, p) {
      if p != [] {
        NothingBelow(v, [], p);
      }
    }
  }

  /** The volume the repository comes with has more entries than chains: two name the cluster 2, and others name
      clusters that the FAT has no entry for. A file and a directory of its root directory make a tree: slot 0 and
      slot 2, with the clusters 2 and 3 to themselves as far as the tree goes. */
  lemma ShippedVolumeHasTree(v: Volume, size: nat)
    requires WellFormed(v, size) && v.HasCluster(2) && v.HasCluster(3)
    requires v.fat[2] == v.fat[3] == LAST_CLUSTER && forall c :: 4 <= c < |v.fat| ==> v.fat[c] == 0
    requires forall c :: v.HasCluster(c) && 4 <= c ==> Zeros(v.Cluster(c))
    requires 3 <= Slots(v.root) && Owns(SlotAt(v.root, 0)) && Owns(SlotAt(v.root, 2))
    requires FirstClusterOf(SlotAt(v.root, 0)) == 2 && FirstClusterOf(SlotAt(v.root, 2)) == 3
    ensures Tree(v, size, iset{[0], [2]})
    ensures ChainAt(v, [0]) == [2] && ChainAt(v, [2]) == [3]
  {
    hide ChainFrom, FolderTable, Owns, SlotAt;
    ChainFromIs(v.fat, [2]);
    ChainFromIs(v.fat, [3]);
    RootSlot(v, 0);
    RootSlot(v, 2);
    var paths := iset{[0], [2]};
    assert Closed(paths);
    assert ClearFree(v);
    hide SlotOf;
    assert Owner(v, [0]) && Owner(v, [2]);
    assert Apart([2], [3]) && Apart([3], [2]);
  }

  /** Of entries that name the same cluster, a tree has one at most. */
  lemma NoTwoShare(v: Volume, size: nat, paths: iset<Path>, p: Path, q: Path)
    requires Tree(v, size, paths) && p in paths && q in paths && p != q
    ensures Owner(v, p) && Owner(v, q)
    ensures FirstClusterOf(SlotOf(v, p).value) != FirstClusterOf(SlotOf(v, q).value)
  {
    TreeOwner(v, size, paths, p);
    TreeOwner(v, size, paths, q);
    assert Apart(ChainAt(v, p), ChainAt(v, q)) && ChainAt(v, p)[0] in ChainAt(v, p);
  }

  lemma RootSlot(v: Volume, i: nat)
    requires i < Slots(v.root) && Owns(SlotAt(v.root, i))
    ensures SlotOf(v, [i]) == Some(SlotAt(v.root, i))
  {
    hide SlotAt, Owns;
    assert [i][..0] == [];
  }
}
