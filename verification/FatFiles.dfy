/** Reading and writing files through their cluster chains. */
module FatFiles {
  import opened Bytes
  import opened Blocks
  import opened FatLayout
  import opened BlockDevice
  import opened FatChains
  import opened FatContent
  import opened FatTable

  /** A file system whose volume has its two reserved FAT entries in use, and a chain of existing clusters in it. */
  ghost predicate HasChain(fs: FileSystem, cs: seq<nat>)
    reads fs.disk
  {
    && fs.Valid()
    && WellFormed(fs.Vol(), fs.g.BytesPerCluster())
    && Stored(fs.Vol(), cs)
  }

  /** Any valid volume is well formed once its reserved entries are in use. */
  lemma VolumeWellFormed(fs: FileSystem)
    requires fs.Valid()
    ensures 2 <= |fs.Vol().fat| == fs.g.FatEntries()
    ensures forall c :: fs.Vol().HasCluster(c) <==> 2 <= c < fs.g.ClusterEnd()
    ensures WellFormed(fs.Vol(), fs.g.BytesPerCluster()) <==> fs.Vol().fat[0] != 0 && fs.Vol().fat[1] != 0
  {
    hide VolumeOf, Span, BootSector.Valid;
    Basics(fs.g);
    VolumeShape(fs.g, fs.disk.blocks);
    ClusterBytesPositive(fs.g);
    var v := fs.Vol();
    assert forall i :: 0 <= i < |v.data| ==> v.HasCluster(i + 2) && v.data[i] == v.Cluster(i + 2);
  }

  lemma ClusterBytesPositive(g: Geometry)
    ensures 0 < g.BytesPerCluster() <= 0x1_0000
  {
    SpanInside(0, g.sectorsPerCluster, g.bytesPerSector);
  }

  predicate InChain(c: nat) {
    0x0001 < c < 0xfff0
  }

  /** The walk both routines start with: it stops at the cluster at position `index` of the chain, or, exactly when the
      chain has no such position, at the end mark behind the chain. From 0 or 1 it does not go anywhere. */
  method SeekCluster(fs: FileSystem, first: nat, index: nat, ghost cs: seq<nat>) returns (c: nat, reached: nat)
    requires fs.Valid() && (2 <= first ==> HasChain(fs, cs) && first == cs[0])
    ensures first < 2 ==> c == first && reached == 0
    ensures 2 <= first ==>
      && reached == Min(index, |cs|) && (c >= CHAIN_END <==> |cs| <= index)
      && c == if index < |cs| then cs[index] else fs.Vol().fat[cs[|cs| - 1]]
    ensures fs.g.ClusterEnd() <= CHAIN_END
  {
    hide VolumeOf, Span, Whole, WellFormed, BootSector.Valid;
    VolumeWellFormed(fs);
    Basics(fs.g);
    LayoutInOrder(fs.g);
    c, reached := first, 0;
    while InChain(c) && reached < index
      invariant first < 2 ==> c == first && reached == 0
      invariant 2 <= first ==>
        && 0 <= reached <= Min(index, |cs|)
        && if reached < |cs| then c == cs[reached] else c == fs.Vol().fat[cs[|cs| - 1]] >= CHAIN_END
    {
      NextInChain(fs.Vol().fat, cs, reached);
      c := fs.GetSuccessorCluster(c);
      reached := reached + 1;
    }
  }

  /** Loads cluster `c`, copies `count` bytes of `buf` over it from index `at` on, and writes it back. For a cluster
      that does not exist this changes nothing that the volume holds; for 0 and 1 it overwrites the root directory. */
  method WritePiece(fs: FileSystem, c: nat, at: nat, buf: seq<Byte>, from: nat, count: nat, data: array<Byte>)
    requires fs.Valid() && data.Length == fs.g.BytesPerCluster()
    requires at + count <= data.Length && from + count <= |buf|
    modifies fs.disk, data
    ensures fs.Valid()
    ensures LeadsToRoot(fs.g, c) ==>
              var v, o := old(fs.Vol()), RootIndex(fs.g, c) + at;
              && 0 <= o && o + count <= |v.root|
              && fs.Vol() == v.(root := Splice(v.root, o, buf[from..from + count]))
    ensures 2 <= c < fs.g.ClusterEnd() ==>
              && old(fs.Vol()).HasCluster(c) && |old(fs.Vol()).Cluster(c)| == fs.g.BytesPerCluster()
              && fs.Vol() == old(fs.Vol()).WithCluster(c, Splice(old(fs.Vol()).Cluster(c), at, buf[from..from + count]))
    ensures fs.g.ClusterEnd() <= c ==> fs.Vol() == old(fs.Vol()).(rest := fs.Vol().rest)
  {
    hide VolumeOf, Span, BootSector.Valid, BootSector.ClusterEnd;
    fs.LoadCluster(c, data);
    ghost var was := data[..];
    CopyIn(data, at, buf, from, count);
    fs.WriteCluster(c, data);
    if LeadsToRoot(fs.g, c) {
      SpliceInPart(old(fs.Vol()).root, RootIndex(fs.g, c), was, at, buf[from..from + count]);
    }
  }

  lemma SpliceInPart(s: seq<Byte>, from: nat, part: seq<Byte>, at: nat, x: seq<Byte>)
    requires from + |part| <= |s| && s[from..from + |part|] == part && at + |x| <= |part|
    ensures Splice(s, from, Splice(part, at, x)) == Splice(s, from + at, x)
  {
    assert forall k :: 0 <= k < |part| ==> part[k] == s[from + k];
  }

  /** Where the data starts: cluster index and offset in that cluster. */
  lemma StartPosition(g: Geometry, offset: nat)
    requires offset < Span(0x1_0000, g.BytesPerCluster())
    ensures var size := g.BytesPerCluster(); var i := Whole(offset, size);
      && 0 < size
      && i < 0x1_0000 && Span(i, size) <= offset
      && 0 <= offset - Span(i, size) < size <= 0x1_0000
      && Span(i + 1, size) == Span(i, size) + size
  {
    ClusterBytesPositive(g);
    WholeInside(offset, 0x1_0000, g.BytesPerCluster());
    SpanStep(Whole(offset, g.BytesPerCluster()), g.BytesPerCluster());
  }

  lemma StartInChain(fs: FileSystem, offset: nat, cs: seq<nat>)
    requires HasChain(fs, cs) && offset < Span(0x1_0000, fs.g.BytesPerCluster())
    ensures var size := fs.g.BytesPerCluster();
      && 0 < size && |cs| <= CHAIN_END && (Whole(offset, size) < |cs| <==> offset < Span(|cs|, size))
  {
    hide VolumeOf;
    var size := fs.g.BytesPerCluster();
    StartPosition(fs.g, offset);
    ChainLength(fs.Vol().fat, cs);
    if offset < Span(|cs|, size) {
      WholeInside(offset, |cs|, size);
    } else if Whole(offset, size) < |cs| {
      SpanOrder(Whole(offset, size) + 1, |cs|, size);
    }
  }

  /** How far a read or write may go: from inside the chain without limit; from behind it within one cluster, as there
      the walk would go on through whatever the FAT sector read for the end mark holds. */
  ghost predicate InReach(size: nat, len: nat, at: nat, n: nat) {
    at < Span(len, size) || (0 < size && at < Span(0x1_0000, size) && at + n <= Span(Whole(at, size) + 1, size))
  }

  lemma ReachOffset(fs: FileSystem, cs: seq<nat>, at: nat, n: nat)
    requires (cs == [] || HasChain(fs, cs))
    requires (InReach(fs.g.BytesPerCluster(), |cs|, at, n) || GoesAstray(fs, cs, at, n))
    ensures at < Span(0x1_0000, fs.g.BytesPerCluster())
  {
    if cs != [] {
      ChainLength(fs.Vol().fat, cs);
    }
    SpanOrder(|cs|, 0x1_0000, fs.g.BytesPerCluster());
  }

  /** A longer write from behind the chain that needs new clusters: the entry of the end mark is looked for in a
      cluster, and what is found there is no cluster number; the first free cluster, if there is one, exists. */
  ghost predicate GoesAstray(fs: FileSystem, cs: seq<nat>, at: nat, n: nat)
    reads fs.disk
  {
    && HasChain(fs, cs) && 0 < fs.g.BytesPerCluster()
    && var v, size := fs.Vol(), fs.g.BytesPerCluster();
    var mark := v.fat[cs[|cs| - 1]];
    && Span(|cs|, size) <= at < Span(0x1_0000, size) && Span(Whole(at, size) + 1, size) < at + n
    && Strays(fs.g, mark) && !InChain(fs.StrayWord(mark))
    && (FreeList(v.fat) != [] ==> Room(v) != [])
  }

  /** What becomes of the `n` bytes of such a write but the first `done`: they go to a chain of free clusters of their
      own, `more`, and the number of its first cluster overwrites two bytes of the cluster that the end mark leads to.
      */
  ghost predicate Lost(g: Geometry, v: Volume, v': Volume, mark: nat, buf: seq<Byte>, n: nat, done: nat, written: nat,
                       more: seq<nat>)
  {
    if FreeList(v.fat) == [] then v' == v && written == done && more == []
    else
      && more != [] && more[0] == FreeList(v.fat)[0] < |v.fat| && done <= written <= n <= |buf|
      && Strays(g, mark) && v.HasCluster(StrayCluster(g, mark))
      && |v.Cluster(StrayCluster(g, mark))| == g.BytesPerCluster()
      && var w := StrayWritten(g, v, mark, more[0]).WithEntry(more[0], LAST_CLUSTER); var size := g.BytesPerCluster();
      && WellFormed(w, size)
      && GrownBy(w.fat, v'.fat, [more[0]], more[1..])
      && Outcome(size, 1, |FreeList(w.fat)|, 0, n - done, written - done, |more| - 1)
      && if Fits(size, 1, |Room(w)|, |FreeList(w.fat)|, 0, n - done)
         then Written(w, v', size, [more[0]], more[1..], 0, buf[done..written])
         else Stranded(w, v', size, [more[0]], more[1..], 0, buf[done..written])
  }

  /** The first `written` of `n` bytes of `buf` are in the file, and the rest starts with cluster `index`. */
  ghost predicate InProgress(v: Volume, v1: Volume, size: nat, cs: seq<nat>, more: seq<nat>, at: nat,
                             buf: seq<Byte>, n: nat, written: nat, index: nat)
  {
    && written <= n <= |buf| && index <= |cs + more|
    && Written(v, v1, size, cs, more, at, buf[..written])
    && (written < n ==> at + written == Span(index, size))
  }

  /** One round of the overwriting loops. */
  lemma NextPiece(v: Volume, v1: Volume, size: nat, cs: seq<nat>, more: seq<nat>, at: nat,
                  buf: seq<Byte>, n: nat, written: nat, index: nat, count: nat)
    requires InProgress(v, v1, size, cs, more, at, buf, n, written, index)
    requires written < n && index < |cs + more| && count == Min(size, n - written)
    ensures var c := (cs + more)[index]; var piece := buf[written..written + count];
      && v1.HasCluster(c) && |v1.Cluster(c)| == size
      && InProgress(v, v1.WithCluster(c, Splice(v1.Cluster(c), 0, piece)), size, cs, more, at, buf, n,
                    written + count, index + 1)
  {
    hide Span, Written;
    WrittenHolds(v, v1, size, cs, more, at, buf[..written]);
    SpanStep(index, size);
    assert buf[..written + count] == buf[..written] + buf[written..written + count];
    WrittenFurther(v, v1, size, cs, more, at, buf[..written], index, 0, buf[written..written + count]);
  }

  /** The first piece, which may start and end inside a cluster. */
  lemma FirstPiece(v: Volume, size: nat, cs: seq<nat>, at: nat, buf: seq<Byte>, n: nat, index: nat, o: nat, count: nat)
    requires WellFormed(v, size) && Stored(v, cs)
    requires index < |cs| && o < size && at == Span(index, size) + o && n <= |buf| && count == Min(size - o, n)
    ensures var c := cs[index];
      && v.HasCluster(c) && |v.Cluster(c)| == size
      && InProgress(v, v.WithCluster(c, Splice(v.Cluster(c), o, buf[0..count])),
                    size, cs, [], at, buf, n, count, index + 1)
  {
    SpanInside(index, |cs|, size);
    hide Span, Written;
    assert cs + [] == cs;
    WrittenNothing(v, size, cs, at);
    assert buf[..count] == [] + buf[0..count];
    WrittenFurther(v, v, size, cs, [], at, [], index, o, buf[0..count]);
  }

  lemma WrittenHolds(v: Volume, v1: Volume, size: nat, cs: seq<nat>, more: seq<nat>, at: nat, x: seq<Byte>)
    requires Written(v, v1, size, cs, more, at, x)
    ensures WellFormed(v1, size) && Stored(v1, cs + more)
    ensures forall i :: 0 <= i < |cs + more| ==> v1.HasCluster((cs + more)[i]) && |v1.Cluster((cs + more)[i])| == size
    ensures more == [] ==> v1.fat == v.fat
  {
  }

  /** The second loop: overwrites the clusters the chain already has. Behind the chain it does nothing, when nothing is
      left to write or no cluster number is found there. */
  method OverwriteChain(fs: FileSystem, offset: nat, buf: seq<Byte>, numBytes: nat, done: nat, start: nat,
                        data: array<Byte>, ghost v: Volume, ghost cs: seq<nat>, ghost from: nat)
    returns (written: nat, previous: nat, ghost index: nat)
    requires fs.Valid() && data.Length == fs.g.BytesPerCluster() && 0 < from
    requires if |cs| < from then done == numBytes || (Strays(fs.g, start) && !InChain(fs.StrayWord(start)))
             else start == cs[from - 1]
    requires from <= |cs| ==>
               InProgress(v, fs.Vol(), fs.g.BytesPerCluster(), cs, [], offset, buf, numBytes, done, from)
    modifies fs.disk, data
    ensures fs.Valid()
    ensures |cs| < from ==> written == done && previous == start && fs.Vol() == old(fs.Vol())
    ensures from <= |cs| ==>
      && 0 < index <= |cs| && previous == cs[index - 1]
      && InProgress(v, fs.Vol(), fs.g.BytesPerCluster(), cs, [], offset, buf, numBytes, written, index)
      && (written < numBytes ==> index == |cs|)
  {
    hide VolumeOf, Span, Whole, Written, WellFormed, BootSector.Valid;
    var size := fs.g.BytesPerCluster();
    VolumeWellFormed(fs);
    written, index, previous := done, from, start;
    var current := fs.GetSuccessorCluster(previous);
    if from <= |cs| {
      WrittenHolds(v, fs.Vol(), size, cs, [], offset, buf[..done]);
      assert cs + [] == cs;
    }
    while InChain(current) && written < numBytes
      invariant fs.Valid()
      invariant |cs| < from ==> written == done && previous == start && fs.Vol() == old(fs.Vol())
      invariant |cs| < from ==> !InChain(current) || written == numBytes
      invariant from <= |cs| ==>
        && 0 < index <= |cs| && previous == cs[index - 1]
        && InProgress(v, fs.Vol(), size, cs, [], offset, buf, numBytes, written, index)
        && IsChain(v.fat, cs) && fs.Vol().fat == v.fat && current == v.fat[previous]
      decreases |cs| - index
    {
      NextInChain(v.fat, cs, index - 1);
      var count := if numBytes - written > size then size else numBytes - written;
      NextPiece(v, fs.Vol(), size, cs, [], offset, buf, numBytes, written, index, count);
      WritePiece(fs, current, 0, buf, written, count, data);
      written := written + count;
      previous := current;
      current := fs.GetSuccessorCluster(current);
      index := index + 1;
    }
    if from <= |cs| {
      NextInChain(v.fat, cs, index - 1);
    }
  }

  /** Where the allocating loop is: as long as the clusters appended exist, the bytes are in the file; after that the
      file is stranded. */
  ghost predicate Progress(v: Volume, v1: Volume, size: nat, cs: seq<nat>, more: seq<nat>, at: nat,
                           buf: seq<Byte>, n: nat, written: nat)
  {
    && written <= n <= |buf| && WellFormed(v, size) && WellFormed(v1, size)
    && GrownBy(v.fat, v1.fat, cs, more)
    && at + written <= Span(|cs + more|, size) && (written < n ==> at + written == Span(|cs + more|, size))
    && if |more| <= |Room(v)| then Written(v, v1, size, cs, more, at, buf[..written])
       else Stranded(v, v1, size, cs, more, at, buf[..written])
  }

  /** The first free cluster exists exactly when one is left that does. */
  lemma NextExists(v: Volume, v1: Volume, size: nat, cs: seq<nat>, more: seq<nat>, at: nat,
                   buf: seq<Byte>, n: nat, written: nat, c: nat)
    requires Progress(v, v1, size, cs, more, at, buf, n, written)
    requires FreeList(v1.fat) != [] && c == FreeList(v1.fat)[0]
    ensures |v1.fat| == |v.fat| && |v1.data| == |v.data|
    ensures v1.HasCluster(c) <==> |more| < |Room(v)|
  {
    hide Room, FreeBelow, Linked, Content, Span;
    GrowOnce(v.fat, v1.fat, cs, more);
    RoomAt(v, size, |more|);
  }

  /** One round of the allocating loop with a cluster that exists, before the bytes are written: it is linked. */
  lemma NextCluster(v: Volume, v1: Volume, size: nat, cs: seq<nat>, more: seq<nat>, at: nat,
                    buf: seq<Byte>, n: nat, written: nat, c: nat)
    requires InProgress(v, v1, size, cs, more, at, buf, n, written, |cs + more|)
    requires FreeList(v1.fat) != [] && c == FreeList(v1.fat)[0] && v1.HasCluster(c)
    ensures var last := (cs + more)[|cs + more| - 1];
      last < |v1.fat| && c < |v1.fat|
      && InProgress(v, v1.(fat := Link(v1.fat, last, c)), size, cs, more + [c], at, buf, n, written, |cs + more|)
  {
    hide Span, Written;
    WrittenHolds(v, v1, size, cs, more, at, buf[..written]);
    WrittenGrow(v, v1, size, cs, more, at, buf[..written], c);
  }

  /** The volume after one round of the third loop, the link written and then the piece `x`. */
  ghost predicate Piece(linked: Volume, v2: Volume, size: nat, c: nat, x: seq<Byte>) {
    if linked.HasCluster(c)
    then |linked.Cluster(c)| == size && |x| <= size && v2 == linked.WithCluster(c, Splice(linked.Cluster(c), 0, x))
    else v2 == linked.(rest := v2.rest)
  }

  /** One round of the allocating loop. */
  lemma NextRound(v: Volume, v1: Volume, v2: Volume, size: nat, cs: seq<nat>, more: seq<nat>, at: nat,
                  buf: seq<Byte>, n: nat, written: nat, c: nat, count: nat)
    requires Progress(v, v1, size, cs, more, at, buf, n, written)
    requires written < n && count == Min(size, n - written)
    requires FreeList(v1.fat) != [] && c == FreeList(v1.fat)[0]
    requires (cs + more)[|cs + more| - 1] < |v1.fat|
    requires var linked := v1.(fat := Link(v1.fat, (cs + more)[|cs + more| - 1], c));
      Piece(linked, v2, size, c, buf[written..written + count])
    ensures Progress(v, v2, size, cs, more + [c], at, buf, n, written + count)
  {
    hide Span, Link, Linked, FreeList, Room, IsChain, Written, Stranded;
    GrowOnce(v.fat, v1.fat, cs, more);
    NextExists(v, v1, size, cs, more, at, buf, n, written, c);
    assert cs + (more + [c]) == cs + more + [c];
    SpanStep(|cs + more|, size);
    if v1.HasCluster(c) {
      Store(v, v1, v2, size, cs, more, at, buf, n, written, c, count);
    } else {
      Strand(v, v1, v2, size, cs, more, at, buf, n, written, c, count);
    }
  }

  /** A round with a cluster that exists. */
  lemma Store(v: Volume, v1: Volume, v2: Volume, size: nat, cs: seq<nat>, more: seq<nat>, at: nat,
              buf: seq<Byte>, n: nat, written: nat, c: nat, count: nat)
    requires InProgress(v, v1, size, cs, more, at, buf, n, written, |cs + more|)
    requires written < n && count == Min(size, n - written)
    requires FreeList(v1.fat) != [] && c == FreeList(v1.fat)[0] && v1.HasCluster(c) && |v1.Cluster(c)| == size
    requires cs + more != [] && (cs + more)[|cs + more| - 1] < |v1.fat|
    requires var linked := v1.(fat := Link(v1.fat, (cs + more)[|cs + more| - 1], c));
      v2 == linked.WithCluster(c, Splice(v1.Cluster(c), 0, buf[written..written + count]))
    ensures Written(v, v2, size, cs, more + [c], at, buf[..written + count]) && WellFormed(v2, size)
  {
    hide Span, Link, FreeList, Written;
    NextCluster(v, v1, size, cs, more, at, buf, n, written, c);
    assert (cs + (more + [c]))[|cs + more|] == c;
    var linked := v1.(fat := Link(v1.fat, (cs + more)[|cs + more| - 1], c));
    NextPiece(v, linked, size, cs, more + [c], at, buf, n, written, |cs + more|, count);
    WrittenHolds(v, v2, size, cs, more + [c], at, buf[..written + count]);
  }

  /** A round with a cluster that does not exist. */
  lemma Strand(v: Volume, v1: Volume, v2: Volume, size: nat, cs: seq<nat>, more: seq<nat>, at: nat,
               buf: seq<Byte>, n: nat, written: nat, c: nat, count: nat)
    requires Progress(v, v1, size, cs, more, at, buf, n, written) && |Room(v)| <= |more|
    requires written < n && count == Min(size, n - written)
    requires v2 == v1.(fat := v2.fat, rest := v2.rest) && |v2.fat| == |v1.fat| && WellFormed(v2, size)
    requires GrownBy(v.fat, v2.fat, cs, more + [c])
    ensures Stranded(v, v2, size, cs, more + [c], at, buf[..written + count])
  {
    hide GrownBy, FreeList, IsChain;
    var all := cs + Room(v);
    RoomIsAll(v, v1, size, cs, more);
    var stored := Span(|all|, size) - at;
    SpanOrder(|all|, |cs + more|, size);
    hide Span, Room, FreeBelow;
    assert buf[..written + count][..stored] == buf[..stored] && buf[..written][..stored] == buf[..stored];
    assert Spliced(v, v1, all, at, buf[..stored]) by {
      if |more| == |Room(v)| {
        assert buf[..written] == buf[..stored];
      }
    }
    SplicedCarries(v, v1, v2, all, at, buf[..stored]);
  }

  lemma RoomIsAll(v: Volume, v1: Volume, size: nat, cs: seq<nat>, more: seq<nat>)
    requires WellFormed(v, size) && GrownBy(v.fat, v1.fat, cs, more) && |Room(v)| <= |more|
    ensures Room(v) <= more && |cs + Room(v)| <= |cs + more|
    ensures |more| == |Room(v)| ==> cs + more == cs + Room(v)
  {
    hide Linked, IsChain, FreeBelow, Room;
    RoomIsFirst(v, size, |more|);
  }

  lemma SplicedCarries(v: Volume, v1: Volume, v2: Volume, cs: seq<nat>, at: nat, x: seq<Byte>)
    requires Spliced(v, v1, cs, at, x) && v2.data == v1.data && v2.root == v1.root && |v2.fat| == |v1.fat|
    ensures Spliced(v, v2, cs, at, x)
  {
    hide Content;
    ContentSame(v1, v2, cs);
  }

  /** One round of the third loop: links the first free cluster behind `previous` and writes the next bytes to it. */
  method AppendPiece(fs: FileSystem, previous: nat, buf: seq<Byte>, numBytes: nat, written: nat, data: array<Byte>)
    returns (nextFree: nat, count: nat)
    requires fs.Valid() && WellFormed(fs.Vol(), fs.g.BytesPerCluster()) && data.Length == fs.g.BytesPerCluster()
    requires written < numBytes <= |buf| && (2 <= previous < |fs.Vol().fat| || Strays(fs.g, previous))
    modifies fs.disk, data
    ensures fs.Valid()
    ensures var v, size := old(fs.Vol()), fs.g.BytesPerCluster();
      if nextFree < 2 then FreeList(v.fat) == [] && fs.Vol() == v
      else
        && FreeList(v.fat) != [] && nextFree == FreeList(v.fat)[0] < |v.fat| && count == Min(size, numBytes - written)
        && (previous < |v.fat| ==>
              Piece(v.(fat := Link(v.fat, previous, nextFree)), fs.Vol(), size, nextFree,
                    buf[written..written + count]))
        && (Strays(fs.g, previous) ==>
              && v.HasCluster(StrayCluster(fs.g, previous)) && |v.Cluster(StrayCluster(fs.g, previous))| == size
              && Piece(StrayWritten(fs.g, v, previous, nextFree).WithEntry(nextFree, LAST_CLUSTER), fs.Vol(), size,
                       nextFree, buf[written..written + count]))
  {
    hide VolumeOf, Span, FreeList, IsFirstFree, BootSector.Valid, Strays, StrayIndex;
    ghost var v := fs.Vol();
    var size := fs.g.BytesPerCluster();
    VolumeWellFormed(fs);
    Basics(fs.g);
    count := 0;
    nextFree := fs.FindFirstFreeCluster();
    FirstFreeIsHead(v.fat, nextFree);
    if nextFree < 2 {
      return;
    }
    StraysBehind(fs.g, previous);
    fs.SetSuccessorCluster(previous, nextFree);
    fs.SetSuccessorCluster(nextFree, 0xFFFF);
    VolumeWellFormed(fs);
    ghost var linked := fs.Vol();
    count := if numBytes - written > size then size else numBytes - written;
    WritePiece(fs, nextFree, 0, buf, written, count, data);
    assert Piece(linked, fs.Vol(), size, nextFree, buf[written..written + count]);
  }

  lemma StraysBehind(g: Geometry, c: nat)
    ensures Strays(g, c) ==> g.FatEntries() <= c
  {
  }

  /** So a longer write from behind the chain loses all bytes: those of the first cluster are stored nowhere. */
  ghost predicate LostBehind(g: Geometry, v: Volume, v': Volume, mark: nat, at: nat, buf: seq<Byte>, n: nat,
                             written: nat,
                             more: seq<nat>)
  {
    var size := g.BytesPerCluster();
    && 0 < size && at <= Span(Whole(at, size) + 1, size)
    && exists rest :: Lost(g, v.(rest := rest), v', mark, buf, n, Span(Whole(at, size) + 1, size) - at, written, more)
  }

  /** The chain of lost bytes as it starts: one cluster, in the volume with the stray bytes written. */
  ghost predicate LostStart(g: Geometry, v: Volume, w: Volume, mark: nat, ks: seq<nat>) {
    && FreeList(v.fat) != [] && ks == [FreeList(v.fat)[0]] && 2 <= ks[0] < |v.fat| && v.HasCluster(ks[0])
    && Strays(g, mark) && v.HasCluster(StrayCluster(g, mark))
    && |v.Cluster(StrayCluster(g, mark))| == g.BytesPerCluster()
    && w == StrayWritten(g, v, mark, ks[0]).WithEntry(ks[0], LAST_CLUSTER)
    && WellFormed(w, g.BytesPerCluster()) && IsChain(w.fat, ks)
  }

  lemma LostStarts(g: Geometry, v: Volume, w: Volume, v1: Volume, mark: nat, c: nat, buf: seq<Byte>, n: nat, done: nat,
                   count: nat)
    requires WellFormed(v, g.BytesPerCluster()) && FreeList(v.fat) != [] && c == FreeList(v.fat)[0] < |v.fat|
    requires Room(v) != [] && Strays(g, mark) && v.HasCluster(StrayCluster(g, mark))
    requires |v.Cluster(StrayCluster(g, mark))| == g.BytesPerCluster()
    requires w == StrayWritten(g, v, mark, c).WithEntry(c, LAST_CLUSTER)
    requires done < n <= |buf| && count == Min(g.BytesPerCluster(), n - done)
    requires Piece(w, v1, g.BytesPerCluster(), c, buf[done..done + count])
    ensures LostStart(g, v, w, mark, [c])
    ensures Grows(Growth(w, [c], [], buf[done..], 0, done), v1, g.BytesPerCluster(), buf, n, done + count, c)
  {
    hide Span, FreeList, Strays, StrayIndex, Written, Linked;
    var size := g.BytesPerCluster();
    RoomIsHead(v, size);
    LostWellFormed(v, w, size, c);
    SpanStep(0, size);
    ClusterBytesPositive(g);
    assert buf[done..][0..count] == buf[done..done + count] && [c] + [] == [c];
    FirstPiece(w, size, [c], 0, buf[done..], n - done, 0, 0, count);
    WrittenIsProgress(w, v1, size, [c], 0, buf[done..], n - done, count, 1);
  }

  /** The first free cluster exists if one of the free ones does. */
  lemma RoomIsHead(v: Volume, size: nat)
    requires WellFormed(v, size) && FreeList(v.fat) != [] && Room(v) != []
    ensures 2 <= FreeList(v.fat)[0] && v.HasCluster(FreeList(v.fat)[0])
  {
    RoomAt(v, size, 0);
  }

  lemma LostWellFormed(v: Volume, w: Volume, size: nat, c: nat)
    requires WellFormed(v, size) && v.HasCluster(c) && w.fat == v.fat[c := LAST_CLUSTER]
    requires |w.data| == |v.data| && Uniform(w.data, size)
    ensures WellFormed(w, size) && Stored(w, [c])
  {
  }

  lemma LostEnds(g: Geometry, v: Volume, v': Volume, mark: nat, k: Growth, buf: seq<Byte>, n: nat, done: nat,
                 written: nat,
                 previous: nat, more: seq<nat>)
    requires done <= written <= n <= |buf|
    requires if more == [] then FreeList(v.fat) == [] && v' == v && written == done
             else
               && k == Growth(k.w, [more[0]], more[1..], buf[done..], 0, done) && LostStart(g, v, k.w, mark, [more[0]])
               && Grows(k, v', g.BytesPerCluster(), buf, n, written, previous)
               && (written < n ==> FreeList(v'.fat) == [])
    ensures Lost(g, v, v', mark, buf, n, done, written, more)
  {
    hide Span, FreeList, Strays, StrayIndex, Written, Stranded, Progress, Linked, Room, Outcome, GrownBy, WellFormed;
    if more != [] {
      assert buf[done..][..written - done] == buf[done..written];
      ProgressEnds(k.w, v', g.BytesPerCluster(), k.ks, k.tail, 0, buf[done..], n - done, written - done);
    }
  }

  /** The stray bytes are in a cluster of another file, or of a directory, if the cluster is in use: it keeps them. */
  lemma LostOverwrites(g: Geometry, v: Volume, v': Volume, mark: nat, buf: seq<Byte>, n: nat, done: nat, written: nat,
                       more: seq<nat>)
    requires Lost(g, v, v', mark, buf, n, done, written, more)
    requires FreeList(v.fat) != [] && WellFormed(v, g.BytesPerCluster())
    requires v.fat[StrayCluster(g, mark)] != 0
    ensures var d := StrayCluster(g, mark);
      && v.HasCluster(d) && v'.HasCluster(d) && StrayIndex(g, mark) + 2 <= |v.Cluster(d)|
      && v'.Cluster(d) == Splice(v.Cluster(d), StrayIndex(g, mark), WordBytes(FreeList(v.fat)[0]))
  {
    hide Span, Strays, StrayIndex, Outcome, Linked, Content, Splice, WordBytes, Room, FreeList;
    var d, size := StrayCluster(g, mark), g.BytesPerCluster();
    var w := StrayWritten(g, v, mark, more[0]).WithEntry(more[0], LAST_CLUSTER);
    NotTaken(v.fat, d);
    if Fits(size, 1, |Room(w)|, |FreeList(w.fat)|, 0, n - done) {
      NotInMore(w, v', more[0], more[1..], d);
    } else {
      NotInRoom(w, size, v', more[0], more[1..], d);
    }
  }

  lemma NotTaken(fat: seq<nat>, d: nat)
    requires FreeList(fat) != [] && d < |fat| && fat[d] != 0
    ensures FreeList(fat)[0] != d
  {
  }

  lemma NotInMore(w: Volume, v': Volume, c: nat, more: seq<nat>, d: nat)
    requires GrownBy(w.fat, v'.fat, [c], more) && d != c && d < |w.fat| && w.fat[d] != 0
    ensures d !in [c] + more
  {
    assert forall i :: 0 <= i < |more| ==> more[i] in FreeList(w.fat);
  }

  lemma NotInRoom(w: Volume, size: nat, v': Volume, c: nat, more: seq<nat>, d: nat)
    requires WellFormed(w, size) && d != c && d < |w.fat| && w.fat[d] != 0
    ensures d !in [c] + Room(w)
  {
    assert forall i :: 0 <= i < |Room(w)| ==> w.fat[Room(w)[i]] == 0;
  }

  /** On the repository's volume, a longer write from behind a chain that ends with 0xffff goes astray into cluster
      105 when the last two bytes of that are zero. */
  lemma ShippedGoesAstray(fs: FileSystem, cs: seq<nat>, at: nat, n: nat)
    requires fs.g == SHIPPED || fs.g == SHIPPED.Within(2048)
    requires HasChain(fs, cs) && fs.Vol().fat[cs[|cs| - 1]] == LAST_CLUSTER
    requires fs.Vol().HasCluster(105) && |fs.Vol().Cluster(105)| == 1024 && fs.Vol().Cluster(105)[1022..] == [0, 0]
    requires Span(|cs|, 1024) <= at < Span(0x1_0000, 1024) && Span(Whole(at, 1024) + 1, 1024) < at + n
    requires FreeList(fs.Vol().fat) != [] ==> Room(fs.Vol()) != []
    ensures GoesAstray(fs, cs, at, n)
    ensures StrayCluster(fs.g, LAST_CLUSTER) == 105 && StrayIndex(fs.g, LAST_CLUSTER) == 1022
  {
    hide VolumeOf, FreeList, Room, Whole, Span, BootSector.Valid, Strays, StrayIndex;
    ShippedEndMark(fs.g);
    StrayEntry(fs.g, fs.disk.blocks, LAST_CLUSTER, 0);
    var bytes := fs.Vol().Cluster(105);
    assert bytes[1022] == bytes[1022..][0] && bytes[1023] == bytes[1022..][1];
    SpanIsProduct(2, 512);
  }

  /** A chain that grows: `ks`, by `tail`, from the volume `w` on, with the bytes `b` from byte `at` on, which are
      those of the whole buffer from `from` on. */
  datatype Growth = Growth(w: Volume, ks: seq<nat>, tail: seq<nat>, b: seq<Byte>, at: nat, from: nat)

  ghost predicate Grows(k: Growth, v1: Volume, size: nat, buf: seq<Byte>, n: nat, written: nat, previous: nat) {
    && k.from <= written <= n <= |buf| && k.b == buf[k.from..]
    && Progress(k.w, v1, size, k.ks, k.tail, k.at, k.b, n - k.from, written - k.from)
    && (written < n ==> k.ks + k.tail != [] && previous == (k.ks + k.tail)[|k.ks + k.tail| - 1])
    && (k.tail != [] ==> Span(|k.ks + k.tail| - 1, size) < k.at + (written - k.from))
  }

  lemma StartsGrowing(v: Volume, v1: Volume, size: nat, cs: seq<nat>, at: nat, buf: seq<Byte>, n: nat, written: nat)
    requires cs != [] && written < n && InProgress(v, v1, size, cs, [], at, buf, n, written, |cs|)
    ensures Grows(Growth(v, cs, [], buf, at, 0), v1, size, buf, n, written, cs[|cs| - 1])
  {
    hide Progress, Written, Span;
    assert buf[0..] == buf && cs + [] == cs;
    WrittenIsProgress(v, v1, size, cs, at, buf, n, written, |cs|);
  }

  lemma GrowsFrom(k: Growth, v1: Volume, size: nat, buf: seq<Byte>, n: nat, written: nat, previous: nat)
    requires Grows(k, v1, size, buf, n, written, previous) && written < n
    ensures WellFormed(v1, size) && 2 <= previous < |v1.fat|
  {
    hide Progress, WellFormed;
    ProgressHolds(k.w, v1, size, k.ks, k.tail, k.at, k.b, n - k.from, written - k.from);
  }

  lemma GrowsOn(k: Growth, v1: Volume, v2: Volume, size: nat, buf: seq<Byte>, n: nat, written: nat, previous: nat,
                c: nat,
                count: nat)
    requires Grows(k, v1, size, buf, n, written, previous) && written < n && 0 < size && count == Min(size, n - written)
    requires previous < |v1.fat| && FreeList(v1.fat) != [] && c == FreeList(v1.fat)[0] < |v1.fat|
    requires Piece(v1.(fat := Link(v1.fat, previous, c)), v2, size, c, buf[written..written + count])
    ensures Grows(k.(tail := k.tail + [c]), v2, size, buf, n, written + count, c)
  {
    hide Progress, FreeList, Link, Span;
    var done := written - k.from;
    ProgressHolds(k.w, v1, size, k.ks, k.tail, k.at, k.b, n - k.from, done);
    assert k.b[done..done + count] == buf[written..written + count];
    NextRound(k.w, v1, v2, size, k.ks, k.tail, k.at, k.b, n - k.from, done, c, count);
    assert k.ks + (k.tail + [c]) == k.ks + k.tail + [c];
  }

  lemma GrowsTo(k: Growth, v1: Volume, size: nat, buf: seq<Byte>, n: nat, written: nat, previous: nat)
    requires Grows(k, v1, size, buf, n, written, previous) && k.from == 0
    ensures Progress(k.w, v1, size, k.ks, k.tail, k.at, buf, n, written)
    ensures k.tail != [] ==> Span(|k.ks + k.tail| - 1, size) < k.at + written
  {
    hide Progress, Span;
    assert buf[0..] == buf;
  }

  /** The third loop: links free clusters behind the chain and writes the remaining bytes to them. From an end mark, as
      `GoesAstray` has it, they are lost. */
  method GrowChain(fs: FileSystem, offset: nat, buf: seq<Byte>, numBytes: nat, done: nat, last: nat, data: array<Byte>,
                   ghost v: Volume, ghost cs: seq<nat>)
    returns (written: nat, ghost more: seq<nat>)
    requires fs.Valid() && data.Length == fs.g.BytesPerCluster() && done <= numBytes <= |buf|
    requires done < numBytes ==>
               if Strays(fs.g, last)
               then
                 && WellFormed(fs.Vol(), fs.g.BytesPerCluster())
                 && (FreeList(fs.Vol().fat) != [] ==> Room(fs.Vol()) != [])
               else
                 && cs != [] && last == cs[|cs| - 1]
                 && InProgress(v, fs.Vol(), fs.g.BytesPerCluster(), cs, [], offset, buf, numBytes, done, |cs|)
    modifies fs.disk, data
    ensures fs.Valid() && written <= numBytes
    ensures done == numBytes ==> written == numBytes && more == [] && fs.Vol() == old(fs.Vol())
    ensures done < numBytes && !Strays(fs.g, last) ==>
      && Progress(v, fs.Vol(), fs.g.BytesPerCluster(), cs, more, offset, buf, numBytes, written)
      && (written < numBytes ==> FreeList(fs.Vol().fat) == [])
      && (more != [] ==> Span(|cs + more| - 1, fs.g.BytesPerCluster()) < offset + written)
    ensures done < numBytes && Strays(fs.g, last) ==>
      Lost(fs.g, old(fs.Vol()), fs.Vol(), last, buf, numBytes, done, written, more)
  {
    hide VolumeOf, Span, WellFormed, FreeList, Room, Progress, Piece, Lost, Strays, StrayWritten, LostStart, Grows,
         BootSector.Valid;
    var size := fs.g.BytesPerCluster();
    ClusterBytesPositive(fs.g);
    ghost var first, astray := fs.Vol(), Strays(fs.g, last);
    ghost var k := Growth(v, cs, [], buf, offset, 0);
    var previous := last;
    written, more := done, [];
    if done < numBytes && !astray {
      StartsGrowing(v, fs.Vol(), size, cs, offset, buf, numBytes, written);
    }
    while written < numBytes
      invariant fs.Valid() && done <= written <= numBytes
      invariant done == numBytes ==> more == []
      invariant done == numBytes || (astray && more == []) ==> written == done && previous == last && fs.Vol() == first
      invariant done < numBytes && !astray ==> k == Growth(v, cs, more, buf, offset, 0)
      invariant done < numBytes && astray && more != [] ==>
        k == Growth(k.w, [more[0]], more[1..], buf[done..], 0, done) && LostStart(fs.g, first, k.w, last, [more[0]])
      invariant done < numBytes && (!astray || more != []) ==>
        Grows(k, fs.Vol(), size, buf, numBytes, written, previous)
    {
      ghost var v1 := fs.Vol();
      if !astray || more != [] {
        GrowsFrom(k, v1, size, buf, numBytes, written, previous);
      }
      var nextFree, count := AppendPiece(fs, previous, buf, numBytes, written, data);
      if nextFree < 2 {
        break;
      }
      if astray && more == [] {
        k := Growth(StrayWritten(fs.g, first, last, nextFree).WithEntry(nextFree, LAST_CLUSTER), [nextFree], [],
                    buf[done..], 0, done);
        LostStarts(fs.g, first, k.w, fs.Vol(), last, nextFree, buf, numBytes, done, count);
      } else {
        GrowsOn(k, v1, fs.Vol(), size, buf, numBytes, written, previous, nextFree, count);
        k := k.(tail := k.tail + [nextFree]);
      }
      more := more + [nextFree];
      written := written + count;
      previous := nextFree;
    }
    if done < numBytes {
      if astray {
        LostEnds(fs.g, first, fs.Vol(), last, k, buf, numBytes, done, written, previous, more);
      } else {
        GrowsTo(k, fs.Vol(), size, buf, numBytes, written, previous);
      }
    }
  }

  lemma WrittenIsProgress(v: Volume, v1: Volume, size: nat, cs: seq<nat>, at: nat, buf: seq<Byte>, n: nat, written: nat,
                          index: nat)
    requires InProgress(v, v1, size, cs, [], at, buf, n, written, index) && (written < n ==> index == |cs|)
    ensures Progress(v, v1, size, cs, [], at, buf, n, written)
  {
    hide Span, Content, Linked, FreeList;
    assert cs + [] == cs;
    PiecesUniform(v, size, cs);
  }

  lemma ProgressHolds(v: Volume, v1: Volume, size: nat, cs: seq<nat>, more: seq<nat>, at: nat,
                      buf: seq<Byte>, n: nat, written: nat)
    requires Progress(v, v1, size, cs, more, at, buf, n, written)
    ensures WellFormed(v1, size) && cs + more != [] && 2 <= (cs + more)[|cs + more| - 1] < |v1.fat|
    ensures written < n ==> at + written == Span(|cs + more|, size)
  {
    hide Span, Written, Stranded, FreeList, Linked;
  }

  /** Writes `numBytes` bytes of `buf` to the file whose chain is `cs`, from byte `offset` on, growing the chain by
      the first free clusters when it is too short, by no more than the bytes need; bytes are left over only when no
      cluster is free any more. When all clusters appended exist, the file is spliced; when the free ones that exist
      are too few, it is stranded. From an offset behind the chain all bytes of one cluster count as written, but none
      is stored, and further ones are lost. With a first cluster below 2, which a file created on a full disk gets,
      the bytes overwrite the root directory. */
  method WriteToFile(fs: FileSystem, first: nat, offset: nat, buf: seq<Byte>, numBytes: nat, ghost cs: seq<nat>)
    returns (written: nat, ghost more: seq<nat>)
    requires fs.Valid() && numBytes <= |buf| && numBytes < 0x8000_0000
    requires if first < 2 then cs == [] && LeadsToRoot(fs.g, first) else HasChain(fs, cs) && first == cs[0]
    requires InReach(fs.g.BytesPerCluster(), |cs|, offset, numBytes)
          || (2 <= first && GoesAstray(fs, cs, offset, numBytes))
    modifies fs.disk
    ensures fs.Valid() && written <= numBytes
    ensures var v, size := old(fs.Vol()), fs.g.BytesPerCluster();
      if first < 2 then
        && written == numBytes && more == [] && 0 < size
        && var o := RootIndex(fs.g, first) + offset - Span(Whole(offset, size), size);
        0 <= o && o + numBytes <= |v.root| && fs.Vol() == v.(root := Splice(v.root, o, buf[..numBytes]))
      else if offset < Span(|cs|, size) then
        && GrownBy(v.fat, fs.Vol().fat, cs, more)
        && Outcome(size, |cs|, |FreeList(v.fat)|, offset, numBytes, written, |more|)
        && if Fits(size, |cs|, |Room(v)|, |FreeList(v.fat)|, offset, numBytes)
           then HasChain(fs, cs + more) && Written(v, fs.Vol(), size, cs, more, offset, buf[..written])
           else Stranded(v, fs.Vol(), size, cs, more, offset, buf[..written])
      else if InReach(size, |cs|, offset, numBytes) then
        written == numBytes && more == [] && fs.Vol() == v.(rest := fs.Vol().rest)
      else
        LostBehind(fs.g, v, fs.Vol(), v.fat[cs[|cs| - 1]], offset, buf, numBytes, written, more)
  {
    hide VolumeOf, Span, Whole, Written, Stranded, GrownBy, WellFormed, FreeList, Room, Outcome, Lost, BootSector.Valid,
         Strays, StrayIndex, StrayRead, IsChain, GoesAstray, BootSector.ClusterEnd;
    ghost var v := fs.Vol();
    var size := fs.g.BytesPerCluster();
    ReachOffset(fs, cs, offset, numBytes);
    StartPosition(fs.g, offset);
    SpanStep(0, size);
    VolumeWellFormed(fs);
    var startsIn := U16(Whole(offset, size));
    var startOffset := U16(offset - Span(startsIn, size));
    var data := new Byte[size];

    var current, index := SeekCluster(fs, first, startsIn, cs);

    var count := if size - startOffset > numBytes then numBytes else size - startOffset;
    ghost var astray := |cs| <= startsIn && count < numBytes;
    if 2 <= first {
      StartInChain(fs, offset, cs);
      if startsIn < |cs| {
        FirstPiece(v, size, cs, offset, buf, numBytes, startsIn, startOffset, count);
      } else if astray {
        StartsAstray(fs, cs, offset, numBytes);
      }
    }
    WritePiece(fs, current, startOffset, buf, 0, count, data);
    if astray {
      StillAstray(fs, v, current);
    }

    var previous;
    ghost var reached;
    written, previous, reached := OverwriteChain(fs, offset, buf, numBytes, count, current, data, v, cs, startsIn + 1);
    assert cs + [] == cs;
    ghost var v1, done := fs.Vol(), written;
    VolumeWellFormed(fs);
    StraysBehind(fs.g, previous);
    written, more := GrowChain(fs, offset, buf, numBytes, written, previous, data, v, cs);
    if startsIn < |cs| {
      if done == numBytes {
        WrittenIsProgress(v, v1, size, cs, offset, buf, numBytes, done, reached);
      }
      ProgressEnds(v, fs.Vol(), size, cs, more, offset, buf, numBytes, written);
    } else if astray {
      assert v1 == v.(rest := v1.rest);
    }
  }

  lemma StartsAstray(fs: FileSystem, cs: seq<nat>, at: nat, n: nat)
    requires GoesAstray(fs, cs, at, n)
    ensures var v := fs.Vol(); var mark := v.fat[cs[|cs| - 1]];
      && WellFormed(v, fs.g.BytesPerCluster()) && fs.g.ClusterEnd() <= mark
      && Strays(fs.g, mark) && v.HasCluster(StrayCluster(fs.g, mark))
      && |v.Cluster(StrayCluster(fs.g, mark))| == fs.g.BytesPerCluster()
      && !InChain(StrayRead(fs.g, v, mark)) && (FreeList(v.fat) != [] ==> Room(v) != [])
  {
    hide VolumeOf, FreeList, Room, Whole, Span, BootSector.Valid;
    StrayEntry(fs.g, fs.disk.blocks, fs.Vol().fat[cs[|cs| - 1]], 0);
    LayoutInOrder(fs.g);
  }

  lemma StillAstray(fs: FileSystem, v: Volume, mark: nat)
    requires fs.Valid() && fs.Vol() == v.(rest := fs.Vol().rest) && WellFormed(v, fs.g.BytesPerCluster())
    requires Strays(fs.g, mark) && v.HasCluster(StrayCluster(fs.g, mark))
    requires |v.Cluster(StrayCluster(fs.g, mark))| == fs.g.BytesPerCluster() && !InChain(StrayRead(fs.g, v, mark))
    requires FreeList(v.fat) != [] ==> Room(v) != []
    ensures Strays(fs.g, mark) && !InChain(fs.StrayWord(mark)) && WellFormed(fs.Vol(), fs.g.BytesPerCluster())
    ensures FreeList(fs.Vol().fat) != [] ==> Room(fs.Vol()) != []
  {
    hide VolumeOf, FreeList, Strays, StrayIndex;
  }

  /** Allocating is safe exactly while the first free entry is below the number of clusters, counted from 2: a write
      that needs a cluster fits its next one if and only if it is. */
  lemma FirstFreeExists(v: Volume, size: nat, c: nat)
    requires WellFormed(v, size) && IsFirstFree(v.fat, c) && 2 <= c
    ensures FreeList(v.fat) != [] && c == FreeList(v.fat)[0]
    ensures v.HasCluster(c) <==> c < |v.data| + 2
    ensures v.HasCluster(c) <==> Room(v) != []
    ensures forall len: nat, at: nat, n: nat :: Span(len, size) < at + n <= Span(len + 1, size) ==>
              (Fits(size, len, |Room(v)|, |FreeList(v.fat)|, at, n) <==> v.HasCluster(c))
  {
    hide Room, FreeBelow, Span;
    FirstFreeIsHead(v.fat, c);
    RoomAt(v, size, 0);
    forall len: nat, at: nat, n: nat | Span(len, size) < at + n <= Span(len + 1, size)
      ensures Fits(size, len, |Room(v)|, |FreeList(v.fat)|, at, n) <==> v.HasCluster(c)
    {
      if Room(v) != [] {
        SpanOrder(len + 1, len + |Room(v)|, size);
      }
    }
  }

  /** On a disk that holds all sectors of the repository's volume it can fail: once the clusters 2 to 4072 are used the
      search finds 4073, whose sectors the volume does not have, and a write that needs it strands its file. */
  lemma ShippedVolumeStrands(g: Geometry, img: Image, len: nat, at: nat, n: nat)
    requires g == SHIPPED && ValidImage(g, img) && WellFormed(VolumeOf(g, img), g.BytesPerCluster())
    requires var fat := VolumeOf(g, img).fat; |fat| == 4096 && IsFirstFree(fat, 4073)
    requires Span(len, g.BytesPerCluster()) < at + n
    ensures var v := VolumeOf(g, img);
      && !v.HasCluster(4073) && v.HasCluster(4072)
      && !Fits(g.BytesPerCluster(), len, |Room(v)|, |FreeList(v.fat)|, at, n)
  {
    var v := VolumeOf(g, img);
    ShippedGeometry();
    VolumeShape(g, img);
    hide VolumeOf, Span, Room, FreeBelow;
    FirstFreeExists(v, g.BytesPerCluster(), 4073);
  }

  lemma ProgressEnds(v: Volume, v1: Volume, size: nat, cs: seq<nat>, more: seq<nat>, at: nat,
                     buf: seq<Byte>, n: nat, written: nat)
    requires Progress(v, v1, size, cs, more, at, buf, n, written)
    requires written < n ==> FreeList(v1.fat) == []
    requires more != [] ==> Span(|cs + more| - 1, size) < at + written
    ensures GrownBy(v.fat, v1.fat, cs, more) && WellFormed(v1, size)
    ensures Outcome(size, |cs|, |FreeList(v.fat)|, at, n, written, |more|)
    ensures if Fits(size, |cs|, |Room(v)|, |FreeList(v.fat)|, at, n)
            then Stored(v1, cs + more) && Written(v, v1, size, cs, more, at, buf[..written])
            else Stranded(v, v1, size, cs, more, at, buf[..written])
  {
    hide Content, Linked, FreeList, Room, FreeBelow, Span, IsChain;
    RoomIsFirst(v, size, 0);
    FitsIffRoom(size, |cs|, |Room(v)|, |FreeList(v.fat)|, at, n, written, |more|);
  }

  /** The first `done` of `n` bytes have been read into the buffer, and the rest starts with cluster `index`. */
  ghost predicate ReadSoFar(was: seq<Byte>, now: seq<Byte>, file: seq<Byte>, at: nat, n: nat, done: nat, index: nat,
                            size: nat)
  {
    && done <= n <= |was| && at + done <= |file|
    && now == Splice(was, 0, file[at..at + done])
    && (done < n ==> at + done == Span(index, size))
  }

  /** One round of reading: the bytes of the next cluster follow those read before. */
  lemma ReadPiece(was: seq<Byte>, now: seq<Byte>, v: Volume, size: nat, cs: seq<nat>, at: nat, n: nat, done: nat,
                  index: nat, count: nat)
    requires WellFormed(v, size) && Holds(v, cs) && index < |cs| && done < n && count == Min(size, n - done)
    requires ReadSoFar(was, now, Content(v, cs), at, n, done, index, size)
    ensures |v.Cluster(cs[index])| == size && done + count <= |now|
    ensures ReadSoFar(was, Splice(now, done, v.Cluster(cs[index])[0..count]),
                      Content(v, cs), at, n, done + count, index + 1, size)
  {
    SpanStep(index, size);
    hide Span, Content;
    ClusterInContent(v, size, cs, index, 0, count);
    var file := Content(v, cs);
    assert file[at..at + done] + file[at + done..at + done + count] == file[at..at + done + count];
    SpliceTwice(was, 0, file[at..at + done], file[at + done..at + done + count]);
  }

  lemma ReadFirst(was: seq<Byte>, v: Volume, size: nat, cs: seq<nat>, at: nat, n: nat, index: nat, o: nat, count: nat)
    requires WellFormed(v, size) && Holds(v, cs) && index < |cs| && o < size
    requires at == Span(index, size) + o && n <= |was| && count == Min(size - o, n)
    ensures |v.Cluster(cs[index])| == size
    ensures ReadSoFar(was, Splice(was, 0, v.Cluster(cs[index])[o..o + count]),
                      Content(v, cs), at, n, count, index + 1, size)
  {
    SpanStep(index, size);
    hide Span, Content;
    ClusterInContent(v, size, cs, index, o, count);
  }

  lemma ReadEnds(was: seq<Byte>, now: seq<Byte>, file: seq<Byte>, at: nat, n: nat, done: nat, index: nat, size: nat,
                 len: nat)
    requires ReadSoFar(was, now, file, at, n, done, index, size)
    requires |file| == Span(len, size) && (done < n ==> index == len)
    ensures at <= |file| && done <= |was|
    ensures done == Min(n, |file| - at) && now == Splice(was, 0, file[at..at + done])
  {
  }

  /** Loads cluster `c` and copies `count` of its bytes, from `from` on, to index `at` of `buf`. */
  method ReadInto(fs: FileSystem, c: nat, from: nat, count: nat, buf: array<Byte>, at: nat, data: array<Byte>)
    requires fs.Valid() && 2 <= c && data.Length == fs.g.BytesPerCluster() && data != buf
    requires from + count <= data.Length && at + count <= buf.Length
    modifies buf, data
    ensures c < fs.g.ClusterEnd() ==>
              && fs.Vol().HasCluster(c) && |fs.Vol().Cluster(c)| == fs.g.BytesPerCluster()
              && buf[..] == Splice(old(buf[..]), at, fs.Vol().Cluster(c)[from..from + count])
    ensures buf[at + count..] == old(buf[at + count..])
  {
    hide VolumeOf, BootSector.Valid;
    fs.LoadCluster(c, data);
    CopyIn(buf, at, data[..], from, count);
  }

  /** Reads up to `numBytes` bytes from byte `offset` of the file on: all that the chain holds of them. From an offset
      behind the chain as many are said to be read as were asked for, and none is of the file. */
  method ReadFromFile(fs: FileSystem, first: nat, offset: nat, buf: array<Byte>, numBytes: nat, ghost cs: seq<nat>)
    returns (bytesRead: nat)
    requires HasChain(fs, cs) && first == cs[0]
    requires InReach(fs.g.BytesPerCluster(), |cs|, offset, numBytes)
    requires numBytes <= buf.Length && numBytes < 0x8000_0000
    modifies buf
    ensures Holds(fs.Vol(), cs) && |Content(fs.Vol(), cs)| == Span(|cs|, fs.g.BytesPerCluster())
    ensures if |Content(fs.Vol(), cs)| <= offset then bytesRead == numBytes && buf[numBytes..] == old(buf[numBytes..])
            else
              && bytesRead == Min(numBytes, |Content(fs.Vol(), cs)| - offset)
              && buf[..] == Splice(old(buf[..]), 0, Content(fs.Vol(), cs)[offset..offset + bytesRead])
  {
    hide VolumeOf, Span, Whole, Content, Splice, WellFormed, ReadSoFar, BootSector.Valid;
    ghost var v := fs.Vol();
    ghost var was := buf[..];
    var size := fs.g.BytesPerCluster();
    ReachOffset(fs, cs, offset, numBytes);
    StartPosition(fs.g, offset);
    StartInChain(fs, offset, cs);
    PiecesUniform(v, size, cs);
    VolumeWellFormed(fs);
    var startsIn := U16(Whole(offset, size));
    var startOffset := U16(offset - Span(startsIn, size));
    var data := new Byte[size];

    NextInChain(v.fat, cs, 0);
    var current, index := SeekCluster(fs, first, startsIn, cs);
    var count := if size - startOffset > numBytes then numBytes else size - startOffset;
    if startsIn < |cs| {
      ReadFirst(was, v, size, cs, offset, numBytes, startsIn, startOffset, count);
      NextInChain(v.fat, cs, index);
    }
    ReadInto(fs, current, startOffset, count, buf, 0, data);
    bytesRead := ReadOn(fs, offset, buf, numBytes, count, current, data, was, cs, startsIn + 1);
  }

  /** The second loop: reads on in the clusters behind `start`, number `from - 1` of the chain. Behind the chain it does
      nothing when nothing is left to read. */
  method ReadOn(fs: FileSystem, offset: nat, buf: array<Byte>, numBytes: nat, done: nat, start: nat, data: array<Byte>,
                ghost was: seq<Byte>, ghost cs: seq<nat>, ghost from: nat) returns (bytesRead: nat)
    requires HasChain(fs, cs) && data.Length == fs.g.BytesPerCluster() && data != buf && 0 < from
    requires if |cs| < from then done == numBytes
             else
               && start == cs[from - 1]
               && ReadSoFar(was, buf[..], Content(fs.Vol(), cs), offset, numBytes, done, from, fs.g.BytesPerCluster())
    modifies buf, data
    ensures |cs| < from ==> bytesRead == numBytes && buf[..] == old(buf[..])
    ensures from <= |cs| ==>
              var file := Content(fs.Vol(), cs);
              && offset <= |file| && bytesRead == Min(numBytes, |file| - offset) && bytesRead <= |was|
              && buf[..] == Splice(was, 0, file[offset..offset + bytesRead])
  {
    hide VolumeOf, Span, Content, Splice, WellFormed, IsChain, ReadSoFar, InChain, BootSector.Valid;
    ghost var v := fs.Vol();
    var size := fs.g.BytesPerCluster();
    VolumeWellFormed(fs);
    PiecesUniform(v, size, cs);
    ghost var index := from;
    bytesRead := done;
    var current := fs.GetSuccessorCluster(start);
    if from <= |cs| {
      NextInChain(v.fat, cs, from - 1);
    }
    while InChain(current) && bytesRead < numBytes
      invariant |cs| < from ==> bytesRead == numBytes && buf[..] == old(buf[..])
      invariant from <= |cs| ==>
        && index <= |cs| && (InChain(current) <==> index < |cs|) && (index < |cs| ==> current == cs[index])
        && ReadSoFar(was, buf[..], Content(v, cs), offset, numBytes, bytesRead, index, size)
      decreases |cs| - index
    {
      var count := if numBytes - bytesRead > size then size else numBytes - bytesRead;
      ReadPiece(was, buf[..], v, size, cs, offset, numBytes, bytesRead, index, count);
      ReadInto(fs, current, 0, count, buf, bytesRead, data);
      bytesRead := bytesRead + count;
      NextInChain(v.fat, cs, index);
      current := fs.GetSuccessorCluster(current);
      index := index + 1;
    }
    if from <= |cs| {
      ReadEnds(was, buf[..], Content(v, cs), offset, numBytes, bytesRead, index, size, |cs|);
    }
  }

  /** The entry of a chain's cluster leads to the next one, or out of the data clusters at the end. */
  lemma NextInChain(fat: seq<nat>, cs: seq<nat>, i: nat)
    requires IsChain(fat, cs) && i < |cs|
    ensures 2 <= cs[i] < |fat|
    ensures InChain(fat[cs[i]]) <==> i + 1 < |cs|
    ensures i + 1 < |cs| ==> fat[cs[i]] == cs[i + 1]
  {
    assert i + 1 < |cs| ==> fat[cs[i]] == cs[i + 1];
    assert i + 1 == |cs| ==> CHAIN_END <= fat[cs[i]];
  }

  /** Counts the clusters of a chain; a first cluster outside the data region has none. */
  method NumClustersInChain(fs: FileSystem, first: nat, ghost cs: seq<nat>) returns (count: nat)
    requires fs.Valid() && (InChain(first) ==> HasChain(fs, cs) && cs[0] == first)
    ensures count == if InChain(first) then |cs| else 0
  {
    hide VolumeOf, Span, WellFormed, BootSector.Valid;
    count := 0;
    if InChain(first) {
      VolumeWellFormed(fs);
      count := count + 1;
      NextInChain(fs.Vol().fat, cs, 0);
      var next := fs.GetSuccessorCluster(first);
      while InChain(next)
        invariant 0 < count <= |cs| && (InChain(next) <==> count < |cs|) && (count < |cs| ==> next == cs[count])
        decreases |cs| - count
      {
        NextInChain(fs.Vol().fat, cs, count);
        count := count + 1;
        next := fs.GetSuccessorCluster(next);
      }
      ChainLength(fs.Vol().fat, cs);
      count := U16(count);
    }
  }
}
