/** Files as byte sequences: the clusters of a chain end to end, and what a write does to them. */
module FatContent {
  import opened Bytes
  import opened Blocks
  import opened FatLayout
  import opened FatChains

  /** A volume of clusters of `size` bytes, with a FAT entry for each of them and perhaps more entries, of which 0
      and 1 are in use. */
  ghost predicate WellFormed(v: Volume, size: nat) {
    && 0 < size && 2 <= |v.fat| <= CHAIN_END
    && |v.data| <= |v.fat| - 2 && Uniform(v.data, size)
    && v.fat[0] != 0 && v.fat[1] != 0
  }

  ghost predicate Holds(v: Volume, cs: seq<nat>) {
    forall i :: 0 <= i < |cs| ==> v.HasCluster(cs[i])
  }

  ghost function Pieces(v: Volume, cs: seq<nat>): (p: seq<seq<Byte>>)
    requires Holds(v, cs)
    ensures |p| == |cs| && forall i :: 0 <= i < |cs| ==> p[i] == v.Cluster(cs[i])
  {
    seq(|cs|, i requires 0 <= i < |cs| => v.Cluster(cs[i]))
  }

  /** The bytes of a chain: its clusters laid end to end. */
  ghost function Content(v: Volume, cs: seq<nat>): seq<Byte>
    requires Holds(v, cs)
  {
    Flatten(Pieces(v, cs))
  }

  /** A chain of clusters that exist. */
  ghost predicate Stored(v: Volume, cs: seq<nat>) {
    IsChain(v.fat, cs) && Holds(v, cs)
  }

  /** The free clusters that exist; the others are only entries of the FAT. */
  ghost function Room(v: Volume): (free: seq<nat>)
    requires |v.data| + 2 <= |v.fat|
  {
    FreeBelow(v.fat, |v.data| + 2)
  }

  /** They come first in the free list. */
  lemma RoomAt(v: Volume, size: nat, k: nat)
    requires WellFormed(v, size) && k < |FreeList(v.fat)|
    ensures Room(v) <= FreeList(v.fat)
    ensures v.HasCluster(FreeList(v.fat)[k]) <==> k < |Room(v)|
  {
    FreeBelowSplit(v.fat, |v.data| + 2, |v.fat|);
    FreeAreData(v.fat);
    assert k < |Room(v)| ==> FreeList(v.fat)[k] == Room(v)[k];
  }

  lemma RoomIsFirst(v: Volume, size: nat, k: nat)
    requires WellFormed(v, size) && k <= |FreeList(v.fat)|
    ensures Room(v) <= FreeList(v.fat)
    ensures Holds(v, FreeList(v.fat)[..k]) <==> k <= |Room(v)|
  {
    FreeBelowSplit(v.fat, |v.data| + 2, |v.fat|);
    hide FreeBelow, FreeList, Room;
    var first := FreeList(v.fat)[..k];
    forall i | 0 <= i < k ensures v.HasCluster(first[i]) <==> i < |Room(v)| {
      RoomAt(v, size, i);
    }
    if |Room(v)| < k {
      assert !v.HasCluster(first[|Room(v)|]);
    }
  }

  lemma FreeAreData(fat: seq<nat>)
    requires 2 <= |fat| && fat[0] != 0 && fat[1] != 0
    ensures forall i :: 0 <= i < |FreeList(fat)| ==> 2 <= FreeList(fat)[i] < |fat|
  {
    forall i | 0 <= i < |FreeList(fat)| ensures 2 <= FreeList(fat)[i] < |fat| {
      assert fat[FreeList(fat)[i]] == 0;
    }
  }

  lemma PiecesUniform(v: Volume, size: nat, cs: seq<nat>)
    requires WellFormed(v, size) && Holds(v, cs)
    ensures Uniform(Pieces(v, cs), size)
    ensures |Content(v, cs)| == Span(|cs|, size)
  {
    hide Span, Flatten;
    FlattenLength(Pieces(v, cs), size);
  }

  lemma ContentSame(v: Volume, v': Volume, cs: seq<nat>)
    requires Holds(v, cs) && Holds(v', cs)
    requires forall i :: 0 <= i < |cs| ==> v'.Cluster(cs[i]) == v.Cluster(cs[i])
    ensures Content(v', cs) == Content(v, cs)
  {
    assert Pieces(v', cs) == Pieces(v, cs);
  }

  lemma ContentAppend(v: Volume, cs: seq<nat>, more: seq<nat>)
    requires Holds(v, cs + more)
    ensures Holds(v, cs) && Holds(v, more)
    ensures Content(v, cs + more) == Content(v, cs) + Content(v, more)
  {
    hide Flatten;
    assert Holds(v, cs) by {
      assert forall i :: 0 <= i < |cs| ==> (cs + more)[i] == cs[i];
    }
    assert Holds(v, more) by {
      assert forall i :: 0 <= i < |more| ==> (cs + more)[|cs| + i] == more[i];
    }
    assert Pieces(v, cs + more) == Pieces(v, cs) + Pieces(v, more);
    FlattenConcat(Pieces(v, cs), Pieces(v, more));
  }

  lemma ContentSingle(v: Volume, c: nat)
    requires v.HasCluster(c)
    ensures Holds(v, [c]) && Content(v, [c]) == v.Cluster(c)
  {
    assert Pieces(v, [c]) == [v.Cluster(c)];
    FlattenSingle(v.Cluster(c));
  }

  /** Overwriting bytes of one cluster of a chain overwrites them at that cluster's offset in the file. */
  lemma ContentWrite(v: Volume, size: nat, cs: seq<nat>, i: nat, at: nat, x: seq<Byte>)
    requires WellFormed(v, size) && Holds(v, cs) && Distinct(cs) && i < |cs| && at + |x| <= size
    ensures var v' := v.WithCluster(cs[i], Splice(v.Cluster(cs[i]), at, x));
      && WellFormed(v', size) && Holds(v', cs)
      && Span(i, size) + at + |x| <= |Content(v, cs)|
      && Content(v', cs) == Splice(Content(v, cs), Span(i, size) + at, x)
  {
    hide Span, Flatten;
    PiecesUniform(v, size, cs);
    var v' := v.WithCluster(cs[i], Splice(v.Cluster(cs[i]), at, x));
    FlattenSplice(Pieces(v, cs), size, i, at, x);
    assert Pieces(v', cs) == Pieces(v, cs)[i := v'.Cluster(cs[i])];
  }

  /** The bytes of the clusters `cs` are spliced with `x` at offset `at`; all other clusters and the root table are
      what they were. */
  ghost predicate Spliced(v: Volume, v': Volume, cs: seq<nat>, at: nat, x: seq<Byte>) {
    && Holds(v, cs) && Holds(v', cs)
    && |v'.fat| == |v.fat| && |v'.data| == |v.data| && v'.root == v.root
    && (forall c :: v.HasCluster(c) && c !in cs ==> v'.Cluster(c) == v.Cluster(c))
    && at + |x| <= |Content(v, cs)|
    && Content(v', cs) == Splice(Content(v, cs), at, x)
  }

  /** The relation between the volumes before and after the bytes `x` were written at offset `at` of the
      chain `cs`, which grew by `more`: the FAT links `more` behind `cs`, the grown file is spliced, and
      the rest of the volume is what it was. */
  ghost predicate Written(v: Volume, v': Volume, size: nat, cs: seq<nat>, more: seq<nat>, at: nat, x: seq<Byte>) {
    && WellFormed(v, size) && WellFormed(v', size)
    && GrownBy(v.fat, v'.fat, cs, more)
    && Spliced(v, v', cs + more, at, x)
    && v'.rest == v.rest
  }

  lemma WrittenNothing(v: Volume, size: nat, cs: seq<nat>, at: nat)
    requires WellFormed(v, size) && Stored(v, cs) && at <= Span(|cs|, size)
    ensures Written(v, v, size, cs, [], at, [])
  {
    hide Span, Flatten;
    assert cs + [] == cs;
    PiecesUniform(v, size, cs);
  }

  /** Overwriting the next bytes, which lie in cluster `i` of the chain. */
  lemma WrittenFurther(v: Volume, v1: Volume, size: nat, cs: seq<nat>, more: seq<nat>, at: nat, x: seq<Byte>,
                       i: nat, o: nat, y: seq<Byte>)
    requires Written(v, v1, size, cs, more, at, x) && i < |cs + more|
    requires at + |x| == Span(i, size) + o && o + |y| <= size
    ensures var c := (cs + more)[i];
      Written(v, v1.WithCluster(c, Splice(v1.Cluster(c), o, y)), size, cs, more, at, x + y)
  {
    hide Span, Flatten, Content, Linked, FreeList, IsChain;
    var all := cs + more;
    ChainIsAcyclic(v1.fat, all);
    ContentWrite(v1, size, all, i, o, y);
    PiecesUniform(v, size, all);
    PiecesUniform(v1, size, all);
    SpliceTwice(Content(v, all), at, x, y);
  }

  /** Linking the next free cluster leaves its old bytes behind what was written. */
  lemma WrittenGrow(v: Volume, v1: Volume, size: nat, cs: seq<nat>, more: seq<nat>, at: nat, x: seq<Byte>, c: nat)
    requires Written(v, v1, size, cs, more, at, x)
    requires FreeList(v1.fat) != [] && c == FreeList(v1.fat)[0] && v1.HasCluster(c)
    ensures c !in cs + more
    ensures Written(v, v1.(fat := Link(v1.fat, (cs + more)[|cs + more| - 1], c)), size, cs, more + [c], at, x)
  {
    hide Span, Flatten, Content, Link, Linked, FreeList;
    var all := cs + more;
    GrowOnce(v.fat, v1.fat, cs, more);
    var v2 := v1.(fat := Link(v1.fat, all[|all| - 1], c));
    assert cs + (more + [c]) == all + [c];
    GrownContent(v, v1, v2, all, c, at, x);
  }

  lemma GrownContent(v: Volume, v1: Volume, v2: Volume, all: seq<nat>, c: nat, at: nat, x: seq<Byte>)
    requires Holds(v, all) && Holds(v1, all) && v.HasCluster(c) && v1.HasCluster(c)
    requires v2 == v1.(fat := v2.fat) && |v2.fat| == |v1.fat| && v1.Cluster(c) == v.Cluster(c)
    requires at + |x| <= |Content(v, all)| && Content(v1, all) == Splice(Content(v, all), at, x)
    ensures Holds(v, all + [c]) && Holds(v2, all + [c])
    ensures at + |x| <= |Content(v, all + [c])|
    ensures Content(v2, all + [c]) == Splice(Content(v, all + [c]), at, x)
  {
    hide Flatten, Content;
    ContentAppend(v, all, [c]);
    ContentAppend(v2, all, [c]);
    ContentSame(v1, v2, all);
    ContentSame(v, v2, [c]);
    SplicePrefix(Content(v, all), Content(v, [c]), at, x);
  }

  /** Bytes of one cluster are bytes of the file. */
  lemma ClusterInContent(v: Volume, size: nat, cs: seq<nat>, i: nat, o: nat, count: nat)
    requires WellFormed(v, size) && Holds(v, cs) && i < |cs| && o + count <= size
    ensures |v.Cluster(cs[i])| == size && Span(i, size) + o + count <= |Content(v, cs)| == Span(|cs|, size)
    ensures Content(v, cs)[Span(i, size) + o..Span(i, size) + o + count] == v.Cluster(cs[i])[o..o + count]
  {
    hide Span, Flatten;
    PiecesUniform(v, size, cs);
    FlattenSplit(Pieces(v, cs), size, i);
    var whole, at := Content(v, cs), Span(i, size);
    assert whole[at..at + size][o..o + count] == whole[at + o..at + o + count];
  }

  /** The relation leaves nothing open: the volume after a write is one volume. */
  lemma WrittenIsDeterministic(v: Volume, v1: Volume, v2: Volume, size: nat, cs: seq<nat>, more: seq<nat>, at: nat,
                               x: seq<Byte>)
    requires Written(v, v1, size, cs, more, at, x) && Written(v, v2, size, cs, more, at, x)
    ensures v1 == v2
  {
    hide Span, Content, Linked, FreeList;
    forall c | v.HasCluster(c) ensures v1.Cluster(c) == v2.Cluster(c) {
      if c in cs + more {
        var i :| 0 <= i < |cs + more| && (cs + more)[i] == c;
        ClusterInContent(v1, size, cs + more, i, 0, size);
        ClusterInContent(v2, size, cs + more, i, 0, size);
        assert v1.Cluster(c)[0..size] == v2.Cluster(c)[0..size];
      }
    }
    assert forall i :: 0 <= i < |v.data| ==>
             v.HasCluster(i + 2) && v1.data[i] == v1.Cluster(i + 2) && v2.data[i] == v2.Cluster(i + 2);
    assert v1.data == v2.data;
  }

  /** The file after a write: its old bytes and the old bytes of the clusters appended, with the bytes
      written in place; reading the written range back gives the bytes written. */
  lemma WriteThenRead(v: Volume, v': Volume, size: nat, cs: seq<nat>, more: seq<nat>, at: nat, x: seq<Byte>)
    requires Written(v, v', size, cs, more, at, x)
    ensures Holds(v, cs) && Holds(v, more) && |Content(v, cs)| == Span(|cs|, size)
    ensures at + |x| <= |Content(v, cs) + Content(v, more)|
    ensures Content(v', cs + more) == Splice(Content(v, cs) + Content(v, more), at, x)
    ensures Content(v', cs + more)[at..at + |x|] == x
  {
    hide Span, Content, Linked, FreeList;
    ContentAppend(v, cs, more);
    PiecesUniform(v, size, cs);
  }

  /** Two writes in a row, the second where the first ended, are one write of both. In between anything may have
      happened to other clusters than those of the file and those it then grows by. */
  lemma WriteTwice(v: Volume, v1: Volume, w: Volume, v2: Volume, size: nat, cs: seq<nat>, more: seq<nat>,
                   further: seq<nat>, at: nat, x: seq<Byte>, y: seq<Byte>)
    requires Written(v, v1, size, cs, more, at, x) && Written(w, v2, size, cs + more, further, at + |x|, y)
    requires w.fat == v1.fat && |w.data| == |v1.data|
    requires forall c :: v1.HasCluster(c) && c in cs + more + further ==> w.Cluster(c) == v1.Cluster(c)
    ensures var all := cs + more + further;
      && Stored(v2, all) && Holds(v, all)
      && at + |x + y| <= |Content(v, all)| && Content(v2, all) == Splice(Content(v, all), at, x + y)
  {
    hide Span, Content, Linked, FreeBelow;
    var old', all := cs + more, cs + more + further;
    FurtherIsFree(v, v1, size, cs, more, further, at, x);
    ContentAppend(w, old', further);
    assert Holds(v, all) by {
      assert forall i :: 0 <= i < |all| ==> v.HasCluster(all[i]) by {
        assert forall i :: 0 <= i < |all| ==> w.HasCluster(all[i]);
      }
    }
    ContentAppend(v, old', further);
    ContentSame(v1, w, old');
    ContentSame(v, w, further);
    SplicePrefix(Content(v, old'), Content(v, further), at, x);
    SpliceTwice(Content(v, all), at, x, y);
  }

  /** Clusters free after a write were free before it, and hold what they held. */
  lemma FurtherIsFree(v: Volume, v1: Volume, size: nat, cs: seq<nat>, more: seq<nat>, further: seq<nat>, at: nat,
                      x: seq<Byte>)
    requires Written(v, v1, size, cs, more, at, x)
    requires |further| <= |FreeList(v1.fat)| && further == FreeList(v1.fat)[..|further|]
    ensures forall i :: 0 <= i < |further| && v1.HasCluster(further[i]) ==>
              v.HasCluster(further[i]) && v1.Cluster(further[i]) == v.Cluster(further[i])
  {
    hide Content, Linked, FreeBelow;
    InUse(v1.fat, cs + more);
    forall i | 0 <= i < |further| ensures further[i] !in cs + more {
      assert further[i] in FreeList(v1.fat);
    }
  }

  /** What is promised of the bytes written and the clusters appended, of the `n` bytes asked for. */
  ghost predicate Outcome(size: nat, len: nat, free: nat, at: nat, n: nat, written: nat, grown: nat) {
    && written <= n && grown <= free
    && at + written <= Span(len + grown, size)
    && (written < n ==> grown == free && at + written == Span(len + grown, size))
    && (0 < grown ==> Span(len + grown - 1, size) < at + written)
  }

  /** It determines both numbers: all bytes are written unless the free clusters run out, and no cluster
      is appended that holds none of them. */
  lemma OutcomeIsDetermined(size: nat, len: nat, free: nat, at: nat, n: nat, w1: nat, k1: nat, w2: nat, k2: nat)
    requires Outcome(size, len, free, at, n, w1, k1) && Outcome(size, len, free, at, n, w2, k2)
    ensures w1 == w2 && k1 == k2
  {
    if k1 < k2 {
      SpanOrder(len + k1, len + k2 - 1, size);
    } else if k2 < k1 {
      SpanOrder(len + k2, len + k1 - 1, size);
    }
  }

  /** Whether a write of `n` bytes at `at` stays within clusters that exist: `room` of the `free` ones do. */
  predicate Fits(size: nat, len: nat, room: nat, free: nat, at: nat, n: nat) {
    room == free || at + n <= Span(len + room, size)
  }

  /** It does exactly when no cluster is appended that does not exist. */
  lemma FitsIffRoom(size: nat, len: nat, room: nat, free: nat, at: nat, n: nat, written: nat, grown: nat)
    requires room <= free && Outcome(size, len, free, at, n, written, grown)
    ensures Fits(size, len, room, free, at, n) <==> grown <= room
  {
    if room < grown {
      SpanOrder(len + room, len + grown - 1, size);
    } else {
      SpanOrder(len + grown, len + room, size);
    }
  }

  /** What a write leaves that did not fit: the FAT links clusters that do not exist behind the file, and of the bytes
      only those are stored that the others hold. */
  ghost predicate Stranded(v: Volume, v': Volume, size: nat, cs: seq<nat>, more: seq<nat>, at: nat, buf: seq<Byte>) {
    && WellFormed(v, size) && WellFormed(v', size)
    && GrownBy(v.fat, v'.fat, cs, more) && |Room(v)| < |more|
    && at <= Span(|cs + Room(v)|, size) <= at + |buf|
    && Spliced(v, v', cs + Room(v), at, buf[..Span(|cs + Room(v)|, size) - at])
  }

  /** The file then has no bytes to read: its chain leads to a cluster that does not exist. */
  lemma StrandedIsNotStored(v: Volume, v': Volume, size: nat, cs: seq<nat>, more: seq<nat>, at: nat, buf: seq<Byte>)
    requires Stranded(v, v', size, cs, more, at, buf)
    ensures IsChain(v'.fat, cs + more) && !Stored(v', cs + more)
  {
    hide FreeList, Room, Linked, IsChain, Content, Span;
    RoomIsFirst(v, size, |more|);
    if Holds(v', cs + more) {
      forall i | 0 <= i < |more| ensures v.HasCluster(more[i]) {
        assert (cs + more)[|cs| + i] == more[i];
      }
    }
  }

  lemma SpanOrder(a: nat, b: nat, size: nat)
    requires a <= b
    ensures Span(a, size) <= Span(b, size)
  {
    SpanAdd(a, b - a, size);
  }
}
