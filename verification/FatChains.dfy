/** Cluster chains in the successor map, the free clusters, and linking clusters to the end of a chain. */
module FatChains {
  import opened Bytes
  import opened FatLayout

  /** `cs` is the chain that starts at its first cluster: every cluster is in the data region, each
      entry names the next one, and the last entry ends the chain. */
  ghost predicate IsChain(fat: seq<nat>, cs: seq<nat>) {
    && cs != [] && |fat| <= CHAIN_END
    && (forall i :: 0 <= i < |cs| ==> 2 <= cs[i] < |fat|)
    && (forall i :: 0 <= i < |cs| - 1 ==> fat[cs[i]] == cs[i + 1])
    && CHAIN_END <= fat[cs[|cs| - 1]]
  }

  /** A chain that ends never comes back to a cluster. */
  lemma ChainIsAcyclic(fat: seq<nat>, cs: seq<nat>)
    requires IsChain(fat, cs)
    ensures Distinct(cs)
  {
    forall i, j | 0 <= i < j < |cs| ensures cs[i] != cs[j] {
      if cs[i] == cs[j] {
        SameSuffix(fat, cs, i, j);
      }
    }
  }

  lemma {:induction false} SameSuffix(fat: seq<nat>, cs: seq<nat>, i: nat, j: nat)
    requires IsChain(fat, cs) && i < j < |cs| && cs[i] == cs[j]
    ensures false
    decreases |cs| - j
  {
    assert cs[i + 1] == fat[cs[i]];
    if j < |cs| - 1 {
      assert cs[j + 1] == fat[cs[j]];
      SameSuffix(fat, cs, i + 1, j + 1);
    }
  }

  /** A cluster starts at most one chain. */
  lemma {:induction false} ChainIsUnique(fat: seq<nat>, a: seq<nat>, b: seq<nat>)
    requires IsChain(fat, a) && IsChain(fat, b) && a[0] == b[0]
    ensures a == b
  {
    assert |a| > 1 ==> fat[a[0]] == a[1];
    assert |b| > 1 ==> fat[b[0]] == b[1];
    if |a| > 1 && |b| > 1 {
      ChainTail(fat, a);
      ChainTail(fat, b);
      ChainIsUnique(fat, a[1..], b[1..]);
      assert a == [a[0]] + a[1..] && b == [b[0]] + b[1..];
    }
  }

  lemma ChainTail(fat: seq<nat>, cs: seq<nat>)
    requires IsChain(fat, cs) && 1 < |cs|
    ensures IsChain(fat, cs[1..])
  {
    forall i | 0 <= i < |cs| - 2 ensures fat[cs[1..][i]] == cs[1..][i + 1] {
      assert fat[cs[i + 1]] == cs[i + 2];
    }
  }

  /** Distinct numbers below a bound are no more than the bound. */
  lemma DistinctBounded(s: seq<nat>, bound: nat)
    requires Distinct(s) && forall i :: 0 <= i < |s| ==> s[i] < bound
    ensures |s| <= bound
  {
    DistinctSize(s);
    BoundedSize(Elements(s), bound);
  }

  ghost function Elements(s: seq<nat>): set<nat> {
    set x | x in s
  }

  lemma {:induction false} DistinctSize(s: seq<nat>)
    requires Distinct(s)
    ensures |Elements(s)| == |s|
  {
    if s != [] {
      var init, last := s[..|s| - 1], s[|s| - 1];
      DistinctSize(init);
      assert s == init + [last];
      assert Elements(s) == Elements(init) + {last};
    }
  }

  lemma {:induction false} BoundedSize(a: set<nat>, bound: nat)
    requires forall x :: x in a ==> x < bound
    ensures |a| <= bound
  {
    if bound == 0 {
      assert a == {};
    } else {
      BoundedSize(a - {bound - 1}, bound - 1);
    }
  }

  /** A chain has fewer than 2^16 clusters. */
  lemma ChainLength(fat: seq<nat>, cs: seq<nat>)
    requires IsChain(fat, cs)
    ensures |cs| <= |fat|
  {
    ChainIsAcyclic(fat, cs);
    DistinctBounded(cs, |fat|);
  }

  /** The free clusters in increasing order. */
  ghost function FreeList(fat: seq<nat>): (free: seq<nat>)
    ensures forall i :: 0 <= i < |free| ==> free[i] < |fat| && fat[free[i]] == 0
    ensures Distinct(free)
    ensures forall c :: 0 <= c < |fat| && fat[c] == 0 ==> c in free
  {
    FreeBelow(fat, |fat|)
  }

  ghost function FreeBelow(fat: seq<nat>, n: nat): (free: seq<nat>)
    requires n <= |fat|
    ensures forall i :: 0 <= i < |free| ==> free[i] < n && fat[free[i]] == 0
    ensures Distinct(free)
    ensures forall c :: 0 <= c < n && fat[c] == 0 ==> c in free
  {
    if n == 0 then []
    else if fat[n - 1] == 0 then FreeBelow(fat, n - 1) + [n - 1]
    else FreeBelow(fat, n - 1)
  }

  /** What the free search finds is the head of the free list. */
  lemma FirstFreeIsHead(fat: seq<nat>, c: nat)
    requires 2 <= |fat| && fat[0] != 0 && fat[1] != 0
    requires IsFirstFree(fat, c)
    ensures c < 2 <==> FreeList(fat) == []
    ensures 2 <= c ==> c == FreeList(fat)[0]
  {
    assert FreeList(fat) != [] ==> fat[FreeList(fat)[0]] == 0;
    if 2 <= c {
      HeadIsLeast(fat, c, |fat|);
    }
  }

  lemma {:induction false} NoneBelow(fat: seq<nat>, c: nat)
    requires c <= |fat| && forall d :: 0 <= d < c ==> fat[d] != 0
    ensures FreeBelow(fat, c) == []
  {
    if c != 0 {
      NoneBelow(fat, c - 1);
    }
  }

  lemma {:induction false} HeadIsLeast(fat: seq<nat>, c: nat, n: nat)
    requires c < n <= |fat| && fat[c] == 0 && forall d :: 0 <= d < c ==> fat[d] != 0
    ensures FreeBelow(fat, n) != [] && FreeBelow(fat, n)[0] == c
  {
    if c < n - 1 {
      HeadIsLeast(fat, c, n - 1);
    } else {
      NoneBelow(fat, c);
    }
  }

  /** Using the first free cluster removes the head of the free list. */
  lemma {:induction false} FreeBelowTake(fat: seq<nat>, c: nat, successor: nat, n: nat)
    requires c < n <= |fat| && fat[c] == 0 && successor != 0
    requires forall d :: 0 <= d < c ==> fat[d] != 0
    ensures FreeBelow(fat, n) != []
    ensures FreeBelow(fat[c := successor], n) == FreeBelow(fat, n)[1..]
  {
    HeadIsLeast(fat, c, n);
    if c < n - 1 {
      HeadIsLeast(fat, c, n - 1);
      FreeBelowTake(fat, c, successor, n - 1);
      DropHead(FreeBelow(fat, n - 1), if fat[n - 1] == 0 then [n - 1] else []);
    } else {
      TakeLast(fat, c, successor);
    }
  }

  lemma DropHead(a: seq<nat>, b: seq<nat>)
    requires a != []
    ensures (a + b)[1..] == a[1..] + b && a[1..] + [] == a[1..] && a + [] == a
  {
  }

  lemma TakeLast(fat: seq<nat>, c: nat, successor: nat)
    requires c < |fat| && fat[c] == 0 && successor != 0 && forall d :: 0 <= d < c ==> fat[d] != 0
    ensures FreeBelow(fat[c := successor], c + 1) == [] && FreeBelow(fat, c + 1) == [c]
  {
    NoneBelow(fat, c);
    NoneBelow(fat[c := successor], c + 1);
  }

  /** Changing an entry that is in use to another used value keeps the free list. */
  lemma {:induction false} FreeBelowKeep(fat: seq<nat>, c: nat, successor: nat, n: nat)
    requires n <= |fat| && c < |fat| && fat[c] != 0 && successor != 0
    ensures FreeBelow(fat[c := successor], n) == FreeBelow(fat, n)
  {
    if n != 0 {
      FreeBelowKeep(fat, c, successor, n - 1);
    }
  }

  /** One cluster linked behind `last` and marked as the new end. */
  function Link(fat: seq<nat>, last: nat, c: nat): (r: seq<nat>)
    requires last < |fat| && c < |fat|
    ensures |r| == |fat|
  {
    fat[last := c][c := LAST_CLUSTER]
  }

  /** Taking the first free cluster onto the end of a chain: the chain grows by it, the free list loses
      its head, and no entry but those two changes. */
  lemma LinkFirstFree(fat: seq<nat>, cs: seq<nat>)
    requires IsChain(fat, cs) && FreeList(fat) != [] && fat[0] != 0 && fat[1] != 0
    ensures var c := FreeList(fat)[0]; var fat' := Link(fat, cs[|cs| - 1], c);
      && c !in cs && 2 <= c
      && IsChain(fat', cs + [c])
      && FreeList(fat') == FreeList(fat)[1..]
      && fat'[0] != 0 && fat'[1] != 0
      && forall d :: 0 <= d < |fat| && d != c && d != cs[|cs| - 1] ==> fat'[d] == fat[d]
  {
    var c := FreeList(fat)[0];
    var last := cs[|cs| - 1];
    var fat' := Link(fat, last, c);
    InUse(fat, cs);
    ChainIsAcyclic(fat, cs);
    FreeIsLeast(fat);
    FreeBelowKeep(fat, last, c, |fat|);
    assert FreeBelow(fat[last := c], |fat|) == FreeBelow(fat, |fat|);
    FreeBelowTake(fat[last := c], c, LAST_CLUSTER, |fat|);
    var longer := cs + [c];
    forall i | 0 <= i < |longer| - 1 ensures fat'[longer[i]] == longer[i + 1] {
      if i < |cs| - 1 {
        assert fat[cs[i]] == cs[i + 1];
      }
    }
  }

  /** The head of the free list is the least free cluster. */
  lemma FreeIsLeast(fat: seq<nat>)
    requires FreeList(fat) != []
    ensures forall d :: 0 <= d < FreeList(fat)[0] ==> fat[d] != 0
  {
    var c := FreeList(fat)[0];
    if d :| 0 <= d < c && fat[d] == 0 {
      var least := LeastFree(fat, d);
      HeadIsLeast(fat, least, |fat|);
    }
  }

  lemma {:induction false} LeastFree(fat: seq<nat>, d: nat) returns (c: nat)
    requires d < |fat| && fat[d] == 0
    ensures c <= d && fat[c] == 0 && forall e :: 0 <= e < c ==> fat[e] != 0
  {
    if e :| 0 <= e < d && fat[e] == 0 {
      c := LeastFree(fat, e);
    } else {
      c := d;
    }
  }

  /** No cluster of a chain is free. */
  lemma InUse(fat: seq<nat>, cs: seq<nat>)
    requires IsChain(fat, cs)
    ensures forall i :: 0 <= i < |cs| ==> fat[cs[i]] != 0
    ensures forall c :: c in cs ==> c !in FreeList(fat)
  {
    forall i | 0 <= i < |cs| ensures fat[cs[i]] != 0 {
      if i < |cs| - 1 {
        assert fat[cs[i]] == cs[i + 1];
      }
    }
  }

  /** Least index holding zero, or 0 when every entry is used. */
  ghost predicate IsFirstFree(fat: seq<nat>, c: nat) {
    if exists d :: 0 <= d < |fat| && fat[d] == 0
    then c < |fat| && fat[c] == 0 && forall d :: 0 <= d < c ==> fat[d] != 0
    else c == 0
  }

  /** The FAT after linking `more`, one cluster after the other, behind `last`. */
  ghost function Linked(fat: seq<nat>, last: nat, more: seq<nat>): (r: seq<nat>)
    requires last < |fat| && forall i :: 0 <= i < |more| ==> more[i] < |fat|
    ensures |r| == |fat|
  {
    if more == [] then fat
    else
      var init := more[..|more| - 1];
      Link(Linked(fat, last, init), if init == [] then last else init[|init| - 1], more[|more| - 1])
  }

  lemma LinkedGrow(fat: seq<nat>, cs: seq<nat>, more: seq<nat>, c: nat)
    requires cs != [] && c < |fat| && forall i :: 0 <= i < |cs + more| ==> (cs + more)[i] < |fat|
    ensures cs[|cs| - 1] < |fat| && forall i :: 0 <= i < |more| ==> more[i] < |fat|
    ensures Linked(fat, cs[|cs| - 1], more + [c])
         == Link(Linked(fat, cs[|cs| - 1], more), (cs + more)[|cs + more| - 1], c)
  {
    hide Link;
    var all := cs + more;
    assert all[|cs| - 1] == cs[|cs| - 1];
    forall i | 0 <= i < |more| ensures more[i] < |fat| {
      assert more[i] == all[|cs| + i];
    }
    assert (more + [c])[..|more|] == more;
    assert more != [] ==> all[|all| - 1] == more[|more| - 1];
  }

  /** From `fat` to `fat'` the chain `cs` grew by `more`, the first so many free clusters, and nothing else changed. */
  ghost predicate GrownBy(fat: seq<nat>, fat': seq<nat>, cs: seq<nat>, more: seq<nat>) {
    && IsChain(fat, cs) && fat[0] != 0 && fat[1] != 0
    && |more| <= |FreeList(fat)| && more == FreeList(fat)[..|more|]
    && (forall i :: 0 <= i < |more| ==> more[i] < |fat|)
    && fat' == Linked(fat, cs[|cs| - 1], more)
    && IsChain(fat', cs + more) && fat'[0] != 0 && fat'[1] != 0
    && FreeList(fat') == FreeList(fat)[|more|..]
  }

  /** Linking the next free cluster. */
  lemma GrowOnce(fat: seq<nat>, fat': seq<nat>, cs: seq<nat>, more: seq<nat>)
    requires GrownBy(fat, fat', cs, more) && FreeList(fat') != []
    ensures cs + more != []
    ensures var c := FreeList(fat')[0]; var last := (cs + more)[|cs + more| - 1];
      && last < |fat'| && c < |fat'| && 2 <= c && c !in cs + more
      && |more| < |FreeList(fat)| && c == FreeList(fat)[|more|]
      && GrownBy(fat, Link(fat', last, c), cs, more + [c])
  {
    hide Link, Linked, FreeBelow;
    var all, c := cs + more, FreeList(fat')[0];
    LinkFirstFree(fat', all);
    assert cs + (more + [c]) == all + [c];
    LinkedGrow(fat, cs, more, c);
    assert more + [c] == FreeList(fat)[..|more| + 1];
  }

  /** The free clusters below a bound come first, and the others are not below it. */
  lemma {:induction false} FreeBelowSplit(fat: seq<nat>, m: nat, n: nat)
    requires m <= n <= |fat|
    ensures FreeBelow(fat, m) <= FreeBelow(fat, n)
    ensures forall i :: |FreeBelow(fat, m)| <= i < |FreeBelow(fat, n)| ==> m <= FreeBelow(fat, n)[i]
  {
    if m < n {
      FreeBelowSplit(fat, m, n - 1);
    }
  }
}
