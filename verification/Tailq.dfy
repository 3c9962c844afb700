/** The tail queue that every list of the kernel is built on, at the level of its pointers. */
module Tailq {
  import opened Bytes
  import SchedulerModel

  /** The address of a pointer to a node: what the previous-links and the tail of a queue hold. */
  datatype Pointer<!T(==)> = FirstOf(head: TailQueue<T>) | NextOf(node: Node<T>) | Nowhere

  class Node<T(==)> {
    const value: T
    var next: Node?<T>
    var prev: Pointer<T>

    constructor (value: T)
      ensures this.value == value
    {
      this.value := value;
      next := null;
      prev := Nowhere;
    }
  }

  lemma Added<T>(ns: seq<T>, k: nat, elm: T)
    requires Distinct(ns) && k <= |ns| && elm !in ns
    ensures Distinct(ns[..k] + [elm] + ns[k..])
  {
  }

  lemma Removed<T>(ns: seq<T>, k: nat)
    requires Distinct(ns) && k < |ns|
    ensures Distinct(ns[..k] + ns[k + 1..])
  {
  }

  /** The pointer that points at node `i` of a queue, or, past the last one, the pointer that ends it. */
  ghost function PointerAt<T>(head: TailQueue<T>, ns: seq<Node<T>>, i: nat): Pointer<T>
    requires i <= |ns|
  {
    if i == 0 then FirstOf(head) else NextOf(ns[i - 1])
  }

  ghost function NodeAt<T>(ns: seq<Node<T>>, i: nat): Node?<T>
    requires i <= |ns|
  {
    if i == |ns| then null else ns[i]
  }

  /** The links of what is left when node `k` is taken out. */
  lemma RemovedLinks<T>(head: TailQueue<T>, ns: seq<Node<T>>, k: nat, i: nat)
    requires k < |ns| && i < |ns| - 1
    ensures var ms, j := ns[..k] + ns[k + 1..], if i < k then i else i + 1;
      && ms[i] == ns[j]
      && PointerAt(head, ms, i) == (if j == k + 1 then PointerAt(head, ns, k) else PointerAt(head, ns, j))
      && NodeAt(ms, i + 1) == (if j == k - 1 then NodeAt(ns, k + 1) else NodeAt(ns, j + 1))
  {
  }

  lemma RemovedEnds<T>(head: TailQueue<T>, ns: seq<Node<T>>, k: nat)
    requires k < |ns|
    ensures var ms := ns[..k] + ns[k + 1..];
      && NodeAt(ms, 0) == (if k == 0 then NodeAt(ns, 1) else NodeAt(ns, 0))
      && PointerAt(head, ms, |ms|) == (if k == |ms| then PointerAt(head, ns, k) else PointerAt(head, ns, |ns|))
  {
  }

  lemma AddedLinks<T>(head: TailQueue<T>, ns: seq<Node<T>>, k: nat, elm: Node<T>, i: nat)
    requires k <= |ns| && i <= |ns|
    ensures var ms := ns[..k] + [elm] + ns[k..];
      && (i < k ==> ms[i] == ns[i] && PointerAt(head, ms, i) == PointerAt(head, ns, i)
                    && NodeAt(ms, i + 1) == if i == k - 1 then elm else NodeAt(ns, i + 1))
      && (i == k ==>
            && ms[i] == elm && PointerAt(head, ms, i) == PointerAt(head, ns, i)
            && NodeAt(ms, i + 1) == NodeAt(ns, i))
      && (k < i ==> ms[i] == ns[i - 1] && NodeAt(ms, i + 1) == NodeAt(ns, i)
                    && PointerAt(head, ms, i) == if i - 1 == k then NextOf(elm) else PointerAt(head, ns, i - 1))
  {
  }

  lemma AddedEnds<T>(head: TailQueue<T>, ns: seq<Node<T>>, k: nat, elm: Node<T>)
    requires k <= |ns|
    ensures var ms := ns[..k] + [elm] + ns[k..];
      && NodeAt(ms, 0) == (if k == 0 then elm else NodeAt(ns, 0))
      && PointerAt(head, ms, |ms|) == (if k == |ns| then NextOf(elm) else PointerAt(head, ns, |ns|))
  {
  }

  /** The nodes on both sides of a position are no others. */
  lemma Around<T>(ns: seq<T>, k: nat)
    requires Distinct(ns) && k <= |ns|
    ensures k < |ns| ==> forall i :: 0 <= i < |ns| && i != k ==> ns[i] != ns[k]
    ensures 0 < k ==> forall i :: 0 <= i < |ns| && i != k - 1 ==> ns[i] != ns[k - 1]
  {
  }

  lemma Ends<T>(head: TailQueue<T>, ns: seq<Node<T>>)
    ensures NodeAt(ns, |ns|) == null && PointerAt(head, ns, 0) == FirstOf(head)
  {
  }

  lemma Start<T>(ns: seq<Node<T>>)
    ensures NodeAt(ns, 0) == if ns == [] then null else ns[0]
  {
  }

  lemma NextTo<T>(head: TailQueue<T>, ns: seq<Node<T>>, k: nat)
    requires k <= |ns|
    ensures k == |ns| <==> NodeAt(ns, k) == null
    ensures k < |ns| ==> NodeAt(ns, k) == ns[k] && PointerAt(head, ns, k + 1) == NextOf(ns[k])
  {
  }

  lemma JoinedLinks<T>(head: TailQueue<T>, other: TailQueue<T>, ns: seq<Node<T>>, ms: seq<Node<T>>, i: nat)
    requires ms != [] && i < |ns| + |ms|
    ensures i < |ns| ==>
      && (ns + ms)[i] == ns[i] && PointerAt(head, ns + ms, i) == PointerAt(head, ns, i)
      && NodeAt(ns + ms, i + 1) == (if i == |ns| - 1 then ms[0] else NodeAt(ns, i + 1))
    ensures |ns| <= i ==> var j := i - |ns|;
      && (ns + ms)[i] == ms[j] && NodeAt(ns + ms, i + 1) == NodeAt(ms, j + 1)
      && PointerAt(head, ns + ms, i) == (if j == 0 then PointerAt(head, ns, |ns|) else PointerAt(other, ms, j))
  {
  }

  lemma JoinedEnds<T>(head: TailQueue<T>, other: TailQueue<T>, ns: seq<Node<T>>, ms: seq<Node<T>>)
    requires ms != []
    ensures NodeAt(ns + ms, 0) == (if |ns| == 0 then ms[0] else NodeAt(ns, 0))
    ensures PointerAt(head, ns + ms, |ns + ms|) == PointerAt(other, ms, |ms|)
  {
  }

  lemma Joined<T>(ns: seq<T>, ms: seq<T>)
    requires Distinct(ns) && Distinct(ms) && forall n :: n in ns ==> n !in ms
    ensures Distinct(ns + ms) && ns + [] == ns
    ensures forall i, j :: 0 <= i < |ns| && 0 <= j < |ms| ==> ns[i] != ms[j]
  {
    forall i, j | 0 <= i < |ns| && 0 <= j < |ms| ensures ns[i] != ms[j] {
      assert ns[i] in ns && ms[j] in ms;
    }
  }

  class TailQueue<T(==)> {
    var first: Node?<T>
    var last: Pointer<T>
    ghost var nodes: seq<Node<T>>

    /** Following the pointers gives the nodes in order, every previous-link addresses the pointer that points at
        its node, and the tail addresses the final next-pointer. */
    ghost predicate Valid()
      reads this, nodes
    {
      && Distinct(nodes)
      && first == NodeAt(nodes, 0)
      && last == PointerAt(this, nodes, |nodes|)
      && (forall i :: 0 <= i < |nodes| ==>
            nodes[i].prev == PointerAt(this, nodes, i) && nodes[i].next == NodeAt(nodes, i + 1))
    }

    constructor ()
      ensures Valid() && nodes == []
    {
      first := null;
      last := Nowhere;
      nodes := [];
      new;
      last := FirstOf(this);
    }

    /** `elm` is linked in before position `k` of the queue that was. */
    ghost predicate LinkedIn(was: seq<Node<T>>, k: nat, elm: Node<T>)
      requires k <= |was|
      reads this, was, elm
    {
      && first == (if k == 0 then elm else NodeAt(was, 0))
      && last == (if k == |was| then NextOf(elm) else PointerAt(this, was, |was|))
      && elm.prev == PointerAt(this, was, k) && elm.next == NodeAt(was, k)
      && (forall i :: 0 <= i < |was| ==> was[i].prev == if i == k then NextOf(elm) else PointerAt(this, was, i))
      && (forall i :: 0 <= i < |was| ==> was[i].next == if i == k - 1 then elm else NodeAt(was, i + 1))
    }

    lemma LinkedInValid(was: seq<Node<T>>, k: nat, elm: Node<T>)
      requires k <= |was| && LinkedIn(was, k, elm) && Distinct(was) && elm !in was
      requires nodes == was[..k] + [elm] + was[k..]
      ensures Valid()
    {
      hide PointerAt, NodeAt, Distinct;
      Added(was, k, elm);
      AddedEnds(this, was, k, elm);
      forall i | 0 <= i < |nodes|
        ensures nodes[i].prev == PointerAt(this, nodes, i) && nodes[i].next == NodeAt(nodes, i + 1)
      {
        AddedLinks(this, was, k, elm, i);
      }
    }

    /** `*pointer = n`, for the pointer that points at position `k` of the queue that was. */
    method Store(pointer: Pointer<T>, n: Node?<T>, ghost was: seq<Node<T>>, ghost k: nat)
      requires Distinct(was) && k <= |was| && pointer == PointerAt(this, was, k)
      requires first == NodeAt(was, 0) && forall i :: 0 <= i < |was| ==> was[i].next == NodeAt(was, i + 1)
      modifies this`first, was`next
      ensures first == if k == 0 then n else NodeAt(was, 0)
      ensures forall i :: 0 <= i < |was| ==> was[i].next == if i == k - 1 then n else NodeAt(was, i + 1)
    {
      hide Distinct;
      Around(was, k);
      if pointer.FirstOf? {
        pointer.head.first := n;
      } else {
        pointer.node.next := n;
      }
    }

    /** The node at position `k` of the queue that was, or past its last one the queue itself, is told that `pointer`
        points at it. */
    method PointBack(n: Node?<T>, pointer: Pointer<T>, ghost was: seq<Node<T>>, ghost k: nat)
      requires Distinct(was) && k <= |was| && n == NodeAt(was, k)
      requires last == PointerAt(this, was, |was|)
      requires forall i :: 0 <= i < |was| ==> was[i].prev == PointerAt(this, was, i)
      modifies this`last, was`prev
      ensures last == if k == |was| then pointer else PointerAt(this, was, |was|)
      ensures forall i :: 0 <= i < |was| ==> was[i].prev == if i == k then pointer else PointerAt(this, was, i)
    {
      hide Distinct;
      Around(was, k);
      if n != null {
        n.prev := pointer;
      } else {
        last := pointer;
      }
    }

    method InsertTail(elm: Node<T>)
      requires Valid() && elm !in nodes
      modifies this, nodes, elm
      ensures Valid() && nodes == old(nodes) + [elm]
    {
      hide Distinct, PointerAt, NodeAt;
      ghost var was := nodes;
      Ends(this, was);
      elm.next := null;
      elm.prev := last;
      Store(last, elm, was, |was|);
      last := NextOf(elm);
      nodes := was[..|was|] + [elm] + was[|was|..];
      LinkedInValid(was, |was|, elm);
    }

    method InsertHead(elm: Node<T>)
      requires Valid() && elm !in nodes
      modifies this, nodes, elm
      ensures Valid() && nodes == [elm] + old(nodes)
    {
      hide Distinct, PointerAt, NodeAt;
      ghost var was := nodes;
      Ends(this, was);
      elm.next := first;
      PointBack(first, NextOf(elm), was, 0);
      first := elm;
      elm.prev := FirstOf(this);
      nodes := was[..0] + [elm] + was[0..];
      LinkedInValid(was, 0, elm);
    }

    method InsertAfter(listelm: Node<T>, elm: Node<T>, ghost k: nat)
      requires Valid() && elm !in nodes && k < |nodes| && nodes[k] == listelm
      modifies this, nodes, elm
      ensures Valid() && nodes == old(nodes[..k + 1] + [elm] + nodes[k + 1..])
    {
      hide Distinct, PointerAt, NodeAt;
      ghost var was := nodes;
      NextTo(this, was, k);
      elm.next := listelm.next;
      PointBack(elm.next, NextOf(elm), was, k + 1);
      Store(NextOf(listelm), elm, was, k + 1);
      elm.prev := NextOf(listelm);
      nodes := was[..k + 1] + [elm] + was[k + 1..];
      LinkedInValid(was, k + 1, elm);
    }

    method InsertBefore(listelm: Node<T>, elm: Node<T>, ghost k: nat)
      requires Valid() && elm !in nodes && k < |nodes| && nodes[k] == listelm
      modifies this, nodes, elm
      ensures Valid() && nodes == old(nodes[..k] + [elm] + nodes[k..])
    {
      hide Distinct, PointerAt, NodeAt;
      ghost var was := nodes;
      NextTo(this, was, k);
      elm.prev := listelm.prev;
      elm.next := listelm;
      Store(listelm.prev, elm, was, k);
      PointBack(listelm, NextOf(elm), was, k);
      nodes := was[..k] + [elm] + was[k..];
      LinkedInValid(was, k, elm);
    }

    /** Node `k` of the queue that was is linked around. */
    ghost predicate LinkedOut(was: seq<Node<T>>, k: nat)
      requires k < |was|
      reads this, was
    {
      && first == (if k == 0 then NodeAt(was, 1) else NodeAt(was, 0))
      && last == (if k == |was| - 1 then PointerAt(this, was, k) else PointerAt(this, was, |was|))
      && (forall i :: 0 <= i < |was| ==>
            was[i].prev == if i == k + 1 then PointerAt(this, was, k) else PointerAt(this, was, i))
      && (forall i :: 0 <= i < |was| ==> was[i].next == if i == k - 1 then NodeAt(was, k + 1) else NodeAt(was, i + 1))
    }

    lemma LinkedOutValid(was: seq<Node<T>>, k: nat)
      requires k < |was| && LinkedOut(was, k) && Distinct(was)
      requires nodes == was[..k] + was[k + 1..]
      ensures Valid()
    {
      hide PointerAt, NodeAt, Distinct;
      Removed(was, k);
      RemovedEnds(this, was, k);
      forall i | 0 <= i < |nodes|
        ensures nodes[i].prev == PointerAt(this, nodes, i) && nodes[i].next == NodeAt(nodes, i + 1)
      {
        RemovedLinks(this, was, k, i);
      }
    }

    /** The element keeps its own links, which is what lets a traversal step on from it. */
    method Remove(elm: Node<T>, ghost k: nat)
      requires Valid() && k < |nodes| && nodes[k] == elm
      modifies this, nodes
      ensures Valid() && nodes == old(nodes[..k] + nodes[k + 1..])
      ensures elm.next == old(elm.next)
    {
      hide Distinct, PointerAt, NodeAt;
      ghost var was := nodes;
      NextTo(this, was, k);
      PointBack(elm.next, elm.prev, was, k + 1);
      Store(elm.prev, elm.next, was, k);
      nodes := was[..k] + was[k + 1..];
      LinkedOutValid(was, k);
    }

    /** `more`, until now the nodes of `other`, is linked in behind `was`. */
    ghost predicate LinkedOn(other: TailQueue<T>, was: seq<Node<T>>, more: seq<Node<T>>)
      requires more != []
      reads this, was, more
    {
      && first == (if |was| == 0 then more[0] else NodeAt(was, 0))
      && last == PointerAt(other, more, |more|)
      && (forall i :: 0 <= i < |was| ==> was[i].prev == PointerAt(this, was, i))
      && (forall i :: 0 <= i < |was| ==> was[i].next == if i == |was| - 1 then more[0] else NodeAt(was, i + 1))
      && (forall i :: 0 <= i < |more| ==>
            more[i].prev == if i == 0 then PointerAt(this, was, |was|) else PointerAt(other, more, i))
      && (forall i :: 0 <= i < |more| ==> more[i].next == NodeAt(more, i + 1))
    }

    lemma LinkedOnValid(other: TailQueue<T>, was: seq<Node<T>>, more: seq<Node<T>>)
      requires more != [] && LinkedOn(other, was, more) && Distinct(was + more)
      requires nodes == was + more
      ensures Valid()
    {
      hide PointerAt, NodeAt, Distinct;
      JoinedEnds(this, other, was, more);
      forall i | 0 <= i < |nodes|
        ensures nodes[i].prev == PointerAt(this, nodes, i) && nodes[i].next == NodeAt(nodes, i + 1)
      {
        JoinedLinks(this, other, was, more, i);
      }
    }

    /** Moves everything in `other` to the end of this queue. */
    method Concat(other: TailQueue<T>)
      requires Valid() && other.Valid() && other != this
      requires forall n :: n in nodes ==> n !in other.nodes
      modifies this, nodes, other, other.nodes
      ensures Valid() && nodes == old(nodes) + old(other.nodes)
      ensures other.Valid() && other.nodes == []
    {
      hide Distinct, PointerAt, NodeAt;
      ghost var was, more := nodes, other.nodes;
      Joined(was, more);
      Start(more);
      if other.first != null {
        Store(last, other.first, was, |was|);
        other.PointBack(other.first, last, more, 0);
        last := other.last;
        other.Init();
        nodes := was + more;
        LinkedOnValid(other, was, more);
      }
    }

    method Init()
      modifies this
      ensures Valid() && nodes == []
    {
      first := null;
      last := FirstOf(this);
      nodes := [];
    }

    /** `TAILQ_FOREACH` that removes every element with a given value, stepping on from the removed one. */
    method RemoveMatching(value: T)
      requires Valid()
      modifies this, nodes
      ensures Valid() && nodes == Unmatched(old(nodes), value)
    {
      hide Distinct, PointerAt, NodeAt, Unmatched;
      ghost var was, j, k := nodes, 0, 0;
      var item := first;
      Start(was);
      UnmatchedNone(was, value);
      while item != null
        invariant Valid() && k <= |nodes| && item == NodeAt(nodes, k)
        invariant Sifted(nodes, k, was, j, value)
        invariant forall i :: 0 <= i < |nodes| ==> nodes[i] in old(nodes)
        decreases |was| - j
      {
        NextTo(this, nodes, k);
        SiftNext(nodes, k, was, j, value);
        if item.value == value {
          Remove(item, k);
        } else {
          k := k + 1;
        }
        j := j + 1;
        item := item.next;
      }
      SiftEnd(nodes, k, was, j, value);
    }
  }

  /** Of the queue `was`, the first `j` nodes have been gone through, which left the first `k` of `ns`. */
  ghost predicate Sifted<T>(ns: seq<Node<T>>, k: nat, was: seq<Node<T>>, j: nat, value: T) {
    k <= |ns| && j <= |was| && ns[..k] == Unmatched(was[..j], value) && ns[k..] == was[j..]
  }

  lemma SiftNext<T>(ns: seq<Node<T>>, k: nat, was: seq<Node<T>>, j: nat, value: T)
    requires Sifted(ns, k, was, j, value) && k < |ns|
    ensures j < |was|
    ensures ns[k].value != value ==> Sifted(ns, k + 1, was, j + 1, value)
    ensures ns[k].value == value ==>
              var ms := ns[..k] + ns[k + 1..]; Sifted(ms, k, was, j + 1, value) && NodeAt(ms, k) == NodeAt(ns, k + 1)
  {
    assert ns[k] == ns[k..][0] == was[j];
    UnmatchedNext(was, j, value);
    assert ns[k + 1..] == ns[k..][1..] == was[j + 1..];
    assert ns[..k + 1] == ns[..k] + [ns[k]];
  }

  lemma SiftEnd<T>(ns: seq<Node<T>>, k: nat, was: seq<Node<T>>, j: nat, value: T)
    requires Sifted(ns, k, was, j, value) && NodeAt(ns, k) == null
    ensures ns == Unmatched(was, value)
  {
    assert ns[..k] == ns && was[..j] == was;
  }

  lemma UnmatchedNone<T>(was: seq<Node<T>>, value: T)
    ensures Sifted(was, 0, was, 0, value)
  {
    assert was[..0] == [] && was[0..] == was;
  }

  /** The nodes without those of a value, in order. */
  ghost function Unmatched<T>(ns: seq<Node<T>>, value: T): seq<Node<T>> {
    if ns == [] then []
    else if ns[|ns| - 1].value == value then Unmatched(ns[..|ns| - 1], value)
    else Unmatched(ns[..|ns| - 1], value) + [ns[|ns| - 1]]
  }

  lemma UnmatchedNext<T>(ns: seq<Node<T>>, j: nat, value: T)
    requires j < |ns|
    ensures Unmatched(ns[..j + 1], value) == Unmatched(ns[..j], value) + if ns[j].value == value then [] else [ns[j]]
  {
    assert ns[..j + 1][..j] == ns[..j];
  }

  function Values<T>(ns: seq<Node<T>>): seq<T> {
    seq(|ns|, i requires 0 <= i < |ns| => ns[i].value)
  }

  /** On a queue of pids that is what the scheduler's removal means. */
  lemma {:induction false} UnmatchedIsWithout(ns: seq<Node<int>>, pid: int)
    ensures Values(Unmatched(ns, pid)) == SchedulerModel.Without(Values(ns), pid)
  {
    if ns != [] {
      var n := |ns| - 1;
      UnmatchedIsWithout(ns[..n], pid);
      WithoutAppend(Values(ns[..n]), ns[n].value, pid);
      assert Values(ns) == Values(ns[..n]) + [ns[n].value];
    }
  }

  lemma {:induction false} WithoutAppend(q: seq<int>, x: int, pid: int)
    ensures SchedulerModel.Without(q + [x], pid) == SchedulerModel.Without(q, pid) + if x == pid then [] else [x]
  {
    if q == [] {
      assert [x][1..] == [];
    } else {
      assert (q + [x])[1..] == q[1..] + [x];
      WithoutAppend(q[1..], x, pid);
    }
  }
}
