/** Directory tables as byte sequences: 32-byte slots, what they list, and how adding and updating change them. */
module FatDirectory {
  import opened Bytes
  import opened Blocks

  const NAME_BYTES := 8
  const EXTENSION_BYTES := 3
  const SPACE: Byte := 0x20
  const NEVER_USED: Byte := 0x00
  const DELETED: Byte := 0xe5
  /** Stands on disk for a name that really starts with 0xe5. */
  const ESCAPED: Byte := 0x05

  datatype DirEntry = DirEntry(name: seq<Byte>, extension: seq<Byte>, attributes: Byte, firstCluster: nat, size: nat) {
    predicate Valid() {
      && |name| == NAME_BYTES && |extension| == EXTENSION_BYTES
      && firstCluster < 0x1_0000 && size < 0x1_0000_0000
    }
  }

  type Slot = s: seq<Byte> | |s| == 32 witness Repeat(0, 32)

  function Slots(table: seq<Byte>): nat {
    |table| / 32
  }

  function SlotAt(table: seq<Byte>, i: nat): Slot
    requires i < Slots(table)
  {
    table[32 * i..32 * i + 32]
  }

  predicate IsSpace(s: Slot) {
    s[0] == NEVER_USED || s[0] == DELETED
  }

  /** The slot with an entry written over it; bytes 0x0c to 0x19 keep what they held. */
  function EncodeSlot(s: Slot, e: DirEntry, first: Byte): (r: Slot)
    requires e.Valid()
    ensures r[0] == first
  {
    [first] + e.name[1..] + e.extension + [e.attributes] + s[0x0c..0x1a]
    + WordBytes(e.firstCluster) + DWordBytes(e.size)
  }

  /** First byte that adding an entry writes. */
  function Escape(b: Byte): Byte {
    if b == DELETED then ESCAPED else b
  }

  /** Padding spaces read as terminators. */
  function Unpad(s: seq<Byte>): (r: seq<Byte>)
    ensures |r| == |s|
    ensures forall k :: 0 <= k < |s| ==> r[k] == if s[k] == SPACE then 0 else s[k]
  {
    seq(|s|, k requires 0 <= k < |s| => if s[k] == SPACE then 0 else s[k])
  }

  function DecodeSlot(s: Slot): (e: DirEntry)
    ensures e.Valid()
  {
    DWordBytesRoundTrip(s[0x1c..0x20]);
    DirEntry(
      [if s[0] == ESCAPED then DELETED else Unpad(s[..8])[0]] + Unpad(s[1..8]),
      Unpad(s[8..0x0b]),
      s[0x0b],
      Word(s[0x1a], s[0x1b]),
      DWord(s[0x1c..0x20]))
  }

  /** An entry as a listing shows it: padding removed. */
  function Shown(e: DirEntry): DirEntry
    requires e.Valid()
  {
    e.(name := Unpad(e.name), extension := Unpad(e.extension))
  }

  /** Decoding undoes encoding, for every entry whose name does not start with 0x05. */
  lemma SlotRoundTrip(s: Slot, e: DirEntry)
    requires e.Valid()
    ensures DecodeSlot(EncodeSlot(s, e, Escape(e.name[0]))) == Shown(e) <==> e.name[0] != ESCAPED
  {
    var r := EncodeSlot(s, e, Escape(e.name[0]));
    EncodedFields(s, e, Escape(e.name[0]));
    WordRoundTrip(e.firstCluster);
    DWordRoundTrip(e.size);
    var d := DecodeSlot(r);
    assert d.name[0] == if r[0] == ESCAPED then DELETED else if r[0] == SPACE then 0 else r[0];
    if e.name[0] != ESCAPED {
      assert d.name == Unpad(e.name);
    } else {
      assert d.name[0] != Unpad(e.name)[0];
    }
  }

  /** Where each field of an entry stands in its slot. */
  lemma EncodedFields(s: Slot, e: DirEntry, first: Byte)
    requires e.Valid()
    ensures var r := EncodeSlot(s, e, first);
      && r[1..8] == e.name[1..] && r[8..0x0b] == e.extension && r[0x0b] == e.attributes
      && r[0x0c..0x1a] == s[0x0c..0x1a]
      && r[0x1a..0x1c] == WordBytes(e.firstCluster) && r[0x1c..0x20] == DWordBytes(e.size)
  {
    var r := EncodeSlot(s, e, first);
    assert |e.name[1..]| == 7;
    var head := [first] + e.name[1..] + e.extension + [e.attributes];
    assert |head| == 12 && r == head + s[0x0c..0x1a] + WordBytes(e.firstCluster) + DWordBytes(e.size);
    assert r[..12] == head;
    assert r[1..8] == head[1..8] && r[8..11] == head[8..11] && r[11] == head[11];
  }

  /** The entries a listing shows from slot `i` on: up to the first never-used slot, deleted ones skipped. */
  function ListFrom(table: seq<Byte>, i: nat): seq<DirEntry>
    decreases Slots(table) - i
  {
    if Slots(table) <= i || SlotAt(table, i)[0] == NEVER_USED then []
    else if SlotAt(table, i)[0] == DELETED then ListFrom(table, i + 1)
    else [DecodeSlot(SlotAt(table, i))] + ListFrom(table, i + 1)
  }

  function List(table: seq<Byte>): seq<DirEntry> {
    ListFrom(table, 0)
  }

  /** Comparison of a slot's name with the eight bytes of a name: padding in the slot against a
      terminator in the name ends it early. */
  predicate NameMatches(s: Slot, name: seq<Byte>, j: nat)
    requires |name| == NAME_BYTES
    decreases NAME_BYTES - j
  {
    NAME_BYTES <= j
    || (s[j] == SPACE && name[j] == 0)
    || (s[j] == name[j] && NameMatches(s, name, j + 1))
  }

  /** What a search of a table looks for: a slot to add to, or the slot with a given name. */
  datatype Query = Space | Named(name: seq<Byte>, extension: seq<Byte>) {
    predicate Valid() {
      Named? ==> |name| == NAME_BYTES && |extension| == EXTENSION_BYTES
    }

    predicate Hits(s: Slot)
      requires Valid()
    {
      match this
      case Space => IsSpace(s)
      case Named(name, extension) => NameMatches(s, name, 0) && s[8..0x0b] == extension
    }
  }

  /** The first slot from `i` on that the query hits, or -1. */
  function FirstFrom(table: seq<Byte>, q: Query, i: nat): (r: int)
    requires q.Valid()
    ensures r == -1 || (i <= r < Slots(table) && q.Hits(SlotAt(table, r)))
    ensures forall j :: i <= j < Slots(table) && (r == -1 || j < r) ==> !q.Hits(SlotAt(table, j))
    decreases Slots(table) - i
  {
    if Slots(table) <= i then -1
    else if q.Hits(SlotAt(table, i)) then i
    else FirstFrom(table, q, i + 1)
  }

  function First(table: seq<Byte>, q: Query): (r: int)
    requires q.Valid()
  {
    FirstFrom(table, q, 0)
  }

  lemma FirstIs(table: seq<Byte>, q: Query, i: nat)
    requires q.Valid() && i < Slots(table) && q.Hits(SlotAt(table, i))
    requires forall j :: 0 <= j < i ==> !q.Hits(SlotAt(table, j))
    ensures First(table, q) == i
  {
  }

  lemma FirstIsNone(table: seq<Byte>, q: Query)
    requires q.Valid() && forall j :: 0 <= j < Slots(table) ==> !q.Hits(SlotAt(table, j))
    ensures First(table, q) == -1
  {
  }

  /** The table with slot `i` replaced. */
  function WithSlot(table: seq<Byte>, i: nat, s: Slot): (r: seq<Byte>)
    requires i < Slots(table)
    ensures |r| == |table|
  {
    Splice(table, 32 * i, s)
  }

  lemma WithSlotSlots(table: seq<Byte>, i: nat, s: Slot, j: nat)
    requires i < Slots(table) && j < Slots(table)
    ensures SlotAt(WithSlot(table, i, s), j) == if i == j then s else SlotAt(table, j)
  {
  }

  /** The table after adding an entry: it goes to the first space. */
  function AddEntry(table: seq<Byte>, e: DirEntry): (r: seq<Byte>)
    requires e.Valid() && First(table, Space) != -1
    ensures |r| == |table|
  {
    var i := First(table, Space);
    WithSlot(table, i, EncodeSlot(SlotAt(table, i), e, Escape(e.name[0])))
  }

  /** The table after rewriting slot `i` with an updated entry. */
  function UpdateEntry(table: seq<Byte>, i: nat, e: DirEntry): (r: seq<Byte>)
    requires e.Valid() && i < Slots(table)
    ensures |r| == |table|
  {
    WithSlot(table, i, EncodeSlot(SlotAt(table, i), e, e.name[0]))
  }

  /** After the first never-used slot there are only never-used slots. */
  ghost predicate EmptyTail(table: seq<Byte>) {
    forall i, j :: 0 <= i < j < Slots(table) && SlotAt(table, i)[0] == NEVER_USED ==> SlotAt(table, j)[0] == NEVER_USED
  }

  lemma {:induction false} ListUnchanged(table: seq<Byte>, table': seq<Byte>, i: nat)
    requires |table'| == |table|
    requires forall j :: i <= j < Slots(table) ==> SlotAt(table', j) == SlotAt(table, j)
    ensures ListFrom(table', i) == ListFrom(table, i)
    decreases Slots(table) - i
  {
    if i < Slots(table) {
      ListUnchanged(table, table', i + 1);
    }
  }

  /** The entries of slots `i` to `at`, deleted ones skipped. */
  function Kept(table: seq<Byte>, i: nat, at: nat): seq<DirEntry>
    requires at <= Slots(table)
    decreases at - i
  {
    if at <= i then []
    else if SlotAt(table, i)[0] == DELETED then Kept(table, i + 1, at)
    else [DecodeSlot(SlotAt(table, i))] + Kept(table, i + 1, at)
  }

  lemma {:induction false} ListSplit(table: seq<Byte>, i: nat, at: nat)
    requires i <= at <= Slots(table) && forall j :: i <= j < at ==> SlotAt(table, j)[0] != NEVER_USED
    ensures ListFrom(table, i) == Kept(table, i, at) + ListFrom(table, at)
    decreases at - i
  {
    hide DecodeSlot, SlotAt;
    if i < at {
      ListSplit(table, i + 1, at);
    }
  }

  lemma {:induction false} KeptAll(table: seq<Byte>, i: nat, at: nat)
    requires i <= at <= Slots(table) && forall j :: i <= j < at ==> !IsSpace(SlotAt(table, j))
    ensures |Kept(table, i, at)| == at - i
    decreases at - i
  {
    hide DecodeSlot, SlotAt;
    if i < at {
      KeptAll(table, i + 1, at);
    }
  }

  lemma {:induction false} KeptUnchanged(table: seq<Byte>, table': seq<Byte>, i: nat, at: nat)
    requires |table'| == |table| && at <= Slots(table)
    requires forall j :: i <= j < at ==> SlotAt(table', j) == SlotAt(table, j)
    ensures Kept(table', i, at) == Kept(table, i, at)
    decreases at - i
  {
    hide DecodeSlot, SlotAt;
    if i < at {
      KeptUnchanged(table, table', i + 1, at);
    }
  }

  /** What one slot contributes to a listing. */
  function Entries(s: Slot): seq<DirEntry> {
    if IsSpace(s) then [] else [DecodeSlot(s)]
  }

  lemma ListStep(table: seq<Byte>, i: nat)
    requires i < Slots(table) && SlotAt(table, i)[0] != NEVER_USED
    ensures ListFrom(table, i) == Entries(SlotAt(table, i)) + ListFrom(table, i + 1)
  {
    hide DecodeSlot, SlotAt;
  }

  lemma WithSlotAll(table: seq<Byte>, i: nat, s: Slot)
    requires i < Slots(table)
    ensures forall j :: 0 <= j < Slots(table) ==>
              SlotAt(WithSlot(table, i, s), j) == if j == i then s else SlotAt(table, j)
  {
    forall j | 0 <= j < Slots(table)
      ensures SlotAt(WithSlot(table, i, s), j) == if j == i then s else SlotAt(table, j)
    {
      WithSlotSlots(table, i, s, j);
    }
  }

  /** Replacing slot `i`, which a listing reaches, by one that it also reaches past: the listing changes
      only at that slot's place. */
  lemma ReplaceThenList(table: seq<Byte>, i: nat, s: Slot)
    requires i < Slots(table) && s[0] != NEVER_USED
    requires forall j :: 0 <= j < i ==> SlotAt(table, j)[0] != NEVER_USED
    ensures List(table) == Kept(table, 0, i) + ListFrom(table, i)
    ensures List(WithSlot(table, i, s))
         == Kept(table, 0, i) + Entries(s) + ListFrom(table, i + 1)
  {
    hide DecodeSlot, SlotAt, WithSlot, ListFrom, Kept;
    var after := WithSlot(table, i, s);
    WithSlotAll(table, i, s);
    ListSplit(table, 0, i);
    ListSplit(after, 0, i);
    KeptUnchanged(table, after, 0, i);
    ListUnchanged(table, after, i + 1);
    ListStep(after, i);
  }

  /** Adding an entry inserts it into the listing at the rank of the first space, provided nothing is
      listed behind a never-used slot; otherwise the entries there come to light. */
  lemma AddThenList(table: seq<Byte>, e: DirEntry)
    requires e.Valid() && e.name[0] != 0 && e.name[0] != ESCAPED && First(table, Space) != -1
    ensures var at := First(table, Space); var was := List(table);
      && at <= |was|
      && (List(AddEntry(table, e)) == was[..at] + [Shown(e)] + was[at..]
          <==> (SlotAt(table, at)[0] == NEVER_USED ==> ListFrom(table, at + 1) == []))
  {
    var at := First(table, Space);
    var was := List(table);
    var added := EncodeSlot(SlotAt(table, at), e, Escape(e.name[0]));
    ReplaceThenList(table, at, added);
    SlotRoundTrip(SlotAt(table, at), e);
    KeptAll(table, 0, at);
    hide EncodeSlot, DecodeSlot, SlotAt, Kept;
    assert was[..at] == Kept(table, 0, at) && was[at..] == ListFrom(table, at);
    var now := List(AddEntry(table, e));
    assert now == was[..at] + [Shown(e)] + ListFrom(table, at + 1);
    if SlotAt(table, at)[0] == NEVER_USED {
      assert was[at..] == [];
      assert |now| == at + 1 + |ListFrom(table, at + 1)|;
    }
  }

  /** An empty tail lists nothing behind the first never-used slot, and adding keeps it empty. */
  lemma EmptyTailKept(table: seq<Byte>, e: DirEntry)
    requires e.Valid() && e.name[0] != 0 && First(table, Space) != -1 && EmptyTail(table)
    ensures EmptyTail(AddEntry(table, e))
    ensures var at := First(table, Space); SlotAt(table, at)[0] == NEVER_USED ==> ListFrom(table, at + 1) == []
  {
    var at := First(table, Space);
    var after := AddEntry(table, e);
    var added := EncodeSlot(SlotAt(table, at), e, Escape(e.name[0]));
    forall i, j | 0 <= i < j < Slots(after) && SlotAt(after, i)[0] == NEVER_USED
      ensures SlotAt(after, j)[0] == NEVER_USED
    {
      WithSlotSlots(table, at, added, i);
      WithSlotSlots(table, at, added, j);
    }
    assert at + 1 < Slots(table) && SlotAt(table, at)[0] == NEVER_USED ==> SlotAt(table, at + 1)[0] == NEVER_USED;
  }

  /** A table of zero bytes, which is what a directory made in a cleared cluster is, lists nothing. */
  lemma ZeroTableIsEmpty(table: seq<Byte>)
    requires forall i :: 0 <= i < |table| ==> table[i] == 0
    ensures List(table) == [] && EmptyTail(table)
  {
    assert 0 < Slots(table) ==> SlotAt(table, 0)[0] == table[0];
    forall j | 0 <= j < Slots(table) ensures SlotAt(table, j)[0] == NEVER_USED {
      assert SlotAt(table, j)[0] == table[32 * j];
    }
  }

  /** The name a listing shows for a slot finds that slot again exactly when the slot's name is not
      escaped and its extension has no padding. */
  lemma FindsItself(s: Slot)
    ensures var e := DecodeSlot(s);
      Named(e.name, e.extension).Hits(s) <==> s[0] != ESCAPED && SPACE !in s[8..0x0b]
  {
    var e := DecodeSlot(s);
    if s[0] != ESCAPED {
      OwnNameMatches(s, 0);
    }
    if SPACE in s[8..0x0b] {
      var k :| 0 <= k < 3 && s[8..0x0b][k] == SPACE;
      assert e.extension[k] == 0;
    } else {
      assert e.extension == s[8..0x0b];
    }
  }

  lemma {:induction false} OwnNameMatches(s: Slot, j: nat)
    requires s[0] != ESCAPED && j <= NAME_BYTES
    ensures NameMatches(s, DecodeSlot(s).name, j)
    decreases NAME_BYTES - j
  {
    if j < NAME_BYTES {
      OwnNameMatches(s, j + 1);
      assert DecodeSlot(s).name[j] == if s[j] == SPACE then 0 else s[j];
    }
  }

  /** Rewriting the slot of a listed entry with its name marked deleted takes exactly that entry off the listing. */
  lemma DeleteThenList(table: seq<Byte>, i: nat)
    requires i < Slots(table) && forall j :: 0 <= j <= i ==> SlotAt(table, j)[0] != NEVER_USED
    requires SlotAt(table, i)[0] != DELETED
    ensures var e := DecodeSlot(SlotAt(table, i));
      && List(table) == Kept(table, 0, i) + [e] + ListFrom(table, i + 1)
      && List(UpdateEntry(table, i, e.(name := e.name[0 := DELETED]))) == Kept(table, 0, i) + ListFrom(table, i + 1)
  {
    var e := DecodeSlot(SlotAt(table, i));
    var gone := e.(name := e.name[0 := DELETED]);
    assert gone.name[0] == DELETED;
    hide EncodeSlot, DecodeSlot, SlotAt, ListFrom, Kept, WithSlot;
    ListStep(table, i);
    ReplaceThenList(table, i, EncodeSlot(SlotAt(table, i), gone, gone.name[0]));
    Concats(Kept(table, 0, i), [e], ListFrom(table, i + 1));
  }

  /** Rewriting the slot of a listed entry with a new size changes the listing at that entry alone, exactly when the
      stored name starts neither with a space nor with the escape: the first would end the listing, the second would
      mark the entry deleted. */
  lemma ResizeThenList(table: seq<Byte>, i: nat, size: nat)
    requires i < Slots(table) && forall j :: 0 <= j <= i ==> SlotAt(table, j)[0] != NEVER_USED
    requires SlotAt(table, i)[0] != DELETED && size < 0x1_0000_0000
    ensures var s := SlotAt(table, i); var e := DecodeSlot(s); var now := List(UpdateEntry(table, i, e.(size := size)));
      && List(table) == Kept(table, 0, i) + [e] + ListFrom(table, i + 1)
      && (now == Kept(table, 0, i) + [e.(size := size)] + ListFrom(table, i + 1) <==> s[0] != SPACE && s[0] != ESCAPED)
      && (s[0] == SPACE ==> now == Kept(table, 0, i))
      && (s[0] == ESCAPED ==> now == Kept(table, 0, i) + ListFrom(table, i + 1))
  {
    var s := SlotAt(table, i);
    var e := DecodeSlot(s);
    var grown := e.(size := size);
    ListStep(table, i);
    if s[0] == SPACE {
      assert grown.name[0] == NEVER_USED;
      EndedThenList(table, i, EncodeSlot(s, grown, NEVER_USED));
    } else {
      if s[0] == ESCAPED {
        assert grown.name[0] == DELETED;
      } else {
        ResizedSlot(s, size);
      }
      ReplaceThenList(table, i, EncodeSlot(s, grown, grown.name[0]));
    }
    hide EncodeSlot, DecodeSlot, SlotAt, ListFrom, Kept, WithSlot;
    Concats(Kept(table, 0, i), [e], ListFrom(table, i + 1));
  }

  /** A never-used slot put where a listing comes by ends it there. */
  lemma EndedThenList(table: seq<Byte>, i: nat, s: Slot)
    requires i < Slots(table) && s[0] == NEVER_USED
    requires forall j :: 0 <= j < i ==> SlotAt(table, j)[0] != NEVER_USED
    ensures List(table) == Kept(table, 0, i) + ListFrom(table, i)
    ensures List(WithSlot(table, i, s)) == Kept(table, 0, i)
  {
    hide DecodeSlot, SlotAt, WithSlot, Kept;
    var after := WithSlot(table, i, s);
    WithSlotAll(table, i, s);
    ListSplit(table, 0, i);
    ListSplit(after, 0, i);
    KeptUnchanged(table, after, 0, i);
    assert ListFrom(after, i) == [];
  }

  lemma ResizedSlot(s: Slot, size: nat)
    requires size < 0x1_0000_0000 && !IsSpace(s) && s[0] != SPACE && s[0] != ESCAPED
    ensures var e := DecodeSlot(s).(size := size);
      e.name[0] == s[0] && DecodeSlot(EncodeSlot(s, e, e.name[0])) == e
  {
    var e := DecodeSlot(s).(size := size);
    SlotRoundTrip(s, e);
    UnpadTwice(s);
  }

  lemma UnpadTwice(s: Slot)
    ensures Shown(DecodeSlot(s)) == DecodeSlot(s)
  {
    var e := DecodeSlot(s);
    assert Unpad(e.name) == e.name;
    assert Unpad(e.extension) == e.extension;
  }

  /** Slot `j` of block `k` is slot `k*per + j` of the whole table. */
  lemma SlotInBlock(blocks: seq<seq<Byte>>, n: nat, per: nat, k: nat, j: nat)
    requires Uniform(blocks, n) && n == 32 * per && k < |blocks| && j < per
    ensures Span(k, n) == 32 * Span(k, per)
    ensures Span(k, per) + j < Slots(Flatten(blocks))
    ensures SlotAt(Flatten(blocks), Span(k, per) + j) == SlotAt(blocks[k], j)
  {
    hide Span, Flatten;
    SpanScaled(k, n, per);
    FlattenSlice(blocks, n, k);
    SlotInSlice(Flatten(blocks), Span(k, n), blocks[k], Span(k, per), j);
  }

  lemma SlotInSlice(whole: seq<Byte>, at: nat, block: seq<Byte>, first: nat, j: nat)
    requires at == 32 * first && at + |block| <= |whole| && whole[at..at + |block|] == block && 32 * j + 32 <= |block|
    ensures first + j < Slots(whole) && SlotAt(whole, first + j) == SlotAt(block, j)
  {
    assert block[32 * j..32 * j + 32] == whole[at + 32 * j..at + 32 * j + 32];
  }

  lemma {:induction false} SpanScaled(k: nat, n: nat, per: nat)
    requires n == 32 * per
    ensures Span(k, n) == 32 * Span(k, per)
  {
    if k != 0 {
      SpanScaled(k - 1, n, per);
    }
  }

  /** When no slot of the first `k` blocks is hit, no slot before block `k` is. */
  lemma {:induction false} NoneInBlocks(blocks: seq<seq<Byte>>, n: nat, per: nat, q: Query, k: nat)
    requires Uniform(blocks, n) && n == 32 * per && k <= |blocks| && q.Valid()
    requires forall b :: 0 <= b < k ==> First(blocks[b], q) == -1
    ensures Span(k, per) <= Slots(Flatten(blocks))
    ensures forall i :: 0 <= i < Span(k, per) ==> !q.Hits(SlotAt(Flatten(blocks), i))
  {
    if k != 0 {
      NoneInBlocks(blocks, n, per, q, k - 1);
      SpanStep(k - 1, per);
      hide Span, Flatten, SlotAt, Query.Hits;
      forall i | Span(k - 1, per) <= i < Span(k, per)
        ensures i < Slots(Flatten(blocks)) && !q.Hits(SlotAt(Flatten(blocks), i))
      {
        SlotInBlock(blocks, n, per, k - 1, i - Span(k - 1, per));
      }
      WholeTable(blocks, n, per);
      SpanInside(k - 1, |blocks|, per);
    }
  }

  lemma WholeTable(blocks: seq<seq<Byte>>, n: nat, per: nat)
    requires Uniform(blocks, n) && n == 32 * per
    ensures Slots(Flatten(blocks)) == Span(|blocks|, per)
  {
    hide Span, Flatten;
    FlattenLength(blocks, n);
    SpanScaled(|blocks|, n, per);
  }

  /** Searching block by block finds what searching the whole table finds. */
  lemma FirstInBlocks(blocks: seq<seq<Byte>>, n: nat, per: nat, q: Query, k: nat)
    requires Uniform(blocks, n) && n == 32 * per && k <= |blocks| && q.Valid()
    requires forall b :: 0 <= b < k ==> First(blocks[b], q) == -1
    ensures k < |blocks| && First(blocks[k], q) != -1 ==>
              First(Flatten(blocks), q) == Span(k, per) + First(blocks[k], q)
    ensures k == |blocks| ==> First(Flatten(blocks), q) == -1
  {
    hide Span, Flatten, SlotAt, Query.Hits;
    NoneInBlocks(blocks, n, per, q, k);
    WholeTable(blocks, n, per);
    if k < |blocks| && First(blocks[k], q) != -1 {
      var j := First(blocks[k], q);
      forall i | 0 <= i < Span(k, per) + j ensures i < Slots(Flatten(blocks)) && !q.Hits(SlotAt(Flatten(blocks), i)) {
        SlotInBlock(blocks, n, per, k, j);
        if Span(k, per) <= i {
          SlotInBlock(blocks, n, per, k, i - Span(k, per));
        }
      }
      SlotInBlock(blocks, n, per, k, j);
      FirstIs(Flatten(blocks), q, Span(k, per) + j);
    } else if k == |blocks| {
      FirstIsNone(Flatten(blocks), q);
    }
  }

  /** Listing a table is listing its parts one after the other, up to a never-used slot. */
  lemma {:induction false} ListConcat(a: seq<Byte>, b: seq<Byte>, i: nat)
    requires |a| % 32 == 0 && i <= Slots(a)
    ensures ListFrom(a + b, i) == ListFrom(a, i) + (if Ends(a, i) then [] else List(b))
    decreases Slots(a) - i
  {
    hide DecodeSlot, SlotAt;
    if i < Slots(a) {
      SlotOfConcat(a, b, i, 0);
      ListConcat(a, b, i + 1);
    } else {
      ListShift(a, b, 0);
    }
  }

  lemma {:induction false} ListShift(a: seq<Byte>, b: seq<Byte>, i: nat)
    requires |a| % 32 == 0 && i <= Slots(b)
    ensures ListFrom(a + b, Slots(a) + i) == ListFrom(b, i)
    decreases Slots(b) - i
  {
    hide DecodeSlot, SlotAt;
    SlotsOfConcat(a, b);
    if i < Slots(b) {
      SlotOfConcat(a, b, 0, i);
      ListShift(a, b, i + 1);
    }
  }

  lemma SlotsOfConcat(a: seq<Byte>, b: seq<Byte>)
    requires |a| % 32 == 0
    ensures Slots(a + b) == Slots(a) + Slots(b)
  {
  }

  lemma SlotOfConcat(a: seq<Byte>, b: seq<Byte>, i: nat, j: nat)
    requires |a| % 32 == 0
    ensures Slots(a + b) == Slots(a) + Slots(b)
    ensures i < Slots(a) ==> SlotAt(a + b, i) == SlotAt(a, i)
    ensures j < Slots(b) ==> SlotAt(a + b, Slots(a) + j) == SlotAt(b, j)
  {
    assert i < Slots(a) ==> (a + b)[32 * i..32 * i + 32] == a[32 * i..32 * i + 32];
    assert j < Slots(b) ==> (a + b)[|a| + 32 * j..|a| + 32 * j + 32] == b[32 * j..32 * j + 32];
  }

  /** A never-used slot ends a listing from slot `i` on. */
  predicate Ends(table: seq<Byte>, i: nat)
    decreases Slots(table) - i
  {
    i < Slots(table) && (SlotAt(table, i)[0] == NEVER_USED || Ends(table, i + 1))
  }

  lemma {:induction false} EndsConcat(a: seq<Byte>, b: seq<Byte>, i: nat)
    requires |a| % 32 == 0 && i <= Slots(a)
    ensures Ends(a + b, i) == (Ends(a, i) || Ends(b, 0))
    decreases Slots(a) - i
  {
    hide SlotAt;
    if i < Slots(a) {
      SlotOfConcat(a, b, i, 0);
      EndsConcat(a, b, i + 1);
    } else {
      EndsShift(a, b, 0);
    }
  }

  lemma {:induction false} EndsShift(a: seq<Byte>, b: seq<Byte>, i: nat)
    requires |a| % 32 == 0 && i <= Slots(b)
    ensures Ends(a + b, Slots(a) + i) == Ends(b, i)
    decreases Slots(b) - i
  {
    hide SlotAt;
    SlotsOfConcat(a, b);
    if i < Slots(b) {
      SlotOfConcat(a, b, 0, i);
      EndsShift(a, b, i + 1);
    }
  }

  /** The state of a listing after the part `a` of a table has been read. */
  ghost predicate ListedSoFar(a: seq<Byte>, entries: seq<DirEntry>, ended: bool) {
    |a| % 32 == 0 && entries == List(a) && ended == Ends(a, 0)
  }

  lemma SumOfMultiples(x: nat, y: nat)
    requires x % 32 == 0 && y % 32 == 0
    ensures (x + y) % 32 == 0
  {
  }

  /** Reading on, unless the listing has ended. */
  lemma ListOn(a: seq<Byte>, b: seq<Byte>, entries: seq<DirEntry>, ended: bool)
    requires ListedSoFar(a, entries, ended) && |b| % 32 == 0
    ensures ListedSoFar(a + b, if ended then entries else entries + List(b), ended || Ends(b, 0))
  {
    hide ListFrom, Ends;
    WholeSlots(a, b);
    ListConcat(a, b, 0);
    EndsConcat(a, b, 0);
    NothingMore(List(a));
  }

  lemma WholeSlots(a: seq<Byte>, b: seq<Byte>)
    requires |a| % 32 == 0 && |b| % 32 == 0
    ensures |a + b| % 32 == 0
  {
    SumOfMultiples(|a|, |b|);
  }

  lemma NothingMore(list: seq<DirEntry>)
    ensures list + [] == list
  {
  }
}
