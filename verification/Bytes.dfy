/** Bytes, fixed-width integers and the sequence surgery the rest of the model is stated with. */
module Bytes {

  type Byte = x: int | 0 <= x < 256

  datatype Option<T> = None | Some(value: T)

  /** Conversion of a C integer to `uint16_t`. */
  function U16(x: int): (r: nat)
    ensures r < 0x1_0000
    ensures 0 <= x < 0x1_0000 ==> r == x
  {
    x % 0x1_0000
  }

  /** Conversion of a C integer to `uint32_t`. */
  function U32(x: int): (r: nat)
    ensures r < 0x1_0000_0000
    ensures 0 <= x < 0x1_0000_0000 ==> r == x
  {
    x % 0x1_0000_0000
  }

  function Min(a: int, b: int): int {
    if a < b then a else b
  }

  /** `lo + hi*256`, the way every 16-bit field of the file system is read. */
  function Word(lo: Byte, hi: Byte): (w: nat)
    ensures w < 0x1_0000
  {
    lo + hi * 256
  }

  /** The two bytes `w & 0xFF` and `(w >> 8) & 0xFF`. */
  function WordBytes(w: nat): (b: seq<Byte>)
    ensures |b| == 2
  {
    [w % 256, w / 256 % 256]
  }

  function DWord(b: seq<Byte>): (w: nat)
    requires |b| == 4
  {
    b[0] as int + 256 * (b[1] as int + 256 * (b[2] as int + 256 * b[3] as int))
  }

  function DWordBytes(w: nat): (b: seq<Byte>)
    ensures |b| == 4
  {
    [w % 256, w / 0x100 % 256, w / 0x1_0000 % 256, w / 0x100_0000 % 256]
  }

  lemma WordRoundTrip(w: nat)
    requires w < 0x1_0000
    ensures Word(WordBytes(w)[0], WordBytes(w)[1]) == w
  {
  }

  lemma DWordRoundTrip(w: nat)
    requires w < 0x1_0000_0000
    ensures DWord(DWordBytes(w)) == w
  {
    assert w / 0x1_0000 == w / 0x100 / 256;
    assert w / 0x100_0000 == w / 0x1_0000 / 256;
  }

  lemma DWordBytesRoundTrip(b: seq<Byte>)
    requires |b| == 4
    ensures DWord(b) < 0x1_0000_0000
    ensures DWordBytes(DWord(b)) == b
  {
    var w := DWord(b);
    assert w < 0x1_0000_0000;
    assert w / 0x100 == b[1] as int + 256 * (b[2] as int + 256 * b[3] as int);
    assert w / 0x1_0000 == b[2] as int + 256 * b[3] as int;
    assert w / 0x100_0000 == b[3];
  }

  /** `s` with the bytes from index `at` on overwritten by `x`. */
  function Splice<T>(s: seq<T>, at: nat, x: seq<T>): (r: seq<T>)
    requires at + |x| <= |s|
    ensures |r| == |s|
    ensures forall k :: 0 <= k < |s| ==> r[k] == if at <= k < at + |x| then x[k - at] else s[k]
  {
    s[..at] + x + s[at + |x|..]
  }

  lemma SpliceTwice<T>(s: seq<T>, at: nat, x: seq<T>, y: seq<T>)
    requires at + |x| + |y| <= |s|
    ensures Splice(Splice(s, at, x), at + |x|, y) == Splice(s, at, x + y)
  {
  }

  lemma SplicePrefix<T>(s: seq<T>, more: seq<T>, at: nat, x: seq<T>)
    requires at + |x| <= |s|
    ensures Splice(s + more, at, x) == Splice(s, at, x) + more
  {
  }

  lemma Concats<T>(a: seq<T>, b: seq<T>, c: seq<T>)
    ensures a + (b + c) == a + b + c && a + [] + c == a + c
  {
    assert a + [] == a;
  }

  /** All elements of `s` differ. */
  ghost predicate Distinct<T>(s: seq<T>) {
    forall i, j :: 0 <= i < j < |s| ==> s[i] != s[j]
  }

  function Repeat<T>(x: T, n: nat): (r: seq<T>)
    ensures |r| == n && forall i :: 0 <= i < n ==> r[i] == x
  {
    seq(n, _ => x)
  }
}

/** Blocks of one size laid end to end: sectors in a region, sectors in a cluster, clusters in a file.
    Products and quotients of two unknowns are written `Span` and `Whole`, which the solver handles
    linearly; `SpanIsProduct` and `WholeIsQuotient` say that they are the C operators. */
module Blocks {
  import opened Bytes

  /** Total size of `n` blocks of `size`: the product `n * size`. */
  function Span(n: nat, size: nat): nat {
    if n == 0 then 0 else Span(n - 1, size) + size
  }

  /** Number of whole blocks of `size` in `total`: the quotient `total / size`. */
  function Whole(total: nat, size: nat): nat
    requires 0 < size
  {
    if total < size then 0 else 1 + Whole(total - size, size)
  }

  lemma {:induction false} SpanIsProduct(n: nat, size: nat)
    ensures Span(n, size) == n * size
  {
    if n != 0 {
      SpanIsProduct(n - 1, size);
      assert n * size == (n - 1) * size + size;
    }
  }

  lemma {:induction false} WholeIsQuotient(total: nat, size: nat)
    requires 0 < size
    ensures Whole(total, size) == total / size
  {
    WholeSpan(total, size);
    SpanIsProduct(Whole(total, size), size);
    hide Span, Whole;
    QuotientUnique(total, size, Whole(total, size));
  }

  /** `total` lies in block number `Whole(total, size)`. */
  lemma {:induction false} WholeSpan(total: nat, size: nat)
    requires 0 < size
    ensures Span(Whole(total, size), size) <= total < Span(Whole(total, size), size) + size
  {
    if size <= total {
      WholeSpan(total - size, size);
    }
  }

  lemma QuotientUnique(total: nat, size: nat, q: nat)
    requires 0 < size && q * size <= total < q * size + size
    ensures q == total / size
  {
    var d := total / size;
    assert d * size <= total < d * size + size;
    if q < d {
      MoreBlocks(q + 1, d, size);
    } else if d < q {
      MoreBlocks(d + 1, q, size);
    }
  }

  lemma MoreBlocks(a: nat, b: nat, size: nat)
    requires a <= b
    ensures a * size <= b * size
    ensures 0 < a ==> a * size == (a - 1) * size + size
  {
    assert 0 <= (b - a) * size;
  }

  lemma {:induction false} SpanAdd(a: nat, b: nat, size: nat)
    ensures Span(a + b, size) == Span(a, size) + Span(b, size)
  {
    if b != 0 {
      SpanAdd(a, b - 1, size);
    }
  }

  lemma SpanStep(i: nat, size: nat)
    ensures Span(0, size) == 0 && Span(i + 1, size) == Span(i, size) + size
  {
  }

  lemma SpanInside(i: nat, n: nat, size: nat)
    requires i < n
    ensures Span(i, size) + size == Span(i + 1, size) <= Span(n, size)
    ensures Span(n, size) == Span(i, size) + size + Span(n - i - 1, size)
  {
    SpanAdd(i + 1, n - i - 1, size);
  }

  lemma {:induction false} SpanHalf(n: nat, size: nat, half: nat)
    requires size == 2 * half
    ensures Span(n, size) == 2 * Span(n, half)
  {
    if n != 0 {
      SpanHalf(n - 1, size, half);
    }
  }

  /** The block that holds position `p` of `n` blocks is one of them. */
  lemma WholeInside(p: nat, n: nat, size: nat)
    requires 0 < size && p < Span(n, size)
    ensures Whole(p, size) < n
    ensures Span(Whole(p, size), size) <= p < Span(Whole(p, size), size) + size
  {
    WholeSpan(p, size);
    if n <= Whole(p, size) {
      var more: nat := Whole(p, size) - n;
      SpanAdd(n, more, size);
    }
  }

  ghost predicate Uniform<T>(blocks: seq<seq<T>>, n: nat) {
    forall i :: 0 <= i < |blocks| ==> |blocks[i]| == n
  }

  function Flatten<T>(blocks: seq<seq<T>>): seq<T> {
    if blocks == [] then [] else blocks[0] + Flatten(blocks[1..])
  }

  lemma {:induction false} FlattenConcat<T>(a: seq<seq<T>>, b: seq<seq<T>>)
    ensures Flatten(a + b) == Flatten(a) + Flatten(b)
  {
    if a == [] {
      assert a + b == b;
    } else {
      FlattenConcat(a[1..], b);
      assert (a + b)[1..] == a[1..] + b && (a + b)[0] == a[0];
      assert Flatten(a + b) == a[0] + (Flatten(a[1..]) + Flatten(b));
    }
  }

  lemma FlattenEmpty<T>(blocks: seq<seq<T>>, i: nat)
    requires i <= |blocks|
    ensures Flatten(blocks[i..i]) == []
  {
  }

  lemma FlattenSingle<T>(block: seq<T>)
    ensures Flatten([block]) == block
  {
    assert [block][1..] == [];
  }

  lemma FlattenGrow<T>(blocks: seq<seq<T>>, from: nat, to: nat)
    requires from <= to < |blocks|
    ensures Flatten(blocks[from..to + 1]) == Flatten(blocks[from..to]) + blocks[to]
  {
    assert blocks[from..to + 1] == blocks[from..to] + [blocks[to]];
    FlattenConcat(blocks[from..to], [blocks[to]]);
    FlattenSingle(blocks[to]);
  }

  lemma {:induction false} FlattenLength<T>(blocks: seq<seq<T>>, n: nat)
    requires Uniform(blocks, n)
    ensures |Flatten(blocks)| == Span(|blocks|, n)
  {
    if blocks != [] {
      FlattenLength(blocks[1..], n);
    }
  }

  lemma FlattenAround<T>(blocks: seq<seq<T>>, i: nat)
    requires i < |blocks|
    ensures Flatten(blocks) == Flatten(blocks[..i]) + blocks[i] + Flatten(blocks[i + 1..])
  {
    assert blocks == blocks[..i] + blocks[i..];
    FlattenConcat(blocks[..i], blocks[i..]);
    assert blocks[i..][1..] == blocks[i + 1..];
  }

  /** Block `i` sits at offset `i * n`, and the parts around it are the other blocks. */
  lemma FlattenSplit<T>(blocks: seq<seq<T>>, n: nat, i: nat)
    requires Uniform(blocks, n) && i < |blocks|
    ensures Span(i, n) + n <= Span(|blocks|, n) == |Flatten(blocks)|
    ensures Flatten(blocks) == Flatten(blocks[..i]) + blocks[i] + Flatten(blocks[i + 1..])
    ensures |Flatten(blocks[..i])| == Span(i, n)
    ensures Flatten(blocks)[Span(i, n)..Span(i, n) + n] == blocks[i]
  {
    FlattenLength(blocks, n);
    FlattenLength(blocks[..i], n);
    SpanInside(i, |blocks|, n);
    FlattenAround(blocks, i);
  }

  lemma FlattenSlice<T>(blocks: seq<seq<T>>, n: nat, i: nat)
    requires Uniform(blocks, n) && i < |blocks|
    ensures Span(i, n) + n <= |Flatten(blocks)|
    ensures Flatten(blocks)[Span(i, n)..Span(i, n) + n] == blocks[i]
  {
    hide Span, Flatten;
    FlattenSplit(blocks, n, i);
  }

  /** Overwriting inside one block is overwriting at that block's offset in the whole. */
  lemma FlattenSplice<T>(blocks: seq<seq<T>>, n: nat, i: nat, at: nat, x: seq<T>)
    requires Uniform(blocks, n) && i < |blocks| && at + |x| <= n
    ensures Span(i, n) + at + |x| <= |Flatten(blocks)|
    ensures Flatten(blocks[i := Splice(blocks[i], at, x)]) == Splice(Flatten(blocks), Span(i, n) + at, x)
  {
    hide Span, Flatten;
    FlattenSplit(blocks, n, i);
    var after := blocks[i := Splice(blocks[i], at, x)];
    FlattenSplit(after, n, i);
    assert after[..i] == blocks[..i] && after[i + 1..] == blocks[i + 1..];
  }
}
