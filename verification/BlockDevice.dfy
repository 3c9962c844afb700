/** The disk as the file system sees it: numbered blocks of one length. */
module BlockDevice {
  import opened Bytes
  import opened Blocks

  /** The blocks after one write request: a request past the last block fails and changes nothing. */
  function BlockWrite(blocks: seq<seq<Byte>>, a: nat, x: seq<Byte>): seq<seq<Byte>> {
    if a < |blocks| then blocks[a := x] else blocks
  }

  class Disk {
    const blockLen: nat
    var blocks: seq<seq<Byte>>

    ghost predicate Valid()
      reads this
    {
      Uniform(blocks, blockLen)
    }

    constructor (blockLen: nat, blocks: seq<seq<Byte>>)
      requires Uniform(blocks, blockLen)
      ensures Valid() && this.blockLen == blockLen && this.blocks == blocks
    {
      this.blockLen := blockLen;
      this.blocks := blocks;
    }

    /** Writes the `n` bytes of `x` from index `at` on to block `a`. */
    method Write(a: nat, x: array<Byte>, at: nat, n: nat)
      requires Valid() && n == blockLen && at + n <= x.Length
      modifies this
      ensures Valid()
      ensures blocks == BlockWrite(old(blocks), a, x[at..at + n])
    {
      if a < |blocks| {
        blocks := blocks[a := x[at..at + n]];
      }
    }

    /** Reads block `a` into the `n` bytes of `x` from index `at` on. */
    method Read(a: nat, x: array<Byte>, at: nat, n: nat)
      requires Valid() && n == blockLen && at + n <= x.Length
      modifies x
      ensures x[..] == if a < |blocks| then Splice(old(x[..]), at, blocks[a]) else old(x[..])
    {
      if a < |blocks| {
        forall i | 0 <= i < n {
          x[at + i] := blocks[a][i];
        }
      }
    }

    /** Reads consecutive blocks, from `first` on, into all of `buf`. */
    method ReadBlocks(first: nat, count: nat, buf: array<Byte>)
      requires Valid() && buf.Length == Span(count, blockLen)
      modifies buf
      ensures first + count <= |blocks| ==> buf[..] == Flatten(blocks[first..first + count])
      ensures |blocks| <= first ==> buf[..] == old(buf[..])
    {
      hide Span, Flatten;
      SpanStep(0, blockLen);
      if first <= |blocks| {
        FlattenEmpty(blocks, first);
      }
      var i := 0;
      while i < count
        invariant 0 <= i <= count
        invariant Span(i, blockLen) <= buf.Length
        invariant first + count <= |blocks| ==> buf[..Span(i, blockLen)] == Flatten(blocks[first..first + i])
        invariant |blocks| <= first ==> buf[..] == old(buf[..])
      {
        SpanInside(i, count, blockLen);
        ghost var done := buf[..Span(i, blockLen)];
        Read(first + i, buf, Span(i, blockLen), blockLen);
        if first + count <= |blocks| {
          FlattenGrow(blocks, first, first + i);
          assert buf[..Span(i + 1, blockLen)] == done + blocks[first + i];
        }
        i := i + 1;
      }
      assert buf[..] == buf[..Span(count, blockLen)];
    }

    /** Writes all of `buf` to consecutive blocks, from `first` on. */
    method WriteBlocks(first: nat, count: nat, buf: array<Byte>)
      requires Valid() && buf.Length == Span(count, blockLen)
      modifies this
      ensures Valid()
      ensures SameOutside(old(blocks), blocks, first, first + count)
      ensures first + count <= |blocks| ==> Flatten(blocks[first..first + count]) == buf[..]
    {
      hide Span, Flatten, SameOutside;
      SpanStep(0, blockLen);
      if first <= |blocks| {
        FlattenEmpty(blocks, first);
      }
      SameStart(blocks, first);
      ghost var bytes := buf[..];
      var i := 0;
      while i < count
        invariant 0 <= i <= count
        invariant Valid() && SameOutside(old(blocks), blocks, first, first + i)
        invariant Span(i, blockLen) <= |bytes|
        invariant first + count <= |blocks| ==> bytes[..Span(i, blockLen)] == Flatten(blocks[first..first + i])
      {
        SpanInside(i, count, blockLen);
        var at := Span(i, blockLen);
        ghost var was := blocks;
        Write(first + i, buf, at, blockLen);
        SameStep(old(blocks), was, first, first + i, bytes[at..at + blockLen]);
        if first + count <= |blocks| {
          BlockAppended(was, first, i, bytes, at, blockLen);
        }
        i := i + 1;
      }
      assert bytes == bytes[..Span(count, blockLen)];
    }
  }

  lemma BlockAppended(blocks: seq<seq<Byte>>, first: nat, i: nat, bytes: seq<Byte>, at: nat, n: nat)
    requires first + i < |blocks| && at + n <= |bytes| && bytes[..at] == Flatten(blocks[first..first + i])
    ensures bytes[..at + n] == Flatten(blocks[first + i := bytes[at..at + n]][first..first + i + 1])
  {
    hide Flatten;
    FlattenStep(blocks, bytes[at..at + n], first, first + i);
    assert bytes[..at + n] == bytes[..at] + bytes[at..at + n];
  }

  lemma FlattenStep(blocks: seq<seq<Byte>>, block: seq<Byte>, from: nat, to: nat)
    requires from <= to < |blocks|
    ensures Flatten(blocks[to := block][from..to + 1]) == Flatten(blocks[from..to]) + block
  {
    FlattenGrow(blocks[to := block], from, to);
    assert blocks[to := block][from..to] == blocks[from..to];
  }

  /** The two images agree on every block outside `from..to`. */
  ghost predicate SameOutside(img: seq<seq<Byte>>, img': seq<seq<Byte>>, from: int, to: int) {
    |img'| == |img| && forall s :: 0 <= s < |img| && !(from <= s < to) ==> img'[s] == img[s]
  }

  lemma SameStart(img: seq<seq<Byte>>, from: int)
    ensures SameOutside(img, img, from, from)
  {
  }

  lemma SameStep(img: seq<seq<Byte>>, was: seq<seq<Byte>>, from: nat, a: nat, x: seq<Byte>)
    requires SameOutside(img, was, from, a) && from <= a
    ensures SameOutside(img, BlockWrite(was, a, x), from, a + 1)
  {
  }

  /** `stdmem_copy` of `count` bytes of `src`, from index `from` on, to index `at` of `dest`. */
  method CopyIn(dest: array<Byte>, at: nat, src: seq<Byte>, from: nat, count: nat)
    requires at + count <= dest.Length && from + count <= |src|
    modifies dest
    ensures dest[..] == Splice(old(dest[..]), at, src[from..from + count])
  {
    var i := 0;
    while i < count
      invariant i <= count
      invariant forall k :: 0 <= k < dest.Length ==>
                  dest[k] == if at <= k < at + i then src[from + (k - at)] else old(dest[k])
    {
      dest[at + i] := src[from + i];
      i := i + 1;
    }
  }
}
