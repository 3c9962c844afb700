/** The hexadecimal text that bytes travel in. */
module HexCodec {
  import opened Bytes

  /** A digit 0 to 15 as a character, upper case. */
  function Itox(x: int): int {
    if 0 <= x <= 9 then 48 + x
    else if 10 <= x <= 15 then 65 + (x - 10)
    else -1
  }

  /** A character as a digit, either case, or -1. */
  function Xtoi(x: int): (d: int)
    ensures -1 <= d < 16
  {
    if 48 <= x <= 57 then x - 48
    else if 97 <= x <= 102 then 10 + (x - 97)
    else if 65 <= x <= 70 then 10 + (x - 65)
    else -1
  }

  /** The two characters `PL011_puth` writes. */
  function HexByte(x: Byte): (h: seq<Byte>)
    ensures |h| == 2
  {
    [Itox(x / 16), Itox(x % 16)]
  }

  /** The byte `PL011_geth` makes of two characters; -1 sets all the bits it is put in. */
  function ByteOf(c: Byte, d: Byte): Byte {
    if Xtoi(d) == -1 then 255
    else if Xtoi(c) == -1 then 240 + Xtoi(d)
    else 16 * Xtoi(c) + Xtoi(d)
  }

  /** The two characters of `binascii.hexlify`, lower case. */
  function LowByte(x: Byte): (h: seq<Byte>)
    ensures |h| == 2
  {
    [if x / 16 < 10 then 48 + x / 16 else 87 + x / 16, if x % 16 < 10 then 48 + x % 16 else 87 + x % 16]
  }

  function Hex(s: seq<Byte>): (h: seq<Byte>)
    ensures |h| == 2 * |s|
  {
    if s == [] then [] else HexByte(s[0]) + Hex(s[1..])
  }

  function Hexlify(s: seq<Byte>): (h: seq<Byte>)
    ensures |h| == 2 * |s|
  {
    if s == [] then [] else LowByte(s[0]) + Hexlify(s[1..])
  }

  /** `binascii.unhexlify`: fails on an odd length or a character that is no digit. */
  function Unhexlify(h: seq<Byte>): Option<seq<Byte>> {
    if h == [] then Some([])
    else if |h| == 1 || Xtoi(h[0]) == -1 || Xtoi(h[1]) == -1 then None
    else
      var rest := Unhexlify(h[2..]);
      if rest.None? then None else Some([ByteOf(h[0], h[1])] + rest.value)
  }

  lemma ByteRoundTrip(x: Byte)
    ensures ByteOf(HexByte(x)[0], HexByte(x)[1]) == x && Xtoi(HexByte(x)[0]) != -1 && Xtoi(HexByte(x)[1]) != -1
    ensures ByteOf(LowByte(x)[0], LowByte(x)[1]) == x
  {
  }

  /** What the kernel writes in upper case the emulator reads back. */
  lemma {:induction false} HexRoundTrip(s: seq<Byte>)
    ensures Unhexlify(Hex(s)) == Some(s)
  {
    if s != [] {
      var h := Hex(s);
      ByteRoundTrip(s[0]);
      HexRoundTrip(s[1..]);
      assert h[2..] == Hex(s[1..]) && h[0] == HexByte(s[0])[0] && h[1] == HexByte(s[0])[1];
      assert [s[0]] + s[1..] == s;
    }
  }

  lemma {:induction false} HexSnoc(s: seq<Byte>, x: Byte)
    ensures Hex(s + [x]) == Hex(s) + HexByte(x)
  {
    if s == [] {
      assert [x][1..] == [];
    } else {
      HexSnoc(s[1..], x);
      assert (s + [x])[1..] == s[1..] + [x];
      assert HexByte(s[0]) + (Hex(s[1..]) + HexByte(x)) == (HexByte(s[0]) + Hex(s[1..])) + HexByte(x);
    }
  }

  /** Hexadecimal text has no white space in it. */
  lemma {:induction false} HexPrintable(s: seq<Byte>)
    ensures forall k :: 0 <= k < |Hex(s)| ==> 48 <= Hex(s)[k] <= 70
  {
    if s != [] {
      HexPrintable(s[1..]);
    }
  }
}

/** The emulated disk: a file served over a line-oriented connection. */
module DiskServer {
  import opened Bytes
  import opened Blocks
  import opened HexCodec

  const EOL: Byte := 10
  const SPACE: Byte := 32

  const REQ_CONF: seq<Byte> := [48, 48]
  const REQ_WR: seq<Byte> := [48, 49]
  const REQ_RD: seq<Byte> := [48, 50]
  const ACK_OKAY: seq<Byte> := [48, 48]
  const ACK_FAIL: seq<Byte> := [48, 49]

  predicate IsWhite(c: Byte) {
    c == SPACE || 9 <= c <= 13
  }

  function DropLeft(s: seq<Byte>): seq<Byte> {
    if s != [] && IsWhite(s[0]) then DropLeft(s[1..]) else s
  }

  function DropRight(s: seq<Byte>): seq<Byte> {
    if s != [] && IsWhite(s[|s| - 1]) then DropRight(s[..|s| - 1]) else s
  }

  /** `line.strip()` */
  function Strip(s: seq<Byte>): seq<Byte> {
    DropRight(DropLeft(s))
  }

  /** Position of a character, or -1. */
  function IndexOf(s: seq<Byte>, c: Byte): (i: int)
    ensures -1 <= i < |s|
    ensures i != -1 ==> s[i] == c && forall j :: 0 <= j < i ==> s[j] != c
    ensures i == -1 ==> forall j :: 0 <= j < |s| ==> s[j] != c
  {
    if s == [] then -1
    else if s[0] == c then 0
    else var i := IndexOf(s[1..], c); if i == -1 then -1 else i + 1
  }

  /** `line.split(' ')` */
  function Split(s: seq<Byte>): (fields: seq<seq<Byte>>)
    ensures fields != []
    decreases |s|
  {
    var i := IndexOf(s, SPACE);
    if i == -1 then [s] else [s[..i]] + Split(s[i + 1..])
  }

  /** `fd.seek(at); fd.write(data)`: the file grows when that is past its end. */
  function FileWrite(file: seq<Byte>, at: nat, data: seq<Byte>): seq<Byte> {
    if |file| < at then file + Repeat(0 as Byte, at - |file|) + data
    else file[..at] + data + if at + |data| < |file| then file[at + |data|..] else []
  }

  /** `fd.seek(at); fd.read(n)`: short at the end of the file. */
  function FileRead(file: seq<Byte>, at: nat, n: nat): (data: seq<Byte>)
    ensures |data| <= n
  {
    if |file| < at then [] else file[at..Min(|file|, at + n)]
  }

  /** What a request makes of the file and what is answered; an exception ends the program. */
  datatype Outcome = Served(file: seq<Byte>, reply: seq<Byte>) | Raised

  /** `struct.unpack('<l', unhexlify(field))`: four bytes, signed. */
  function Address(field: seq<Byte>): Option<int> {
    var b := Unhexlify(field);
    if b.None? || |b.value| != 4 then None
    else var w := DWord(b.value); Some(if w < 0x8000_0000 then w else w - 0x1_0000_0000)
  }

  function Conf(file: seq<Byte>, blockNum: nat, blockLen: nat): Outcome {
    if 0x8000_0000 <= blockNum || 0x8000_0000 <= blockLen then Raised
    else Served(file, ACK_OKAY + [SPACE] + Hexlify(DWordBytes(blockNum) + DWordBytes(blockLen)))
  }

  function Wr(file: seq<Byte>, blockNum: nat, blockLen: nat, req: seq<seq<Byte>>): Outcome {
    if |req| < 3 then Raised
    else
      var address, data := Address(req[1]), Unhexlify(req[2]);
      if address.None? || data.None? then Raised
      else if blockNum <= address.value then Served(file, ACK_FAIL)
      else if address.value < 0 then Raised
      else Served(FileWrite(file, Span(address.value, blockLen), data.value), ACK_OKAY)
  }

  function Rd(file: seq<Byte>, blockNum: nat, blockLen: nat, req: seq<seq<Byte>>): Outcome {
    if |req| < 2 then Raised
    else
      var address := Address(req[1]);
      if address.None? then Raised
      else if blockNum <= address.value then Served(file, ACK_FAIL)
      else if address.value < 0 then Raised
      else
        var data := FileRead(file, Span(address.value, blockLen), blockLen);
        Served(file, ACK_OKAY + [SPACE] + Hexlify(data))
  }

  /** One turn of the request loop. */
  function Serve(file: seq<Byte>, blockNum: nat, blockLen: nat, line: seq<Byte>): Outcome {
    var req := Split(Strip(line));
    var done :=
      if req[0] == REQ_CONF then Conf(file, blockNum, blockLen)
      else if req[0] == REQ_WR then Wr(file, blockNum, blockLen, req)
      else if req[0] == REQ_RD then Rd(file, blockNum, blockLen, req)
      else Served(file, ACK_FAIL);
    if done.Raised? then Raised else Served(done.file, done.reply + [EOL])
  }

  /** The lines that `disk_wr` and `disk_rd` write. */
  function WriteLine(a: nat, x: seq<Byte>): seq<Byte> {
    REQ_WR + [SPACE] + Hex(DWordBytes(a)) + [SPACE] + Hex(x) + [EOL]
  }

  function ReadLine(a: nat): seq<Byte> {
    REQ_RD + [SPACE] + Hex(DWordBytes(a)) + [EOL]
  }

  lemma StripLine(s: seq<Byte>)
    requires s != [] && !IsWhite(s[0]) && !IsWhite(s[|s| - 1])
    ensures Strip(s + [EOL]) == s
  {
    assert (s + [EOL])[..|s|] == s;
    assert DropRight(s) == s;
  }

  lemma SplitFirst(field: seq<Byte>, rest: seq<Byte>)
    requires forall k :: 0 <= k < |field| ==> field[k] != SPACE
    ensures Split(field + [SPACE] + rest) == [field] + Split(rest)
  {
    var s := field + [SPACE] + rest;
    assert s[|field|] == SPACE;
    var i := IndexOf(s, SPACE);
    assert i == |field| by {
      assert i != -1;
      assert forall j :: 0 <= j < |field| ==> s[j] != SPACE;
    }
    assert s[..i] == field && s[i + 1..] == rest;
  }

  lemma SplitLast(field: seq<Byte>)
    requires forall k :: 0 <= k < |field| ==> field[k] != SPACE
    ensures Split(field) == [field]
  {
    assert IndexOf(field, SPACE) == -1;
  }

  /** The emulator takes the lines apart into the very address and data that were sent. */
  lemma WriteLineParses(a: nat, x: seq<Byte>)
    requires a < 0x8000_0000 && x != []
    ensures var req := Split(Strip(WriteLine(a, x)));
      |req| == 3 && req[0] == REQ_WR && Address(req[1]) == Some(a) && Unhexlify(req[2]) == Some(x)
    ensures IndexOf(WriteLine(a, x), EOL) == |WriteLine(a, x)| - 1
  {
    hide Hex, Unhexlify, Strip, Split;
    var address, data := Hex(DWordBytes(a)), Hex(x);
    HexPrintable(DWordBytes(a));
    HexPrintable(x);
    HexRoundTrip(DWordBytes(a));
    HexRoundTrip(x);
    DWordRoundTrip(a);
    var s := REQ_WR + [SPACE] + (address + [SPACE] + data);
    assert s[0] == 48 && s[|s| - 1] == data[|data| - 1];
    assert WriteLine(a, x) == s + [EOL];
    StripLine(s);
    SplitFirst(REQ_WR, address + [SPACE] + data);
    SplitFirst(address, data);
    SplitLast(data);
    EndsInEol(s);
  }

  lemma ReadLineParses(a: nat)
    requires a < 0x8000_0000
    ensures var req := Split(Strip(ReadLine(a))); |req| == 2 && req[0] == REQ_RD && Address(req[1]) == Some(a)
    ensures IndexOf(ReadLine(a), EOL) == |ReadLine(a)| - 1
  {
    hide Hex, Unhexlify, Strip, Split;
    var address := Hex(DWordBytes(a));
    HexPrintable(DWordBytes(a));
    HexRoundTrip(DWordBytes(a));
    DWordRoundTrip(a);
    var s := REQ_RD + [SPACE] + address;
    assert s[0] == 48 && s[|s| - 1] == address[|address| - 1];
    assert ReadLine(a) == s + [EOL];
    StripLine(s);
    SplitFirst(REQ_RD, address);
    SplitLast(address);
    EndsInEol(s);
  }

  lemma EndsInEol(s: seq<Byte>)
    requires forall k :: 0 <= k < |s| ==> s[k] != EOL
    ensures IndexOf(s + [EOL], EOL) == |s|
  {
    assert (s + [EOL])[|s|] == EOL;
  }

  /** So a write request writes the data at the block's place, or fails past the last block. */
  lemma WriteIsServed(file: seq<Byte>, blockNum: nat, blockLen: nat, a: nat, x: seq<Byte>)
    requires a < 0x8000_0000 && x != []
    ensures Serve(file, blockNum, blockLen, WriteLine(a, x)) ==
              if a < blockNum then Served(FileWrite(file, Span(a, blockLen), x), ACK_OKAY + [EOL])
              else Served(file, ACK_FAIL + [EOL])
  {
    hide Split, Strip, FileWrite, Address, Unhexlify, WriteLine, Span;
    WriteLineParses(a, x);
  }

  lemma ReadIsServed(file: seq<Byte>, blockNum: nat, blockLen: nat, a: nat)
    requires a < 0x8000_0000
    ensures Serve(file, blockNum, blockLen, ReadLine(a)) ==
              if a < blockNum
              then Served(file, ACK_OKAY + [SPACE] + Hexlify(FileRead(file, Span(a, blockLen), blockLen)) + [EOL])
              else Served(file, ACK_FAIL + [EOL])
  {
    hide Split, Strip, FileRead, Address, ReadLine, Hexlify, Span;
    ReadLineParses(a);
  }

  /** The kernel reads a status, a separator, the block and a line end; the answer to a read is that long
      exactly when the file holds the whole block. In a file shorter than the configured disk it is not. */
  lemma AnswerIsWholeIffFileIs(file: seq<Byte>, blockNum: nat, blockLen: nat, a: nat)
    requires a < 0x8000_0000 && a < blockNum && 0 < blockLen
    ensures var answer := Serve(file, blockNum, blockLen, ReadLine(a));
      answer.Served? && (|answer.reply| == 2 + 1 + 2 * blockLen + 1 <==> Span(a, blockLen) + blockLen <= |file|)
  {
    hide Serve, Span, Hexlify;
    ReadIsServed(file, blockNum, blockLen, a);
  }

  /** The disk file the repository makes has 16 times 65536 bytes and is announced as 8192 blocks of 512: as made, three
      quarters of them cannot be read. */
  lemma ShippedFile(file: seq<Byte>, a: nat)
    requires |file| == 16 * 65536 && a < 8192
    ensures var answer := Serve(file, 8192, 512, ReadLine(a));
      answer.Served? && (|answer.reply| == 2 + 1 + 2 * 512 + 1 <==> a < 2048)
  {
    hide Serve, Span;
    AnswerIsWholeIffFileIs(file, 8192, 512, a);
    SpanIsProduct(a, 512);
  }
}

/** The kernel's end: `disk_wr` and `disk_rd` over a serial line. */
module DiskDriver {
  import opened Bytes
  import opened Blocks
  import opened BlockDevice
  import opened HexCodec
  import opened DiskServer

  const RETRY := 3

  /** The serial line and the emulator at its other end. The emulator takes its turn when the kernel waits for
      a character; the streams are first in, first out, so it makes no difference that it might do so earlier. */
  class Uart {
    const blockNum: nat
    const blockLen: nat
    var file: seq<Byte>
    var toDisk: seq<Byte>
    var toKernel: seq<Byte>

    constructor (blockNum: nat, blockLen: nat, file: seq<Byte>)
      ensures this.blockNum == blockNum && this.blockLen == blockLen && this.file == file
      ensures toDisk == [] && toKernel == []
    {
      this.blockNum, this.blockLen, this.file := blockNum, blockLen, file;
      toDisk, toKernel := [], [];
    }

    /** The emulator is waiting for a request, and none is under way. */
    ghost predicate Idle()
      reads this
    {
      toDisk == [] && toKernel == []
    }

    method Putc(x: Byte)
      modifies this`toDisk
      ensures toDisk == old(toDisk) + [x]
    {
      toDisk := toDisk + [x];
    }

    method Puth(x: Byte)
      modifies this`toDisk
      ensures toDisk == old(toDisk) + HexByte(x)
    {
      Putc(Itox(x / 16));
      Putc(Itox(x % 16));
    }

    /** The emulator answers the one request under way. */
    method Answer()
      requires IndexOf(toDisk, EOL) == |toDisk| - 1 && toKernel == [] && Serve(file, blockNum, blockLen, toDisk).Served?
      modifies this
      ensures toDisk == []
      ensures var done := Serve(old(file), blockNum, blockLen, old(toDisk));
        file == done.file && toKernel == done.reply
    {
      var done := Serve(file, blockNum, blockLen, toDisk);
      file := done.file;
      toKernel := done.reply;
      toDisk := [];
    }

    method Getc() returns (x: Byte)
      requires toKernel != []
      modifies this`toKernel
      ensures x == old(toKernel)[0] && toKernel == old(toKernel)[1..]
    {
      x := toKernel[0];
      toKernel := toKernel[1..];
    }

    method Geth() returns (x: Byte)
      requires |toKernel| >= 2
      modifies this`toKernel
      ensures x == ByteOf(old(toKernel)[0], old(toKernel)[1]) && toKernel == old(toKernel)[2..]
    {
      var c := Getc();
      var d := Getc();
      x := ByteOf(c, d);
    }

    method AddrPuth(x: nat)
      modifies this`toDisk
      ensures toDisk == old(toDisk) + Hex(DWordBytes(x))
    {
      ghost var b := DWordBytes(x);
      Puth(x % 256);
      Puth(x / 0x100 % 256);
      Puth(x / 0x1_0000 % 256);
      Puth(x / 0x100_0000 % 256);
      HexFour(b);
      assert toDisk == old(toDisk) + (HexByte(b[0]) + HexByte(b[1]) + HexByte(b[2]) + HexByte(b[3]));
    }

    method DataPuth(x: array<Byte>, at: nat, n: nat)
      requires at + n <= x.Length
      modifies this`toDisk
      ensures toDisk == old(toDisk) + Hex(x[at..at + n])
    {
      var i := 0;
      assert old(toDisk) + Hex([]) == old(toDisk);
      while i < n
        invariant i <= n && toDisk == old(toDisk) + Hex(x[at..at + i])
      {
        HexSnoc(x[at..at + i], x[at + i]);
        assert x[at..at + i + 1] == x[at..at + i] + [x[at + i]];
        Puth(x[at + i]);
        i := i + 1;
      }
    }

    method DataGeth(x: array<Byte>, at: nat, n: nat, ghost data: seq<Byte>, ghost rest: seq<Byte>)
      requires at + n <= x.Length && |data| == n && toKernel == Hexlify(data) + rest
      modifies x, this`toKernel
      ensures x[..] == Splice(old(x[..]), at, data) && toKernel == rest
    {
      var i := 0;
      while i < n
        invariant i <= n && toKernel == Hexlify(data[i..]) + rest
        invariant forall k :: 0 <= k < x.Length ==> x[k] == if at <= k < at + i then data[k - at] else old(x[k])
      {
        HexlifyNext(data, i, rest);
        x[at + i] := Geth();
        i := i + 1;
      }
    }

    method RequestWrite(a: nat, x: array<Byte>, at: nat, n: nat)
      requires Idle() && at + n <= x.Length
      modifies this`toDisk
      ensures toDisk == WriteLine(a, x[at..at + n])
    {
      hide Hex, HexByte;
      Status();
      Puth(0x01);
      Putc(SPACE);
      AddrPuth(a);
      Putc(SPACE);
      DataPuth(x, at, n);
      Putc(EOL);
    }

    method RequestRead(a: nat)
      requires Idle()
      modifies this`toDisk
      ensures toDisk == ReadLine(a)
    {
      hide Hex, HexByte;
      Status();
      Puth(0x02);
      Putc(SPACE);
      AddrPuth(a);
      Putc(EOL);
    }

    /** Asks up to three times; whether the block exists or not, the answer is read to its end. */
    method DiskWr(a: nat, x: array<Byte>, at: nat, n: nat)
      requires Idle() && a < 0x8000_0000 && n == blockLen && 0 < n && at + n <= x.Length
      modifies this
      ensures Idle()
      ensures file == if a < blockNum then FileWrite(old(file), Span(a, blockLen), x[at..at + n]) else old(file)
    {
      hide Serve, WriteLine, FileWrite, Span, ByteOf, IndexOf, Split, Strip, Address, Unhexlify;
      var i := 0;
      while i < RETRY
        invariant Idle() && file == old(file) && i <= RETRY && (i > 0 ==> blockNum <= a)
      {
        RequestWrite(a, x, at, n);
        Status();
        WriteLineParses(a, x[at..at + n]);
        WriteIsServed(file, blockNum, blockLen, a, x[at..at + n]);
        Answer();
        AnswerParts([]);
        var status := Geth();
        if status == 0x00 {
          var _ := Getc();
          return;
        } else {
          var _ := Getc();
        }
        i := i + 1;
      }
    }

    method DiskRd(a: nat, x: array<Byte>, at: nat, n: nat)
      requires Idle() && a < 0x8000_0000 && n == blockLen && 0 < n && at + n <= x.Length
      requires a < blockNum ==> Span(a, blockLen) + blockLen <= |file|
      modifies this, x
      ensures Idle() && file == old(file)
      ensures x[..] ==
              if a < blockNum then Splice(old(x[..]), at, FileRead(file, Span(a, blockLen), blockLen)) else old(x[..])
    {
      hide Serve, ReadLine, Hexlify, FileRead, Span, ByteOf, Splice, IndexOf, Split, Strip, Address, Unhexlify;
      var i := 0;
      ghost var data := FileRead(file, Span(a, blockLen), blockLen);
      WholeRead(file, a, blockNum, blockLen);
      while i < RETRY
        invariant Idle() && file == old(file) && x[..] == old(x[..]) && i <= RETRY && (i > 0 ==> blockNum <= a)
      {
        RequestRead(a);
        Status();
        ReadLineParses(a);
        ReadIsServed(file, blockNum, blockLen, a);
        Answer();
        AnswerParts(Hexlify(data));
        var status := Geth();
        assert status == if a < blockNum then 0 else 1;
        if status == 0x00 {
          var _ := Getc();
          assert toKernel == Hexlify(data) + [EOL];
          DataGeth(x, at, n, data, [EOL]);
          var _ := Getc();
          return;
        } else {
          var _ := Getc();
        }
        i := i + 1;
      }
    }
  }

  lemma Status()
    ensures HexByte(0x01) == REQ_WR && HexByte(0x02) == REQ_RD
    ensures ByteOf(ACK_OKAY[0], ACK_OKAY[1]) == 0 && ByteOf(ACK_FAIL[0], ACK_FAIL[1]) == 1
  {
  }

  /** What is left to read of an answer after its status. */
  lemma AnswerParts(data: seq<Byte>)
    ensures (ACK_FAIL + [EOL])[2..] == [EOL] && (ACK_OKAY + [EOL])[2..] == [EOL] && [EOL][1..] == []
    ensures var r := ACK_OKAY + [SPACE] + data + [EOL];
      r[0] == ACK_OKAY[0] && r[1] == ACK_OKAY[1] && r[2] == SPACE && r[2..][1..] == data + [EOL]
  {
  }

  lemma HexFour(b: seq<Byte>)
    requires |b| == 4
    ensures Hex(b) == HexByte(b[0]) + HexByte(b[1]) + HexByte(b[2]) + HexByte(b[3])
  {
    hide HexByte, Hex;
    HexOne(b[..1]);
    assert b == b[..3] + [b[3]] && b[..3] == b[..2] + [b[2]] && b[..2] == b[..1] + [b[1]];
    HexSnoc(b[..1], b[1]);
    HexSnoc(b[..2], b[2]);
    HexSnoc(b[..3], b[3]);
  }

  lemma HexOne(b: seq<Byte>)
    requires |b| == 1
    ensures Hex(b) == HexByte(b[0])
  {
    hide HexByte;
    HexSnoc([], b[0]);
    assert [] + [b[0]] == b;
  }

  lemma HexlifyNext(data: seq<Byte>, i: nat, rest: seq<Byte>)
    requires i < |data|
    ensures var s := Hexlify(data[i..]) + rest;
      |s| >= 2 && ByteOf(s[0], s[1]) == data[i] && s[2..] == Hexlify(data[i + 1..]) + rest
  {
    ByteRoundTrip(data[i]);
    assert data[i..][1..] == data[i + 1..];
  }

  lemma WholeRead(file: seq<Byte>, a: nat, blockNum: nat, blockLen: nat)
    requires a < blockNum ==> Span(a, blockLen) + blockLen <= |file|
    ensures a < blockNum ==> |FileRead(file, Span(a, blockLen), blockLen)| == blockLen
  {
  }

  /** A file that holds the blocks end to end is written and read like the blocks, so the driver is the disk
      that the file system works on. */
  lemma FileHoldsBlocks(blocks: seq<seq<Byte>>, blockLen: nat, a: nat, x: seq<Byte>)
    requires Uniform(blocks, blockLen) && a < |blocks| && |x| == blockLen
    ensures FileWrite(Flatten(blocks), Span(a, blockLen), x) == Flatten(BlockWrite(blocks, a, x))
    ensures FileRead(Flatten(blocks), Span(a, blockLen), blockLen) == blocks[a]
    ensures Span(a, blockLen) + blockLen <= |Flatten(blocks)|
  {
    hide Span, Flatten;
    FlattenSplit(blocks, blockLen, a);
    FlattenSplice(blocks, blockLen, a, 0, x);
    assert Splice(blocks[a], 0, x) == x;
  }

  /** A block written is read back, and every other block reads as before. */
  lemma ReadAfterWrite(file: seq<Byte>, blockLen: nat, a: nat, b: nat, x: seq<Byte>)
    requires 0 < blockLen && |x| == blockLen && Span(a, blockLen) + blockLen <= |file|
    ensures var file' := FileWrite(file, Span(a, blockLen), x);
      |file'| == |file|
      && FileRead(file', Span(b, blockLen), blockLen)
         == if b == a then x else FileRead(file, Span(b, blockLen), blockLen)
  {
    hide Span;
    var at, from := Span(a, blockLen), Span(b, blockLen);
    assert FileWrite(file, at, x) == Splice(file, at, x);
    BlocksApart(a, b, blockLen);
    if a == b {
      assert Splice(file, at, x)[at..at + blockLen] == x;
    } else if from <= |file| {
      var to := Min(|file|, from + blockLen);
      assert Splice(file, at, x)[from..to] == file[from..to];
    }
  }

  lemma BlocksApart(a: nat, b: nat, blockLen: nat)
    ensures a < b ==> Span(a, blockLen) + blockLen <= Span(b, blockLen)
    ensures b < a ==> Span(b, blockLen) + blockLen <= Span(a, blockLen)
  {
    if a < b {
      SpanInside(a, b, blockLen);
    } else if b < a {
      SpanInside(b, a, blockLen);
    }
  }
}
