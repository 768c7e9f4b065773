/**
 The data path of the WiFi driver: an Ethernet frame wrapped for SDPCM, the chunked read of one SDPCM
 frame from the F2 FIFO, and the extraction of the Ethernet frame from it.
 */
module DataPath {
  import opened Options

  type Byte = b: nat | b < 256

  const SDPCM_HDR_LEN: nat := 12
  const BDC_HDR_LEN: nat := 4
  const F2_BLKSIZE: nat := 64
  const F2_MAX_BYTE_XFER: nat := 448
  const MAX_FRAME: nat := 2048
  const BUF_SIZE: nat := MAX_FRAME + F2_BLKSIZE
  const ETHER_HDR_LEN: nat := 14
  const CHAN_DATA: Byte := 2
  const BDC_FLAGS: Byte := 0x20

  function Align4(n: nat): nat { (n + 3) / 4 * 4 }

  function RoundToBlock(n: nat): nat { (n + 63) / 64 * 64 }

  function Zeros(n: nat): (z: seq<Byte>)
    ensures |z| == n && forall i :: 0 <= i < n ==> z[i] == 0
  {
    seq(n, _ => 0)
  }

  function FrameLen(eth: seq<Byte>): nat {
    Align4(SDPCM_HDR_LEN + BDC_HDR_LEN + |eth|)
  }

  function Lo(n: nat): Byte { n % 256 }

  function Hi(n: nat): Byte { n / 256 % 256 }

  function Le16(lo: Byte, hi: Byte): nat { lo as int + 256 * (hi as int) }

  // The SDPCM header and the BDC header of a data frame of n bytes in all.
  function Headers(n: nat, seqno: Byte): (h: seq<Byte>)
    ensures |h| == SDPCM_HDR_LEN + BDC_HDR_LEN
  {
    var inv := 0xffff - n % 0x1_0000;
    [Lo(n), Hi(n), Lo(inv), Hi(inv), seqno, CHAN_DATA, 0, 12, 0, 0, 0, 0] + [BDC_FLAGS, 0, 0, 0]
  }

  // The headers, the Ethernet frame, and zeros up to a multiple of four.
  function Wrapped(eth: seq<Byte>, seqno: Byte): (f: seq<Byte>)
    ensures |f| == FrameLen(eth)
  {
    var n := FrameLen(eth);
    Headers(n, seqno) + (eth + Zeros(n - SDPCM_HDR_LEN - BDC_HDR_LEN - |eth|))
  }

  datatype Recv = Again | Invalid | IoError | Frame(flen: nat)

  // What the header alone decides.
  function Classify(len: nat, inv: nat): Recv {
    if len == 0 && inv == 0 then Again
    else if len + inv != 0xffff then Again
    else if len == 0xffff || len < SDPCM_HDR_LEN then Again
    else if len > MAX_FRAME then Invalid
    else Frame(len)
  }

  function HeaderLen(s: seq<Byte>): nat
    requires |s| >= 4
  {
    Le16(s[0], s[1])
  }

  function HeaderInv(s: seq<Byte>): nat
    requires |s| >= 4
  {
    Le16(s[2], s[3])
  }

  function Stream(fifo: nat -> Byte, n: nat): (s: seq<Byte>)
    ensures |s| == n && forall i :: 0 <= i < n ==> s[i] == fifo(i)
  {
    seq(n, i requires 0 <= i => fifo(i))
  }

  // The transfers that read a frame: one block, then chunks of 448 bytes, the last of them what remains.
  ghost predicate GoodReads(xfers: seq<nat>, total: nat) {
    && xfers != [] && xfers[0] == F2_BLKSIZE
    && (forall i :: 0 <= i < |xfers| ==> 0 < xfers[i] <= F2_MAX_BYTE_XFER && xfers[i] % F2_BLKSIZE == 0)
    && (forall i :: 0 < i < |xfers| - 1 ==> xfers[i] == F2_MAX_BYTE_XFER)
    && Sum(xfers) == total
  }

  function Sum(ns: seq<nat>): nat {
    if ns == [] then 0 else Sum(ns[..|ns| - 1]) + ns[|ns| - 1]
  }

  // One CMD53 read of n bytes from the FIFO, of which `at` have been read before; a failing one may
  // leave anything in its part of the buffer.
  method ReadF2(fifo: nat -> Byte, fails: bool, at: nat, buf: array<Byte>, n: nat) returns (err: bool)
    requires at + n <= buf.Length
    modifies buf
    ensures err == fails
    ensures !err ==> forall i :: at <= i < at + n ==> buf[i] == fifo(i)
    ensures forall i :: 0 <= i < at ==> buf[i] == old(buf[i])
  {
    for i := at to at + n
      invariant forall j :: at <= j < i ==> !fails ==> buf[j] == fifo(j)
      invariant forall j :: 0 <= j < at ==> buf[j] == old(buf[j])
    {
      var junk: nat :| junk < 256;
      buf[i] := if fails then junk else fifo(i);
    }
    err := fails;
  }

  // What remains after the first block, in whole blocks, and within the buffer.
  lemma TailBlocks(flen: nat)
    requires F2_BLKSIZE < flen <= MAX_FRAME
    ensures F2_BLKSIZE + RoundToBlock(flen - F2_BLKSIZE) == RoundToBlock(flen) <= BUF_SIZE
    ensures RoundToBlock(flen - F2_BLKSIZE) % F2_BLKSIZE == 0
    ensures flen <= RoundToBlock(flen) < flen + F2_BLKSIZE
  {
  }

  function NextChunk(remaining: nat): (chunk: nat)
    ensures chunk <= remaining && chunk <= F2_MAX_BYTE_XFER
  {
    if remaining > F2_MAX_BYTE_XFER then F2_MAX_BYTE_XFER else remaining
  }

  lemma WholeBlocks(remaining: nat)
    requires remaining > 0 && remaining % F2_BLKSIZE == 0
    ensures F2_BLKSIZE <= remaining && 0 < NextChunk(remaining)
    ensures NextChunk(remaining) < remaining ==> NextChunk(remaining) == F2_MAX_BYTE_XFER
    ensures NextChunk(remaining) % F2_BLKSIZE == 0 && (remaining - NextChunk(remaining)) % F2_BLKSIZE == 0
  {
  }

  // Reads the rest of a frame that is longer than one block, after its first block.
  method ReadTail(fifo: nat -> Byte, fails: nat -> bool, buf: array<Byte>, flen: nat)
    returns (err: bool, ghost xfers: seq<nat>)
    requires buf.Length == BUF_SIZE && F2_BLKSIZE < flen <= MAX_FRAME && !fails(0)
    requires forall i :: 0 <= i < F2_BLKSIZE ==> buf[i] == fifo(i)
    modifies buf
    ensures GoodReads(xfers, Sum(xfers)) && forall k :: 0 <= k < |xfers| ==> !fails(k)
    ensures if err then fails(|xfers|) && Sum(xfers) < flen else Sum(xfers) == RoundToBlock(flen)
    ensures !err ==> forall i :: 0 <= i < flen ==> buf[i] == fifo(i)
  {
    TailBlocks(flen);
    xfers := [F2_BLKSIZE];
    assert xfers[..0] == [] && Sum(xfers) == F2_BLKSIZE;
    assert GoodReads(xfers, F2_BLKSIZE);
    hide RoundToBlock, NextChunk;
    var at := F2_BLKSIZE;
    var remaining := RoundToBlock(flen - F2_BLKSIZE);
    var k: nat := 1;
    while remaining > 0
      invariant at + remaining == RoundToBlock(flen) <= BUF_SIZE && remaining % F2_BLKSIZE == 0
      invariant 0 <= remaining && at >= F2_BLKSIZE && GoodReads(xfers, at)
      invariant remaining > 0 ==> forall i :: 0 < i < |xfers| ==> xfers[i] == F2_MAX_BYTE_XFER
      invariant k == |xfers| && forall j :: 0 <= j < k ==> !fails(j)
      invariant forall i :: 0 <= i < at ==> buf[i] == fifo(i)
    {
      WholeBlocks(remaining);
      var chunk := NextChunk(remaining);
      err := ReadF2(fifo, fails(k), at, buf, chunk);
      if err {
        return;
      }
      MoreReads(xfers, at, chunk);
      xfers, k := xfers + [chunk], k + 1;
      at := at + chunk;
      remaining := remaining - chunk;
    }
    err := false;
  }

  lemma MoreReads(xfers: seq<nat>, total: nat, chunk: nat)
    requires GoodReads(xfers, total) && 0 < chunk <= F2_MAX_BYTE_XFER && chunk % F2_BLKSIZE == 0
    requires forall i :: 0 < i < |xfers| ==> xfers[i] == F2_MAX_BYTE_XFER
    ensures GoodReads(xfers + [chunk], total + chunk)
  {
    assert (xfers + [chunk])[..|xfers|] == xfers;
  }

  /**
   Reads one frame; fails(k) says whether the k-th transfer fails.  The first failure before the frame
   is complete is an I/O error.  Otherwise the outcome is what the header says, and an accepted frame is
   in the buffer as it came, read in whole blocks within the buffer and the byte-mode limit.
   */
  method RecvOne(fifo: nat -> Byte, fails: nat -> bool, buf: array<Byte>, dataAvailable: bool)
    returns (r: Recv, credit: Byte, ghost xfers: seq<nat>)
    requires buf.Length == BUF_SIZE
    modifies buf
    ensures !dataAvailable ==> r == Again && xfers == []
    ensures forall k :: 0 <= k < |xfers| ==> !fails(k)
    ensures r == IoError ==> fails(|xfers|)
    ensures dataAvailable && fails(0) ==> r == IoError
    ensures r == IoError && xfers != [] ==>
      var c := Classify(HeaderLen(Stream(fifo, 4)), HeaderInv(Stream(fifo, 4)));
      c.Frame? && GoodReads(xfers, Sum(xfers)) && Sum(xfers) < c.flen
    ensures dataAvailable && r != IoError ==> r == Classify(HeaderLen(Stream(fifo, 4)), HeaderInv(Stream(fifo, 4)))
    ensures r.Frame? ==>
      && SDPCM_HDR_LEN <= r.flen <= MAX_FRAME && buf[..r.flen] == Stream(fifo, r.flen)
      && credit == fifo(9)
      && GoodReads(xfers, RoundToBlock(r.flen)) && RoundToBlock(r.flen) <= BUF_SIZE
  {
    credit, xfers := 0, [];
    if !dataAvailable {
      return Again, credit, xfers;
    }
    var err := ReadF2(fifo, fails(0), 0, buf, F2_BLKSIZE);
    if err {
      return IoError, credit, xfers;
    }
    xfers := [F2_BLKSIZE];
    assert xfers[..0] == [] && Sum(xfers) == F2_BLKSIZE;
    var flen, inv := Le16(buf[0], buf[1]), Le16(buf[2], buf[3]);
    r := Classify(flen, inv);
    if !r.Frame? {
      return r, credit, xfers;
    }
    if flen > F2_BLKSIZE {
      err, xfers := ReadTail(fifo, fails, buf, flen);
      if err {
        return IoError, credit, xfers;
      }
    }
    credit := buf[9];
  }

  // The Ethernet frame inside a received one, unless it is too short or its header runs over.
  function CopyData(buf: seq<Byte>): Option<seq<Byte>>
    requires SDPCM_HDR_LEN <= |buf|
  {
    var off := buf[7];
    if |buf| < off as int + BDC_HDR_LEN then None
    else
      var start := off as int + BDC_HDR_LEN + buf[off as int + 3] as int * 4;
      if start > |buf| || |buf| - start < ETHER_HDR_LEN then None
      else Some(buf[start..])
  }

  // When a read of the first block is taken for a frame, told by the bytes of its header: the complement
  // agrees byte by byte, and the length holds the header and fits the buffer.
  lemma ClassifyMeans(h: seq<Byte>)
    requires |h| >= 4
    ensures var len := h[0] as int + 256 * h[1] as int;
      var agrees := h[0] as int + h[2] as int == 255 && h[1] as int + h[3] as int == 255;
      var r := Classify(HeaderLen(h), HeaderInv(h));
      && (r.Frame? <==> agrees && 12 <= len <= 2048)
      && (r.Frame? ==> r.flen == len)
      && (r == Invalid <==> agrees && 2048 < len < 0xffff)
      && r != IoError
  {
    var lo, hi := h[0] as int + h[2] as int, h[1] as int + h[3] as int;
    assert HeaderLen(h) + HeaderInv(h) == lo + 256 * hi;
    assert lo + 256 * hi == 0xffff <==> lo == 255 && hi == 255;
  }

  /**
   The extraction from any received layout: behind an SDPCM header that says where it ends, a BDC header
   announcing k words of padding, and that padding, whatever follows is the Ethernet frame, if it is long
   enough to be one.
   */
  lemma CopiesPayload(head: seq<Byte>, bdc: seq<Byte>, pad: seq<Byte>, p: seq<Byte>)
    requires 12 <= |head| && head[7] as int == |head|
    requires |bdc| == 4 && |pad| == 4 * bdc[3] as int
    ensures CopyData(head + bdc + pad + p) == if |p| >= 14 then Some(p) else None
  {
    var f := head + bdc + pad + p;
    assert f[7] == head[7] && f[|head| + 3] == bdc[3];
    assert f[|head| + 4 + |pad|..] == p;
  }

  // And nothing is taken from a frame that ends inside its BDC header or inside the announced padding.
  lemma CopiesNothing(head: seq<Byte>, tail: seq<Byte>)
    requires 12 <= |head| && (head[7] as int == |head| || (tail == [] && head[7] as int >= |head|))
    requires |tail| < 4 || |tail| < 4 + 4 * tail[3] as int
    ensures CopyData(head + tail) == None
  {
    var f := head + tail;
    assert f[7] == head[7];
    assert |tail| >= 4 ==> f[|head| + 3] == tail[3];
  }

  lemma HeaderOfWrapped(eth: seq<Byte>, seqno: Byte)
    requires FrameLen(eth) < 0x1_0000
    ensures var f := Wrapped(eth, seqno);
      && HeaderLen(f) == FrameLen(eth) && HeaderInv(f) == 0xffff - FrameLen(eth)
      && f[4] == seqno && f[5] == 2 && f[6] == 0 && f[7] == 12 && f[8] == f[9] == f[10] == f[11] == 0
      && f[12] == 0x20 && f[13] == f[14] == f[15] == 0
      && f[16..] == eth + Zeros(FrameLen(eth) - 16 - |eth|)
  {
    var n := FrameLen(eth);
    HeaderFields(n, seqno);
    hide Headers, Zeros, FrameLen, Le16;
    HeadAndBody(Headers(n, seqno), eth + Zeros(n - 16 - |eth|));
  }

  lemma HeaderFields(n: nat, seqno: Byte)
    requires n < 0x1_0000
    ensures var h := Headers(n, seqno);
      && Le16(h[0], h[1]) == n && Le16(h[2], h[3]) == 0xffff - n
      && h[4] == seqno && h[5] == 2 && h[6] == 0 && h[7] == 12 && h[8] == h[9] == h[10] == h[11] == 0
      && h[12] == 0x20 && h[13] == h[14] == h[15] == 0
  {
    hide Lo, Hi, Le16;
    assert n % 0x1_0000 == n;
    var h := Headers(n, seqno);
    assert h[0] == Lo(n) && h[1] == Hi(n) && h[2] == Lo(0xffff - n) && h[3] == Hi(0xffff - n);
    LoHi(n);
    LoHi(0xffff - n);
  }

  lemma HeadAndBody(h: seq<Byte>, body: seq<Byte>)
    requires |h| == 16
    ensures (h + body)[16..] == body
    ensures forall i :: 0 <= i < 16 ==> (h + body)[i] == h[i]
  {
  }

  lemma LoHi(n: nat)
    requires n < 0x1_0000
    ensures Le16(Lo(n), Hi(n)) == n
  {
    assert n / 256 % 256 == n / 256;
  }

  /**
   What transmit wraps, receive unwraps: the header is accepted exactly up to 2048 bytes, and then the
   payload is the original frame and at most three zero bytes, provided it has at least 13 bytes.
   */
  lemma RoundTrip(eth: seq<Byte>, seqno: Byte)
    requires FrameLen(eth) < 0xffff
    ensures var f := Wrapped(eth, seqno);
      && Classify(HeaderLen(f), HeaderInv(f)) == (if FrameLen(eth) <= MAX_FRAME then Frame(|f|) else Invalid)
      && var pad := FrameLen(eth) - 16 - |eth|;
         0 <= pad <= 3 && CopyData(f) == if |eth| >= 13 then Some(eth + Zeros(pad)) else None
  {
    HeaderOfWrapped(eth, seqno);
    var f := Wrapped(eth, seqno);
    assert f[12 + 3] == 0;
  }

  // The whole path, over a bus that returns what was written and possibly fails.
  method Loopback(eth: seq<Byte>, seqno: Byte, rest: nat -> Byte, fails: nat -> bool)
    returns (r: Recv, data: Option<seq<Byte>>)
    requires ETHER_HDR_LEN <= |eth| && FrameLen(eth) <= MAX_FRAME
    ensures r == IoError || r == Frame(FrameLen(eth))
    ensures (forall k: nat :: !fails(k)) ==> r != IoError
    ensures r.Frame? ==> data.Some? && eth <= data.value && |data.value| <= |eth| + 3
    ensures r.Frame? ==> forall i :: |eth| <= i < |data.value| ==> data.value[i] == 0
  {
    var f := Wrapped(eth, seqno);
    var fifo := (i: nat) => if i < |f| then f[i] else rest(i);
    var buf := new Byte[BUF_SIZE](_ => 0);
    var credit;
    ghost var xfers;
    r, credit, xfers := RecvOne(fifo, fails, buf, true);
    data := None;
    RoundTrip(eth, seqno);
    assert Stream(fifo, 4) == f[..4];
    if r.Frame? {
      assert Stream(fifo, r.flen) == f;
      data := CopyData(buf[..r.flen]);
    }
  }
}
