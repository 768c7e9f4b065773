/**
 The receive half of the Ethernet driver.  OWN in a descriptor means "filled by the engine": the
 driver clears it when it posts a buffer, the engine sets it when it has written a frame, and a
 free slot keeps it set so that the engine stops there.
 */
module GemRx {
  import opened Options
  import opened Slots

  const NUM_RX_DESCS: nat := 256

  type Mbuf = nat

  datatype Ctl = Ctl(badFcs: bool, sof: bool, eof: bool, len: nat)

  datatype Desc = Desc(own: bool, wrap: bool, buf: nat, ctl: Ctl)

  // A posted buffer: its mbuf and the bus address that its descriptor gives the engine.
  datatype Buf = Buf(m: Mbuf, addr: nat)

  // A frame as the engine left it: the buffer it went to and the control word written with it.
  datatype Frame = Frame(buf: Buf, ctl: Ctl)

  // What m_getcl and the DMA map calls answer when a buffer is to be posted.
  datatype Buffer = NoMbuf | NotMapped(m: Mbuf) | Ready(m: Mbuf, addr: nat)

  function MbufsOf(bs: seq<Buf>): (ms: seq<Mbuf>)
    ensures |ms| == |bs| && forall k :: 0 <= k < |bs| ==> ms[k] == bs[k].m
  {
    seq(|bs|, k requires 0 <= k < |bs| => bs[k].m)
  }

  lemma MbufsAppend(bs: seq<Buf>, cs: seq<Buf>)
    ensures MbufsOf(bs + cs) == MbufsOf(bs) + MbufsOf(cs)
  {
  }

  // The buffers posted and the mbuf freed when the posting loop starts above q posted buffers.
  datatype Filling = Filling(posted: seq<Buf>, failed: seq<Mbuf>)

  function Fill(q: nat, rxbufs: nat, buffers: seq<Buffer>): Filling
    decreases |buffers|
  {
    if q >= rxbufs || buffers == [] then Filling([], [])
    else match buffers[0]
      case NoMbuf => Filling([], [])
      case NotMapped(m) => Filling([], [m])
      case Ready(m, addr) =>
        var rest := Fill(q + 1, rxbufs, buffers[1..]);
        Filling([Buf(m, addr)] + rest.posted, rest.failed)
  }

  // The posting loop has posted these and goes on with buffer i above q posted ones.
  ghost predicate FillGoesOn(q0: nat, rxbufs: nat, buffers: seq<Buffer>, posted: seq<Buf>, q: nat, i: nat) {
    && i <= |buffers|
    && var rest := Fill(q, rxbufs, buffers[i..]);
       Fill(q0, rxbufs, buffers) == Filling(posted + rest.posted, rest.failed)
  }

  lemma FillStarts(q0: nat, rxbufs: nat, buffers: seq<Buffer>)
    ensures FillGoesOn(q0, rxbufs, buffers, [], q0, 0)
  {
    assert buffers[0..] == buffers;
  }

  lemma FillStep(q0: nat, rxbufs: nat, buffers: seq<Buffer>, posted: seq<Buf>, q: nat, i: nat)
    requires FillGoesOn(q0, rxbufs, buffers, posted, q, i)
    ensures var all := Fill(q0, rxbufs, buffers);
      if q >= rxbufs || i == |buffers| || buffers[i].NoMbuf? then all == Filling(posted, [])
      else if buffers[i].NotMapped? then all == Filling(posted, [buffers[i].m])
      else
        var next := posted + [Buf(buffers[i].m, buffers[i].addr)];
        FillGoesOn(q0, rxbufs, buffers, next, q + 1, i + 1) && posted < all.posted
  {
    if i < |buffers| {
      assert buffers[i..][1..] == buffers[i + 1..];
    }
  }

  lemma {:induction false} FillStops(q: nat, rxbufs: nat, buffers: seq<Buffer>)
    ensures q <= rxbufs ==> q + |Fill(q, rxbufs, buffers).posted| <= rxbufs
    ensures q >= rxbufs ==> Fill(q, rxbufs, buffers).posted == []
    decreases |buffers|
  {
    if q < rxbufs && buffers != [] && buffers[0].Ready? {
      FillStops(q + 1, rxbufs, buffers[1..]);
    }
  }

  // Above q posted buffers the limit and the buffers at hand reach to a 257th.
  ghost predicate TooMany(q: nat, rxbufs: nat, buffers: seq<Buffer>) {
    && NUM_RX_DESCS < rxbufs && NUM_RX_DESCS < q + |buffers|
    && forall i :: 0 <= i <= NUM_RX_DESCS - q ==> buffers[i].Ready?
  }

  lemma {:induction false} OverrunsExactly(q: nat, rxbufs: nat, buffers: seq<Buffer>)
    requires q <= NUM_RX_DESCS
    ensures NUM_RX_DESCS < q + |Fill(q, rxbufs, buffers).posted| <==> TooMany(q, rxbufs, buffers)
    decreases |buffers|
  {
    if q < rxbufs && buffers != [] && buffers[0].Ready? && q < NUM_RX_DESCS {
      var rest := buffers[1..];
      OverrunsExactly(q + 1, rxbufs, rest);
      assert forall i :: 0 < i < |buffers| ==> buffers[i] == rest[i - 1];
      if TooMany(q + 1, rxbufs, rest) {
        assert TooMany(q, rxbufs, buffers);
      }
    }
  }

  // How far slot i lies above the tail.
  function Dist(tl: nat, i: nat): nat
    requires tl < NUM_RX_DESCS && i < NUM_RX_DESCS
  {
    if tl <= i then i - tl else i + NUM_RX_DESCS - tl
  }

  function Advance(i: nat, n: nat): (j: nat)
    ensures j < NUM_RX_DESCS
  {
    (i + n) % NUM_RX_DESCS
  }

  predicate Deliverable(c: Ctl) {
    !c.badFcs && c.sof && c.eof
  }

  // The frames handed to the stack, in the order the driver came to them.
  function Good(fs: seq<Frame>): (g: seq<Frame>)
    ensures |g| <= |fs|
  {
    if fs == [] then []
    else
      var f := fs[|fs| - 1];
      Good(fs[..|fs| - 1]) + (if Deliverable(f.ctl) then [f] else [])
  }

  // The buffers of the other frames, which the driver frees and counts as input errors.
  function Bad(fs: seq<Frame>): (ms: seq<Mbuf>)
    ensures |Good(fs)| + |ms| == |fs|
  {
    if fs == [] then []
    else
      var f := fs[|fs| - 1];
      Bad(fs[..|fs| - 1]) + (if Deliverable(f.ctl) then [] else [f.buf.m])
  }

  lemma SortOne(fs: seq<Frame>, f: Frame)
    ensures Good(fs + [f]) == Good(fs) + (if Deliverable(f.ctl) then [f] else [])
    ensures Bad(fs + [f]) == Bad(fs) + (if Deliverable(f.ctl) then [] else [f.buf.m])
  {
    assert (fs + [f])[..|fs|] == fs;
  }

  lemma SortNone()
    ensures Good([]) == [] && Bad([]) == []
  {
  }

  lemma {:induction false} GoodAppend(fs: seq<Frame>, gs: seq<Frame>)
    ensures Good(fs + gs) == Good(fs) + Good(gs)
    decreases |gs|
  {
    SortNone();
    hide Good;
    if gs == [] {
      assert fs + gs == fs;
    } else {
      var before, f := gs[..|gs| - 1], gs[|gs| - 1];
      GoodAppend(fs, before);
      assert fs + gs == (fs + before) + [f] && gs == before + [f];
      SortOne(fs + before, f);
      SortOne(before, f);
    }
  }

  // Which frames go to the stack, and which buffers are freed, by the three status bits.
  lemma {:induction false} SortedByStatus(fs: seq<Frame>)
    ensures forall f :: f in Good(fs) <==> f in fs && f.ctl.sof && f.ctl.eof && !f.ctl.badFcs
    ensures forall m :: m in Bad(fs) <==>
      exists f :: f in fs && f.buf.m == m && (f.ctl.badFcs || !f.ctl.sof || !f.ctl.eof)
  {
    if fs != [] {
      var before, last := fs[..|fs| - 1], fs[|fs| - 1];
      SortedByStatus(before);
      assert forall f :: f in fs <==> f in before || f == last;
    }
  }

  // What becomes of each good frame and only those: its place in what is delivered.
  lemma {:induction false} GoodKeepsOrder(fs: seq<Frame>, i: nat, j: nat)
    requires i < j < |fs| && Deliverable(fs[i].ctl) && Deliverable(fs[j].ctl)
    ensures |Good(fs[..i])| < |Good(fs[..j])| < |Good(fs)|
    ensures Good(fs)[|Good(fs[..i])|] == fs[i] && Good(fs)[|Good(fs[..j])|] == fs[j]
    decreases |fs|
  {
    GoodAt(fs, j);
    assert fs[..j][..i] == fs[..i];
    GoodAt(fs[..j], i);
    GoodAt(fs, i);
  }

  lemma {:induction false} GoodAt(fs: seq<Frame>, i: nat)
    requires i < |fs| && Deliverable(fs[i].ctl)
    ensures |Good(fs[..i])| < |Good(fs)| && Good(fs)[|Good(fs[..i])|] == fs[i]
    decreases |fs|
  {
    var n := |fs| - 1;
    if i < n {
      GoodAt(fs[..n], i);
      assert fs[..n][..i] == fs[..i];
    }
  }

  /**
   Posting a buffer above `queued` posted ones lands on a slot that is still in use exactly when the
   whole ring is posted already, so the ring is sound only while rxbufs is at most 256.
   */
  lemma PostCollides(tl: nat, queued: nat)
    requires tl < NUM_RX_DESCS
    ensures (exists k :: 0 <= k < queued && Advance(tl, k) == Advance(tl, queued)) <==> NUM_RX_DESCS <= queued
  {
    if NUM_RX_DESCS <= queued {
      var k := queued - NUM_RX_DESCS;
      assert tl + queued == tl + k + NUM_RX_DESCS;
      assert Advance(tl, k) == Advance(tl, queued);
    } else {
      forall k | 0 <= k < queued ensures Advance(tl, k) != Advance(tl, queued) {
        Distinct(tl + k, tl + queued);
      }
    }
  }

  lemma Distinct(a: nat, b: nat)
    requires a < b < a + NUM_RX_DESCS
    ensures a % NUM_RX_DESCS != b % NUM_RX_DESCS
  {
    var qa, qb := a / NUM_RX_DESCS, b / NUM_RX_DESCS;
    assert b - a == NUM_RX_DESCS * (qb - qa) + (b % NUM_RX_DESCS - a % NUM_RX_DESCS);
  }

  lemma DistAdvance(tl: nat, n: nat)
    requires tl < NUM_RX_DESCS && n < NUM_RX_DESCS
    ensures Dist(tl, Advance(tl, n)) == n
  {
  }

  /**
   Slot i of the ring, k above the tail: every posted buffer has its mbuf and its address there, the first of
   them hold the frames that have arrived, the rest are the engine's, and the slots above are free.
   */
  ghost predicate SlotOk(d: Desc, m: Option<Mbuf>, i: nat, k: nat, bufs: seq<Buf>, arrived: seq<Frame>) {
    && (d.wrap <==> i == NUM_RX_DESCS - 1)
    && (if k < |bufs| then
          && m == Some(bufs[k].m) && d.buf == bufs[k].addr
          && (d.own <==> k < |arrived|)
          && (d.own ==> arrived[k] == Frame(bufs[k], d.ctl))
        else d.own && m == None)
  }

  ghost predicate RingOk(ring: seq<Desc>, ms: seq<Option<Mbuf>>, tl: nat, bufs: seq<Buf>, arrived: seq<Frame>) {
    && |ring| == |ms| == NUM_RX_DESCS
    && tl < NUM_RX_DESCS
    && |arrived| <= |bufs| <= NUM_RX_DESCS
    && forall i {:trigger ring[i]} {:trigger ms[i]} :: 0 <= i < NUM_RX_DESCS ==>
        SlotOk(ring[i], ms[i], i, Dist(tl, i), bufs, arrived)
  }

  // The engine writes the next frame into the oldest posted buffer that is not yet filled.
  lemma Arrive(ring: seq<Desc>, ms: seq<Option<Mbuf>>, tl: nat, bufs: seq<Buf>, arrived: seq<Frame>, ctl: Ctl)
    requires RingOk(ring, ms, tl, bufs, arrived)
    ensures var p := Advance(tl, |arrived|);
      && |arrived| <= |bufs|
      && (ring[p].own <==> |arrived| == |bufs|)
      && (ring[p].wrap <==> p == NUM_RX_DESCS - 1)
      && (!ring[p].own ==> ring[p].buf == bufs[|arrived|].addr)
      && (!ring[p].own ==>
            RingOk(ring[p := ring[p].(own := true, ctl := ctl)], ms, tl, bufs, arrived + [Frame(bufs[|arrived|], ctl)]))
  {
    var p := Advance(tl, |arrived|);
    if |arrived| < NUM_RX_DESCS {
      DistAdvance(tl, |arrived|);
    } else {
      assert p == tl;
    }
    assert SlotOk(ring[p], ms[p], p, Dist(tl, p), bufs, arrived);
  }

  // The driver takes the oldest filled buffer; its slot becomes the free slot furthest from the tail.
  lemma Pop(ring: seq<Desc>, ms: seq<Option<Mbuf>>, tl: nat, bufs: seq<Buf>, arrived: seq<Frame>)
    requires RingOk(ring, ms, tl, bufs, arrived) && bufs != []
    ensures ms[tl] == Some(bufs[0].m) && ring[tl].buf == bufs[0].addr
    ensures ring[tl].own <==> arrived != []
    ensures ring[tl].own ==> arrived[0] == Frame(bufs[0], ring[tl].ctl)
    ensures ring[tl].own ==> RingOk(ring, ms[tl := None], Advance(tl, 1), bufs[1..], arrived[1..])
    ensures Advance(tl, |bufs|) == Advance(Advance(tl, 1), |bufs| - 1)
    ensures arrived != [] ==> Advance(tl, |arrived|) == Advance(Advance(tl, 1), |arrived| - 1)
  {
    assert SlotOk(ring[tl], ms[tl], tl, Dist(tl, tl), bufs, arrived);
    if ring[tl].own {
      var ms', tl' := ms[tl := None], Advance(tl, 1);
      forall i | 0 <= i < NUM_RX_DESCS ensures SlotOk(ring[i], ms'[i], i, Dist(tl', i), bufs[1..], arrived[1..]) {
        assert SlotOk(ring[i], ms[i], i, Dist(tl, i), bufs, arrived);
        assert i != tl ==> Dist(tl', i) == Dist(tl, i) - 1;
      }
    }
  }

  // The driver posts a buffer at the head.
  lemma Post(ring: seq<Desc>, ms: seq<Option<Mbuf>>, tl: nat, bufs: seq<Buf>, arrived: seq<Frame>, b: Buf, d: Desc)
    requires RingOk(ring, ms, tl, bufs, arrived) && |bufs| < NUM_RX_DESCS
    requires !d.own && d.buf == b.addr && (d.wrap <==> Advance(tl, |bufs|) == NUM_RX_DESCS - 1)
    ensures var p := Advance(tl, |bufs|); RingOk(ring[p := d], ms[p := Some(b.m)], tl, bufs + [b], arrived)
    ensures Advance(Advance(tl, |bufs|), 1) == Advance(tl, |bufs| + 1)
  {
    var p := Advance(tl, |bufs|);
    DistAdvance(tl, |bufs|);
    forall i | 0 <= i < NUM_RX_DESCS
      ensures SlotOk(ring[p := d][i], ms[p := Some(b.m)][i], i, Dist(tl, i), bufs + [b], arrived)
    {
      assert SlotOk(ring[i], ms[i], i, Dist(tl, i), bufs, arrived);
    }
  }

  lemma EmptyRing(ring: seq<Desc>, ms: seq<Option<Mbuf>>)
    requires |ring| == |ms| == NUM_RX_DESCS
    requires forall i :: 0 <= i < NUM_RX_DESCS ==>
      ring[i].own && (ring[i].wrap <==> i == NUM_RX_DESCS - 1) && ms[i] == None
    ensures RingOk(ring, ms, 0, [], [])
  {
  }

  // A sweep over the slots finds every posted buffer once, and nothing else.
  lemma {:induction false} SweepFindsPosted(ring: seq<Desc>, ms: seq<Option<Mbuf>>, tl: nat,
                                            bufs: seq<Buf>, arrived: seq<Frame>)
    requires RingOk(ring, ms, tl, bufs, arrived)
    ensures multiset(Present(ms)) == multiset(MbufsOf(bufs))
    decreases bufs
  {
    if bufs == [] {
      forall i | 0 <= i < |ms| ensures ms[i] == None {
        assert SlotOk(ring[i], ms[i], i, Dist(tl, i), bufs, arrived);
      }
      PresentNone(ms);
    } else {
      hide RingOk, Present, Advance;
      var ring', arrived' := FillFirst(ring, ms, tl, bufs, arrived);
      Pop(ring', ms, tl, bufs, arrived');
      SweepFindsPosted(ring', ms[tl := None], Advance(tl, 1), bufs[1..], arrived'[1..]);
      PresentClear(ms, tl);
      assert MbufsOf(bufs) == [bufs[0].m] + MbufsOf(bufs[1..]);
    }
  }

  // Whatever is posted, the oldest buffer could be filled next if it is not filled yet.
  lemma FillFirst(ring: seq<Desc>, ms: seq<Option<Mbuf>>, tl: nat, bufs: seq<Buf>, arrived: seq<Frame>)
    returns (ring': seq<Desc>, arrived': seq<Frame>)
    requires RingOk(ring, ms, tl, bufs, arrived) && bufs != []
    ensures RingOk(ring', ms, tl, bufs, arrived') && |ring'| == NUM_RX_DESCS && ring'[tl].own
  {
    ring', arrived' := ring, arrived;
    assert SlotOk(ring[tl], ms[tl], tl, 0, bufs, arrived);
    if !ring[tl].own {
      var ctl := Ctl(false, true, true, 0);
      Arrive(ring, ms, tl, bufs, arrived, ctl);
      ring', arrived' := ring[tl := ring[tl].(own := true, ctl := ctl)], [Frame(bufs[0], ctl)];
    }
  }

  // What has been taken off a ring that held bufs and arrived when it now holds bufs' and arrived'.
  ghost predicate Takes(bufs: seq<Buf>, arrived: seq<Frame>, taken: seq<Frame>,
                        bufs': seq<Buf>, arrived': seq<Frame>) {
    && |taken| <= |bufs| && bufs' == bufs[|taken|..]
    && (forall k :: 0 <= k < |taken| ==> taken[k].buf == bufs[k])
    && arrived <= taken + arrived'
  }

  lemma TakesOne(bufs: seq<Buf>, arrived: seq<Frame>, taken: seq<Frame>, bufs': seq<Buf>, arrived': seq<Frame>,
                 f: Frame, arrived'': seq<Frame>)
    requires Takes(bufs, arrived, taken, bufs', arrived')
    requires bufs' != [] && arrived' != [] && f == arrived'[0] && f.buf == bufs'[0] && arrived'[1..] <= arrived''
    ensures Takes(bufs, arrived, taken + [f], bufs'[1..], arrived'')
  {
    assert taken + arrived' == taken + [f] + arrived'[1..];
    assert taken + [f] + arrived'[1..] <= taken + [f] + arrived'';
  }

  lemma AllTaken(bufs: seq<Buf>, arrived: seq<Frame>, taken: seq<Frame>, bufs': seq<Buf>)
    requires Takes(bufs, arrived, taken, bufs', [])
    ensures |arrived| <= |taken|
  {
  }

  class RxRing {
    const rxring: array<Desc>
    const rxringM: array<Option<Mbuf>>
    var hdPtr: nat
    var tlPtr: nat
    var queued: nat
    var rxbufs: nat
    var ierrors: nat
    var rxdmamapfails: nat

    // The engine's own queue pointer.
    var dmaPtr: nat

    // The posted buffers from tail to head and the frames waiting in the first of them.
    ghost var bufs: seq<Buf>
    ghost var arrived: seq<Frame>

    ghost predicate RingInv()
      reads `tlPtr, `dmaPtr, `bufs, `arrived, rxring, rxringM
    {
      && rxring.Length == rxringM.Length == NUM_RX_DESCS
      && tlPtr < NUM_RX_DESCS
      && |arrived| <= |bufs| <= NUM_RX_DESCS
      && RingOk(rxring[..], rxringM[..], tlPtr, bufs, arrived)
      && dmaPtr == Advance(tlPtr, |arrived|)
    }

    ghost predicate Valid()
      reads this, rxring, rxringM
    {
      && RingInv()
      && queued == |bufs|
      && hdPtr == Advance(tlPtr, queued)
    }

    constructor (n: nat)
      ensures Valid() && fresh(rxring) && fresh(rxringM)
      ensures rxbufs == n && bufs == [] && ierrors == 0
    {
      rxring := new Desc[NUM_RX_DESCS](i => Desc(true, i == NUM_RX_DESCS - 1, 0, Ctl(false, false, false, 0)));
      rxringM := new Option<Mbuf>[NUM_RX_DESCS](_ => None);
      hdPtr, tlPtr, queued, rxbufs := 0, 0, 0, n;
      ierrors, rxdmamapfails, dmaPtr := 0, 0, 0;
      bufs, arrived := [], [];
      new;
      EmptyRing(rxring[..], rxringM[..]);
    }

    // The engine writes one frame at the address its descriptor gives, or finds OWN at its pointer and drops it.
    method EngineReceives(ctl: Ctl) returns (at: Option<nat>)
      requires RingInv()
      modifies rxring, this`dmaPtr, this`arrived
      ensures RingInv()
      ensures old(arrived) <= arrived
      ensures |old(arrived)| < |bufs| ==> arrived == old(arrived) + [Frame(bufs[|old(arrived)|], ctl)]
      ensures |old(arrived)| < |bufs| ==> at == Some(bufs[|old(arrived)|].addr)
      ensures |old(arrived)| == |bufs| ==> arrived == old(arrived) && at == None
    {
      hide RingOk;
      Arrive(rxring[..], rxringM[..], tlPtr, bufs, arrived, ctl);
      if rxring[dmaPtr].own {
        assert |arrived| == |bufs|;
        return None;
      }
      at := Some(rxring[dmaPtr].buf);
      ghost var ring := rxring[..];
      rxring[dmaPtr] := rxring[dmaPtr].(own := true, ctl := ctl);
      assert rxring[..] == ring[dmaPtr := ring[dmaPtr].(own := true, ctl := ctl)];
      dmaPtr := if rxring[dmaPtr].wrap then 0 else dmaPtr + 1;
      arrived := arrived + [Frame(bufs[|arrived|], ctl)];
    }

    method EngineRuns()
      requires RingInv()
      modifies rxring, this`dmaPtr, this`arrived
      ensures RingInv()
      ensures old(arrived) <= arrived
    {
      var n: nat := *;
      while n > 0
        invariant RingInv()
        invariant old(arrived) <= arrived
      {
        var ctl: Ctl := *;
        var _ := EngineReceives(ctl);
        n := n - 1;
      }
    }

    // Posts the buffers that can be had, up to rxbufs; returns the mbufs freed because they had no mapping.
    // A 257th posted buffer would land on a slot in use (PostCollides): there the model stops and says so.
    method FillRqueue(buffers: seq<Buffer>) returns (failed: seq<Mbuf>, overrun: bool)
      requires Valid()
      modifies this, rxring, rxringM
      ensures Valid()
      ensures var filling := Fill(|old(bufs)|, rxbufs, buffers);
        && (overrun <==> NUM_RX_DESCS < |old(bufs)| + |filling.posted|)
        && (overrun <==> TooMany(|old(bufs)|, rxbufs, buffers))
        && (overrun ==> old(bufs) <= bufs < old(bufs) + filling.posted && |bufs| == NUM_RX_DESCS && failed == [])
        && (!overrun ==> bufs == old(bufs) + filling.posted && failed == filling.failed)
      ensures old(arrived) <= arrived && ierrors == old(ierrors) && rxbufs == old(rxbufs)
      ensures rxdmamapfails == old(rxdmamapfails) + |failed|
    {
      hide RingOk, Advance, Fill, FillGoesOn;
      FillStarts(|bufs|, rxbufs, buffers);
      OverrunsExactly(|bufs|, rxbufs, buffers);
      failed, overrun := [], false;
      ghost var posted: seq<Buf> := [];
      var i := 0;
      while queued < rxbufs && i < |buffers| && !buffers[i].NoMbuf?
        invariant Valid() && i <= |buffers| && bufs == old(bufs) + posted
        invariant old(arrived) <= arrived && ierrors == old(ierrors) && rxbufs == old(rxbufs)
        invariant rxdmamapfails == old(rxdmamapfails)
        invariant FillGoesOn(|old(bufs)|, rxbufs, buffers, posted, queued, i)
        decreases |buffers| - i
      {
        FillStep(|old(bufs)|, rxbufs, buffers, posted, queued, i);
        if buffers[i].NotMapped? {
          rxdmamapfails := rxdmamapfails + 1;
          failed := [buffers[i].m];
          return;
        }
        if queued == NUM_RX_DESCS {
          overrun := true;
          return;
        }
        PostBuffer(buffers[i].m, buffers[i].addr);
        posted := posted + [Buf(buffers[i].m, buffers[i].addr)];
        i := i + 1;
      }
      FillStep(|old(bufs)|, rxbufs, buffers, posted, queued, i);
    }

    method WriteSlot(i: nat, d: Desc, m: Mbuf)
      requires rxring.Length == rxringM.Length == NUM_RX_DESCS && i < NUM_RX_DESCS
      modifies rxring, rxringM
      ensures rxring[..] == old(rxring[..])[i := d] && rxringM[..] == old(rxringM[..])[i := Some(m)]
    {
      rxringM[i] := Some(m);
      rxring[i] := d;
    }

    method PostBuffer(m: Mbuf, addr: nat)
      requires Valid() && queued < NUM_RX_DESCS
      modifies this, rxring, rxringM
      ensures Valid()
      ensures bufs == old(bufs) + [Buf(m, addr)] && old(arrived) <= arrived && queued == old(queued) + 1
      ensures ierrors == old(ierrors) && rxbufs == old(rxbufs) && rxdmamapfails == old(rxdmamapfails)
    {
      hide RingOk, Good, Advance;
      EngineRuns();
      var d := Desc(false, hdPtr == NUM_RX_DESCS - 1, addr, Ctl(false, false, false, 0));
      Post(rxring[..], rxringM[..], tlPtr, bufs, arrived, Buf(m, addr), d);
      WriteSlot(hdPtr, d, m);
      StepIndex(hdPtr);
      bufs := bufs + [Buf(m, addr)];
      hdPtr := if hdPtr == NUM_RX_DESCS - 1 then 0 else hdPtr + 1;
      queued := queued + 1;
      EngineRuns();
    }

    // Takes the buffer at the tail, which the engine has filled, off the ring.
    method PopBuffer() returns (f: Frame)
      requires Valid() && bufs != [] && arrived != []
      modifies this, rxringM
      ensures Valid()
      ensures f == old(arrived)[0] && f.buf == old(bufs)[0]
      ensures bufs == old(bufs)[1..] && arrived == old(arrived)[1..]
      ensures ierrors == old(ierrors) && rxbufs == old(rxbufs)
    {
      hide RingOk, Good, Advance;
      Pop(rxring[..], rxringM[..], tlPtr, bufs, arrived);
      f := Frame(Buf(rxringM[tlPtr].value, rxring[tlPtr].buf), rxring[tlPtr].ctl);
      ghost var ring, ms := rxring[..], rxringM[..];
      rxringM[tlPtr] := None;
      assert rxringM[..] == ms[tlPtr := None] && rxring[..] == ring;
      StepIndex(tlPtr);
      tlPtr := if tlPtr + 1 == NUM_RX_DESCS then 0 else tlPtr + 1;
      queued := queued - 1;
      bufs, arrived := bufs[1..], arrived[1..];
    }

    // Takes one frame off the ring and counts it if it is not one of the good ones.
    method PopFrame() returns (f: Frame)
      requires Valid() && arrived != []
      modifies this, rxringM
      ensures Valid() && rxbufs == old(rxbufs)
      ensures f == old(arrived)[0] && f.buf == old(bufs)[0]
      ensures bufs == old(bufs)[1..] && arrived == old(arrived)[1..]
      ensures ierrors == old(ierrors) + (if Deliverable(f.ctl) then 0 else 1)
    {
      hide RingOk, Advance, Deliverable;
      f := PopBuffer();
      if !Deliverable(f.ctl) {
        ierrors := ierrors + 1;
      }
    }

    // Takes one frame while the engine goes on; OWN at the tail then tells whether there is another.
    method TakeFrame() returns (f: Frame)
      requires Valid() && arrived != []
      modifies this, rxring, rxringM
      ensures Valid() && rxbufs == old(rxbufs)
      ensures f == old(arrived)[0] && f.buf == old(bufs)[0]
      ensures bufs == old(bufs)[1..] && old(arrived)[1..] <= arrived
      ensures ierrors == old(ierrors) + (if Deliverable(f.ctl) then 0 else 1)
      ensures bufs != [] ==> (rxring[tlPtr].own <==> arrived != [])
    {
      hide RingOk, Advance, Deliverable;
      f := PopFrame();
      EngineRuns();
      TailFilled(rxring[..], rxringM[..], tlPtr, bufs, arrived);
    }

    /**
     Takes every filled buffer off the ring, oldest first: whatever had arrived before the call, and what
     arrives while it drains.  The good frames go to the stack, the buffers of the others are freed.
     */
    method Drain() returns (batch: seq<Frame>, dropped: seq<Mbuf>, ghost taken: seq<Frame>)
      requires Valid()
      modifies this, rxring, rxringM
      ensures Valid() && rxbufs == old(rxbufs)
      ensures |old(arrived)| <= |taken| && Takes(old(bufs), old(arrived), taken, bufs, arrived)
      ensures batch == Good(taken) && dropped == Bad(taken) && ierrors == old(ierrors) + |dropped|
    {
      hide RingOk, Advance, Deliverable, Good, Bad;
      batch, dropped, taken := [], [], [];
      SortNone();
      EngineRuns();
      TailFilled(rxring[..], rxringM[..], tlPtr, bufs, arrived);
      assert Takes(old(bufs), old(arrived), taken, bufs, arrived);
      hide Takes;
      while queued > 0 && rxring[tlPtr].own
        invariant Valid() && rxbufs == old(rxbufs)
        invariant Takes(old(bufs), old(arrived), taken, bufs, arrived)
        invariant batch == Good(taken) && dropped == Bad(taken) && ierrors == old(ierrors) + |dropped|
        invariant bufs != [] ==> (rxring[tlPtr].own <==> arrived != [])
        decreases queued
      {
        ghost var bufs', arrived' := bufs, arrived;
        var f := TakeFrame();
        TakesOne(old(bufs), old(arrived), taken, bufs', arrived', f, arrived);
        if Deliverable(f.ctl) {
          batch := batch + [f];
        } else {
          dropped := dropped + [f.buf.m];
        }
        SortOne(taken, f);
        taken := taken + [f];
      }
      AllTaken(old(bufs), old(arrived), taken, bufs);
    }

    // One call of the receive path: drain the ring, post new buffers, hand over the good frames.
    method Recv(buffers: seq<Buffer>)
      returns (batch: seq<Frame>, dropped: seq<Mbuf>, failed: seq<Mbuf>, overrun: bool, ghost taken: seq<Frame>)
      requires Valid()
      modifies this, rxring, rxringM
      ensures Valid() && rxbufs == old(rxbufs)
      ensures |old(arrived)| <= |taken| <= |old(bufs)| && old(arrived) <= taken + arrived
      ensures forall k :: 0 <= k < |taken| ==> taken[k].buf == old(bufs)[k]
      ensures batch == Good(taken) && dropped == Bad(taken) && ierrors == old(ierrors) + |dropped|
      ensures var q := |old(bufs)| - |taken|;
        var filling := Fill(q, rxbufs, buffers);
        && (overrun <==> NUM_RX_DESCS < q + |filling.posted|)
        && (overrun <==> TooMany(q, rxbufs, buffers))
        && (!overrun ==> bufs == old(bufs)[|taken|..] + filling.posted && failed == filling.failed)
    {
      hide RingOk, Advance, Good, Bad, Fill;
      batch, dropped, taken := Drain();
      failed, overrun := FillRqueue(buffers);
    }

    // Frees every posted buffer, filled or not, and restarts the indices.
    method Stop() returns (freed: seq<Mbuf>)
      requires Valid()
      modifies this, rxring, rxringM
      ensures Valid() && bufs == [] && arrived == []
      ensures multiset(freed) == multiset(MbufsOf(old(bufs)))
      ensures ierrors == old(ierrors) && rxbufs == old(rxbufs)
    {
      SweepFindsPosted(rxring[..], rxringM[..], tlPtr, bufs, arrived);
      freed := Sweep();
      hdPtr, tlPtr, queued, dmaPtr := 0, 0, 0, 0;
      bufs, arrived := [], [];
      EmptyRing(rxring[..], rxringM[..]);
    }

    method Sweep() returns (freed: seq<Mbuf>)
      requires rxring.Length == rxringM.Length == NUM_RX_DESCS
      modifies rxring, rxringM
      ensures freed == Present(old(rxringM[..]))
      ensures forall i :: 0 <= i < NUM_RX_DESCS ==>
        rxringM[..][i] == None && rxring[..][i].own && (rxring[..][i].wrap <==> i == NUM_RX_DESCS - 1)
    {
      ghost var ms := rxringM[..];
      freed := [];
      var i := 0;
      while i < NUM_RX_DESCS
        invariant i <= NUM_RX_DESCS
        invariant freed == Present(ms[..i])
        invariant forall j :: 0 <= j < i ==> rxringM[j] == None && rxring[j].own && !rxring[j].wrap
        invariant forall j :: i <= j < NUM_RX_DESCS ==> rxringM[j] == ms[j]
      {
        assert ms[..i + 1][..i] == ms[..i];
        rxring[i] := Desc(true, false, 0, Ctl(false, false, false, 0));
        if rxringM[i].Some? {
          freed := freed + [rxringM[i].value];
          rxringM[i] := None;
        }
        i := i + 1;
      }
      assert ms[..i] == ms;
      rxring[NUM_RX_DESCS - 1] := rxring[NUM_RX_DESCS - 1].(wrap := true);
    }
  }

  lemma StepIndex(tl: nat)
    requires tl < NUM_RX_DESCS
    ensures Advance(tl, 1) == if tl + 1 == NUM_RX_DESCS then 0 else tl + 1
  {
  }

  // What the driver finds at its tail: OWN there means that a frame is waiting.
  lemma TailFilled(ring: seq<Desc>, ms: seq<Option<Mbuf>>, tl: nat, bufs: seq<Buf>, arrived: seq<Frame>)
    requires RingOk(ring, ms, tl, bufs, arrived)
    ensures |ring| == NUM_RX_DESCS && tl < NUM_RX_DESCS && |arrived| <= |bufs|
    ensures bufs != [] ==> (ring[tl].own <==> arrived != [])
  {
    assert SlotOk(ring[tl], ms[tl], tl, 0, bufs, arrived);
  }

  // Every waiting frame lies in the posted buffer of the same rank.
  ghost predicate Fits(bufs: seq<Buf>, waiting: seq<Frame>) {
    |waiting| <= |bufs| && forall k :: 0 <= k < |waiting| ==> waiting[k].buf == bufs[k]
  }

  lemma WaitingFits(ring: seq<Desc>, ms: seq<Option<Mbuf>>, tl: nat, bufs: seq<Buf>, arrived: seq<Frame>)
    requires RingOk(ring, ms, tl, bufs, arrived)
    ensures Fits(bufs, arrived)
  {
    forall k | 0 <= k < |arrived| ensures arrived[k].buf == bufs[k] {
      var i := Advance(tl, k);
      DistAdvance(tl, k);
      assert SlotOk(ring[i], ms[i], i, Dist(tl, i), bufs, arrived);
    }
  }

  datatype Op = Recv(buffers: seq<Buffer>) | Refill(buffers: seq<Buffer>) | Stop | SetRxbufs(n: nat) | Arrives(ctl: Ctl)

  // What one operation returns.
  datatype Event =
    | Received(batch: seq<Frame>, dropped: seq<Mbuf>, failed: seq<Mbuf>)
    | Refilled(failed: seq<Mbuf>)
    | Swept(freed: seq<Mbuf>)
    | Done

  /**
   What a caller knows of the ring: the posted buffers from oldest to newest, the frames waiting in the
   first of them, the limit on posted buffers and the input errors counted.
   */
  datatype Book = Book(bufs: seq<Buf>, waiting: seq<Frame>, rxbufs: nat, ierrors: nat)

  function Posted(b: Book, op: Op, e: Event): seq<Buf> {
    match op
    case Recv(buffers) =>
      if e.Received? && Popped(e) <= |b.bufs| then Fill(|b.bufs| - Popped(e), b.rxbufs, buffers).posted else []
    case Refill(buffers) => Fill(|b.bufs|, b.rxbufs, buffers).posted
    case _ => []
  }

  // The number of frames that a call took off the ring.
  function Popped(e: Event): nat {
    if e.Received? then |e.batch| + |e.dropped| else 0
  }

  // An operation that takes p frames off the ring goes on to post a 257th buffer.
  ghost predicate Overruns(b: Book, op: Op, p: nat) {
    && p <= |b.bufs|
    && match op
       case Recv(buffers) => NUM_RX_DESCS < |b.bufs| - p + |Fill(|b.bufs| - p, b.rxbufs, buffers).posted|
       case Refill(buffers) => p == 0 && NUM_RX_DESCS < |b.bufs| + |Fill(|b.bufs|, b.rxbufs, buffers).posted|
       case _ => false
  }

  lemma NoOverrunWithin(b: Book, op: Op, p: nat)
    requires |b.bufs| <= NUM_RX_DESCS && b.rxbufs <= NUM_RX_DESCS
    ensures !Overruns(b, op, p)
  {
    if p <= |b.bufs| && op.Recv? {
      FillStops(|b.bufs| - p, b.rxbufs, op.buffers);
    } else if op.Refill? {
      FillStops(|b.bufs|, b.rxbufs, op.buffers);
    }
  }

  // A larger rxbufs does overrun: any refill that can have enough mapped buffers.
  lemma LargeLimitOverruns(b: Book, buffers: seq<Buffer>)
    requires |b.bufs| <= NUM_RX_DESCS < b.rxbufs && NUM_RX_DESCS < |b.bufs| + |buffers|
    requires forall buffer :: buffer in buffers ==> buffer.Ready?
    ensures Overruns(b, Refill(buffers), 0)
  {
    assert forall i :: 0 <= i < |buffers| ==> buffers[i] in buffers;
    OverrunsExactly(|b.bufs|, b.rxbufs, buffers);
  }

  // When an operation overruns, told by the limit and the buffers at hand.
  lemma OverrunMeans(b: Book, op: Op, p: nat)
    requires |b.bufs| <= NUM_RX_DESCS
    ensures Overruns(b, op, p) <==>
      && p <= |b.bufs|
      && match op
         case Recv(buffers) => TooMany(|b.bufs| - p, b.rxbufs, buffers)
         case Refill(buffers) => p == 0 && TooMany(|b.bufs|, b.rxbufs, buffers)
         case _ => false
  {
    if p <= |b.bufs| && op.Recv? {
      OverrunsExactly(|b.bufs| - p, b.rxbufs, op.buffers);
    } else if op.Refill? {
      OverrunsExactly(|b.bufs|, b.rxbufs, op.buffers);
    }
  }

  // Which events an operation may return when the frames that arrive until its end are these.
  ghost predicate Lawful(b: Book, op: Op, e: Event, came: seq<Frame>) {
    var all := b.waiting + came;
    && Fits(b.bufs + Posted(b, op, e), all)
    && !Overruns(b, op, Popped(e))
    && match op
       case Recv(buffers) =>
         && e.Received? && |b.waiting| <= Popped(e) <= |all| && Popped(e) <= |b.bufs|
         && e.batch == Good(all[..Popped(e)]) && e.dropped == Bad(all[..Popped(e)])
         && e.failed == Fill(|b.bufs| - Popped(e), b.rxbufs, buffers).failed
       case Refill(buffers) => e == Refilled(Fill(|b.bufs|, b.rxbufs, buffers).failed)
       case Stop => e.Swept? && multiset(e.freed) == multiset(MbufsOf(b.bufs)) && came == []
       case SetRxbufs(n) => e.Done? && came == []
       case Arrives(ctl) =>
         e.Done? && came == if |b.waiting| < |b.bufs| then [Frame(b.bufs[|b.waiting|], ctl)] else []
  }

  // What becomes of the book.
  ghost function Advanced(b: Book, op: Op, e: Event, came: seq<Frame>): Book
    requires Lawful(b, op, e, came)
  {
    var all := b.waiting + came;
    match op
    case Recv(_) =>
      Book(b.bufs[Popped(e)..] + Posted(b, op, e), all[Popped(e)..], b.rxbufs, b.ierrors + |e.dropped|)
    case Refill(_) => b.(bufs := b.bufs + Posted(b, op, e), waiting := all)
    case Stop => b.(bufs := [], waiting := [])
    case SetRxbufs(n) => b.(rxbufs := n)
    case Arrives(_) => b.(waiting := all)
  }

  ghost predicate LawfulRun(b: Book, ops: seq<Op>, es: seq<Event>, came: seq<seq<Frame>>)
    decreases |ops|, 0
  {
    && |ops| == |es| == |came|
    && (ops == [] ||
          var n := |ops| - 1;
          && LawfulRun(b, ops[..n], es[..n], came[..n])
          && Lawful(BookAfter(b, ops[..n], es[..n], came[..n]), ops[n], es[n], came[n]))
  }

  ghost function BookAfter(b: Book, ops: seq<Op>, es: seq<Event>, came: seq<seq<Frame>>): Book
    requires LawfulRun(b, ops, es, came)
    decreases |ops|, 1
  {
    if ops == [] then b
    else
      var n := |ops| - 1;
      Advanced(BookAfter(b, ops[..n], es[..n], came[..n]), ops[n], es[n], came[n])
  }

  ghost function BookOf(rx: RxRing): Book
    reads rx
  {
    Book(rx.bufs, rx.arrived, rx.rxbufs, rx.ierrors)
  }

  // What a step leaves: a lawful event and the book of it, unless it overran.
  ghost predicate Stepped(b: Book, op: Op, e: Event, came: seq<Frame>, overrun: bool, after: Book) {
    if overrun then exists p :: Overruns(b, op, p)
    else Lawful(b, op, e, came) && after == Advanced(b, op, e, came)
  }

  method StepRecv(rx: RxRing, buffers: seq<Buffer>) returns (e: Event, overrun: bool, ghost came: seq<Frame>)
    requires rx.Valid()
    modifies rx, rx.rxring, rx.rxringM
    ensures rx.Valid() && rx.rxbufs == old(rx.rxbufs)
    ensures Stepped(old(BookOf(rx)), Recv(buffers), e, came, overrun, BookOf(rx))
  {
    hide RingOk, Good, Bad, Fill, Advance;
    var batch, dropped, failed, over, taken := rx.Recv(buffers);
    WaitingFits(rx.rxring[..], rx.rxringM[..], rx.tlPtr, rx.bufs, rx.arrived);
    e, overrun, came := Received(batch, dropped, failed), over, (taken + rx.arrived)[|old(rx.arrived)|..];
    if overrun {
      assert Overruns(old(BookOf(rx)), Recv(buffers), |taken|);
      return;
    }
    ghost var all := old(rx.arrived) + came;
    assert all == taken + rx.arrived && all[..|taken|] == taken && all[|taken|..] == rx.arrived;
    ghost var bufs := old(rx.bufs) + Fill(|old(rx.bufs)| - |taken|, rx.rxbufs, buffers).posted;
    assert bufs[|taken|..] == rx.bufs;
    forall k | 0 <= k < |all| ensures k < |bufs| && all[k].buf == bufs[k] {
      if k >= |taken| {
        assert all[k] == rx.arrived[k - |taken|] && bufs[k] == rx.bufs[k - |taken|];
      }
    }
  }

  method StepRefill(rx: RxRing, buffers: seq<Buffer>) returns (e: Event, overrun: bool, ghost came: seq<Frame>)
    requires rx.Valid()
    modifies rx, rx.rxring, rx.rxringM
    ensures rx.Valid() && rx.rxbufs == old(rx.rxbufs)
    ensures Stepped(old(BookOf(rx)), Refill(buffers), e, came, overrun, BookOf(rx))
  {
    hide RingOk, Good, Bad, Fill, Advance;
    var failed, over := rx.FillRqueue(buffers);
    WaitingFits(rx.rxring[..], rx.rxringM[..], rx.tlPtr, rx.bufs, rx.arrived);
    e, overrun, came := Refilled(failed), over, rx.arrived[|old(rx.arrived)|..];
    if overrun {
      assert Overruns(old(BookOf(rx)), Refill(buffers), 0);
      return;
    }
    assert old(rx.arrived) + came == rx.arrived;
  }

  method StepArrives(rx: RxRing, ctl: Ctl) returns (ghost came: seq<Frame>)
    requires rx.Valid()
    modifies rx, rx.rxring
    ensures rx.Valid() && rx.rxbufs == old(rx.rxbufs)
    ensures Stepped(old(BookOf(rx)), Arrives(ctl), Done, came, false, BookOf(rx))
  {
    hide RingOk, Good, Bad, Fill, Advance;
    var _ := rx.EngineReceives(ctl);
    WaitingFits(rx.rxring[..], rx.rxringM[..], rx.tlPtr, rx.bufs, rx.arrived);
    came := rx.arrived[|old(rx.arrived)|..];
    assert old(rx.arrived) + came == rx.arrived;
  }

  method Step(rx: RxRing, op: Op) returns (e: Event, overrun: bool, ghost came: seq<Frame>)
    requires rx.Valid()
    modifies rx, rx.rxring, rx.rxringM
    ensures rx.Valid() && rx.rxbufs == if op.SetRxbufs? then op.n else old(rx.rxbufs)
    ensures Stepped(old(BookOf(rx)), op, e, came, overrun, BookOf(rx))
  {
    hide RingOk, Good, Bad, Fill, Advance;
    overrun := false;
    match op
    case Recv(buffers) =>
      e, overrun, came := StepRecv(rx, buffers);
    case Refill(buffers) =>
      e, overrun, came := StepRefill(rx, buffers);
    case Stop =>
      WaitingFits(rx.rxring[..], rx.rxringM[..], rx.tlPtr, rx.bufs, rx.arrived);
      var freed := rx.Stop();
      e, came := Swept(freed), [];
    case SetRxbufs(n) =>
      WaitingFits(rx.rxring[..], rx.rxringM[..], rx.tlPtr, rx.bufs, rx.arrived);
      rx.rxbufs := n;
      e, came := Done, [];
    case Arrives(ctl) =>
      came := StepArrives(rx, ctl);
      e := Done;
  }

  /**
   Any run of the receive side, frames arriving before and within the operations: what the operations
   return is lawful step by step, and the ring ends up as the book says.  The run is followed up to the
   first operation, if any, that goes on to post a 257th buffer; with rxbufs at most 256 there is none.
   */
  method Run(rx: RxRing, ops: seq<Op>) returns (events: seq<Event>, overrun: bool, ghost came: seq<seq<Frame>>)
    requires rx.Valid()
    modifies rx, rx.rxring, rx.rxringM
    ensures rx.Valid()
    ensures |events| <= |ops| && LawfulRun(old(BookOf(rx)), ops[..|events|], events, came)
    ensures var after := BookAfter(old(BookOf(rx)), ops[..|events|], events, came);
      if overrun then |events| < |ops| && exists p :: Overruns(after, ops[|events|], p)
      else |events| == |ops| && BookOf(rx) == after
    ensures old(rx.rxbufs) <= NUM_RX_DESCS && (forall op :: op in ops && op.SetRxbufs? ==> op.n <= NUM_RX_DESCS) ==>
      !overrun
  {
    hide RingOk, Good, Bad, Fill, Advance, Lawful, Advanced, Overruns;
    events, overrun, came := [], false, [];
    ghost var small := old(rx.rxbufs) <= NUM_RX_DESCS
      && forall op :: op in ops && op.SetRxbufs? ==> op.n <= NUM_RX_DESCS;
    for i := 0 to |ops|
      invariant rx.Valid() && |events| == i && !overrun
      invariant small ==> rx.rxbufs <= NUM_RX_DESCS
      invariant LawfulRun(old(BookOf(rx)), ops[..i], events, came)
      invariant BookOf(rx) == BookAfter(old(BookOf(rx)), ops[..i], events, came)
    {
      ghost var before := BookOf(rx);
      assert ops[i] in ops;
      var e, over, c := Step(rx, ops[i]);
      if over {
        WithinBounds(before, ops[i]);
        overrun := true;
        return;
      }
      events, came := events + [e], came + [c];
      assert events[..i] == events[..|events| - 1] && came[..i] == came[..|came| - 1];
      assert ops[..i + 1][..i] == ops[..i];
    }
    assert ops[..|ops|] == ops;
  }

  lemma WithinBounds(b: Book, op: Op)
    requires |b.bufs| <= NUM_RX_DESCS
    ensures b.rxbufs <= NUM_RX_DESCS ==> !exists p :: Overruns(b, op, p)
  {
    forall p | b.rxbufs <= NUM_RX_DESCS ensures !Overruns(b, op, p) {
      NoOverrunWithin(b, op, p);
    }
  }

  // The frames that an operation takes off the ring, and those that go with it when it is stopped.
  ghost function PoppedIn(b: Book, op: Op, e: Event, came: seq<Frame>): seq<Frame>
    requires Lawful(b, op, e, came)
  {
    (b.waiting + came)[..Popped(e)]
  }

  ghost function SettledIn(b: Book, op: Op, e: Event, came: seq<Frame>): seq<Frame>
    requires Lawful(b, op, e, came)
  {
    if op.Stop? then b.waiting else PoppedIn(b, op, e, came)
  }

  // Over a run, in its order: the frames that arrived, were popped, were popped or lost to a stop, were
  // delivered, and the buffers that were posted.
  ghost function ArrivedBy(came: seq<seq<Frame>>): seq<Frame> {
    if came == [] then [] else ArrivedBy(came[..|came| - 1]) + came[|came| - 1]
  }

  ghost function PoppedBy(b: Book, ops: seq<Op>, es: seq<Event>, came: seq<seq<Frame>>): seq<Frame>
    requires LawfulRun(b, ops, es, came)
    decreases |ops|
  {
    if ops == [] then []
    else
      var n := |ops| - 1;
      var before := BookAfter(b, ops[..n], es[..n], came[..n]);
      PoppedBy(b, ops[..n], es[..n], came[..n]) + PoppedIn(before, ops[n], es[n], came[n])
  }

  ghost function SettledBy(b: Book, ops: seq<Op>, es: seq<Event>, came: seq<seq<Frame>>): seq<Frame>
    requires LawfulRun(b, ops, es, came)
    decreases |ops|
  {
    if ops == [] then []
    else
      var n := |ops| - 1;
      var before := BookAfter(b, ops[..n], es[..n], came[..n]);
      SettledBy(b, ops[..n], es[..n], came[..n]) + SettledIn(before, ops[n], es[n], came[n])
  }

  function DeliveredIn(e: Event): seq<Frame> {
    if e.Received? then e.batch else []
  }

  function DeliveredBy(es: seq<Event>): seq<Frame> {
    if es == [] then [] else DeliveredBy(es[..|es| - 1]) + DeliveredIn(es[|es| - 1])
  }

  lemma StepInOrder(b: Book, op: Op, e: Event, came: seq<Frame>)
    requires Lawful(b, op, e, came)
    ensures b.waiting + came == SettledIn(b, op, e, came) + Advanced(b, op, e, came).waiting
    ensures DeliveredIn(e) == Good(PoppedIn(b, op, e, came))
    ensures Advanced(b, op, e, came).ierrors - b.ierrors == Popped(e) - |DeliveredIn(e)|
    ensures |PoppedIn(b, op, e, came)| == Popped(e)
  {
    SortNone();
    hide Good, Bad, Fill;
  }

  /**
   In arrival order: over any run, the frames that arrived are, in this order, those popped by the driver
   (or lost when it was stopped) and those still waiting; what the stack got is exactly the good ones
   among those popped, and every other popped frame counts as one input error.
   */
  lemma {:induction false} RunInOrder(b: Book, ops: seq<Op>, es: seq<Event>, came: seq<seq<Frame>>)
    requires LawfulRun(b, ops, es, came)
    ensures var after := BookAfter(b, ops, es, came);
      && b.waiting + ArrivedBy(came) == SettledBy(b, ops, es, came) + after.waiting
      && (Stop !in ops ==> PoppedBy(b, ops, es, came) == SettledBy(b, ops, es, came))
      && DeliveredBy(es) == Good(PoppedBy(b, ops, es, came))
      && after.ierrors - b.ierrors == |PoppedBy(b, ops, es, came)| - |DeliveredBy(es)|
    decreases |ops|
  {
    SortNone();
    hide Good, Lawful, Advanced, PoppedIn, Popped, DeliveredIn;
    if ops != [] {
      var n := |ops| - 1;
      var ops', es', came' := ops[..n], es[..n], came[..n];
      RunInOrder(b, ops', es', came');
      var mid := BookAfter(b, ops', es', came');
      StepInOrder(mid, ops[n], es[n], came[n]);
      GoodAppend(PoppedBy(b, ops', es', came'), PoppedIn(mid, ops[n], es[n], came[n]));
      var settled := SettledBy(b, ops', es', came');
      assert b.waiting + ArrivedBy(came) == b.waiting + ArrivedBy(came') + came[n] == settled + (mid.waiting + came[n]);
    }
  }

  // The buffers that leave the ring: those of the frames popped, and those that stop frees.
  ghost function GoneIn(b: Book, op: Op, e: Event, came: seq<Frame>): multiset<Mbuf>
    requires Lawful(b, op, e, came)
  {
    if e.Swept? then multiset(e.freed) else multiset(MbufsOf(BufsOf(PoppedIn(b, op, e, came))))
  }

  function BufsOf(fs: seq<Frame>): (bs: seq<Buf>)
    ensures |bs| == |fs|
  {
    seq(|fs|, k requires 0 <= k < |fs| => fs[k].buf)
  }

  // Over a run: the buffers posted, and those that have left the ring.
  ghost function PostedBy(b: Book, ops: seq<Op>, es: seq<Event>, came: seq<seq<Frame>>): multiset<Mbuf>
    requires LawfulRun(b, ops, es, came)
    decreases |ops|
  {
    if ops == [] then multiset{}
    else
      var n := |ops| - 1;
      var before := BookAfter(b, ops[..n], es[..n], came[..n]);
      PostedBy(b, ops[..n], es[..n], came[..n]) + multiset(MbufsOf(Posted(before, ops[n], es[n])))
  }

  ghost function GoneBy(b: Book, ops: seq<Op>, es: seq<Event>, came: seq<seq<Frame>>): multiset<Mbuf>
    requires LawfulRun(b, ops, es, came)
    decreases |ops|
  {
    if ops == [] then multiset{}
    else
      var n := |ops| - 1;
      var before := BookAfter(b, ops[..n], es[..n], came[..n]);
      GoneBy(b, ops[..n], es[..n], came[..n]) + GoneIn(before, ops[n], es[n], came[n])
  }

  lemma PoppedBufs(bufs: seq<Buf>, posted: seq<Buf>, all: seq<Frame>, p: nat)
    requires Fits(bufs + posted, all) && p <= |all| && p <= |bufs|
    ensures multiset(MbufsOf(bufs)) + multiset(MbufsOf(posted))
         == multiset(MbufsOf(BufsOf(all[..p]))) + multiset(MbufsOf(bufs[p..] + posted))
  {
    assert BufsOf(all[..p]) == bufs[..p] by {
      forall k | 0 <= k < p ensures all[k].buf == bufs[k] {
        assert (bufs + posted)[k] == bufs[k];
      }
    }
    assert bufs == bufs[..p] + bufs[p..];
    MbufsAppend(bufs[..p], bufs[p..]);
    MbufsAppend(bufs[p..], posted);
  }

  lemma StepConserves(b: Book, op: Op, e: Event, came: seq<Frame>)
    requires Lawful(b, op, e, came)
    ensures multiset(MbufsOf(b.bufs)) + multiset(MbufsOf(Posted(b, op, e)))
         == GoneIn(b, op, e, came) + multiset(MbufsOf(Advanced(b, op, e, came).bufs))
  {
    hide Good, Bad, Fill, Fits, MbufsOf, BufsOf;
    if op.Recv? {
      PoppedBufs(b.bufs, Posted(b, op, e), b.waiting + came, Popped(e));
    } else {
      assert MbufsOf([]) == [] && BufsOf([]) == [];
      MbufsAppend(b.bufs, Posted(b, op, e));
    }
  }

  // Every buffer posted leaves the ring once: by being popped, or freed by a stop.
  lemma {:induction false} RunConserves(b: Book, ops: seq<Op>, es: seq<Event>, came: seq<seq<Frame>>)
    requires LawfulRun(b, ops, es, came)
    ensures multiset(MbufsOf(b.bufs)) + PostedBy(b, ops, es, came)
         == GoneBy(b, ops, es, came) + multiset(MbufsOf(BookAfter(b, ops, es, came).bufs))
    decreases |ops|
  {
    hide Lawful, Advanced, Posted, GoneIn, MbufsOf;
    if ops != [] {
      var n := |ops| - 1;
      var ops', es', came' := ops[..n], es[..n], came[..n];
      RunConserves(b, ops', es', came');
      var mid := BookAfter(b, ops', es', came');
      StepConserves(mid, ops[n], es[n], came[n]);
      Chained(multiset(MbufsOf(b.bufs)), PostedBy(b, ops', es', came'), GoneBy(b, ops', es', came'),
              multiset(MbufsOf(mid.bufs)), multiset(MbufsOf(Posted(mid, ops[n], es[n]))),
              GoneIn(mid, ops[n], es[n], came[n]), multiset(MbufsOf(Advanced(mid, ops[n], es[n], came[n]).bufs)));
    }
  }
}
