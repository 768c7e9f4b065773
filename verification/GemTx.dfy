/**
 The transmit half of the Ethernet driver: enqueue, reclaim and stop over the descriptor ring, with
 the GEM's DMA engine as a second actor that may send any number of frames at every point where
 the driver has just touched the ring.
 */
module GemTx {
  import opened Options
  import opened Slots
  import opened GemTxLayout
  import opened GemTxRing

  // What the DMA map calls answer for one mbuf taken from the send queue.
  datatype Load =
    | Loaded(segs: Segments)
    | TooManySegs(defragged: Option<Mbuf>, reload: Option<Segments>)
    | LoadFailed

  datatype Request = Request(m: Mbuf, mapCreated: bool, load: Load)

  // An mbuf held by the ring and the segments it takes there.
  datatype Held = Held(m: Mbuf, segs: Segments)

  // The mbuf and segments that reach the ring for a request, if any does.
  function Placeable(r: Request): Option<Held> {
    if !r.mapCreated then None
    else match r.load
      case Loaded(segs) => Some(Held(r.m, segs))
      case TooManySegs(Some(m2), Some(segs)) => Some(Held(m2, segs))
      case TooManySegs(_, _) => None
      case LoadFailed => None
  }

  // The mbuf the driver frees when none reaches the ring; m_defrag has freed the original itself.
  function DroppedMbuf(r: Request): Mbuf {
    if r.mapCreated && r.load.TooManySegs? && r.load.defragged.Some? then r.load.defragged.value else r.m
  }

  function Placements(rs: seq<Request>): seq<Held> {
    if rs == [] then []
    else
      var r := rs[|rs| - 1];
      Placements(rs[..|rs| - 1]) + (if Placeable(r).Some? then [Placeable(r).value] else [])
  }

  function AllDropped(rs: seq<Request>): seq<Mbuf> {
    if rs == [] then []
    else
      var r := rs[|rs| - 1];
      AllDropped(rs[..|rs| - 1]) + (if Placeable(r).Some? then [] else [DroppedMbuf(r)])
  }

  // Requests further on only add to what the earlier ones came to.
  lemma {:induction false} EarlierFirst(rs: seq<Request>, n: nat)
    requires n <= |rs|
    ensures Placements(rs[..n]) <= Placements(rs) && AllDropped(rs[..n]) <= AllDropped(rs)
  {
    if n < |rs| {
      EarlierFirst(rs[..|rs| - 1], n);
      assert rs[..|rs| - 1][..n] == rs[..n];
    } else {
      assert rs[..n] == rs;
    }
  }

  // What the i-th request comes to, where p were placed and d dropped before it: one of the two, once.
  ghost predicate PlacedAt(rs: seq<Request>, i: nat, h: Held)
    requires i < |rs|
  {
    var p := |Placements(rs[..i])|;
    && p < |Placements(rs)| && Placements(rs)[p] == h
    && |Placements(rs[..i + 1])| == p + 1 && AllDropped(rs[..i + 1]) == AllDropped(rs[..i])
  }

  ghost predicate DroppedAt(rs: seq<Request>, i: nat, m: Mbuf)
    requires i < |rs|
  {
    var d := |AllDropped(rs[..i])|;
    && d < |AllDropped(rs)| && AllDropped(rs)[d] == m
    && |AllDropped(rs[..i + 1])| == d + 1 && Placements(rs[..i + 1]) == Placements(rs[..i])
  }

  /**
   The fate of every request: an mbuf that maps is placed with its segments; one with too many segments
   is placed defragmented, if that works and the result maps, or else the defragmented one is dropped;
   any other is dropped itself.
   */
  lemma RequestFate(rs: seq<Request>, i: nat)
    requires i < |rs|
    ensures var r := rs[i];
      if !r.mapCreated then DroppedAt(rs, i, r.m)
      else match r.load
        case Loaded(segs) => PlacedAt(rs, i, Held(r.m, segs))
        case TooManySegs(None, _) => DroppedAt(rs, i, r.m)
        case TooManySegs(Some(m2), None) => DroppedAt(rs, i, m2)
        case TooManySegs(Some(m2), Some(segs)) => PlacedAt(rs, i, Held(m2, segs))
        case LoadFailed => DroppedAt(rs, i, r.m)
  {
    EarlierFirst(rs, i + 1);
    assert rs[..i + 1][..i] == rs[..i] && rs[..i + 1][i] == rs[i];
  }

  function MbufsOf(hs: seq<Held>): (ms: seq<Mbuf>)
    ensures |ms| == |hs|
    ensures forall k :: 0 <= k < |hs| ==> ms[k] == hs[k].m
  {
    seq(|hs|, k requires 0 <= k < |hs| => hs[k].m)
  }

  // The number of descriptors that these mbufs take.
  function Descs(hs: seq<Held>): nat {
    if hs == [] then 0 else |hs[0].segs| + Descs(hs[1..])
  }

  // What the ring holds when these frames are queued.
  ghost function HeldOf(fs: seq<Frame>): (hs: seq<Held>)
    ensures |hs| == |fs|
    ensures forall k :: 0 <= k < |fs| ==> hs[k] == Held(fs[k].m, fs[k].segs)
  {
    seq(|fs|, k requires 0 <= k < |fs| => Held(fs[k].m, fs[k].segs))
  }

  lemma {:induction false} DescsOfFrames(fs: seq<Frame>)
    ensures Descs(HeldOf(fs)) == Total(fs)
  {
    if fs != [] {
      assert HeldOf(fs)[1..] == HeldOf(fs[1..]);
      DescsOfFrames(fs[1..]);
    }
  }

  // Of all these mbufs, in this order, the first have been reclaimed and the rest are held.
  ghost predicate Accounted(all: seq<Held>, reclaimed: seq<Mbuf>, held: seq<Held>) {
    && |reclaimed| <= |all|
    && reclaimed == MbufsOf(all[..|reclaimed|])
    && held == all[|reclaimed|..]
  }

  lemma AccountPlaced(all: seq<Held>, reclaimed: seq<Mbuf>, held: seq<Held>, hs: seq<Held>)
    requires Accounted(all, reclaimed, held)
    ensures Accounted(all + hs, reclaimed, held + hs)
  {
    assert (all + hs)[..|reclaimed|] == all[..|reclaimed|];
  }

  lemma AccountFreed(all: seq<Held>, reclaimed: seq<Mbuf>, held: seq<Held>, freed: seq<Mbuf>, held': seq<Held>)
    requires Accounted(all, reclaimed, held) && Accounted(held, freed, held')
    ensures Accounted(all, reclaimed + freed, held')
  {
    assert all[..|reclaimed + freed|] == all[..|reclaimed|] + held[..|freed|];
  }

  // As many of these reports as there are frames for.
  function FirstOf(reports: seq<Report>, room: nat): seq<Report> {
    if |reports| <= room then reports else reports[..room]
  }

  // The outcome counters.
  datatype Counts = Counts(opackets: nat, oerrors: nat, ahbErrors: nat)

  // A frame counts once: as an AHB error if that was reported, else as an output error, else as a packet.
  function Tally(c: Counts, rs: seq<Report>): Counts {
    if rs == [] then c
    else
      var before, r := Tally(c, rs[..|rs| - 1]), rs[|rs| - 1];
      if r.ahbErr then before.(ahbErrors := before.ahbErrors + 1)
      else if r.txErr then before.(oerrors := before.oerrors + 1)
      else before.(opackets := before.opackets + 1)
  }

  lemma TallyNext(c: Counts, rs: seq<Report>, r: Report)
    ensures Tally(c, rs + [r]) == Tally(Tally(c, rs), [r])
    ensures Tally(c, []) == c
    ensures Tally(c, [r]) ==
      if r.ahbErr then c.(ahbErrors := c.ahbErrors + 1)
      else if r.txErr then c.(oerrors := c.oerrors + 1)
      else c.(opackets := c.opackets + 1)
  {
    assert (rs + [r])[..|rs|] == rs && [r][..0] == [];
  }

  lemma TallyNone(c: Counts)
    ensures Tally(c, []) == c
  {
  }

  lemma {:induction false} TallyAppend(c: Counts, rs: seq<Report>, more: seq<Report>)
    ensures Tally(c, rs + more) == Tally(Tally(c, rs), more)
    decreases |more|
  {
    if more == [] {
      assert rs + more == rs;
    } else {
      TallyAppend(c, rs, more[..|more| - 1]);
      assert (rs + more)[..|rs + more| - 1] == rs + more[..|more| - 1];
    }
  }

  // Where the engine had reported `before` and the counters stood at `start`, these reports have been counted
  // since, and these are still in the ring.
  ghost predicate CountedOff(before: seq<Report>, start: Counts, done: seq<Report>, told: seq<Report>, counts: Counts) {
    before <= done + told && counts == Tally(start, done)
  }

  lemma NoneCounted(told: seq<Report>, told': seq<Report>, counts: Counts)
    requires told <= told'
    ensures CountedOff(told, counts, [], told', counts)
  {
    assert [] + told' == told';
  }

  lemma CountMore(before: seq<Report>, start: Counts, done: seq<Report>, told: seq<Report>, counts: Counts,
                  more: seq<Report>, told': seq<Report>, counts': Counts)
    requires CountedOff(before, start, done, told, counts)
    requires CountedOff(told, counts, more, told', counts')
    ensures CountedOff(before, start, done + more, told', counts')
  {
    TallyAppend(start, done, more);
    hide Tally;
    assert done + more + told' == done + (more + told');
    assert done + told <= done + (more + told');
  }

  // A sweep over the slots finds every queued mbuf once, and nothing else.
  lemma {:induction false} SweepFindsQueued(ms: seq<Option<Mbuf>>, fs: seq<Frame>, tl: nat, hd: nat)
    requires MbufsOk(ms, fs)
    requires Layout(fs, tl, hd)
    ensures multiset(Present(ms)) == multiset(Mbufs(fs))
    decreases fs
  {
    hide Present;
    if fs == [] {
      PresentNone(ms);
    } else {
      hide MbufsOk;
      MbufsPop(ms, fs, tl, hd);
      SweepFindsQueued(ms[tl := None], fs[1..], fs[0].Next(), hd);
      PresentClear(ms, tl);
      assert Mbufs(fs) == [fs[0].m] + Mbufs(fs[1..]);
    }
  }

  lemma MbufsPop(ms: seq<Option<Mbuf>>, fs: seq<Frame>, tl: nat, hd: nat)
    requires MbufsOk(ms, fs) && fs != []
    requires Layout(fs, tl, hd)
    ensures ms[tl] == Some(fs[0].m)
    ensures MbufsOk(ms[tl := None], fs[1..])
  {
    var ms', rest := ms[tl := None], fs[1..];
    FramesDisjoint(fs, tl, hd);
    forall k | 0 <= k < |rest| ensures rest[k].start < NUM_TX_DESCS && ms'[rest[k].start] == Some(rest[k].m) {
      assert rest[k] == fs[k + 1];
    }
    forall i | 0 <= i < NUM_TX_DESCS && !IsStart(rest, i) ensures ms'[i] == None {
      if i != tl {
        forall k | 0 <= k < |fs| ensures fs[k].start != i {
          assert k > 0 ==> fs[k] == rest[k - 1];
        }
        assert !IsStart(fs, i);
      }
    }
  }

  lemma MbufsPush(ms: seq<Option<Mbuf>>, fs: seq<Frame>, f: Frame, tl: nat)
    requires MbufsOk(ms, fs) && f.start < NUM_TX_DESCS
    requires Layout(fs, tl, f.start)
    ensures MbufsOk(ms[f.start := Some(f.m)], fs + [f])
    ensures forall i :: f.start < i < f.End() && i < NUM_TX_DESCS && Total(fs) < TX_FULL ==> ms[i] == None
  {
    var ms', fs' := ms[f.start := Some(f.m)], fs + [f];
    FramesDisjoint(fs, tl, f.start);
    forall k | 0 <= k < |fs'| ensures fs'[k].start < NUM_TX_DESCS && ms'[fs'[k].start] == Some(fs'[k].m) {
      if k < |fs| {
        HeadWindowFree(fs, tl, f.start, f.start);
        assert !fs[k].Has(f.start);
      }
    }
    forall i | 0 <= i < NUM_TX_DESCS && !IsStart(fs', i) ensures ms'[i] == None {
      assert fs'[|fs|].start != i;
      forall k | 0 <= k < |fs| ensures fs[k].start != i {
        assert fs[k] == fs'[k];
      }
      assert !IsStart(fs, i);
    }
    forall i | f.start < i < f.End() && i < NUM_TX_DESCS && Total(fs) < TX_FULL ensures ms[i] == None {
      HeadWindowFree(fs, tl, f.start, i);
      assert forall k :: 0 <= k < |fs| ==> !fs[k].Has(i);
    }
  }

  class TxRing {
    const txring: array<Desc>
    const txringM: array<Option<Mbuf>>
    var hdPtr: nat
    var tlPtr: nat
    var queued: nat
    var running: bool
    var oactive: bool
    var opackets: nat
    var oerrors: nat
    var ahbErrors: nat

    // The engine's own queue pointer.
    var dmaPtr: nat

    // The queued frames from tail to head, what the engine reported of those it has sent, and their ends.
    ghost var frames: seq<Frame>
    ghost var told: seq<Report>
    ghost var tailSlot: nat
    ghost var headSlot: nat

    ghost predicate RingInv(lo: nat, hi: nat)
      reads `running, `frames, `told, `tailSlot, `headSlot, `dmaPtr, txring
    {
      && txring.Length == NUM_TX_DESCS
      && Layout(frames, tailSlot, headSlot)
      && |told| <= |frames| && Told(txring[..], frames, told)
      && RingOk(txring[..], frames, |told|, tailSlot, headSlot, dmaPtr, lo, hi)
      && (!running ==> told == [] && tailSlot == 0)
    }

    ghost predicate Valid()
      reads this, txring, txringM
    {
      && RingInv(0, 0)
      && txringM.Length == NUM_TX_DESCS
      && MbufsOk(txringM[..], frames)
      && tlPtr == tailSlot && hdPtr == headSlot
      && queued == Total(frames)
      && (running && oactive ==> TX_FULL <= queued)
    }

    constructor ()
      ensures Valid() && fresh(txring) && fresh(txringM)
      ensures frames == [] && !running && !oactive
    {
      txring := new Desc[NUM_TX_DESCS](i => Desc(0, Ctl(true, i == NUM_TX_DESCS - 1, false, false, false, 0)));
      txringM := new Option<Mbuf>[NUM_TX_DESCS](_ => None);
      hdPtr, tlPtr, queued := 0, 0, 0;
      running, oactive := false, false;
      opackets, oerrors, ahbErrors, dmaPtr := 0, 0, 0, 0;
      frames, told, tailSlot, headSlot := [], [], 0, 0;
    }

    /**
     One frame's worth of work of the DMA engine.  It reads the slot at its pointer, stops there if
     that shows USED, and otherwise follows the descriptors to LAST_BUF and WRAP.  It never meets a
     USED slot inside a frame.
     */
    method EngineSends(ahbErr: bool, txErr: bool, ghost lo: nat, ghost hi: nat) returns (exhausted: bool)
      requires RingInv(lo, hi)
      modifies txring, this`dmaPtr, this`told
      ensures RingInv(lo, hi)
      ensures !exhausted
      ensures told == old(told) + (if running && |old(told)| < |frames| then [Report(ahbErr, txErr)] else [])
      ensures forall i :: 0 <= i < NUM_TX_DESCS && !Occupied(frames, i) ==> txring[i] == old(txring[i])
    {
      hide Told;
      exhausted := false;
      EngineSeesWholeFrame(txring[..], frames, |told|, tailSlot, headSlot, dmaPtr, lo, hi);
      if !running || txring[dmaPtr].ctl.used {
        return;
      }
      ghost var f := frames[|told|];
      assert txring[..][f.End() - 1].ctl.wrap == f.Wraps();
      ghost var j := 0;
      var p := dmaPtr;
      assert SlotWritten(txring[..], f, 0, false);
      while !txring[p].ctl.last
        invariant j < |f.segs| && p == f.start + j
        invariant txring[p].ctl.last <==> j == |f.segs| - 1
        decreases |f.segs| - j
      {
        assert SlotWritten(txring[..], f, j, false);
        p := NextSlot(txring[p].ctl, p);
        j := j + 1;
        assert SlotWritten(txring[..], f, j, false);
        if txring[p].ctl.used {
          return true;
        }
      }
      EngineSent(txring[..], frames, |told|, tailSlot, headSlot, dmaPtr, lo, hi, ahbErr, txErr);
      assert f.Has(dmaPtr);
      var d := txring[dmaPtr].(ctl := txring[dmaPtr].ctl.(used := true, ahbErr := ahbErr, txErr := txErr));
      ghost var before := txring[..];
      var next := NextSlot(txring[p].ctl, p);
      EngineReports(before, frames, told, tailSlot, headSlot, dmaPtr, lo, hi, d);
      txring[dmaPtr] := d;
      assert txring[..] == before[dmaPtr := d];
      dmaPtr := next;
      told := told + [Report(ahbErr, txErr)];
    }

    // The engine sends as many frames as these reports say, or as there are.
    method EngineSendsAll(reports: seq<Report>) returns (ghost more: seq<Report>)
      requires RingInv(0, 0)
      modifies txring, this`dmaPtr, this`told
      ensures RingInv(0, 0) && told == old(told) + more
      ensures more == if running then FirstOf(reports, |frames| - |old(told)|) else []
    {
      hide RingOk, Layout, Told, Occupied;
      more := [];
      for i := 0 to |reports|
        invariant RingInv(0, 0) && told == old(told) + more
        invariant more == if running then FirstOf(reports[..i], |frames| - |old(told)|) else []
      {
        var _ := EngineSends(reports[i].ahbErr, reports[i].txErr, 0, 0);
        assert reports[..i + 1] == reports[..i] + [reports[i]];
        if running && |old(told)| + |more| < |frames| {
          more := more + [reports[i]];
        }
      }
      assert reports[..|reports|] == reports;
    }

    // The engine runs for as long as it likes.
    method EngineRuns(ghost lo: nat, ghost hi: nat)
      requires RingInv(lo, hi)
      modifies txring, this`dmaPtr, this`told
      ensures RingInv(lo, hi)
      ensures old(told) <= told
      ensures forall i :: 0 <= i < NUM_TX_DESCS && !Occupied(frames, i) ==> txring[i] == old(txring[i])
    {
      var n: nat := *;
      while n > 0
        invariant RingInv(lo, hi)
        invariant old(told) <= told
        invariant forall i :: 0 <= i < NUM_TX_DESCS && !Occupied(frames, i) ==> txring[i] == old(txring[i])
      {
        var ahbErr: bool, txErr: bool := *, *;
        var _ := EngineSends(ahbErr, txErr, lo, hi);
        n := n - 1;
      }
    }

    // Re-marks the slot at the tail, which is free but exempt so far, and returns the control word it had.
    method MarkTail(ghost hi: nat) returns (ctl: Ctl)
      requires RingInv(tlPtr, hi) && tlPtr < hi <= NUM_TX_DESCS && !Occupied(frames, tlPtr)
      modifies txring
      ensures RingInv(tlPtr + 1, hi) && ctl == old(txring[tlPtr].ctl)
      ensures forall i :: tlPtr < i < NUM_TX_DESCS ==> txring[i] == old(txring[i])
    {
      hide RingOk, Layout, Occupied;
      ctl := txring[tlPtr].ctl;
      ghost var before := txring[..];
      Remark(before, frames, |told|, tailSlot, headSlot, dmaPtr, tlPtr, hi);
      txring[tlPtr] := txring[tlPtr].(ctl := ctl.(used := true));
      assert txring[..] == before[tlPtr := before[tlPtr].(ctl := before[tlPtr].ctl.(used := true))];
    }

    // Walks the tail index over a frame that has left the queue, re-marking its slots as free.
    method AdvanceTail(first: Ctl, ghost f: Frame)
      requires Detached(f) && first == txring[f.start].ctl
      modifies txring, this`tlPtr, this`queued, this`dmaPtr, this`told
      ensures RingInv(0, 0)
      ensures tlPtr == f.Next() && queued == Total(frames)
      ensures old(told) <= told && txringM[..] == old(txringM[..])
    {
      hide RingOk, Layout, Occupied, Total;
      var ctl := first;
      ghost var ring := txring[..];
      ghost var j := 0;
      while !ctl.last
        invariant j < |f.segs| && tlPtr == f.start + j
        invariant queued == Total(frames) + |f.segs| - j
        invariant ctl.last <==> j == |f.segs| - 1
        invariant ctl.wrap <==> j == |f.segs| - 1 && f.Wraps()
        invariant RingInv(f.start + j + 1, f.End()) && old(told) <= told
        invariant forall i :: f.start + j < i < f.End() ==> txring[i] == ring[i]
        decreases |f.segs| - j
      {
        EngineRuns(f.start + j + 1, f.End());
        tlPtr := NextSlot(ctl, tlPtr);
        queued := queued - 1;
        j := j + 1;
        assert f.Has(tlPtr);
        assert SlotWritten(ring, f, j, true);
        ctl := MarkTail(f.End());
      }
      tlPtr := NextSlot(ctl, tlPtr);
      queued := queued - 1;
      NoExemption(txring[..], frames, |told|, tailSlot, headSlot, dmaPtr, f.End());
    }

    // Frees the mbuf at the tail and counts the outcome that its first slot reports.
    method ReleaseTail(c: Ctl) returns (m: Mbuf)
      requires txring.Length == NUM_TX_DESCS == txringM.Length && tlPtr < NUM_TX_DESCS && txringM[tlPtr].Some?
      modifies txringM, this`ahbErrors, this`oerrors, this`opackets
      ensures Some(m) == old(txringM[tlPtr])
      ensures txringM[..] == old(txringM[..])[tlPtr := None] && txring[..] == old(txring[..])
      ensures ahbErrors == old(ahbErrors) + (if c.ahbErr then 1 else 0)
      ensures oerrors == old(oerrors) + (if !c.ahbErr && c.txErr then 1 else 0)
      ensures opackets == old(opackets) + (if !c.ahbErr && !c.txErr then 1 else 0)
    {
      m := txringM[tlPtr].value;
      txringM[tlPtr] := None;
      if c.ahbErr {
        ahbErrors := ahbErrors + 1;
      } else if c.txErr {
        oerrors := oerrors + 1;
      } else {
        opackets := opackets + 1;
      }
    }

    // A frame that has left the queue while its slots are still to be re-marked from the second on.
    ghost predicate Detached(f: Frame)
      reads `running, `frames, `told, `tailSlot, `headSlot, `dmaPtr, `tlPtr, `queued, txring
    {
      && RingInv(f.start + 1, f.End()) && f.End() <= NUM_TX_DESCS
      && (forall i :: f.Has(i) ==> !Occupied(frames, i))
      && FrameWritten(txring[..], f, true)
      && SlotWritten(txring[..], f, 0, true)
      && tlPtr == f.start && tailSlot == f.Next() && queued == Total(frames) + |f.segs|
    }

    ghost function Counted(): Counts
      reads `opackets, `oerrors, `ahbErrors
    {
      Counts(opackets, oerrors, ahbErrors)
    }

    method DetachTail() returns (ctl: Ctl, m: Mbuf, ghost f: Frame)
      requires Valid() && frames != [] && told != []
      modifies this, txringM
      ensures Detached(f) && ctl == txring[f.start].ctl && m == f.m
      ensures txringM.Length == NUM_TX_DESCS && MbufsOk(txringM[..], frames)
      ensures f == old(frames)[0] && frames == old(frames)[1..] && told == old(told)[1..]
      ensures hdPtr == headSlot
      ensures running == old(running)
      ensures Counted() == Tally(old(Counted()), old(told)[..1])
    {
      hide RingOk, MbufsOk, Layout, Chain, FrameWritten, SlotWritten, Occupied, Total, Mbufs;
      f := frames[0];
      TailShowsSent(txring[..], frames, |told|, tailSlot, headSlot, dmaPtr);
      TakeBack(txring[..], frames, |told|, tailSlot, headSlot, dmaPtr);
      MbufsPop(txringM[..], frames, tailSlot, headSlot);
      ctl := txring[tlPtr].ctl;
      m := ReleaseTail(ctl);
      frames, told, tailSlot := frames[1..], told[1..], f.Next();
    }

    // Releases the sent frame at the tail and gives its slots back.
    method ReclaimFrame() returns (m: Mbuf)
      requires Valid() && frames != [] && told != []
      modifies this, txring, txringM
      ensures Valid()
      ensures m == old(frames)[0].m && frames == old(frames)[1..] && old(told)[1..] <= told
      ensures !oactive && running == old(running)
      ensures Counted() == Tally(old(Counted()), old(told)[..1])
    {
      hide RingOk, MbufsOk, Layout, Chain, FrameWritten, SlotWritten, Occupied, Total, Mbufs;
      var ctl, mbuf, f := DetachTail();
      m := mbuf;
      AdvanceTail(ctl, f);
      oactive := false;
    }

    // The same, the engine going on; USED at the tail then tells whether there is another.
    method ReclaimNext() returns (m: Mbuf)
      requires Valid() && frames != [] && told != []
      modifies this, txring, txringM
      ensures Valid()
      ensures Accounted(HeldOf(old(frames)), [m], HeldOf(frames)) && frames == old(frames)[1..]
      ensures CountedOff(old(told), old(Counted()), old(told)[..1], told, Counted())
      ensures !oactive && running == old(running)
      ensures frames != [] ==> (txring[tlPtr].ctl.used <==> told != [])
    {
      hide RingOk, MbufsOk, Chain, FrameWritten, SlotWritten, Occupied, Told, Tally;
      m := ReclaimFrame();
      if frames != [] {
        TailShowsSent(txring[..], frames, |told|, tailSlot, headSlot, dmaPtr);
      }
    }

    // Releases, oldest first, every frame the engine has marked by the time the sweep gets to it.
    method CleanTx() returns (freed: seq<Mbuf>, ghost done: seq<Report>)
      requires Valid()
      modifies this, txring, txringM
      ensures Valid()
      ensures Accounted(HeldOf(old(frames)), freed, HeldOf(frames))
      ensures |old(told)| <= |freed| == |done| && (!running ==> freed == [])
      ensures CountedOff(old(told), old(Counted()), done, told, Counted())
      ensures oactive == (old(oactive) && freed == []) && running == old(running)
    {
      hide RingOk, MbufsOk, Chain, FrameWritten, SlotWritten, Occupied, Told, HeldOf;
      freed, done := [], [];
      EngineRuns(0, 0);
      NoneCounted(old(told), told, Counted());
      NothingFreed(HeldOf(frames));
      if frames != [] {
        TailShowsSent(txring[..], frames, |told|, tailSlot, headSlot, dmaPtr);
      }
      hide Accounted, CountedOff;
      while queued > 0 && txring[tlPtr].ctl.used
        invariant Valid()
        invariant Accounted(HeldOf(old(frames)), freed, HeldOf(frames))
        invariant !running ==> freed == []
        invariant oactive == (old(oactive) && freed == []) && running == old(running)
        invariant |done| == |freed| && CountedOff(old(told), old(Counted()), done, told, Counted())
        invariant frames != [] ==> (txring[tlPtr].ctl.used <==> told != [])
        decreases |frames|
      {
        ghost var reports, counts, held := told, Counted(), HeldOf(frames);
        var m := ReclaimNext();
        AccountFreed(HeldOf(old(frames)), freed, held, [m], HeldOf(frames));
        CountMore(old(told), old(Counted()), done, reports, counts, reports[..1], told, Counted());
        freed, done := freed + [m], done + reports[..1];
      }
      AllCounted(old(told), old(Counted()), done, Counted());
    }

    method SetMbuf(i: nat, m: Option<Mbuf>)
      requires txring.Length == NUM_TX_DESCS == txringM.Length && i < NUM_TX_DESCS
      modifies txringM
      ensures txringM[..] == old(txringM[..])[i := m] && txring[..] == old(txring[..])
    {
      txringM[i] := m;
    }

    /**
     The two stores of one descriptor, the engine running before, between and after them.  The control
     word of the first segment is what makes the frame one of the queued ones.
     */
    method StoreSegment(ghost f: Frame, segs: Segments, i: nat, wrap: bool)
      requires RingInv(hdPtr + 1, f.End()) && f.End() < NUM_TX_DESCS && Total(frames) < TX_FULL
      requires f.start == hdPtr == headSlot && f.segs == segs && i < |segs| && wrap == f.Wraps()
      requires forall j :: i < j < |segs| ==> SlotWritten(txring[..], f, j, false)
      requires forall k :: f.Has(k) ==> !Occupied(frames, k)
      modifies txring, this`dmaPtr, this`told, this`frames, this`headSlot
      ensures old(told) <= told
      ensures i > 0 ==> frames == old(frames) && headSlot == old(headSlot) && RingInv(hdPtr + 1, f.End())
      ensures i > 0 ==> forall j :: i - 1 < j < |segs| ==> SlotWritten(txring[..], f, j, false)
      ensures i == 0 ==> frames == old(frames) + [f] && headSlot == f.Next() && RingInv(0, 0)
    {
      hide RingOk, Chain, Total, SlotWritten, Occupied, Told;
      ghost var ring := txring[..];
      EngineRuns(hdPtr + 1, f.End());
      StagedKept(ring, txring[..], f, i);
      HeadUsed(txring[..], frames, |told|, tailSlot, headSlot, dmaPtr, hdPtr + 1, f.End());

      ring := txring[..];
      var d := txring[hdPtr + i].(addr := segs[i].addr);
      FreeStore(ring, frames, |told|, tailSlot, headSlot, dmaPtr, hdPtr + 1, f.End(), hdPtr + i, d);
      ToldStore(ring, frames, told, hdPtr + i, d);
      txring[hdPtr + i] := d;
      assert txring[..] == ring[hdPtr + i := d];
      StagedKept(ring, txring[..], f, i);

      ring := txring[..];
      EngineRuns(hdPtr + 1, f.End());
      StagedKept(ring, txring[..], f, i);

      StoreControl(f, segs, i, wrap);
    }

    method StoreControl(ghost f: Frame, segs: Segments, i: nat, wrap: bool)
      requires RingInv(hdPtr + 1, f.End()) && f.End() < NUM_TX_DESCS && Total(frames) < TX_FULL
      requires f.start == hdPtr == headSlot && f.segs == segs && i < |segs| && wrap == f.Wraps()
      requires forall j :: i < j < |segs| ==> SlotWritten(txring[..], f, j, false)
      requires forall k :: f.Has(k) ==> !Occupied(frames, k)
      requires txring[hdPtr + i].addr == segs[i].addr
      modifies txring, this`dmaPtr, this`told, this`frames, this`headSlot
      ensures old(told) <= told
      ensures i > 0 ==> frames == old(frames) && headSlot == old(headSlot) && RingInv(hdPtr + 1, f.End())
      ensures i > 0 ==> forall j :: i - 1 < j < |segs| ==> SlotWritten(txring[..], f, j, false)
      ensures i == 0 ==> frames == old(frames) + [f] && headSlot == f.Next() && RingInv(0, 0)
    {
      hide RingOk, Chain, Total, Occupied, Told;
      ghost var ring := txring[..];
      var d := txring[hdPtr + i].(ctl := SegmentCtl(segs, i, wrap));
      ToldStore(ring, frames, told, hdPtr + i, d);
      ToldPush(ring[hdPtr + i := d], frames, told, f);
      if i > 0 {
        FreeStore(ring, frames, |told|, tailSlot, headSlot, dmaPtr, hdPtr + 1, f.End(), hdPtr + i, d);
      } else {
        HandOver(ring, frames, |told|, tailSlot, headSlot, dmaPtr, f);
      }
      txring[hdPtr + i] := d;
      assert txring[..] == ring[hdPtr + i := d];
      StagedKept(ring, txring[..], f, i);
      assert SlotWritten(txring[..], f, i, false);
      if i == 0 {
        frames, headSlot := frames + [f], f.Next();
        EngineRuns(0, 0);
      } else {
        ring := txring[..];
        EngineRuns(hdPtr + 1, f.End());
        StagedKept(ring, txring[..], f, i - 1);
      }
    }

    /**
     Writes the descriptors of one frame, last segment first.  The engine may run after every single
     store; only the last store, at the head slot, lets it see the frame, and then all of it.
     */
    method StoreFrame(ghost f: Frame, segs: Segments, wrap: bool)
      requires RingInv(hdPtr + 1, f.End()) && f.End() < NUM_TX_DESCS && Total(frames) < TX_FULL
      requires f.start == hdPtr == headSlot && f.segs == segs && wrap == f.Wraps()
      requires forall k :: f.Has(k) ==> !Occupied(frames, k)
      requires txringM.Length == NUM_TX_DESCS && forall k :: f.start < k < f.End() ==> txringM[k] == None
      modifies txring, txringM, this`dmaPtr, this`told, this`frames, this`headSlot
      ensures RingInv(0, 0) && frames == old(frames) + [f] && headSlot == f.Next()
      ensures old(told) <= told && txringM[..] == old(txringM[..])
    {
      hide RingOk, Chain, Total, SlotWritten, Occupied;
      ghost var ms := txringM[..];
      var i := |segs| - 1;
      while i >= 0
        invariant -1 <= i < |segs|
        invariant i >= 0 ==> frames == old(frames) && headSlot == hdPtr && RingInv(hdPtr + 1, f.End())
        invariant i >= 0 ==> forall j :: i < j < |segs| ==> SlotWritten(txring[..], f, j, false)
        invariant i == -1 ==> frames == old(frames) + [f] && headSlot == f.Next() && RingInv(0, 0)
        invariant old(told) <= told && txringM[..] == ms
      {
        StoreSegment(f, segs, i, wrap);
        if i != 0 {
          SetMbuf(hdPtr + i, None);
        }
        i := i - 1;
      }
    }

    // Places one mbuf in the ring.
    method Enqueue(m: Mbuf, segs: Segments)
      requires Valid() && queued < TX_FULL
      modifies this, txring, txringM
      ensures Valid()
      ensures frames == old(frames) + [Frame(old(hdPtr), segs, m)]
      ensures HeldOf(frames) == HeldOf(old(frames)) + [Held(m, segs)]
      ensures old(told) <= told
      ensures oactive == old(oactive) && running == old(running)
      ensures Counted() == old(Counted())
    {
      hide RingOk, MbufsOk, Chain, Total, SlotWritten, Occupied, Mbufs;
      ghost var f := Frame(hdPtr, segs, m);
      HeadRoom(txring[..], frames, |told|, tailSlot, headSlot, dmaPtr, f);
      MbufsPush(txringM[..], frames, f, tailSlot);
      ChainAppend(frames, f, tailSlot);
      SetMbuf(hdPtr, Some(m));
      var wrap := hdPtr + |segs| + TX_MAX_DMA_SEGS >= NUM_TX_DESCS;
      StoreFrame(f, segs, wrap);
      hdPtr := if wrap then 0 else hdPtr + |segs|;
      queued := queued + |segs|;
    }

    /**
     Takes mbufs from the send queue until it is empty or the ring is full.  What was taken is a prefix
     of the queue; each of its mbufs is either placed behind those already held, in order, or dropped.
     */
    method StartLocked(sendq: seq<Request>)
      returns (taken: seq<Request>, dropped: seq<Mbuf>, reclaimed: seq<Mbuf>, ghost done: seq<Report>)
      requires Valid()
      modifies this, txring, txringM
      ensures Valid() && running == old(running)
      ensures taken <= sendq && dropped == AllDropped(taken)
      ensures Accounted(HeldOf(old(frames)) + Placements(taken), reclaimed, HeldOf(frames))
      ensures |done| == |reclaimed| && CountedOff(old(told), old(Counted()), done, told, Counted())
      ensures !running ==> reclaimed == []
      ensures old(oactive) ==> taken == [] && reclaimed == [] && oactive
      ensures !old(oactive) ==> (oactive <==> TX_FULL <= queued) && (taken == sendq || oactive)
    {
      hide RingOk, MbufsOk, Chain, Total, Accounted, HeldOf, MbufsOf, Told, Layout, Occupied, CountedOff, Tally;
      NoneCounted(told, told, Counted());
      taken, dropped, reclaimed, done := [], [], [], [];
      NothingYet(HeldOf(frames));
      if oactive {
        return;
      }
      while true
        invariant Valid() && !oactive && running == old(running)
        invariant taken <= sendq && dropped == AllDropped(taken)
        invariant Accounted(HeldOf(old(frames)) + Placements(taken), reclaimed, HeldOf(frames))
        invariant |done| == |reclaimed| && CountedOff(old(told), old(Counted()), done, told, Counted())
        invariant !running ==> reclaimed == []
        decreases |sendq| - |taken|
      {
        ghost var all, held := HeldOf(old(frames)) + Placements(taken), HeldOf(frames);
        if queued >= TX_FULL {
          ghost var reports, counts := told, Counted();
          var freed, counted := CleanTx();
          CountMore(old(told), old(Counted()), done, reports, counts, counted, told, Counted());
          done := done + counted;
          AccountFreed(all, reclaimed, held, freed, HeldOf(frames));
          reclaimed := reclaimed + freed;
          if queued >= TX_FULL {
            oactive := true;
            return;
          }
        }
        if |taken| == |sendq| {
          return;
        }
        var r := sendq[|taken|];
        ghost var before := taken;
        taken := taken + [r];
        assert taken[..|taken| - 1] == before;
        match Placeable(r)
        case Some(h) =>
          AccountPlaced(all, reclaimed, HeldOf(frames), [h]);
          assert HeldOf(old(frames)) + Placements(taken) == all + [h];
          ghost var reports, counts := told, Counted();
          Enqueue(h.m, h.segs);
          NoneCounted(reports, told, counts);
          CountMore(old(told), old(Counted()), done, reports, counts, [], told, counts);
          assert done + [] == done;
        case None =>
          assert Placements(taken) == Placements(before);
          dropped := dropped + [DroppedMbuf(r)];
      }
    }

    // Brings the interface up; writing the queue base address puts the engine back at slot 0.
    method Init()
      requires Valid()
      modifies this
      ensures Valid() && running
      ensures !old(running) ==> !oactive
      ensures old(running) ==> oactive == old(oactive)
      ensures frames == old(frames) && told == old(told)
      ensures Counted() == old(Counted())
    {
      if running {
        return;
      }
      dmaPtr := 0;
      running, oactive := true, false;
    }

    // Frees whatever each slot holds and leaves every slot free.
    method Sweep() returns (freed: seq<Mbuf>)
      requires txring.Length == NUM_TX_DESCS == txringM.Length
      modifies txring, txringM
      ensures freed == Present(old(txringM[..]))
      ensures forall i :: 0 <= i < NUM_TX_DESCS ==> txringM[..][i] == None && txring[..][i].ctl.used
      ensures forall i :: 0 <= i < NUM_TX_DESCS ==> (txring[i].ctl.wrap <==> i == NUM_TX_DESCS - 1)
    {
      ghost var ms := txringM[..];
      freed := [];
      var i := 0;
      while i < NUM_TX_DESCS
        invariant i <= NUM_TX_DESCS
        invariant freed == Present(ms[..i])
        invariant forall j :: 0 <= j < i ==> txringM[j] == None && txring[j].ctl.used && !txring[j].ctl.wrap
        invariant forall j :: i <= j < NUM_TX_DESCS ==> txringM[j] == ms[j]
      {
        assert ms[..i + 1][..i] == ms[..i];
        txring[i] := Desc(0, Ctl(true, false, false, false, false, 0));
        if txringM[i].Some? {
          freed := freed + [txringM[i].value];
          txringM[i] := None;
        }
        i := i + 1;
      }
      assert ms[..i] == ms;
      txring[NUM_TX_DESCS - 1] := txring[NUM_TX_DESCS - 1].(ctl := txring[NUM_TX_DESCS - 1].ctl.(wrap := true));
    }

    // Restarts the indices over a ring whose slots are all free.
    method Restart()
      requires txring.Length == NUM_TX_DESCS == txringM.Length && !running && dmaPtr == 0
      requires forall i :: 0 <= i < NUM_TX_DESCS ==> txringM[..][i] == None && txring[..][i].ctl.used
      modifies `hdPtr, `tlPtr, `queued, `frames, `told, `tailSlot, `headSlot
      ensures Valid()
      ensures frames == []
    {
      hdPtr, tlPtr, queued := 0, 0, 0;
      frames, told, tailSlot, headSlot := [], [], 0, 0;
      EmptyRing(txring[..], txringM[..]);
    }

    // Takes the ring down: every mbuf still in it is freed once, and every slot ends free.
    method Stop() returns (freed: seq<Mbuf>)
      requires Valid()
      modifies this, txring, txringM
      ensures Valid() && !running
      ensures frames == [] && oactive == old(oactive)
      ensures forall i :: 0 <= i < NUM_TX_DESCS ==> (txring[i].ctl.wrap <==> i == NUM_TX_DESCS - 1)
      ensures multiset(freed) == multiset(Mbufs(old(frames)))
      ensures Counted() == old(Counted())
    {
      hide RingOk, MbufsOk, Chain, Total, Layout, Present;
      EngineRuns(0, 0);
      running := false;
      dmaPtr := 0;
      SweepFindsQueued(txringM[..], frames, tailSlot, headSlot);
      freed := Sweep();
      Restart();
    }
  }

  lemma EmptyRing(ring: seq<Desc>, ms: seq<Option<Mbuf>>)
    requires |ring| == |ms| == NUM_TX_DESCS
    requires forall i :: 0 <= i < NUM_TX_DESCS ==> ring[i].ctl.used && ms[i] == None
    ensures RingOk(ring, [], 0, 0, 0, 0, 0, 0) && MbufsOk(ms, [])
    ensures Total([]) == 0 && Layout([], 0, 0)
  {
  }

  lemma NothingFreed(held: seq<Held>)
    ensures Accounted(held, [], held)
  {
  }

  lemma AllCounted(before: seq<Report>, start: Counts, done: seq<Report>, counts: Counts)
    requires CountedOff(before, start, done, [], counts)
    ensures |before| <= |done|
  {
  }

  lemma NothingYet(held: seq<Held>)
    ensures Accounted(held + Placements([]), [], held)
  {
  }

  lemma NothingPlaced()
    ensures Placements([]) == [] && AllDropped([]) == [] && MbufsOf([]) == []
  {
  }

  datatype Op = Start(sendq: seq<Request>) | Clean | Stop | Init | EngineSends(reports: seq<Report>)

  // What one operation returns.
  datatype Event =
    | Started(taken: seq<Request>, dropped: seq<Mbuf>, reclaimed: seq<Mbuf>)
    | Cleaned(reclaimed: seq<Mbuf>)
    | Swept(freed: seq<Mbuf>)
    | Done

  /**
   What the ring comes to: the mbufs in it from oldest to newest, the two interface flags, what the engine
   reported of those of the oldest that it has sent, and the outcomes counted so far.
   */
  datatype Book = Book(held: seq<Held>, running: bool, oactive: bool, told: seq<Report>, counts: Counts)

  // Which events an operation may return when the engine sends frames with these reports until its end.
  ghost predicate Lawful(b: Book, op: Op, e: Event, more: seq<Report>) {
    var told := b.told + more;
    && |b.told| <= |b.held|
    && (!b.running ==> more == [])
    && match op
       case Start(sendq) =>
         && e.Started?
         && e.taken <= sendq && e.dropped == AllDropped(e.taken)
         && var all := b.held + Placements(e.taken);
         && |e.reclaimed| <= |told| <= |all| && e.reclaimed == MbufsOf(all[..|e.reclaimed|])
         && (b.oactive ==> e.taken == [] && e.reclaimed == [])
         && (!b.oactive ==> e.taken == sendq || TX_FULL <= Descs(all[|e.reclaimed|..]))
       case Clean =>
         && e.Cleaned?
         && |b.told| <= |e.reclaimed| <= |told| <= |b.held| && e.reclaimed == MbufsOf(b.held[..|e.reclaimed|])
       case Stop => e.Swept? && multiset(e.freed) == multiset(MbufsOf(b.held)) && more == []
       case Init => e.Done? && more == []
       case EngineSends(reports) =>
         && e.Done?
         && more == if b.running then FirstOf(reports, |b.held| - |b.told|) else []
  }

  // What becomes of the book: every frame that is reclaimed counts as the engine reported of it.
  ghost function Advanced(b: Book, op: Op, e: Event, more: seq<Report>): Book
    requires Lawful(b, op, e, more)
  {
    var told := b.told + more;
    match op
    case Start(sendq) =>
      var held := (b.held + Placements(e.taken))[|e.reclaimed|..];
      Book(held, b.running, b.oactive || TX_FULL <= Descs(held), told[|e.reclaimed|..],
           Tally(b.counts, told[..|e.reclaimed|]))
    case Clean =>
      Book(b.held[|e.reclaimed|..], b.running, b.oactive && e.reclaimed == [], told[|e.reclaimed|..],
           Tally(b.counts, told[..|e.reclaimed|]))
    case Stop => Book([], false, b.oactive, [], b.counts)
    case Init => if b.running then b else b.(running := true, oactive := false)
    case EngineSends(_) => b.(told := told)
  }

  ghost predicate LawfulRun(b: Book, ops: seq<Op>, es: seq<Event>, sends: seq<seq<Report>>)
    decreases |ops|, 0
  {
    && |ops| == |es| == |sends|
    && (ops == [] ||
          var n := |ops| - 1;
          && LawfulRun(b, ops[..n], es[..n], sends[..n])
          && Lawful(BookAfter(b, ops[..n], es[..n], sends[..n]), ops[n], es[n], sends[n]))
  }

  ghost function BookAfter(b: Book, ops: seq<Op>, es: seq<Event>, sends: seq<seq<Report>>): Book
    requires LawfulRun(b, ops, es, sends)
    decreases |ops|, 1
  {
    if ops == [] then b
    else
      var n := |ops| - 1;
      Advanced(BookAfter(b, ops[..n], es[..n], sends[..n]), ops[n], es[n], sends[n])
  }

  ghost function BookOf(tx: TxRing): Book
    reads tx
  {
    Book(HeldOf(tx.frames), tx.running, tx.oactive, tx.told, tx.Counted())
  }

  method StepStart(tx: TxRing, sendq: seq<Request>) returns (e: Event, ghost more: seq<Report>)
    requires tx.Valid()
    modifies tx, tx.txring, tx.txringM
    ensures tx.Valid()
    ensures Lawful(old(BookOf(tx)), Start(sendq), e, more)
    ensures BookOf(tx) == Advanced(old(BookOf(tx)), Start(sendq), e, more)
  {
    hide RingOk, MbufsOk, Chain, Total, Descs, Layout, MbufsOf, AllDropped;
    NothingPlaced();
    hide Placements;
    var taken, dropped, reclaimed, done := tx.StartLocked(sendq);
    DescsOfFrames(tx.frames);
    e, more := Started(taken, dropped, reclaimed), (done + tx.told)[|old(tx.told)|..];
    assert old(tx.told) + more == done + tx.told;
  }

  method StepClean(tx: TxRing) returns (e: Event, ghost more: seq<Report>)
    requires tx.Valid()
    modifies tx, tx.txring, tx.txringM
    ensures tx.Valid()
    ensures Lawful(old(BookOf(tx)), Clean, e, more)
    ensures BookOf(tx) == Advanced(old(BookOf(tx)), Clean, e, more)
  {
    hide RingOk, MbufsOk, Chain, Total, Layout, MbufsOf;
    var reclaimed, done := tx.CleanTx();
    e, more := Cleaned(reclaimed), (done + tx.told)[|old(tx.told)|..];
    assert old(tx.told) + more == done + tx.told;
  }

  method StepEngine(tx: TxRing, reports: seq<Report>) returns (ghost more: seq<Report>)
    requires tx.Valid()
    modifies tx, tx.txring
    ensures tx.Valid()
    ensures Lawful(old(BookOf(tx)), EngineSends(reports), Done, more)
    ensures BookOf(tx) == Advanced(old(BookOf(tx)), EngineSends(reports), Done, more)
  {
    hide RingOk, MbufsOk, Chain, Total, Layout, Told;
    assert tx.RingInv(0, 0);
    more := tx.EngineSendsAll(reports);
  }

  method Step(tx: TxRing, op: Op) returns (e: Event, ghost more: seq<Report>)
    requires tx.Valid()
    modifies tx, tx.txring, tx.txringM
    ensures tx.Valid()
    ensures Lawful(old(BookOf(tx)), op, e, more) && BookOf(tx) == Advanced(old(BookOf(tx)), op, e, more)
  {
    hide RingOk, MbufsOk, Chain, Total, Layout, Placements, AllDropped;
    match op
    case Start(sendq) =>
      e, more := StepStart(tx, sendq);
    case Clean =>
      e, more := StepClean(tx);
    case Stop =>
      var freed := tx.Stop();
      assert Mbufs(old(tx.frames)) == MbufsOf(HeldOf(old(tx.frames)));
      e, more := Swept(freed), [];
    case Init =>
      tx.Init();
      e, more := Done, [];
    case EngineSends(reports) =>
      more := StepEngine(tx, reports);
      e := Done;
  }

  /**
   Any run of the driver, the engine sending frames before and within the operations: what they return
   is lawful step by step, and the ring ends up as the book says.
   */
  method Run(tx: TxRing, ops: seq<Op>) returns (events: seq<Event>, ghost sends: seq<seq<Report>>)
    requires tx.Valid()
    modifies tx, tx.txring, tx.txringM
    ensures tx.Valid()
    ensures LawfulRun(old(BookOf(tx)), ops, events, sends)
    ensures BookOf(tx) == BookAfter(old(BookOf(tx)), ops, events, sends)
  {
    hide RingOk, MbufsOk, Chain, Total, Layout, Lawful, Advanced;
    events, sends := [], [];
    for i := 0 to |ops|
      invariant tx.Valid()
      invariant LawfulRun(old(BookOf(tx)), ops[..i], events, sends)
      invariant BookOf(tx) == BookAfter(old(BookOf(tx)), ops[..i], events, sends)
    {
      var e, more := Step(tx, ops[i]);
      events, sends := events + [e], sends + [more];
      assert events[..i] == events[..|events| - 1] && sends[..i] == sends[..|sends| - 1];
      assert ops[..i + 1][..i] == ops[..i];
    }
    assert ops[..|ops|] == ops;
  }

  // The mbufs that an event reports placed, taken from the send queue (after m_defrag), reclaimed and freed.
  ghost function PlacedIn(e: Event): seq<Held> {
    if e.Started? then Placements(e.taken) else []
  }

  ghost function TakenIn(e: Event): multiset<Mbuf> {
    multiset(MbufsOf(PlacedIn(e))) + (if e.Started? then multiset(AllDropped(e.taken)) else multiset{})
  }

  ghost function ReclaimedIn(e: Event): seq<Mbuf> {
    if e.Started? || e.Cleaned? then e.reclaimed else []
  }

  ghost function FreedIn(e: Event): multiset<Mbuf> {
    match e
    case Started(_, dropped, reclaimed) => multiset(dropped) + multiset(reclaimed)
    case Cleaned(reclaimed) => multiset(reclaimed)
    case Swept(freed) => multiset(freed)
    case Done => multiset{}
  }

  // The same over a run, the sequences in its order.
  ghost function PlacedBy(es: seq<Event>): seq<Held> {
    if es == [] then [] else PlacedBy(es[..|es| - 1]) + PlacedIn(es[|es| - 1])
  }

  ghost function TakenBy(es: seq<Event>): multiset<Mbuf> {
    if es == [] then multiset{} else TakenBy(es[..|es| - 1]) + TakenIn(es[|es| - 1])
  }

  ghost function ReclaimedBy(es: seq<Event>): seq<Mbuf> {
    if es == [] then [] else ReclaimedBy(es[..|es| - 1]) + ReclaimedIn(es[|es| - 1])
  }

  ghost function FreedBy(es: seq<Event>): multiset<Mbuf> {
    if es == [] then multiset{} else FreedBy(es[..|es| - 1]) + FreedIn(es[|es| - 1])
  }

  lemma Reclaims(all: seq<Held>, n: nat)
    requires n <= |all|
    ensures multiset(MbufsOf(all)) == multiset(MbufsOf(all[..n])) + multiset(MbufsOf(all[n..]))
  {
    assert MbufsOf(all) == MbufsOf(all[..n]) + MbufsOf(all[n..]);
  }

  lemma Regroup(a: multiset<Mbuf>, p: multiset<Mbuf>, d: multiset<Mbuf>, r: multiset<Mbuf>, h: multiset<Mbuf>)
    requires a + p == r + h
    ensures a + (p + d) == d + r + h
  {
    assert a + (p + d) == a + p + d;
  }

  lemma StartConserves(b: Book, sendq: seq<Request>, e: Event, more: seq<Report>)
    requires Lawful(b, Start(sendq), e, more)
    ensures multiset(MbufsOf(b.held)) + TakenIn(e)
         == FreedIn(e) + multiset(MbufsOf(Advanced(b, Start(sendq), e, more).held))
  {
    NothingPlaced();
    hide MbufsOf, Placements, AllDropped, Descs;
    var all := b.held + Placements(e.taken);
    Reclaims(all, |b.held|);
    Reclaims(all, |e.reclaimed|);
    assert all[..|b.held|] == b.held && all[|b.held|..] == Placements(e.taken);
    assert Advanced(b, Start(sendq), e, more).held == all[|e.reclaimed|..];
    Regroup(multiset(MbufsOf(b.held)), multiset(MbufsOf(PlacedIn(e))), multiset(AllDropped(e.taken)),
             multiset(e.reclaimed), multiset(MbufsOf(all[|e.reclaimed|..])));
  }

  lemma StepConserves(b: Book, op: Op, e: Event, more: seq<Report>)
    requires Lawful(b, op, e, more)
    ensures multiset(MbufsOf(b.held)) + TakenIn(e) == FreedIn(e) + multiset(MbufsOf(Advanced(b, op, e, more).held))
  {
    NothingPlaced();
    hide MbufsOf, Placements, AllDropped, Descs;
    match op
    case Start(sendq) =>
      StartConserves(b, sendq, e, more);
    case Clean =>
      Reclaims(b.held, |e.reclaimed|);
    case _ =>
  }

  /**
   Every mbuf is freed once: over any run, the mbufs in the ring before and those taken from the send
   queue are those freed and those still in the ring, each as often.
   */
  lemma {:induction false} RunConserves(b: Book, ops: seq<Op>, es: seq<Event>, sends: seq<seq<Report>>)
    requires LawfulRun(b, ops, es, sends)
    ensures var after := BookAfter(b, ops, es, sends);
      multiset(MbufsOf(b.held)) + TakenBy(es) == FreedBy(es) + multiset(MbufsOf(after.held))
    decreases |ops|
  {
    hide Lawful, Advanced, TakenIn, FreedIn, MbufsOf;
    if ops != [] {
      var n := |ops| - 1;
      RunConserves(b, ops[..n], es[..n], sends[..n]);
      var mid := BookAfter(b, ops[..n], es[..n], sends[..n]);
      StepConserves(mid, ops[n], es[n], sends[n]);
      Chained(multiset(MbufsOf(b.held)), TakenBy(es[..n]), FreedBy(es[..n]), multiset(MbufsOf(mid.held)),
              TakenIn(es[n]), FreedIn(es[n]), multiset(MbufsOf(Advanced(mid, ops[n], es[n], sends[n]).held)));
    }
  }

  lemma StepFifo(all: seq<Held>, reclaimed: seq<Mbuf>, b: Book, op: Op, e: Event, more: seq<Report>)
    requires Accounted(all, reclaimed, b.held)
    requires Lawful(b, op, e, more) && op != Stop
    ensures Accounted(all + PlacedIn(e), reclaimed + ReclaimedIn(e), Advanced(b, op, e, more).held)
    ensures var after, k := Advanced(b, op, e, more), |ReclaimedIn(e)|;
      && k <= |b.told + more|
      && after.counts == Tally(b.counts, (b.told + more)[..k])
      && after.told == (b.told + more)[k..] && |after.told| <= |after.held|
  {
    NothingPlaced();
    hide MbufsOf, Placements, AllDropped, Descs;
    AccountPlaced(all, reclaimed, b.held, PlacedIn(e));
    var held := b.held + PlacedIn(e);
    assert Advanced(b, op, e, more).held == held[|ReclaimedIn(e)|..];
    AccountFreed(all + PlacedIn(e), reclaimed, held, ReclaimedIn(e), Advanced(b, op, e, more).held);
  }

  // What the engine reported over a run, in its order.
  ghost function ReportsBy(sends: seq<seq<Report>>): seq<Report> {
    if sends == [] then [] else ReportsBy(sends[..|sends| - 1]) + sends[|sends| - 1]
  }

  // Of all these reports, in this order, the first k have been counted and the rest are still in the ring.
  ghost predicate Settled(all: seq<Report>, before: Counts, k: nat, told: seq<Report>, counts: Counts) {
    k <= |all| && told == all[k..] && counts == Tally(before, all[..k])
  }

  lemma SettleMore(all: seq<Report>, before: Counts, k: nat, told: seq<Report>, counts: Counts,
                   more: seq<Report>, j: nat, told': seq<Report>, counts': Counts)
    requires Settled(all, before, k, told, counts) && Settled(told + more, counts, j, told', counts')
    ensures Settled(all + more, before, k + j, told', counts')
  {
    TallyAppend(before, all[..k], (told + more)[..j]);
    assert (all + more)[..k + j] == all[..k] + (told + more)[..j];
    assert (all + more)[k + j..] == (told + more)[j..];
  }

  /**
   First in, first out: as long as the interface is not stopped, mbufs are reclaimed in exactly the
   order in which they were placed, across all calls, and the ring holds the rest in that order.  None
   is reclaimed before the engine has sent it, and the k-th of them counts as one packet, output error or
   AHB error as the k-th report of the engine says.
   */
  lemma {:induction false} RunFifo(b: Book, ops: seq<Op>, es: seq<Event>, sends: seq<seq<Report>>)
    requires LawfulRun(b, ops, es, sends) && Stop !in ops && |b.told| <= |b.held|
    ensures var after := BookAfter(b, ops, es, sends);
      && Accounted(b.held + PlacedBy(es), ReclaimedBy(es), after.held)
      && Settled(b.told + ReportsBy(sends), b.counts, |ReclaimedBy(es)|, after.told, after.counts)
      && |after.told| <= |after.held|
    decreases |ops|
  {
    hide Lawful, Advanced, PlacedIn, ReclaimedIn, Accounted, Tally, MbufsOf;
    if ops == [] {
      NothingYet(b.held);
      NothingSettled(b.told, b.counts);
    } else {
      var n := |ops| - 1;
      RunFifo(b, ops[..n], es[..n], sends[..n]);
      var mid := BookAfter(b, ops[..n], es[..n], sends[..n]);
      StepFifo(b.held + PlacedBy(es[..n]), ReclaimedBy(es[..n]), mid, ops[n], es[n], sends[n]);
      assert b.held + PlacedBy(es) == b.held + PlacedBy(es[..n]) + PlacedIn(es[n]);
      var after := BookAfter(b, ops, es, sends);
      var all := b.told + ReportsBy(sends[..n]);
      SettleMore(all, b.counts, |ReclaimedBy(es[..n])|, mid.told, mid.counts, sends[n], |ReclaimedIn(es[n])|,
                 after.told, after.counts);
      assert all + sends[n] == b.told + ReportsBy(sends);
    }
  }

  lemma NothingSettled(told: seq<Report>, counts: Counts)
    ensures Settled(told + [], counts, 0, told, counts)
  {
    assert told + [] == told;
  }
}
