/**
 What the transmit descriptor ring holds at every store, and why a DMA engine that follows WRAP and
 stops at USED can never be misled by it.  Descriptor words are records of the fields the driver
 and the engine use; the rest of the control word is not part of this model.
 */
module GemTxRing {
  import opened Options
  import opened GemTxLayout

  datatype Ctl = Ctl(used: bool, wrap: bool, last: bool, ahbErr: bool, txErr: bool, len: nat)

  datatype Desc = Desc(addr: nat, ctl: Ctl)

  function NextSlot(c: Ctl, i: nat): nat {
    if c.wrap then 0 else i + 1
  }

  // Control word the driver stores for segment j of a frame of the given segments.
  function SegmentCtl(segs: Segments, j: nat, wrap: bool): Ctl
    requires j < |segs|
  {
    Ctl(false, j == |segs| - 1 && wrap, j == |segs| - 1, false, false, segs[j].len)
  }

  // Descriptor j of frame f, as the driver wrote it and the engine may have marked it.
  ghost predicate SlotWritten(ring: seq<Desc>, f: Frame, j: nat, sent: bool)
    requires j < |f.segs| && f.End() <= |ring|
  {
    var d := ring[f.start + j];
    && d.addr == f.segs[j].addr
    && d.ctl.len == f.segs[j].len
    && (d.ctl.last <==> j == |f.segs| - 1)
    && (d.ctl.wrap <==> j == |f.segs| - 1 && f.Wraps())
    && (d.ctl.used <==> j == 0 && sent)
    && (j > 0 || !sent ==> !d.ctl.ahbErr && !d.ctl.txErr)
  }

  ghost predicate FrameWritten(ring: seq<Desc>, f: Frame, sent: bool)
    requires f.End() <= |ring|
  {
    forall j :: 0 <= j < |f.segs| ==> SlotWritten(ring, f, j, sent)
  }

  /**
   fs are the queued frames, of which the engine has sent the first `sent`.  Free slots show USED to
   the engine, except those in lo..hi that the driver is still writing or re-marking.
   */
  ghost predicate RingOk(ring: seq<Desc>, fs: seq<Frame>, sent: nat, tl: nat, hd: nat, dma: nat, lo: nat, hi: nat) {
    && |ring| == NUM_TX_DESCS
    && Layout(fs, tl, hd)
    && hd < NUM_TX_DESCS - TX_MAX_DMA_SEGS
    && sent <= |fs|
    && dma == (if sent < |fs| then fs[sent].start else hd)
    && !(lo <= hd < hi)
    && (forall k :: 0 <= k < |fs| ==> fs[k].End() <= NUM_TX_DESCS)
    && (forall k :: 0 <= k < |fs| ==> FrameWritten(ring, fs[k], k < sent))
    && (forall i :: 0 <= i < NUM_TX_DESCS && !(lo <= i < hi) && !Occupied(fs, i) ==> ring[i].ctl.used)
  }

  // How the engine said that a frame went.
  datatype Report = Report(ahbErr: bool, txErr: bool)

  // The first slots of the sent frames hold what the engine reported of them, oldest first.
  ghost predicate Told(ring: seq<Desc>, fs: seq<Frame>, told: seq<Report>) {
    && |told| <= |fs|
    && forall k :: 0 <= k < |told| ==>
         fs[k].start < |ring|
         && ring[fs[k].start].ctl.ahbErr == told[k].ahbErr && ring[fs[k].start].ctl.txErr == told[k].txErr
  }

  lemma ToldStore(ring: seq<Desc>, fs: seq<Frame>, told: seq<Report>, i: nat, d: Desc)
    requires Told(ring, fs, told) && i < |ring| && !Occupied(fs, i)
    ensures Told(ring[i := d], fs, told)
  {
    forall k | 0 <= k < |told| ensures fs[k].start != i {
      assert fs[k].Has(fs[k].start);
    }
  }

  lemma ToldPush(ring: seq<Desc>, fs: seq<Frame>, told: seq<Report>, f: Frame)
    requires Told(ring, fs, told)
    ensures Told(ring, fs + [f], told)
  {
  }

  // Mbuf pointers sit exactly at the first slots of queued frames.
  ghost predicate MbufsOk(ms: seq<Option<Mbuf>>, fs: seq<Frame>) {
    && |ms| == NUM_TX_DESCS
    && (forall k :: 0 <= k < |fs| ==> fs[k].start < NUM_TX_DESCS && ms[fs[k].start] == Some(fs[k].m))
    && (forall i :: 0 <= i < NUM_TX_DESCS && !IsStart(fs, i) ==> ms[i] == None)
  }

  lemma {:induction false} ChainStep(fs: seq<Frame>, tl: nat, hd: nat, k: nat)
    requires Chain(fs, tl, hd) && k < |fs|
    ensures fs[k].Next() == if k + 1 < |fs| then fs[k + 1].start else hd
  {
    if k > 0 {
      ChainStep(fs[1..], fs[0].Next(), hd, k - 1);
    }
  }

  // The slots upwards of the head are free as long as the driver's margin lets it start a frame.
  lemma HeadWindowFree(fs: seq<Frame>, tl: nat, hd: nat, i: nat)
    requires Layout(fs, tl, hd)
    requires hd <= i < hd + (NUM_TX_DESCS - TX_MAX_DMA_SEGS) - Total(fs)
    ensures !Occupied(fs, i)
  {
    FramesDisjoint(fs, tl, hd);
  }

  /**
   What the engine finds at its pointer: either a USED slot, where it stops, or the whole of the next
   unsent frame, none of whose slots shows USED and whose last slot leads to the frame after it.
   */
  lemma EngineSeesWholeFrame(ring: seq<Desc>, fs: seq<Frame>, sent: nat, tl: nat, hd: nat, dma: nat, lo: nat, hi: nat)
    requires RingOk(ring, fs, sent, tl, hd, dma, lo, hi)
    ensures sent == |fs| <==> ring[dma].ctl.used
    ensures sent < |fs| ==>
      && dma == fs[sent].start
      && FrameWritten(ring, fs[sent], false)
      && ring[fs[sent].End() - 1].ctl.wrap == fs[sent].Wraps()
      && fs[sent].Next() == if sent + 1 < |fs| then fs[sent + 1].start else hd
  {
    if sent < |fs| {
      ChainStep(fs, tl, hd, sent);
      assert FrameWritten(ring, fs[sent], false);
      var j := |fs[sent].segs| - 1;
      assert SlotWritten(ring, fs[sent], j, false);
      assert SlotWritten(ring, fs[sent], 0, false);
    } else {
      HeadWindowFree(fs, tl, hd, hd);
    }
  }

  // What the engine reads of a slot.
  ghost predicate SameForEngine(d: Desc, d': Desc) {
    && d.addr == d'.addr && d.ctl.len == d'.ctl.len
    && d.ctl.used == d'.ctl.used && d.ctl.last == d'.ctl.last && d.ctl.wrap == d'.ctl.wrap
  }

  /**
   An engine that reads a frame slot by slot sees one frame: between any two moments at which the ring
   invariant holds (so before, between and after all stores of the driver) what it reads in the slots
   of a frame that it has not yet sent is the same.
   */
  lemma UnsentStaysPut(ring: seq<Desc>, fs: seq<Frame>, sent: nat, tl: nat, hd: nat, dma: nat, lo: nat, hi: nat, k: nat,
                       ring': seq<Desc>, fs': seq<Frame>, sent': nat, tl': nat, hd': nat, dma': nat,
                       lo': nat, hi': nat, k': nat)
    requires RingOk(ring, fs, sent, tl, hd, dma, lo, hi) && sent <= k < |fs|
    requires RingOk(ring', fs', sent', tl', hd', dma', lo', hi') && sent' <= k' < |fs'|
    requires fs[k] == fs'[k']
    ensures fs[k].End() <= |ring| == |ring'|
    ensures forall i :: fs[k].Has(i) ==> SameForEngine(ring[i], ring'[i])
  {
    var f := fs[k];
    assert FrameWritten(ring, f, false) && FrameWritten(ring', f, false);
    forall i | f.Has(i) ensures SameForEngine(ring[i], ring'[i]) {
      assert SlotWritten(ring, f, i - f.start, false) && SlotWritten(ring', f, i - f.start, false);
    }
  }

  lemma NoExemption(ring: seq<Desc>, fs: seq<Frame>, sent: nat, tl: nat, hd: nat, dma: nat, lo: nat)
    requires RingOk(ring, fs, sent, tl, hd, dma, lo, lo)
    ensures RingOk(ring, fs, sent, tl, hd, dma, 0, 0)
  {
  }

  // What the driver finds at its tail: USED there means that the oldest frame has been sent.
  lemma TailShowsSent(ring: seq<Desc>, fs: seq<Frame>, sent: nat, tl: nat, hd: nat, dma: nat)
    requires RingOk(ring, fs, sent, tl, hd, dma, 0, 0) && fs != []
    ensures ring[tl].ctl.used <==> sent > 0
    ensures fs[0].End() < NUM_TX_DESCS && FrameWritten(ring, fs[0], sent > 0)
    ensures SlotWritten(ring, fs[0], 0, sent > 0)
  {
    FramesDisjoint(fs, tl, hd);
    assert FrameWritten(ring, fs[0], 0 < sent);
    assert SlotWritten(ring, fs[0], 0, sent > 0);
  }

  lemma FrameKept(ring: seq<Desc>, ring': seq<Desc>, f: Frame, sent: bool)
    requires f.End() <= |ring| && |ring'| == |ring| && FrameWritten(ring, f, sent)
    requires forall i :: f.Has(i) ==> ring'[i] == ring[i]
    ensures FrameWritten(ring', f, sent)
  {
    forall j | 0 <= j < |f.segs| ensures SlotWritten(ring', f, j, sent) {
      assert f.Has(f.start + j);
      assert SlotWritten(ring, f, j, sent);
    }
  }

  // The engine marks the first slot of a frame it has sent; nothing else of the ring changes.
  lemma EngineSent(ring: seq<Desc>, fs: seq<Frame>, sent: nat, tl: nat, hd: nat, dma: nat, lo: nat, hi: nat,
                   ahbErr: bool, txErr: bool)
    requires RingOk(ring, fs, sent, tl, hd, dma, lo, hi) && sent < |fs|
    ensures var d := ring[dma].(ctl := ring[dma].ctl.(used := true, ahbErr := ahbErr, txErr := txErr));
      RingOk(ring[dma := d], fs, sent + 1, tl, hd, fs[sent].Next(), lo, hi)
  {
    var d := ring[dma].(ctl := ring[dma].ctl.(used := true, ahbErr := ahbErr, txErr := txErr));
    var ring' := ring[dma := d];
    ChainStep(fs, tl, hd, sent);
    FramesDisjoint(fs, tl, hd);
    forall k | 0 <= k < |fs| ensures FrameWritten(ring', fs[k], k < sent + 1) {
      if k != sent {
        FrameKept(ring, ring', fs[k], k < sent);
      } else {
        forall j | 0 <= j < |fs[k].segs| ensures SlotWritten(ring', fs[k], j, true) {
          assert SlotWritten(ring, fs[k], j, false);
        }
      }
    }
    forall i | 0 <= i < NUM_TX_DESCS && !(lo <= i < hi) && !Occupied(fs, i) ensures ring'[i].ctl.used {
    }
  }

  // And what it reports there is the next of its reports.
  lemma EngineReports(ring: seq<Desc>, fs: seq<Frame>, told: seq<Report>, tl: nat, hd: nat, dma: nat, lo: nat, hi: nat,
                      d: Desc)
    requires RingOk(ring, fs, |told|, tl, hd, dma, lo, hi) && |told| < |fs| && Told(ring, fs, told)
    ensures Told(ring[dma := d], fs, told + [Report(d.ctl.ahbErr, d.ctl.txErr)])
  {
    FramesDisjoint(fs, tl, hd);
  }

  // Storing into a free slot is invisible to the engine if the slot is exempt or keeps USED.
  lemma FreeStore(ring: seq<Desc>, fs: seq<Frame>, sent: nat, tl: nat, hd: nat, dma: nat, lo: nat, hi: nat,
                  i: nat, d: Desc)
    requires RingOk(ring, fs, sent, tl, hd, dma, lo, hi)
    requires i < NUM_TX_DESCS && !Occupied(fs, i)
    requires lo <= i < hi || d.ctl.used
    ensures RingOk(ring[i := d], fs, sent, tl, hd, dma, lo, hi)
  {
    var ring' := ring[i := d];
    forall k | 0 <= k < |fs| ensures FrameWritten(ring', fs[k], k < sent) {
      FrameKept(ring, ring', fs[k], k < sent);
    }
  }

  // Below the full mark the driver may start writing a frame at the head: its slots are all free.
  lemma HeadRoom(ring: seq<Desc>, fs: seq<Frame>, sent: nat, tl: nat, hd: nat, dma: nat, f: Frame)
    requires RingOk(ring, fs, sent, tl, hd, dma, 0, 0) && Total(fs) < TX_FULL && f.start == hd
    ensures RingOk(ring, fs, sent, tl, hd, dma, hd + 1, f.End())
    ensures f.End() < NUM_TX_DESCS
    ensures forall i :: f.Has(i) ==> !Occupied(fs, i)
  {
    forall i | f.Has(i) ensures !Occupied(fs, i) {
      HeadWindowFree(fs, tl, hd, i);
    }
  }

  lemma HeadUsed(ring: seq<Desc>, fs: seq<Frame>, sent: nat, tl: nat, hd: nat, dma: nat, lo: nat, hi: nat)
    requires RingOk(ring, fs, sent, tl, hd, dma, lo, hi)
    ensures ring[hd].ctl.used
  {
    HeadWindowFree(fs, tl, hd, hd);
  }

  lemma StagedKept(ring: seq<Desc>, ring': seq<Desc>, f: Frame, i: int)
    requires f.End() <= |ring| == |ring'| && -1 <= i
    requires forall j :: i < j < |f.segs| ==> SlotWritten(ring, f, j, false)
    requires forall k :: f.start + i < k < f.End() ==> ring'[k] == ring[k]
    ensures forall j :: i < j < |f.segs| ==> SlotWritten(ring', f, j, false)
  {
    forall j | i < j < |f.segs| ensures SlotWritten(ring', f, j, false) {
      assert SlotWritten(ring, f, j, false);
    }
  }

  // The driver's last store of a frame, at its first slot, hands the complete frame to the engine.
  lemma HandOver(ring: seq<Desc>, fs: seq<Frame>, sent: nat, tl: nat, hd: nat, dma: nat, f: Frame)
    requires RingOk(ring, fs, sent, tl, hd, dma, hd + 1, hd + |f.segs|)
    requires Total(fs) < TX_FULL && f.start == hd
    requires forall j :: 0 < j < |f.segs| ==> SlotWritten(ring, f, j, false)
    requires ring[hd].addr == f.segs[0].addr
    ensures RingOk(ring[hd := ring[hd].(ctl := SegmentCtl(f.segs, 0, f.Wraps()))],
                   fs + [f], sent, tl, f.Next(), dma, 0, 0)
    ensures Layout(fs + [f], tl, f.Next())
  {
    var ring' := ring[hd := ring[hd].(ctl := SegmentCtl(f.segs, 0, f.Wraps()))];
    var fs' := fs + [f];
    ChainAppend(fs, f, tl);
    forall i | hd <= i < f.End() ensures !Occupied(fs, i) {
      HeadWindowFree(fs, tl, hd, i);
    }
    forall k | 0 <= k < |fs'| ensures FrameWritten(ring', fs'[k], k < sent) {
      if k < |fs| {
        assert !Occupied(fs, hd);
        FrameKept(ring, ring', fs[k], k < sent);
      } else {
        forall j | 0 <= j < |f.segs| ensures SlotWritten(ring', f, j, false) {
          assert j > 0 ==> SlotWritten(ring, f, j, false);
        }
      }
    }
    forall i | 0 <= i < NUM_TX_DESCS && !Occupied(fs', i) ensures ring'[i].ctl.used {
      assert !fs'[|fs|].Has(i);
      assert forall k :: 0 <= k < |fs| ==> fs[k] == fs'[k];
    }
  }

  // Reclaim takes the sent frame at the tail; its slots after the first still have to be re-marked.
  lemma TakeBack(ring: seq<Desc>, fs: seq<Frame>, sent: nat, tl: nat, hd: nat, dma: nat)
    requires RingOk(ring, fs, sent, tl, hd, dma, 0, 0) && sent > 0
    ensures RingOk(ring, fs[1..], sent - 1, fs[0].Next(), hd, dma, tl + 1, fs[0].End())
    ensures Layout(fs[1..], fs[0].Next(), hd)
    ensures fs[0].start == tl && fs[0].Next() < NUM_TX_DESCS - TX_MAX_DMA_SEGS
    ensures Total(fs) == |fs[0].segs| + Total(fs[1..])
    ensures forall i :: fs[0].Has(i) ==> !Occupied(fs[1..], i)
  {
    var f, rest := fs[0], fs[1..];
    FramesDisjoint(fs, tl, hd);
    assert FrameWritten(ring, f, true);
    assert SlotWritten(ring, f, 0, true);
    forall k | 0 <= k < |rest| ensures FrameWritten(ring, rest[k], k < sent - 1) {
      assert FrameWritten(ring, fs[k + 1], k + 1 < sent);
    }
    forall i | 0 <= i < NUM_TX_DESCS && !(tl + 1 <= i < f.End()) && !Occupied(rest, i) ensures ring[i].ctl.used {
      if i != tl {
        forall k | 0 <= k < |fs| ensures !fs[k].Has(i) {
          assert k > 0 ==> fs[k] == rest[k - 1];
        }
      }
    }
  }

  // Re-marking the next slot of a reclaimed frame shrinks the exempt range.
  lemma Remark(ring: seq<Desc>, fs: seq<Frame>, sent: nat, tl: nat, hd: nat, dma: nat, lo: nat, hi: nat)
    requires RingOk(ring, fs, sent, tl, hd, dma, lo, hi)
    requires lo < hi <= NUM_TX_DESCS && !Occupied(fs, lo)
    ensures RingOk(ring[lo := ring[lo].(ctl := ring[lo].ctl.(used := true))], fs, sent, tl, hd, dma, lo + 1, hi)
  {
    var d := ring[lo].(ctl := ring[lo].ctl.(used := true));
    FreeStore(ring, fs, sent, tl, hd, dma, lo, hi, lo, d);
  }
}
