/**
 Where the queued transmit frames of the Ethernet driver lie in its 256-slot descriptor ring.

 A frame takes one slot per DMA segment, in ascending order, and never crosses the end of the
 ring: once a frame ends within TX_MAX_DMA_SEGS of the end, its last descriptor carries WRAP and
 the next frame starts at slot 0.  A lap therefore ends anywhere from 248 to 255.
 */
module GemTxLayout {
  const NUM_TX_DESCS: nat := 256
  const TX_MAX_DMA_SEGS: nat := 8

  // The driver stops taking frames from the send queue at this many queued descriptors.
  const TX_FULL: nat := NUM_TX_DESCS - TX_MAX_DMA_SEGS * 2

  type Mbuf = nat

  datatype Segment = Segment(addr: nat, len: nat)

  // bus_dmamap_load_mbuf_sg yields between one and TX_MAX_DMA_SEGS segments.
  type Segments = s: seq<Segment> | 1 <= |s| <= TX_MAX_DMA_SEGS witness [Segment(0, 0)]

  datatype Frame = Frame(start: nat, segs: Segments, m: Mbuf) {
    function End(): nat { start + |segs| }

    predicate Wraps() { End() + TX_MAX_DMA_SEGS >= NUM_TX_DESCS }

    function Next(): nat { if Wraps() then 0 else End() }

    predicate Has(i: int) { start <= i < End() }
  }

  function Total(fs: seq<Frame>): nat {
    if fs == [] then 0 else |fs[0].segs| + Total(fs[1..])
  }

  function Mbufs(fs: seq<Frame>): (ms: seq<Mbuf>)
    ensures |ms| == |fs|
    ensures forall k :: 0 <= k < |fs| ==> ms[k] == fs[k].m
  {
    seq(|fs|, k requires 0 <= k < |fs| => fs[k].m)
  }

  // The frames follow one another from the tail index to the head index.
  ghost predicate Chain(fs: seq<Frame>, tl: nat, hd: nat) {
    if fs == [] then tl == hd
    else fs[0].start == tl && Chain(fs[1..], fs[0].Next(), hd)
  }

  ghost predicate Occupied(fs: seq<Frame>, i: int) {
    exists k :: 0 <= k < |fs| && fs[k].Has(i)
  }

  ghost predicate IsStart(fs: seq<Frame>, i: int) {
    exists k :: 0 <= k < |fs| && fs[k].start == i
  }

  ghost predicate Layout(fs: seq<Frame>, tl: nat, hd: nat) {
    && Chain(fs, tl, hd)
    && tl < NUM_TX_DESCS - TX_MAX_DMA_SEGS
    && Total(fs) < NUM_TX_DESCS - TX_MAX_DMA_SEGS
  }

  // The number of frames on the tail's lap.
  ghost function Cut(fs: seq<Frame>): (c: nat)
    ensures c <= |fs|
    ensures forall k :: 0 <= k < c - 1 ==> !fs[k].Wraps()
  {
    if fs == [] then 0 else if fs[0].Wraps() then 1 else 1 + Cut(fs[1..])
  }

  ghost predicate Ascending(fs: seq<Frame>, c: nat) {
    forall i, j :: 0 <= i < j < |fs| && (j < c || c <= i) ==> fs[i].End() <= fs[j].start
  }

  // Slots ascend on each lap; the tail's lap lies at or above tl, the head's lap below hd.
  ghost predicate Placed(fs: seq<Frame>, tl: nat, hd: nat, c: nat) {
    && c <= |fs|
    && hd < NUM_TX_DESCS - TX_MAX_DMA_SEGS
    && (forall k :: 0 <= k < |fs| ==> fs[k].End() < NUM_TX_DESCS)
    && (forall k :: 0 <= k < c ==> tl <= fs[k].start)
    && Ascending(fs, c)
    && (forall k :: c <= k < |fs| ==> fs[k].End() <= hd)
    && (if c > 0 && fs[c - 1].Wraps() then
          && hd + fs[c - 1].End() == tl + Total(fs)
          && (forall k :: c <= k < |fs| ==> !fs[k].Wraps())
        else
          && c == |fs|
          && hd == tl + Total(fs)
          && (forall k :: 0 <= k < c ==> fs[k].End() <= hd))
  }

  lemma AscendingBefore(f: Frame, fs: seq<Frame>, c: nat, c': nat)
    requires Ascending(fs, c)
    requires if c' == c + 1 then forall k :: 0 <= k < c && k < |fs| ==> f.End() <= fs[k].start else c' == 1 && c == |fs|
    ensures Ascending([f] + fs, c')
  {
    var all := [f] + fs;
    forall i, j | 0 <= i < j < |all| && (j < c' || c' <= i) ensures all[i].End() <= all[j].start {
      assert all[j] == fs[j - 1] && (i > 0 ==> all[i] == fs[i - 1]);
    }
  }

  // A frame in front of the tail that does not wrap shares the lap of the frames after it.
  lemma PlacedBefore(f: Frame, fs: seq<Frame>, hd: nat, c: nat)
    requires !f.Wraps() && Placed(fs, f.Next(), hd, c)
    ensures Placed([f] + fs, f.start, hd, c + 1)
  {
    hide Ascending;
    var all := [f] + fs;
    AscendingBefore(f, fs, c, c + 1);
    assert all[1..] == fs;
    assert forall k :: 1 <= k < |all| ==> all[k] == fs[k - 1];
  }

  // A second wrap does not fit above a tail at slot 0.
  lemma NoSecondWrap(fs: seq<Frame>, hd: nat, c: nat)
    requires Placed(fs, 0, hd, c) && Total(fs) < NUM_TX_DESCS - TX_MAX_DMA_SEGS
    ensures c == |fs| && hd == Total(fs)
    ensures forall k :: 0 <= k < |fs| ==> fs[k].End() <= hd && !fs[k].Wraps()
  {
  }

  // A frame in front of the tail that wraps closes a lap of at least 248 slots.
  lemma PlacedBeforeWrap(f: Frame, fs: seq<Frame>, hd: nat, c: nat)
    requires f.Wraps() && f.start < NUM_TX_DESCS - TX_MAX_DMA_SEGS
    requires Placed(fs, 0, hd, c)
    requires |f.segs| + Total(fs) < NUM_TX_DESCS - TX_MAX_DMA_SEGS
    ensures Placed([f] + fs, f.start, hd, 1)
  {
    var all := [f] + fs;
    NoSecondWrap(fs, hd, c);
    AscendingBefore(f, fs, c, 1);
    hide Ascending;
    assert all[1..] == fs && Total(all) == |f.segs| + hd;
    forall k | 0 <= k < |all| ensures all[k].End() < NUM_TX_DESCS && (k > 0 ==> all[k].End() <= hd && !all[k].Wraps()) {
      assert k > 0 ==> all[k] == fs[k - 1];
    }
  }

  // At most one wrap lies between the tail and the head, whatever the frame sizes.
  lemma {:induction false} OneWrap(fs: seq<Frame>, tl: nat, hd: nat)
    requires Layout(fs, tl, hd)
    ensures Placed(fs, tl, hd, Cut(fs))
  {
    if fs != [] {
      var f, rest := fs[0], fs[1..];
      assert fs == [f] + rest;
      hide Placed;
      OneWrap(rest, f.Next(), hd);
      if f.Wraps() {
        PlacedBeforeWrap(f, rest, hd, Cut(rest));
      } else {
        PlacedBefore(f, rest, hd, Cut(rest));
      }
    }
  }

  /**
   The safety of the ring geometry: queued frames are pairwise disjoint, lie inside the ring, and
   leave free 248 - Total(fs) slots upwards of the head index, whichever lap it is on.
   */
  lemma FramesDisjoint(fs: seq<Frame>, tl: nat, hd: nat)
    requires Layout(fs, tl, hd)
    ensures hd < NUM_TX_DESCS - TX_MAX_DMA_SEGS
    ensures forall k :: 0 <= k < |fs| ==> fs[k].End() < NUM_TX_DESCS
    ensures forall i, j :: 0 <= i < j < |fs| ==> fs[i].End() <= fs[j].start || fs[j].End() <= fs[i].start
    ensures forall k :: 0 <= k < |fs| ==>
      fs[k].End() <= hd || hd + (NUM_TX_DESCS - TX_MAX_DMA_SEGS) - Total(fs) <= fs[k].start
  {
    OneWrap(fs, tl, hd);
  }

  lemma {:induction false} ChainAppend(fs: seq<Frame>, f: Frame, tl: nat)
    requires Chain(fs, tl, f.start)
    ensures Chain(fs + [f], tl, f.Next())
    ensures Total(fs + [f]) == Total(fs) + |f.segs|
  {
    if fs == [] {
      assert fs + [f] == [f] && [f][1..] == [];
    } else {
      ChainAppend(fs[1..], f, fs[0].Next());
      assert (fs + [f])[1..] == fs[1..] + [f];
    }
  }
}
