/**
 The WiFi driver's cache from BSSID to chanspec: a ring of 32 slots that refines a bounded FIFO map.
 */
module BssCache {
  const SIZE: nat := 32

  type Bssid = b: nat | b < 0x1_0000_0000_0000

  type Chanspec = bv16

  // The cached BSSIDs, oldest insertion first, and the chanspec of each.
  datatype Fifo = Fifo(order: seq<Bssid>, specs: map<Bssid, Chanspec>)

  const EMPTY := Fifo([], map[])

  datatype Add = Add(bssid: Bssid, chanspec: Chanspec)

  // A known BSSID keeps its place and gets the new chanspec; a new one pushes out the oldest of 32.
  function AddTo(f: Fifo, a: Add): Fifo {
    if a.chanspec == 0 then f
    else if a.bssid in f.order then f.(specs := f.specs[a.bssid := a.chanspec])
    else if |f.order| < SIZE then Fifo(f.order + [a.bssid], f.specs[a.bssid := a.chanspec])
    else Fifo(f.order[1..] + [a.bssid], (f.specs - {f.order[0]})[a.bssid := a.chanspec])
  }

  function After(adds: seq<Add>): Fifo {
    if adds == [] then EMPTY else AddTo(After(adds[..|adds| - 1]), adds[|adds| - 1])
  }

  ghost predicate Wf(f: Fifo) {
    && |f.order| <= SIZE
    && (forall i, j :: 0 <= i < j < |f.order| ==> f.order[i] != f.order[j])
    && (forall b :: b in f.specs <==> b in f.order)
    && (forall b :: b in f.specs ==> f.specs[b] != 0)
  }

  lemma AppendKeepsWf(f: Fifo, b: Bssid, cs: Chanspec)
    requires Wf(f) && b !in f.order && |f.order| < SIZE && cs != 0
    ensures Wf(Fifo(f.order + [b], f.specs[b := cs]))
  {
  }

  lemma EvictKeepsWf(f: Fifo)
    requires Wf(f) && |f.order| == SIZE
    ensures Wf(Fifo(f.order[1..], f.specs - {f.order[0]}))
    ensures forall b :: b in f.order <==> b == f.order[0] || b in f.order[1..]
  {
    var first, rest := f.order[0], f.order[1..];
    assert f.order == [first] + rest;
    assert forall i :: 0 <= i < |rest| ==> rest[i] == f.order[i + 1];
    assert first !in rest;
  }

  lemma AddKeepsWf(f: Fifo, a: Add)
    requires Wf(f)
    ensures Wf(AddTo(f, a))
  {
    if a.chanspec != 0 && a.bssid !in f.order {
      if |f.order| < SIZE {
        AppendKeepsWf(f, a.bssid, a.chanspec);
      } else {
        EvictKeepsWf(f);
        AppendKeepsWf(Fifo(f.order[1..], f.specs - {f.order[0]}), a.bssid, a.chanspec);
      }
    }
  }

  // The BSSIDs inserted because they were not cached, in order.
  function Misses(adds: seq<Add>): seq<Bssid> {
    if adds == [] then []
    else
      var a := adds[|adds| - 1];
      var before := Misses(adds[..|adds| - 1]);
      if a.chanspec == 0 || a.bssid in Latest(before) then before else before + [a.bssid]
  }

  // The latest 32 of a sequence of insertions.
  function Latest(ms: seq<Bssid>): seq<Bssid> {
    if |ms| <= SIZE then ms else ms[|ms| - SIZE..]
  }

  // The chanspec given last for b; 0 if none was.
  function LastSpec(adds: seq<Add>, b: Bssid): Chanspec {
    if adds == [] then 0
    else
      var a := adds[|adds| - 1];
      if a.bssid == b && a.chanspec != 0 then a.chanspec else LastSpec(adds[..|adds| - 1], b)
  }

  lemma SpecsAfterAdd(f: Fifo, a: Add)
    requires Wf(f)
    ensures forall b :: b in AddTo(f, a).specs ==>
      if b == a.bssid && a.chanspec != 0 then AddTo(f, a).specs[b] == a.chanspec
      else b in f.specs && AddTo(f, a).specs[b] == f.specs[b]
  {
  }

  lemma LatestAppend(ms: seq<Bssid>, b: Bssid)
    ensures Latest(ms + [b]) == (if |Latest(ms)| < SIZE then Latest(ms) else Latest(ms)[1..]) + [b]
  {
  }

  /**
   After any sequence of adds, a BSSID is cached exactly when it is among the latest 32 that were
   inserted on a miss, cached BSSIDs are distinct, and each has the chanspec added last for it.
   */
  lemma {:induction false} CacheMeaning(adds: seq<Add>)
    ensures var f := After(adds);
      && Wf(f)
      && f.order == Latest(Misses(adds))
      && forall b :: b in f.specs ==> f.specs[b] == LastSpec(adds, b)
  {
    if adds != [] {
      var n := |adds| - 1;
      CacheMeaning(adds[..n]);
      AddKeepsWf(After(adds[..n]), adds[n]);
      LatestAppend(Misses(adds[..n]), adds[n].bssid);
      var f, g := After(adds[..n]), After(adds);
      SpecsAfterAdd(f, adds[n]);
      forall b | b in g.specs ensures g.specs[b] == LastSpec(adds, b) {
      }
      hide Latest, Wf;
    }
  }

  // What a slot holds whose contents have age rank k.
  ghost predicate Holds(b: Bssid, cs: Chanspec, f: Fifo, k: int) {
    if 0 <= k < |f.order| then b == f.order[k] && b in f.specs && cs == f.specs[b] else cs == 0
  }

  lemma HoldsAfterHit(f: Fifo, a: Add, r: nat, b: Bssid, cs: Chanspec, k: int)
    requires Wf(f) && a.chanspec != 0 && r < |f.order| && f.order[r] == a.bssid && Holds(b, cs, f, k)
    ensures Holds(if k == r then a.bssid else b, if k == r then a.chanspec else cs, AddTo(f, a), k)
  {
  }

  lemma HoldsAfterMiss(f: Fifo, a: Add, b: Bssid, cs: Chanspec, k: int)
    requires Wf(f) && a.chanspec != 0 && a.bssid !in f.order && Holds(b, cs, f, k) && 0 <= k < SIZE
    requires if |f.order| < SIZE then k != |f.order| else k > 0
    ensures Holds(b, cs, AddTo(f, a), if |f.order| < SIZE then k else k - 1)
  {
    if k < |f.order| {
      assert f.order[k] in f.order;
      assert k > 0 ==> f.order[k] != f.order[0];
    }
  }

  lemma HoldsNew(f: Fifo, a: Add)
    requires Wf(f) && a.chanspec != 0 && a.bssid !in f.order
    ensures Holds(a.bssid, a.chanspec, AddTo(f, a), |AddTo(f, a).order| - 1)
  {
  }

  // The age rank of slot s, given the next slot to fill and the number of entries.
  function RankAt(s: nat, next: nat, count: nat): int {
    if count < SIZE then s else if next <= s then s - next else s + SIZE - next
  }

  // How the ranks move when slot `slot` is filled.
  lemma RankAfterMiss(count: nat, slot: nat, s: nat)
    requires count <= SIZE && slot < SIZE && s < SIZE && (count < SIZE ==> slot == count)
    ensures var more := if count < SIZE then count + 1 else SIZE;
      && (more < SIZE ==> (slot + 1) % SIZE == more)
      && 0 <= RankAt(s, slot, count) < SIZE
      && (s == slot ==> RankAt(s, (slot + 1) % SIZE, more) == more - 1)
      && (s != slot ==>
            && (if count < SIZE then RankAt(s, slot, count) != count else RankAt(s, slot, count) > 0)
            && RankAt(s, (slot + 1) % SIZE, more) == RankAt(s, slot, count) - (if count < SIZE then 0 else 1))
  {
  }

  lemma SlotAfterMiss(f: Fifo, a: Add, slot: nat, s: nat, b: Bssid, cs: Chanspec)
    requires Wf(f) && a.chanspec != 0 && a.bssid !in f.order
    requires slot < SIZE && (|f.order| < SIZE ==> slot == |f.order|)
    requires s < SIZE && Holds(b, cs, f, RankAt(s, slot, |f.order|))
    ensures var g := AddTo(f, a);
      && (|g.order| < SIZE ==> (slot + 1) % SIZE == |g.order|)
      && Holds(if s == slot then a.bssid else b, if s == slot then a.chanspec else cs, g,
               RankAt(s, (slot + 1) % SIZE, |g.order|))
  {
    var g := AddTo(f, a);
    assert |g.order| == if |f.order| < SIZE then |f.order| + 1 else SIZE;
    hide AddTo, Holds, Wf;
    RankAfterMiss(|f.order|, slot, s);
    if s != slot {
      hide RankAt;
      HoldsAfterMiss(f, a, b, cs, RankAt(s, slot, |f.order|));
    } else {
      hide RankAt;
      HoldsNew(f, a);
    }
  }

  class Cache {
    const bssid: array<Bssid>
    const chanspec: array<Chanspec>
    var next: nat
    ghost var fifo: Fifo

    ghost function Rank(s: nat): int
      reads `next, `fifo
    {
      RankAt(s, next, |fifo.order|)
    }

    ghost predicate Valid()
      reads this, bssid, chanspec
    {
      && bssid as object != chanspec as object
      && bssid.Length == chanspec.Length == SIZE
      && Wf(fifo)
      && next < SIZE
      && (|fifo.order| < SIZE ==> next == |fifo.order|)
      && (forall s :: 0 <= s < SIZE ==> Holds(bssid[s], chanspec[s], fifo, Rank(s)))
    }

    constructor ()
      ensures Valid() && fifo == EMPTY && fresh(bssid) && fresh(chanspec)
    {
      bssid := new Bssid[SIZE](_ => 0);
      chanspec := new Chanspec[SIZE](_ => 0);
      next := 0;
      fifo := EMPTY;
    }

    // The slot a BSSID is cached in, or 32.
    method Find(b: Bssid) returns (i: nat)
      requires Valid()
      ensures i <= SIZE
      ensures i < SIZE <==> b in fifo.order
      ensures i < SIZE ==> bssid[i] == b && b in fifo.specs && chanspec[i] == fifo.specs[b] && Rank(i) < |fifo.order|
    {
      i := 0;
      while i < SIZE
        invariant i <= SIZE
        invariant forall s :: 0 <= s < i ==> !(chanspec[s] != 0 && bssid[s] == b)
      {
        if chanspec[i] != 0 && bssid[i] == b {
          assert fifo.order[Rank(i)] == b;
          return;
        }
        i := i + 1;
      }
      forall k | 0 <= k < |fifo.order| ensures fifo.order[k] != b {
        var s := if |fifo.order| < SIZE then k else if k + next < SIZE then k + next else k + next - SIZE;
        assert Rank(s) == k;
        assert chanspec[s] != 0;
      }
    }

    // A miss: the slot at next is the oldest one, or a free one.
    method Insert(b: Bssid, cs: Chanspec)
      requires Valid() && cs != 0 && b !in fifo.order && Wf(AddTo(fifo, Add(b, cs)))
      modifies this, bssid, chanspec
      ensures Valid() && fifo == AddTo(old(fifo), Add(b, cs))
    {
      hide Wf, AddTo, Holds;
      ghost var f, a, bs, css, slot := fifo, Add(b, cs), bssid[..], chanspec[..], next;
      assert forall s :: 0 <= s < SIZE ==> Holds(bs[s], css[s], f, RankAt(s, slot, |f.order|));
      SlotAfterMiss(f, a, slot, slot, bs[slot], css[slot]);
      bssid[next] := b;
      chanspec[next] := cs;
      fifo := AddTo(fifo, a);
      next := (next + 1) % SIZE;
      forall s | 0 <= s < SIZE ensures Holds(bssid[s], chanspec[s], fifo, Rank(s)) {
        SlotAfterMiss(f, a, slot, s, bs[s], css[s]);
        assert s != slot ==> bssid[s] == bs[s] && chanspec[s] == css[s];
      }
    }

    // A hit: only the chanspec of that slot changes.
    method Replace(i: nat, b: Bssid, cs: Chanspec)
      requires Valid() && cs != 0 && b in fifo.order && i < SIZE && Rank(i) < |fifo.order| && bssid[i] == b
      requires Wf(AddTo(fifo, Add(b, cs)))
      modifies this, chanspec
      ensures Valid() && fifo == AddTo(old(fifo), Add(b, cs))
    {
      ghost var f, a, r, bs, css := fifo, Add(b, cs), Rank(i), bssid[..], chanspec[..];
      assert forall s :: 0 <= s < SIZE ==> Holds(bs[s], css[s], f, RankAt(s, next, |f.order|));
      chanspec[i] := cs;
      fifo := AddTo(fifo, a);
      forall s | 0 <= s < SIZE ensures Holds(bssid[s], chanspec[s], fifo, Rank(s)) {
        assert bssid[s] == bs[s] && chanspec[s] == (if s == i then cs else css[s]);
        assert s == i <==> Rank(s) == r;
        HoldsAfterHit(f, a, r, bs[s], css[s], RankAt(s, next, |f.order|));
      }
    }

    method AddEntry(b: Bssid, cs: Chanspec)
      requires Valid()
      modifies this, bssid, chanspec
      ensures Valid() && fifo == AddTo(old(fifo), Add(b, cs))
    {
      if cs == 0 {
        return;
      }
      AddKeepsWf(fifo, Add(b, cs));
      var i := Find(b);
      if i < SIZE {
        Replace(i, b, cs);
        return;
      }
      Insert(b, cs);
    }

    // What to join with: the cached chanspec, or one made from the channel number, or 0.
    method ChanspecForJoin(b: Bssid, ieeeChan: int) returns (cs: Chanspec)
      requires Valid()
      ensures cs == if b in fifo.specs then fifo.specs[b] else Derived(ieeeChan)
    {
      var i := Find(b);
      if i < SIZE {
        return chanspec[i];
      }
      return Derived(ieeeChan);
    }
  }

  function Derived(ieeeChan: int): Chanspec {
    if ieeeChan <= 0 then 0
    else if ieeeChan <= 14 then 0x1000 | (ieeeChan % 0x1_0000) as bv16
    else 0xD000 | (ieeeChan % 0x1_0000) as bv16
  }

  // The chanspec made from a channel number: its lower twelve bits are the number's, and the upper four
  // mark the band, 2.4 GHz up to channel 14 and 5 GHz above (beside bits of a number too large).
  lemma DerivedMeans(chan: int)
    ensures chan <= 0 <==> Derived(chan) == 0
    ensures chan > 0 ==>
      var c := (chan % 0x1_0000) as bv16;
      && Derived(chan) & 0x0fff == c & 0x0fff
      && Derived(chan) & 0xf000 == (if chan < 15 then 0x1000 else 0xd000) | (c & 0xf000)
  {
    if chan > 0 {
      Bands((chan % 0x1_0000) as bv16);
    }
  }

  lemma Bands(c: bv16)
    ensures (0x1000 | c) & 0x0fff == c & 0x0fff && (0x1000 | c) & 0xf000 == 0x1000 | (c & 0xf000)
    ensures (0xD000 | c) & 0x0fff == c & 0x0fff && (0xD000 | c) & 0xf000 == 0xd000 | (c & 0xf000)
    ensures 0x1000 | c != 0 && 0xD000 | c != 0
  {
  }

  /**
   Any sequence of adds into a fresh cache, then a join: the chanspec used is the one added last for the
   BSSID if it is among the latest 32 inserted on a miss, and is derived from the channel otherwise.
   */
  method JoinAfter(adds: seq<Add>, b: Bssid, ieeeChan: int) returns (cs: Chanspec)
    ensures cs == if b in Latest(Misses(adds)) then LastSpec(adds, b) else Derived(ieeeChan)
  {
    var cache := new Cache();
    for i := 0 to |adds|
      invariant cache.Valid() && cache.fifo == After(adds[..i])
      invariant fresh(cache) && fresh(cache.bssid) && fresh(cache.chanspec)
    {
      cache.AddEntry(adds[i].bssid, adds[i].chanspec);
      assert adds[..i + 1][..i] == adds[..i];
    }
    assert adds[..|adds|] == adds;
    CacheMeaning(adds);
    cs := cache.ChanspecForJoin(b, ieeeChan);
  }
}
