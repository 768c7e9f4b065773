/**
 Writing a block to the WiFi chip's 32-bit backplane through the 32 KB window of SDIO function 1.
 Three byte registers hold the window; the driver caches the address they stand for.
 */
module Backplane {
  type Byte = b: nat | b < 256

  type Memory = map<nat, Byte>

  const WINDOW: nat := 0x8000
  const SPACE: nat := 0x1_0000_0000

  // The window an address lies in.
  function WindowOf(addr: nat): nat {
    addr - addr % WINDOW
  }

  function OffsetIn(a: nat): (o: nat)
    ensures o < WINDOW
  {
    a % WINDOW
  }

  // The window that the low, mid and high registers stand for.
  function Rebuilt(low: Byte, mid: Byte, high: Byte): nat {
    low as int * 0x100 + mid as int * 0x1_0000 + high as int * 0x100_0000
  }

  function LowOf(w: nat): Byte { w / 0x100 % 0x100 }

  function MidOf(w: nat): Byte { w / 0x1_0000 % 0x100 }

  function HighOf(w: nat): Byte { w / 0x100_0000 % 0x100 }

  // The backplane address i bytes above addr.
  function Addr(addr: nat, i: nat): nat {
    (addr + i) % SPACE
  }

  // The flat write that the windowed one stands for: byte after byte, addresses modulo 2^32.
  function FlatWrite(mem: Memory, addr: nat, buf: seq<Byte>): Memory {
    if buf == [] then mem
    else
      var n := |buf| - 1;
      FlatWrite(mem, addr, buf[..n])[Addr(addr, n) := buf[n]]
  }

  // What a flat write leaves at each address: the last byte written there, or what was there before.
  lemma {:induction false} FlatWriteAt(mem: Memory, addr: nat, buf: seq<Byte>, a: nat)
    requires |buf| <= SPACE
    ensures var m := FlatWrite(mem, addr, buf);
      && (forall i :: 0 <= i < |buf| && Addr(addr, i) == a ==> a in m && m[a] == buf[i])
      && ((forall i :: 0 <= i < |buf| ==> Addr(addr, i) != a) ==>
            (a in m <==> a in mem) && (a in mem ==> m[a] == mem[a]))
  {
    hide Addr;
    if buf != [] {
      var n := |buf| - 1;
      var m := FlatWrite(mem, addr, buf);
      FlatWriteAt(mem, addr, buf[..n], a);
      forall i | 0 <= i < |buf| && Addr(addr, i) == a ensures a in m && m[a] == buf[i] {
        if i < n {
          NoAlias(addr, i, n);
          assert buf[..n][i] == buf[i];
        }
      }
      if forall i :: 0 <= i < |buf| ==> Addr(addr, i) != a {
        assert forall i :: 0 <= i < n ==> Addr(addr, i) != a;
        assert Addr(addr, n) != a;
      }
    }
  }

  lemma AddrInside(base: nat, i: nat)
    requires base + i < SPACE
    ensures Addr(base, i) == base + i
  {
  }

  lemma NoAlias(addr: nat, i: nat, j: nat)
    requires i < j < SPACE
    ensures Addr(addr, i) != Addr(addr, j)
  {
    var x, y := addr + i, addr + j;
    assert y - x == SPACE * (y / SPACE - x / SPACE) + (y % SPACE - x % SPACE);
  }

  lemma {:induction false} FlatWriteAppend(mem: Memory, addr: nat, a: seq<Byte>, b: seq<Byte>)
    ensures FlatWrite(FlatWrite(mem, addr, a), addr + |a|, b) == FlatWrite(mem, addr, a + b)
    decreases |b|
  {
    if b == [] {
      assert a + b == a;
    } else {
      var n := |b| - 1;
      FlatWriteAppend(mem, addr, a, b[..n]);
      assert (a + b)[..|a| + n] == a + b[..n];
    }
  }

  lemma FlatWriteNothing(mem: Memory, addr: nat, buf: seq<Byte>)
    ensures FlatWrite(mem, addr, buf[..0]) == mem
    ensures buf[..|buf|] == buf
  {
  }

  lemma AddrWraps(addr: nat, n: nat)
    ensures Addr(addr % SPACE, n) == Addr(addr, n)
  {
    assert addr + n == (addr % SPACE + n) + SPACE * (addr / SPACE);
  }

  lemma {:induction false} FlatWriteWraps(mem: Memory, addr: nat, buf: seq<Byte>)
    ensures FlatWrite(mem, addr % SPACE, buf) == FlatWrite(mem, addr, buf)
    decreases |buf|
  {
    if buf != [] {
      var n := |buf| - 1;
      FlatWriteWraps(mem, addr, buf[..n]);
      AddrWraps(addr, n);
      hide Addr;
    }
  }

  // A chunk written at the 32-bit address of its first byte continues the flat write of what precedes it.
  lemma OneChunk(mem: Memory, addr: nat, buf: seq<Byte>, done: nat, chunk: nat)
    requires done + chunk <= |buf|
    ensures FlatWrite(FlatWrite(mem, addr, buf[..done]), (addr + done) % SPACE, buf[done..done + chunk])
         == FlatWrite(mem, addr, buf[..done + chunk])
  {
    FlatWriteWraps(FlatWrite(mem, addr, buf[..done]), addr + done, buf[done..done + chunk]);
    FlatWriteAppend(mem, addr, buf[..done], buf[done..done + chunk]);
    assert buf[..done] + buf[done..done + chunk] == buf[..done + chunk];
  }

  // The three registers hold every window address in full.
  lemma RegistersHoldWindow(w: nat)
    requires w < SPACE && w % WINDOW == 0
    ensures Rebuilt(LowOf(w), MidOf(w), HighOf(w)) == w
  {
    Bytes(w);
    Aligned(w);
    hide LowOf, MidOf, HighOf;
    Horner(w, w / 0x100, w / 0x100 / 0x100, w / 0x100 / 0x100 / 0x100);
  }

  lemma Aligned(w: nat)
    requires w % WINDOW == 0
    ensures w == 0x100 * (w / 0x100)
  {
    Exact(w / WINDOW * 0x80);
  }

  lemma Exact(n: nat)
    ensures 0x100 * n / 0x100 == n
  {
  }

  lemma Bytes(w: nat)
    ensures LowOf(w) == w / 0x100 % 0x100
    ensures MidOf(w) == w / 0x100 / 0x100 % 0x100
    ensures HighOf(w) == w / 0x100 / 0x100 / 0x100 % 0x100
  {
    DivTwice(w);
    DivTwice(w / 0x100);
  }

  lemma Horner(w: nat, a: nat, b: nat, c: nat)
    requires w < SPACE && w == 0x100 * a && b == a / 0x100 && c == b / 0x100
    ensures w == a % 0x100 * 0x100 + b % 0x100 * 0x1_0000 + c % 0x100 * 0x100_0000
  {
    assert a == 0x100 * b + a % 0x100 && b == 0x100 * c + b % 0x100;
    assert c < 0x100;
  }

  lemma DivTwice(x: nat)
    ensures x / 0x100 / 0x100 == x / 0x1_0000
    ensures x / 0x1_0000 / 0x100 == x / 0x100_0000
  {
  }

  lemma WindowAligned(addr: nat)
    requires addr < SPACE
    ensures WindowOf(addr) % WINDOW == 0 && WindowOf(addr) < SPACE
  {
    assert WindowOf(addr) == WINDOW * (addr / WINDOW);
  }

  lemma RebuiltInjective(l: Byte, m: Byte, h: Byte, l': Byte, m': Byte, h': Byte)
    ensures Rebuilt(l, m, h) == Rebuilt(l', m', h') <==> l == l' && m == m' && h == h'
  {
  }

  class Bus {
    // The chip: its window registers and the memory behind them.
    var low: Byte
    var mid: Byte
    var high: Byte
    var mem: Memory
    // The driver's cached window, bp_window.
    var bpWindow: nat

    ghost predicate Coherent()
      reads `low, `mid, `high, `bpWindow
    {
      bpWindow == Rebuilt(low, mid, high) && bpWindow % WINDOW == 0
    }

    // The registers and the cache hold window addresses, if not the same one.
    ghost predicate Aligned()
      reads `low, `bpWindow
    {
      low % 0x80 == 0 && bpWindow % WINDOW == 0
    }

    // Where a transfer at this address begins once the window has been moved, or found in place.
    ghost function Landing(addr: nat): nat
      reads `low, `mid, `high, `bpWindow
    {
      if WindowOf(addr % SPACE) == bpWindow then Rebuilt(low, mid, high) + addr % WINDOW else addr % SPACE
    }

    constructor ()
      ensures Coherent() && Aligned() && mem == map[] && bpWindow == 0 == low == mid == high
    {
      low, mid, high, mem, bpWindow := 0, 0, 0, map[], 0;
    }

    /**
     Moves the window, if it has to move.  `good` is the number of register writes that succeed before
     the bus fails.  A failure part way leaves the cache stale unless the registers written by then
     happened to keep their values; a later change to another window than the cached one repairs it.
     */
    method SetWindow(addr: nat, good: nat) returns (err: bool)
      requires addr < SPACE
      modifies `low, `mid, `high, `bpWindow
      ensures old(Aligned()) ==> Aligned()
      ensures var w := WindowOf(addr);
        && err == (w != old(bpWindow) && good < 3)
        && bpWindow == (if err then old(bpWindow) else w)
        && (!err && (w != old(bpWindow) || old(Coherent())) ==> Coherent())
        && low == (if w != old(bpWindow) && good >= 1 then LowOf(w) else old(low))
        && mid == (if w != old(bpWindow) && good >= 2 then MidOf(w) else old(mid))
        && high == (if w != old(bpWindow) && good >= 3 then HighOf(w) else old(high))
        && (err && old(Coherent()) ==>
              (Coherent() <==> (good >= 1 ==> LowOf(w) == old(low)) && (good >= 2 ==> MidOf(w) == old(mid))))
    {
      var w := WindowOf(addr);
      if w == bpWindow {
        return false;
      }
      WindowAligned(addr);
      RegistersHoldWindow(w);
      LowAligned(w);
      hide WindowOf, LowOf, MidOf, HighOf, Rebuilt;
      if good < 1 {
        return true;
      }
      low := LowOf(w);
      if good < 2 {
        RebuiltInjective(low, mid, high, old(low), mid, high);
        return true;
      }
      mid := MidOf(w);
      if good < 3 {
        RebuiltInjective(low, mid, high, old(low), old(mid), high);
        return true;
      }
      high := HighOf(w);
      bpWindow := w;
      return false;
    }

    // Moves the window to where the transfer at `at`, taken as a 32-bit address, begins.
    method MoveWindow(at: nat, good: nat) returns (err: bool)
      requires Aligned()
      modifies `low, `mid, `high, `bpWindow
      ensures Aligned()
      ensures err ==> good < 3
      ensures !err ==>
        && Rebuilt(low, mid, high) + at % WINDOW == old(Landing(at)) && Rebuilt(low, mid, high) + WINDOW <= SPACE
        && bpWindow == WindowOf(at % SPACE)
        && (old(Coherent()) || old(bpWindow) != WindowOf(at % SPACE) ==> Coherent())
    {
      InWindow(at);
      err := SetWindow(at % SPACE, good);
      TopWindow(low, mid, high);
    }

    // The chip's side of an incrementing F1 write: it stays within the window of the registers.
    method F1Write(off: nat, data: seq<Byte>)
      requires off + |data| <= WINDOW && Rebuilt(low, mid, high) + WINDOW <= SPACE
      modifies `mem
      ensures mem == FlatWrite(old(mem), Rebuilt(low, mid, high) + off, data)
    {
      var base := Rebuilt(low, mid, high) + off;
      hide Rebuilt, Addr;
      for i := 0 to |data|
        invariant mem == FlatWrite(old(mem), base, data[..i])
      {
        mem := mem[base + i := data[i]];
        assert data[..i + 1][..i] == data[..i] && data[..i + 1][i] == data[i];
        AddrInside(base, i);
      }
      assert data[..|data|] == data;
    }

    // One round of the loop: move the window, then transfer what lies in it.
    method WriteChunk(at: nat, data: seq<Byte>, good: nat, fails: bool, partial: nat) returns (err: bool, ghost n: nat)
      requires Aligned() && |data| <= WINDOW - OffsetIn(at)
      modifies this
      ensures Aligned()
      ensures n <= |data| && mem == FlatWrite(old(mem), old(Landing(at)), data[..n])
      ensures if err then good < 3 || fails else n == |data| && !fails
      ensures !err ==>
        && bpWindow == WindowOf(at % SPACE)
        && (old(Coherent()) || old(bpWindow) != WindowOf(at % SPACE) ==> Coherent())
    {
      hide FlatWrite, WindowOf, Rebuilt, Bus.Aligned, Bus.Coherent;
      FlatWriteNothing(mem, Landing(at), data);
      err := MoveWindow(at, good);
      if err {
        return err, 0;
      }
      var stored := if fails && partial < |data| then partial else |data|;
      F1Write(at % WINDOW, data[..stored]);
      return fails, stored;
    }

    /**
     Writes a block of any length at any address.  For the k-th chunk, good(k) register writes succeed if
     the window has to move, fails(k) says whether the transfer itself fails, and partial(k) how many of
     its bytes reach the chip then.  What has been written at the end is a prefix of the block, as a flat
     write would have put it there, except that the first chunk goes where the window registers point if
     the cached window is that of the block's beginning (Landing).  Only a failure at the chunk where the
     write stops is an error; without one the whole block is written.
     */
    method WriteBlock(addr: nat, buf: seq<Byte>, good: nat -> nat, fails: nat -> bool, partial: nat -> nat)
      returns (err: bool, ghost chunks: nat, ghost written: nat)
      requires addr < SPACE && Aligned()
      modifies this
      ensures Aligned()
      ensures written <= |buf| && mem == Landed(old(mem), old(Landing(addr)), addr, ChunkStart(addr, 1), buf[..written])
      ensures forall k :: 0 <= k < chunks ==> !fails(k)
      ensures !err ==> written == |buf| <= ChunkStart(addr, chunks)
      ensures !err && (old(Coherent()) || chunks > 1) ==> Coherent()
      ensures WindowOf(addr) != old(bpWindow) || old(Coherent()) ==> mem == FlatWrite(old(mem), addr, buf[..written])
      ensures err ==> ChunkStart(addr, chunks) < |buf| && (good(chunks) < 3 || fails(chunks))
      ensures err ==> ChunkStart(addr, chunks) <= written <= ChunkStart(addr, chunks + 1)
    {
      hide FlatWrite, WindowOf, OffsetIn, Rebuilt, ChunkStart, Landed, Bus.Aligned, Bus.Coherent, Bus.Landing;
      ghost var base, first := Landing(addr), ChunkStart(addr, 1);
      LandedNothing(mem, base, addr, first, buf);
      LandsRight(this, addr);
      ChunkStep(addr, 0);
      var done := 0;
      var k: nat := 0;
      while done < |buf|
        invariant done == if ChunkStart(addr, k) < |buf| then ChunkStart(addr, k) else |buf|
        invariant Aligned() && (old(Coherent()) ==> Coherent())
        invariant k == 0 ==> Landing(addr) == base
        invariant k > 0 ==> done == |buf| || first <= done
        invariant k > 0 && done < |buf| ==> bpWindow != WindowOf((addr + done) % SPACE)
        invariant k > 1 ==> Coherent()
        invariant mem == Landed(old(mem), base, addr, first, buf[..done])
        invariant forall j :: 0 <= j < k ==> !fails(j)
        decreases |buf| - done
      {
        var at := addr + done;
        var off := OffsetIn(at);
        ChunkStep(addr, k);
        var chunk := if |buf| - done < WINDOW - off then |buf| - done else WINDOW - off;
        LandsThere(this, at);
        ghost var n;
        err, n := WriteChunk(at, buf[done..done + chunk], good(k), fails(k), partial(k));
        ChunkLanded(old(mem), base, addr, first, buf, k, done, chunk, n);
        if err {
          LandedStraight(old(mem), addr, first, buf[..done + n]);
          return err, k, done + n;
        }
        if chunk == WINDOW - off {
          NextWindow(at);
        }
        done, k := done + chunk, k + 1;
      }
      LandedStraight(old(mem), addr, first, buf[..done]);
      return false, k, done;
    }
  }

  // A block with a stale cached window still lands where it should exactly if its first window is another one.
  lemma LandsRight(bus: Bus, addr: nat)
    requires addr < SPACE && bus.Aligned()
    ensures bus.Landing(addr) == addr <==> WindowOf(addr) != bus.bpWindow || bus.Coherent()
  {
    InWindow(addr);
  }

  lemma LandsThere(bus: Bus, a: nat)
    ensures bus.bpWindow != WindowOf(a % SPACE) ==> bus.Landing(a) == a % SPACE
  {
  }

  lemma LowAligned(w: nat)
    requires w % WINDOW == 0
    ensures LowOf(w) % 0x80 == 0
  {
    var k := w / WINDOW;
    Exact(k * 0x80);
    assert w / 0x100 == 0x80 * k;
  }

  lemma TopWindow(low: Byte, mid: Byte, high: Byte)
    requires low % 0x80 == 0
    ensures Rebuilt(low, mid, high) + WINDOW <= SPACE
  {
  }

  // The window after the one that an address lies in is another one.
  lemma NextWindow(a: nat)
    ensures WindowOf((a + WINDOW - OffsetIn(a)) % SPACE) != WindowOf(a % SPACE)
  {
    InWindow(a);
    var x, n := a % SPACE, a / SPACE;
    var w := WindowOf(x);
    WindowAligned(x);
    var b := a + WINDOW - a % WINDOW;
    assert b == SPACE * n + (w + WINDOW);
    if w + WINDOW < SPACE {
      Remainder(n, w + WINDOW);
      assert WindowOf(w + WINDOW) == w + WINDOW;
    } else {
      Remainder(n + 1, 0);
    }
  }

  lemma Remainder(n: nat, r: nat)
    requires r < SPACE
    ensures (SPACE * n + r) % SPACE == r
  {
  }

  // The memory after a block has been written whose first chunk, of `first` bytes, landed at `base`.
  ghost function Landed(mem: Memory, base: nat, addr: nat, first: nat, buf: seq<Byte>): Memory {
    if |buf| <= first then FlatWrite(mem, base, buf)
    else FlatWrite(FlatWrite(mem, base, buf[..first]), addr + first, buf[first..])
  }

  lemma LandedNothing(mem: Memory, base: nat, addr: nat, first: nat, buf: seq<Byte>)
    ensures Landed(mem, base, addr, first, buf[..0]) == mem
    ensures buf[..|buf|] == buf
  {
  }

  // A block whose first chunk lands where it should is a flat write.
  lemma LandedStraight(mem: Memory, addr: nat, first: nat, buf: seq<Byte>)
    ensures Landed(mem, addr, addr, first, buf) == FlatWrite(mem, addr, buf)
  {
    hide FlatWrite;
    if first < |buf| {
      assert buf == buf[..first] + buf[first..];
      FlatWriteAppend(mem, addr, buf[..first], buf[first..]);
    }
  }

  lemma LandedFirst(mem: Memory, base: nat, addr: nat, first: nat, buf: seq<Byte>, n: nat)
    requires n <= |buf| && n <= first
    ensures FlatWrite(mem, base, buf[0..n]) == Landed(mem, base, addr, first, buf[..n])
  {
    assert buf[0..n] == buf[..n];
  }

  lemma LandedRest(mem: Memory, base: nat, addr: nat, first: nat, buf: seq<Byte>, n: nat)
    requires first <= n <= |buf|
    ensures Landed(mem, base, addr, first, buf[..n])
         == FlatWrite(FlatWrite(mem, base, buf[..first]), addr + first, buf[first..][..n - first])
  {
    assert buf[..n][..first] == buf[..first] && buf[..n][first..] == buf[first..][..n - first];
    if n == first {
      assert buf[..n] == buf[..first];
    }
  }

  // A chunk behind the first continues what has landed.
  lemma MoreLanded(mem: Memory, base: nat, addr: nat, first: nat, buf: seq<Byte>, done: nat, n: nat)
    requires first <= done && done + n <= |buf|
    ensures FlatWrite(Landed(mem, base, addr, first, buf[..done]), (addr + done) % SPACE, buf[done..done + n])
         == Landed(mem, base, addr, first, buf[..done + n])
  {
    hide FlatWrite, Landed;
    LandedRest(mem, base, addr, first, buf, done);
    LandedRest(mem, base, addr, first, buf, done + n);
    OneChunk(FlatWrite(mem, base, buf[..first]), addr + first, buf[first..], done - first, n);
    assert addr + first + (done - first) == addr + done;
    assert buf[first..][done - first..done - first + n] == buf[done..done + n];
  }

  lemma ChunkLanded(mem: Memory, base: nat, addr: nat, first: nat, buf: seq<Byte>, k: nat,
                    done: nat, chunk: nat, n: nat)
    requires n <= chunk && done + chunk <= |buf|
    requires if k == 0 then done == 0 && chunk <= first else first <= done
    ensures FlatWrite(Landed(mem, base, addr, first, buf[..done]), if k == 0 then base else (addr + done) % SPACE,
                      buf[done..done + chunk][..n])
         == Landed(mem, base, addr, first, buf[..done + n])
  {
    hide FlatWrite, Landed;
    assert buf[done..done + chunk][..n] == buf[done..done + n];
    if k == 0 {
      LandedNothing(mem, base, addr, first, buf);
      LandedFirst(mem, base, addr, first, buf, n);
    } else {
      MoreLanded(mem, base, addr, first, buf, done, n);
    }
  }

  // Where chunk k of a block begins: every chunk but the last ends with its window.
  function ChunkStart(addr: nat, k: nat): nat {
    if k == 0 then 0 else k * WINDOW - addr % WINDOW
  }

  lemma ChunkStep(addr: nat, k: nat)
    ensures ChunkStart(addr, 0) == 0
    ensures ChunkStart(addr, k + 1) == ChunkStart(addr, k) + WINDOW - OffsetIn(addr + ChunkStart(addr, k))
    ensures ChunkStart(addr, k) < ChunkStart(addr, k + 1)
  {
    if k > 0 {
      assert addr + ChunkStart(addr, k) == WINDOW * (addr / WINDOW + k);
    }
  }

  lemma FirstWindow()
    ensures WindowOf(WINDOW) == WINDOW && LowOf(WINDOW) == 0x80 && WindowOf(0) == 0
    ensures Rebuilt(0x80, 0, 0) == WINDOW
    ensures FlatWrite(map[], WINDOW, [1]) == map[WINDOW := 1]
  {
    assert [1][..0] == [] && Addr(WINDOW, 0) == WINDOW;
    assert FlatWrite(map[], WINDOW, []) == map[];
  }

  // Such a change: the bus fails after the low register, and a byte then written to address 0 without
  // any error lands at 0x8000.
  method StaleWindow() returns (bus: Bus)
    ensures fresh(bus) && !bus.Coherent()
    ensures bus.bpWindow == 0 && bus.mem == map[WINDOW := 1]
  {
    hide WindowOf, LowOf, MidOf, HighOf, Rebuilt, FlatWrite, Bus.Coherent;
    bus := new Bus();
    FirstWindow();
    var failed := bus.SetWindow(WINDOW, 1);
    var err := bus.SetWindow(0, 3);
    assert failed && !err && !bus.Coherent();
    bus.F1Write(0, [1]);
  }

  // Window and offset of an address make it up again, modulo 2^32.
  lemma InWindow(a: nat)
    ensures WindowOf(a % SPACE) + a % WINDOW == a % SPACE
    ensures WindowOf(a % SPACE) + WINDOW <= SPACE
  {
    var x := a % SPACE;
    SameOffset(a, x, a / SPACE);
    var k := x / WINDOW;
    assert x == WINDOW * k + x % WINDOW && k < 0x2_0000;
    assert WindowOf(x) == WINDOW * k;
  }

  lemma SameOffset(a: nat, x: nat, n: nat)
    requires a == SPACE * n + x
    ensures a % WINDOW == x % WINDOW
  {
    var k := x / WINDOW;
    assert x == WINDOW * k + x % WINDOW;
    assert a == WINDOW * (n * 0x2_0000 + k) + x % WINDOW;
  }
}
