/**
 Finding the SDIO core in the chip's BCMA enumeration ROM: the driver's scan against an encoder of
 the tables that it reads.
 */
module Erom {
  import opened Options

  type Word = w: nat | w < 0x1_0000_0000

  // What a backplane read returns where there is nothing to read.
  const ALL_ONES: Word := 0xffff_ffff

  const SDIOD_CORE: nat := 0x829
  const MAX_ENTRIES: nat := 512

  predicate IsEof(e: Word) { e % 16 == 15 }

  predicate IsValid(e: Word) { e % 2 == 1 }

  datatype Kind = Component | MasterPort | AddressRegion | OtherKind

  function KindOf(e: Word): Kind {
    match e / 2 % 4
    case 0 => Component
    case 1 => MasterPort
    case 2 => AddressRegion
    case _ => OtherKind
  }

  predicate IsPort(e: Word) { IsValid(e) && KindOf(e) == MasterPort }

  // A master port word: the valid bit set and the type bits 01 above it.
  lemma PortExactly(e: Word)
    ensures IsPort(e) <==> e % 8 == 3
  {
    var q, r := e / 8, e % 8;
    assert e == 8 * q + r;
    assert e / 2 == 4 * q + r / 2;
    assert e % 2 == r % 2;
  }

  function CoreId(e: Word): nat { e / 256 % 4096 }

  function PortCount(b: Word): nat { b / 16 % 32 }

  function RegionType(e: Word): nat { e / 64 % 4 }

  function RegionPort(e: Word): nat { e / 256 % 16 }

  function SizeCode(e: Word): nat { e / 16 % 4 }

  function RegionBase(e: Word): Word { e - e % 4096 }

  // How the scan ends.  Hangs: it waits for a master port word that no read will ever return.
  datatype Outcome = Base(addr: Word) | NotFound | Hangs

  // The words after the next n master port words; None if there are fewer.
  function SkipPorts(ws: seq<Word>, n: nat): (r: Option<seq<Word>>)
    ensures r.Some? ==> |r.value| + n <= |ws| && r.value == ws[|ws| - |r.value|..]
    decreases |ws|
  {
    if n == 0 then Some(ws)
    else if ws == [] then None
    else if IsPort(ws[0]) then SkipPorts(ws[1..], n - 1)
    else SkipPorts(ws[1..], n)
  }

  function CountPorts(ws: seq<Word>): nat {
    if ws == [] then 0 else (if IsPort(ws[0]) then 1 else 0) + CountPorts(ws[1..])
  }

  // The wait for master ports never ends exactly when fewer of them follow than were announced.
  lemma {:induction false} HangsWithoutPorts(ws: seq<Word>, n: nat)
    ensures SkipPorts(ws, n) == None <==> CountPorts(ws) < n
    decreases |ws|
  {
    if n > 0 && ws != [] {
      HangsWithoutPorts(ws[1..], if IsPort(ws[0]) then n - 1 else n);
    }
  }

  function Drop(ws: seq<Word>, n: nat): seq<Word> {
    if n < |ws| then ws[n..] else []
  }

  // The scan over the words that follow; inSdiod: they belong to an SDIO core; left: entries allowed.
  function Scan(ws: seq<Word>, inSdiod: bool, left: nat): Outcome
    decreases left
  {
    if left == 0 || ws == [] || IsEof(ws[0]) then NotFound
    else
      var e, rest := ws[0], ws[1..];
      if !IsValid(e) then Scan(rest, inSdiod, left - 1)
      else match KindOf(e)
        case Component =>
          var b := if rest == [] then ALL_ONES else rest[0];
          (match SkipPorts(Drop(rest, 1), PortCount(b))
           case None => Hangs
           case Some(after) => Scan(after, CoreId(e) == SDIOD_CORE, left - 1))
        case AddressRegion =>
          if inSdiod && RegionType(e) == 0 && RegionPort(e) == 0 then Base(RegionBase(e))
          else Scan(Drop(rest, if SizeCode(e) == 3 then 1 else 0), inSdiod, left - 1)
        case _ => Scan(rest, inSdiod, left - 1)
  }

  // A component descriptor at the front that announces more master ports than there are words for.
  predicate LacksPorts(ws: seq<Word>) {
    && ws != [] && !IsEof(ws[0]) && IsValid(ws[0]) && KindOf(ws[0]) == Component
    && CountPorts(Drop(ws, 2)) < PortCount(if |ws| == 1 then ALL_ONES else ws[1])
  }

  // Where the scan goes after the entry at the front, if it goes on.
  function Follow(ws: seq<Word>, inSdiod: bool): Option<(seq<Word>, bool)> {
    if ws == [] || IsEof(ws[0]) then None
    else if !IsValid(ws[0]) then Some((ws[1..], inSdiod))
    else match KindOf(ws[0])
      case Component =>
        (match SkipPorts(Drop(ws, 2), PortCount(if |ws| == 1 then ALL_ONES else ws[1]))
         case None => None
         case Some(after) => Some((after, CoreId(ws[0]) == SDIOD_CORE)))
      case AddressRegion =>
        if inSdiod && RegionType(ws[0]) == 0 && RegionPort(ws[0]) == 0 then None
        else Some((Drop(ws, if SizeCode(ws[0]) == 3 then 2 else 1), inSdiod))
      case _ => Some((ws[1..], inSdiod))
  }

  // What lies ahead at each entry that the scan comes to.
  function Reached(ws: seq<Word>, inSdiod: bool, left: nat): seq<seq<Word>>
    decreases left
  {
    if left == 0 then []
    else
      [ws] + match Follow(ws, inSdiod)
             case None => []
             case Some(next) => Reached(next.0, next.1, left - 1)
  }

  lemma ScanFollows(ws: seq<Word>, inSdiod: bool, left: nat)
    requires left > 0
    ensures LacksPorts(ws) ==> Scan(ws, inSdiod, left) == Hangs
    ensures !LacksPorts(ws) ==>
      match Follow(ws, inSdiod)
      case None => Scan(ws, inSdiod, left) != Hangs
      case Some(next) => Scan(ws, inSdiod, left) == Scan(next.0, next.1, left - 1)
    ensures LacksPorts(ws) ==> Follow(ws, inSdiod) == None
  {
    hide IsEof, IsValid, KindOf, CoreId, PortCount, RegionType, RegionPort, SizeCode, RegionBase, SkipPorts, CountPorts;
    if ws != [] {
      DropMore(ws, 1, 1);
      DropMore(ws, 0, 1);
      DropNone(ws);
      HangsWithoutPorts(Drop(ws, 2), PortCount(if |ws| == 1 then ALL_ONES else ws[1]));
    }
  }

  ghost predicate SomeLacks(rs: seq<seq<Word>>) {
    exists k :: 0 <= k < |rs| && LacksPorts(rs[k])
  }

  lemma SomeLacksCons(ws: seq<Word>, rs: seq<seq<Word>>)
    ensures SomeLacks([ws] + rs) <==> LacksPorts(ws) || SomeLacks(rs)
  {
    hide LacksPorts;
    var all := [ws] + rs;
    assert all[0] == ws && forall k :: 0 <= k < |rs| ==> all[k + 1] == rs[k];
  }

  // The scan never ends exactly when it comes to a component that announces more master ports than follow.
  lemma {:induction false} HangsExactly(ws: seq<Word>, inSdiod: bool, left: nat)
    ensures Scan(ws, inSdiod, left) == Hangs <==> SomeLacks(Reached(ws, inSdiod, left))
    decreases left
  {
    hide Follow, LacksPorts, SomeLacks, Scan;
    if left == 0 {
      ScanStops(ws, inSdiod);
      NoneLacks();
    } else {
      ScanFollows(ws, inSdiod, left);
      match Follow(ws, inSdiod)
      case None =>
        NoneLacks();
        SomeLacksCons(ws, []);
      case Some(next) =>
        HangsExactly(next.0, next.1, left - 1);
        SomeLacksCons(ws, Reached(next.0, next.1, left - 1));
    }
  }

  lemma NoneLacks()
    ensures !SomeLacks([])
  {
  }

  // Such a ROM: a component that announces one master port, and the end marker right behind it.
  lemma WaitPassesTheEnd()
    ensures Scan([1, 16, 15], false, MAX_ENTRIES) == Hangs
  {
    var rom: seq<Word> := [1, 16, 15];
    assert !IsEof(1) && IsValid(1) && KindOf(1) == Component && PortCount(16) == 1 && !IsPort(15);
    hide IsEof, IsValid, KindOf, PortCount, IsPort, Scan;
    assert Drop(rom, 2) == [15] && [15][1..] == [];
    assert CountPorts([15]) == 0;
    hide Drop, CountPorts;
    ScanFollows(rom, false, MAX_ENTRIES);
  }

  // The word at position i as the driver reads it.
  function WordAt(rom: seq<Word>, i: nat): Word {
    if i < |rom| then rom[i] else ALL_ONES
  }

  method FindSdioCore(rom: seq<Word>) returns (r: Outcome)
    ensures r == Scan(rom, false, MAX_ENTRIES)
  {
    hide IsEof, IsValid, KindOf, CoreId, PortCount, RegionType, RegionPort, SizeCode, RegionBase, SkipPorts, Drop, Scan;
    DropNone(rom);
    var i: nat := 0;
    var inSdiod := false;
    var maxEntries := MAX_ENTRIES;
    while maxEntries > 0
      invariant Scan(rom, false, MAX_ENTRIES) == Scan(Drop(rom, i), inSdiod, maxEntries)
      decreases maxEntries
    {
      ScanEntry(rom, i, inSdiod, maxEntries);
      maxEntries := maxEntries - 1;
      var e := WordAt(rom, i);
      i := i + 1;
      if IsEof(e) {
        return NotFound;
      }
      if !IsValid(e) {
        continue;
      }
      match KindOf(e)
      case Component =>
        var b := WordAt(rom, i);
        i := i + 1;
        inSdiod := CoreId(e) == SDIOD_CORE;
        var hangs;
        i, hangs := PassPorts(rom, i, PortCount(b));
        if hangs {
          return Hangs;
        }
      case AddressRegion =>
        if SizeCode(e) == 3 {
          i := i + 1;
        }
        if inSdiod && RegionType(e) == 0 && RegionPort(e) == 0 {
          return Base(RegionBase(e));
        }
      case _ =>
    }
    ScanStops(Drop(rom, i), inSdiod);
    return NotFound;
  }

  lemma ScanStops(ws: seq<Word>, inSdiod: bool)
    ensures Scan(ws, inSdiod, 0) == NotFound
  {
  }

  // One round of the scan, by position.
  lemma ScanEntry(rom: seq<Word>, i: nat, inSdiod: bool, left: nat)
    requires left > 0
    ensures var e := WordAt(rom, i);
      Scan(Drop(rom, i), inSdiod, left) ==
        if IsEof(e) then NotFound
        else if !IsValid(e) then Scan(Drop(rom, i + 1), inSdiod, left - 1)
        else match KindOf(e)
          case Component =>
            (match SkipPorts(Drop(rom, i + 2), PortCount(WordAt(rom, i + 1)))
             case None => Hangs
             case Some(after) => Scan(after, CoreId(e) == SDIOD_CORE, left - 1))
          case AddressRegion =>
            if inSdiod && RegionType(e) == 0 && RegionPort(e) == 0 then Base(RegionBase(e))
            else Scan(Drop(rom, if SizeCode(e) == 3 then i + 2 else i + 1), inSdiod, left - 1)
          case _ => Scan(Drop(rom, i + 1), inSdiod, left - 1)
  {
    DropMore(rom, i, 1);
    DropMore(rom, i + 1, 1);
    DropMore(rom, i + 1, 0);
    assert IsEof(ALL_ONES);
    hide IsEof, IsValid, KindOf, CoreId, PortCount, RegionType, RegionPort, SizeCode, RegionBase, SkipPorts;
  }

  // Reads words until n master ports have gone by.
  method PassPorts(rom: seq<Word>, start: nat, n: nat) returns (i: nat, hangs: bool)
    ensures SkipPorts(Drop(rom, start), n) == if hangs then None else Some(Drop(rom, i))
  {
    i, hangs := start, false;
    var k := 0;
    while k < n
      invariant k <= n && SkipPorts(Drop(rom, start), n) == SkipPorts(Drop(rom, i), n - k)
    {
      var e: Word;
      var seen := false;
      while !seen
        invariant k < n
        invariant SkipPorts(Drop(rom, start), n) == SkipPorts(Drop(rom, i), if seen then n - k - 1 else n - k)
        decreases !seen, |rom| - i
      {
        if i >= |rom| {
          return i, true;
        }
        DropMore(rom, i, 1);
        seen := IsPort(rom[i]);
        i := i + 1;
      }
      k := k + 1;
    }
  }

  lemma DropNone(ws: seq<Word>)
    ensures Drop(ws, 0) == ws
  {
  }

  lemma DropMore(ws: seq<Word>, n: nat, m: nat)
    ensures Drop(Drop(ws, n), m) == Drop(ws, n + m)
    ensures n < |ws| ==> Drop(ws, n) != [] && Drop(ws, n)[0] == ws[n] && Drop(ws, n)[1..] == Drop(ws, n + 1)
  {
  }

  // An entry of the table as the chip's makers wrote it.
  datatype Entry =
    | Core(id: nat, cls: nat, maker: nat, ports: seq<nat>, low: nat, high: nat)
    | Region(typ: nat, port: nat, sizeCode: nat, sizeWord: Word, page: nat)
  {
    predicate Wf() {
      match this
      case Core(id, cls, maker, ports, low, high) =>
        && id < 4096 && cls < 16 && maker < 4096 && |ports| < 32 && low < 16 && high < 0x80_0000
        && forall k :: 0 <= k < |ports| ==> ports[k] < 0x1000_0000
      case Region(typ, port, sizeCode, sizeWord, page) =>
        typ < 4 && port < 16 && sizeCode < 4 && page < 0x10_0000
    }
  }

  function PortWord(payload: nat): Word
    requires payload < 0x1000_0000
  {
    payload * 16 + 3
  }

  function PortWords(ports: seq<nat>): (ws: seq<Word>)
    requires forall k :: 0 <= k < |ports| ==> ports[k] < 0x1000_0000
    ensures |ws| == |ports|
  {
    if ports == [] then [] else [PortWord(ports[0])] + PortWords(ports[1..])
  }

  // Component: two words and the master ports.  Region: one word, and its size where the code says so.
  function Encode(e: Entry): (ws: seq<Word>)
    requires e.Wf()
    ensures ws != []
  {
    match e
    case Core(id, cls, maker, ports, low, high) =>
      [maker * 0x10_0000 + id * 256 + cls * 16 + 1, high * 512 + |ports| * 16 + low] + PortWords(ports)
    case Region(typ, port, sizeCode, sizeWord, page) =>
      [page * 4096 + port * 256 + typ * 64 + sizeCode * 16 + 5] + (if sizeCode == 3 then [sizeWord] else [])
  }

  function EncodeAll(es: seq<Entry>): seq<Word>
    requires forall k :: 0 <= k < |es| ==> es[k].Wf()
  {
    if es == [] then [] else Encode(es[0]) + EncodeAll(es[1..])
  }

  predicate IsTarget(e: Entry) {
    e.Region? && e.typ == 0 && e.port == 0
  }

  // The core that entry k belongs to is an SDIO core.
  predicate InSdiod(es: seq<Entry>, k: nat, before: bool)
    requires k <= |es|
  {
    if k == 0 then before
    else if es[k - 1].Core? then es[k - 1].id == SDIOD_CORE
    else InSdiod(es, k - 1, before)
  }

  // The base of the first device region of port 0 of an SDIO core.
  function Search(es: seq<Entry>, before: bool): Outcome
    requires forall k :: 0 <= k < |es| ==> es[k].Wf()
  {
    if es == [] then NotFound
    else if before && IsTarget(es[0]) then assert es[0].Wf(); Base(es[0].page * 4096)
    else Search(es[1..], if es[0].Core? then es[0].id == SDIOD_CORE else before)
  }

  // Search finds the first such region, and nothing exactly when there is none.
  lemma {:induction false} SearchIsFirst(es: seq<Entry>, before: bool)
    requires forall k :: 0 <= k < |es| ==> es[k].Wf()
    ensures Search(es, before) == NotFound
       <==> forall k :: 0 <= k < |es| ==> !(IsTarget(es[k]) && InSdiod(es, k, before))
    ensures Search(es, before).Base? ==>
      exists k :: 0 <= k < |es| && IsTarget(es[k]) && InSdiod(es, k, before)
        && Search(es, before).addr == es[k].page * 4096
        && forall j :: 0 <= j < k ==> !(IsTarget(es[j]) && InSdiod(es, j, before))
    ensures Search(es, before) != Hangs
    decreases |es|
  {
    if es != [] {
      var next := if es[0].Core? then es[0].id == SDIOD_CORE else before;
      var rest := es[1..];
      if !(before && IsTarget(es[0])) {
        SearchIsFirst(rest, next);
        forall k | 0 <= k <= |rest| ensures InSdiod(es, k + 1, before) == InSdiod(rest, k, next) {
          Shift(es, k, before);
        }
        assert forall k :: 1 <= k < |es| ==> es[k] == rest[k - 1];
        if Search(rest, next).Base? {
          var k :| 0 <= k < |rest| && IsTarget(rest[k]) && InSdiod(rest, k, next)
            && Search(rest, next).addr == rest[k].page * 4096
            && forall j :: 0 <= j < k ==> !(IsTarget(rest[j]) && InSdiod(rest, j, next));
          assert IsTarget(es[k + 1]) && InSdiod(es, k + 1, before);
          forall j | 0 <= j < k + 1 ensures !(IsTarget(es[j]) && InSdiod(es, j, before)) {
            if j > 0 {
              assert !(IsTarget(rest[j - 1]) && InSdiod(rest, j - 1, next));
              assert InSdiod(es, j - 1 + 1, before) == InSdiod(rest, j - 1, next);
            }
          }
        } else {
          forall k | 0 <= k < |es| ensures !(IsTarget(es[k]) && InSdiod(es, k, before)) {
            if k > 0 {
              assert !(IsTarget(rest[k - 1]) && InSdiod(rest, k - 1, next));
              assert InSdiod(es, k - 1 + 1, before) == InSdiod(rest, k - 1, next);
            }
          }
        }
      }
    }
  }

  lemma {:induction false} Shift(es: seq<Entry>, k: nat, before: bool)
    requires k < |es|
    ensures InSdiod(es, k + 1, before) == InSdiod(es[1..], k, if es[0].Core? then es[0].id == SDIOD_CORE else before)
  {
    if k > 0 {
      assert es[1..][k - 1] == es[k];
      Shift(es, k - 1, before);
    }
  }

  // Each field comes back out of the word it was put in.
  lemma CoreFields(e: Entry)
    requires e.Wf() && e.Core?
    ensures var a, b := Encode(e)[0], Encode(e)[1];
      !IsEof(a) && IsValid(a) && KindOf(a) == Component && CoreId(a) == e.id && PortCount(b) == |e.ports|
  {
    var a := e.maker * 0x10_0000 + e.id * 256 + e.cls * 16 + 1;
    assert a / 256 == e.maker * 4096 + e.id;
    assert a / 2 == 4 * (e.maker * 0x2_0000 + e.id * 32 + e.cls * 2);
    var b := e.high * 512 + |e.ports| * 16 + e.low;
    assert b / 16 == e.high * 32 + |e.ports|;
  }

  lemma RegionFields(e: Entry)
    requires e.Wf() && e.Region?
    ensures var a := Encode(e)[0];
      && !IsEof(a) && IsValid(a) && KindOf(a) == AddressRegion
      && RegionType(a) == e.typ && RegionPort(a) == e.port && SizeCode(a) == e.sizeCode
      && RegionBase(a) == e.page * 4096
  {
    RegionTag(e);
    RegionPlace(e);
    var a := e.page * 4096 + e.port * 256 + e.typ * 64 + e.sizeCode * 16 + 5;
    hide IsEof, IsValid, KindOf, RegionType, RegionPort, SizeCode, RegionBase;
    assert Encode(e)[0] == a;
  }

  lemma RegionTag(e: Entry)
    requires e.Wf() && e.Region?
    ensures var a: Word := e.page * 4096 + e.port * 256 + e.typ * 64 + e.sizeCode * 16 + 5;
      !IsEof(a) && IsValid(a) && KindOf(a) == AddressRegion && SizeCode(a) == e.sizeCode
  {
    var q := e.page * 256 + e.port * 16 + e.typ * 4 + e.sizeCode;
    Nibble(q, e.page * 64 + e.port * 4 + e.typ, e.sizeCode);
  }

  // A word whose low four bits are 5 is a region descriptor, and the size code is what follows them.
  lemma Nibble(q: nat, above: nat, code: nat)
    requires q == above * 4 + code && code < 4 && q < 0x1000_0000
    ensures var a: Word := q * 16 + 5;
      !IsEof(a) && IsValid(a) && KindOf(a) == AddressRegion && SizeCode(a) == code
  {
    var a := q * 16 + 5;
    assert a / 16 == q;
    assert a / 2 == 4 * (q * 2) + 2;
  }

  lemma RegionPlace(e: Entry)
    requires e.Wf() && e.Region?
    ensures var a: Word := e.page * 4096 + e.port * 256 + e.typ * 64 + e.sizeCode * 16 + 5;
      RegionType(a) == e.typ && RegionPort(a) == e.port && RegionBase(a) == e.page * 4096
  {
    ByteFields(e.page, e.port, e.typ, e.sizeCode * 16 + 5);
  }

  // A word put together from its page, its port, its type and six bits more.
  lemma ByteFields(page: nat, port: nat, typ: nat, rest: nat)
    requires page < 0x10_0000 && port < 16 && typ < 4 && rest < 64
    ensures var a: Word := page * 4096 + port * 256 + typ * 64 + rest;
      RegionType(a) == typ && RegionPort(a) == port && RegionBase(a) == page * 4096
  {
    var q := page * 16 + port;
    Div64(4 * q + typ, rest);
    Div256(q, typ * 64 + rest);
    Mod4096(page, port * 256 + typ * 64 + rest);
    Mod4(q, typ);
    Mod16(page, port);
  }

  lemma Div64(n: nat, r: nat)
    requires r < 64
    ensures (64 * n + r) / 64 == n
  {
  }

  lemma Div256(n: nat, r: nat)
    requires r < 256
    ensures (256 * n + r) / 256 == n
  {
  }

  lemma Mod4096(n: nat, r: nat)
    requires r < 4096
    ensures (4096 * n + r) % 4096 == r
  {
  }

  lemma Mod4(n: nat, r: nat)
    requires r < 4
    ensures (4 * n + r) % 4 == r
  {
  }

  lemma Mod16(n: nat, r: nat)
    requires r < 16
    ensures (16 * n + r) % 16 == r
  {
  }

  lemma PortIsPort(payload: nat)
    requires payload < 0x1000_0000
    ensures IsPort(PortWord(payload))
  {
    assert PortWord(payload) / 2 == 8 * payload + 1;
  }

  lemma {:induction false} PortsAreSkipped(ports: seq<nat>, tail: seq<Word>)
    requires forall k :: 0 <= k < |ports| ==> ports[k] < 0x1000_0000
    ensures SkipPorts(PortWords(ports) + tail, |ports|) == Some(tail)
    decreases |ports|
  {
    if ports == [] {
      assert PortWords(ports) + tail == tail;
    } else {
      PortIsPort(ports[0]);
      hide IsPort, PortWord;
      assert (PortWords(ports) + tail)[1..] == PortWords(ports[1..]) + tail;
      PortsAreSkipped(ports[1..], tail);
    }
  }

  /**
   The scan inverts the encoder: over any table, ended by an end marker and followed by anything, it
   finds what there is to find among the first `left` entries, and it ends.
   */
  lemma {:induction false} ScanInverts(es: seq<Entry>, tail: seq<Word>, before: bool, left: nat)
    requires forall k :: 0 <= k < |es| ==> es[k].Wf()
    requires tail != [] && IsEof(tail[0])
    ensures Scan(EncodeAll(es) + tail, before, left) == Search(es[..if left < |es| then left else |es|], before)
    decreases |es|
  {
    var ws := EncodeAll(es) + tail;
    var seen := es[..if left < |es| then left else |es|];
    if es == [] {
      assert ws == tail;
    } else if left > 0 {
      var e, more := es[0], EncodeAll(es[1..]) + tail;
      assert ws == Encode(e) + more;
      assert seen[0] == e && seen[1..] == es[1..][..if left - 1 < |es| - 1 then left - 1 else |es| - 1];
      hide Scan, Encode, EncodeAll, Drop, IsTarget, IsEof;
      if e.Core? {
        ScanCore(e, more, before, left);
        ScanInverts(es[1..], tail, e.id == SDIOD_CORE, left - 1);
      } else {
        ScanRegion(e, more, before, left);
        if !(before && IsTarget(e)) {
          ScanInverts(es[1..], tail, before, left - 1);
        }
      }
    }
  }

  lemma ScanCore(e: Entry, more: seq<Word>, before: bool, left: nat)
    requires e.Wf() && e.Core? && left > 0
    ensures Scan(Encode(e) + more, before, left) == Scan(more, e.id == SDIOD_CORE, left - 1)
  {
    CoreFields(e);
    var ws := Encode(e) + more;
    hide IsEof, IsValid, KindOf, CoreId, PortCount, SkipPorts;
    assert ws[0] == Encode(e)[0] && ws[1..][0] == Encode(e)[1];
    assert Drop(ws[1..], 1) == PortWords(e.ports) + more;
    PortsAreSkipped(e.ports, more);
  }

  lemma ScanRegion(e: Entry, more: seq<Word>, before: bool, left: nat)
    requires e.Wf() && e.Region? && left > 0
    ensures Scan(Encode(e) + more, before, left)
         == if before && IsTarget(e) then Base(e.page * 4096) else Scan(more, before, left - 1)
  {
    RegionFields(e);
    var ws := Encode(e) + more;
    assert ws[0] == Encode(e)[0];
    assert Drop(ws[1..], if e.sizeCode == 3 then 1 else 0) == more;
  }

  // For a table of at most 512 entries the driver finds exactly what the table says.
  lemma FindsTheSdioCore(es: seq<Entry>, tail: seq<Word>)
    requires forall k :: 0 <= k < |es| ==> es[k].Wf()
    requires tail != [] && IsEof(tail[0]) && |es| <= MAX_ENTRIES
    ensures Scan(EncodeAll(es) + tail, false, MAX_ENTRIES) == Search(es, false)
  {
    ScanInverts(es, tail, false, MAX_ENTRIES);
    assert es[..|es|] == es;
  }
}
