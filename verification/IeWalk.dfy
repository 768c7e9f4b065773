/**
 The walk over the information elements of a beacon or probe response: identifier, length, body, as
 section 9.4.2.1 of IEEE Std 802.11 lays them out.
 */
module IeWalk {
  import opened Options

  type Byte = b: nat | b < 256

  datatype Field = Ssid | Rates | Xrates | Country | Rsn | Htcap | Htinfo | Wpa | Wme

  // There is room for an element at p.
  predicate Fits(ie: seq<Byte>, p: nat) {
    p + 2 <= |ie| && p + 2 + ie[p + 1] as int <= |ie|
  }

  function NextOf(ie: seq<Byte>, p: nat): nat
    requires Fits(ie, p)
  {
    p + 2 + ie[p + 1] as int
  }

  // Back-to-back elements starting at the given offsets, from p to e.
  ghost predicate Tiles(ie: seq<Byte>, starts: seq<nat>, p: nat, e: nat)
    decreases |starts|
  {
    if starts == [] then p == e && e <= |ie|
    else starts[0] == p && Fits(ie, p) && Tiles(ie, starts[1..], NextOf(ie, p), e)
  }

  predicate IsVendor(ie: seq<Byte>, p: nat, kind: Byte)
    requires Fits(ie, p)
  {
    && ie[p] == 221 && ie[p + 1] >= 4
    && ie[p + 2] == 0x00 && ie[p + 3] == 0x50 && ie[p + 4] == 0xf2 && ie[p + 5] == kind
  }

  // The element at p is one that the field records.
  predicate Matches(f: Field, ie: seq<Byte>, p: nat)
    requires Fits(ie, p)
  {
    match f
    case Ssid => ie[p] == 0 && ie[p + 1] > 0
    case Rates => ie[p] == 1
    case Country => ie[p] == 7
    case Htcap => ie[p] == 45
    case Rsn => ie[p] == 48
    case Xrates => ie[p] == 50
    case Htinfo => ie[p] == 61
    case Wpa => IsVendor(ie, p, 1)
    case Wme => IsVendor(ie, p, 2)
  }

  // The scan parameters: offsets of elements in the chain, or None for what the caller had set up.
  class ScanParams {
    var ptr: map<Field, Option<nat>>
    var iesLen: nat

    constructor ()
      ensures forall f :: f in ptr && ptr[f] == None
    {
      ptr := map[Ssid := None, Rates := None, Xrates := None, Country := None, Rsn := None, Htcap := None,
                 Htinfo := None, Wpa := None, Wme := None];
      iesLen := 0;
      new;
      forall f: Field ensures f in ptr && ptr[f] == None {
        match f
        case Ssid | Rates | Xrates | Country | Rsn | Htcap | Htinfo | Wpa | Wme =>
      }
    }

    ghost predicate Points(ie: seq<Byte>, starts: seq<nat>)
      reads this
      requires forall k :: 0 <= k < |starts| ==> Fits(ie, starts[k])
    {
      forall f :: f in ptr && LastMatch(ptr[f], f, ie, starts)
    }

    // Points the field that the element at p is for, if any, at it.
    method NoteElement(ie: seq<Byte>, p: nat)
      requires Fits(ie, p) && forall f :: f in ptr
      modifies `ptr
      ensures forall f :: f in ptr && ptr[f] == if Matches(f, ie, p) then Some(p) else old(ptr)[f]
    {
      var id, len := ie[p], ie[p + 1] as int;
      match id {
        case 0 =>
          if len > 0 { ptr := ptr[Ssid := Some(p)]; }
        case 1 => ptr := ptr[Rates := Some(p)];
        case 50 => ptr := ptr[Xrates := Some(p)];
        case 7 => ptr := ptr[Country := Some(p)];
        case 48 => ptr := ptr[Rsn := Some(p)];
        case 45 => ptr := ptr[Htcap := Some(p)];
        case 61 => ptr := ptr[Htinfo := Some(p)];
        case 221 =>
          if len >= 4 && ie[p + 2] == 0x00 && ie[p + 3] == 0x50 && ie[p + 4] == 0xf2 && ie[p + 5] == 0x01 {
            ptr := ptr[Wpa := Some(p)];
          }
          if len >= 4 && ie[p + 2] == 0x00 && ie[p + 3] == 0x50 && ie[p + 4] == 0xf2 && ie[p + 5] == 0x02 {
            ptr := ptr[Wme := Some(p)];
          }
        case _ =>
      }
    }

    /**
     Walks the chain.  Returns the elements found: they tile a prefix of the chain that no other tiling
     exceeds, and each pointer ends at the last of them that its field matches, or stays None.
     */
    method ParseIes(ie: seq<Byte>) returns (ghost starts: seq<nat>)
      requires forall f :: f in ptr && ptr[f] == None
      modifies this
      ensures Tiles(ie, starts, 0, iesLen) && !Fits(ie, iesLen) && iesLen <= |ie|
      ensures forall k :: 0 <= k < |starts| ==> Fits(ie, starts[k])
      ensures Points(ie, starts)
      ensures forall others: seq<nat>, e: nat :: Tiles(ie, others, 0, e) ==> e <= iesLen && others <= starts
    {
      starts := [];
      var p := 0;
      while p + 2 <= |ie|
        invariant p <= |ie| && Tiles(ie, starts, 0, p)
        invariant forall k :: 0 <= k < |starts| ==> Fits(ie, starts[k])
        invariant Points(ie, starts)
        decreases |ie| - p
      {
        var len := ie[p + 1] as int;
        if p + 2 + len > |ie| {
          break;
        }
        ghost var before := ptr;
        NoteElement(ie, p);
        forall f ensures f in ptr && LastMatch(ptr[f], f, ie, starts + [p]) {
          LastMatchAppend(before[f], f, ie, starts, p);
        }
        TilesAppend(ie, starts, 0, p);
        starts := starts + [p];
        p := p + 2 + len;
      }
      iesLen := p;
      forall others: seq<nat>, e: nat | Tiles(ie, others, 0, e) ensures e <= iesLen && others <= starts {
        LongestPrefix(ie, starts, p, others, e, 0);
      }
    }
  }

  // v is the last of the starts that f matches; None if f matches none of them.
  ghost predicate LastMatch(v: Option<nat>, f: Field, ie: seq<Byte>, starts: seq<nat>)
    requires forall k :: 0 <= k < |starts| ==> Fits(ie, starts[k])
  {
    match v
    case None => forall k :: 0 <= k < |starts| ==> !Matches(f, ie, starts[k])
    case Some(p) =>
      exists k :: 0 <= k < |starts| && starts[k] == p && Matches(f, ie, p)
        && forall j :: k < j < |starts| ==> !Matches(f, ie, starts[j])
  }

  lemma LastMatchAppend(v: Option<nat>, f: Field, ie: seq<Byte>, starts: seq<nat>, p: nat)
    requires forall k :: 0 <= k < |starts| ==> Fits(ie, starts[k])
    requires Fits(ie, p) && LastMatch(v, f, ie, starts)
    ensures forall k :: 0 <= k < |starts + [p]| ==> Fits(ie, (starts + [p])[k])
    ensures LastMatch(if Matches(f, ie, p) then Some(p) else v, f, ie, starts + [p])
  {
    var all := starts + [p];
    assert all[|starts|] == p;
    assert forall k :: 0 <= k < |starts| ==> all[k] == starts[k];
    if !Matches(f, ie, p) && v.Some? {
      var k :| 0 <= k < |starts| && starts[k] == v.value && Matches(f, ie, v.value)
        && forall j :: k < j < |starts| ==> !Matches(f, ie, starts[j]);
      assert all[k] == v.value;
    }
  }

  lemma {:induction false} TilesAppend(ie: seq<Byte>, starts: seq<nat>, p: nat, e: nat)
    requires Tiles(ie, starts, p, e) && Fits(ie, e)
    ensures Tiles(ie, starts + [e], p, NextOf(ie, e))
    decreases |starts|
  {
    if starts == [] {
      assert [e][1..] == [];
    } else {
      TilesAppend(ie, starts[1..], NextOf(ie, p), e);
      assert (starts + [e])[1..] == starts[1..] + [e];
    }
  }

  // A chain has one way of being cut into elements, so the walk's prefix is the longest there is.
  lemma {:induction false} LongestPrefix(ie: seq<Byte>, starts: seq<nat>, e: nat, others: seq<nat>, e': nat, p: nat)
    requires Tiles(ie, starts, p, e) && !Fits(ie, e)
    requires Tiles(ie, others, p, e')
    ensures e' <= e && others <= starts
    decreases |starts|
  {
    if others == [] {
      EndsAfter(ie, starts, p, e);
    } else if starts != [] {
      LongestPrefix(ie, starts[1..], e, others[1..], e', NextOf(ie, p));
      assert others == [p] + others[1..] && starts == [p] + starts[1..];
    }
  }

  lemma {:induction false} EndsAfter(ie: seq<Byte>, starts: seq<nat>, p: nat, e: nat)
    requires Tiles(ie, starts, p, e)
    ensures p <= e
    decreases |starts|
  {
    if starts != [] {
      EndsAfter(ie, starts[1..], NextOf(ie, p), e);
    }
  }
}
