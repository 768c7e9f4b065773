/** The optional value shared by the other modules. */
module Options {
  datatype Option<+T> = None | Some(value: T)
}

/** Sweeping an array of optional pointers, as both ring drivers do when they stop. */
module Slots {
  import opened Options

  function Value<T>(m: Option<T>): seq<T> {
    if m.Some? then [m.value] else []
  }

  // The values present in a slot array, in slot order.
  function Present<T>(ms: seq<Option<T>>): seq<T> {
    if ms == [] then []
    else Present(ms[..|ms| - 1]) + Value(ms[|ms| - 1])
  }

  lemma PresentSplit<T>(ms: seq<Option<T>>, n: nat)
    requires |ms| == n + 1
    ensures Present(ms) == Present(ms[..n]) + Value(ms[n])
  {
  }

  lemma {:induction false} PresentClear<T>(ms: seq<Option<T>>, i: nat)
    requires i < |ms| && ms[i].Some?
    ensures multiset(Present(ms)) == multiset(Present(ms[i := None])) + multiset{ms[i].value}
  {
    hide Present;
    var n := |ms| - 1;
    PresentSplit(ms, n);
    PresentSplit(ms[i := None], n);
    if i < n {
      PresentClear(ms[..n], i);
      assert ms[i := None][..n] == ms[..n][i := None];
      hide Value;
      Regrouped(Present(ms[..n]), Present(ms[..n][i := None]), Value(ms[n]), ms[i].value);
    } else {
      assert ms[i := None][..n] == ms[..n];
      Appended(Present(ms[..n]), ms[i].value);
    }
  }

  lemma Appended<T>(a: seq<T>, v: T)
    ensures multiset(a + [v]) == multiset(a + []) + multiset{v}
  {
  }

  lemma Regrouped<T>(a: seq<T>, b: seq<T>, rest: seq<T>, v: T)
    requires multiset(a) == multiset(b) + multiset{v}
    ensures multiset(a + rest) == multiset(b + rest) + multiset{v}
  {
    assert multiset(b) + multiset{v} + multiset(rest) == multiset(b) + multiset(rest) + multiset{v};
  }

  lemma {:induction false} PresentNone<T>(ms: seq<Option<T>>)
    requires forall i :: 0 <= i < |ms| ==> ms[i] == None
    ensures Present(ms) == []
  {
    if ms != [] {
      PresentNone(ms[..|ms| - 1]);
    }
  }

  // Two balances in a row: what was there and came is what went and is there.
  lemma Chained<T>(a: multiset<T>, t: multiset<T>, f: multiset<T>, h: multiset<T>,
                  t': multiset<T>, f': multiset<T>, h': multiset<T>)
    requires a + t == f + h && h + t' == f' + h'
    ensures a + (t + t') == f + f' + h'
  {
    assert a + (t + t') == a + t + t' == f + h + t' == f + (h + t');
  }
}
