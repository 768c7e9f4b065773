/** Recovery from a failed F2 read: waiting for the chip to drain its receive FIFO. */
module RxFail {
  const TRIES: nat := 0xffff

  // How the wait stands after a number of polls: over after n readings, or not over yet.
  datatype Wait = Drained(n: nat) | TimedOut(n: nat) | StillPolling

  // The last 65535 of the first n readings are the same.
  ghost predicate Repeats(rbc: nat -> nat, n: nat) {
    TRIES <= n && forall i :: n - TRIES <= i < n ==> rbc(i) == rbc(n - 1)
  }

  // Neither a zero reading nor a full run of equal ones among the first n.
  ghost predicate Undecided(rbc: nat -> nat, n: nat) {
    (forall i :: 0 <= i < n ==> rbc(i) != 0) && (forall k :: 0 <= k <= n ==> !Repeats(rbc, k))
  }

  /**
   Polls the chip's byte count at most `limit` times; rbc(i) is the i-th reading.  Every change restarts
   the retry counter.  The wait ends with the first zero reading, or after 65535 readings in a row of the
   same other count, whichever comes first, and as long as neither has come it goes on.
   */
  method DrainFifo(rbc: nat -> nat, limit: nat) returns (w: Wait)
    requires forall i: nat :: rbc(i) < 0x1_0000
    ensures match w
      case Drained(n) => 0 < n <= limit && rbc(n - 1) == 0 && Undecided(rbc, n - 1)
      case TimedOut(n) => 0 < n <= limit && rbc(n - 1) != 0 && Repeats(rbc, n) && Undecided(rbc, n - 1)
      case StillPolling => Undecided(rbc, limit)
  {
    var lastrbc, retries := 0xffff, TRIES;
    var n := 0;
    while n < limit
      invariant 0 < retries <= TRIES && 0 < lastrbc <= 0xffff && n <= limit
      invariant TRIES - retries <= n && forall i :: n - (TRIES - retries) <= i < n ==> rbc(i) == lastrbc
      invariant TRIES - retries < n ==> rbc(n - (TRIES - retries) - 1) != lastrbc
      invariant n > 0 ==> rbc(n - 1) == lastrbc
      invariant Undecided(rbc, n)
    {
      var count := rbc(n);
      n := n + 1;
      if count == 0 {
        return Drained(n);
      }
      if count != lastrbc {
        lastrbc, retries := count, TRIES;
      }
      retries := retries - 1;
      if retries == 0 {
        return TimedOut(n);
      }
      var run := TRIES - retries;
      assert run < n ==> rbc(n - run - 1) != rbc(n - 1);
    }
    return StillPolling;
  }

  // A count that never rises has lost one for each 65535 undecided readings.
  lemma {:induction false} Descends(rbc: nat -> nat, j: nat)
    requires rbc(0) < 0x1_0000
    requires forall i: nat, k: nat :: i <= k ==> rbc(k) <= rbc(i)
    requires forall k :: 0 <= k <= j * TRIES ==> !Repeats(rbc, k)
    ensures rbc(j * TRIES) + j <= 0xffff
  {
    if j > 0 {
      var n := j * TRIES;
      Descends(rbc, j - 1);
      assert !Repeats(rbc, n);
      var i :| n - TRIES <= i < n && rbc(i) != rbc(n - 1);
      assert rbc(n) <= rbc(n - 1) < rbc(i) <= rbc(n - TRIES);
    }
  }

  // The wait ends if the count never rises while the FIFO drains.
  lemma DrainEnds(rbc: nat -> nat)
    requires rbc(0) < 0x1_0000
    requires forall i: nat, k: nat :: i <= k ==> rbc(k) <= rbc(i)
    ensures !Undecided(rbc, TRIES * 0x1_0000)
  {
    if Undecided(rbc, TRIES * 0x1_0000) {
      Descends(rbc, TRIES);
    }
  }

  // It need not end otherwise: a count that goes up and down between two values keeps the loop going.
  lemma DrainNeedNotEnd(rbc: nat -> nat, n: nat)
    requires forall i: nat :: rbc(i) == 1 + i % 2
    ensures Undecided(rbc, n)
  {
    forall k | 0 <= k <= n ensures !Repeats(rbc, k) {
      assert TRIES <= k ==> rbc(k - 2) != rbc(k - 1);
    }
  }
}
