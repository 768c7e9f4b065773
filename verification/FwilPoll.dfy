/**
 The boot-time half of an IOVAR/IOCTL call of the WiFi driver, which polls F2 itself, and what a call's
 result has to do with the response to it on either half.
 */
module FwilPoll {
  import opened Options

  type Byte = b: nat | b < 256

  const ID_SPACE: nat := 0x1_0000
  const CREDIT_READS: nat := 100
  const POLLS: nat := 300

  const EIO: nat := 5
  const ENXIO: nat := 6
  const EAGAIN: nat := 35
  const ENOBUFS: nat := 55
  const ETIMEDOUT: nat := 60

  // The code of a failed F2 write, and of a failed F2 read; a read that fails with EAGAIN has found nothing.
  type WriteCode = c: nat | c > 0 witness 1
  type ReadCode = c: nat | c > 0 && c != EAGAIN witness 1

  datatype Result =
    | Success | Etimedout | Eio | Enxio | Enobufs
    | WriteError(code: WriteCode)
    | RecvError(readCode: ReadCode)

  // The integer that the call returns.
  function Errno(r: Result): nat {
    match r
    case Success => 0
    case Etimedout => ETIMEDOUT
    case Eio => EIO
    case Enxio => ENXIO
    case Enobufs => ENOBUFS
    case WriteError(c) => c
    case RecvError(c) => c
  }

  // origin numbers the transaction that the firmware answers; the id on the wire is that modulo 65536.
  datatype Response = Response(origin: nat, error: bool, payload: seq<Byte>)

  predicate SameId(t: nat, u: nat) {
    t % ID_SPACE == u % ID_SPACE
  }

  function Min(a: nat, b: nat): nat { if a < b then a else b }

  // The response is copied over the front of the buffer, as far as either reaches.
  function Filled(buf: seq<Byte>, payload: seq<Byte>): (r: seq<Byte>)
    ensures |r| == |buf|
  {
    var k := Min(|buf|, |payload|);
    payload[..k] + buf[k..]
  }

  // The buffer of a call to which `answer` was delivered.
  function Answered(get: bool, buf: seq<Byte>, answer: Option<Response>): (r: seq<Byte>)
    ensures |r| == |buf|
  {
    if get && answer.Some? && !answer.value.error then Filled(buf, answer.value.payload) else buf
  }

  // The result of a call to which `answer` was delivered.
  predicate Explains(r: Result, answer: Option<Response>) {
    match r
    case Success => answer.Some? && !answer.value.error
    case Eio => answer.Some? && answer.value.error
    case Etimedout => answer == None
    case Enxio => answer == None
    case Enobufs => answer == None
    case RecvError(_) => answer == None
    case WriteError(_) => true
  }

  // What one read of F2 brings: nothing, an error, a control response, or any other frame.  Frames carry
  // the new credit limit.
  datatype Recv = Again | Failed(code: ReadCode) | Other(rxMax: Byte) | Control(rxMax: Byte, response: Response)

  // The credit limit after the first n reads.
  function RxMaxAfter(recv: nat -> Recv, rxMax: Byte, n: nat): Byte {
    if n == 0 then rxMax
    else match recv(n - 1)
      case Other(m) => m
      case Control(m, _) => m
      case _ => RxMaxAfter(recv, rxMax, n - 1)
  }

  function Credits(rxMax: Byte, txSeq: Byte): nat {
    (rxMax as int - txSeq as int) % 256
  }

  // The sequence number may advance by exactly that many before it meets the limit, modulo 256.
  lemma CreditsMean(rxMax: Byte, txSeq: Byte, n: nat)
    ensures n == Credits(rxMax, txSeq) <==> n < 256 && (txSeq + n) % 256 == rxMax
  {
  }

  // The first n reads: none failed, and before each of them there was no credit.
  ghost predicate Stalled(recv: nat -> Recv, rxMax: Byte, txSeq: Byte, n: nat) {
    forall j :: 0 <= j < n ==> !recv(j).Failed? && Credits(RxMaxAfter(recv, rxMax, j), txSeq) == 0
  }

  // Reads F2 until the firmware grants a credit; n is the number of reads, a failing one not counted.
  method WaitForCredit(recv: nat -> Recv, rxMax0: Byte, txSeq: Byte) returns (n: nat, err: Option<Result>)
    ensures n <= CREDIT_READS && Stalled(recv, rxMax0, txSeq, n)
    ensures var granted := Credits(RxMaxAfter(recv, rxMax0, n), txSeq) > 0;
      && (granted || n == CREDIT_READS || recv(n).Failed?)
      && err == (if granted then None else if n == CREDIT_READS then Some(Enobufs) else Some(RecvError(recv(n).code)))
  {
    var rxMax := rxMax0;
    n := 0;
    while n < CREDIT_READS
      invariant n <= CREDIT_READS && rxMax == RxMaxAfter(recv, rxMax0, n) && Stalled(recv, rxMax0, txSeq, n)
    {
      if Credits(rxMax, txSeq) > 0 {
        break;
      }
      match recv(n) {
        case Failed(code) => return n, Some(RecvError(code));
        case Other(m) => rxMax := m;
        case Control(m, _) => rxMax := m;
        case Again =>
      }
      n := n + 1;
    }
    err := if Credits(rxMax, txSeq) == 0 then Some(Enobufs) else None;
  }

  // A read that leaves the poll for transaction txn going.
  predicate Passes(r: Recv, txn: nat) {
    match r
    case Again => true
    case Other(_) => true
    case Control(_, response) => !SameId(response.origin, txn)
    case Failed(_) => false
  }

  // The poll ends after k reads that pass: at the limit, at an error, or at the response to txn.
  ghost predicate PollEnds(recv: nat -> Recv, from: nat, txn: nat, k: nat, result: Result, answer: Option<Response>) {
    && k <= POLLS
    && (forall i :: from <= i < from + k ==> Passes(recv(i), txn))
    && (if k == POLLS then result == Etimedout && answer == None
        else match recv(from + k)
          case Failed(code) => result == RecvError(code) && answer == None
          case Control(_, r) =>
            SameId(r.origin, txn) && answer == Some(r) && result == if r.error then Eio else Success
          case _ => false)
  }

  // There is one way for it to end.
  lemma PollEndsOnce(recv: nat -> Recv, from: nat, txn: nat, k: nat, result: Result, answer: Option<Response>,
                     k': nat, result': Result, answer': Option<Response>)
    requires PollEnds(recv, from, txn, k, result, answer) && PollEnds(recv, from, txn, k', result', answer')
    ensures k == k' && result == result' && answer == answer'
  {
    PollStops(recv, from, txn, k, result, answer);
    PollStops(recv, from, txn, k', result', answer');
  }

  lemma PollStops(recv: nat -> Recv, from: nat, txn: nat, k: nat, result: Result, answer: Option<Response>)
    requires PollEnds(recv, from, txn, k, result, answer)
    ensures k < POLLS ==> !Passes(recv(from + k), txn)
  {
  }

  // Polls F2 for the response to transaction txn.
  method PollResponse(recv: nat -> Recv, from: nat, txn: nat, get: bool, buf: seq<Byte>)
    returns (result: Result, out: seq<Byte>, k: nat, answer: Option<Response>)
    ensures PollEnds(recv, from, txn, k, result, answer)
    ensures out == Answered(get, buf, answer)
  {
    out, answer := buf, None;
    var i := 0;
    while i < POLLS
      invariant i <= POLLS && out == buf && answer == None
      invariant forall j :: from <= j < from + i ==> Passes(recv(j), txn)
    {
      var r := recv(from + i);
      if r.Failed? {
        return RecvError(r.code), out, i, None;
      }
      if r.Control? && SameId(r.response.origin, txn) {
        if r.response.error {
          return Eio, out, i, Some(r.response);
        }
        if get {
          out := Filled(buf, r.response.payload);
        }
        return Success, out, i, Some(r.response);
      }
      i := i + 1;
    }
    return Etimedout, out, i, None;
  }

  /**
   A call at boot time: wait for a credit, write the frame (writeErr is the code of a failed write, or 0),
   poll for the response.  It returns 0 exactly if a response to its own transaction without the error flag
   came within 300 reads, before any failed one; responses to others are passed over, in the first wait all
   are.  EIO means a response with that flag, or a read or write that failed with EIO itself.
   */
  method Boot(recv: nat -> Recv, rxMax: Byte, txSeq: Byte, writeErr: nat, txn: nat, get: bool, buf: seq<Byte>)
    returns (result: Result, out: seq<Byte>, n: nat, k: nat, answer: Option<Response>)
    ensures n <= CREDIT_READS && Stalled(recv, rxMax, txSeq, n)
    ensures
      if Credits(RxMaxAfter(recv, rxMax, n), txSeq) == 0 then
        && answer == None
        && (n == CREDIT_READS ==> result == Enobufs)
        && (n < CREDIT_READS ==> recv(n).Failed? && result == RecvError(recv(n).code))
      else if writeErr != 0 then result == WriteError(writeErr) && answer == None
      else PollEnds(recv, n, txn, k, result, answer)
    ensures out == Answered(get, buf, answer)
    ensures Outcome(txn, result, answer)
    ensures Errno(result) == 0 <==> answer.Some? && !answer.value.error
    ensures Errno(result) == EIO <==>
      (answer.Some? && answer.value.error) || result == RecvError(EIO) || result == WriteError(EIO)
  {
    var waited, err := WaitForCredit(recv, rxMax, txSeq);
    n, k, answer, out := waited, 0, None, buf;
    if err.Some? {
      return err.value, buf, n, k, None;
    }
    if writeErr != 0 {
      return WriteError(writeErr), buf, n, k, None;
    }
    result, out, k, answer := PollResponse(recv, waited, txn, get, buf);
  }

  // What a caller may conclude from the result of a boot-time call.
  predicate Outcome(txn: nat, result: Result, answer: Option<Response>) {
    && (answer.Some? <==> result.Success? || result.Eio?)
    && (answer.Some? ==> SameId(answer.value.origin, txn) && (result.Eio? <==> answer.value.error))
  }
}
