/**
 The IOVAR/IOCTL transaction protocol of the WiFi driver at runtime: any number of callers, the
 thread that runs the receive and transmit tasks, and detach, interleaved at every point where one
 of them takes or drops a lock.  A region under sc->mtx is one step.
 */
module Fwil {
  import opened FwilPoll
  import opened Options

  // Where a caller of cyw_fil_txrx is.
  datatype Pc =
    | Outside
    | WantIoctl                  // blocked on, or about to take, ioctl_sx
    | Began                      // holds ioctl_sx, has a transaction id
    | Runtime                    // saw sdpcm_running, waits for a credit
    | Polling                    // saw !sdpcm_running, polls F2 itself
    | Armed                      // delivery state set; blocked on, or about to take, f2_sx
    | Writing                    // holds f2_sx
    | WriteFailed(code: WriteCode)  // f2_sx dropped after a failed write
    | Sent                       // f2_sx dropped after the doorbell
    | Asleep                     // in cv_timedwait
    | TimedOut | Signalled       // out of cv_timedwait, sc->mtx not yet taken again
    | Finishing(result: Result)  // about to drop ioctl_sx

  // A call: txn numbers the transactions without wrap-around, buf is the buffer as passed in.
  datatype Call = Call(pc: Pc, txn: nat, get: bool, buf: seq<Byte>)

  // The single thread of rx_tq.
  datatype Queue = QueueIdle | RxWant | RxDraining | RxInput | TxWant | TxWriting

  datatype Who = Caller(c: nat) | QueueThread

  datatype State = State(
    calls: map<nat, Call>,
    txns: nat,                   // transactions begun; ioctl_id is this modulo 65536
    ioctlOwner: Option<nat>,
    f2Owner: Option<Who>,
    waiting: bool,               // ioctl_waiting
    waitId: nat,                 // ioctl_wait_id
    respTxn: nat,                // whose buffer ioctl_resp_buf points to
    respGet: bool,               // ioctl_get
    result: Result,              // ioctl_result
    running: bool,               // sdpcm_running
    queue: Queue,
    detached: nat,               // how far detach has come
    mem: map<nat, seq<Byte>>,    // the response buffers, by transaction
    answer: Option<Response>,    // what was delivered to the current transaction
    panicked: bool               // the "concurrent IOCTL" assertion has fired
  )

  datatype Action =
    | Enter(c: nat, get: bool, buf: seq<Byte>)
    | LockIoctl(c: nat) | Choose(c: nat) | NoCredit(c: nat) | Arm(c: nat)
    | LockF2(c: nat) | WriteOk(c: nat) | WriteFail(c: nat, code: WriteCode) | Disarm(c: nat)
    | Check(c: nat) | Timeout(c: nat) | Wake(c: nat)
    | Poll(c: nat, result: Result, answer: Option<Response>)
    | Return(c: nat)
    | RxStart | RxLock | Deliver(response: Response) | RxUnlock | RxDone
    | TxStart | TxLock | TxUnlock
    | DetachBegin | DetachDrained | DetachWake

  // When attach ends: boot-time calls have begun n transactions and have all returned.
  function Attached(n: nat): State {
    State(map[], n, None, None, false, 0, 0, false, Success, true, QueueIdle, 0, map[], None, false)
  }

  const ATTACHED := Attached(0)

  predicate InSection(pc: Pc) {
    !pc.Outside? && !pc.WantIoctl?
  }

  // Between arming and taking the result.
  predicate InFlight(pc: Pc) {
    pc.Armed? || pc.Writing? || pc.WriteFailed? || pc.Sent? || pc.Asleep? || pc.TimedOut?
  }

  predicate At(s: State, c: nat, pc: Pc) {
    c in s.calls && s.calls[c].pc == pc
  }

  predicate Enabled(s: State, a: Action) {
    match a
    case Enter(c, _, _) => c !in s.calls || At(s, c, Outside)
    case LockIoctl(c) => At(s, c, WantIoctl) && s.ioctlOwner == None
    case Choose(c) => At(s, c, Began)
    case NoCredit(c) => At(s, c, Runtime)
    case Arm(c) => At(s, c, Runtime)
    case LockF2(c) => At(s, c, Armed) && s.f2Owner == None
    case WriteOk(c) => At(s, c, Writing)
    case WriteFail(c, _) => At(s, c, Writing)
    case Disarm(c) => c in s.calls && s.calls[c].pc.WriteFailed?
    case Check(c) => At(s, c, Sent)
    case Timeout(c) => At(s, c, Asleep)
    case Wake(c) => At(s, c, TimedOut) || At(s, c, Signalled)
    case Poll(c, result, answer) =>
      && At(s, c, Polling)
      && Explains(result, answer) && Outcome(s.calls[c].txn, result, answer)
      && (answer.Some? ==> 1 <= answer.value.origin <= s.txns)
    case Return(c) => c in s.calls && s.calls[c].pc.Finishing?
    case RxStart => s.queue.QueueIdle? && s.detached < 2
    case RxLock => s.queue.RxWant? && s.f2Owner == None
    case Deliver(r) => s.queue.RxDraining? && 1 <= r.origin <= s.txns
    case RxUnlock => s.queue.RxDraining?
    case RxDone => s.queue.RxInput?
    case TxStart => s.queue.QueueIdle? && s.detached < 2
    case TxLock => s.queue.TxWant? && s.f2Owner == None
    case TxUnlock => s.queue.TxWriting?
    case DetachBegin => s.detached == 0
    case DetachDrained => s.detached == 1 && s.queue.QueueIdle?
    case DetachWake => s.detached == 2
  }

  function SetPc(s: State, c: nat, pc: Pc): State
    requires c in s.calls
  {
    s.(calls := s.calls[c := s.calls[c].(pc := pc)])
  }

  function Expected(call: Call, answer: Option<Response>): seq<Byte> {
    Answered(call.get, call.buf, answer)
  }

  // cv_signal: the one thread that can be asleep on ioctl_cv is the owner of ioctl_sx.
  function Signal(s: State): State {
    if s.ioctlOwner.Some? && At(s, s.ioctlOwner.value, Asleep) then SetPc(s, s.ioctlOwner.value, Signalled) else s
  }

  predicate Accepts(s: State, r: Response) {
    s.waiting && r.origin % ID_SPACE == s.waitId
  }

  // The receive task hands an accepted response to the transaction that waits for it.
  function Delivered(s: State, r: Response): State {
    if r.error then Signal(s).(result := Eio, waiting := false, answer := Some(r))
    else
      var mine := s.respGet && s.respTxn in s.mem;
      var m := if mine then s.mem[s.respTxn := Filled(s.mem[s.respTxn], r.payload)] else s.mem;
      Signal(s).(result := Success, waiting := false, answer := Some(r), mem := m)
  }

  // The last step of detach gives up on a pending response.
  function Abandoned(s: State): State {
    if s.waiting then Signal(s).(waiting := false, result := Enxio, detached := 3) else s.(detached := 3)
  }

  function Next(s: State, a: Action): State
    requires Enabled(s, a)
  {
    match a
    case Enter(c, get, buf) => s.(calls := s.calls[c := Call(WantIoctl, 0, get, buf)])
    case LockIoctl(c) =>
      var n := s.txns + 1;
      s.(ioctlOwner := Some(c), txns := n, mem := s.mem[n := s.calls[c].buf], answer := None,
         calls := s.calls[c := s.calls[c].(pc := Began, txn := n)])
    case Choose(c) =>
      SetPc(s, c, if s.running then Runtime else Polling)
    case NoCredit(c) => SetPc(s, c, Finishing(Enobufs))
    case Arm(c) =>
      SetPc(s, c, Armed).(panicked := s.panicked || s.waiting, waiting := true, waitId := s.calls[c].txn % ID_SPACE,
                          respTxn := s.calls[c].txn, respGet := s.calls[c].get, result := Etimedout)
    case LockF2(c) => SetPc(s, c, Writing).(f2Owner := Some(Caller(c)))
    case WriteOk(c) => SetPc(s, c, Sent).(f2Owner := None)
    case WriteFail(c, code) => SetPc(s, c, WriteFailed(code)).(f2Owner := None)
    case Disarm(c) => SetPc(s, c, Finishing(WriteError(s.calls[c].pc.code))).(waiting := false)
    case Check(c) => SetPc(s, c, if s.waiting then Asleep else Finishing(s.result))
    case Timeout(c) => SetPc(s, c, TimedOut)
    case Wake(c) =>
      SetPc(s, c, Finishing(s.result)).(waiting := if At(s, c, TimedOut) then false else s.waiting)
    case Poll(c, result, answer) =>
      SetPc(s, c, Finishing(result)).(mem := s.mem[s.calls[c].txn := Expected(s.calls[c], answer)], answer := answer)
    case Return(c) => SetPc(s, c, Outside).(ioctlOwner := None)
    case RxStart => s.(queue := RxWant)
    case RxLock => s.(queue := RxDraining, f2Owner := Some(QueueThread))
    case Deliver(r) => if Accepts(s, r) then Delivered(s, r) else s
    case RxUnlock => s.(queue := RxInput, f2Owner := None)
    case RxDone => s.(queue := QueueIdle)
    case TxStart => s.(queue := TxWant)
    case TxLock => s.(queue := TxWriting, f2Owner := Some(QueueThread))
    case TxUnlock => s.(queue := QueueIdle, f2Owner := None)
    case DetachBegin => s.(running := false, detached := 1)
    case DetachDrained => s.(detached := 2)
    case DetachWake => Abandoned(s)
  }

  function Run(s: State, actions: seq<Action>): State
    decreases |actions|
  {
    if actions == [] then s
    else Run(if Enabled(s, actions[0]) then Next(s, actions[0]) else s, actions[1..])
  }

  // The two sleepable locks are held by exactly the threads whose program point says so.
  ghost predicate Locks(s: State) {
    && (forall c :: c in s.calls ==> (InSection(s.calls[c].pc) <==> s.ioctlOwner == Some(c)))
    && (s.ioctlOwner.Some? ==> s.ioctlOwner.value in s.calls)
    && (forall c :: c in s.calls ==> (s.calls[c].pc.Writing? <==> s.f2Owner == Some(Caller(c))))
    && (s.f2Owner.Some? && s.f2Owner.value.Caller? ==> s.f2Owner.value.c in s.calls)
    && (s.queue.RxDraining? || s.queue.TxWriting? <==> s.f2Owner == Some(QueueThread))
  }

  // What is known of the transaction under way.
  ghost predicate Current(s: State, call: Call) {
    && call.txn == s.txns
    && s.txns in s.mem
    && (s.waiting ==>
          && InFlight(call.pc)
          && s.waitId == s.txns % ID_SPACE && s.respTxn == s.txns && s.respGet == call.get
          && s.result == Etimedout && s.answer == None)
    && (call.pc.Asleep? ==> s.waiting)
    && (call.pc.Began? || call.pc.Runtime? || call.pc.Polling? ==> s.answer == None)
    && (s.answer.Some? ==> s.answer.value.origin % ID_SPACE == s.txns % ID_SPACE)
    && (InFlight(call.pc) || call.pc.Signalled? ==> Explains(s.result, s.answer))
    && (call.pc.Finishing? ==> Explains(call.pc.result, s.answer))
    && s.mem[s.txns] == Expected(call, s.answer)
    && (call.pc.Polling? ==> !s.running)
  }

  ghost predicate Inv(s: State) {
    && Locks(s)
    && (if s.ioctlOwner.Some? then Current(s, s.calls[s.ioctlOwner.value]) else !s.waiting)
    && (forall t :: t in s.mem ==> 1 <= t <= s.txns)
    && (s.running <==> s.detached == 0)
    && (s.detached >= 2 ==> s.queue.QueueIdle?)
    && !s.panicked
  }

  lemma EnterKeeps(s: State, c: nat, get: bool, buf: seq<Byte>)
    requires Inv(s) && Enabled(s, Enter(c, get, buf))
    ensures Inv(Next(s, Enter(c, get, buf)))
  {
  }

  lemma LockIoctlKeeps(s: State, c: nat)
    requires Inv(s) && Enabled(s, LockIoctl(c))
    ensures Inv(Next(s, LockIoctl(c)))
  {
  }

  lemma ChooseKeeps(s: State, c: nat)
    requires Inv(s) && Enabled(s, Choose(c))
    ensures Inv(Next(s, Choose(c)))
  {
  }

  lemma NoCreditKeeps(s: State, c: nat)
    requires Inv(s) && Enabled(s, NoCredit(c))
    ensures Inv(Next(s, NoCredit(c)))
  {
  }

  lemma ArmKeeps(s: State, c: nat)
    requires Inv(s) && Enabled(s, Arm(c))
    ensures Inv(Next(s, Arm(c)))
  {
  }

  lemma CheckKeeps(s: State, c: nat)
    requires Inv(s) && Enabled(s, Check(c))
    ensures Inv(Next(s, Check(c)))
  {
  }

  lemma TimeoutKeeps(s: State, c: nat)
    requires Inv(s) && Enabled(s, Timeout(c))
    ensures Inv(Next(s, Timeout(c)))
  {
  }

  lemma WakeKeeps(s: State, c: nat)
    requires Inv(s) && Enabled(s, Wake(c))
    ensures Inv(Next(s, Wake(c)))
  {
  }

  lemma LockF2Keeps(s: State, c: nat)
    requires Inv(s) && Enabled(s, LockF2(c))
    ensures Inv(Next(s, LockF2(c)))
  {
  }

  lemma WriteOkKeeps(s: State, c: nat)
    requires Inv(s) && Enabled(s, WriteOk(c))
    ensures Inv(Next(s, WriteOk(c)))
  {
  }

  lemma WriteFailKeeps(s: State, c: nat, code: WriteCode)
    requires Inv(s) && Enabled(s, WriteFail(c, code))
    ensures Inv(Next(s, WriteFail(c, code)))
  {
  }

  lemma DisarmKeeps(s: State, c: nat)
    requires Inv(s) && Enabled(s, Disarm(c))
    ensures Inv(Next(s, Disarm(c)))
  {
  }

  lemma PollKeeps(s: State, c: nat, result: Result, answer: Option<Response>)
    requires Inv(s) && Enabled(s, Poll(c, result, answer))
    ensures Inv(Next(s, Poll(c, result, answer)))
  {
  }

  lemma ReturnKeeps(s: State, c: nat)
    requires Inv(s) && Enabled(s, Return(c))
    ensures Inv(Next(s, Return(c)))
  {
  }

  // A move inside ioctl_sx that neither starts nor ends a transfer leaves the locks with their holders.
  lemma MoveKeepsLocks(s: State, c: nat, pc: Pc)
    requires Locks(s) && c in s.calls
    requires InSection(s.calls[c].pc) && InSection(pc) && !s.calls[c].pc.Writing? && !pc.Writing?
    ensures Locks(SetPc(s, c, pc))
  {
  }

  lemma SameLocks(s: State, t: State)
    requires Locks(s)
    requires t.calls == s.calls && t.ioctlOwner == s.ioctlOwner && t.f2Owner == s.f2Owner && t.queue == s.queue
    ensures Locks(t)
  {
  }

  // What waking the sleeper, if there is one, changes.
  lemma SignalOnly(s: State)
    ensures Signal(s) == s.(calls := Signal(s).calls)
  {
  }

  lemma SignalKeepsLocks(s: State)
    requires Locks(s)
    ensures Locks(Signal(s))
    ensures s.ioctlOwner.Some? ==>
      var c := s.ioctlOwner.value;
      && c in Signal(s).calls
      && Signal(s).calls[c] == s.calls[c].(pc := if s.calls[c].pc.Asleep? then Signalled else s.calls[c].pc)
  {
    if s.ioctlOwner.Some? && At(s, s.ioctlOwner.value, Asleep) {
      MoveKeepsLocks(s, s.ioctlOwner.value, Signalled);
    }
    hide Locks;
  }

  lemma DeliverKeeps(s: State, r: Response)
    requires Inv(s) && Accepts(s, r)
    ensures Inv(Delivered(s, r))
  {
    SignalKeepsLocks(s);
    SignalOnly(s);
    hide Signal, Locks;
    SameLocks(Signal(s), Delivered(s, r));
    DeliverKeepsCurrent(s, r);
    hide Current;
  }

  lemma DeliverKeepsCurrent(s: State, r: Response)
    requires Locks(s) && Accepts(s, r)
    requires s.ioctlOwner.Some? && Current(s, s.calls[s.ioctlOwner.value])
    ensures var t, c := Delivered(s, r), s.ioctlOwner.value; c in t.calls && Current(t, t.calls[c])
  {
    SignalKeepsLocks(s);
    SignalOnly(s);
    hide Locks, Signal;
  }

  lemma DetachKeeps(s: State, a: Action)
    requires Inv(s) && Enabled(s, a) && (a.DetachBegin? || a.DetachDrained?)
    ensures Inv(Next(s, a))
  {
  }

  lemma AbandonKeeps(s: State)
    requires Inv(s) && s.detached == 2
    ensures Inv(Abandoned(s))
  {
    SignalKeepsLocks(s);
    SignalOnly(s);
    hide Signal, Locks;
    SameLocks(if s.waiting then Signal(s) else s, Abandoned(s));
  }

  lemma DeliverStepKeeps(s: State, r: Response)
    requires Inv(s) && Enabled(s, Deliver(r))
    ensures Inv(Next(s, Deliver(r)))
  {
    hide Inv;
    if Accepts(s, r) {
      DeliverKeeps(s, r);
    }
  }

  lemma DetachWakeKeeps(s: State)
    requires Inv(s) && Enabled(s, DetachWake)
    ensures Inv(Next(s, DetachWake))
  {
    hide Inv;
    AbandonKeeps(s);
  }

  lemma TaskKeeps(s: State, a: Action)
    requires Inv(s) && Enabled(s, a) && (a.RxStart? || a.RxDone? || a.TxStart?)
    ensures Inv(Next(s, a))
  {
  }

  lemma RxLockKeeps(s: State)
    requires Inv(s) && Enabled(s, RxLock)
    ensures Inv(Next(s, RxLock))
  {
  }

  lemma RxUnlockKeeps(s: State)
    requires Inv(s) && Enabled(s, RxUnlock)
    ensures Inv(Next(s, RxUnlock))
  {
  }

  lemma TxLockKeeps(s: State)
    requires Inv(s) && Enabled(s, TxLock)
    ensures Inv(Next(s, TxLock))
  {
  }

  lemma TxUnlockKeeps(s: State)
    requires Inv(s) && Enabled(s, TxUnlock)
    ensures Inv(Next(s, TxUnlock))
  {
  }

  lemma StepKeeps(s: State, a: Action)
    requires Inv(s) && Enabled(s, a)
    ensures Inv(Next(s, a))
  {
    hide Inv, Next, Enabled;
    match a
    case Enter(c, get, buf) => EnterKeeps(s, c, get, buf);
    case LockIoctl(c) => LockIoctlKeeps(s, c);
    case Choose(c) => ChooseKeeps(s, c);
    case NoCredit(c) => NoCreditKeeps(s, c);
    case Arm(c) => ArmKeeps(s, c);
    case Check(c) => CheckKeeps(s, c);
    case Timeout(c) => TimeoutKeeps(s, c);
    case Wake(c) => WakeKeeps(s, c);
    case LockF2(c) => LockF2Keeps(s, c);
    case WriteOk(c) => WriteOkKeeps(s, c);
    case WriteFail(c, code) => WriteFailKeeps(s, c, code);
    case Disarm(c) => DisarmKeeps(s, c);
    case Poll(c, result, answer) => PollKeeps(s, c, result, answer);
    case Return(c) => ReturnKeeps(s, c);
    case Deliver(r) => DeliverStepKeeps(s, r);
    case DetachWake => DetachWakeKeeps(s);
    case DetachBegin => DetachKeeps(s, a);
    case DetachDrained => DetachKeeps(s, a);
    case RxStart => TaskKeeps(s, a);
    case RxDone => TaskKeeps(s, a);
    case TxStart => TaskKeeps(s, a);
    case RxLock => RxLockKeeps(s);
    case RxUnlock => RxUnlockKeeps(s);
    case TxLock => TxLockKeeps(s);
    case TxUnlock => TxUnlockKeeps(s);
  }

  lemma {:induction false} RunKeeps(s: State, actions: seq<Action>)
    requires Inv(s)
    ensures Inv(Run(s, actions))
    decreases |actions|
  {
    if actions != [] {
      if Enabled(s, actions[0]) {
        StepKeeps(s, actions[0]);
        RunKeeps(Next(s, actions[0]), actions[1..]);
      } else {
        RunKeeps(s, actions[1..]);
      }
    }
  }

  // Who is moving data over F2.  A polling caller does so without taking f2_sx.
  predicate InTransfer(s: State, w: Who) {
    match w
    case Caller(c) => At(s, c, Writing) || At(s, c, Polling)
    case QueueThread => s.queue.RxDraining? || s.queue.TxWriting?
  }

  /**
   In every run from the end of attach on, however many transactions were begun at boot time: the
   concurrent-IOCTL assertion never fires; a pending response belongs to the holder of ioctl_sx, to its
   transaction id and its buffer; a sleeping transaction does not hold f2_sx; and unless detach is draining
   the task queue, at most one thread uses F2.
   */
  lemma Safe(n: nat, actions: seq<Action>)
    ensures var s := Run(Attached(n), actions);
      && !s.panicked
      && (s.waiting ==>
            && s.ioctlOwner.Some? && s.ioctlOwner.value in s.calls
            && var call := s.calls[s.ioctlOwner.value];
               InFlight(call.pc) && s.waitId == call.txn % ID_SPACE && s.respTxn == call.txn && call.txn == s.txns)
      && (forall c :: c in s.calls && s.calls[c].pc.Asleep? ==> s.f2Owner != Some(Caller(c)))
      && (s.detached != 1 ==> forall v, w :: InTransfer(s, v) && InTransfer(s, w) ==> v == w)
  {
    RunKeeps(Attached(n), actions);
    SharedExactly(Run(Attached(n), actions));
  }

  // Two threads use F2 at the same time.
  ghost predicate Shared(s: State) {
    exists v, w :: v != w && InTransfer(s, v) && InTransfer(s, w)
  }

  // When F2 is shared: while detach drains the task queue, and then exactly if the holder of ioctl_sx polls
  // while the queue thread holds f2_sx.
  lemma SharedExactly(s: State)
    requires Inv(s)
    ensures Shared(s) <==>
      s.ioctlOwner.Some? && At(s, s.ioctlOwner.value, Polling) && s.f2Owner == Some(QueueThread)
    ensures Shared(s) ==> s.detached == 1
  {
    if s.ioctlOwner.Some? && At(s, s.ioctlOwner.value, Polling) && s.f2Owner == Some(QueueThread) {
      assert InTransfer(s, Caller(s.ioctlOwner.value)) && InTransfer(s, QueueThread);
    }
  }

  // The F2 guarantee ends with detach: a caller that finds sdpcm_running clear polls beside the receive task.
  lemma PollBesideReceive() returns (actions: seq<Action>)
    ensures var s := Run(ATTACHED, actions); InTransfer(s, Caller(0)) && InTransfer(s, QueueThread)
  {
    actions := DetachDuringReceive();
    RunAppend(ATTACHED, actions, Enter(0, true, []));
    actions := actions + [Enter(0, true, [])];
    RunAppend(ATTACHED, actions, LockIoctl(0));
    actions := actions + [LockIoctl(0)];
    assert Run(ATTACHED, actions).calls == map[0 := Call(Began, 1, true, [])];
    RunAppend(ATTACHED, actions, Choose(0));
    actions := actions + [Choose(0)];
  }

  lemma DetachDuringReceive() returns (actions: seq<Action>)
    ensures Run(ATTACHED, actions)
         == ATTACHED.(queue := RxDraining, f2Owner := Some(QueueThread), running := false, detached := 1)
  {
    actions := [];
    RunAppend(ATTACHED, actions, RxStart);
    actions := actions + [RxStart];
    RunAppend(ATTACHED, actions, RxLock);
    actions := actions + [RxLock];
    RunAppend(ATTACHED, actions, DetachBegin);
    actions := actions + [DetachBegin];
  }

  lemma {:induction false} RunAppend(s: State, actions: seq<Action>, a: Action)
    ensures var t := Run(s, actions); Run(s, actions + [a]) == if Enabled(t, a) then Next(t, a) else t
    decreases |actions|
  {
    if actions == [] {
      assert [a][1..] == [];
    } else {
      assert (actions + [a])[1..] == actions[1..] + [a];
      RunAppend(if Enabled(s, actions[0]) then Next(s, actions[0]) else s, actions[1..], a);
    }
  }

  // A step that locks or unlocks f2_sx, or sleeps on ioctl_cv, after the end of detach has destroyed both.
  predicate Touches(s: State, a: Action) {
    s.detached == 3 && (a.LockF2? || a.WriteOk? || a.WriteFail? || (a.Check? && s.waiting))
  }

  // The holder of ioctl_sx saw sdpcm_running set and has its F2 write, or its sleep, still to come.
  predicate MayTouch(s: State) {
    && s.ioctlOwner.Some? && s.ioctlOwner.value in s.calls
    && var pc := s.calls[s.ioctlOwner.value].pc;
       pc.Runtime? || pc.Armed? || pc.Writing? || (pc.Sent? && s.waiting)
  }

  lemma TouchStep(s: State, a: Action)
    requires Inv(s) && Enabled(s, a) && s.detached == 3
    ensures Touches(s, a) ==> MayTouch(s)
  {
    hide Current, Next;
  }

  lemma MayTouchFront(s: State, a: Action)
    requires Inv(s) && Enabled(s, a) && s.detached == 3 && !MayTouch(s)
    requires a.LockIoctl? || a.Choose? || a.NoCredit? || a.Arm? || a.LockF2? || a.WriteOk? || a.WriteFail?
    ensures !MayTouch(Next(s, a)) && Next(s, a).detached == 3
  {
    match a
    case LockIoctl(_) =>
    case Choose(_) =>
    case NoCredit(_) =>
    case Arm(_) =>
    case LockF2(_) =>
    case WriteOk(_) =>
    case WriteFail(_, _) =>
  }

  lemma MayTouchBack(s: State, a: Action)
    requires Inv(s) && Enabled(s, a) && s.detached == 3 && !MayTouch(s)
    requires a.Disarm? || a.Check? || a.Timeout? || a.Wake? || a.Poll? || a.Return?
    ensures !MayTouch(Next(s, a)) && Next(s, a).detached == 3
  {
    match a
    case Disarm(_) =>
    case Check(_) =>
    case Timeout(_) =>
    case Wake(_) =>
    case Poll(_, _, _) =>
    case Return(_) =>
  }

  lemma MayTouchOthers(s: State, a: Action)
    requires Inv(s) && Enabled(s, a) && s.detached == 3 && !MayTouch(s) && StepOf(a) == None
    ensures !MayTouch(Next(s, a)) && Next(s, a).detached == 3
  {
    if a.Deliver? {
      SignalKeepsLocks(s);
      SignalOnly(s);
      hide Signal;
    }
  }

  // Once no call may touch them, none ever will: a call that begins then finds sdpcm_running clear.
  lemma MayTouchStep(s: State, a: Action)
    requires Inv(s) && Enabled(s, a) && s.detached == 3 && !MayTouch(s)
    ensures !MayTouch(Next(s, a)) && Next(s, a).detached == 3
  {
    hide Inv, Next, Enabled, MayTouch;
    match a
    case Disarm(_) => MayTouchBack(s, a);
    case Check(_) => MayTouchBack(s, a);
    case Timeout(_) => MayTouchBack(s, a);
    case Wake(_) => MayTouchBack(s, a);
    case Poll(_, _, _) => MayTouchBack(s, a);
    case Return(_) => MayTouchBack(s, a);
    case _ =>
      if StepOf(a).Some? {
        MayTouchFront(s, a);
      } else {
        MayTouchOthers(s, a);
      }
  }

  lemma {:induction false} NeverTouches(s: State, actions: seq<Action>)
    requires Inv(s) && s.detached == 3 && !MayTouch(s)
    ensures var t := Run(s, actions); Inv(t) && t.detached == 3 && !MayTouch(t)
    decreases |actions|
  {
    hide Inv, Next, Enabled, MayTouch;
    if actions != [] {
      if Enabled(s, actions[0]) {
        StepKeeps(s, actions[0]);
        MayTouchStep(s, actions[0]);
        NeverTouches(Next(s, actions[0]), actions[1..]);
      } else {
        NeverTouches(s, actions[1..]);
      }
    }
  }

  lemma F2Free(s: State)
    requires Inv(s) && s.detached >= 2 && s.ioctlOwner.Some? && s.ioctlOwner.value in s.calls
    requires !s.calls[s.ioctlOwner.value].pc.Writing?
    ensures s.f2Owner == None
  {
    hide Current;
    OwnerForms(s.f2Owner);
    forall c ensures s.f2Owner != Some(Caller(c)) {
      assert c in s.calls ==> !s.calls[c].pc.Writing?;
    }
  }

  lemma OwnerForms(o: Option<Who>)
    ensures o == None || o == Some(QueueThread) || exists c :: o == Some(Caller(c))
  {
    if o.Some? && o.value.Caller? {
      assert o == Some(Caller(o.value.c));
    }
  }

  lemma TouchComes(s: State) returns (actions: seq<Action>, a: Action)
    requires Inv(s) && s.detached == 3 && MayTouch(s)
    ensures var t := Run(s, actions); Enabled(t, a) && Touches(t, a)
  {
    var c := s.ioctlOwner.value;
    actions := [];
    if !s.calls[c].pc.Writing? {
      F2Free(s);
    }
    hide Current, Locks;
    match s.calls[c].pc
    case Runtime =>
      RunAppend(s, [], Arm(c));
      assert [] + [Arm(c)] == [Arm(c)];
      actions, a := [Arm(c)], LockF2(c);
    case Armed => a := LockF2(c);
    case Writing => a := WriteOk(c);
    case Sent => a := Check(c);
  }

  /**
   After detach, when a call can come to use f2_sx or ioctl_cv although they are destroyed: exactly if the
   holder of ioctl_sx has its F2 write, or its sleep, still to come.
   */
  lemma TouchesExactly(s: State)
    requires Inv(s) && s.detached == 3
    ensures MayTouch(s) <==> exists actions, a :: Enabled(Run(s, actions), a) && Touches(Run(s, actions), a)
  {
    hide Inv, Next, Enabled, MayTouch, Touches, Run;
    if MayTouch(s) {
      var actions, a := TouchComes(s);
    } else {
      forall actions, a | Enabled(Run(s, actions), a) ensures !Touches(Run(s, actions), a) {
        NeverTouches(s, actions);
        Untouched(Run(s, actions), a);
      }
    }
  }

  lemma Untouched(s: State, a: Action)
    requires Inv(s) && Enabled(s, a) && !MayTouch(s)
    ensures !Touches(s, a)
  {
    hide Inv, Enabled, MayTouch;
    if s.detached == 3 {
      TouchStep(s, a);
    }
  }

  // Such a run: detach comes to its end between a caller's look at sdpcm_running and its F2 write.
  lemma LateLocker() returns (actions: seq<Action>)
    ensures var s := Run(ATTACHED, actions); s.detached == 3 && MayTouch(s)
  {
    actions := CallerAtRuntime();
    var s := Run(ATTACHED, actions);
    hide Run;
    RunAppend(ATTACHED, actions, DetachBegin);
    assert Run(ATTACHED, actions + [DetachBegin]) == s.(running := false, detached := 1);
    RunAppend(ATTACHED, actions + [DetachBegin], DetachDrained);
    assert Run(ATTACHED, actions + [DetachBegin] + [DetachDrained]) == s.(running := false, detached := 2);
    RunAppend(ATTACHED, actions + [DetachBegin] + [DetachDrained], DetachWake);
    actions := actions + [DetachBegin] + [DetachDrained] + [DetachWake];
  }

  lemma CallerAtRuntime() returns (actions: seq<Action>)
    ensures Run(ATTACHED, actions)
         == ATTACHED.(calls := map[0 := Call(Runtime, 1, true, [])], txns := 1, ioctlOwner := Some(0),
                      mem := map[1 := []])
  {
    actions := [];
    RunAppend(ATTACHED, actions, Enter(0, true, []));
    actions := actions + [Enter(0, true, [])];
    RunAppend(ATTACHED, actions, LockIoctl(0));
    actions := actions + [LockIoctl(0)];
    assert Run(ATTACHED, actions).calls == map[0 := Call(Began, 1, true, [])];
    RunAppend(ATTACHED, actions, Choose(0));
    actions := actions + [Choose(0)];
  }

  /**
   A response is taken exactly when a transaction is waiting whose number agrees with that of the
   response's own transaction modulo 65536: a late one never reaches any of the next 65535.
   */
  lemma LateResponse(s: State, r: Response)
    requires Inv(s) && Enabled(s, Deliver(r))
    ensures Accepts(s, r) <==> s.waiting && (s.txns - r.origin) % ID_SPACE == 0
    ensures Accepts(s, r) ==> r.origin == s.txns || r.origin + ID_SPACE <= s.txns
  {
    var q, p := s.txns / ID_SPACE, r.origin / ID_SPACE;
    var d := s.txns % ID_SPACE - r.origin % ID_SPACE;
    assert s.txns - r.origin == (q - p) * ID_SPACE + d;
    if d == 0 {
      assert (s.txns - r.origin) % ID_SPACE == 0;
    } else if d > 0 {
      assert (s.txns - r.origin) % ID_SPACE == d;
    } else {
      assert s.txns - r.origin == (q - p - 1) * ID_SPACE + (d + ID_SPACE);
      assert (s.txns - r.origin) % ID_SPACE == d + ID_SPACE;
    }
  }

  // The holder of ioctl_sx is woken if it sleeps; no other call changes.
  ghost predicate Woken(s: State, t: State) {
    && s.ioctlOwner.Some? && s.ioctlOwner.value in s.calls
    && var c := s.ioctlOwner.value;
       t.calls == s.calls[c := s.calls[c].(pc := if At(s, c, Asleep) then Signalled else s.calls[c].pc)]
  }

  lemma SignalWakes(s: State)
    requires Inv(s) && s.ioctlOwner.Some?
    ensures Woken(s, Signal(s))
  {
    var c := s.ioctlOwner.value;
    assert s.calls[c := s.calls[c]] == s.calls;
  }

  // The front of the waiting call's buffer is the payload if the call is a GET and the response no error.
  ghost predicate Receives(s: State, t: State, r: Response) {
    && t.mem.Keys == s.mem.Keys && s.txns in s.mem
    && (forall n :: n in s.mem && n != s.txns ==> t.mem[n] == s.mem[n])
    && |t.mem[s.txns]| == |s.mem[s.txns]|
    && forall i :: 0 <= i < |t.mem[s.txns]| ==>
         t.mem[s.txns][i] == if s.respGet && !r.error && i < |r.payload| then r.payload[i] else s.mem[s.txns][i]
  }

  /**
   What a delivery does.  If a call is waiting whose number agrees modulo 65536 with the transaction that
   the response answers, the call is settled by it: nothing waits any more, the result is 0 or EIO, a
   sleeping caller is woken, and the payload is in its buffer.  Otherwise nothing happens.
   */
  lemma DeliverMeans(s: State, r: Response)
    requires Inv(s) && Enabled(s, Deliver(r))
    ensures var t := Next(s, Deliver(r));
      if s.waiting && (s.txns - r.origin) % ID_SPACE == 0 then
        && t == s.(calls := t.calls, mem := t.mem, waiting := false, answer := Some(r), result := t.result)
        && Errno(t.result) == (if r.error then EIO else 0)
        && Woken(s, t) && Receives(s, t, r)
      else t == s
  {
    LateResponse(s, r);
    if Accepts(s, r) {
      SignalWakes(s);
      SignalOnly(s);
      hide Signal, Locks;
    }
  }

  // What the end of detach does: a waiting call is settled with ENXIO and woken if it sleeps.
  lemma AbandonMeans(s: State)
    requires Inv(s) && Enabled(s, DetachWake)
    ensures var t := Next(s, DetachWake);
      if s.waiting then
        && t == s.(calls := t.calls, waiting := false, result := t.result, detached := 3)
        && Errno(t.result) == ENXIO && Woken(s, t)
      else t == s.(detached := 3)
  {
    if s.waiting {
      SignalWakes(s);
      SignalOnly(s);
      hide Signal, Locks;
    }
  }

  lemma DeliverOwnBuffer(s: State, r: Response, t: nat)
    requires Inv(s) && Accepts(s, r) && t in s.mem
    ensures t in Delivered(s, r).mem
    ensures s.ioctlOwner.Some? && s.ioctlOwner.value in s.calls
    ensures Delivered(s, r).mem[t] != s.mem[t] ==> s.calls[s.ioctlOwner.value].txn == t
  {
    SignalOnly(s);
    hide Signal;
  }

  // No step writes a response buffer other than that of the transaction under way, so none is written
  // after its call has returned.
  lemma OnlyOwnBuffer(s: State, a: Action, t: nat)
    requires Inv(s) && Enabled(s, a) && t in s.mem
    ensures t in Next(s, a).mem
    ensures Next(s, a).mem[t] != s.mem[t] ==>
      && s.ioctlOwner.Some? && s.ioctlOwner.value in s.calls
      && s.calls[s.ioctlOwner.value].txn == t
      && (a.Deliver? || a.Poll?)
  {
    hide Signal, Delivered, Abandoned;
    match a
    case LockIoctl(c) => assert Next(s, LockIoctl(c)).mem == s.mem[s.txns + 1 := s.calls[c].buf];
    case Deliver(r) =>
      if Accepts(s, r) {
        DeliverOwnBuffer(s, r, t);
      }
    case Poll(c, _, _) =>
    case _ => OtherStepsKeepBuffers(s, a);
  }

  lemma OtherStepsKeepBuffers(s: State, a: Action)
    requires Enabled(s, a) && !a.LockIoctl? && !a.Deliver? && !a.Poll?
    ensures Next(s, a).mem == s.mem
  {
    SignalOnly(s);
    hide Enabled, Signal, At, SetPc;
    if OfTaskOrDetach(a) {
      assert Abandoned(s).mem == s.mem;
    } else {
      CallerStepsKeepBuffers(s, a);
    }
  }

  predicate OfTaskOrDetach(a: Action) {
    a.RxStart? || a.RxLock? || a.RxUnlock? || a.RxDone? || a.TxStart? || a.TxLock? || a.TxUnlock?
    || a.DetachBegin? || a.DetachDrained? || a.DetachWake?
  }

  lemma CallerStepsKeepBuffers(s: State, a: Action)
    requires Enabled(s, a) && !OfTaskOrDetach(a) && !a.LockIoctl? && !a.Deliver? && !a.Poll?
    ensures Next(s, a).mem == s.mem
  {
    hide Enabled, At;
    match a
    case Enter(_, _, _) =>
    case Choose(_) =>
    case NoCredit(_) =>
    case Arm(_) =>
    case LockF2(_) =>
    case WriteOk(_) =>
    case WriteFail(_, _) =>
    case Disarm(_) =>
    case Check(_) =>
    case Timeout(_) =>
    case Wake(_) =>
    case Return(_) =>
  }

  /**
   What a call returns, at runtime or polling.  If its F2 write failed, the code of that, which is not 0.
   Otherwise 0 exactly when a response with its id and without the error flag was delivered to it, and EIO
   exactly when one with that flag was, or when a read of its own poll failed with EIO.  In every case its
   buffer has changed only by the front of a successful GET response delivered to it.
   */
  lemma ReturnMeans(s: State, c: nat)
    requires Inv(s) && Enabled(s, Return(c))
    ensures var call, r := s.calls[c], s.calls[c].pc.result;
      && (r.WriteError? ==> Errno(r) == r.code > 0)
      && (!r.WriteError? ==> (Errno(r) == 0 <==> s.answer.Some? && !s.answer.value.error))
      && (!r.WriteError? ==>
            (Errno(r) == EIO <==> (s.answer.Some? && s.answer.value.error) || r == RecvError(EIO)))
      && (s.answer.Some? ==> s.answer.value.origin % ID_SPACE == call.txn % ID_SPACE)
      && call.txn in s.mem
      && |s.mem[call.txn]| == |call.buf|
      && (forall i :: 0 <= i < |call.buf| ==>
            var copied := call.get && s.answer.Some? && !s.answer.value.error && i < |s.answer.value.payload|;
            s.mem[call.txn][i] == if copied then s.answer.value.payload[i] else call.buf[i])
  {
  }

  predicate Active(s: State, w: Who) {
    match w
    case Caller(c) => c in s.calls && !s.calls[c].pc.Outside?
    case QueueThread => !s.queue.QueueIdle?
  }

  predicate Blocked(s: State, w: Who) {
    match w
    case Caller(c) =>
      (At(s, c, WantIoctl) && s.ioctlOwner.Some?) || (At(s, c, Armed) && s.f2Owner.Some?)
    case QueueThread => (s.queue.RxWant? || s.queue.TxWant?) && s.f2Owner.Some?
  }

  function Holder(s: State, w: Who): Who
    requires Blocked(s, w)
  {
    if w.Caller? && At(s, w.c, WantIoctl) then Caller(s.ioctlOwner.value) else s.f2Owner.value
  }

  // A step the thread itself can take.  A sleeper's is the timeout, at the latest.
  function OwnStep(s: State, w: Who): Action
    requires Active(s, w)
  {
    match w
    case Caller(c) =>
      (match s.calls[c].pc
       case WantIoctl => LockIoctl(c)
       case Began => Choose(c)
       case Runtime => Arm(c)
       case Polling => Poll(c, Etimedout, None)
       case Armed => LockF2(c)
       case Writing => WriteOk(c)
       case WriteFailed(_) => Disarm(c)
       case Sent => Check(c)
       case Asleep => Timeout(c)
       case TimedOut => Wake(c)
       case Signalled => Wake(c)
       case Finishing(_) => Return(c))
    case QueueThread =>
      (match s.queue
       case RxWant => RxLock
       case RxDraining => RxUnlock
       case RxInput => RxDone
       case TxWant => TxLock
       case TxWriting => TxUnlock)
  }

  /**
   No deadlock: a blocked thread waits for a lock whose holder is active and can move, or is itself
   blocked on f2_sx, whose holder can.  ioctl_sx comes before f2_sx and never after it.
   */
  lemma NoDeadlock(s: State, w: Who)
    requires Inv(s) && Active(s, w)
    ensures !Blocked(s, w) ==> Enabled(s, OwnStep(s, w))
    ensures Blocked(s, w) ==>
      var h := Holder(s, w);
      && Active(s, h)
      && (Blocked(s, h) ==>
            && At(s, h.c, Armed) && Active(s, Holder(s, h))
            && !Blocked(s, Holder(s, h)) && Enabled(s, OwnStep(s, Holder(s, h))))
      && ((w.QueueThread? || !At(s, w.c, WantIoctl)) ==> !Blocked(s, h))
  {
    hide Current;
  }

  // How many steps of its own a call inside ioctl_sx has left at most.
  function StepsLeft(pc: Pc): nat {
    match pc
    case Outside => 0
    case WantIoctl => 9
    case Began => 8
    case Runtime => 7
    case Polling => 2
    case Armed => 6
    case Writing => 5
    case WriteFailed(_) => 2
    case Sent => 4
    case Asleep => 3
    case TimedOut => 2
    case Signalled => 2
    case Finishing(_) => 1
  }

  // The steps that the caller's own thread takes.
  function StepOf(a: Action): Option<nat> {
    match a
    case LockIoctl(c) => Some(c)
    case Choose(c) => Some(c)
    case NoCredit(c) => Some(c)
    case Arm(c) => Some(c)
    case LockF2(c) => Some(c)
    case WriteOk(c) => Some(c)
    case WriteFail(c, _) => Some(c)
    case Disarm(c) => Some(c)
    case Check(c) => Some(c)
    case Timeout(c) => Some(c)
    case Wake(c) => Some(c)
    case Poll(c, _, _) => Some(c)
    case Return(c) => Some(c)
    case _ => None
  }

  /**
   A call ends: each step of its own thread brings it closer to its return, and no step of any other
   thread takes it further away.
   */
  lemma CallsEnd(s: State, a: Action, c: nat)
    requires Enabled(s, a) && c in s.calls && !s.calls[c].pc.Outside?
    ensures c in Next(s, a).calls
    ensures StepsLeft(Next(s, a).calls[c].pc) <= StepsLeft(s.calls[c].pc)
    ensures StepOf(a) == Some(c) ==> StepsLeft(Next(s, a).calls[c].pc) < StepsLeft(s.calls[c].pc)
  {
    if StepOf(a) == Some(c) {
      OwnStepShortens(s, a, c);
    } else {
      OtherStepsDoNotLengthen(s, a, c);
    }
  }

  lemma OwnStepShortens(s: State, a: Action, c: nat)
    requires Enabled(s, a) && StepOf(a) == Some(c)
    ensures c in s.calls && c in Next(s, a).calls
    ensures StepsLeft(Next(s, a).calls[c].pc) < StepsLeft(s.calls[c].pc)
  {
    match a
    case Choose(_) =>
    case NoCredit(_) =>
    case Arm(_) =>
    case Check(_) =>
    case Timeout(_) =>
    case Wake(_) =>
    case _ => LockStepShortens(s, a, c);
  }

  lemma LockStepShortens(s: State, a: Action, c: nat)
    requires Enabled(s, a) && StepOf(a) == Some(c)
    requires a.LockIoctl? || a.LockF2? || a.WriteOk? || a.WriteFail? || a.Disarm? || a.Poll? || a.Return?
    ensures c in s.calls && c in Next(s, a).calls
    ensures StepsLeft(Next(s, a).calls[c].pc) < StepsLeft(s.calls[c].pc)
  {
    match a
    case LockIoctl(_) =>
    case LockF2(_) =>
    case WriteOk(_) =>
    case WriteFail(_, _) =>
    case Disarm(_) =>
    case Poll(_, _, _) =>
    case Return(_) =>
  }

  lemma OtherStepsDoNotLengthen(s: State, a: Action, c: nat)
    requires Enabled(s, a) && c in s.calls && !s.calls[c].pc.Outside? && StepOf(a) != Some(c)
    ensures c in Next(s, a).calls
    ensures StepsLeft(Next(s, a).calls[c].pc) <= StepsLeft(s.calls[c].pc)
  {
    hide Next, Enabled, StepsLeft;
    match a
    case Deliver(r) => DeliverHelps(s, r, c);
    case DetachWake => DetachHelps(s, c);
    case _ => OtherStepsKeepCall(s, a, c);
  }

  lemma OtherStepsKeepCall(s: State, a: Action, c: nat)
    requires Enabled(s, a) && c in s.calls && !s.calls[c].pc.Outside? && StepOf(a) != Some(c)
    requires !a.Deliver? && !a.DetachWake?
    ensures c in Next(s, a).calls && Next(s, a).calls[c] == s.calls[c]
  {
    if StepOf(a).Some? {
      assert Next(s, a).calls == s.calls[StepOf(a).value := Next(s, a).calls[StepOf(a).value]];
    }
  }

  lemma DeliverHelps(s: State, r: Response, c: nat)
    requires Enabled(s, Deliver(r)) && c in s.calls
    ensures c in Next(s, Deliver(r)).calls
    ensures StepsLeft(Next(s, Deliver(r)).calls[c].pc) <= StepsLeft(s.calls[c].pc)
  {
    SignalHelps(s, c);
    hide Signal, StepsLeft;
  }

  lemma DetachHelps(s: State, c: nat)
    requires Enabled(s, DetachWake) && c in s.calls
    ensures c in Next(s, DetachWake).calls
    ensures StepsLeft(Next(s, DetachWake).calls[c].pc) <= StepsLeft(s.calls[c].pc)
  {
    SignalHelps(s, c);
    hide Signal, StepsLeft;
  }

  lemma SignalHelps(s: State, c: nat)
    requires c in s.calls
    ensures c in Signal(s).calls && StepsLeft(Signal(s).calls[c].pc) <= StepsLeft(s.calls[c].pc)
  {
  }
}
