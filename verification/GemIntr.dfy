/**
 How the Ethernet driver learns of received frames: the interrupt filter, the interrupt task and the
 5 ms poll, interleaved with the GEM and with stop and init.  The interrupt status register is
 write-1-to-clear; the interrupt task and the poll hold the lock sc_mtx between their lock and unlock
 steps, the filter never takes it.
 */
module GemIntr {
  datatype Bit = RxComplete | TxUsedRead | HrespNotOk | RxUsedRead | RxOverrun | OtherBit(n: nat)

  // The sources the driver enables, and the ones the poll looks at.
  const HANDLED: set<Bit> := {RxComplete, TxUsedRead, HrespNotOk, RxUsedRead, RxOverrun}

  // Where the interrupt task is; ist is what it read from intr_pending.
  datatype Task =
    | Idle
    | Took(ist: set<Bit>)
    | Locked(ist: set<Bit>)
    | Draining(ist: set<Bit>)
    | Delivering(ist: set<Bit>)
    | Closing(ist: set<Bit>)

  // Where the filter is: after its read of INTR_STAT, its store to intr_pending, its enqueue.
  datatype Filter =
    | Away
    | Read(ist: set<Bit>)
    | Stored
    | Enqueued

  // Where the poll is: started and waiting for the lock, or past its read of INTR_STAT under the lock.
  datatype Poll =
    | NoPoll
    | Fired
    | Looked(seen: set<Bit>)

  datatype State = State(
    running: bool,
    filled: nat,           // frames waiting in the receive ring
    unlatched: nat,        // frames written to the ring whose status bit the GEM has yet to set
    stat: set<Bit>,        // INTR_STAT
    pending: set<Bit>,     // intr_pending
    queued: bool,          // intr_task is enqueued
    task: Task,
    armed: bool,           // the gem_poll callout is scheduled
    poll: Poll,
    filter: Filter,
    primed: bool           // a task has completed since the interface came up
  )

  datatype Action =
    | Fill | Latch | Raise(b: Bit)
    | FilterStray | FilterRead | FilterStore | FilterEnqueue | FilterCancel
    | PollFire | PollLook | PollQueue | PollRearm | PollQuit
    | TaskStart | TaskLock | TaskAbort | TaskAck | TaskPop | TaskDrained | TaskRelock | TaskFinish
    | Stop | Init

  predicate TaskHolds(s: State) {
    s.task.Locked? || s.task.Draining? || s.task.Closing?
  }

  predicate LockHeld(s: State) {
    TaskHolds(s) || s.poll.Looked?
  }

  predicate Enabled(s: State, a: Action) {
    match a
    case Fill => s.running
    case Latch => s.unlatched > 0
    case Raise(b) => true
    case FilterStray => s.filter.Away? && s.stat == {}
    case FilterRead => s.filter.Away? && s.stat != {}
    case FilterStore => s.filter.Read?
    case FilterEnqueue => s.filter.Stored?
    case FilterCancel => s.filter.Enqueued?
    case PollFire => s.armed && s.poll.NoPoll?
    case PollLook => s.poll.Fired? && !LockHeld(s) && s.running
    case PollQueue => s.poll.Looked? && s.poll.seen != {}
    case PollRearm => s.poll.Looked? && s.poll.seen == {}
    case PollQuit => s.poll.Fired? && !LockHeld(s) && !s.running
    case TaskStart => s.queued && s.task.Idle?
    case TaskLock => s.task.Took? && !LockHeld(s) && s.running
    case TaskAbort => s.task.Took? && !LockHeld(s) && !s.running
    case TaskAck => s.task.Locked?
    case TaskPop => s.task.Draining? && s.filled > 0
    case TaskDrained => s.task.Draining? && s.filled == 0
    case TaskRelock => s.task.Delivering? && !LockHeld(s)
    case TaskFinish => s.task.Closing?
    case Stop => !LockHeld(s)
    case Init => !LockHeld(s) && !s.running
  }

  function Next(s: State, a: Action): State
    requires Enabled(s, a)
  {
    match a
    case Fill => s.(filled := s.filled + 1, unlatched := s.unlatched + 1)
    case Latch => s.(unlatched := s.unlatched - 1, stat := s.stat + {RxComplete})
    case Raise(b) => s.(stat := s.stat + {b})
    case FilterStray => s
    case FilterRead => s.(filter := Read(s.stat))
    case FilterStore => s.(pending := s.filter.ist, filter := Stored)
    case FilterEnqueue => s.(queued := true, filter := Enqueued)
    case FilterCancel => s.(armed := false, filter := Away)
    case PollFire => s.(armed := false, poll := Fired)
    case PollLook => s.(poll := Looked(s.stat * HANDLED))
    case PollQueue => s.(poll := NoPoll, pending := s.pending + s.poll.seen, queued := true)
    case PollRearm => s.(poll := NoPoll, armed := true)
    case PollQuit => s.(poll := NoPoll)
    case TaskStart => s.(queued := false, pending := {}, task := Took(s.pending))
    case TaskLock => s.(task := Locked(s.task.ist))
    case TaskAbort => s.(task := Idle)
    case TaskAck =>
      s.(stat := s.stat - s.task.ist,
         task := if RxComplete in s.task.ist then Draining(s.task.ist) else Closing(s.task.ist))
    case TaskPop => s.(filled := s.filled - 1)
    case TaskDrained => s.(task := Delivering(s.task.ist))
    case TaskRelock => s.(task := Closing(s.task.ist))
    case TaskFinish => s.(task := Idle, armed := true, primed := s.running)
    case Stop =>
      s.(running := false, primed := false, armed := false, filled := 0, unlatched := 0)
    case Init => s.(running := true)
  }

  const ATTACHED := State(false, 0, 0, {}, {}, false, Idle, false, NoPoll, Away, false)

  // A history that can happen from attach on, and the state it leads to.
  predicate Possible(h: seq<Action>)
    decreases |h|, 0
  {
    h == [] || (Possible(h[..|h| - 1]) && Enabled(After(h[..|h| - 1]), h[|h| - 1]))
  }

  function After(h: seq<Action>): State
    requires Possible(h)
    decreases |h|, 1
  {
    if h == [] then ATTACHED else Next(After(h[..|h| - 1]), h[|h| - 1])
  }

  // A waiting frame is announced in INTR_STAT, or about to be, or intr_task is draining the ring.
  predicate Announced(s: State) {
    s.filled > 0 ==> RxComplete in s.stat || s.unlatched > 0 || s.task.Draining?
  }

  // Something will look at INTR_STAT again without a further interrupt.
  predicate Serviced(s: State) {
    s.queued || !s.task.Idle? || s.armed || !s.poll.NoPoll?
  }

  ghost predicate Inv(s: State) {
    && Announced(s)
    && (s.primed ==> s.running)
    && (!s.running ==> s.filled == 0 && s.unlatched == 0)
    && (s.task.Locked? || s.task.Draining? || s.poll.Looked? ==> s.running)
    && !(TaskHolds(s) && s.poll.Looked?)
    && (s.pending != {} ==> s.queued || s.filter.Stored?)
  }

  predicate OfTask(a: Action) {
    a.TaskStart? || a.TaskLock? || a.TaskAbort? || a.TaskAck? || a.TaskPop? || a.TaskDrained? || a.TaskRelock?
    || a.TaskFinish?
  }

  lemma TaskStepKeeps(s: State, a: Action)
    requires Inv(s) && Enabled(s, a) && OfTask(a)
    ensures Inv(Next(s, a))
  {
  }

  predicate OfPoll(a: Action) {
    a.PollFire? || a.PollLook? || a.PollQueue? || a.PollRearm? || a.PollQuit?
  }

  lemma PollStepKeeps(s: State, a: Action)
    requires Inv(s) && Enabled(s, a) && OfPoll(a)
    ensures Inv(Next(s, a))
  {
  }

  lemma OtherStepKeeps(s: State, a: Action)
    requires Inv(s) && Enabled(s, a) && !OfTask(a) && !OfPoll(a)
    ensures Inv(Next(s, a))
  {
  }

  lemma StepKeeps(s: State, a: Action)
    requires Inv(s) && Enabled(s, a)
    ensures Inv(Next(s, a))
  {
    hide Inv, Enabled, Next;
    if OfTask(a) {
      TaskStepKeeps(s, a);
    } else if OfPoll(a) {
      PollStepKeeps(s, a);
    } else {
      OtherStepKeeps(s, a);
    }
  }

  /**
   In every interleaving from attach on, no waiting frame goes unannounced: its status bit is set, or
   about to be, or the interrupt task is emptying the ring.
   */
  lemma {:induction false} AlwaysAnnounced(h: seq<Action>)
    requires Possible(h)
    ensures Inv(After(h))
    ensures var s := After(h); s.filled > 0 ==> RxComplete in s.stat || s.unlatched > 0 || s.task.Draining?
  {
    if h != [] {
      var before := h[..|h| - 1];
      AlwaysAnnounced(before);
      StepKeeps(After(before), h[|h| - 1]);
    }
  }

  // Where an action last happened in a history, or -1.
  function Last(h: seq<Action>, a: Action): (i: int)
    ensures -1 <= i < |h|
  {
    if h == [] then -1
    else if h[|h| - 1] == a then |h| - 1
    else Last(h[..|h| - 1], a)
  }

  lemma {:induction false} LastMeans(h: seq<Action>, a: Action)
    ensures Last(h, a) >= 0 ==> h[Last(h, a)] == a
    ensures forall k :: Last(h, a) < k < |h| ==> h[k] != a
  {
    if h != [] && h[|h| - 1] != a {
      LastMeans(h[..|h| - 1], a);
    }
  }

  lemma LastDiffer(h: seq<Action>, a: Action, b: Action)
    requires a != b
    ensures Last(h, a) != Last(h, b) || Last(h, a) == Last(h, b) == -1
  {
    LastMeans(h, a);
    LastMeans(h, b);
  }

  lemma TaskFlags(s: State, a: Action)
    requires Enabled(s, a)
    ensures var t := Next(s, a);
      && (t.queued <==> a == FilterEnqueue || a == PollQueue || (s.queued && a != TaskStart))
      && (t.task.Idle? <==> a == TaskFinish || a == TaskAbort || (s.task.Idle? && a != TaskStart))
  {
  }

  lemma CalloutFlags(s: State, a: Action)
    requires Enabled(s, a)
    ensures var t := Next(s, a);
      && (t.armed <==> a == TaskFinish || a == PollRearm || (s.armed && !a.FilterCancel? && !a.PollFire? && !a.Stop?))
      && (t.poll.NoPoll? <==> a == PollQueue || a == PollRearm || a == PollQuit || (s.poll.NoPoll? && a != PollFire))
  {
  }

  lemma FilterFlags(s: State, a: Action)
    requires Enabled(s, a)
    ensures Next(s, a).filter.Enqueued? <==> a == FilterEnqueue || (s.filter.Enqueued? && a != FilterCancel)
    ensures a == FilterCancel ==> s.filter.Enqueued?
  {
  }

  // What one step does to the flags.
  lemma FlagsStep(s: State, a: Action)
    requires Enabled(s, a)
    ensures var t := Next(s, a);
      && (t.queued <==> a == FilterEnqueue || a == PollQueue || (s.queued && a != TaskStart))
      && (t.task.Idle? <==> a == TaskFinish || a == TaskAbort || (s.task.Idle? && a != TaskStart))
      && (t.armed <==> a == TaskFinish || a == PollRearm || (s.armed && !a.FilterCancel? && !a.PollFire? && !a.Stop?))
      && (t.poll.NoPoll? <==> a == PollQueue || a == PollRearm || a == PollQuit || (s.poll.NoPoll? && a != PollFire))
      && (t.filter.Enqueued? <==> a == FilterEnqueue || (s.filter.Enqueued? && a != FilterCancel))
      && (a == FilterCancel ==> s.filter.Enqueued?)
  {
    TaskFlags(s, a);
    CalloutFlags(s, a);
    FilterFlags(s, a);
    hide Next, Enabled;
  }

  lemma {:induction false} QueuedTells(h: seq<Action>)
    requires Possible(h)
    ensures var start := Last(h, TaskStart);
      After(h).queued <==> start < Last(h, FilterEnqueue) || start < Last(h, PollQueue)
  {
    hide Next, Enabled;
    if h != [] {
      QueuedTells(h[..|h| - 1]);
      FlagsStep(After(h[..|h| - 1]), h[|h| - 1]);
    }
  }

  lemma {:induction false} IdleTells(h: seq<Action>)
    requires Possible(h)
    ensures var start := Last(h, TaskStart);
      After(h).task.Idle? <==> start <= Last(h, TaskFinish) || start <= Last(h, TaskAbort)
  {
    hide Next, Enabled;
    if h != [] {
      IdleTells(h[..|h| - 1]);
      FlagsStep(After(h[..|h| - 1]), h[|h| - 1]);
    }
  }

  // The latest of the steps that disarm the callout.
  ghost predicate DisarmedBy(h: seq<Action>, i: int) {
    i <= Last(h, FilterCancel) || i <= Last(h, PollFire) || i <= Last(h, Stop)
  }

  lemma {:induction false} ArmedTells(h: seq<Action>)
    requires Possible(h)
    ensures After(h).armed <==> !DisarmedBy(h, Last(h, TaskFinish)) || !DisarmedBy(h, Last(h, PollRearm))
  {
    hide Next, Enabled;
    if h != [] {
      ArmedTells(h[..|h| - 1]);
      FlagsStep(After(h[..|h| - 1]), h[|h| - 1]);
    }
  }

  // The callout started last and has not come to its end.
  ghost predicate PollUnderWay(h: seq<Action>) {
    var p := Last(h, PollFire);
    Last(h, PollQueue) < p && Last(h, PollRearm) < p && Last(h, PollQuit) < p
  }

  lemma {:induction false} PollTells(h: seq<Action>)
    requires Possible(h)
    ensures !After(h).poll.NoPoll? <==> PollUnderWay(h)
  {
    hide Next, Enabled;
    if h != [] {
      PollTells(h[..|h| - 1]);
      FlagsStep(After(h[..|h| - 1]), h[|h| - 1]);
    }
  }

  lemma {:induction false} FilterTells(h: seq<Action>)
    requires Possible(h)
    ensures After(h).filter.Enqueued? <==> Last(h, FilterCancel) < Last(h, FilterEnqueue)
    ensures Last(h, FilterCancel) >= 0 ==> Last(h, FilterEnqueue) >= 0
  {
    hide Next, Enabled;
    if h != [] {
      FilterTells(h[..|h| - 1]);
      FlagsStep(After(h[..|h| - 1]), h[|h| - 1]);
    }
  }

  lemma PrimedStep(s: State, a: Action)
    requires Enabled(s, a) && (s.primed ==> s.running)
    ensures var t := Next(s, a);
      t.primed ==> t.running && (a == TaskFinish || (s.primed && a != Stop && a != TaskAbort && a != PollQuit))
  {
  }

  lemma {:induction false} PrimedTells(h: seq<Action>)
    requires Possible(h)
    ensures After(h).primed ==> After(h).running
    ensures After(h).primed ==>
      var f := Last(h, TaskFinish); Last(h, Stop) < f && Last(h, TaskAbort) < f && Last(h, PollQuit) < f
  {
    hide Next, Enabled;
    if h != [] {
      PrimedTells(h[..|h| - 1]);
      PrimedStep(After(h[..|h| - 1]), h[|h| - 1]);
    }
  }

  // The step sets this bit of INTR_STAT.
  predicate Sets(a: Action, b: Bit) {
    a == Raise(b) || (a == Latch && b == RxComplete)
  }

  // What the acknowledge does to INTR_STAT: none of the bits the task took is left, and all others are.
  lemma AckClears(s: State)
    requires Enabled(s, TaskAck)
    ensures Next(s, TaskAck).stat !! s.task.ist
    ensures s.stat <= Next(s, TaskAck).stat + s.task.ist && Next(s, TaskAck).stat <= s.stat
  {
  }

  lemma StatStep(s: State, a: Action, b: Bit)
    requires Enabled(s, a)
    ensures b in Next(s, a).stat <==> Sets(a, b) || (b in s.stat && !(a == TaskAck && b in s.task.ist))
  {
    hide Enabled, LockHeld;
    match a
    case TaskAck =>
    case Raise(_) =>
    case Latch =>
    case _ => assert Next(s, a).stat == s.stat;
  }

  lemma PendingStep(s: State, a: Action, b: Bit)
    requires Enabled(s, a)
    ensures b in Next(s, a).pending <==>
      || (a == FilterStore && b in s.filter.ist) || (a == PollQueue && b in s.poll.seen)
      || (b in s.pending && a != FilterStore && a != TaskStart)
  {
  }

  // What is read is what is there, and is kept until it is used.
  lemma ReadsStep(s: State, a: Action)
    requires Enabled(s, a)
    ensures var t := Next(s, a);
      && (a == TaskStart ==> t.task == Took(s.pending))
      && (!t.task.Idle? && a != TaskStart ==> !s.task.Idle? && t.task.ist == s.task.ist)
      && (a == FilterRead ==> t.filter == Read(s.stat))
      && (t.filter.Read? && a != FilterRead ==> t.filter == s.filter)
      && (a == PollLook ==> t.poll.Looked? && forall b :: b in t.poll.seen <==> b in s.stat && !b.OtherBit?)
      && (t.poll.Looked? && a != PollLook ==> t.poll == s.poll)
  {
  }

  // What the task last started took from intr_pending, and what the filter and the poll last read.
  ghost function TakenBy(h: seq<Action>): set<Bit> {
    var i := Last(h, TaskStart);
    if i >= 0 && Possible(h[..i]) then After(h[..i]).pending else {}
  }

  ghost function SeenByFilter(h: seq<Action>): set<Bit> {
    var i := Last(h, FilterRead);
    if i >= 0 && Possible(h[..i]) then After(h[..i]).stat else {}
  }

  ghost function SeenByPoll(h: seq<Action>): set<Bit> {
    var i := Last(h, PollLook);
    if i >= 0 && Possible(h[..i]) then set b | b in After(h[..i]).stat && !b.OtherBit? else {}
  }

  lemma {:induction false} ReadsTell(h: seq<Action>)
    requires Possible(h)
    ensures var s := After(h);
      && (!s.task.Idle? ==> s.task.ist == TakenBy(h))
      && (s.filter.Read? ==> s.filter.ist == SeenByFilter(h))
      && (s.poll.Looked? ==> s.poll.seen == SeenByPoll(h))
  {
    hide Next, Enabled;
    if h != [] {
      var before, a := h[..|h| - 1], h[|h| - 1];
      ReadsTell(before);
      ReadsStep(After(before), a);
      SamePrefix(h, TaskStart);
      SamePrefix(h, FilterRead);
      SamePrefix(h, PollLook);
    }
  }

  lemma SamePrefix(h: seq<Action>, a: Action)
    requires h != []
    ensures var before := h[..|h| - 1];
      if h[|h| - 1] == a then h[..Last(h, a)] == before
      else Last(h, a) == Last(before, a) && (Last(h, a) >= 0 ==> h[..Last(h, a)] == before[..Last(h, a)])
  {
  }

  // A step at i set the bit, and no task that had taken it has acknowledged it since.
  ghost predicate SetSince(h: seq<Action>, i: nat, b: Bit) {
    i < |h| && Sets(h[i], b) && forall j :: i < j < |h| && h[j] == TaskAck ==> b !in TakenBy(h[..j])
  }

  /**
   What INTR_STAT holds after any history: exactly the bits that were set after the last acknowledge by a
   task that had taken them.
   */
  lemma {:induction false} StatTells(h: seq<Action>, b: Bit)
    requires Possible(h)
    ensures b in After(h).stat <==> exists i :: SetSince(h, i, b)
  {
    hide Next, Enabled, TakenBy, Last;
    if h != [] {
      var before, n := h[..|h| - 1], |h| - 1;
      StatTells(before, b);
      StatStep(After(before), h[n], b);
      ReadsTell(before);
      AckTaken(After(before), h[n]);
      forall i | 0 <= i < n
        ensures SetSince(h, i, b) <==> SetSince(before, i, b) && !(h[n] == TaskAck && b in TakenBy(before))
      {
        SetStill(h, i, b);
      }
      assert SetSince(h, n, b) <==> Sets(h[n], b);
    }
  }

  lemma SetStill(h: seq<Action>, i: nat, b: Bit)
    requires i + 1 < |h|
    ensures var before, n := h[..|h| - 1], |h| - 1;
      SetSince(h, i, b) <==> SetSince(before, i, b) && !(h[n] == TaskAck && b in TakenBy(before))
  {
    hide TakenBy;
    var before, n := h[..|h| - 1], |h| - 1;
    forall j | 0 <= j < n ensures h[..j] == before[..j] && h[j] == before[j] {
    }
    assert h[..n] == before;
  }

  lemma AckTaken(s: State, a: Action)
    requires Enabled(s, a)
    ensures a == TaskAck ==> s.task.Locked?
    ensures a == FilterStore ==> s.filter.Read?
    ensures a == PollQueue ==> s.poll.Looked?
  {
  }

  // The filter's store at i, or the poll's, brought this bit.
  ghost predicate Brings(h: seq<Action>, i: nat, b: Bit) {
    i < |h| && ((h[i] == FilterStore && b in SeenByFilter(h[..i])) || (h[i] == PollQueue && b in SeenByPoll(h[..i])))
  }

  /**
   What intr_pending holds after any history: exactly what the last store of the filter and the polls from
   then on brought, if no task has started since.
   */
  lemma {:induction false} PendingTells(h: seq<Action>, b: Bit)
    requires Possible(h)
    ensures b in After(h).pending <==>
      exists i :: Last(h, TaskStart) < i && Last(h, FilterStore) <= i && Brings(h, i, b)
  {
    hide Next, Enabled, SeenByFilter, SeenByPoll;
    if h != [] {
      var before, n := h[..|h| - 1], |h| - 1;
      PendingTells(before, b);
      PendingStep(After(before), h[n], b);
      ReadsTell(before);
      AckTaken(After(before), h[n]);
      assert h[..n] == before;
      assert Brings(h, n, b) <==>
        (h[n] == FilterStore && b in SeenByFilter(before)) || (h[n] == PollQueue && b in SeenByPoll(before));
      forall i | 0 <= i < n ensures Brings(h, i, b) <==> Brings(before, i, b) {
        assert h[..i] == before[..i];
      }
    }
  }

  // How often an action happened.
  function Count(h: seq<Action>, a: Action): nat {
    if h == [] then 0 else Count(h[..|h| - 1], a) + (if h[|h| - 1] == a then 1 else 0)
  }

  function SinceStop(h: seq<Action>): seq<Action> {
    h[Last(h, Stop) + 1..]
  }

  lemma CountsStep(s: State, a: Action)
    requires Enabled(s, a)
    ensures var t := Next(s, a);
      && (a == Stop ==> t.filled == t.unlatched == 0 && !t.running && !t.primed)
      && (a != Stop ==>
            && t.filled == s.filled + (if a == Fill then 1 else 0) - (if a == TaskPop then 1 else 0)
            && t.unlatched == s.unlatched + (if a == Fill then 1 else 0) - (if a == Latch then 1 else 0)
            && (t.running <==> s.running || a == Init)
            && (t.primed <==> if a == TaskFinish then s.running else s.primed))
      && (a == Init ==> !s.running)
  {
    RingStep(s, a);
    UpStep(s, a);
    hide Next, Enabled;
  }

  lemma RingStep(s: State, a: Action)
    requires Enabled(s, a)
    ensures var t := Next(s, a);
      && (a == Stop ==> t.filled == t.unlatched == 0)
      && (a != Stop ==>
            && t.filled == s.filled + (if a == Fill then 1 else 0) - (if a == TaskPop then 1 else 0)
            && t.unlatched == s.unlatched + (if a == Fill then 1 else 0) - (if a == Latch then 1 else 0))
  {
  }

  lemma UpStep(s: State, a: Action)
    requires Enabled(s, a)
    ensures var t := Next(s, a);
      && (t.running <==> a != Stop && (s.running || a == Init))
      && (t.primed <==> a != Stop && if a == TaskFinish then s.running else s.primed)
    ensures a == Init ==> !s.running
  {
  }

  lemma CountSinceStop(h: seq<Action>, a: Action)
    requires h != []
    ensures Count(SinceStop(h), a) ==
      if h[|h| - 1] == Stop then 0 else Count(SinceStop(h[..|h| - 1]), a) + (if h[|h| - 1] == a then 1 else 0)
  {
    var before := h[..|h| - 1];
    if h[|h| - 1] != Stop {
      assert Last(h, Stop) == Last(before, Stop);
      var since := SinceStop(h);
      assert since[..|since| - 1] == SinceStop(before) && since[|since| - 1] == h[|h| - 1];
    }
  }

  // How many more of the one there were than of the other since the interface last went down.
  function Excess(h: seq<Action>, a: Action, b: Action): int {
    Count(SinceStop(h), a) - Count(SinceStop(h), b)
  }

  lemma NoExcess(a: Action, b: Action)
    ensures Excess([], a, b) == 0
  {
    assert SinceStop([]) == [];
  }

  lemma ExcessNext(h: seq<Action>, a: Action, b: Action)
    requires h != []
    ensures var last := h[|h| - 1];
      Excess(h, a, b) == if last == Stop then 0
        else Excess(h[..|h| - 1], a, b) + (if last == a then 1 else 0) - (if last == b then 1 else 0)
  {
    CountSinceStop(h, a);
    CountSinceStop(h, b);
    hide Count, SinceStop;
  }

  /**
   What is in the ring after any history, since the interface last went down: a frame for every Fill less
   those the task has popped, and of these as many unannounced as there were fewer latches than fills.
   */
  lemma {:induction false} RingTells(h: seq<Action>)
    requires Possible(h)
    ensures After(h).filled == Excess(h, Fill, TaskPop) && After(h).unlatched == Excess(h, Fill, Latch)
  {
    hide Next, Enabled, Excess;
    if h == [] {
      NoExcess(Fill, TaskPop);
      NoExcess(Fill, Latch);
    } else {
      RingTells(h[..|h| - 1]);
      RingStep(After(h[..|h| - 1]), h[|h| - 1]);
      ExcessNext(h, Fill, TaskPop);
      ExcessNext(h, Fill, Latch);
    }
  }

  // The interface is up from an init to the next stop, and primed from the first task completed while it is up.
  lemma {:induction false} UpTells(h: seq<Action>)
    requires Possible(h)
    ensures After(h).running <==> Last(h, Stop) < Last(h, Init)
    ensures After(h).primed <==> Last(h, Stop) < Last(h, Init) < Last(h, TaskFinish)
  {
    hide Next, Enabled;
    if h != [] {
      UpTells(h[..|h| - 1]);
      CountsStep(After(h[..|h| - 1]), h[|h| - 1]);
    }
  }

  lemma PointStep(s: State, a: Action)
    requires Enabled(s, a)
    ensures var k := Next(s, a).task;
      && (k.Took? <==> a == TaskStart || (s.task.Took? && a != TaskLock && a != TaskAbort))
      && (k.Locked? <==> a == TaskLock || (s.task.Locked? && a != TaskAck))
      && (k.Draining? <==> (a == TaskAck && RxComplete in s.task.ist) || (s.task.Draining? && a != TaskDrained))
      && (k.Delivering? <==> a == TaskDrained || (s.task.Delivering? && a != TaskRelock))
    ensures a == TaskDrained ==> s.task.Draining?
    ensures a == TaskLock ==> s.task.Took?
  {
  }

  // Where the task is after any history.  While it hands over the frames it does not hold the lock.
  lemma {:induction false} TaskTells(h: seq<Action>)
    requires Possible(h)
    ensures var k, start, ack := After(h).task, Last(h, TaskStart), Last(h, TaskAck);
      && (k.Took? <==> Last(h, TaskLock) < start && Last(h, TaskAbort) < start)
      && (k.Locked? <==> start < Last(h, TaskLock) && ack < Last(h, TaskLock))
      && (k.Draining? <==> start < ack && Last(h, TaskDrained) < ack && RxComplete in TakenBy(h))
      && (k.Delivering? <==> Last(h, TaskRelock) < Last(h, TaskDrained))
  {
    hide Next, Enabled, TakenBy;
    if h != [] {
      var before, a := h[..|h| - 1], h[|h| - 1];
      TaskTells(before);
      PointStep(After(before), a);
      ReadsTell(before);
      AckTaken(After(before), a);
      if a != TaskStart {
        TakenStill(h);
      }
      hide After, Possible;
    }
  }

  lemma TakenStill(h: seq<Action>)
    requires h != [] && h[|h| - 1] != TaskStart
    ensures TakenBy(h) == TakenBy(h[..|h| - 1])
  {
    SamePrefix(h, TaskStart);
    hide After, Possible, Last;
  }

  predicate OfFilter(a: Action) {
    a.FilterStray? || a.FilterRead? || a.FilterStore? || a.FilterEnqueue? || a.FilterCancel?
  }

  /**
   Who can move, and that none of them has a choice: the task unless it waits for the lock that the poll
   holds, the poll unless it waits for the lock that the task holds, and the filter always.
   */
  lemma TaskMoves(s: State)
    requires Inv(s)
    ensures forall a, b :: OfTask(a) && OfTask(b) && Enabled(s, a) && Enabled(s, b) ==> a == b
    ensures (exists a :: OfTask(a) && Enabled(s, a)) <==>
      if s.task.Idle? then s.queued else s.poll.Looked? ==> !s.task.Took? && !s.task.Delivering?
  {
    match s.task
    case Idle => assert s.queued ==> Enabled(s, TaskStart);
    case Took(_) => assert s.poll.Looked? || Enabled(s, if s.running then TaskLock else TaskAbort);
    case Locked(_) => assert Enabled(s, TaskAck);
    case Draining(_) => assert Enabled(s, if s.filled > 0 then TaskPop else TaskDrained);
    case Delivering(_) => assert s.poll.Looked? || Enabled(s, TaskRelock);
    case Closing(_) => assert Enabled(s, TaskFinish);
  }

  lemma PollMoves(s: State)
    requires Inv(s)
    ensures forall a, b :: OfPoll(a) && OfPoll(b) && Enabled(s, a) && Enabled(s, b) ==> a == b
    ensures (exists a :: OfPoll(a) && Enabled(s, a)) <==>
      match s.poll
      case NoPoll => s.armed
      case Fired => !s.task.Locked? && !s.task.Draining? && !s.task.Closing?
      case Looked(_) => true
  {
    match s.poll
    case NoPoll => assert s.armed ==> Enabled(s, PollFire);
    case Fired => assert LockHeld(s) || Enabled(s, if s.running then PollLook else PollQuit);
    case Looked(seen) => assert Enabled(s, if seen == {} then PollRearm else PollQueue);
  }

  lemma FilterMoves(s: State)
    ensures forall a, b :: OfFilter(a) && OfFilter(b) && Enabled(s, a) && Enabled(s, b) ==> a == b
    ensures exists a :: OfFilter(a) && Enabled(s, a)
  {
    match s.filter
    case Away => assert Enabled(s, if s.stat == {} then FilterStray else FilterRead);
    case Read(_) => assert Enabled(s, FilterStore);
    case Stored => assert Enabled(s, FilterEnqueue);
    case Enqueued => assert Enabled(s, FilterCancel);
  }

  // What the GEM can do, and when stop and init get the lock.
  lemma OthersMove(s: State, b: Bit)
    ensures Enabled(s, Raise(b))
    ensures Enabled(s, Fill) <==> s.running
    ensures Enabled(s, Latch) <==> s.unlatched > 0
    ensures Enabled(s, Stop) <==> !s.poll.Looked? && (s.task.Idle? || s.task.Took? || s.task.Delivering?)
    ensures Enabled(s, Init) <==> Enabled(s, Stop) && !s.running
  {
  }

  /**
   The filter's callout_stop has come after the very task that the filter enqueued ran to its end, and
   no poll has queued the task, armed the callout or started since.
   */
  ghost predicate Silenced(h: seq<Action>) {
    var enqueue, start := Last(h, FilterEnqueue), Last(h, TaskStart);
    var finish, cancel := Last(h, TaskFinish), Last(h, FilterCancel);
    && 0 <= enqueue < start < finish < cancel
    && Last(h, PollQueue) < start
    && Last(h, PollRearm) < cancel
    && !PollUnderWay(h)
  }

  lemma SilencedIsSilent(h: seq<Action>)
    requires Possible(h) && Silenced(h)
    ensures !Serviced(After(h))
  {
    hide After, Possible, Last;
    QueuedTells(h);
    IdleTells(h);
    ArmedTells(h);
    PollTells(h);
    assert DisarmedBy(h, Last(h, TaskFinish)) && DisarmedBy(h, Last(h, PollRearm));
  }

  lemma SilentIsSilenced(h: seq<Action>)
    requires Possible(h) && After(h).primed && !Serviced(After(h))
    ensures Silenced(h)
  {
    hide After, Possible, Last;
    QueuedTells(h);
    IdleTells(h);
    ArmedTells(h);
    PollTells(h);
    FilterTells(h);
    PrimedTells(h);
    LastDiffer(h, FilterEnqueue, TaskStart);
    LastDiffer(h, PollQueue, TaskStart);
    LastDiffer(h, TaskStart, TaskFinish);
    LastDiffer(h, TaskFinish, FilterCancel);
    LastDiffer(h, PollRearm, FilterCancel);
    LastDiffer(h, PollRearm, PollFire);
    assert Last(h, TaskStart) < Last(h, TaskFinish) < Last(h, FilterCancel);
  }

  /**
   When the driver goes silent: once a task has completed, and until stop, nothing is due to look at
   INTR_STAT again exactly after such a callout_stop.
   */
  lemma SilentExactly(h: seq<Action>)
    requires Possible(h) && After(h).primed
    ensures !Serviced(After(h)) <==> Silenced(h)
  {
    hide After, Possible, Last;
    if Silenced(h) {
      SilencedIsSilent(h);
    } else if !Serviced(After(h)) {
      SilentIsSilenced(h);
    }
  }

  /**
   Nothing is queued, running, armed or polling, told by what happened last: the task was queued no later
   than it last started and has since ended, every arming of the callout has been undone, and no poll is
   under way.
   */
  ghost predicate Quiet(h: seq<Action>) {
    var start := Last(h, TaskStart);
    && Last(h, FilterEnqueue) <= start && Last(h, PollQueue) <= start
    && (start <= Last(h, TaskFinish) || start <= Last(h, TaskAbort))
    && DisarmedBy(h, Last(h, TaskFinish)) && DisarmedBy(h, Last(h, PollRearm))
    && !PollUnderWay(h)
  }

  // The same over all histories, up, down or before any task: nothing is due exactly if it is quiet.
  lemma QuietExactly(h: seq<Action>)
    requires Possible(h)
    ensures !Serviced(After(h)) <==> Quiet(h)
  {
    hide After, Possible, Last, DisarmedBy, PollUnderWay;
    QueuedTells(h);
    IdleTells(h);
    ArmedTells(h);
    PollTells(h);
  }

  /**
   Until the interrupt task first starts, nothing arms the poll, and something is due to look at INTR_STAT
   exactly if the filter has enqueued the task, whether the interface is up or not.
   */
  lemma {:induction false} BeforeFirstTask(h: seq<Action>)
    requires Possible(h) && TaskStart !in h
    ensures Serviced(After(h)) <==> FilterEnqueue in h
    ensures var s := After(h); s.task.Idle? && !s.armed && s.poll.NoPoll?
  {
    hide Next, Enabled;
    if h != [] {
      var before, a := h[..|h| - 1], h[|h| - 1];
      assert h == before + [a];
      BeforeFirstTask(before);
      FlagsStep(After(before), a);
      StartsFromPoll(After(before), a);
    }
  }

  // What has to be under way for the poll or the task to take a step.
  lemma StartsFromPoll(s: State, a: Action)
    requires Enabled(s, a)
    ensures a == PollFire ==> s.armed
    ensures a == PollQueue || a == PollRearm ==> !s.poll.NoPoll?
    ensures a == TaskFinish ==> !s.task.Idle?
  {
  }

  // The filter's enqueue at i is directly followed by its callout_stop, unless it is the last step so far.
  ghost predicate CancelFollows(h: seq<Action>, i: nat) {
    i + 1 < |h| ==> h[i + 1] == FilterCancel
  }

  lemma {:induction false} PossiblePrefix(h: seq<Action>, n: nat)
    requires Possible(h) && n <= |h|
    ensures Possible(h[..n])
  {
    if n < |h| {
      PossiblePrefix(h[..|h| - 1], n);
      assert h[..|h| - 1][..n] == h[..n];
    } else {
      assert h[..n] == h;
    }
  }

  lemma PossibleStep(h: seq<Action>, n: nat)
    requires Possible(h) && n < |h|
    ensures Possible(h[..n]) && Enabled(After(h[..n]), h[n])
  {
    PossiblePrefix(h, n + 1);
    PossiblePrefix(h, n);
    assert h[..n + 1][..n] == h[..n] && h[..n + 1][n] == h[n];
  }

  /**
   Were the filter's enqueue and callout_stop one step, the driver would never go silent: from the first
   completed task until stop, something is due to look at INTR_STAT again.
   */
  lemma AtomicFilterNeverSilent(h: seq<Action>)
    requires Possible(h) && After(h).primed
    requires forall i :: 0 <= i < |h| && h[i] == FilterEnqueue ==> CancelFollows(h, i)
    ensures Serviced(After(h))
  {
    hide After, Possible, Last;
    SilentExactly(h);
    if Silenced(h) {
      var enqueue, cancel := Last(h, FilterEnqueue), Last(h, FilterCancel);
      LastMeans(h, FilterEnqueue);
      LastMeans(h, FilterCancel);
      assert CancelFollows(h, enqueue);
      PossibleStep(h, cancel);
      LastMeans(h[..cancel], FilterEnqueue);
      LastMeans(h[..cancel], FilterCancel);
      FilterTells(h[..cancel]);
    }
  }

  lemma Extend(h: seq<Action>, a: Action) returns (h': seq<Action>)
    requires Possible(h) && Enabled(After(h), a)
    ensures h' == h + [a] && Possible(h') && After(h') == Next(After(h), a)
  {
    h' := h + [a];
    assert h'[..|h|] == h;
  }

  lemma FirstTask() returns (h: seq<Action>)
    ensures h == [Init, Raise(TxUsedRead), FilterRead, FilterStore, FilterEnqueue, TaskStart, TaskLock]
      + [TaskAck, TaskFinish]
    ensures Possible(h)
    ensures After(h) == ATTACHED.(running := true, filter := Enqueued, armed := true, primed := true)
  {
    hide After, Possible;
    h := FirstFilter();
    h := Extend(h, TaskStart);
    h := Extend(h, TaskLock);
    h := Extend(h, TaskAck);
    assert After(h).stat == {};
    h := Extend(h, TaskFinish);
  }

  lemma FirstFilter() returns (h: seq<Action>)
    ensures h == [Init, Raise(TxUsedRead), FilterRead, FilterStore, FilterEnqueue]
    ensures Possible(h)
    ensures After(h) == ATTACHED.(running := true, stat := {TxUsedRead}, pending := {TxUsedRead}, queued := true,
                                  filter := Enqueued)
  {
    h := FirstRaise();
    hide After, Possible;
    h := Extend(h, FilterRead);
    h := Extend(h, FilterStore);
    h := Extend(h, FilterEnqueue);
  }

  lemma FirstRaise() returns (h: seq<Action>)
    ensures h == [Init, Raise(TxUsedRead)]
    ensures Possible(h) && After(h) == ATTACHED.(running := true, stat := {TxUsedRead})
  {
    assert Possible([]) && After([]) == ATTACHED;
    hide After, Possible;
    h := Extend([], Init);
    h := Extend(h, Raise(TxUsedRead));
    assert After(h).stat == {TxUsedRead};
  }

  // Such a run: the interrupt task that the filter queued arms the poll before the filter cancels it, and
  // then a frame comes in.
  lemma CancelCanRace() returns (h: seq<Action>)
    ensures h == [Init, Raise(TxUsedRead), FilterRead, FilterStore, FilterEnqueue, TaskStart, TaskLock]
      + [TaskAck, TaskFinish] + [FilterCancel, Fill]
    ensures Possible(h)
    ensures var s := After(h); s.primed && s.filled == 1 && !Serviced(s)
  {
    hide After, Possible;
    h := FirstTask();
    h := Extend(h, FilterCancel);
    h := Extend(h, Fill);
  }

  // Such a run: init does not arm the poll, and a frame comes in before any interrupt.
  lemma SilentBeforeFirstTask() returns (h: seq<Action>)
    ensures h == [Init, Fill] && Possible(h)
    ensures var s := After(h); s.running && s.filled == 1 && !s.primed && !Serviced(s)
  {
    h := Extend([], Init);
    h := Extend(h, Fill);
  }
}
