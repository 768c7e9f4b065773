/**
 What becomes of a frame that waits in the receive ring while nothing new happens: every schedule of the
 steps that the driver, the callout and the GEM then still take by themselves.
 */
module GemDrain {
  import opened GemIntr

  // The steps taken without a further frame, interrupt, stop or init.
  predicate Own(a: Action) {
    !a.Fill? && !a.Raise? && !a.FilterStray? && !a.FilterRead? && !a.Stop? && !a.Init?
  }

  predicate OwnRun(s: State, run: seq<Action>)
    decreases |run|
  {
    run == [] || (Own(run[0]) && Enabled(s, run[0]) && OwnRun(Next(s, run[0]), run[1..]))
  }

  function EndOf(s: State, run: seq<Action>): State
    requires OwnRun(s, run)
    decreases |run|
  {
    if run == [] then s else EndOf(Next(s, run[0]), run[1..])
  }

  // Something is due to look at INTR_STAT, now or once the filter under way has enqueued the task.
  predicate May(s: State) {
    Serviced(s) || s.filter.Read? || s.filter.Stored?
  }

  // The interrupt task is emptying the ring, or has taken the bit for which it will.
  predicate OnTask(s: State) {
    s.task.Draining? || (s.task.Took? && RxComplete in s.task.ist) || (s.task.Locked? && RxComplete in s.task.ist)
  }

  // RxComplete is on its way to the interrupt task.
  predicate Token(s: State) {
    || OnTask(s)
    || (s.queued && RxComplete in s.pending)
    || (s.poll.Looked? && RxComplete in s.poll.seen)
    || (s.poll.Fired? && RxComplete in s.stat)
  }

  // What it takes for no schedule to lose a waiting frame, by where the filter is.
  predicate Certain(s: State) {
    match s.filter
    case Away => Serviced(s)
    case Enqueued => Token(s)
    case Stored => Token(s) || RxComplete in s.pending
    case Read(ist) => RxComplete in ist || OnTask(s)
  }

  // A bound on the steps until the ring is empty: each own step lowers it as long as a frame waits.
  function Work(s: State): nat {
    s.unlatched + s.filled + 8 * FilterWork(s.filter) + PollWork(s) + TaskWork(s)
  }

  function FilterWork(f: Filter): nat {
    match f
    case Read(_) => 3
    case Stored => 2
    case Enqueued => 1
    case Away => 0
  }

  function PollWork(s: State): nat {
    (if s.armed then 3 else 0) +
    match s.poll
    case NoPoll => 0
    case Fired => 2
    case Looked(seen) => if RxComplete in seen then 1 else if seen == {} then 4 else 8
  }

  function TaskWork(s: State): nat {
    if OnTask(s) then
      match s.task
      case Took(_) => 2
      case Locked(_) => 1
      case _ => 0
    else
      (if s.queued && RxComplete !in s.pending then 7 else 0) +
      match s.task
      case Idle => 3
      case Closing(_) => 7
      case Took(_) => 9
      case _ => 8
  }

  lemma FilterShortens(s: State, a: Action)
    requires Inv(s) && s.running && s.filled > 0 && Enabled(s, a)
    requires a.FilterStore? || a.FilterEnqueue? || a.FilterCancel? || a.Latch?
    ensures Work(Next(s, a)) < Work(s)
  {
  }

  lemma PollShortens(s: State, a: Action)
    requires Inv(s) && s.running && s.filled > 0 && Enabled(s, a)
    requires OfPoll(a)
    requires s.unlatched == 0 || a != PollLook
    ensures Work(Next(s, a)) < Work(s)
  {
    if a.PollLook? {
      assert RxComplete in s.stat * HANDLED;
    }
  }

  lemma TaskShortens(s: State, a: Action)
    requires Inv(s) && s.running && s.filled > 0 && Enabled(s, a) && OfTask(a)
    ensures Work(Next(s, a)) < Work(s)
  {
  }

  lemma OwnStepShortens(s: State, a: Action)
    requires Inv(s) && s.running && s.filled > 0 && Enabled(s, a) && Own(a)
    requires s.unlatched == 0 || a != PollLook
    ensures Work(Next(s, a)) < Work(s)
    ensures Next(s, a).running && Next(s, a).unlatched <= s.unlatched && Next(s, a).filled <= s.filled
  {
    if OfTask(a) {
      TaskShortens(s, a);
    } else if a.FilterStore? || a.FilterEnqueue? || a.FilterCancel? || a.Latch? {
      FilterShortens(s, a);
    } else {
      PollShortens(s, a);
    }
    hide Work;
  }

  /**
   No schedule goes on for ever without emptying the ring: once the GEM has latched the waiting frames,
   a run of own steps that leaves one of them waiting is shorter than the work there was.
   */
  lemma {:induction false} OwnRunsEnd(s: State, run: seq<Action>)
    requires Inv(s) && s.running && s.unlatched == 0 && OwnRun(s, run) && EndOf(s, run).filled > 0
    ensures |run| <= Work(s)
    ensures Inv(EndOf(s, run)) && EndOf(s, run).running && EndOf(s, run).unlatched == 0
    decreases |run|
  {
    hide Work, Inv, Next, Enabled;
    if run != [] {
      Emptied(s, run);
      OwnStepShortens(s, run[0]);
      StepKeeps(s, run[0]);
      OwnRunsEnd(Next(s, run[0]), run[1..]);
    }
  }

  // An empty ring stays empty.
  lemma {:induction false} Emptied(s: State, run: seq<Action>)
    requires OwnRun(s, run)
    ensures EndOf(s, run).filled <= s.filled
    decreases |run|
  {
    if run != [] {
      Emptied(Next(s, run[0]), run[1..]);
    }
  }

  // A step that brings the next look at the ring nearer and leaves the filter where it is.
  function Service(s: State): Action
    requires s.unlatched > 0 || Serviced(s)
  {
    if s.unlatched > 0 then Latch
    else if s.poll.Looked? then (if s.poll.seen != {} then PollQueue else PollRearm)
    else match s.task
      case Took(_) => if s.running then TaskLock else TaskAbort
      case Locked(_) => TaskAck
      case Draining(_) => if s.filled > 0 then TaskPop else TaskDrained
      case Delivering(_) => TaskRelock
      case Closing(_) => TaskFinish
      case Idle =>
        if s.queued then TaskStart
        else if s.poll.NoPoll? then PollFire
        else if s.running then PollLook
        else PollQuit
  }

  lemma ServiceServes(s: State)
    requires Inv(s) && s.running && s.filled > 0 && Serviced(s)
    ensures Enabled(s, Service(s)) && Own(Service(s)) && Serviced(Next(s, Service(s)))
    ensures s.unlatched == 0 || Service(s) != PollLook
  {
  }

  function Onward(s: State): Action
    requires May(s)
  {
    if Serviced(s) then Service(s) else if s.filter.Read? then FilterStore else FilterEnqueue
  }

  lemma OnwardMay(s: State)
    requires Inv(s) && s.running && s.filled > 0 && May(s)
    ensures Enabled(s, Onward(s)) && Own(Onward(s)) && May(Next(s, Onward(s)))
    ensures s.unlatched == 0 || Onward(s) != PollLook
  {
    if Serviced(s) {
      ServiceServes(s);
      hide Enabled;
    }
  }

  lemma {:induction false} Drains(s: State) returns (run: seq<Action>)
    requires Inv(s) && s.running && May(s)
    ensures OwnRun(s, run) && EndOf(s, run).filled == 0
    decreases Work(s)
  {
    hide Work, Inv, Next, Enabled, May, Onward;
    run := [];
    if s.filled > 0 {
      var a := Onward(s);
      OnwardMay(s);
      OwnStepShortens(s, a);
      StepKeeps(s, a);
      var rest := Drains(Next(s, a));
      run := [a] + rest;
      assert run[1..] == rest;
    }
  }

  lemma {:induction false} NothingDue(s: State, run: seq<Action>)
    requires !May(s) && OwnRun(s, run)
    ensures EndOf(s, run).filled == s.filled && !May(EndOf(s, run))
    decreases |run|
  {
    if run != [] {
      NothingDueStep(s, run[0]);
      NothingDue(Next(s, run[0]), run[1..]);
    }
  }

  lemma NothingDueStep(s: State, a: Action)
    requires !May(s) && Own(a) && Enabled(s, a)
    ensures Next(s, a).filled == s.filled && !May(Next(s, a))
  {
  }

  // Some schedule empties the ring exactly if something is due to look at it.
  lemma DrainPossible(s: State)
    requires Inv(s) && s.running && s.filled > 0
    ensures (exists run :: OwnRun(s, run) && EndOf(s, run).filled == 0) <==> May(s)
  {
    hide OwnRun, EndOf, May, Inv;
    if May(s) {
      var run := Drains(s);
      assert OwnRun(s, run);
    } else {
      forall run | OwnRun(s, run) ensures EndOf(s, run).filled > 0 {
        NothingDue(s, run);
      }
    }
  }

  lemma CertainMay(s: State)
    requires Inv(s) && s.running && Certain(s)
    ensures May(s)
  {
  }

  lemma CertainTask(s: State, a: Action)
    requires Inv(s) && s.running && s.filled > 0 && Certain(s) && Enabled(s, a) && OfTask(a)
    ensures Next(s, a).filled > 0 ==> Certain(Next(s, a))
  {
  }

  lemma CertainOther(s: State, a: Action)
    requires Inv(s) && s.running && s.filled > 0 && Certain(s) && Enabled(s, a) && Own(a) && !OfTask(a)
    ensures Certain(Next(s, a))
  {
    if a.PollLook? && RxComplete in s.stat {
      assert RxComplete in s.stat * HANDLED;
    }
  }

  lemma {:induction false} CertainStays(s: State, run: seq<Action>)
    requires Inv(s) && s.running && Certain(s) && OwnRun(s, run) && EndOf(s, run).filled > 0
    ensures var t := EndOf(s, run); Inv(t) && t.running && Certain(t)
    decreases |run|
  {
    hide Inv, Certain, Next, Enabled;
    if run != [] {
      Emptied(s, run);
      Emptied(Next(s, run[0]), run[1..]);
      StepKeeps(s, run[0]);
      KeepsRunning(s, run[0]);
      if OfTask(run[0]) {
        CertainTask(s, run[0]);
      } else {
        CertainOther(s, run[0]);
      }
      CertainStays(Next(s, run[0]), run[1..]);
    }
  }

  lemma KeepsRunning(s: State, a: Action)
    requires Own(a) && Enabled(s, a)
    ensures Next(s, a).running == s.running
  {
  }

  // The schedule that loses a waiting frame where one does: poll and task go first, the filter's steps come
  // in between as late as they can.
  function Spoiler(s: State): Action
    requires May(s) && !Certain(s)
  {
    if s.filter.Stored? then FilterEnqueue
    else if s.poll.Looked? then (if s.poll.seen != {} then PollQueue else PollRearm)
    else if s.poll.Fired? then (if TaskHolds(s) then Ahead(s) else PollLook)
    else if s.filter.Read? then FilterStore
    else if s.task.Idle? && !s.queued then FilterCancel
    else Ahead(s)
  }

  // The task's next step.
  function Ahead(s: State): Action {
    match s.task
    case Idle => TaskStart
    case Took(_) => TaskLock
    case Locked(_) => TaskAck
    case Draining(_) => TaskPop
    case Delivering(_) => TaskRelock
    case Closing(_) => TaskFinish
  }

  function TaskLeft(t: Task): nat {
    match t
    case Idle => 0
    case Closing(_) => 1
    case Delivering(_) => 2
    case Draining(_) => 3
    case Locked(_) => 4
    case Took(_) => 5
  }

  function PollLeft(p: Poll): nat {
    match p
    case NoPoll => 0
    case Looked(_) => 1
    case Fired => 2
  }

  // How much of that schedule is left.
  function Ranked(s: State): nat {
    40 * FilterWork(s.filter) + 13 * PollLeft(s.poll) + (if s.queued then 6 else 0) + TaskLeft(s.task)
  }

  lemma SpoilsByTask(s: State)
    requires Inv(s) && s.running && s.filled > 0 && May(s) && !Certain(s) && OfTask(Spoiler(s))
    ensures Enabled(s, Spoiler(s)) && Own(Spoiler(s))
    ensures var t := Next(s, Spoiler(s)); !Certain(t) && t.filled > 0 && t.running && Ranked(t) < Ranked(s)
  {
  }

  lemma SpoilsOtherwise(s: State)
    requires Inv(s) && s.running && s.filled > 0 && May(s) && !Certain(s) && !OfTask(Spoiler(s))
    ensures Enabled(s, Spoiler(s)) && Own(Spoiler(s))
    ensures var t := Next(s, Spoiler(s)); !Certain(t) && t.filled > 0 && t.running && Ranked(t) < Ranked(s)
  {
  }

  lemma Spoils(s: State)
    requires Inv(s) && s.running && s.filled > 0 && May(s) && !Certain(s)
    ensures Enabled(s, Spoiler(s)) && Own(Spoiler(s))
    ensures var t := Next(s, Spoiler(s)); !Certain(t) && t.filled > 0 && t.running && Ranked(t) < Ranked(s)
  {
    hide Inv, Next, Enabled, May, Certain, Spoiler, Ranked;
    if OfTask(Spoiler(s)) {
      SpoilsByTask(s);
    } else {
      SpoilsOtherwise(s);
    }
  }

  lemma {:induction false} Spoiled(s: State) returns (run: seq<Action>)
    requires Inv(s) && s.running && s.filled > 0 && !Certain(s)
    ensures OwnRun(s, run) && EndOf(s, run).filled > 0 && !May(EndOf(s, run))
    decreases Ranked(s)
  {
    hide Inv, Next, Enabled, May, Certain, Spoiler, Ranked;
    run := [];
    if May(s) {
      var a := Spoiler(s);
      Spoils(s);
      StepKeeps(s, a);
      var rest := Spoiled(Next(s, a));
      run := [a] + rest;
      assert run[1..] == rest;
    }
  }

  // A schedule that neither empties the ring nor ends where something is due to look at it.
  ghost predicate Loses(s: State, run: seq<Action>) {
    OwnRun(s, run) && EndOf(s, run).filled > 0 && !May(EndOf(s, run))
  }

  /**
   No schedule strands a waiting frame exactly in these states: whatever the order of the filter's, the
   poll's and the task's remaining steps, the ring gets empty or something stays due to look at it.
   */
  lemma DrainCertain(s: State)
    requires Inv(s) && s.running && s.filled > 0
    ensures (forall run :: !Loses(s, run)) <==> Certain(s)
  {
    hide Inv, Certain, May, OwnRun, EndOf;
    if Certain(s) {
      forall run ensures !Loses(s, run) {
        NotLost(s, run);
      }
    } else {
      var run := Spoiled(s);
      assert Loses(s, run);
    }
  }

  lemma NotLost(s: State, run: seq<Action>)
    requires Inv(s) && s.running && Certain(s)
    ensures !Loses(s, run)
  {
    hide Inv, Certain, May;
    if OwnRun(s, run) && EndOf(s, run).filled > 0 {
      CertainStays(s, run);
      CertainMay(EndOf(s, run));
    }
  }

  /**
   From such a state every schedule empties the ring: once the GEM has latched the waiting frames, a run of
   own steps that leaves one of them waiting can be continued, but not beyond the work there was.
   */
  lemma EveryScheduleDrains(s: State, run: seq<Action>)
    requires Inv(s) && s.running && s.unlatched == 0 && Certain(s) && OwnRun(s, run)
    ensures var t := EndOf(s, run);
      t.filled == 0 || (|run| <= Work(s) && exists a :: Own(a) && Enabled(t, a))
  {
    hide Inv, Certain, May, Work, Enabled, Onward;
    if EndOf(s, run).filled > 0 {
      OwnRunsEnd(s, run);
      CertainStays(s, run);
      CertainMay(EndOf(s, run));
      OnwardMay(EndOf(s, run));
    }
  }

  // A history after which it depends on the schedule: a frame comes in behind the filter's enqueue for
  // another source, and the task may end before the filter's callout_stop.
  lemma MayBeLost() returns (h: seq<Action>)
    ensures h == [Init, Raise(TxUsedRead), FilterRead, FilterStore, FilterEnqueue] + [Fill, Latch] && Possible(h)
    ensures var s := After(h); s.running && s.filled == 1 && May(s) && !Certain(s)
  {
    hide After, Possible;
    h := FirstFilter();
    h := Extend(h, Fill);
    h := Extend(h, Latch);
  }
}
