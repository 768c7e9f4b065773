/**
 What a firmware call returns, told by the steps of its history alone: the events since it took ioctl_sx,
 in every interleaving with other callers, the receive and transmit tasks and detach.
 */
module FwilCalls {
  import opened Fwil
  import opened FwilPoll
  import opened Options

  // A history that can happen from the end of attach on: each step could be taken where it was.
  predicate Happens(n: nat, h: seq<Action>) {
    h == [] || (Happens(n, h[..|h| - 1]) && Enabled(Run(Attached(n), h[..|h| - 1]), h[|h| - 1]))
  }

  lemma HappensStep(n: nat, h: seq<Action>)
    requires h != [] && Happens(n, h)
    ensures var before, a := h[..|h| - 1], h[|h| - 1];
      && Happens(n, before) && Inv(Run(Attached(n), before)) && Enabled(Run(Attached(n), before), a)
      && Run(Attached(n), h) == Next(Run(Attached(n), before), a)
  {
    var before, a := h[..|h| - 1], h[|h| - 1];
    RunAppend(Attached(n), before, a);
    RunKeeps(Attached(n), before);
    assert h == before + [a];
    hide Inv, Next, Enabled, Run;
  }

  lemma Extend(n: nat, h: seq<Action>, a: Action) returns (h': seq<Action>)
    requires Happens(n, h) && Enabled(Run(Attached(n), h), a)
    ensures h' == h + [a] && Happens(n, h') && Run(Attached(n), h') == Next(Run(Attached(n), h), a)
  {
    h' := h + [a];
    assert h'[..|h|] == h;
    RunAppend(Attached(n), h, a);
  }

  // The steps since the call last took ioctl_sx.
  function Since(h: seq<Action>, c: nat): seq<Action> {
    if h == [] || h[|h| - 1] == LockIoctl(c) then [] else Since(h[..|h| - 1], c) + [h[|h| - 1]]
  }

  // After these steps of its transaction, the call is armed and has not yet given up waiting, and this step
  // brings it a response or its end.
  predicate Settling(since: seq<Action>, a: Action, c: nat, txn: nat) {
    && Arm(c) in since && Wake(c) !in since
    && (a.DetachWake? || (a.Deliver? && SameId(a.response.origin, txn)))
  }

  // What the first such step settled, or ETIMEDOUT if there was none.
  function Settled(since: seq<Action>, c: nat, txn: nat): Result {
    if since == [] then Etimedout
    else
      var before, a := since[..|since| - 1], since[|since| - 1];
      var r := Settled(before, c, txn);
      if r != Etimedout || !Settling(before, a, c, txn) then r
      else if a.DetachWake? then Enxio
      else if a.response.error then Eio
      else Success
  }

  lemma SettledNext(since: seq<Action>, a: Action, c: nat, txn: nat)
    ensures Settled(since + [a], c, txn) ==
      var r := Settled(since, c, txn);
      if r != Etimedout || !Settling(since, a, c, txn) then r
      else if a.DetachWake? then Enxio
      else if a.response.error then Eio
      else Success
  {
    assert (since + [a])[..|since|] == since;
  }

  lemma {:induction false} UnarmedUnsettled(since: seq<Action>, c: nat, txn: nat)
    requires Arm(c) !in since
    ensures Settled(since, c, txn) == Etimedout
  {
    if since != [] {
      UnarmedUnsettled(since[..|since| - 1], c, txn);
    }
  }

  ghost predicate WriteFailedIn(since: seq<Action>, c: nat) {
    exists code :: WriteFail(c, code) in since
  }

  ghost predicate PolledIn(since: seq<Action>, c: nat) {
    exists result, answer :: Poll(c, result, answer) in since
  }

  /**
   What a call returns: ENOBUFS if it found no credit, the code of its F2 write if that failed, what it
   settled for if it was armed, and otherwise what its own poll ended with.
   */
  ghost predicate Returns(since: seq<Action>, c: nat, txn: nat, result: Result) {
    if NoCredit(c) in since then Errno(result) == ENOBUFS
    else if WriteFailedIn(since, c) then forall code :: WriteFail(c, code) in since ==> Errno(result) == code
    else if Arm(c) in since then result == Settled(since, c, txn)
    else exists answer :: Poll(c, result, answer) in since
  }

  predicate Unsent(since: seq<Action>, c: nat) {
    WriteOk(c) !in since && Check(c) !in since && Timeout(c) !in since
  }

  // The call has come as far as its program point says.
  ghost predicate Come(pc: Pc, since: seq<Action>, c: nat) {
    match pc
    case Armed => Arm(c) in since && Unsent(since, c)
    case Writing => Arm(c) in since && Unsent(since, c)
    case WriteFailed(code) => Arm(c) in since && forall k :: WriteFail(c, k) in since <==> k == code
    case Sent => Arm(c) in since && WriteOk(c) in since && Check(c) !in since && Timeout(c) !in since
    case Asleep => Arm(c) in since && Check(c) in since && Timeout(c) !in since
    case TimedOut => Arm(c) in since && Timeout(c) in since
    case Signalled => Arm(c) in since && Check(c) in since && Timeout(c) !in since
    case Finishing(_) => true
    case _ => Arm(c) !in since && Unsent(since, c)
  }

  ghost predicate Undecided(since: seq<Action>, c: nat) {
    && NoCredit(c) !in since && Wake(c) !in since
    && !WriteFailedIn(since, c) && !PolledIn(since, c)
  }

  // What the state says of the transaction of the holder of ioctl_sx, and what its history does.
  ghost predicate Story(s: State, since: seq<Action>, c: nat) {
    && s.ioctlOwner == Some(c) && c in s.calls
    && var call := s.calls[c];
       var r := Settled(since, c, call.txn);
       && Come(call.pc, since, c)
       && (InFlight(call.pc) || call.pc.Signalled? ==> s.result == r && (s.waiting <==> r == Etimedout))
       && (!call.pc.Finishing? && !call.pc.WriteFailed? ==> Undecided(since, c))
       && (call.pc.WriteFailed? ==> NoCredit(c) !in since && Wake(c) !in since)
       && (call.pc.Finishing? ==>
             && Returns(since, c, call.txn, call.pc.result)
             && (Arm(c) in since ==> Wake(c) in since || WriteFailedIn(since, c) || r != Etimedout))
  }

  // A step other than a failed write or a poll of the call leaves the story where it was, but for itself.
  lemma Unfailed(since: seq<Action>, a: Action, c: nat)
    requires !a.WriteFail? && !a.Poll?
    ensures WriteFailedIn(since + [a], c) <==> WriteFailedIn(since, c)
    ensures PolledIn(since + [a], c) <==> PolledIn(since, c)
  {
    if WriteFailedIn(since, c) {
      var code :| WriteFail(c, code) in since;
      assert WriteFail(c, code) in since + [a];
    }
    if PolledIn(since, c) {
      var result, answer :| Poll(c, result, answer) in since;
      assert Poll(c, result, answer) in since + [a];
    }
  }

  lemma Begins(s: State, c: nat)
    requires Inv(s) && Enabled(s, LockIoctl(c))
    ensures Story(Next(s, LockIoctl(c)), [], c)
  {
  }

  lemma ChooseGoes(s: State, since: seq<Action>, c: nat)
    requires Inv(s) && Story(s, since, c) && Enabled(s, Choose(c))
    ensures Story(Next(s, Choose(c)), since + [Choose(c)], c)
  {
    SettledNext(since, Choose(c), c, s.calls[c].txn);
    Unfailed(since, Choose(c), c);
    hide Inv, Settled, WriteFailedIn, PolledIn, Returns;
  }

  lemma NoCreditGoes(s: State, since: seq<Action>, c: nat)
    requires Inv(s) && Story(s, since, c) && Enabled(s, NoCredit(c))
    ensures Story(Next(s, NoCredit(c)), since + [NoCredit(c)], c)
  {
    SettledNext(since, NoCredit(c), c, s.calls[c].txn);
    Unfailed(since, NoCredit(c), c);
    hide Inv, Settled, WriteFailedIn, PolledIn;
  }

  lemma ArmSettlesNothing(since: seq<Action>, c: nat, txn: nat)
    requires Arm(c) !in since
    ensures Settled(since + [Arm(c)], c, txn) == Etimedout
  {
    UnarmedUnsettled(since, c, txn);
    SettledNext(since, Arm(c), c, txn);
    hide Settled;
  }

  lemma ArmGoes(s: State, since: seq<Action>, c: nat)
    requires Inv(s) && Story(s, since, c) && Enabled(s, Arm(c))
    ensures Story(Next(s, Arm(c)), since + [Arm(c)], c)
  {
    hide Inv, Settled, WriteFailedIn, PolledIn, Returns;
    assert Arm(c) !in since;
    ArmSettlesNothing(since, c, s.calls[c].txn);
    Unfailed(since, Arm(c), c);
  }

  lemma LockF2Goes(s: State, since: seq<Action>, c: nat)
    requires Inv(s) && Story(s, since, c) && Enabled(s, LockF2(c))
    ensures Story(Next(s, LockF2(c)), since + [LockF2(c)], c)
  {
    SettledNext(since, LockF2(c), c, s.calls[c].txn);
    Unfailed(since, LockF2(c), c);
    hide Inv, Settled, WriteFailedIn, PolledIn, Returns;
  }

  lemma WriteOkGoes(s: State, since: seq<Action>, c: nat)
    requires Inv(s) && Story(s, since, c) && Enabled(s, WriteOk(c))
    ensures Story(Next(s, WriteOk(c)), since + [WriteOk(c)], c)
  {
    SettledNext(since, WriteOk(c), c, s.calls[c].txn);
    Unfailed(since, WriteOk(c), c);
    hide Inv, Settled, WriteFailedIn, PolledIn, Returns;
  }

  lemma DisarmGoes(s: State, since: seq<Action>, c: nat)
    requires Inv(s) && Story(s, since, c) && Enabled(s, Disarm(c))
    ensures Story(Next(s, Disarm(c)), since + [Disarm(c)], c)
  {
    SettledNext(since, Disarm(c), c, s.calls[c].txn);
    Unfailed(since, Disarm(c), c);
    assert WriteFail(c, s.calls[c].pc.code) in since;
    hide Locks, Settled, PolledIn;
  }

  lemma CheckGoes(s: State, since: seq<Action>, c: nat)
    requires Inv(s) && Story(s, since, c) && Enabled(s, Check(c))
    ensures Story(Next(s, Check(c)), since + [Check(c)], c)
  {
    SettledNext(since, Check(c), c, s.calls[c].txn);
    Unfailed(since, Check(c), c);
    hide Locks, Settled, WriteFailedIn, PolledIn;
  }

  lemma TimeoutGoes(s: State, since: seq<Action>, c: nat)
    requires Inv(s) && Story(s, since, c) && Enabled(s, Timeout(c))
    ensures Story(Next(s, Timeout(c)), since + [Timeout(c)], c)
  {
    SettledNext(since, Timeout(c), c, s.calls[c].txn);
    Unfailed(since, Timeout(c), c);
    hide Inv, Settled, WriteFailedIn, PolledIn, Returns;
  }

  lemma WakeGoes(s: State, since: seq<Action>, c: nat)
    requires Inv(s) && Story(s, since, c) && Enabled(s, Wake(c))
    ensures Story(Next(s, Wake(c)), since + [Wake(c)], c)
  {
    SettledNext(since, Wake(c), c, s.calls[c].txn);
    Unfailed(since, Wake(c), c);
    hide Locks, Settled, WriteFailedIn, PolledIn;
  }

  lemma WriteFailGoes(s: State, since: seq<Action>, c: nat, code: WriteCode)
    requires Inv(s) && Story(s, since, c) && Enabled(s, WriteFail(c, code))
    ensures Story(Next(s, WriteFail(c, code)), since + [WriteFail(c, code)], c)
  {
    SettledNext(since, WriteFail(c, code), c, s.calls[c].txn);
    hide Locks, Settled, PolledIn;
  }

  lemma PollGoes(s: State, since: seq<Action>, c: nat, result: Result, answer: Option<Response>)
    requires Inv(s) && Story(s, since, c) && Enabled(s, Poll(c, result, answer))
    ensures Story(Next(s, Poll(c, result, answer)), since + [Poll(c, result, answer)], c)
  {
    SettledNext(since, Poll(c, result, answer), c, s.calls[c].txn);
    hide Locks, Settled;
  }

  // A step that is not the caller's own leaves how far it has come.
  lemma StillCome(pc: Pc, since: seq<Action>, a: Action, c: nat)
    requires StepOf(a) != Some(c)
    ensures Come(pc, since + [a], c) <==> Come(pc, since, c)
    ensures Undecided(since + [a], c) <==> Undecided(since, c)
    ensures WriteFailedIn(since + [a], c) <==> WriteFailedIn(since, c)
  {
    if WriteFailedIn(since, c) {
      var code :| WriteFail(c, code) in since;
      assert WriteFail(c, code) in since + [a];
    }
    if PolledIn(since, c) {
      var result, answer :| Poll(c, result, answer) in since;
      assert Poll(c, result, answer) in since + [a];
    }
  }

  lemma StillReturns(since: seq<Action>, a: Action, c: nat, txn: nat, result: Result)
    requires StepOf(a) != Some(c) && Returns(since, c, txn, result)
    requires Arm(c) in since ==> WriteFailedIn(since, c) || Settled(since + [a], c, txn) == Settled(since, c, txn)
    ensures Returns(since + [a], c, txn, result)
  {
    StillCome(Outside, since, a, c);
    hide Settled;
    if !(NoCredit(c) in since) && !WriteFailedIn(since, c) && !(Arm(c) in since) {
      var answer :| Poll(c, result, answer) in since;
      assert Poll(c, result, answer) in since + [a];
    }
  }

  // Such a step that leaves the call, the result and the waiting flag leaves the story.
  lemma Unmoved(s: State, t: State, since: seq<Action>, a: Action, c: nat)
    requires Story(s, since, c) && StepOf(a) != Some(c)
    requires t.ioctlOwner == s.ioctlOwner && c in t.calls && t.calls[c] == s.calls[c]
    requires t.waiting == s.waiting && t.result == s.result
    requires var r, r' := Settled(since, c, s.calls[c].txn), Settled(since + [a], c, s.calls[c].txn);
      r == r' || (s.calls[c].pc.Finishing? && WriteFailedIn(since, c))
    ensures Story(t, since + [a], c)
  {
    var call := s.calls[c];
    StillCome(call.pc, since, a, c);
    if call.pc.Finishing? {
      StillReturns(since, a, c, call.txn, call.pc.result);
    }
    hide Settled, Come, Undecided, Returns, WriteFailedIn;
  }

  // Such a step that settles the call and wakes it if it sleeps carries the story on.
  lemma Moved(s: State, t: State, since: seq<Action>, a: Action, c: nat)
    requires Story(s, since, c) && StepOf(a) != Some(c) && InFlight(s.calls[c].pc)
    requires t.ioctlOwner == s.ioctlOwner && c in t.calls && !t.waiting
    requires t.calls[c] == s.calls[c].(pc := if s.calls[c].pc.Asleep? then Signalled else s.calls[c].pc)
    requires t.result == Settled(since + [a], c, s.calls[c].txn) != Etimedout
    ensures Story(t, since + [a], c)
  {
    StillCome(s.calls[c].pc, since, a, c);
    StillCome(Signalled, since, a, c);
    hide Settled, Undecided, Returns, WriteFailedIn;
  }

  // A call that does not wait is settled, has failed to write, has given up, or was never armed.
  lemma NotWaiting(s: State, since: seq<Action>, a: Action, c: nat)
    requires Story(s, since, c) && (s.waiting ==> InFlight(s.calls[c].pc))
    requires !s.waiting || !Settling(since, a, c, s.calls[c].txn)
    ensures var r, r' := Settled(since, c, s.calls[c].txn), Settled(since + [a], c, s.calls[c].txn);
      r == r' || (s.calls[c].pc.Finishing? && WriteFailedIn(since, c))
  {
    SettledNext(since, a, c, s.calls[c].txn);
    hide Settled, Undecided, Returns, WriteFailedIn;
  }

  // What a call that waits knows.
  lemma Waits(s: State, since: seq<Action>, c: nat)
    requires Inv(s) && Story(s, since, c)
    ensures s.waiting ==>
      var call := s.calls[c];
      && InFlight(call.pc) && call.txn == s.txns && Arm(c) in since && Wake(c) !in since
      && Settled(since, c, call.txn) == Etimedout
  {
    hide Locks, Settled, WriteFailedIn, PolledIn, Returns;
  }

  lemma DeliverGoes(s: State, since: seq<Action>, c: nat, r: Response)
    requires Inv(s) && Story(s, since, c) && Enabled(s, Deliver(r))
    ensures Story(Next(s, Deliver(r)), since + [Deliver(r)], c)
  {
    DeliverMeans(s, r);
    LateResponse(s, r);
    Waits(s, since, c);
    WaitsFor(s);
    hide Inv, Story, Next, Enabled, Receives;
    if Accepts(s, r) {
      SettledNext(since, Deliver(r), c, s.calls[c].txn);
      Moved(s, Next(s, Deliver(r)), since, Deliver(r), c);
    } else {
      NotWaiting(s, since, Deliver(r), c);
      Unmoved(s, s, since, Deliver(r), c);
    }
  }

  lemma WaitsFor(s: State)
    requires Inv(s)
    ensures s.waiting ==> s.waitId == s.txns % ID_SPACE
  {
  }

  lemma DetachWakeGoes(s: State, since: seq<Action>, c: nat)
    requires Inv(s) && Story(s, since, c) && Enabled(s, DetachWake)
    ensures Story(Next(s, DetachWake), since + [DetachWake], c)
  {
    AbandonMeans(s);
    Waits(s, since, c);
    hide Inv, Story, Next, Enabled;
    if s.waiting {
      SettledNext(since, DetachWake, c, s.calls[c].txn);
      Moved(s, Next(s, DetachWake), since, DetachWake, c);
    } else {
      NotWaiting(s, since, DetachWake, c);
      Unmoved(s, Next(s, DetachWake), since, DetachWake, c);
    }
  }

  // Inside ioctl_sx only its holder takes a step of its own.
  lemma OnlyHolderSteps(s: State, a: Action, c: nat)
    requires Inv(s) && Enabled(s, a) && s.ioctlOwner == Some(c) && c in s.calls && StepOf(a) != Some(c)
    ensures StepOf(a) == None && InSection(s.calls[c].pc)
  {
    assert forall d :: d in s.calls && d != c ==> !InSection(s.calls[d].pc);
    hide Current, Locks;
  }

  lemma TasksKeep(s: State, a: Action)
    requires Enabled(s, a) && StepOf(a) == None && !a.Deliver? && !a.DetachWake?
    ensures var t := Next(s, a); t.ioctlOwner == s.ioctlOwner && t.waiting == s.waiting && t.result == s.result
  {
    hide Enabled, Signal, At, Accepts, Delivered, Abandoned;
  }

  lemma OthersKeep(s: State, a: Action, c: nat)
    requires Inv(s) && Enabled(s, a) && s.ioctlOwner == Some(c) && c in s.calls
    requires StepOf(a) != Some(c) && !a.Deliver? && !a.DetachWake?
    ensures var t := Next(s, a);
      t.ioctlOwner == Some(c) && t.waiting == s.waiting && t.result == s.result
    ensures !s.calls[c].pc.Outside? && StepOf(a) == None
  {
    OnlyHolderSteps(s, a, c);
    hide Inv, Next, Enabled;
    TasksKeep(s, a);
  }

  lemma OthersGo(s: State, since: seq<Action>, a: Action, c: nat)
    requires Inv(s) && Story(s, since, c) && Enabled(s, a)
    requires StepOf(a) != Some(c) && !a.Deliver? && !a.DetachWake?
    ensures Story(Next(s, a), since + [a], c)
  {
    OthersKeep(s, a, c);
    OtherStepsKeepCall(s, a, c);
    SettledNext(since, a, c, s.calls[c].txn);
    hide Inv, Story, Next, Enabled, Settled;
    Unmoved(s, Next(s, a), since, a, c);
  }

  lemma StoryGoes(s: State, since: seq<Action>, a: Action, c: nat)
    requires Inv(s) && Story(s, since, c) && Enabled(s, a) && a != Return(c) && a != LockIoctl(c)
    ensures Story(Next(s, a), since + [a], c)
  {
    hide Inv, Story, Next, Enabled;
    if a.Deliver? {
      DeliverGoes(s, since, c, a.response);
    } else if a.DetachWake? {
      DetachWakeGoes(s, since, c);
    } else if StepOf(a) != Some(c) {
      OthersGo(s, since, a, c);
    } else {
      match a
      case Choose(_) => ChooseGoes(s, since, c);
      case NoCredit(_) => NoCreditGoes(s, since, c);
      case Arm(_) => ArmGoes(s, since, c);
      case LockF2(_) => LockF2Goes(s, since, c);
      case WriteOk(_) => WriteOkGoes(s, since, c);
      case WriteFail(_, code) => WriteFailGoes(s, since, c, code);
      case Disarm(_) => DisarmGoes(s, since, c);
      case Check(_) => CheckGoes(s, since, c);
      case Timeout(_) => TimeoutGoes(s, since, c);
      case Wake(_) => WakeGoes(s, since, c);
      case Poll(_, result, answer) => PollGoes(s, since, c, result, answer);
    }
  }

  // Who holds ioctl_sx.
  lemma OwnerStep(s: State, a: Action, c: nat)
    requires Inv(s) && Enabled(s, a)
    ensures Next(s, a).ioctlOwner == Some(c) <==> a == LockIoctl(c) || (s.ioctlOwner == Some(c) && a != Return(c))
    ensures a == LockIoctl(c) ==> s.ioctlOwner == None
  {
    hide Inv, Enabled;
    if a.Return? {
      HoldsAtReturn(s, a.c);
    } else if a.LockIoctl? {
      FreeAtLock(s, a.c);
    } else {
      SignalOnly(s);
      hide Signal, SetPc, At;
    }
  }

  lemma FreeAtLock(s: State, c: nat)
    requires Enabled(s, LockIoctl(c))
    ensures s.ioctlOwner == None
  {
  }

  lemma {:induction false} StoryTold(n: nat, h: seq<Action>, c: nat)
    requires Happens(n, h) && Run(Attached(n), h).ioctlOwner == Some(c)
    ensures Story(Run(Attached(n), h), Since(h, c), c)
  {
    hide Inv, Story, Next, Enabled, Run;
    if h == [] {
      NobodyHolds(n);
    } else {
      var before, a := h[..|h| - 1], h[|h| - 1];
      HappensStep(n, h);
      var s := Run(Attached(n), before);
      OwnerStep(s, a, c);
      if a == LockIoctl(c) {
        Begins(s, c);
      } else {
        StoryTold(n, before, c);
        StoryGoes(s, Since(before, c), a, c);
      }
    }
  }

  lemma NobodyHolds(n: nat)
    ensures Run(Attached(n), []).ioctlOwner == None
  {
  }

  /**
   What a call returns, in every interleaving: told by the steps since it took ioctl_sx.
   */
  lemma ReturnTells(n: nat, h: seq<Action>, c: nat)
    requires Happens(n, h) && Enabled(Run(Attached(n), h), Return(c))
    ensures var call := Run(Attached(n), h).calls[c]; Returns(Since(h, c), c, call.txn, call.pc.result)
  {
    RunKeeps(Attached(n), h);
    HoldsAtReturn(Run(Attached(n), h), c);
    StoryTold(n, h, c);
    hide Run, Inv, Returns, Settled;
  }

  lemma HoldsAtReturn(s: State, c: nat)
    requires Inv(s) && Enabled(s, Return(c))
    ensures s.ioctlOwner == Some(c)
  {
    assert InSection(s.calls[c].pc);
  }

  ghost predicate SettlesAt(since: seq<Action>, i: nat, c: nat, txn: nat) {
    i < |since| && Settling(since[..i], since[i], c, txn)
  }

  ghost predicate FirstAt(since: seq<Action>, i: nat, c: nat, txn: nat) {
    SettlesAt(since, i, c, txn) && forall j: nat :: j < i ==> !SettlesAt(since, j, c, txn)
  }

  /**
   What a call that was armed settles for: ETIMEDOUT exactly if nothing came until it gave up waiting, and
   else what came first, ENXIO from detach or 0 or EIO from the response.
   */
  lemma {:induction false} SettledMeans(since: seq<Action>, c: nat, txn: nat)
    ensures var r := Settled(since, c, txn); r.Success? || r.Eio? || r.Enxio? || r.Etimedout?
    ensures Errno(Settled(since, c, txn)) == ETIMEDOUT <==> forall i: nat :: !SettlesAt(since, i, c, txn)
    ensures forall i: nat :: FirstAt(since, i, c, txn) ==>
      Errno(Settled(since, c, txn)) ==
        if since[i].DetachWake? then ENXIO else if since[i].response.error then EIO else 0
  {
    if since != [] {
      var m := |since| - 1;
      SettledMeans(since[..m], c, txn);
      SettlesBefore(since, c, txn);
      hide Settling, SettlesAt;
    }
  }

  lemma SettlesBefore(since: seq<Action>, c: nat, txn: nat)
    requires since != []
    ensures var m := |since| - 1;
      && (SettlesAt(since, m, c, txn) <==> Settling(since[..m], since[m], c, txn))
      && (forall i: nat :: i < m ==> (SettlesAt(since, i, c, txn) <==> SettlesAt(since[..m], i, c, txn)))
      && (forall i: nat :: i < m ==> (FirstAt(since, i, c, txn) <==> FirstAt(since[..m], i, c, txn)))
      && (forall i: nat :: FirstAt(since, i, c, txn) ==> i < |since|)
      && (forall i: nat :: SettlesAt(since, i, c, txn) ==> i < |since|)
  {
    var m := |since| - 1;
    forall i: nat | i < m ensures SettlesAt(since, i, c, txn) <==> SettlesAt(since[..m], i, c, txn) {
      assert since[..m][..i] == since[..i];
    }
    hide Settling;
  }

  // What the call was last entered with.
  function Entered(h: seq<Action>, c: nat): Option<(bool, seq<Byte>)> {
    if h == [] then None
    else match h[|h| - 1]
      case Enter(d, get, buf) => if d == c then Some((get, buf)) else Entered(h[..|h| - 1], c)
      case _ => Entered(h[..|h| - 1], c)
  }

  ghost predicate SameCalls(s: State, t: State) {
    && t.calls.Keys == s.calls.Keys
    && forall c :: c in s.calls ==> t.calls[c].get == s.calls[c].get && t.calls[c].buf == s.calls[c].buf
  }

  lemma FrontKeepsCalls(s: State, a: Action)
    requires Enabled(s, a)
    requires a.LockIoctl? || a.Choose? || a.NoCredit? || a.Arm? || a.LockF2? || a.WriteOk? || a.WriteFail?
    ensures SameCalls(s, Next(s, a))
  {
    match a
    case LockIoctl(_) =>
    case Choose(_) =>
    case NoCredit(_) =>
    case Arm(_) =>
    case LockF2(_) =>
    case WriteOk(_) =>
    case WriteFail(_, _) =>
  }

  lemma BackKeepsCalls(s: State, a: Action)
    requires Enabled(s, a)
    requires a.Disarm? || a.Check? || a.Timeout? || a.Wake? || a.Poll? || a.Return?
    ensures SameCalls(s, Next(s, a))
  {
    match a
    case Disarm(_) =>
    case Check(_) =>
    case Timeout(_) =>
    case Wake(_) =>
    case Poll(_, _, _) =>
    case Return(_) =>
  }

  lemma SignalKeepsCalls(s: State)
    ensures SameCalls(s, Signal(s))
  {
  }

  lemma TasksKeepCalls(s: State, a: Action)
    requires Enabled(s, a) && StepOf(a) == None && !a.Enter?
    ensures SameCalls(s, Next(s, a))
  {
    hide Enabled, SameCalls;
    SignalKeepsCalls(s);
    if a.Deliver? {
      DeliverKeepsCalls(s, a.response);
    } else if a.DetachWake? {
      AbandonKeepsCalls(s);
    } else {
      OthersKeepCalls(s, a);
    }
  }

  lemma DeliverKeepsCalls(s: State, r: Response)
    requires SameCalls(s, Signal(s))
    ensures SameCalls(s, s) && SameCalls(s, Delivered(s, r))
  {
    SignalOnly(s);
    hide Signal, Filled;
    assert Delivered(s, r).calls == Signal(s).calls;
  }

  lemma AbandonKeepsCalls(s: State)
    requires SameCalls(s, Signal(s))
    ensures SameCalls(s, Abandoned(s))
  {
    SignalOnly(s);
    hide Signal;
  }

  lemma OthersKeepCalls(s: State, a: Action)
    requires Enabled(s, a) && StepOf(a) == None && !a.Enter? && !a.Deliver? && !a.DetachWake?
    ensures SameCalls(s, Next(s, a))
  {
    hide Enabled, Signal, Abandoned, Delivered;
    assert Next(s, a).calls == s.calls;
  }

  lemma EnteredStep(s: State, a: Action, c: nat)
    requires Enabled(s, a)
    ensures c in Next(s, a).calls <==> c in s.calls || (a.Enter? && a.c == c)
    ensures c in Next(s, a).calls ==>
      var before, after := s.calls, Next(s, a).calls[c];
      if a.Enter? && a.c == c then after.get == a.get && after.buf == a.buf
      else c in before && after.get == before[c].get && after.buf == before[c].buf
  {
    if a.Enter? {
    } else if StepOf(a).Some? {
      hide Next, Enabled;
      if a.Disarm? || a.Check? || a.Timeout? || a.Wake? || a.Poll? || a.Return? {
        BackKeepsCalls(s, a);
      } else {
        FrontKeepsCalls(s, a);
      }
    } else {
      TasksKeepCalls(s, a);
      hide Next, Enabled;
    }
  }

  // A call keeps what it was entered with.
  lemma {:induction false} EnteredTells(n: nat, h: seq<Action>, c: nat)
    requires Happens(n, h)
    ensures var s := Run(Attached(n), h);
      && (c in s.calls <==> Entered(h, c).Some?)
      && (c in s.calls ==> (s.calls[c].get, s.calls[c].buf) == Entered(h, c).value)
  {
    if h != [] {
      HappensStep(n, h);
      hide Inv, Next, Enabled, Run;
      EnteredTells(n, h[..|h| - 1], c);
      EnteredStep(Run(Attached(n), h[..|h| - 1]), h[|h| - 1], c);
    }
  }

  // Where the queue thread is after its own last step.
  function QueueAfter(h: seq<Action>): Queue {
    if h == [] then QueueIdle else Then(QueueAfter(h[..|h| - 1]), h[|h| - 1])
  }

  function Then(q: Queue, a: Action): Queue {
    match a
    case RxStart => RxWant
    case RxLock => RxDraining
    case RxUnlock => RxInput
    case RxDone => QueueIdle
    case TxStart => TxWant
    case TxLock => TxWriting
    case TxUnlock => QueueIdle
    case _ => q
  }

  lemma FrontRest(s: State, a: Action)
    requires Enabled(s, a)
    requires a.LockIoctl? || a.Choose? || a.NoCredit? || a.Arm? || a.LockF2? || a.WriteOk? || a.WriteFail?
    ensures Next(s, a).queue == s.queue
    ensures Next(s, a).panicked <==> s.panicked || (a.Arm? && s.waiting)
  {
    hide Enabled, At;
  }

  lemma BackRest(s: State, a: Action)
    requires Enabled(s, a)
    requires a.Enter? || a.Disarm? || a.Check? || a.Timeout? || a.Wake? || a.Poll? || a.Return?
    ensures Next(s, a).queue == s.queue && Next(s, a).panicked == s.panicked
  {
    hide Enabled, At, Expected;
  }

  lemma SettlingRest(s: State, a: Action)
    requires Enabled(s, a) && (a.Deliver? || a.DetachWake?)
    ensures Next(s, a).queue == s.queue && Next(s, a).panicked == s.panicked
  {
    SignalOnly(s);
    hide Enabled, Signal, Filled;
  }

  lemma TasksRest(s: State, a: Action)
    requires Enabled(s, a) && StepOf(a) == None && !a.Enter? && !a.Deliver? && !a.DetachWake?
    ensures Next(s, a).queue == Then(s.queue, a) && Next(s, a).panicked == s.panicked
  {
    hide Enabled, At, Delivered, Abandoned;
  }

  lemma RestStep(s: State, a: Action)
    requires Enabled(s, a)
    ensures Next(s, a).queue == Then(s.queue, a)
    ensures Next(s, a).panicked <==> s.panicked || (a.Arm? && s.waiting)
  {
    hide Next, Enabled;
    if a.Deliver? || a.DetachWake? {
      SettlingRest(s, a);
    } else if a.Enter? || a.Disarm? || a.Check? || a.Timeout? || a.Wake? || a.Poll? || a.Return? {
      BackRest(s, a);
    } else if StepOf(a).Some? {
      FrontRest(s, a);
    } else {
      TasksRest(s, a);
    }
  }

  lemma QueueStep(s: State, a: Action)
    requires Enabled(s, a)
    ensures Next(s, a).queue == Then(s.queue, a)
  {
    RestStep(s, a);
    hide Next, Enabled;
  }

  // The queue thread holds f2_sx exactly from RxLock to RxUnlock and from TxLock to TxUnlock.
  lemma {:induction false} QueueTells(n: nat, h: seq<Action>)
    requires Happens(n, h)
    ensures var s := Run(Attached(n), h);
      && s.queue == QueueAfter(h)
      && (s.f2Owner == Some(QueueThread) <==> s.queue.RxDraining? || s.queue.TxWriting?)
  {
    RunKeeps(Attached(n), h);
    QueueHolds(Run(Attached(n), h));
    if h != [] {
      HappensStep(n, h);
      hide Inv, Next, Enabled, Run;
      QueueTells(n, h[..|h| - 1]);
      QueueStep(Run(Attached(n), h[..|h| - 1]), h[|h| - 1]);
    }
  }

  lemma QueueHolds(s: State)
    requires Inv(s)
    ensures s.f2Owner == Some(QueueThread) <==> s.queue.RxDraining? || s.queue.TxWriting?
  {
  }

  // What is left open: whether a credit comes, whether and how a write fails, when a call is made, which
  // response the receive task finds, and which of its tasks the queue thread takes up until detach has
  // drained it.
  lemma LeftOpen(s: State, c: nat, get: bool, buf: seq<Byte>, code: WriteCode, r: Response)
    ensures At(s, c, Runtime) ==> Enabled(s, NoCredit(c)) && Enabled(s, Arm(c))
    ensures At(s, c, Writing) ==> Enabled(s, WriteOk(c)) && Enabled(s, WriteFail(c, code))
    ensures Enabled(s, Enter(c, get, buf)) <==> !Active(s, Caller(c))
    ensures Enabled(s, Deliver(r)) <==> s.queue.RxDraining? && 1 <= r.origin <= s.txns
    ensures Enabled(s, RxStart) && Enabled(s, TxStart) <==> s.queue.QueueIdle? && s.detached < 2
  {
  }

  // The concurrent-IOCTL assertion would fire on arming while another response is pending, and only then.
  lemma PanicsExactly(s: State, a: Action)
    requires Enabled(s, a)
    ensures Next(s, a).panicked <==> s.panicked || (a.Arm? && s.waiting)
  {
    RestStep(s, a);
    hide Next, Enabled;
  }

  // A run up to the sleep of a caller that has sent its frame.
  lemma CallerArmed(n: nat, get: bool, buf: seq<Byte>) returns (h: seq<Action>)
    ensures h == [Enter(0, get, buf), LockIoctl(0), Choose(0), Arm(0)] && Happens(n, h)
    ensures Run(Attached(n), h) == ArmedState(n, get, buf)
  {
    h := [];
    h := Extend(n, h, Enter(0, get, buf));
    h := Extend(n, h, LockIoctl(0));
    h := Extend(n, h, Choose(0));
    h := Extend(n, h, Arm(0));
    assert Run(Attached(n), h).calls == map[0 := Call(Armed, n + 1, get, buf)];
  }

  function ArmedState(n: nat, get: bool, buf: seq<Byte>): State {
    Attached(n).(calls := map[0 := Call(Armed, n + 1, get, buf)], txns := n + 1, ioctlOwner := Some(0), waiting := true,
                 waitId := (n + 1) % ID_SPACE, respTxn := n + 1, respGet := get, result := Etimedout,
                 mem := map[n + 1 := buf])
  }

  lemma CallerAsleep(n: nat, get: bool, buf: seq<Byte>) returns (h: seq<Action>)
    ensures h == [Enter(0, get, buf), LockIoctl(0), Choose(0), Arm(0)] + [LockF2(0), WriteOk(0), Check(0)]
    ensures Happens(n, h)
    ensures Run(Attached(n), h) == ArmedState(n, get, buf).(calls := map[0 := Call(Asleep, n + 1, get, buf)])
  {
    h := CallerArmed(n, get, buf);
    hide Happens, Run;
    h := Extend(n, h, LockF2(0));
    h := Extend(n, h, WriteOk(0));
    h := Extend(n, h, Check(0));
    assert Run(Attached(n), h).calls == map[0 := Call(Asleep, n + 1, get, buf)];
  }

  // The caller is asleep and the receive task drains F2.
  function DrainingState(n: nat, get: bool, buf: seq<Byte>): State {
    ArmedState(n, get, buf).(calls := map[0 := Call(Asleep, n + 1, get, buf)], queue := RxDraining,
                             f2Owner := Some(QueueThread))
  }

  lemma CallerReceiving(n: nat, get: bool, buf: seq<Byte>) returns (h: seq<Action>)
    ensures h == [Enter(0, get, buf), LockIoctl(0), Choose(0), Arm(0)] + [LockF2(0), WriteOk(0), Check(0)]
      + [RxStart, RxLock]
    ensures Happens(n, h) && Run(Attached(n), h) == DrainingState(n, get, buf)
  {
    h := CallerAsleep(n, get, buf);
    hide Happens, Run;
    h := Extend(n, h, RxStart);
    h := Extend(n, h, RxLock);
  }

  // The state once the sleeper is woken with this result and buffer.
  ghost predicate WokenWith(s: State, n: nat, get: bool, buf: seq<Byte>, result: Result, out: seq<Byte>) {
    && s.calls == map[0 := Call(Signalled, n + 1, get, buf)]
    && s.result == result && s.mem == map[n + 1 := out]
  }

  lemma AnswerWakes(n: nat, get: bool, buf: seq<Byte>, r: Response)
    requires r.origin == n + 1
    ensures var s := DrainingState(n, get, buf);
      && Enabled(s, Deliver(r))
      && WokenWith(Next(s, Deliver(r)), n, get, buf, if r.error then Eio else Success, Answered(get, buf, Some(r)))
  {
    var s := DrainingState(n, get, buf);
    assert At(s, 0, Asleep) && s.ioctlOwner == Some(0) && Accepts(s, r);
    var t := Next(s, Deliver(r));
    assert t.calls == map[0 := Call(Signalled, n + 1, get, buf)];
    assert t.mem == map[n + 1 := Answered(get, buf, Some(r))];
  }

  lemma WakeReturns(s: State, n: nat, get: bool, buf: seq<Byte>, result: Result, out: seq<Byte>)
    requires WokenWith(s, n, get, buf, result, out)
    ensures Enabled(s, Wake(0))
    ensures var t := Next(s, Wake(0));
      Enabled(t, Return(0)) && t.calls[0].pc == Finishing(result) && t.mem == map[n + 1 := out]
  {
  }

  lemma CallFinishes(n: nat, get: bool, buf: seq<Byte>, r: Response) returns (h: seq<Action>)
    requires r.origin == n + 1
    ensures h == [Enter(0, get, buf), LockIoctl(0), Choose(0), Arm(0)] + [LockF2(0), WriteOk(0), Check(0)]
      + [RxStart, RxLock] + [Deliver(r), Wake(0)]
    ensures Happens(n, h)
    ensures var s := Run(Attached(n), h);
      && Enabled(s, Return(0)) && s.calls[0].pc == Finishing(if r.error then Eio else Success)
      && s.mem == map[n + 1 := Answered(get, buf, Some(r))]
  {
    h := CallerReceiving(n, get, buf);
    AnswerWakes(n, get, buf, r);
    hide Happens, Run, Next, Enabled, WokenWith, Answered, Attached, DrainingState;
    h := Extend(n, h, Deliver(r));
    var result, out := if r.error then Eio else Success, Answered(get, buf, Some(r));
    WakeReturns(Run(Attached(n), h), n, get, buf, result, out);
    h := Extend(n, h, Wake(0));
  }

  /**
   A run in which a call is answered while it sleeps: it returns 0, with the payload at the front of the
   buffer of a GET, or EIO if the firmware set the error flag.
   */
  lemma CallAnswered(n: nat, get: bool, buf: seq<Byte>, r: Response) returns (h: seq<Action>)
    requires r.origin == n + 1
    ensures h == [Enter(0, get, buf), LockIoctl(0), Choose(0), Arm(0)] + [LockF2(0), WriteOk(0), Check(0)]
      + [RxStart, RxLock] + [Deliver(r), Wake(0)]
    ensures Happens(n, h)
    ensures var s := Run(Attached(n), h);
      && Enabled(s, Return(0)) && Errno(s.calls[0].pc.result) == (if r.error then EIO else 0)
      && n + 1 in s.mem && |s.mem[n + 1]| == |buf|
      && forall i :: 0 <= i < |buf| ==>
           s.mem[n + 1][i] == if get && !r.error && i < |r.payload| then r.payload[i] else buf[i]
  {
    h := CallFinishes(n, get, buf, r);
    hide Happens, Run, Enabled;
  }

  // The same call when detach comes to its end while it sleeps: it returns ENXIO.
  lemma CallAbandoned(n: nat, get: bool, buf: seq<Byte>) returns (h: seq<Action>)
    ensures h == [Enter(0, get, buf), LockIoctl(0), Choose(0), Arm(0)] + [LockF2(0), WriteOk(0), Check(0)]
      + [DetachBegin, DetachDrained] + [DetachWake, Wake(0)]
    ensures Happens(n, h)
    ensures var s := Run(Attached(n), h);
      Enabled(s, Return(0)) && Errno(s.calls[0].pc.result) == ENXIO && s.mem == map[n + 1 := buf]
  {
    h := CallerDetaching(n, get, buf);
    hide Happens, Run, Next, Enabled, WokenWith, Attached, ArmedState;
    h := Extend(n, h, DetachWake);
    WakeReturns(Run(Attached(n), h), n, get, buf, Enxio, buf);
    h := Extend(n, h, Wake(0));
  }

  lemma CallerDetaching(n: nat, get: bool, buf: seq<Byte>) returns (h: seq<Action>)
    ensures h == [Enter(0, get, buf), LockIoctl(0), Choose(0), Arm(0)] + [LockF2(0), WriteOk(0), Check(0)]
      + [DetachBegin, DetachDrained]
    ensures Happens(n, h)
    ensures var s := Run(Attached(n), h);
      Enabled(s, DetachWake) && WokenWith(Next(s, DetachWake), n, get, buf, Enxio, buf)
  {
    h := CallerAsleep(n, get, buf);
    hide Happens, Run, WokenWith;
    h := Extend(n, h, DetachBegin);
    h := Extend(n, h, DetachDrained);
    DetachWakes(Run(Attached(n), h), n, get, buf);
  }

  lemma DetachWakes(s: State, n: nat, get: bool, buf: seq<Byte>)
    requires s.detached == 2 && s.waiting && s.calls == map[0 := Call(Asleep, n + 1, get, buf)]
    requires s.ioctlOwner == Some(0) && s.mem == map[n + 1 := buf]
    ensures Enabled(s, DetachWake) && WokenWith(Next(s, DetachWake), n, get, buf, Enxio, buf)
  {
    assert At(s, 0, Asleep);
    assert Next(s, DetachWake).calls == map[0 := Call(Signalled, n + 1, get, buf)];
  }
}
