/**
 The WiFi driver's deferred transmit queue: a list of mbufs linked through m_nextpkt, appended to by
 network threads through a pointer to its last link, and taken over whole by the transmit task.  The
 methods of Queue are the steps between the points where other threads can come in.
 */
module TxQueue {
  const ETHER_HDR_LEN: nat := 14
  const ETHERTYPE_PAE: nat := 0x888e

  class Mbuf {
    const len: nat
    const etherType: nat
    var nextpkt: Mbuf?

    constructor (len: nat, etherType: nat)
      ensures this.len == len && this.etherType == etherType
    {
      this.len, this.etherType, nextpkt := len, etherType, null;
    }
  }

  ghost function After(ms: seq<Mbuf>, i: nat): Mbuf? {
    if i + 1 < |ms| then ms[i + 1] else null
  }

  // The links from h on run through exactly the mbufs of ms.
  ghost predicate Linked(h: Mbuf?, ms: seq<Mbuf>)
    reads ms
  {
    && (h == null <==> ms == [])
    && (ms != [] ==> h == ms[0])
    && forall i :: 0 <= i < |ms| ==> ms[i].nextpkt == After(ms, i)
  }

  ghost predicate Distinct(ms: seq<Mbuf>) {
    forall i, j :: 0 <= i < j < |ms| ==> ms[i] != ms[j]
  }

  // Before the interface runs only EAPOL frames are let through.
  predicate Admitted(inRun: bool, m: Mbuf) {
    inRun || (ETHER_HDR_LEN <= m.len && m.etherType == ETHERTYPE_PAE)
  }

  // In RUN everything goes out; before, exactly what carries a whole Ethernet header with EAPOL's type.
  lemma AdmittedMeans(inRun: bool, m: Mbuf)
    ensures Admitted(true, m)
    ensures Admitted(false, m) <==> m.len >= 14 && m.etherType == 0x888e
  {
  }

  datatype Op = Transmit(m: Mbuf, inRun: bool) | Schedule | TaskTake | TaskSend | TaskDone

  /**
   The queue as its users see it: the mbufs handed to cyw_tx_data_frame, on the task's list and waiting,
   whether tx_task is pending or running, how many threads are between appending an mbuf and enqueueing
   tx_task, and the output errors.
   */
  datatype Flow = Flow(sent: seq<Mbuf>, taken: seq<Mbuf>, waiting: seq<Mbuf>, pending: bool, running: bool,
                       scheduling: nat, oerrors: nat)

  // What a step of any thread does to it, if the step is enabled.
  function Apply(f: Flow, op: Op): Flow {
    match op
    case Transmit(m, inRun) =>
      if Admitted(inRun, m) then f.(waiting := f.waiting + [m], scheduling := f.scheduling + 1)
      else f.(oerrors := f.oerrors + 1)
    case Schedule =>
      if f.scheduling > 0 then f.(pending := true, scheduling := f.scheduling - 1) else f
    case TaskTake =>
      if f.pending && !f.running then f.(pending := false, running := true, taken := f.waiting, waiting := []) else f
    case TaskSend =>
      if f.taken != [] then f.(sent := f.sent + [f.taken[0]], taken := f.taken[1..]) else f
    case TaskDone =>
      if f.running && f.taken == [] then f.(running := false) else f
  }

  function ApplyAll(f: Flow, ops: seq<Op>): Flow {
    if ops == [] then f else Apply(ApplyAll(f, ops[..|ops| - 1]), ops[|ops| - 1])
  }

  // The mbufs of the transmissions that are let through, in order.
  function AllAdmitted(ops: seq<Op>): seq<Mbuf> {
    if ops == [] then []
    else
      var op := ops[|ops| - 1];
      AllAdmitted(ops[..|ops| - 1]) + (if op.Transmit? && Admitted(op.inRun, op.m) then [op.m] else [])
  }

  // In order and none lost: what was sent, then what the task holds, then what waits.
  lemma {:induction false} FlowInOrder(f: Flow, ops: seq<Op>)
    requires !f.running ==> f.taken == []
    requires f.waiting != [] ==> f.pending || f.scheduling > 0
    ensures var g := ApplyAll(f, ops);
      && f.sent + f.taken + f.waiting + AllAdmitted(ops) == g.sent + g.taken + g.waiting
      && (!g.running ==> g.taken == [])
      && (g.waiting != [] ==> g.pending || g.scheduling > 0)
  {
    if ops != [] {
      var n := |ops| - 1;
      FlowInOrder(f, ops[..n]);
      StepInOrder(ApplyAll(f, ops[..n]), ops[n]);
    }
  }

  lemma StepInOrder(f: Flow, op: Op)
    requires !f.running ==> f.taken == []
    requires f.waiting != [] ==> f.pending || f.scheduling > 0
    ensures var g := Apply(f, op);
      && f.sent + f.taken + f.waiting + (if op.Transmit? && Admitted(op.inRun, op.m) then [op.m] else [])
         == g.sent + g.taken + g.waiting
      && (!g.running ==> g.taken == [])
      && (g.waiting != [] ==> g.pending || g.scheduling > 0)
  {
    if op.TaskSend? && f.taken != [] {
      assert f.taken == [f.taken[0]] + f.taken[1..];
    }
  }

  class Queue {
    var head: Mbuf?
    // The mbuf whose m_nextpkt tx_queue_tail points to; null when it points to tx_queue_head.
    var last: Mbuf?
    // The list the transmit task has taken over and not yet sent.
    var txList: Mbuf?
    var taskPending: bool
    var taskRunning: bool
    // Threads between appending an mbuf and enqueueing tx_task.
    var scheduling: nat
    var oerrors: nat
    var detached: bool

    ghost var waiting: seq<Mbuf>
    ghost var taken: seq<Mbuf>
    ghost var accepted: seq<Mbuf>
    // Mbufs handed to cyw_tx_data_frame, and those freed at detach.
    ghost var sent: seq<Mbuf>
    ghost var freed: seq<Mbuf>

    ghost predicate Valid()
      reads this, waiting, taken
    {
      && Linked(head, waiting)
      && last == (if waiting == [] then null else waiting[|waiting| - 1])
      && Linked(txList, taken)
      && accepted == sent + freed + taken + waiting
      && Distinct(accepted)
      && (waiting != [] ==> taskPending || scheduling > 0)
      && (!taskRunning ==> taken == [])
      && (freed != [] ==> detached)
      && (detached ==> waiting == [] && !taskRunning)
    }

    ghost function FlowOf(): Flow
      reads this
    {
      Flow(sent, taken, waiting, taskPending, taskRunning, scheduling, oerrors)
    }

    constructor ()
      ensures Valid()
      ensures accepted == [] && sent == [] && freed == [] && !detached
    {
      head, last, txList := null, null, null;
      taskPending, taskRunning, scheduling, oerrors, detached := false, false, 0, 0, false;
      waiting, taken, accepted, sent, freed := [], [], [], [], [];
    }

    // The tail insertion itself: one store through the tail pointer, which then moves to the new link.
    method Link(m: Mbuf)
      requires Linked(head, waiting) && Distinct(waiting) && m !in waiting
      requires last == (if waiting == [] then null else waiting[|waiting| - 1])
      modifies `head, `last, last, m
      ensures Linked(head, waiting + [m]) && last == m
    {
      m.nextpkt := null;
      if last == null {
        head := m;
      } else {
        last.nextpkt := m;
      }
      last := m;
      ghost var ms := waiting + [m];
      forall i | 0 <= i < |ms| ensures ms[i].nextpkt == After(ms, i) {
        assert i < |waiting| - 1 ==>
          waiting[i] != waiting[|waiting| - 1] && old(waiting[i].nextpkt) == After(waiting, i);
      }
    }

    // An admitted mbuf joins the queue, under the queue lock.
    method Append(m: Mbuf)
      requires Valid() && m !in accepted && !detached
      modifies `head, `last, last, m, `scheduling, `waiting, `accepted
      ensures Valid()
      ensures accepted == old(accepted) + [m] && waiting == old(waiting) + [m] && scheduling == old(scheduling) + 1
    {
      hide Linked;
      NoSharing(sent + freed, taken, waiting);
      assert m !in waiting && m !in taken;
      Link(m);
      scheduling := scheduling + 1;
      assert sent + freed + taken + (waiting + [m]) == accepted + [m];
      waiting, accepted := waiting + [m], accepted + [m];
    }

    // The part of cyw_vap_transmit up to the release of the queue lock.
    method Transmit(m: Mbuf, inRun: bool) returns (accept: bool)
      requires Valid() && m !in accepted && !detached
      modifies this, last, m
      ensures Valid() && !detached
      ensures accept == Admitted(inRun, m)
      ensures FlowOf() == Apply(old(FlowOf()), Op.Transmit(m, inRun))
      ensures accepted == old(accepted) + (if accept then [m] else [])
    {
      hide Linked, Distinct;
      if !inRun && !(m.len >= ETHER_HDR_LEN && m.etherType == ETHERTYPE_PAE) {
        oerrors := oerrors + 1;
        return false;
      }
      Append(m);
      return true;
    }

    // The last step of cyw_vap_transmit: taskqueue_enqueue.
    method Schedule()
      requires Valid() && scheduling > 0
      modifies `taskPending, `scheduling
      ensures Valid() && FlowOf() == Apply(old(FlowOf()), Op.Schedule)
    {
      taskPending := true;
      scheduling := scheduling - 1;
    }

    // tx_task starts and takes the whole list over.
    method TaskTake()
      requires Valid() && taskPending && !taskRunning && !detached
      modifies this
      ensures Valid() && !detached
      ensures FlowOf() == Apply(old(FlowOf()), Op.TaskTake) && accepted == old(accepted)
    {
      hide Distinct, Linked;
      taskPending, taskRunning := false, true;
      LinkedNil();
      Swap(sent + freed, waiting);
      txList := head;
      head, last := null, null;
      taken, waiting := waiting, [];
    }

    // tx_task unlinks its first mbuf and hands it to cyw_tx_data_frame.
    method TaskSend() returns (m: Mbuf)
      requires Valid() && txList != null
      modifies this, txList
      ensures Valid() && detached == old(detached)
      ensures old(taken) != [] && m == old(taken)[0] && m.nextpkt == null
      ensures FlowOf() == Apply(old(FlowOf()), Op.TaskSend) && accepted == old(accepted)
    {
      hide Linked, Distinct;
      m := txList;
      NoSharing(sent + freed, taken, waiting);
      LinkedRest(m, taken);
      txList := m.nextpkt;
      m.nextpkt := null;
      assert freed == [] && taken == [m] + taken[1..];
      assert sent + [m] + freed + taken[1..] + waiting == accepted;
      sent, taken := sent + [m], taken[1..];
    }

    // tx_task has worked its list off.
    method TaskDone()
      requires Valid() && taskRunning && txList == null
      modifies `taskRunning
      ensures Valid() && FlowOf() == Apply(old(FlowOf()), Op.TaskDone)
    {
      taskRunning := false;
    }

    // Frees what is queued, from the head on.
    method FreeQueue() returns (gone: seq<Mbuf>)
      requires Linked(head, waiting) && Distinct(waiting)
      modifies `head, `waiting
      ensures head == null && waiting == [] && gone == old(waiting)
    {
      hide Distinct, Linked;
      gone := [];
      while head != null
        invariant Linked(head, waiting) && Distinct(waiting)
        invariant gone + waiting == old(waiting)
        decreases |waiting|
      {
        var m := head;
        LinkedRest(m, waiting);
        head := m.nextpkt;
        assert gone + waiting == (gone + [m]) + waiting[1..];
        gone := gone + [m];
        waiting := waiting[1..];
      }
      LinkedEmpty(waiting);
    }

    // Detach, after draining tx_task: whatever is still queued is freed.
    method Detach() returns (gone: seq<Mbuf>)
      requires Valid() && !detached && !taskRunning && !taskPending
      modifies this
      ensures Valid() && detached
      ensures gone == old(waiting) && freed == gone
      ensures accepted == old(accepted) && sent == old(sent) && accepted == sent + freed
    {
      NoSharing(sent + freed, taken, waiting);
      hide Distinct, Linked;
      gone := FreeQueue();
      last := null;
      LinkedNil();
      Regroup(sent, gone);
      freed, detached := gone, true;
    }
  }

  lemma Swap(a: seq<Mbuf>, w: seq<Mbuf>)
    ensures a + [] + w == a + w + []
  {
  }

  lemma Regroup(sent: seq<Mbuf>, gone: seq<Mbuf>)
    ensures sent + [] + [] + gone == sent + gone == sent + gone + [] + []
  {
  }

  lemma LinkedNil()
    ensures Linked(null, [])
  {
  }

  lemma LinkedEmpty(ms: seq<Mbuf>)
    requires Linked(null, ms)
    ensures ms == []
  {
  }

  lemma LinkedRest(m: Mbuf, ms: seq<Mbuf>)
    requires Linked(m, ms) && Distinct(ms)
    ensures ms != [] && m == ms[0] && Linked(m.nextpkt, ms[1..])
    ensures m !in ms[1..] && Distinct(ms[1..])
  {
    var rest := ms[1..];
    assert ms[0].nextpkt == After(ms, 0);
    forall i | 0 <= i < |rest| ensures rest[i].nextpkt == After(rest, i) {
      assert ms[i + 1].nextpkt == After(ms, i + 1);
    }
  }

  lemma NoSharing(a: seq<Mbuf>, b: seq<Mbuf>, c: seq<Mbuf>)
    requires Distinct(a + b + c)
    ensures Distinct(b) && Distinct(c)
    ensures forall i :: 0 <= i < |b| ==> b[i] !in c
    ensures forall i :: 0 <= i < |c| ==> c[i] !in b
  {
    var all := a + b + c;
    assert forall i :: 0 <= i < |b| ==> b[i] == all[|a| + i];
    assert forall i :: 0 <= i < |c| ==> c[i] == all[|a| + |b| + i];
    assert forall i :: 0 <= i < |a| ==> a[i] == all[i];
  }

  // No mbuf is handed to the driver twice.
  ghost predicate FreshOps(ops: seq<Op>) {
    forall i, j :: 0 <= i < j < |ops| && ops[i].Transmit? && ops[j].Transmit? ==> ops[i].m != ops[j].m
  }

  function Mbufs(ops: seq<Op>): set<Mbuf> {
    if ops == [] then {}
    else
      var op := ops[|ops| - 1];
      Mbufs(ops[..|ops| - 1]) + (if op.Transmit? then {op.m} else {})
  }

  lemma {:induction false} AdmittedAmong(ops: seq<Op>, n: nat)
    requires n <= |ops|
    ensures forall m :: m in AllAdmitted(ops[..n]) ==> m in Mbufs(ops[..n])
    ensures Mbufs(ops[..n]) <= Mbufs(ops)
    ensures forall i :: n <= i < |ops| && ops[i].Transmit? ==> ops[i].m in Mbufs(ops)
    ensures FreshOps(ops) ==> forall i :: n <= i < |ops| && ops[i].Transmit? ==> ops[i].m !in Mbufs(ops[..n])
  {
    if ops != [] {
      var k := |ops| - 1;
      if n <= k {
        AdmittedAmong(ops[..k], n);
        assert ops[..k][..n] == ops[..n];
        MbufsOf(ops[..n]);
      } else {
        AdmittedAmong(ops[..k], k);
        assert ops[..k][..k] == ops[..k] && ops[..n] == ops;
      }
    }
  }

  lemma {:induction false} MbufsOf(ops: seq<Op>)
    ensures forall m :: m in Mbufs(ops) ==> exists k :: 0 <= k < |ops| && ops[k].Transmit? && ops[k].m == m
  {
    if ops != [] {
      var n := |ops| - 1;
      MbufsOf(ops[..n]);
      forall m | m in Mbufs(ops) ensures exists k :: 0 <= k < |ops| && ops[k].Transmit? && ops[k].m == m {
        if m in Mbufs(ops[..n]) {
          var k :| 0 <= k < n && ops[..n][k].Transmit? && ops[..n][k].m == m;
          assert ops[k].Transmit?;
        }
      }
    }
  }

  // The steps only write to mbufs that were accepted.
  lemma LastQueued(q: Queue)
    requires q.Valid()
    ensures q.last != null ==> q.last in q.accepted
    ensures q.txList != null ==> q.txList in q.accepted
  {
    if q.last != null {
      assert q.waiting[|q.waiting| - 1] in q.accepted;
    }
    if q.txList != null {
      assert q.taken[0] in q.accepted;
    }
  }

  // One step of any thread, if it is enabled; out is what the step hands to cyw_tx_data_frame.
  method Step(q: Queue, op: Op) returns (out: seq<Mbuf>)
    requires q.Valid() && !q.detached && (op.Transmit? ==> op.m !in q.accepted)
    modifies q, q.last, q.txList, if op.Transmit? then {op.m} else {}
    ensures q.Valid() && !q.detached
    ensures q.FlowOf() == Apply(old(q.FlowOf()), op) && q.sent == old(q.sent) + out
    ensures q.accepted == old(q.accepted) + (if op.Transmit? && Admitted(op.inRun, op.m) then [op.m] else [])
  {
    hide Distinct;
    out := [];
    TakenList(q);
    match op
    case Transmit(m, inRun) =>
      var accept := q.Transmit(m, inRun);
    case Schedule =>
      if q.scheduling > 0 {
        q.Schedule();
      }
    case TaskTake =>
      if q.taskPending && !q.taskRunning {
        q.TaskTake();
      }
    case TaskSend =>
      if q.txList != null {
        var m := q.TaskSend();
        out := [m];
      }
    case TaskDone =>
      if q.taskRunning && q.txList == null {
        q.TaskDone();
      }
  }

  lemma TakenList(q: Queue)
    requires q.Valid()
    ensures q.txList == null <==> q.taken == []
    ensures !q.taskRunning ==> q.taken == []
    ensures !q.detached ==> q.accepted == q.sent + q.taken + q.waiting
  {
    assert q.sent + [] == q.sent;
  }

  /**
   Any interleaving of the steps: the list does what the flow says, and what was handed on came off it.
   */
  method Run(q: Queue, ops: seq<Op>) returns (out: seq<Mbuf>)
    requires q.Valid() && q.accepted == [] && !q.detached && FreshOps(ops)
    modifies q, Mbufs(ops)
    ensures q.Valid() && !q.detached
    ensures q.FlowOf() == ApplyAll(old(q.FlowOf()), ops) && q.sent == old(q.sent) + out
    ensures q.accepted == AllAdmitted(ops)
  {
    hide Distinct, Linked, Apply, Admitted, Queue.Valid;
    out := [];
    for i := 0 to |ops|
      invariant q.Valid() && !q.detached
      invariant q.FlowOf() == ApplyAll(old(q.FlowOf()), ops[..i]) && q.sent == old(q.sent) + out
      invariant q.accepted == AllAdmitted(ops[..i])
    {
      assert ops[..i + 1][..i] == ops[..i];
      AdmittedAmong(ops, i);
      LastQueued(q);
      var o := Step(q, ops[i]);
      out := out + o;
    }
    assert ops[..|ops|] == ops;
  }

  // What detach makes of a flow: tx_task runs until it is neither pending nor running, and the rest is freed.
  function Drained(f: Flow): seq<Mbuf> {
    f.taken + (if f.pending then f.waiting else [])
  }

  // The step tx_task takes next when left to itself.
  function NextOf(f: Flow): Op {
    if !f.running then TaskTake else if f.taken != [] then TaskSend else TaskDone
  }

  lemma DrainStep(f: Flow)
    requires f.pending || f.running
    requires !f.running ==> f.taken == []
    ensures var g := Apply(f, NextOf(f));
      && g.sent + Drained(g) == f.sent + Drained(f)
      && (!g.running ==> g.taken == [])
      && g.waiting == (if f.pending && !g.pending then [] else f.waiting) && (g.pending ==> f.pending)
      && (f.pending == g.pending ==> |g.taken| < |f.taken| || (g.taken == f.taken && f.running && !g.running))
  {
    if f.taken != [] {
      assert f.taken == [f.taken[0]] + f.taken[1..];
    }
  }

  method DrainTask(q: Queue, ghost ms: set<Mbuf>) returns (out: seq<Mbuf>)
    requires q.Valid() && !q.detached && forall m :: m in q.accepted ==> m in ms
    modifies q, ms
    ensures q.Valid() && !q.detached && q.accepted == old(q.accepted)
    ensures !q.taskPending && !q.taskRunning
    ensures out == Drained(old(q.FlowOf()))
    ensures q.waiting == if old(q.taskPending) then [] else old(q.waiting)
  {
    hide Distinct, Linked, Queue.Valid, Apply;
    out := [];
    TakenList(q);
    while q.taskPending || q.taskRunning
      invariant q.Valid() && !q.detached && q.accepted == old(q.accepted)
      invariant !q.taskRunning ==> q.taken == []
      invariant q.sent == old(q.sent) + out
      invariant q.sent + Drained(q.FlowOf()) == old(q.sent) + Drained(old(q.FlowOf()))
      invariant q.waiting == if old(q.taskPending) && !q.taskPending then [] else old(q.waiting)
      invariant q.taskPending ==> old(q.taskPending)
      decreases q.taskPending, |q.taken|, q.taskRunning
    {
      TakenList(q);
      LastQueued(q);
      DrainStep(q.FlowOf());
      var o := Step(q, if !q.taskRunning then TaskTake else if q.txList != null then TaskSend else TaskDone);
      out := out + o;
    }
    Cancel(old(q.sent), out, Drained(old(q.FlowOf())));
  }

  lemma Cancel(a: seq<Mbuf>, b: seq<Mbuf>, c: seq<Mbuf>)
    requires a + b + [] == a + c
    ensures b == c
  {
    assert b == (a + b + [])[|a|..];
    assert c == (a + c)[|a|..];
  }

  /**
   Any interleaving of the steps up to detach, then detach: what has been admitted has been sent, in that
   order, or is freed once; it is sent exactly if tx_task holds it or is still due to run.
   */
  method RunAndDetach(q: Queue, ops: seq<Op>) returns (out: seq<Mbuf>, freed: seq<Mbuf>)
    requires q.Valid() && q.accepted == [] && !q.detached && FreshOps(ops)
    modifies q, Mbufs(ops)
    ensures q.Valid() && q.detached
    ensures AllAdmitted(ops) == out + freed
    ensures var f := ApplyAll(old(q.FlowOf()), ops); freed == if f.pending then [] else f.waiting
  {
    hide Distinct, Linked, Apply, ApplyAll, AllAdmitted, Mbufs, Queue.Valid;
    AdmittedAmong(ops, |ops|);
    assert ops[..|ops|] == ops;
    TakenList(q);
    out := Run(q, ops);
    TakenList(q);
    Split(q.FlowOf());
    var more := DrainTask(q, Mbufs(ops));
    freed := q.Detach();
    out := out + more;
  }

  // Everything accepted is sent already, drained, or left.
  lemma Split(f: Flow)
    ensures f.sent + f.taken + f.waiting == f.sent + Drained(f) + (if f.pending then [] else f.waiting)
  {
  }
}
