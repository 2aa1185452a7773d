/**
 The scheduler (kernel/src/kernel/thread.c): thread states, the scheduler action that a kernel entry
 builds up, and the choice of the thread to run when the entry ends. One scheduling domain.
 */
module Scheduler {
  import opened TcbQueues
  import RQ = ReadyQueues

  /** CONFIG_TIME_SLICE */
  const TIME_SLICE := 5

  /** thread_state_t: the type, with the fields that go with it when a thread is blocked. */
  datatype TState =
    | Inactive
    | Running
    | Restart
    | BlockedOnReceive(ep: nat, diminish: bool)
    | BlockedOnSend(ep: nat, badge: bv32, canGrant: bool, isCall: bool)
    | BlockedOnReply
    | BlockedOnAsyncEvent(aep: nat)
    | IdleThreadState

  type States = map<Tid, TState>
  type Priorities = RQ.Priorities
  type Flags = RQ.Flags

  /** isRunnable */
  predicate Runnable(s: TState) {
    s.Running? || s.Restart?
  }

  /** isBlocked */
  predicate Blocked(s: TState) {
    !Runnable(s) && !s.IdleThreadState?
  }

  /** ksSchedulerAction */
  datatype Action = ResumeCurrent | ChooseNew | SwitchTo(thread: Tid)

  /**
   The fields are about the same threads; only the idle thread is idle; only runnable threads are
   queued.
   */
  ghost predicate Base(st: States, prio: Priorities, queued: Flags, cur: Tid, idle: Tid) {
    && st.Keys == prio.Keys && st.Keys == queued.Keys
    && NULL !in st && cur in st && idle in st && st[idle].IdleThreadState? && prio[idle] == 0
    && (forall t :: t in st && st[t].IdleThreadState? ==> t == idle)
    && (forall t :: t in queued && queued[t] ==> Runnable(st[t]))
  }

  /** Every runnable thread outside `except` is in a ready queue. */
  ghost predicate Covered(st: States, queued: Flags, except: set<Tid>) {
    forall t :: t in st && t in queued && Runnable(st[t]) && t !in except ==> queued[t]
  }

  /** No queued thread outside `except` has a priority over `p`. */
  ghost predicate Below(prio: Priorities, queued: Flags, except: set<Tid>, p: nat) {
    forall t :: t in queued && t in prio && queued[t] && t !in except ==> prio[t] <= p
  }

  /**
   What holds between two scheduler operations of a kernel entry. The threads in `flight` have been
   made runnable and are still to be handed to the scheduler.
   */
  ghost predicate Consistent(st: States, prio: Priorities, queued: Flags, cur: Tid, idle: Tid,
                             action: Action, flight: set<Tid>)
  {
    && Base(st, prio, queued, cur, idle)
    && match action
       case ResumeCurrent =>
         && (Runnable(st[cur]) || cur == idle) && !queued[cur]
         && Covered(st, queued, {cur} + flight) && Below(prio, queued, flight, prio[cur])
       case ChooseNew =>
         Covered(st, queued, {cur} + flight)
       case SwitchTo(t) =>
         && t in st && t != cur && Runnable(st[t]) && prio[cur] <= prio[t] && !queued[cur]
         && Covered(st, queued, {cur, t} + flight) && Below(prio, queued, flight, prio[t])
  }

  /** What a user of the machine sees whenever the kernel returns. */
  ghost predicate AtUser(st: States, prio: Priorities, queued: Flags, cur: Tid, idle: Tid) {
    && cur in st && (st[cur].Running? || cur == idle)
    && (forall t :: t in st && t in prio && cur in prio && Runnable(st[t]) ==> prio[t] <= prio[cur])
    && (forall t :: t in st && t in queued && t != cur ==> (queued[t] <==> Runnable(st[t])))
    && cur in queued && !queued[cur]
  }

  lemma ResumedIsAtUser(st: States, prio: Priorities, queued: Flags, cur: Tid, idle: Tid)
    requires Consistent(st, prio, queued, cur, idle, ResumeCurrent, {}) && !st[cur].Restart?
    ensures AtUser(st, prio, queued, cur, idle)
  {
    forall t | t in st && Runnable(st[t])
      ensures prio[t] <= prio[cur]
    {
      if t != cur {
        assert queued[t];
      }
    }
  }

  /** ... so the idle thread runs only while every runnable thread has the lowest priority. */
  lemma IdleOnlyAboveLowest(st: States, prio: Priorities, queued: Flags, idle: Tid, t: Tid)
    requires Base(st, prio, queued, idle, idle) && AtUser(st, prio, queued, idle, idle)
    requires t in st && Runnable(st[t])
    ensures prio[t] == 0
  {
    assert t in prio && idle in prio;
  }

  function InitialStates(threads: set<Tid>, idle: Tid, initial: Tid): States {
    map t | t in threads :: if t == idle then IdleThreadState else if t == initial then Running else Inactive
  }

  // What the operations do to the ready queues and the scheduler action, on values.

  datatype Plan = Plan(ready: seq<seq<Tid>>, queued: Flags, action: Action)

  /** A thread joins the queue of its priority at the head, or at the end, unless it is in it already. */
  ghost function Queueing(p: Plan, prio: Priorities, t: Tid, head: bool): Plan
    requires t in prio
  {
    var s := RQ.At(p.ready, prio[t]);
    Plan(if t in p.queued && p.queued[t] then p.ready else RQ.Put(p.ready, prio[t], if head then [t] + s else s + [t]),
         p.queued[t := true], p.action)
  }

  /** A thread leaves its queue, if it is in it. */
  ghost function Dequeuing(p: Plan, prio: Priorities, t: Tid): Plan
    requires t in prio
  {
    Plan(if t in p.queued && p.queued[t] then RQ.Put(p.ready, prio[t], Minus(RQ.At(p.ready, prio[t]), t)) else p.ready,
         p.queued[t := false], p.action)
  }

  /** The choice of a thread is left to the end; one that was to be switched to is queued. */
  ghost function Rescheduling(p: Plan, prio: Priorities): Plan {
    (if p.action.SwitchTo? && p.action.thread in prio then Queueing(p, prio, p.action.thread, true) else p)
      .(action := ChooseNew)
  }

  /**
   A thread has become runnable: it is to run next, if nothing has been decided yet and its priority is higher
   than the current thread's, or the same where that is enough; otherwise it is queued.
   */
  ghost function Switching(p: Plan, prio: Priorities, cur: Tid, t: Tid, onSamePriority: bool): Plan
    requires t in prio && cur in prio
  {
    if p.action == ResumeCurrent && (prio[t] > prio[cur] || (onSamePriority && prio[t] == prio[cur])) then
      p.(action := SwitchTo(t))
    else if p.action.SwitchTo? then Rescheduling(Queueing(p, prio, t, true), prio)
    else Queueing(p, prio, t, true)
  }

  /** A thread has stopped being runnable. */
  ghost function Stopping(p: Plan, cur: Tid, t: Tid): Plan {
    if t == cur && p.action == ResumeCurrent then p.(action := ChooseNew) else p
  }

  /** A thread gets a new priority, and with it a place at the head of that queue if it can run. */
  ghost function Reprioritising(p: Plan, prio: Priorities, cur: Tid, t: Tid, runs: bool, to: nat): Plan
    requires t in prio
  {
    var out := Dequeuing(p, prio, t);
    var back := if runs then Queueing(out, prio[t := to], t, true) else out;
    if t == cur then Rescheduling(back, prio[t := to]) else back
  }

  /** The current thread goes to the end of its queue. */
  ghost function Yielding(p: Plan, prio: Priorities, cur: Tid): Plan
    requires cur in prio
  {
    Rescheduling(Queueing(Dequeuing(p, prio, cur), prio, cur, false), prio)
  }

  /** A thread that has to stop but can go on running goes to the head of its queue. */
  ghost function Standing(p: Plan, st: States, prio: Priorities, cur: Tid): Plan {
    if p.action != ResumeCurrent && cur in prio && cur in st && Runnable(st[cur]) then Queueing(p, prio, cur, true)
    else p
  }

  /** The thread that runs next: the one decided on, or the first of the highest priority, or the idle thread. */
  ghost function Next(p: Plan, st: States, prio: Priorities, cur: Tid, idle: Tid): Tid {
    match p.action
    case ResumeCurrent => cur
    case SwitchTo(t) => t
    case ChooseNew =>
      var ready := Standing(p, st, prio, cur).ready;
      var first := RQ.FirstReady(ready, |ready|);
      if first == NULL then idle else first
  }

  /** ... and what it leaves behind. */
  ghost function Choosing(p: Plan, st: States, prio: Priorities, cur: Tid, idle: Tid): Plan {
    var next := Next(p, st, prio, cur, idle);
    if p.action == ResumeCurrent || next !in prio then p
    else Dequeuing(Standing(p, st, prio, cur), prio, next).(action := ResumeCurrent)
  }

  lemma NotDequeued(p: Plan, prio: Priorities, t: Tid)
    requires t in prio && t in p.queued && !p.queued[t]
    ensures Dequeuing(p, prio, t) == p
  {
    assert p.queued[t := false] == p.queued;
  }

  /** Round robin, on values. */
  lemma InTurn(p: Plan, st: States, prio: Priorities, cur: Tid, idle: Tid)
    requires cur in prio && cur in st && Runnable(st[cur]) && cur in p.queued && !p.queued[cur]
    requires p.action == ResumeCurrent && prio[cur] < |p.ready|
    requires var turns := RQ.At(p.ready, prio[cur]) + [cur];
             && RQ.FirstReady(RQ.Put(p.ready, prio[cur], turns), |p.ready|) == turns[0]
             && turns[0] in prio && prio[turns[0]] == prio[cur] && turns[0] != NULL
             && turns[0] in p.queued && (turns[0] != cur ==> p.queued[turns[0]])
    ensures var turns := RQ.At(p.ready, prio[cur]) + [cur];
            var p' := Rescheduling(Queueing(p, prio, cur, false), prio);
            && Next(p', st, prio, cur, idle) == turns[0]
            && Choosing(p', st, prio, cur, idle).ready == RQ.Put(p.ready, prio[cur], turns[1..])
  {
  }

  // One lemma per way in which an operation changes the fields.

  lemma Fields(st: States, prio: Priorities, queued: Flags, cur: Tid, idle: Tid, action: Action, flight: set<Tid>)
    requires Consistent(st, prio, queued, cur, idle, action, flight)
    ensures st.Keys == prio.Keys && st.Keys == queued.Keys && cur in st
    ensures action != ChooseNew ==> !queued[cur]
    ensures action.SwitchTo? ==> action.thread in st && action.thread != cur
    ensures Base(st, prio, queued, cur, idle)
  {
  }

  lemma BaseQueued(st: States, prio: Priorities, queued: Flags, cur: Tid, idle: Tid)
    requires Base(st, prio, queued, cur, idle)
    ensures Runnable(st[cur]) ==> Base(st, prio, queued[cur := true], cur, idle)
  {
  }

  lemma WokenStep(st: States, prio: Priorities, queued: Flags, cur: Tid, idle: Tid, action: Action,
                  flight: set<Tid>, t: Tid, s: TState)
    requires Consistent(st, prio, queued, cur, idle, action, flight) && t in st && t != idle && Runnable(s)
    ensures Consistent(st[t := s], prio, queued, cur, idle, action, flight + {t})
    ensures t == cur || Runnable(st[t]) ==> Consistent(st[t := s], prio, queued, cur, idle, action, flight)
  {
  }

  lemma BlockedStep(st: States, prio: Priorities, queued: Flags, cur: Tid, idle: Tid, action: Action,
                    flight: set<Tid>, t: Tid, s: TState)
    requires Consistent(st, prio, queued, cur, idle, action, flight) && t in st && t != idle && Blocked(s)
    requires action != SwitchTo(t)
    ensures Consistent(st[t := s], prio, queued[t := false], cur, idle,
                       if t == cur && action == ResumeCurrent then ChooseNew else action, flight - {t})
  {
  }

  lemma QueuedStep(st: States, prio: Priorities, queued: Flags, cur: Tid, idle: Tid, action: Action,
                   flight: set<Tid>, t: Tid)
    requires Consistent(st, prio, queued, cur, idle, action, flight) && t in st && Runnable(st[t])
    requires action == ResumeCurrent ==> t != cur && prio[t] <= prio[cur]
    requires !action.SwitchTo?
    ensures Consistent(st, prio, queued[t := true], cur, idle, action, flight - {t})
  {
  }

  lemma ForgottenStep(st: States, prio: Priorities, queued: Flags, cur: Tid, idle: Tid, action: Action,
                      flight: set<Tid>)
    requires Consistent(st, prio, queued, cur, idle, action, flight)
    ensures action.SwitchTo? ==>
              action.thread in st && Consistent(st, prio, queued[action.thread := true], cur, idle, ChooseNew, flight)
    ensures !action.SwitchTo? ==> Consistent(st, prio, queued, cur, idle, ChooseNew, flight)
  {
  }

  lemma SwitchStep(st: States, prio: Priorities, queued: Flags, cur: Tid, idle: Tid, flight: set<Tid>, t: Tid)
    requires Consistent(st, prio, queued, cur, idle, ResumeCurrent, flight) && t in st && Runnable(st[t])
    requires prio[cur] <= prio[t] && t != cur
    ensures Consistent(st, prio, queued, cur, idle, SwitchTo(t), flight - {t})
  {
  }

  /** A second thread made runnable in one entry: both are queued and the choice is left to the end. */
  lemma QueuedBesideStep(st: States, prio: Priorities, queued: Flags, cur: Tid, idle: Tid, action: Action,
                         flight: set<Tid>, t: Tid)
    requires Consistent(st, prio, queued, cur, idle, action, flight) && t in st && Runnable(st[t]) && action.SwitchTo?
    ensures action.thread in st
    ensures Consistent(st, prio, queued[t := true][action.thread := true], cur, idle, ChooseNew, flight - {t})
  {
  }

  /** The last step: `next` takes over from `cur`, which goes back to its queue when it can still run. */
  lemma TakeOver(st: States, prio: Priorities, queued: Flags, cur: Tid, idle: Tid, action: Action, next: Tid)
    requires Consistent(st, prio, queued, cur, idle, action, {}) && next in st
    requires var q := if Runnable(st[cur]) then queued[cur := true] else queued;
             || (action == SwitchTo(next))
             || (action == ChooseNew && next == idle && forall t :: t in q ==> !q[t])
             || (action == ChooseNew && q[next] && forall t :: t in q && q[t] ==> prio[t] <= prio[next])
    ensures Consistent(st, prio, (if Runnable(st[cur]) then queued[cur := true] else queued)[next := false], next,
                       idle, ResumeCurrent, {})
  {
  }

  /** A thread in flight is queued: the choice is still to be made. */
  lemma QueuedInFlight(st: States, prio: Priorities, queued: Flags, cur: Tid, idle: Tid, action: Action,
                       flight: set<Tid>, t: Tid)
    requires Consistent(st, prio, queued, cur, idle, action, flight) && t in flight && t in st && Runnable(st[t])
    requires action != ChooseNew ==> t != cur
    ensures Consistent(st, prio, queued[t := true], cur, idle, action, flight)
  {
  }

  lemma Landed(st: States, prio: Priorities, queued: Flags, cur: Tid, idle: Tid, flight: set<Tid>)
    requires Consistent(st, prio, queued, cur, idle, ChooseNew, flight)
    requires forall t :: t in flight ==> t in queued && queued[t]
    ensures Consistent(st, prio, queued, cur, idle, ChooseNew, {})
  {
  }

  /**
   setPriority on another thread fits the running one exactly when it does not lift a runnable thread
   over it.
   */
  lemma PriorityStep(st: States, prio: Priorities, queued: Flags, cur: Tid, idle: Tid, t: Tid, p: nat)
    requires Consistent(st, prio, queued, cur, idle, ResumeCurrent, {}) && t in st && t != idle && t != cur
    ensures Consistent(st, prio[t := p], queued[t := Runnable(st[t])], cur, idle, ResumeCurrent, {})
            <==> (Runnable(st[t]) ==> p <= prio[cur])
  {
    if Runnable(st[t]) && p > prio[cur] {
      assert !Below(prio[t := p], queued[t := true], {}, prio[t := p][cur]);
    }
  }

  lemma PriorityBounded(st: States, prio: Priorities, queued: Flags, cur: Tid, idle: Tid, action: Action,
                        t: Tid, p: nat)
    requires Consistent(st, prio, queued, cur, idle, action, {}) && !action.SwitchTo? && t in st && t != idle
             && p <= prio[cur]
    ensures Consistent(st, prio[t := p], queued[t := Runnable(st[t])], cur, idle,
            if t == cur then ChooseNew else action, {})
  {
  }

  /** The priority of a thread that cannot run matters to no one. */
  lemma ResetStep(st: States, prio: Priorities, queued: Flags, cur: Tid, idle: Tid, action: Action, t: Tid)
    requires Consistent(st, prio, queued, cur, idle, action, {}) && t in st && t != idle && !Runnable(st[t])
    ensures Consistent(st, prio[t := 0], queued, cur, idle, action, {}) && !queued[t]
  {
  }

  /** A thread is queued anew with its own priority. */
  lemma DomainStep(st: States, prio: Priorities, queued: Flags, cur: Tid, idle: Tid, action: Action, t: Tid)
    requires Consistent(st, prio, queued, cur, idle, action, {}) && !action.SwitchTo? && t in st && t != idle
    ensures Consistent(st, prio, queued[t := Runnable(st[t])], cur, idle, if t == cur then ChooseNew else action, {})
  {
  }

  /** The running thread puts itself in its queue, at the end or at the head. */
  lemma RequeuedStep(st: States, prio: Priorities, queued: Flags, cur: Tid, idle: Tid, action: Action)
    requires Consistent(st, prio, queued, cur, idle, action, {}) && !action.SwitchTo? && Runnable(st[cur])
    ensures Consistent(st, prio, queued[cur := true], cur, idle, ChooseNew, {})
  {
  }

  /** When the running thread goes to the end of its queue, the next one in that queue has its turn. */
  lemma NextInTurn(st: States, prio: Priorities, queued: Flags, cur: Tid, idle: Tid, ready: seq<seq<Tid>>)
    requires Consistent(st, prio, queued, cur, idle, ResumeCurrent, {})
    requires RQ.Placed(ready, prio, queued) && |ready| == RQ.NUM_PRIORITIES
    ensures prio[cur] < |ready|
    ensures var turns := RQ.At(ready, prio[cur]) + [cur];
            && RQ.FirstReady(RQ.Put(ready, prio[cur], turns), RQ.NUM_PRIORITIES) == turns[0]
            && turns[0] in prio && prio[turns[0]] == prio[cur] && turns[0] != NULL && (turns[0] == idle ==> cur == idle)
            && turns[0] in queued && (turns[0] != cur ==> queued[turns[0]])
  {
    var p := prio[cur];
    forall q | p < q < RQ.NUM_PRIORITIES
      ensures ready[q] == []
    {
      if ready[q] != [] {
        RQ.HeadIsQueued(ready, prio, queued, q);
      }
    }
    assert ready[p] != [] ==> ready[p][0] in ready[p];
    RQ.FirstReadyAt(ready[p := ready[p] + [cur]], RQ.NUM_PRIORITIES, p);
  }

  class Scheduler {
    const rq: RQ.ReadyQueues
    const idle: Tid
    var st: States
    var slice: Priorities
    var cur: Tid
    var action: Action

    ghost predicate Valid(flight: set<Tid>)
      reads this, rq, rq.links
    {
      && rq.Valid()
      && slice.Keys == st.Keys
      && Consistent(st, rq.prio, rq.queued, cur, idle, action, flight)
    }

    ghost predicate Resumed()
      reads this, rq
    {
      AtUser(st, rq.prio, rq.queued, cur, idle)
    }

    ghost function Planned(): Plan
      reads this, rq
    {
      Plan(rq.ready, rq.queued, action)
    }

    /** Start-up: the initial thread runs, the other TCBs are inactive. */
    constructor (priorities: Priorities, idle: Tid, initial: Tid)
      requires NULL !in priorities && forall t :: t in priorities ==> priorities[t] < RQ.NUM_PRIORITIES
      requires idle in priorities && initial in priorities && idle != initial && priorities[idle] == 0
      ensures Valid({}) && fresh(rq) && fresh(rq.links)
      ensures cur == initial && action == ResumeCurrent && this.idle == idle && rq.prio == priorities
      ensures st == InitialStates(priorities.Keys, idle, initial) && st.Keys == priorities.Keys
      ensures slice == (map t | t in priorities :: TIME_SLICE)
      ensures Planned() == Plan(RQ.NoneQueued(), map t | t in priorities :: false, ResumeCurrent)
    {
      rq := new RQ.ReadyQueues(priorities);
      this.idle := idle;
      st := InitialStates(priorities.Keys, idle, initial);
      slice := map t | t in priorities :: TIME_SLICE;
      cur := initial;
      action := ResumeCurrent;
    }

    /** rescheduleRequired: a thread that was to be switched to is queued instead. */
    method RescheduleRequired()
      requires rq.Valid() && (action.SwitchTo? ==> action.thread in rq.prio)
      modifies this`action, rq, rq.links
      ensures rq.Valid() && rq.prio == old(rq.prio) && action == ChooseNew
      ensures Planned() == Rescheduling(old(Planned()), rq.prio)
      ensures rq.queued == if old(action).SwitchTo? then old(rq.queued)[old(action).thread := true] else old(rq.queued)
    {
      hide RQ.ReadyQueues.Valid;
      if action != ResumeCurrent && action != ChooseNew {
        rq.Enqueue(action.thread);
      }
      action := ChooseNew;
    }

    /**
     scheduleTCB, after the state of `t` has changed: if the current thread can no longer run, and only that
     is in the way of consistency, consistency is restored by leaving the choice of a thread to the end.
     `flags` are the queue flags once `t` has left its ready queue, which suspend does after this.
     */
    method ScheduleTCB(t: Tid, ghost flags: Flags, ghost flight: set<Tid>)
      requires t in st
      requires || Consistent(st, rq.prio, flags, cur, idle, action, flight)
               || (t == cur && action == ResumeCurrent && !Runnable(st[t])
                   && Consistent(st, rq.prio, flags, cur, idle, ChooseNew, flight))
      modifies this`action
      ensures Consistent(st, rq.prio, flags, cur, idle, action, flight)
      ensures action != old(action) ==> action == ChooseNew
      ensures action != old(action) <==> t == cur && old(action) == ResumeCurrent && !Runnable(st[t])
    {
      if t == cur && action == ResumeCurrent && !Runnable(st[t]) {
        action := ChooseNew;
      }
    }

    /** setThreadState: the thread becomes runnable, and is then in flight unless it is the current one. */
    method SetRunnable(t: Tid, s: TState, ghost flight: set<Tid>)
      requires Valid(flight) && t in st && t != idle && Runnable(s)
      modifies this`st, this`action
      ensures st == old(st)[t := s] && st.Keys == old(st).Keys && action == old(action)
      ensures Valid(flight + {t}) && (flight == {} ==> Valid({t}))
      ensures t == cur || Runnable(old(st)[t]) ==> Valid(flight)
    {
      hide Consistent, RQ.ReadyQueues.Valid, Base;
      Fields(st, rq.prio, rq.queued, cur, idle, action, flight);
      WokenStep(st, rq.prio, rq.queued, cur, idle, action, flight, t, s);
      assert flight == {} ==> flight + {t} == {t};
      st := st[t := s];
      ScheduleTCB(t, rq.queued, flight + {t});
    }

    /**
     setThreadState: a thread that is in no ready queue, nor about to be switched to, stops being
     runnable.
     */
    method SetBlocked(t: Tid, s: TState, ghost flight: set<Tid>)
      requires Valid(flight) && t in st && t != idle && Blocked(s)
      requires t in rq.queued && !rq.queued[t] && action != SwitchTo(t)
      modifies this`st, this`action
      ensures st == old(st)[t := s] && st.Keys == old(st).Keys
      ensures Valid(flight - {t}) && (flight == {} ==> Valid({}))
      ensures action == if t == cur && old(action) == ResumeCurrent then ChooseNew else old(action)
      ensures Planned() == Stopping(old(Planned()), cur, t)
    {
      hide Consistent, RQ.ReadyQueues.Valid, Base;
      Fields(st, rq.prio, rq.queued, cur, idle, action, flight);
      BlockedStep(st, rq.prio, rq.queued, cur, idle, action, flight, t, s);
      assert flight == {} ==> flight - {t} == {};
      assert rq.queued[t := false] == rq.queued;
      st := st[t := s];
      ScheduleTCB(t, rq.queued, flight - {t});
    }

    /** The second half of suspend: the thread stops being runnable and leaves its ready queue. */
    method Deactivate(t: Tid)
      requires Valid({}) && t in st && t != idle && action != SwitchTo(t)
      modifies this`st, this`action, rq, rq.links
      ensures st == old(st)[t := Inactive] && st.Keys == old(st).Keys && rq.prio == old(rq.prio)
              && rq.queued == old(rq.queued)[t := false]
      ensures Valid({}) && t in rq.prio
      ensures action == if t == cur && old(action) == ResumeCurrent then ChooseNew else old(action)
      ensures Planned() == Dequeuing(Stopping(old(Planned()), cur, t), rq.prio, t)
    {
      hide Consistent, RQ.ReadyQueues.Valid, Base;
      Fields(st, rq.prio, rq.queued, cur, idle, action, {});
      BlockedStep(st, rq.prio, rq.queued, cur, idle, action, {}, t, Inactive);
      assert {} - {t} == {};
      st := st[t := Inactive];
      ScheduleTCB(t, rq.queued[t := false], {});
      rq.Dequeue(t);
    }

    lemma Facts(flight: set<Tid>)
      requires Valid(flight)
      ensures st.Keys == rq.prio.Keys && st.Keys == rq.queued.Keys && cur in st && idle in st && NULL !in st
      ensures st[idle].IdleThreadState? && (forall t :: t in st && st[t].IdleThreadState? ==> t == idle)
      ensures forall t :: t in st && rq.queued[t] ==> Runnable(st[t])
      ensures action != ChooseNew ==> !rq.queued[cur]
      ensures action == ResumeCurrent ==> Runnable(st[cur]) || cur == idle
      ensures action.SwitchTo? ==> action.thread in st && Runnable(st[action.thread]) && action.thread != cur
    {
    }

    lemma Current(flight: set<Tid>)
      requires Valid(flight)
      ensures cur in st && cur in rq.prio && cur in rq.queued && (action != ChooseNew ==> !rq.queued[cur])
      ensures action.SwitchTo? ==> action.thread != cur
      ensures action == ResumeCurrent ==> Runnable(st[cur]) || cur == idle
      ensures idle in st && st[idle].IdleThreadState? && NULL !in st
    {
    }

    lemma RunsOn()
      requires Valid({}) && action == ResumeCurrent && cur in st && !st[cur].Restart?
      ensures Resumed()
    {
      ResumedIsAtUser(st, rq.prio, rq.queued, cur, idle);
    }

    lemma HasSlice(flight: set<Tid>)
      requires Valid(flight)
      ensures cur in st && cur in slice
    {
    }

    /** One round of the loops that restart every thread of a queue. */
    method RestartAndQueue(t: Tid, ghost flight: set<Tid>)
      requires Valid(flight) && t in st && t != idle && (action != ChooseNew ==> t != cur)
      modifies this`st, this`action, rq, rq.links
      ensures Valid(flight + {t}) && rq.prio == old(rq.prio) && action == old(action)
      ensures st == old(st)[t := Restart] && st.Keys == old(st).Keys && rq.queued == old(rq.queued)[t := true]
      ensures t in rq.prio && Planned() == Queueing(old(Planned()), rq.prio, t, true)
    {
      hide Consistent, RQ.ReadyQueues.Valid, Base;
      Fields(st, rq.prio, rq.queued, cur, idle, action, flight);
      SetRunnable(t, Restart, flight);
      QueuedInFlight(st, rq.prio, rq.queued, cur, idle, action, flight + {t}, t);
      rq.Enqueue(t);
    }

    /** rescheduleRequired at the end of such a loop. */
    method RescheduleAll(ghost flight: set<Tid>)
      requires Valid(flight) && forall t :: t in flight ==> t in rq.queued && rq.queued[t]
      modifies this`action, rq, rq.links
      ensures Valid({}) && rq.prio == old(rq.prio) && action == ChooseNew
      ensures Planned() == Rescheduling(old(Planned()), rq.prio)
    {
      hide Consistent, RQ.ReadyQueues.Valid, Base;
      Fields(st, rq.prio, rq.queued, cur, idle, action, flight);
      ForgottenStep(st, rq.prio, rq.queued, cur, idle, action, flight);
      RescheduleRequired();
      Landed(st, rq.prio, rq.queued, cur, idle, flight);
    }

    /**
     A thread that has been woken is to run next exactly if its priority is higher than the current thread's, or
     the same where that is enough, and is in a ready queue otherwise.
     */
    ghost predicate Promoted(t: Tid, onSamePriority: bool)
      reads this, rq
    {
      && t in rq.prio && cur in rq.prio && t in rq.queued
      && (action == SwitchTo(t) <==> rq.prio[t] > rq.prio[cur] || (onSamePriority && rq.prio[t] == rq.prio[cur]))
      && (action != SwitchTo(t) ==> rq.queued[t])
    }

    /** possibleSwitchTo, with the threads made runnable before it. */
    method PossibleSwitchTo(target: Tid, onSamePriority: bool, ghost flight: set<Tid>)
      requires Valid(flight) && target in st && Runnable(st[target])
      requires action != ChooseNew ==> target != cur
      modifies this`action, rq, rq.links
      ensures Valid(flight - {target}) && (flight <= {target} ==> Valid({})) && rq.prio == old(rq.prio)
      ensures action.SwitchTo? ==> action.thread == target
      ensures !old(action).SwitchTo? ==> action == old(action) || action == SwitchTo(target)
      ensures rq.queued.Keys == old(rq.queued).Keys
      ensures forall t :: t in rq.queued && t != target && old(action) != SwitchTo(t) ==>
                rq.queued[t] == old(rq.queued)[t]
      ensures action == SwitchTo(target)
              <==> && old(action) == ResumeCurrent
                   && (rq.prio[target] > rq.prio[cur] || (rq.prio[target] == rq.prio[cur] && onSamePriority))
      ensures Planned() == Switching(old(Planned()), rq.prio, cur, target, onSamePriority)
      ensures old(action) == ResumeCurrent ==> Promoted(target, onSamePriority)
    {
      hide Consistent, RQ.ReadyQueues.Valid, Base;
      Fields(st, rq.prio, rq.queued, cur, idle, action, flight);
      assert flight <= {target} ==> flight - {target} == {};
      var curPrio, targetPrio := rq.prio[cur], rq.prio[target];
      var was := action;
      if (targetPrio > curPrio || (targetPrio == curPrio && onSamePriority)) && action == ResumeCurrent {
        SwitchStep(st, rq.prio, rq.queued, cur, idle, flight, target);
        action := SwitchTo(target);
      } else {
        ghost var q := rq.queued;
        rq.Enqueue(target);
        if was == ResumeCurrent || was == ChooseNew {
          QueuedStep(st, rq.prio, q, cur, idle, action, flight, target);
        } else {
          QueuedBesideStep(st, rq.prio, q, cur, idle, action, flight, target);
        }
      }
      if was != ResumeCurrent && was != ChooseNew {
        RescheduleRequired();
      }
    }

    /** setThreadState followed by attemptSwitchTo or switchIfRequiredTo. */
    method Wake(t: Tid, s: TState, onSamePriority: bool)
      requires Valid({}) && t in st && t != idle && Runnable(s) && (action != ChooseNew ==> t != cur)
      modifies this`st, this`action, rq, rq.links
      ensures Valid({}) && st == old(st)[t := s] && st.Keys == old(st).Keys && rq.prio == old(rq.prio)
      ensures action.SwitchTo? ==> action.thread == t
      ensures !old(action).SwitchTo? ==> action == old(action) || action == SwitchTo(t)
      ensures rq.queued.Keys == old(rq.queued).Keys
      ensures forall u :: u in rq.queued && u != t && old(action) != SwitchTo(u) ==> rq.queued[u] == old(rq.queued)[u]
      ensures t in rq.prio && cur in rq.prio
      ensures action == SwitchTo(t)
              <==> && old(action) == ResumeCurrent
                   && (rq.prio[t] > rq.prio[cur] || (rq.prio[t] == rq.prio[cur] && onSamePriority))
      ensures Planned() == Switching(old(Planned()), rq.prio, cur, t, onSamePriority)
      ensures old(action) == ResumeCurrent ==> Promoted(t, onSamePriority)
    {
      hide Consistent, RQ.ReadyQueues.Valid, Base;
      Fields(st, rq.prio, rq.queued, cur, idle, action, {});
      SetRunnable(t, s, {});
      PossibleSwitchTo(t, onSamePriority, {t});
    }

    /** activateThread: its failure branch is never taken. */
    method ActivateThread()
      requires Valid({}) && action == ResumeCurrent
      modifies this`st, this`action
      ensures Valid({}) && action == ResumeCurrent && Resumed()
      ensures st == (if old(st)[cur].Restart? then old(st)[cur := Running] else old(st)) && st.Keys == old(st).Keys
    {
      hide RQ.ReadyQueues.Valid;
      match st[cur]
      case Running =>
        ResumedIsAtUser(st, rq.prio, rq.queued, cur, idle);
      case Restart =>
        SetRunnable(cur, Running, {});
        ResumedIsAtUser(st, rq.prio, rq.queued, cur, idle);
      case IdleThreadState =>
        ResumedIsAtUser(st, rq.prio, rq.queued, cur, idle);
      case _ =>
        assert false;
    }

    /** switchToThread */
    method SwitchToThread(t: Tid)
      requires rq.Valid() && t in rq.prio && t in rq.queued
      modifies this`cur, rq, rq.links
      ensures rq.Valid() && cur == t && rq.prio == old(rq.prio) && rq.queued == old(rq.queued)[t := false]
      ensures Planned() == Dequeuing(old(Planned()), rq.prio, t)
    {
      hide RQ.ReadyQueues.Valid;
      rq.Dequeue(t);
      cur := t;
    }

    /** chooseThread: its two assertions hold. */
    method ChooseThread()
      requires rq.Valid() && Base(st, rq.prio, rq.queued, cur, idle)
      modifies this`cur, rq, rq.links
      ensures rq.Valid() && rq.prio == old(rq.prio)
      ensures cur == if RQ.FirstReady(old(rq.ready), RQ.NUM_PRIORITIES) == NULL then idle
                     else RQ.FirstReady(old(rq.ready), RQ.NUM_PRIORITIES)
      ensures cur in st && cur in rq.prio && cur in rq.queued && rq.queued == old(rq.queued)[cur := false]
      ensures Planned() == Dequeuing(old(Planned()), rq.prio, cur)
      ensures (cur == idle && forall t :: t in old(rq.queued) ==> !old(rq.queued)[t])
              || (old(rq.queued)[cur] && RQ.At(old(rq.ready), rq.prio[cur]) != []
                  && rq.ready == RQ.Put(old(rq.ready), rq.prio[cur], RQ.At(old(rq.ready), rq.prio[cur])[1..])
                  && forall t :: t in old(rq.queued) && old(rq.queued)[t] ==> rq.prio[t] <= rq.prio[cur])
    {
      hide RQ.ReadyQueues.Valid;
      NotDequeued(Planned(), rq.prio, idle);
      var thread := rq.Choose();
      if thread != NULL {
        assert Runnable(st[thread]);
        SwitchToThread(thread);
      } else {
        cur := idle;
      }
    }

    /** schedule */
    method Schedule()
      requires Valid({})
      modifies this`cur, this`action, rq, rq.links
      ensures Valid({}) && action == ResumeCurrent && rq.prio == old(rq.prio)
      ensures cur == Next(old(Planned()), st, rq.prio, old(cur), idle) && cur in rq.prio
      ensures Planned() == Choosing(old(Planned()), st, rq.prio, old(cur), idle)
    {
      hide Consistent, RQ.ReadyQueues.Valid, Base, Dequeuing, Standing, RQ.FirstReady, RQ.Put, RQ.At;
      Fields(st, rq.prio, rq.queued, cur, idle, action, {});
      ghost var q, c := rq.queued, cur;
      if action == ChooseNew {
        StandAside();
        BaseQueued(st, rq.prio, q, cur, idle);
        ChooseThread();
        TakeOver(st, rq.prio, q, c, idle, action, cur);
        action := ResumeCurrent;
      } else if action != ResumeCurrent {
        TakeOver(st, rq.prio, q, c, idle, action, action.thread);
        StandAside();
        SwitchToThread(action.thread);
        action := ResumeCurrent;
      }
    }

    /** A current thread that can go on running is queued. */
    method StandAside()
      requires rq.Valid() && cur in rq.prio && cur in st && action != ResumeCurrent
      modifies rq, rq.links
      ensures rq.Valid() && rq.prio == old(rq.prio) && |rq.ready| == RQ.NUM_PRIORITIES
      ensures rq.queued == if Runnable(st[cur]) then old(rq.queued)[cur := true] else old(rq.queued)
      ensures Planned() == Standing(old(Planned()), st, rq.prio, cur)
    {
      hide RQ.ReadyQueues.Valid, RQ.Placed;
      if Runnable(st[cur]) {
        rq.Enqueue(cur);
      }
      rq.Facts();
    }

    /** setPriority, with the bound that decodeSetPriority puts on the new priority. */
    method SetPriority(t: Tid, p: nat)
      requires Valid({}) && !action.SwitchTo? && t in st && t != idle && p <= rq.prio[cur]
      modifies this`action, rq, rq.links
      ensures Valid({}) && !action.SwitchTo? && t in old(rq.prio) && t in old(rq.queued)
      ensures rq.prio == old(rq.prio)[t := p] && rq.queued == old(rq.queued)[t := Runnable(st[t])]
      ensures Planned() == Reprioritising(old(Planned()), old(rq.prio), cur, t, Runnable(st[t]), p)
      ensures action == if t == cur then ChooseNew else old(action)
    {
      hide Consistent, RQ.ReadyQueues.Valid, RQ.Placed, Base;
      rq.Facts();
      Fields(st, rq.prio, rq.queued, cur, idle, action, {});
      PriorityBounded(st, rq.prio, rq.queued, cur, idle, action, t, p);
      assert rq.queued[t := false][t := true] == rq.queued[t := true];
      rq.Dequeue(t);
      rq.SetPriority(t, p);
      if Runnable(st[t]) {
        rq.Enqueue(t);
      }
      if t == cur {
        RescheduleRequired();
      }
    }

    /** setDomain, where there is one domain: the thread goes to the head of its own queue. */
    method SetDomain(t: Tid)
      requires Valid({}) && !action.SwitchTo? && t in st && t != idle
      modifies this`action, rq, rq.links
      ensures Valid({}) && !action.SwitchTo? && t in rq.prio && t in old(rq.queued)
      ensures rq.prio == old(rq.prio) && rq.queued == old(rq.queued)[t := Runnable(st[t])]
      ensures Planned() == Reprioritising(old(Planned()), rq.prio, cur, t, Runnable(st[t]), rq.prio[t])
      ensures action == if t == cur then ChooseNew else old(action)
    {
      hide Consistent, RQ.ReadyQueues.Valid, RQ.Placed, Base;
      Fields(st, rq.prio, rq.queued, cur, idle, action, {});
      DomainStep(st, rq.prio, rq.queued, cur, idle, action, t);
      assert rq.queued[t := false][t := true] == rq.queued[t := true];
      rq.Dequeue(t);
      if Runnable(st[t]) {
        rq.Enqueue(t);
      }
      if t == cur {
        RescheduleRequired();
      }
    }

    /** The zeroing of a TCB that is created or recycled; it is in no ready queue, as asserted. */
    method Reset(t: Tid)
      requires Valid({}) && t in st && t != idle && st[t].Inactive?
      modifies this`slice, rq
      ensures Valid({}) && rq.prio == old(rq.prio)[t := 0] && rq.queued == old(rq.queued) && rq.ready == old(rq.ready)
      ensures t in rq.queued && !rq.queued[t] && slice == old(slice)[t := TIME_SLICE]
    {
      hide Consistent, RQ.ReadyQueues.Valid, Base;
      Fields(st, rq.prio, rq.queued, cur, idle, action, {});
      ResetStep(st, rq.prio, rq.queued, cur, idle, action, t);
      rq.SetPriority(t, 0);
      slice := slice[t := TIME_SLICE];
    }

    /** handleYield */
    method Yield()
      requires Valid({}) && action == ResumeCurrent && Runnable(st[cur])
      modifies this`action, rq, rq.links
      ensures Valid({}) && rq.prio == old(rq.prio) && action == ChooseNew && rq.queued == old(rq.queued)[cur := true]
      ensures rq.ready == RQ.Put(old(rq.ready), rq.prio[cur], RQ.At(old(rq.ready), rq.prio[cur]) + [cur])
      ensures cur in rq.prio && Planned() == Yielding(old(Planned()), rq.prio, cur)
    {
      hide Consistent, RQ.ReadyQueues.Valid, Base;
      Fields(st, rq.prio, rq.queued, cur, idle, action, {});
      RequeuedStep(st, rq.prio, rq.queued, cur, idle, action);
      assert rq.queued[cur := false] == rq.queued;
      rq.Dequeue(cur);
      rq.Append(cur);
      RescheduleRequired();
    }

    /** timerTick */
    method TimerTick()
      requires Valid({}) && !action.SwitchTo?
      modifies this`action, this`slice, rq, rq.links
      ensures Valid({}) && rq.prio == old(rq.prio)
      ensures !Runnable(st[cur]) ==> slice == old(slice) && Planned() == old(Planned())
      ensures Runnable(st[cur]) && old(slice)[cur] > 1 ==>
                slice == old(slice)[cur := old(slice)[cur] - 1] && Planned() == old(Planned())
      ensures Runnable(st[cur]) && old(slice)[cur] <= 1 ==>
                && slice == old(slice)[cur := TIME_SLICE] && cur in rq.prio
                && Planned() == Rescheduling(Queueing(old(Planned()), rq.prio, cur, false), rq.prio)
    {
      hide Consistent, RQ.ReadyQueues.Valid, Base;
      Fields(st, rq.prio, rq.queued, cur, idle, action, {});
      if Runnable(st[cur]) {
        RequeuedStep(st, rq.prio, rq.queued, cur, idle, action);
        if slice[cur] > 1 {
          slice := slice[cur := slice[cur] - 1];
        } else {
          slice := slice[cur := TIME_SLICE];
          rq.Append(cur);
          RescheduleRequired();
        }
      }
    }

    /**
     A timer interrupt that ends the running thread's time slice: round robin among the threads of its
     priority. The first of the queue runs, and the one that ran is now the last.
     */
    method RoundRobin()
      requires Valid({}) && action == ResumeCurrent && Runnable(st[cur]) && slice[cur] <= 1
      modifies this, rq, rq.links
      ensures Valid({}) && Resumed() && rq.prio == old(rq.prio)
      ensures var p := old(rq.prio[cur]);
              var turns := RQ.At(old(rq.ready), p) + [old(cur)];
              cur == turns[0] && rq.ready == RQ.Put(old(rq.ready), p, turns[1..])
    {
      hide Consistent, AtUser, RQ.ReadyQueues.Valid, RQ.FirstReady, RQ.Placed, Base, Next, Choosing;
      rq.Facts();
      NextInTurn(st, rq.prio, rq.queued, cur, idle, rq.ready);
      Fields(st, rq.prio, rq.queued, cur, idle, action, {});
      InTurn(Planned(), st, rq.prio, cur, idle);
      TimerTick();
      Schedule();
      ActivateThread();
    }
  }
}
