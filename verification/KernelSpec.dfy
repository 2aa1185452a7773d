/**
 What the kernel does to threads and objects, on values: thread states, the queues of objects as sequences,
 signals as the sequence of those pending, the ready queues as sequences, and no links, words or bitmaps.
 `Kernel` is the code and comes to exactly this.
 */
module KernelSpec {
  import opened TcbQueues
  import opened Scheduler
  import opened Endpoints
  import RQ = ReadyQueues

  type Badges = map<Tid, bv32>

  /** The thread bound to each async endpoint, and the async endpoint bound to each thread. */
  datatype Bound = Bound(tcb: map<nat, Tid>, aep: map<Tid, nat>)
  {
    /** The thread of an async endpoint knows of it. */
    ghost predicate Known() {
      forall a :: a in tcb ==> tcb[a] in aep && aep[tcb[a]] == a
    }

    /** The async endpoint of a thread knows of the thread, too. */
    ghost predicate Mutual() {
      Known() && forall t :: t in aep ==> aep[t] in tcb && tcb[aep[t]] == t
    }
  }

  /** What a thread's fault handler slot leads to. */
  datatype Handler = NoHandler | Handler(ep: nat, badge: bv32)

  /** The capability a thread waits on. */
  datatype Waitable = OnEp(id: nat, canReceive: bool, diminish: bool) | OnAep(id: nat, canReceive: bool) | OnNothing

  datatype State = State(st: States, prio: Priorities, slice: Priorities, cur: Tid, idle: Tid, plan: Plan,
                         q: Waiting, pending: map<nat, seq<bv32>>, caps: ReplyCaps, caller: CallerSlot,
                         badges: Badges, faulted: set<Tid>, bound: Bound)
  {
    /** The threads that wait on an object, the first of them first. */
    ghost function Queue(c: Chan): seq<Tid> {
      if c in q then q[c] else []
    }

    ghost function Signals(a: nat): seq<bv32> {
      if a in pending then pending[a] else []
    }

    ghost function Of(t: Tid): TState {
      if t in st then st[t] else Inactive
    }

    ghost predicate HasReceiver(e: nat) {
      Queue(Ep(e)) != [] && Of(Queue(Ep(e))[0]).BlockedOnReceive?
    }

    ghost predicate HasSender(e: nat) {
      Queue(Ep(e)) != [] && Of(Queue(Ep(e))[0]).BlockedOnSend?
    }
  }

  function All<K, V>(keys: set<K>, v: V): map<K, V> {
    map k | k in keys :: v
  }

  function Chans(eps: set<nat>, aeps: set<nat>): set<Chan> {
    (set e | e in eps :: Ep(e)) + (set a | a in aeps :: Aep(a))
  }

  /** The state after start-up: the initial thread runs, the other threads are inactive, every object is idle. */
  ghost function Initial(priorities: Priorities, idle: Tid, initial: Tid, caller: CallerSlot, eps: set<nat>,
                         aeps: set<nat>): State
  {
    State(InitialStates(priorities.Keys, idle, initial), priorities, map t | t in priorities :: TIME_SLICE, initial,
          idle, Plan(RQ.NoneQueued(), map t | t in priorities :: false, ResumeCurrent),
          All<Chan, seq<Tid>>(Chans(eps, aeps), []), All<nat, seq<bv32>>(aeps, []), map[], caller, map[], {},
          Bound(map[], map[]))
  }

  // ---------------------------------------------------------------------------------------
  // Threads
  // ---------------------------------------------------------------------------------------

  /** A thread gets into a state in which it cannot run. */
  ghost function Blocking(s: State, t: Tid, x: TState): State {
    s.(st := s.st[t := x], plan := Stopping(s.plan, s.cur, t))
  }

  /** A thread gets into a state in which it can run, and the scheduler is told. */
  ghost function Waking(s: State, t: Tid, x: TState, onSamePriority: bool): State {
    s.(st := s.st[t := x],
       plan := if t in s.prio && s.cur in s.prio then Switching(s.plan, s.prio, s.cur, t, onSamePriority) else s.plan)
  }

  ghost function Leaving(s: State, c: Chan, t: Tid): State {
    s.(q := s.q[c := Minus(s.Queue(c), t)])
  }

  ghost function Joining(s: State, c: Chan, t: Tid, x: TState): State {
    Blocking(s.(q := s.q[c := s.Queue(c) + [t]]), t, x)
  }

  /** A thread that waits for a message gets it and runs. */
  ghost function Delivering(s: State, c: Chan, t: Tid, badge: bv32, onSamePriority: bool): State {
    Waking(Leaving(s, c, t).(badges := s.badges[t := badge]), t, Running, onSamePriority)
  }

  /** ipcCancel: the thread waits for nothing any more; one that waits for a reply has no reply cap any more. */
  ghost function Cancelling(s: State, t: Tid): State {
    if WaitsForNone(s.Of(t)) then
      s.(caps := NotFor(s.caps, t), faulted := if s.Of(t).BlockedOnReply? then s.faulted - {t} else s.faulted)
    else Leaving(s, ChanOf(s.Of(t)), t).(st := s.st[t := Inactive])
  }

  /** suspend */
  ghost function Suspending(s: State, t: Tid): State {
    var c := Cancelling(s, t);
    c.(st := c.st[t := Inactive],
       caps := if t in c.caller then c.caps - {c.caller[t]} else c.caps,
       plan := if t in c.prio then Dequeuing(Stopping(c.plan, c.cur, t), c.prio, t) else c.plan)
  }

  /** restart: a thread that is not running is queued, and runs at once if its priority is higher. */
  ghost function Restarting(s: State, t: Tid): State {
    if s.Of(t).Running? || s.Of(t).Restart? || t !in s.prio then s
    else
      var c := Cancelling(s, t);
      Waking(c.(plan := Queueing(c.plan, s.prio, t, true)), t, Restart, false)
  }

  // ---------------------------------------------------------------------------------------
  // Messages and signals
  // ---------------------------------------------------------------------------------------

  /** The sender of a call or fault waits for the reply that the receiver has the cap for, or is stopped. */
  ghost function Awaiting(s: State, sender: Tid, receiver: Tid, mayReply: bool): State {
    if mayReply && receiver in s.caller then
      Blocking(s.(caps := s.caps[s.caller[receiver] := sender]), sender, BlockedOnReply)
    else Blocking(s, sender, Inactive)
  }

  /** sendIPC: the message reaches the first receiver, or the sender waits with it, or it is dropped. */
  ghost function Sending(s: State, blocking: bool, doCall: bool, badge: bv32, canGrant: bool, thread: Tid, e: nat)
    : State
  {
    if s.HasReceiver(e) then
      var dest := s.Queue(Ep(e))[0];
      var s' := Delivering(s, Ep(e), dest, badge, true);
      if doCall || thread in s.faulted then Awaiting(s', thread, dest, canGrant && !s.Of(dest).diminish) else s'
    else if blocking then Joining(s, Ep(e), thread, BlockedOnSend(e, badge, canGrant, doCall))
    else s
  }

  /** A thread gets all the pending signals of an async endpoint at once. */
  ghost function Collecting(s: State, thread: Tid, a: nat): State {
    s.(pending := s.pending[a := []], badges := s.badges[thread := OrAll(s.Signals(a))])
  }

  /** receiveIPC: the signals of the bound async endpoint, or the message of the first sender, or a place to wait. */
  ghost function Receiving(s: State, thread: Tid, e: nat, diminish: bool): State {
    if thread in s.bound.aep && s.Signals(s.bound.aep[thread]) != [] then Collecting(s, thread, s.bound.aep[thread])
    else if s.HasSender(e) then Taking(s, thread, e, diminish)
    else Joining(s, Ep(e), thread, BlockedOnReceive(e, diminish))
  }

  /** The first sender of an endpoint is served, and goes on, or waits for the reply, or is stopped. */
  ghost function Taking(s: State, thread: Tid, e: nat, diminish: bool): State
    requires s.HasSender(e)
  {
    var sender := s.Queue(Ep(e))[0];
    var s' := Leaving(s, Ep(e), sender).(badges := s.badges[thread := s.Of(sender).badge]);
    if s.Of(sender).isCall || sender in s.faulted then
      Awaiting(s', sender, thread, s.Of(sender).canGrant && !diminish)
    else Waking(s', sender, Running, false)
  }

  /** receiveAsyncIPC: the pending signals, or none if it is a poll, or a place to wait. */
  ghost function ReceivingAsync(s: State, thread: Tid, a: nat, blocking: bool): State {
    if s.Signals(a) != [] then Collecting(s, thread, a)
    else if blocking then Joining(s, Aep(a), thread, BlockedOnAsyncEvent(a))
    else s.(badges := s.badges[thread := 0])
  }

  /** sendAsyncIPC: to the first thread that waits, or to the bound thread if it is receiving, or it is pending. */
  ghost function Signalling(s: State, a: nat, badge: bv32): State {
    if s.Queue(Aep(a)) != [] then Delivering(s, Aep(a), s.Queue(Aep(a))[0], badge, false)
    else if s.Signals(a) == [] && a in s.bound.tcb && s.Of(s.bound.tcb[a]).BlockedOnReceive? then
      Delivering(s, ChanOf(s.Of(s.bound.tcb[a])), s.bound.tcb[a], badge, true)
    else s.(pending := s.pending[a := s.Signals(a) + [badge]])
  }

  /** doReplyTransfer: the reply cap is used up, and the thread it stood for goes on as its fault, if any, allows. */
  ghost function Replying(s: State, slot: Slot, mayRestart: bool): State {
    if slot !in s.caps then s
    else
      var client := s.caps[slot];
      var s' := s.(caps := s.caps - {slot}, faulted := s.faulted - {client});
      if client !in s.faulted then Waking(s'.(badges := s.badges[client := 0]), client, Running, true)
      else if mayRestart then Waking(s', client, Restart, true)
      else Blocking(s', client, Inactive)
  }

  /** handleFault: the fault is sent to the handler as a call; without a handler the thread is stopped. */
  ghost function Faulting(s: State, thread: Tid, handler: Handler): State {
    if handler.Handler? && Ep(handler.ep) in s.q then
      Sending(s.(faulted := s.faulted + {thread}), true, false, handler.badge, true, thread, handler.ep)
    else Blocking(s, thread, Inactive)
  }

  /** handleWait */
  ghost function WaitingOn(s: State, thread: Tid, what: Waitable, blocking: bool, handler: Handler): State {
    if what.OnEp? && Ep(what.id) in s.q && what.canReceive && blocking && thread in s.caller then
      Receiving(s.(caps := s.caps - {s.caller[thread]}), thread, what.id, what.diminish)
    else if what.OnAep? && Aep(what.id) in s.q && what.canReceive
            && (what.id in s.bound.tcb ==> s.bound.tcb[what.id] == thread) then
      ReceivingAsync(s, thread, what.id, blocking)
    else Faulting(s, thread, handler)
  }

  // ---------------------------------------------------------------------------------------
  // Objects that go
  // ---------------------------------------------------------------------------------------

  /** The threads of `s` restart. */
  ghost function Restarted(st: States, s: seq<Tid>): States {
    map t | t in st :: if t in s then Restart else st[t]
  }

  /** The senders of `s` with the badge, or those without it, in their order. */
  ghost function Picked(st: States, s: seq<Tid>, badge: bv32, with: bool): seq<Tid> {
    if s == [] then []
    else
      var t := s[|s| - 1];
      var has := t in st && st[t].BlockedOnSend? && st[t].badge == badge;
      Picked(st, s[..|s| - 1], badge, with) + if has == with then [t] else []
  }

  /** Threads are queued one after the other, each at the head. */
  ghost function QueueingAll(p: Plan, prio: Priorities, s: seq<Tid>): Plan {
    if s == [] then p
    else
      var t, p' := s[|s| - 1], QueueingAll(p, prio, s[..|s| - 1]);
      if t in prio then Queueing(p', prio, t, true) else p'
  }

  /** The threads of `gone` restart, all at once, and only `kept` stay in the queue. */
  ghost function Releasing(s: State, c: Chan, gone: seq<Tid>, kept: seq<Tid>): State {
    s.(q := s.q[c := kept], st := Restarted(s.st, gone),
       plan := Rescheduling(QueueingAll(s.plan, s.prio, gone), s.prio))
  }

  /** epCancelAll and aepCancelAll */
  ghost function CancellingAll(s: State, c: Chan): State {
    if s.Queue(c) == [] then s else Releasing(s, c, s.Queue(c), [])
  }

  /** epCancelBadgedSends */
  ghost function CancellingBadged(s: State, e: nat, badge: bv32): State {
    if !s.HasSender(e) then s
    else
      var senders := s.Queue(Ep(e));
      Releasing(s, Ep(e), Picked(s.st, senders, badge, true), Picked(s.st, senders, badge, false))
  }

  ghost function Unbound(bound: Bound, t: Tid): Bound {
    if t in bound.aep then Bound(bound.tcb - {bound.aep[t]}, bound.aep - {t}) else bound
  }

  /** The last cap to an async endpoint goes. */
  ghost function DeletingAep(s: State, a: nat): State {
    CancellingAll(if a in s.bound.tcb then s.(bound := Unbound(s.bound, s.bound.tcb[a])) else s, Aep(a))
  }

  /** Moving what is in one slot to another, if it is a reply cap. */
  ghost function Moved(caps: ReplyCaps, source: Slot, dest: Slot): ReplyCaps {
    if source in caps then caps[dest := caps[source]] - {source} else caps
  }

  // ---------------------------------------------------------------------------------------
  // What follows
  // ---------------------------------------------------------------------------------------

  /**
   A call and the reply to it: the caller waits, its reply cap is the one in the receiver's caller slot, and the
   reply through that slot, and no other, makes it run again and leaves the reply caps as they were.
   */
  lemma CallAndReply(s: State, blocking: bool, badge: bv32, thread: Tid, e: nat, mayRestart: bool)
    requires s.HasReceiver(e) && thread in s.st && thread !in s.faulted
    requires var dest := s.Queue(Ep(e))[0];
             dest != thread && !s.Of(dest).diminish && dest in s.caller && s.caller[dest] !in s.caps
    requires forall slot :: slot in s.caps ==> s.caps[slot] != thread
    ensures var slot := s.caller[s.Queue(Ep(e))[0]];
            var called := Sending(s, blocking, true, badge, true, thread, e);
            var replied := Replying(called, slot, mayRestart);
            && called.Of(thread).BlockedOnReply?
            && (forall c :: c in called.caps && called.caps[c] == thread <==> c == slot)
            && replied.Of(thread) == Running && replied.caps == s.caps && thread in replied.badges
            && replied.badges[thread] == 0
  {
    hide Switching, Stopping, Minus;
    var slot := s.caller[s.Queue(Ep(e))[0]];
    assert s.caps[slot := thread] - {slot} == s.caps;
  }

  /** A reply cap answers once: a second use of the slot does nothing. */
  lemma RepliesOnce(s: State, slot: Slot, mayRestart: bool, again: bool)
    ensures var s' := Replying(s, slot, mayRestart);
            slot !in s'.caps && Replying(s', slot, again) == s' && s'.caps == s.caps - {slot}
  {
    hide Switching, Stopping;
    if slot !in s.caps { assert s.caps - {slot} == s.caps; }
  }

  ghost function SignallingAll(s: State, a: nat, signals: seq<bv32>): State
    decreases |signals|
  {
    if signals == [] then s
    else Signalling(SignallingAll(s, a, signals[..|signals| - 1]), a, signals[|signals| - 1])
  }

  /** Signals that no thread is there for accumulate, and the next thread to ask gets all of them in one word. */
  lemma {:induction false} SignalsAccumulate(s: State, a: nat, signals: seq<bv32>)
    requires s.Queue(Aep(a)) == [] && a in s.pending
    requires a in s.bound.tcb ==> !s.Of(s.bound.tcb[a]).BlockedOnReceive?
    ensures SignallingAll(s, a, signals) == s.(pending := s.pending[a := s.pending[a] + signals])
    decreases |signals|
  {
    hide Delivering;
    if signals == [] {
      assert s.pending[a] + [] == s.pending[a] && s.pending[a := s.pending[a]] == s.pending;
    } else {
      var n := |signals| - 1;
      SignalsAccumulate(s, a, signals[..n]);
      assert s.pending[a] + signals[..n] + [signals[n]] == s.pending[a] + signals;
    }
  }

  lemma SignalsArrive(s: State, a: nat, signals: seq<bv32>, thread: Tid, blocking: bool)
    requires s.Queue(Aep(a)) == [] && a in s.pending && signals != []
    requires a in s.bound.tcb ==> !s.Of(s.bound.tcb[a]).BlockedOnReceive?
    ensures var s' := ReceivingAsync(SignallingAll(s, a, signals), thread, a, blocking);
            s' == s.(pending := s.pending[a := []], badges := s.badges[thread := OrAll(s.pending[a] + signals)])
  {
    hide OrAll, SignallingAll, Joining;
    SignalsAccumulate(s, a, signals);
    assert s.pending[a := s.pending[a] + signals][a := []] == s.pending[a := []];
  }

  /** Senders are served in the order in which they came. */
  lemma ServedInOrder(s: State, first: Tid, badge: bv32, second: Tid, badge': bv32, canGrant: bool, e: nat,
                      thread: Tid, diminish: bool)
    requires first != second && s.Queue(Ep(e)) == [] && thread !in s.bound.aep
    requires first !in s.faulted && second !in s.faulted && thread != first && thread != second
    ensures var waiting := Sending(Sending(s, true, false, badge, canGrant, first, e),
                                   true, false, badge', canGrant, second, e);
            var one := Receiving(waiting, thread, e, diminish);
            var two := Receiving(one, thread, e, diminish);
            && thread in one.badges && one.badges[thread] == badge && one.Of(first) == Running
            && thread in two.badges && two.badges[thread] == badge' && two.Of(second) == Running
            && two.Queue(Ep(e)) == []
  {
    hide Switching, Stopping;
    assert [first] + [second] == [first, second];
    assert Minus([first, second], first) == [second] && Minus([second], second) == [];
  }
}
