/**
 What a kernel entry does, and any number of them, on the values of `KernelSpec`. `Entry` is the code and comes to
 exactly this.
 */
module EntrySpec {
  import opened TcbQueues
  import opened Scheduler
  import opened Endpoints
  import opened KernelSpec
  import RQ = ReadyQueues

  // ---------------------------------------------------------------------------------------
  // Invocations
  // ---------------------------------------------------------------------------------------

  /** What finalising, recycling and creating objects does to threads and queues in one invocation. */
  datatype Work =
    | DeleteEndpoint(ep: nat)
    | DeleteAsyncEndpoint(aep: nat)
    | CancelBadged(ep: nat, badge: bv32)
    | SuspendThread(t: Tid)
    | DeleteThread(t: Tid)
    | ResetThread(t: Tid)
    | ResetAsyncEndpoint(aep: nat)

  datatype Irq = Timer | Signal(aep: nat, badge: bv32) | Undelivered

  datatype Option<T> = None | Some(value: T)

  /** An invocation of a capability, as far as it concerns threads and endpoints. */
  datatype Invocation =
    | SendToEp(ep: nat, badge: bv32, canGrant: bool)
    | SendToAep(aep: nat, badge: bv32)
    | ReplyTo(slot: Slot, mayRestart: bool)
    | SaveCaller(dest: Slot)
    | MoveReply(source: Slot, dest: Slot)
    | RotateReply(slot1: Slot, slot2: Slot, slot3: Slot)
    | DeleteSlot(slot: Slot)
    | SwapSlots(slot1: Slot, slot2: Slot)
    | SetPriority(t: Tid, prio: nat)
    | SetDomain(t: Tid)
    | BindAep(t: Tid, aep: nat)
    | UnbindAep(t: Tid)
    | Configure(t: Tid, prio: nat, work: seq<Work>, preempted: bool)
    | Objects(work: seq<Work>, resume: Option<Tid>, preempted: bool)
    | Rejected

  datatype Event =
    | Interrupt(irq: Irq)
    | UserFault(handler: Handler)
    | Send(inv: Invocation, blocking: bool, isCall: bool, pending: Irq)
    | SendFault(blocking: bool, handler: Handler)
    | Wait(what: Waitable, blocking: bool, handler: Handler)
    | Reply(mayRestart: bool)
    | ReplyWait(mayRestart: bool, what: Waitable, handler: Handler)
    | Yield

  /** A piece of work on an object; on one that does not exist, nothing. */
  ghost function Working(s: State, w: Work): State {
    match w
    case DeleteEndpoint(e) => CancellingAll(s, Ep(e))
    case DeleteAsyncEndpoint(a) => if Aep(a) in s.q then DeletingAep(s, a) else s
    case CancelBadged(e, b) => CancellingBadged(s, e, b)
    case SuspendThread(t) => if t in s.st && t != s.idle then Suspending(s, t) else s
    case DeleteThread(t) =>
      if t in s.st && t != s.idle then Suspending(s.(bound := Unbound(s.bound, t)), t) else s
    case ResetThread(t) =>
      if t in s.st && t != s.idle && s.st[t].Inactive? && t !in s.bound.aep then
        s.(prio := s.prio[t := 0], slice := s.slice[t := TIME_SLICE], faulted := s.faulted - {t})
      else s
    case ResetAsyncEndpoint(a) =>
      if Aep(a) in s.q && s.q[Aep(a)] == [] then s.(pending := s.pending[a := []]) else s
  }

  /** invokeTCB_Resume */
  ghost function Resuming(s: State, t: Tid): State {
    if t in s.st && t != s.idle then Restarting(s, t) else s
  }

  ghost function WorkingAll(s: State, work: seq<Work>): State
    decreases |work|
  {
    if work == [] then s else Working(WorkingAll(s, work[..|work| - 1]), work[|work| - 1])
  }

  /** A thread in one of these states is in no queue of an object. */
  predicate Unqueued(x: TState) {
    x.Restart? || x.Inactive?
  }

  /** Work on objects stops the thread that does it, if it does, or leaves it to be restarted. */
  lemma WorkSparesCaller(s: State, w: Work, t: Tid)
    requires t in s.st && Unqueued(s.st[t])
    ensures t in Working(s, w).st && Unqueued(Working(s, w).st[t])
  {
    hide Suspending, Releasing, Picked;
    forall u, bound: Bound ensures var s' := Suspending(s.(bound := bound), u); t in s'.st && Unqueued(s'.st[t]) {
      SuspendSpares(s.(bound := bound), u, t);
    }
    forall b: Bound, c, gone, kept
      ensures var s' := Releasing(s.(bound := b), c, gone, kept); t in s'.st && Unqueued(s'.st[t])
    {
      ReleaseSpares(s.(bound := b), c, gone, kept, t);
    }
    assert s == s.(bound := s.bound);
  }

  lemma SuspendSpares(s: State, u: Tid, t: Tid)
    requires t in s.st && Unqueued(s.st[t])
    ensures t in Suspending(s, u).st && Unqueued(Suspending(s, u).st[t])
  {
    hide Dequeuing, Stopping, Minus, NotFor;
  }

  lemma ReleaseSpares(s: State, c: Chan, gone: seq<Tid>, kept: seq<Tid>, t: Tid)
    requires t in s.st && Unqueued(s.st[t])
    ensures t in Releasing(s, c, gone, kept).st && Unqueued(Releasing(s, c, gone, kept).st[t])
  {
    hide QueueingAll, Rescheduling;
  }

  /** Slots that a cap may be moved into: empty ones outside TCBs. */
  ghost predicate Free(s: State, slot: Slot) {
    slot != 0 && slot !in s.caps && slot !in s.caller.Values
  }

  ghost function Moving(s: State, source: Slot, dest: Slot): State {
    if Free(s, dest) then s.(caps := Moved(s.caps, source, dest)) else s
  }

  /** setPriority, to at most the priority of the current thread. */
  ghost function Raising(s: State, t: Tid, p: nat): State {
    if t in s.st && t != s.idle && t in s.prio && s.cur in s.prio && p <= s.prio[s.cur] then
      s.(prio := s.prio[t := p],
         plan := Reprioritising(s.plan, s.prio, s.cur, t, Runnable(s.st[t]), p))
    else s
  }

  ghost predicate MayRaise(s: State, t: Tid, p: nat) {
    t in s.st && t != s.idle && s.cur in s.prio && p <= s.prio[s.cur]
  }

  /** What each invocation does; one that is not allowed, or on objects that do not exist, does nothing. */
  ghost function Performing(s: State, inv: Invocation, blocking: bool, isCall: bool): State {
    match inv
    case SendToEp(e, b, canGrant) =>
      if Ep(e) in s.q then Sending(s, blocking, isCall, b, canGrant, s.cur, e) else s
    case SendToAep(a, b) => if Aep(a) in s.q then Signalling(s, a, b) else s
    case ReplyTo(slot, mayRestart) => Replying(s, slot, mayRestart)
    case SaveCaller(dest) => if s.cur in s.caller then Moving(s, s.caller[s.cur], dest) else s
    case MoveReply(source, dest) => Moving(s, source, dest)
    case RotateReply(slot1, slot2, slot3) =>
      if slot1 != slot2 && slot2 != slot3 && slot1 != slot3 && Free(s, slot3) && slot2 != 0
         && slot2 !in s.caller.Values then
        s.(caps := Moved(Moved(s.caps, slot2, slot3), slot1, slot2))
      else s
    case SetPriority(t, p) => Raising(s, t, p)
    case SetDomain(t) =>
      if t in s.st && t != s.idle && t in s.prio then
        s.(plan := Reprioritising(s.plan, s.prio, s.cur, t, Runnable(s.st[t]), s.prio[t]))
      else s
    case BindAep(t, a) =>
      if t in s.st && Aep(a) in s.q && t !in s.bound.aep && s.q[Aep(a)] == [] then
        s.(bound := Bound(s.bound.tcb[a := t], s.bound.aep[t := a]))
      else s
    case UnbindAep(t) => s.(bound := Unbound(s.bound, t))
    case Configure(t, p, work, _) => if MayRaise(s, t, p) then WorkingAll(Raising(s, t, p), work) else s
    case Objects(work, resume, preempted) =>
      if preempted || resume.None? then WorkingAll(s, work) else Resuming(WorkingAll(s, work), resume.value)
    case _ => s
  }

  // ---------------------------------------------------------------------------------------
  // Entries
  // ---------------------------------------------------------------------------------------

  /** timerTick */
  ghost function Ticking(s: State): State {
    if !Runnable(s.Of(s.cur)) || s.cur !in s.slice || s.cur !in s.prio then s
    else if s.slice[s.cur] > 1 then s.(slice := s.slice[s.cur := s.slice[s.cur] - 1])
    else
      s.(slice := s.slice[s.cur := TIME_SLICE],
         plan := Rescheduling(Queueing(s.plan, s.prio, s.cur, false), s.prio))
  }

  ghost function Interrupting(s: State, irq: Irq): State {
    match irq
    case Timer => Ticking(s)
    case Signal(a, b) => if Aep(a) in s.q then Signalling(s, a, b) else s
    case Undelivered => s
  }

  /**
   handleInvocation: nothing if it is rejected; otherwise the caller is marked for restart, and goes on running
   after what it has asked for if it is still marked. If it is preempted it stays marked, to make the invocation
   again, and the interrupt is handled.
   */
  ghost function Invoking(s: State, inv: Invocation, blocking: bool, isCall: bool, pending: Irq): State {
    if inv.Rejected? then s
    else
      var s' := Performing(s.(st := s.st[s.cur := Restart]), inv, blocking, isCall);
      if (inv.Configure? || inv.Objects?) && inv.preempted then Interrupting(s', pending) else Settling(s')
  }

  /** A current thread that is still marked goes on running. */
  ghost function Settling(s: State): State {
    if s.Of(s.cur).Restart? then s.(st := s.st[s.cur := Running]) else s
  }

  ghost function Calling(s: State, ev: Event): State
    requires !ev.Interrupt?
  {
    match ev
    case UserFault(handler) => Faulting(s, s.cur, handler)
    case Send(inv, blocking, isCall, pending) => Invoking(s, inv, blocking, isCall, pending)
    case SendFault(blocking, handler) => if blocking then Faulting(s, s.cur, handler) else s
    case Wait(what, blocking, handler) => WaitingOn(s, s.cur, what, blocking, handler)
    case Reply(mayRestart) => if s.cur in s.caller then Replying(s, s.caller[s.cur], mayRestart) else s
    case ReplyWait(mayRestart, what, handler) =>
      var s' := if s.cur in s.caller then Replying(s, s.caller[s.cur], mayRestart) else s;
      WaitingOn(s', s.cur, what, true, handler)
    case Yield => if s.cur in s.prio then s.(plan := Yielding(s.plan, s.prio, s.cur)) else s
  }

  /** schedule and activateThread: the thread to run next is current, and running. */
  ghost function Ending(s: State): State {
    var next := Next(s.plan, s.st, s.prio, s.cur, s.idle);
    s.(cur := next, plan := Choosing(s.plan, s.st, s.prio, s.cur, s.idle),
       st := if s.Of(next).Restart? then s.st[next := Running] else s.st)
  }

  /** One kernel entry. The idle thread makes no system calls and does not fault. */
  ghost function Entering(s: State, ev: Event): State {
    if ev.Interrupt? then Ending(Interrupting(s, ev.irq))
    else if s.cur == s.idle then s
    else Ending(Calling(s, ev))
  }

  /** Any number of entries, one after the other. */
  ghost function EnteringAll(s: State, events: seq<Event>): State
    decreases |events|
  {
    if events == [] then s else Entering(EnteringAll(s, events[..|events| - 1]), events[|events| - 1])
  }

  /**
   An entry that comes to the assertion of the derivation tree that there are no reply caps in it: the deletion
   or the swap of a slot with one.
   */
  ghost predicate Stops(s: State, ev: Event) {
    && s.cur != s.idle && ev.Send?
    && ((ev.inv.DeleteSlot? && ev.inv.slot in s.caps)
        || (ev.inv.SwapSlots? && (ev.inv.slot1 in s.caps || ev.inv.slot2 in s.caps)))
  }

  // ---------------------------------------------------------------------------------------
  // Who runs
  // ---------------------------------------------------------------------------------------

  /** What holds of threads and ready queues while user code runs, as `Entry.AtRest` says of the code. */
  ghost predicate Resting(s: State) {
    && Consistent(s.st, s.prio, s.plan.queued, s.cur, s.idle, ResumeCurrent, {}) && s.plan.action == ResumeCurrent
    && RQ.Placed(s.plan.ready, s.prio, s.plan.queued) && |s.plan.ready| == RQ.NUM_PRIORITIES
    && !s.st[s.cur].Restart?
  }

  lemma RestingFacts(s: State)
    requires Resting(s)
    ensures s.cur in s.st && s.cur in s.prio && s.cur in s.plan.queued && !s.plan.queued[s.cur]
    ensures s.cur != s.idle ==> s.st[s.cur] == Running
  {
  }

  /** The thread stands at the head of the queue of its priority. */
  ghost predicate AtHead(s: State, t: Tid) {
    t in s.prio && RQ.At(s.plan.ready, s.prio[t]) != [] && RQ.At(s.plan.ready, s.prio[t])[0] == t
  }

  /** An entry that has woken one thread, and nothing else, ends in that thread exactly if it was promoted. */
  lemma WokenRuns(s: State, t: Tid, onSamePriority: bool, s': State)
    requires Resting(s) && s.cur in s.st && t in s.st && t != s.cur && !Runnable(s.st[t])
    requires Runnable(s.st[s.cur]) || s.cur == s.idle
    requires s'.st == s.st[t := Running] && s'.prio == s.prio && s'.cur == s.cur && s'.idle == s.idle
    requires t in s.prio && s.cur in s.prio && s'.plan == Switching(s.plan, s.prio, s.cur, t, onSamePriority)
    ensures var e := Ending(s');
            var higher := s.prio[t] > s.prio[s.cur] || (onSamePriority && s.prio[t] == s.prio[s.cur]);
            && e.cur == (if higher then t else s.cur)
            && (!higher ==> AtHead(e, t))
            && (higher && s.cur != s.idle ==> AtHead(e, s.cur))
  {
    hide RQ.FirstReady;
  }

  /**
   A message to a thread that waits for it: the receiver runs at once exactly if its priority is not below the
   sender's, which then stands first in its queue; otherwise the sender goes on and the receiver stands first in
   its own.
   */
  lemma SendRuns(s: State, blocking: bool, badge: bv32, canGrant: bool, e: nat, pending: Irq)
    requires Resting(s) && s.cur != s.idle && s.HasReceiver(e) && s.cur !in s.faulted && Ep(e) in s.q
    ensures var dest := s.Queue(Ep(e))[0];
            var s' := Entering(s, Send(SendToEp(e, badge, canGrant), blocking, false, pending));
            && dest in s.prio && s.cur in s.prio
            && (s.prio[dest] >= s.prio[s.cur] ==> s'.cur == dest && AtHead(s', s.cur))
            && (s.prio[dest] < s.prio[s.cur] ==> s'.cur == s.cur && AtHead(s', dest))
  {
    var ev := Send(SendToEp(e, badge, canGrant), blocking, false, pending);
    SentState(s, blocking, badge, canGrant, e, pending);
    hide AtHead, Switching, Ending, Calling;
    WokenRuns(s, s.Queue(Ep(e))[0], true, Calling(s, ev));
  }

  lemma SentState(s: State, blocking: bool, badge: bv32, canGrant: bool, e: nat, pending: Irq)
    requires s.HasReceiver(e) && s.cur !in s.faulted && Ep(e) in s.q && s.Of(s.cur) == Running
    requires s.cur in s.prio && s.Queue(Ep(e))[0] in s.prio
    ensures var dest := s.Queue(Ep(e))[0];
            var s' := Calling(s, Send(SendToEp(e, badge, canGrant), blocking, false, pending));
            && s'.st == s.st[dest := Running] && s'.prio == s.prio && s'.cur == s.cur && s'.idle == s.idle
            && s'.plan == Switching(s.plan, s.prio, s.cur, dest, true)
  {
    hide Switching, Minus;
    var dest := s.Queue(Ep(e))[0];
    var marked := s.(st := s.st[s.cur := Restart]);
    var sent := Delivering(marked, Ep(e), dest, badge, true);
    assert Performing(marked, SendToEp(e, badge, canGrant), blocking, false) == sent;
    assert Settling(sent).st == s.st[dest := Running];
  }

  /** A signal from an interrupt: the thread that waited for it runs at once exactly if its priority is higher. */
  lemma SignalRuns(s: State, a: nat, badge: bv32)
    requires Resting(s) && Aep(a) in s.q && s.q[Aep(a)] != [] && s.Of(s.q[Aep(a)][0]).BlockedOnAsyncEvent?
    ensures var dest := s.q[Aep(a)][0];
            var s' := Entering(s, Interrupt(Signal(a, badge)));
            && dest in s.prio && s.cur in s.prio
            && (s'.cur == if s.prio[dest] > s.prio[s.cur] then dest else s.cur)
            && (s'.cur == s.cur ==> AtHead(s', dest))
  {
    hide AtHead, Switching, Ending;
    WokenRuns(s, s.q[Aep(a)][0], false, Interrupting(s, Signal(a, badge)));
  }

  /** A reply: the thread that waited for it runs at once exactly if its priority is not below the replier's. */
  lemma ReplyRuns(s: State, mayRestart: bool)
    requires Resting(s) && s.cur != s.idle && s.cur in s.caller && s.caller[s.cur] in s.caps
    requires var client := s.caps[s.caller[s.cur]]; s.Of(client).BlockedOnReply? && client !in s.faulted
    ensures var client := s.caps[s.caller[s.cur]];
            var s' := Entering(s, Reply(mayRestart));
            && client in s.prio && s.cur in s.prio
            && (s.prio[client] >= s.prio[s.cur] ==> s'.cur == client && AtHead(s', s.cur))
            && (s.prio[client] < s.prio[s.cur] ==> s'.cur == s.cur && AtHead(s', client))
  {
    hide AtHead, Switching, Ending;
    WokenRuns(s, s.caps[s.caller[s.cur]], true, Calling(s, Reply(mayRestart)));
  }

  /** A message received from a waiting sender: the sender runs at once exactly if its priority is higher. */
  lemma ReceiveRuns(s: State, e: nat, diminish: bool, handler: Handler)
    requires Resting(s) && s.cur != s.idle && s.cur in s.caller && s.cur !in s.bound.aep && s.HasSender(e)
    requires var sender := s.Queue(Ep(e))[0]; !s.Of(sender).isCall && sender !in s.faulted
    ensures var sender := s.Queue(Ep(e))[0];
            var s' := Entering(s, Wait(OnEp(e, true, diminish), true, handler));
            && sender in s.prio && s.cur in s.prio
            && (s.prio[sender] > s.prio[s.cur] ==> s'.cur == sender && AtHead(s', s.cur))
            && (s.prio[sender] <= s.prio[s.cur] ==> s'.cur == s.cur && AtHead(s', sender))
  {
    ReceivedState(s, e, diminish, handler);
    hide AtHead, Switching, Ending, Calling;
    WokenRuns(s, s.Queue(Ep(e))[0], false, Calling(s, Wait(OnEp(e, true, diminish), true, handler)));
  }

  lemma ReceivedState(s: State, e: nat, diminish: bool, handler: Handler)
    requires s.cur in s.caller && s.cur !in s.bound.aep && s.HasSender(e)
    requires s.cur in s.prio && s.Queue(Ep(e))[0] in s.prio
    requires var sender := s.Queue(Ep(e))[0]; !s.Of(sender).isCall && sender !in s.faulted
    ensures var sender := s.Queue(Ep(e))[0];
            var s' := Calling(s, Wait(OnEp(e, true, diminish), true, handler));
            && s'.st == s.st[sender := Running] && s'.prio == s.prio && s'.cur == s.cur && s'.idle == s.idle
            && s'.plan == Switching(s.plan, s.prio, s.cur, sender, false)
  {
    hide Switching, Minus;
  }

  /** A thread that yields goes behind the others of its priority, and the first of them runs. */
  lemma YieldTurns(s: State)
    requires Resting(s) && s.cur != s.idle
    ensures s.cur in s.prio
    ensures var turns := RQ.At(s.plan.ready, s.prio[s.cur]) + [s.cur];
            var s' := Entering(s, Yield);
            s'.cur == turns[0] && s'.plan.ready == RQ.Put(s.plan.ready, s.prio[s.cur], turns[1..])
  {
    hide RQ.FirstReady, RQ.Placed, Consistent, Queueing, Dequeuing, Rescheduling, Next, Choosing;
    RestingFacts(s);
    NextInTurn(s.st, s.prio, s.plan.queued, s.cur, s.idle, s.plan.ready);
    NotDequeued(s.plan, s.prio, s.cur);
    InTurn(s.plan, s.st, s.prio, s.cur, s.idle);
  }

  /** The end of a time slice comes to the same. */
  lemma TickTurns(s: State)
    requires Resting(s) && s.cur != s.idle && s.cur in s.slice
    ensures s.cur in s.prio
    ensures s.slice[s.cur] > 1 ==>
              Entering(s, Interrupt(Timer)) == s.(slice := s.slice[s.cur := s.slice[s.cur] - 1])
    ensures s.slice[s.cur] <= 1 ==>
              && Entering(s, Interrupt(Timer)).slice == s.slice[s.cur := TIME_SLICE]
              && Entering(s, Interrupt(Timer)).cur == Entering(s, Yield).cur
              && Entering(s, Interrupt(Timer)).plan == Entering(s, Yield).plan
  {
    hide RQ.FirstReady, RQ.Placed, Consistent, Queueing, Dequeuing, Rescheduling;
    RestingFacts(s);
    NotDequeued(s.plan, s.prio, s.cur);
  }
}
