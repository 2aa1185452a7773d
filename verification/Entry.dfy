/**
 Kernel entries (kernel/src/api/syscall.c): interrupts, faults and system calls, each ended by schedule
 and activateThread, and runs of any number of them.
 */
module Entry {
  import opened TcbQueues
  import opened Scheduler
  import opened Endpoints
  import opened KernelSpec
  import opened EntrySpec
  import K = Kernel
  import RQ = ReadyQueues

  /** The state in which user code runs. */
  ghost predicate AtRest(k: K.Kernel)
    reads k, k.links, k.sch, k.sch.rq, k.sch.rq.links
  {
    k.Valid() && k.sch.action == ResumeCurrent && k.sch.Resumed()
  }

  /** ... in which what `EntrySpec` says about who runs applies. */
  lemma AtRestIsResting(k: K.Kernel)
    requires AtRest(k)
    ensures Resting(k.Now())
  {
    hide Endpoints.Objects, K.Bindings;
    k.sch.rq.Facts();
  }

  /** schedule and activateThread, at the end of every entry. */
  method EndEntry(k: K.Kernel)
    requires k.Valid()
    modifies k.sch, k.sch.rq, k.sch.rq.links
    ensures AtRest(k)
    ensures old(k.sch.action) == ResumeCurrent ==> k.sch.cur == old(k.sch.cur)
    ensures old(k.sch.action).SwitchTo? ==> k.sch.cur == old(k.sch.action).thread
    ensures k.sch.st.Keys == old(k.sch.st).Keys
    ensures forall t :: t in k.sch.st ==> (Runnable(k.sch.st[t]) <==> Runnable(old(k.sch.st)[t]))
    ensures k.Now() == Ending(old(k.Now()))
  {
    hide Endpoints.Objects, K.Bindings, Scheduler.Valid, AtUser, Choosing, Standing, RQ.FirstReady;
    k.sch.Schedule();
    k.sch.Facts({});
    ghost var st: States := k.sch.st;
    if k.sch.st[k.sch.cur].Restart? {
      ReplyFacts(k.V(), st, k.sch.idle, k.sch.cur);
      StateObjects(k.V(), st, k.sch.idle, k.sch.cur, Running);
    }
    k.sch.ActivateThread();
  }

  /** handleInterrupt */
  method HandleInterrupt(k: K.Kernel, irq: Irq)
    requires k.Valid() && !k.sch.action.SwitchTo?
    modifies k, k.links, k.sch, k.sch.rq, k.sch.rq.links
    ensures k.Valid() && k.sch.cur == old(k.sch.cur) && k.Now() == Interrupting(old(k.Now()), irq)
    ensures k.sch.cur in old(k.sch.st) && (Unqueued(old(k.sch.st)[k.sch.cur]) ==>
              k.sch.cur in k.sch.st && k.sch.st[k.sch.cur] == old(k.sch.st)[k.sch.cur])
  {
    hide Endpoints.Objects, K.Bindings, Scheduler.Valid, Signalling, Queueing, Rescheduling;
    k.sch.HasSlice({});
    k.sch.Current({});
    match irq
    case Timer =>
      k.sch.TimerTick();
    case Signal(a, b) =>
      K.HasObject(k.V(), k.sch.st, k.sch.idle, Aep(a));
      if a in k.aep {
        if Unqueued(k.sch.st[k.sch.cur]) {
          SignalSpares(k, a, b, k.sch.cur);
        }
        k.SendAsyncIPC(a, b);
      }
    case Undelivered =>
  }

  /** A signal leaves alone the threads that are in no queue. */
  lemma SignalSpares(k: K.Kernel, a: nat, badge: bv32, t: Tid)
    requires k.Valid() && Aep(a) in k.q && t in k.sch.st && Unqueued(k.sch.st[t])
    ensures t in Signalling(k.Now(), a, badge).st && Signalling(k.Now(), a, badge).st[t] == k.sch.st[t]
    ensures Signalling(k.Now(), a, badge).cur == k.sch.cur
  {
    hide Endpoints.Objects, K.Bindings, Scheduler.Valid, Switching, Minus, Linked;
    OneQueue(k.V(), k.sch.st, k.sch.idle, Aep(a));
  }

  /** The zeroing of an object that is created or recycled. */
  method ResetObject(k: K.Kernel, w: Work)
    requires k.Valid() && (w.ResetThread? || w.ResetAsyncEndpoint?)
    modifies k, k.sch, k.sch.rq
    ensures k.Valid() && k.sch.action == old(k.sch.action) && k.sch.cur == old(k.sch.cur)
    ensures k.Now() == Working(old(k.Now()), w)
  {
    hide Endpoints.Objects, K.Bindings, Scheduler.Valid, Linked, Distinct, OrAll;
    if w.ResetThread? {
      if w.t in k.sch.st && w.t != k.sch.idle && k.sch.st[w.t].Inactive? && w.t !in k.bound.aep {
        k.ResetThread(w.t);
      }
    } else {
      K.HasObject(k.V(), k.sch.st, k.sch.idle, Aep(w.aep));
      if w.aep in k.aep {
        OneQueue(k.V(), k.sch.st, k.sch.idle, Aep(w.aep));
        if k.queue[Aep(w.aep)].head == NULL {
          k.ResetAsyncEndpoint(w.aep);
        }
      }
    }
  }

  method DoWork(k: K.Kernel, w: Work)
    requires k.Valid() && !k.sch.action.SwitchTo?
    modifies k, k.links, k.sch, k.sch.rq, k.sch.rq.links
    ensures k.Valid() && !k.sch.action.SwitchTo? && k.sch.cur == old(k.sch.cur)
    ensures k.Now() == Working(old(k.Now()), w)
  {
    hide Endpoints.Objects, K.Bindings, Scheduler.Valid, Unbound, Suspending, CancellingAll, DeletingAep;
    hide CancellingBadged;
    match w
    case DeleteEndpoint(e) =>
      NoEndpoint(k, e, 0);
      if e in k.ep {
        k.CancelAll(Ep(e));
      }
    case DeleteAsyncEndpoint(a) =>
      K.HasObject(k.V(), k.sch.st, k.sch.idle, Aep(a));
      if a in k.aep {
        k.DeleteAsyncEndpoint(a);
      }
    case CancelBadged(e, b) =>
      NoEndpoint(k, e, b);
      if e in k.ep {
        k.CancelBadgedSends(e, b);
      }
    case SuspendThread(t) =>
      if t in k.sch.st && t != k.sch.idle {
        k.Suspend(t);
      }
    case DeleteThread(t) =>
      if t in k.sch.st && t != k.sch.idle {
        k.DeleteThread(t);
      }
    case ResetThread(_) =>
      ResetObject(k, w);
    case ResetAsyncEndpoint(_) =>
      ResetObject(k, w);
  }

  lemma NoEndpoint(k: K.Kernel, e: nat, badge: bv32)
    requires k.Valid()
    ensures Ep(e) in k.q <==> e in k.ep
    ensures e !in k.ep ==> CancellingAll(k.Now(), Ep(e)) == k.Now() == CancellingBadged(k.Now(), e, badge)
  {
    hide Endpoints.Objects, K.Bindings, Scheduler.Valid;
    K.HasObject(k.V(), k.sch.st, k.sch.idle, Ep(e));
  }

  method DoAll(k: K.Kernel, work: seq<Work>)
    requires k.Valid() && !k.sch.action.SwitchTo? && k.sch.cur in k.sch.st && Unqueued(k.sch.st[k.sch.cur])
    modifies k, k.links, k.sch, k.sch.rq, k.sch.rq.links
    ensures k.Valid() && !k.sch.action.SwitchTo? && k.sch.cur == old(k.sch.cur)
    ensures k.sch.cur in k.sch.st && Unqueued(k.sch.st[k.sch.cur])
    ensures k.Now() == WorkingAll(old(k.Now()), work)
  {
    hide K.Kernel.Valid, Working, Unqueued;
    for i := 0 to |work|
      invariant k.Valid() && !k.sch.action.SwitchTo? && k.sch.cur == old(k.sch.cur)
      invariant k.sch.cur in k.sch.st && Unqueued(k.sch.st[k.sch.cur])
      invariant k.Now() == WorkingAll(old(k.Now()), work[..i])
    {
      assert work[..i + 1][..i] == work[..i];
      WorkSparesCaller(k.Now(), work[i], k.sch.cur);
      DoWork(k, work[i]);
    }
    assert work[..|work|] == work;
  }

  /** setThreadState on the running thread, from one runnable state to another. */
  method SetCurrent(k: K.Kernel, s: TState)
    requires k.Valid() && k.sch.cur in k.sch.st && Runnable(k.sch.st[k.sch.cur]) && Runnable(s)
    modifies k.sch
    ensures k.Valid() && k.sch.st == old(k.sch.st)[k.sch.cur := s] && k.sch.cur == old(k.sch.cur)
            && k.sch.action == old(k.sch.action) && k.Now() == old(k.Now()).(st := k.sch.st)
  {
    hide Endpoints.Objects, K.Bindings, Scheduler.Valid;
    k.sch.Facts({});
    ReplyFacts(k.V(), k.sch.st, k.sch.idle, k.sch.cur);
    StateObjects(k.V(), k.sch.st, k.sch.idle, k.sch.cur, s);
    k.sch.SetRunnable(k.sch.cur, s, {});
  }

  /** A running thread is about to invoke a capability. */
  ghost predicate Entered(k: K.Kernel)
    reads k, k.links, k.sch, k.sch.rq, k.sch.rq.links
  {
    && k.Valid() && k.sch.action == ResumeCurrent
    && k.sch.cur in k.sch.st && Runnable(k.sch.st[k.sch.cur]) && k.sch.cur in k.caller
  }

  /** Whether a preemption point ends it before it is done. */
  predicate Preempted(inv: Invocation) {
    (inv.Configure? || inv.Objects?) && inv.preempted
  }

  /** Whether it comes to the assertion on reply caps. What other caps in a slot mean for threads is `Objects`. */
  predicate Asserts(inv: Invocation, caps: ReplyCaps) {
    (inv.DeleteSlot? && inv.slot in caps) || (inv.SwapSlots? && (inv.slot1 in caps || inv.slot2 in caps))
  }

  /**
   performInvocation: what the invocation does, once it has been decoded and the caller marked for
   restart.
   */
  method Perform(k: K.Kernel, inv: Invocation, blocking: bool, isCall: bool)
    requires Entered(k) && k.sch.st[k.sch.cur].Restart? && !Asserts(inv, k.caps)
    modifies k, k.links, k.sch, k.sch.rq, k.sch.rq.links
    ensures k.Valid() && k.sch.cur == old(k.sch.cur)
    ensures Preempted(inv) ==> !k.sch.action.SwitchTo? && k.sch.cur in k.sch.st && Unqueued(k.sch.st[k.sch.cur])
    ensures k.Now() == Performing(old(k.Now()), inv, blocking, isCall)
  {
    hide K.Kernel.Valid, K.Kernel.Now, Performing;
    if inv.SendToEp? || inv.SendToAep? || inv.ReplyTo? {
      PerformIPC(k, inv, blocking, isCall);
    } else if inv.SaveCaller? || inv.MoveReply? || inv.RotateReply? {
      PerformMove(k, inv, blocking, isCall);
    } else if inv.Objects? || inv.Configure? {
      PerformObjects(k, inv, blocking, isCall);
    } else if inv.SetPriority? || inv.SetDomain? {
      PerformScheduling(k, inv, blocking, isCall);
    } else if inv.BindAep? || inv.UnbindAep? {
      PerformBinding(k, inv, blocking, isCall);
    } else {
      NothingToDo(k.Now(), inv, blocking, isCall);
    }
  }

  lemma NothingToDo(s: State, inv: Invocation, blocking: bool, isCall: bool)
    requires inv.DeleteSlot? || inv.SwapSlots? || inv.Rejected?
    ensures Performing(s, inv, blocking, isCall) == s
  {
  }

  method PerformIPC(k: K.Kernel, inv: Invocation, blocking: bool, isCall: bool)
    requires Entered(k) && (inv.SendToEp? || inv.SendToAep? || inv.ReplyTo?)
    modifies k, k.links, k.sch, k.sch.rq, k.sch.rq.links
    ensures k.Valid() && k.sch.cur == old(k.sch.cur)
    ensures k.Now() == Performing(old(k.Now()), inv, blocking, isCall)
  {
    hide Endpoints.Objects, K.Bindings, Scheduler.Valid, Sending, Signalling, Replying;
    if inv.SendToEp? {
      K.HasObject(k.V(), k.sch.st, k.sch.idle, Ep(inv.ep));
      if inv.ep in k.ep {
        K.HasQueue(k.V(), k.sch.st, k.sch.idle, inv.ep);
        k.SendIPC(blocking, isCall, inv.badge, inv.canGrant, k.sch.cur, inv.ep);
      }
    } else if inv.SendToAep? {
      K.HasObject(k.V(), k.sch.st, k.sch.idle, Aep(inv.aep));
      if inv.aep in k.aep {
        k.SendAsyncIPC(inv.aep, inv.badge);
      }
    } else {
      NoReply(k.Now(), inv.slot, inv.mayRestart);
      if inv.slot in k.caps {
        k.DoReplyTransfer(inv.slot, inv.mayRestart);
      }
    }
  }

  lemma NoReply(s: State, slot: Slot, mayRestart: bool)
    ensures slot !in s.caps ==> Replying(s, slot, mayRestart) == s
  {
  }

  method PerformMove(k: K.Kernel, inv: Invocation, blocking: bool, isCall: bool)
    requires Entered(k) && (inv.SaveCaller? || inv.MoveReply? || inv.RotateReply?)
    modifies k, k.links, k.sch, k.sch.rq, k.sch.rq.links
    ensures k.Valid() && k.sch.cur == old(k.sch.cur)
    ensures k.Now() == Performing(old(k.Now()), inv, blocking, isCall)
  {
    hide Endpoints.Objects, K.Bindings, Scheduler.Valid, Moved;
    if inv.SaveCaller? {
      if inv.dest != 0 && inv.dest !in k.caps && inv.dest !in k.caller.Values {
        k.SaveCaller(inv.dest);
      }
    } else if inv.MoveReply? {
      NotMoved(k.caps, inv.source, inv.dest);
      if inv.source in k.caps && inv.dest != 0 && inv.dest !in k.caps && inv.dest !in k.caller.Values {
        k.MoveReplyCap(inv.source, inv.dest);
      }
    } else if inv.slot1 != inv.slot2 && inv.slot2 != inv.slot3 && inv.slot1 != inv.slot3
              && inv.slot3 != 0 && inv.slot3 !in k.caps && inv.slot3 !in k.caller.Values
              && inv.slot2 != 0 && inv.slot2 !in k.caller.Values {
      k.RotateReplyCaps(inv.slot1, inv.slot2, inv.slot3);
    }
  }

  lemma NotMoved(caps: ReplyCaps, source: Slot, dest: Slot)
    ensures source !in caps ==> Moved(caps, source, dest) == caps
  {
  }

  method PerformScheduling(k: K.Kernel, inv: Invocation, blocking: bool, isCall: bool)
    requires Entered(k) && (inv.SetPriority? || inv.SetDomain?)
    modifies k, k.links, k.sch, k.sch.rq, k.sch.rq.links
    ensures k.Valid() && k.sch.cur == old(k.sch.cur)
    ensures k.Now() == Performing(old(k.Now()), inv, blocking, isCall)
  {
    hide Endpoints.Objects, K.Bindings, Scheduler.Valid, Reprioritising;
    k.sch.Facts({});
    if inv.SetPriority? {
      if inv.t in k.sch.st && inv.t != k.sch.idle && inv.prio <= k.sch.rq.prio[k.sch.cur] {
        k.sch.SetPriority(inv.t, inv.prio);
      }
    } else if inv.t in k.sch.st && inv.t != k.sch.idle {
      k.sch.SetDomain(inv.t);
    }
  }

  method PerformBinding(k: K.Kernel, inv: Invocation, blocking: bool, isCall: bool)
    requires Entered(k) && (inv.BindAep? || inv.UnbindAep?)
    modifies k, k.links, k.sch, k.sch.rq, k.sch.rq.links
    ensures k.Valid() && k.sch.cur == old(k.sch.cur)
    ensures k.Now() == Performing(old(k.Now()), inv, blocking, isCall)
  {
    hide Endpoints.Objects, K.Bindings, Scheduler.Valid, Unbound;
    if inv.UnbindAep? {
      k.Unbind(inv.t);
    } else {
      K.HasObject(k.V(), k.sch.st, k.sch.idle, Aep(inv.aep));
      if inv.t in k.sch.st && inv.aep in k.aep && inv.t !in k.bound.aep {
        OneQueue(k.V(), k.sch.st, k.sch.idle, Aep(inv.aep));
        if k.queue[Aep(inv.aep)].head == NULL {
          k.Bind(inv.t, inv.aep);
        }
      }
    }
  }

  method PerformObjects(k: K.Kernel, inv: Invocation, blocking: bool, isCall: bool)
    requires Entered(k) && k.sch.st[k.sch.cur].Restart? && (inv.Objects? || inv.Configure?)
    modifies k, k.links, k.sch, k.sch.rq, k.sch.rq.links
    ensures k.Valid() && k.sch.cur == old(k.sch.cur)
    ensures Preempted(inv) ==> !k.sch.action.SwitchTo? && k.sch.cur in k.sch.st && Unqueued(k.sch.st[k.sch.cur])
    ensures k.Now() == Performing(old(k.Now()), inv, blocking, isCall)
  {
    hide Endpoints.Objects, K.Bindings, Scheduler.Valid, WorkingAll, Resuming, Reprioritising;
    k.sch.Facts({});
    if inv.Objects? {
      PerformWork(k, inv.work, inv.resume, inv.preempted);
    } else if inv.t in k.sch.st && inv.t != k.sch.idle && inv.prio <= k.sch.rq.prio[k.sch.cur] {
      k.sch.SetPriority(inv.t, inv.prio);
      DoAll(k, inv.work);
    }
  }

  /** A preempted invocation stops before it resumes a thread. */
  method PerformWork(k: K.Kernel, work: seq<Work>, resume: Option<Tid>, preempted: bool)
    requires k.Valid() && !k.sch.action.SwitchTo? && k.sch.cur in k.sch.st && Unqueued(k.sch.st[k.sch.cur])
    modifies k, k.links, k.sch, k.sch.rq, k.sch.rq.links
    ensures k.Valid() && k.sch.cur == old(k.sch.cur)
    ensures preempted ==> !k.sch.action.SwitchTo? && k.sch.cur in k.sch.st && Unqueued(k.sch.st[k.sch.cur])
    ensures k.Now() == if preempted || resume.None? then WorkingAll(old(k.Now()), work)
                       else Resuming(WorkingAll(old(k.Now()), work), resume.value)
  {
    hide K.Kernel.Valid, K.Kernel.Now, Unqueued, WorkingAll, Resuming;
    DoAll(k, work);
    if !preempted && resume.Some? {
      Resume(k, resume.value);
    }
  }

  /** invokeTCB_Resume */
  method Resume(k: K.Kernel, t: Tid)
    requires k.Valid() && !k.sch.action.SwitchTo?
    modifies k, k.links, k.sch, k.sch.rq, k.sch.rq.links
    ensures k.Valid() && k.sch.cur == old(k.sch.cur)
    ensures k.Now() == Resuming(old(k.Now()), t)
  {
    hide Endpoints.Objects, K.Bindings, Scheduler.Valid, NotFor, Restarting;
    if t in k.sch.st && t != k.sch.idle {
      k.Restart(t);
    }
  }

  /**
   handleInvocation, and the interrupt that preempted it. If it was preempted, the caller is still marked to make
   it again, unless it has been stopped.
   */
  method HandleInvocation(k: K.Kernel, inv: Invocation, blocking: bool, isCall: bool, pending: Irq)
    requires Entered(k) && !Asserts(inv, k.caps)
    modifies k, k.links, k.sch, k.sch.rq, k.sch.rq.links
    ensures k.Valid() && k.Now() == Invoking(old(k.Now()), inv, blocking, isCall, pending)
    ensures Preempted(inv) ==> k.sch.cur in k.sch.st && Unqueued(k.sch.st[k.sch.cur])
  {
    hide Endpoints.Objects, K.Bindings, Scheduler.Valid, Performing, Interrupting, Settling;
    if inv == Rejected {
      return;
    }
    SetCurrent(k, TState.Restart);
    Perform(k, inv, blocking, isCall);
    if Preempted(inv) {
      HandleInterrupt(k, pending);
    } else {
      Settle(k);
    }
  }

  method Settle(k: K.Kernel)
    requires k.Valid()
    modifies k.sch
    ensures k.Valid() && k.Now() == Settling(old(k.Now()))
  {
    hide Endpoints.Objects, K.Bindings, Scheduler.Valid;
    k.sch.Current({});
    if k.sch.st[k.sch.cur].Restart? {
      SetCurrent(k, Running);
    }
  }

  /** System calls and faults. */
  method HandleSyscall(k: K.Kernel, ev: Event)
    requires Entered(k) && !ev.Interrupt? && (ev.Send? ==> !Asserts(ev.inv, k.caps))
    modifies k, k.links, k.sch, k.sch.rq, k.sch.rq.links
    ensures k.Valid() && k.Now() == Calling(old(k.Now()), ev)
  {
    hide K.Kernel.Valid, WaitingOn, Faulting, Replying, Invoking, Yielding;
    match ev
    case UserFault(handler) =>
      k.HandleFault(handler);
    case Send(inv, blocking, isCall, pending) =>
      HandleInvocation(k, inv, blocking, isCall, pending);
    case SendFault(blocking, handler) =>
      if blocking {
        k.HandleFault(handler);
      }
    case Wait(what, blocking, handler) =>
      k.HandleWait(what, blocking, handler);
    case Reply(mayRestart) =>
      k.HandleReply(mayRestart);
    case ReplyWait(mayRestart, what, handler) =>
      k.HandleReply(mayRestart);
      k.HandleWait(what, true, handler);
    case Yield =>
      GiveWay(k);
  }

  /** handleYield */
  method GiveWay(k: K.Kernel)
    requires Entered(k)
    modifies k.sch, k.sch.rq, k.sch.rq.links
    ensures k.Valid() && k.Now() == Calling(old(k.Now()), Yield)
  {
    hide Endpoints.Objects, K.Bindings, Scheduler.Valid, Yielding;
    k.sch.Yield();
  }

  /**
   One kernel entry. What it does is what `Entering` says. From any state in which user code runs, every entry
   comes back to such a state: the current thread is running or idle, no thread that can run has a higher
   priority, the others that can run are in the ready queues and no other is, every blocked thread is in the
   queue of the object it waits on, and every reply cap belongs to one thread waiting for that reply.
   The idle thread makes no system calls and does not fault. The one exception is an entry that deletes or
   swaps a slot with a reply cap: it stops in an assertion, and is not taken here.
   */
  method Enter(k: K.Kernel, ev: Event) returns (stopped: bool)
    requires AtRest(k)
    modifies k, k.links, k.sch, k.sch.rq, k.sch.rq.links
    ensures AtRest(k) && (stopped <==> Stops(old(k.Now()), ev))
    ensures k.Now() == if stopped then old(k.Now()) else Entering(old(k.Now()), ev)
  {
    hide Endpoints.Objects, K.Bindings, Scheduler.Valid, Ending, Calling, Interrupting;
    k.sch.Facts({});
    K.HasCaller(k.V(), k.sch.st, k.sch.idle, k.sch.cur);
    if ev.Interrupt? {
      HandleInterrupt(k, ev.irq);
      EndEntry(k);
    } else if k.sch.cur != k.sch.idle {
      if ev.Send? && Asserts(ev.inv, k.caps) {
        return true;
      }
      HandleSyscall(k, ev);
      EndEntry(k);
    }
    return false;
  }

  /**
   A signal that wakes a thread while the machine is idle: the idle thread keeps running, with a thread
   ready to run, if and only if that thread has priority 0, which the idle thread's own counts as.
   */
  method SignalWhileIdle(k: K.Kernel, a: nat, badge: bv32)
    requires AtRest(k) && k.sch.cur == k.sch.idle && a in k.aep && Aep(a) in k.q && k.q[Aep(a)] != []
    modifies k, k.links, k.sch, k.sch.rq, k.sch.rq.links
    ensures AtRest(k)
    ensures var woken := old(k.q[Aep(a)][0]);
            && woken in k.sch.st && woken in old(k.sch.rq.prio) && Runnable(k.sch.st[woken])
            && (k.sch.cur == k.sch.idle <==> old(k.sch.rq.prio)[woken] == 0)
            && (k.sch.cur == woken <==> old(k.sch.rq.prio)[woken] > 0)
  {
    hide Endpoints.Objects, K.Bindings, Scheduler.Valid, AtUser;
    k.sch.Facts({});
    IdlePriority(k);
    OneQueue(k.V(), k.sch.st, k.sch.idle, Aep(a));
    k.SendAsyncIPC(a, badge);
    EndEntry(k);
  }

  lemma IdlePriority(k: K.Kernel)
    requires k.Valid()
    ensures k.sch.idle in k.sch.rq.prio && k.sch.rq.prio[k.sch.idle] == 0
  {
  }

  /** Any number of entries, up to the first that would stop. `done` of them come back to user code. */
  method Run(k: K.Kernel, events: seq<Event>) returns (done: nat)
    requires AtRest(k)
    modifies k, k.links, k.sch, k.sch.rq, k.sch.rq.links
    ensures AtRest(k) && done <= |events| && k.Now() == EnteringAll(old(k.Now()), events[..done])
    ensures done < |events| ==> Stops(k.Now(), events[done])
  {
    hide AtRest, K.Kernel.Now, Entering, Stops;
    for i := 0 to |events|
      invariant AtRest(k) && k.Now() == EnteringAll(old(k.Now()), events[..i])
    {
      assert events[..i + 1][..i] == events[..i];
      var stopped := Enter(k, events[i]);
      if stopped {
        return i;
      }
    }
    return |events|;
  }

  /** Start-up ends in the initial thread. */
  method Boot(priorities: Priorities, idle: Tid, initial: Tid, caller: CallerSlot, eps: set<nat>, aeps: set<nat>)
    returns (k: K.Kernel)
    requires NULL !in priorities && forall t :: t in priorities ==> priorities[t] < RQ.NUM_PRIORITIES
    requires idle in priorities && initial in priorities && idle != initial && priorities[idle] == 0
    requires caller.Keys == priorities.Keys && (forall t :: t in caller ==> caller[t] != 0)
    requires forall t, u :: t in caller && u in caller && caller[t] == caller[u] ==> t == u
    ensures fresh(k) && fresh(k.links) && fresh(k.sch) && fresh(k.sch.rq) && fresh(k.sch.rq.links)
    ensures AtRest(k) && k.Now() == Initial(priorities, idle, initial, caller, eps, aeps)
  {
    hide Endpoints.Objects, K.Bindings, Scheduler.Valid, Scheduler.Resumed, InitialStates, All;
    k := new K.Kernel(priorities, idle, initial, caller, eps, aeps);
    RunningAtStart(priorities.Keys, idle, initial);
    k.sch.RunsOn();
  }

  lemma RunningAtStart(threads: set<Tid>, idle: Tid, initial: Tid)
    requires initial in threads && idle != initial
    ensures var st := InitialStates(threads, idle, initial); initial in st && st[initial] == Running
  {
  }

  /** Every state in which user code ever runs, from start-up on. */
  method BootAndRun(priorities: Priorities, idle: Tid, initial: Tid, caller: CallerSlot, eps: set<nat>, aeps: set<nat>,
                    events: seq<Event>)
    returns (k: K.Kernel, done: nat)
    requires NULL !in priorities && forall t :: t in priorities ==> priorities[t] < RQ.NUM_PRIORITIES
    requires idle in priorities && initial in priorities && idle != initial && priorities[idle] == 0
    requires caller.Keys == priorities.Keys && (forall t :: t in caller ==> caller[t] != 0)
    requires forall t, u :: t in caller && u in caller && caller[t] == caller[u] ==> t == u
    ensures AtRest(k) && done <= |events|
    ensures k.Now() == EnteringAll(Initial(priorities, idle, initial, caller, eps, aeps), events[..done])
    ensures done < |events| ==> Stops(k.Now(), events[done])
  {
    hide AtRest, K.Kernel.Now, EnteringAll, Stops, Initial;
    k := Boot(priorities, idle, initial, caller, eps, aeps);
    done := Run(k, events);
  }
}
