/**
 Synchronous and asynchronous IPC, reply capabilities, and the kernel entries made of them
 (kernel/src/object/endpoint.c, asyncendpoint.c, tcb.c, cnode.c, kernel/src/kernel/thread.c,
 kernel/src/kernel/faulthandler.c, kernel/src/api/syscall.c).
 */
module Kernel {
  import opened Collections
  import opened TcbQueues
  import opened Scheduler
  import opened Endpoints
  import opened KernelSpec
  import RQ = ReadyQueues

  /** Bindings are between threads and async endpoints that exist. */
  ghost predicate Bindings(threads: set<Tid>, aeps: set<nat>, bound: Bound) {
    && bound.Known()
    && (forall a :: a in bound.tcb ==> bound.tcb[a] in threads)
    && (forall t :: t in bound.aep ==> bound.aep[t] in aeps)
  }

  class Kernel {
    const sch: Scheduler
    const links: Links
    const caller: CallerSlot
    var bound: Bound
    var queue: Heads
    var ep: map<nat, EpState>
    var aep: map<nat, AepState>
    var msg: map<nat, bv32>
    var badge: Badges
    var faulted: set<Tid>
    var reply: Masters
    var caps: ReplyCaps
    ghost var q: Waiting
    ghost var pending: map<nat, seq<bv32>>

    ghost function V(): View
      reads this, links
    {
      View(links.next, links.prev, queue, q, ep, aep, msg, pending, reply, caps, caller)
    }

    ghost function Now(): State
      reads this, sch, sch.rq
    {
      State(sch.st, sch.rq.prio, sch.slice, sch.cur, sch.idle, sch.Planned(), q, pending, caps, caller, badge, faulted,
            bound)
    }

    ghost predicate Valid()
      reads this, links, sch, sch.rq, sch.rq.links
    {
      && links != sch.rq.links
      && sch.Valid({})
      && Bindings(sch.st.Keys, aep.Keys, bound)
      && Objects(V(), sch.st, sch.idle)
    }

    /** After start-up: the initial thread runs, every object is idle and there are no reply caps. */
    constructor (priorities: Priorities, idle: Tid, initial: Tid, caller: CallerSlot, eps: set<nat>, aeps: set<nat>)
      requires NULL !in priorities && forall t :: t in priorities ==> priorities[t] < RQ.NUM_PRIORITIES
      requires idle in priorities && initial in priorities && idle != initial && priorities[idle] == 0
      requires caller.Keys == priorities.Keys && (forall t :: t in caller ==> caller[t] != 0)
      requires forall t, u :: t in caller && u in caller && caller[t] == caller[u] ==> t == u
      ensures Valid() && fresh(links) && fresh(sch) && fresh(sch.rq) && fresh(sch.rq.links)
      ensures Now() == Initial(priorities, idle, initial, caller, eps, aeps)
    {
      hide Objects, Scheduler.Valid, All, Chans, InitialStates;
      sch := new Scheduler(priorities, idle, initial);
      links := new Links(priorities.Keys);
      this.caller := caller;
      bound := Bound(map[], map[]);
      queue := All(Chans(eps, aeps), EMPTY);
      q := All<Chan, seq<Tid>>(Chans(eps, aeps), []);
      ep := All(eps, EpIdle);
      aep := All(aeps, AepIdle);
      msg := All<nat, bv32>(aeps, 0);
      pending := All<nat, seq<bv32>>(aeps, []);
      badge := map[];
      faulted := {};
      reply := All<Tid, Reply>(priorities.Keys, NoMaster)[initial := Master(0)];
      caps := map[];
      new;
      InitialObjects(V(), eps, aeps, priorities.Keys, idle, initial);
    }

    /** A thread leaves the queue of `c`; an object whose queue becomes empty becomes idle. */
    method Leave(c: Chan, t: Tid, ghost st: States)
      requires Objects(V(), st, sch.idle) && c in q && t in q[c] && t != sch.idle
      modifies this`queue, this`ep, this`aep, this`q, links
      ensures t in st && Objects(V(), st[t := Running], sch.idle) && c in queue && aep.Keys == old(aep).Keys
      ensures V() == Woken(old(V()), c, Minus(old(q)[c], t), links.next, links.prev, queue[c])
      ensures Now() == Leaving(old(Now()), c, t)
    {
      hide Bindings, Objects, Linked, OnlyRelinked, Members, Minus, Distinct, Woken;
      ghost var v := V();
      ghost var i := PlaceOf(v, st, sch.idle, c, t);
      var head := links.Dequeue(t, queue[c], q[c], i);
      LeaveObjects(v, st, sch.idle, c, t, links.next, links.prev, head);
      assert V() == v.(next := links.next, prev := links.prev);
      WokenOver(v, c, Minus(v.q[c], t), links.next, links.prev, head);
      StoreQueue(c, head, Minus(v.q[c], t));
    }

    /** The queue that is left is stored; an empty one makes the object idle. */
    method StoreQueue(c: Chan, rest: Queue, ghost s: seq<Tid>)
      requires rest.head == NULL <==> s == []
      modifies this`queue, this`ep, this`aep, this`q
      ensures V() == Woken(old(V()), c, s, links.next, links.prev, rest) && c in queue && queue[c] == rest
    {
      queue := queue[c := rest];
      q := q[c := s];
      var emptied := rest.head == NULL;
      ep := if emptied && c.Ep? then ep[c.id := EpIdle] else ep;
      aep := if emptied && c.Aep? then aep[c.id := AepIdle] else aep;
    }

    /** A runnable thread joins the end of the queue of `c`, in the state `s` that it is about to get. */
    method Join(c: Chan, t: Tid, s: TState, way: EpState, ghost st: States)
      requires Objects(V(), st, sch.idle) && t != NULL && MayJoin(V(), st, sch.idle, c, t, s, way)
      modifies this`queue, this`ep, this`aep, this`q, links
      ensures Objects(V(), st[t := s], sch.idle) && c in queue && aep.Keys == old(aep).Keys
      ensures V() == Joined(old(V()), c, t, way, links.next, links.prev, queue[c])
      ensures Now() == old(Now()).(q := old(q)[c := old(q)[c] + [t]])
    {
      hide Bindings, Objects, Linked, OnlyRelinked, Members, Distinct;
      ghost var v := V();
      NotQueuedYet(v, st, sch.idle, c, t);
      var head := links.Append(t, queue[c], q[c]);
      JoinedObjects(v, st, sch.idle, c, t, s, way, links.next, links.prev, head);
      StoreJoined(c, head, t, way);
      assert V() == Joined(v, c, t, way, links.next, links.prev, head);
    }

    /** The longer queue is stored, with the way its threads wait. */
    method StoreJoined(c: Chan, head: Queue, t: Tid, way: EpState)
      requires c in q
      modifies this`queue, this`ep, this`aep, this`q
      ensures V() == Joined(old(V()), c, t, way, links.next, links.prev, head) && c in queue && queue[c] == head
      ensures Now() == old(Now()).(q := old(q)[c := old(q)[c] + [t]])
    {
      queue := queue[c := head];
      q := q[c := q[c] + [t]];
      ep := if c.Ep? then ep[c.id := way] else ep;
      aep := if c.Aep? then aep[c.id := AepWaiting] else aep;
    }

    /** deleteCallerCap, and finaliseCap on a reply cap. */
    method DeleteReplyCap(slot: Slot, ghost st: States)
      requires Objects(V(), st, sch.idle)
      modifies this`reply, this`caps
      ensures Objects(V(), st, sch.idle) && V() == Uncalled(old(V()), slot)
      ensures Now() == old(Now()).(caps := old(caps) - {slot})
    {
      hide Objects;
      WithoutCaller(caps, slot);
      UncallObjects(V(), st, sch.idle, slot);
      if slot in caps {
        reply := reply[caps[slot] := Master(0)];
        caps := caps - {slot};
      }
    }

    /** ipcCancel: the thread leaves the queue it waits in, or its reply cap goes. */
    method IpcCancel(t: Tid)
      requires Valid() && t in sch.st && t != sch.idle
      modifies this`queue, this`ep, this`aep, this`q, this`reply, this`caps, this`faulted, links, sch`st, sch`action
      ensures Valid() && sch.action == old(sch.action) && Now() == Cancelling(old(Now()), t)
      ensures sch.st == if WaitsForNone(old(sch.st)[t]) then old(sch.st) else old(sch.st)[t := Inactive]
      ensures caps == NotFor(old(caps), t) && t in old(reply) && t in reply
      ensures old(reply)[t].Master? ==> reply[t] == Master(0)
    {
      hide Objects, Bindings, Scheduler.Valid, Minus, NotFor;
      ghost var v: View, st: States := V(), sch.st;
      ReplyFacts(v, st, sch.idle, t);
      if sch.st[t].BlockedOnSend? || sch.st[t].BlockedOnReceive? {
        LeaveInactive(Ep(sch.st[t].ep), t);
      } else if sch.st[t].BlockedOnAsyncEvent? {
        LeaveInactive(Aep(sch.st[t].aep), t);
      } else if sch.st[t].BlockedOnReply? {
        CancelReply(t);
      } else {
        NoneFor(v, st, sch.idle, t);
      }
    }

    /** The part of ipcCancel for a thread that waits for a reply. */
    method CancelReply(t: Tid)
      requires Objects(V(), sch.st, sch.idle) && t in sch.st && t != sch.idle && sch.st[t].BlockedOnReply?
      modifies this`reply, this`caps, this`faulted
      ensures Objects(V(), sch.st, sch.idle) && caps == NotFor(old(caps), t) && t in reply && reply[t] == Master(0)
      ensures faulted == old(faulted) - {t} && Now() == old(Now()).(caps := caps, faulted := faulted)
    {
      hide Objects, NotFor, Uncalled;
      ghost var v: View, st: States := V(), sch.st;
      faulted := faulted - {t};
      ReplyFacts(v, st, sch.idle, t);
      UncallCaller(v, st, sch.idle, t);
      var slot := reply[t].slot;
      DeleteReplyCap(slot, st);
    }

    /** blockedIPCCancel and asyncIPCCancel: their assertions on the object's state hold. */
    method LeaveInactive(c: Chan, t: Tid)
      requires Valid() && t in sch.st && t != sch.idle && Waits(sch.st[t], c)
      modifies this`queue, this`ep, this`aep, this`q, links, sch`st, sch`action
      ensures Valid() && sch.action == old(sch.action)
      ensures sch.st == old(sch.st)[t := Inactive] && Now() == Leaving(old(Now()), c, t).(st := sch.st)
      ensures NotFor(caps, t) == caps && caps == old(caps) && reply == old(reply) && t in reply && reply[t] == Master(0)
      ensures c.Ep? ==> c.id in old(ep) && old(ep)[c.id] != EpIdle
      ensures c.Aep? ==> c.id in old(aep) && old(aep)[c.id] == AepWaiting
    {
      hide Objects, Bindings, Scheduler.Valid, Minus, NotFor, Woken, Stopping;
      sch.Facts({});
      BusyObject(V(), sch.st, sch.idle, t, c);
      ghost var v: View, st: States := V(), sch.st;
      ReplyFacts(v, st, sch.idle, t);
      NoneFor(v, st, sch.idle, t);
      BlockedIsQueued(v, st, sch.idle, t, c);
      Leave(c, t, st);
      StateObjects(V(), st[t := Running], sch.idle, t, Inactive);
      Overwrite(st, t, Running, Inactive);
      sch.SetBlocked(t, Inactive, {});
    }

    /** suspend */
    method Suspend(t: Tid)
      requires Valid() && t in sch.st && t != sch.idle && sch.action != SwitchTo(t)
      modifies this`queue, this`ep, this`aep, this`q, this`reply, this`caps, this`faulted, links, sch`st, sch`action,
               sch.rq, sch.rq.links
      ensures Valid() && sch.st == old(sch.st)[t := Inactive] && sch.rq.queued == old(sch.rq.queued)[t := false]
      ensures sch.rq.prio == old(sch.rq.prio)
      ensures t in caller && caps == NotFor(old(caps), t) - {caller[t]}
      ensures sch.action == if t == sch.cur && old(sch.action) == ResumeCurrent then ChooseNew else old(sch.action)
      ensures Now() == Suspending(old(Now()), t)
    {
      hide Objects, Bindings, Scheduler.Valid, Minus, NotFor, Cancelling, Dequeuing, Stopping;
      ReplyFacts(V(), sch.st, sch.idle, t);
      IpcCancel(t);
      ReplyFacts(V(), sch.st, sch.idle, t);
      ghost var v := V();
      UncallObjects(v, sch.st, sch.idle, caller[t]);
      DeleteReplyCap(caller[t], sch.st);
      Overwrite(old(sch.st), t, Inactive, Inactive);
      Halt(t);
    }

    /** The second half of suspend. */
    method Halt(t: Tid)
      requires Valid() && t in sch.st && t != sch.idle && WaitsForNone(sch.st[t]) && sch.action != SwitchTo(t)
      requires t in reply && (sch.st[t].BlockedOnReply? ==> reply[t] == Master(0))
      modifies sch`st, sch`action, sch.rq, sch.rq.links
      ensures Valid() && sch.st == old(sch.st)[t := Inactive] && sch.rq.queued == old(sch.rq.queued)[t := false]
      ensures sch.rq.prio == old(sch.rq.prio) && t in sch.rq.prio
      ensures sch.action == if t == sch.cur && old(sch.action) == ResumeCurrent then ChooseNew else old(sch.action)
      ensures Now() == old(Now()).(st := sch.st,
                                   plan := Dequeuing(Stopping(old(sch.Planned()), sch.cur, t), sch.rq.prio, t))
    {
      hide Objects, Bindings, Scheduler.Valid, Dequeuing, Stopping;
      StateObjects(V(), sch.st, sch.idle, t, Inactive);
      sch.Deactivate(t);
    }

    /** restart */
    method Restart(t: Tid)
      requires Valid() && t in sch.st && t != sch.idle && !sch.action.SwitchTo?
      modifies this`queue, this`ep, this`aep, this`q, this`reply, this`caps, this`faulted, links, sch`st, sch`action,
               sch.rq, sch.rq.links
      ensures Valid() && sch.rq.prio == old(sch.rq.prio)
      ensures sch.st == if Blocked(old(sch.st)[t]) then old(sch.st)[t := TState.Restart] else old(sch.st)
      ensures caps == NotFor(old(caps), t) && Now() == Restarting(old(Now()), t)
    {
      hide Objects, Bindings, Scheduler.Valid, Minus, NotFor, Cancelling, Queueing, Waking;
      sch.Facts({});
      if Blocked(sch.st[t]) {
        RestartBlocked(t);
      } else {
        NoneFor(V(), sch.st, sch.idle, t);
      }
    }

    method RestartBlocked(t: Tid)
      requires Valid() && t in sch.st && t != sch.idle && !sch.action.SwitchTo? && Blocked(sch.st[t])
      modifies this`queue, this`ep, this`aep, this`q, this`reply, this`caps, this`faulted, links, sch`st, sch`action,
               sch.rq, sch.rq.links
      ensures Valid() && sch.rq.prio == old(sch.rq.prio) && t in sch.rq.prio
      ensures sch.st == old(sch.st)[t := TState.Restart] && caps == NotFor(old(caps), t)
      ensures var c := Cancelling(old(Now()), t);
              Now() == Waking(c.(plan := Queueing(c.plan, sch.rq.prio, t, true)), t, TState.Restart, false)
    {
      hide Objects, Bindings, Scheduler.Valid, Minus, NotFor, Cancelling, Queueing, Waking;
      ReplyFacts(V(), sch.st, sch.idle, t);
      IpcCancel(t);
      SetupReplyMaster(t, sch.st);
      StateObjects(V(), sch.st, sch.idle, t, TState.Restart);
      Overwrite(old(sch.st), t, Inactive, TState.Restart);
      Requeue(t);
    }

    /** The scheduling part of restart. */
    method Requeue(t: Tid)
      requires sch.Valid({}) && t in sch.st && Blocked(sch.st[t]) && !sch.action.SwitchTo?
      modifies sch`st, sch`action, sch.rq, sch.rq.links
      ensures sch.Valid({}) && sch.st == old(sch.st)[t := TState.Restart] && sch.st.Keys == old(sch.st).Keys
              && sch.rq.prio == old(sch.rq.prio)
      ensures t in sch.rq.prio && sch.cur in sch.rq.prio
      ensures Now() ==
              Waking(old(Now()).(plan := Queueing(old(sch.Planned()), sch.rq.prio, t, true)), t, TState.Restart, false)
    {
      hide Scheduler.Valid, Queueing, Switching;
      sch.Current({});
      sch.RestartAndQueue(t, {});
      sch.PossibleSwitchTo(t, false, {} + {t});
    }

    /** setupReplyMaster */
    method SetupReplyMaster(t: Tid, ghost st: States)
      requires Objects(V(), st, sch.idle) && t in st
      modifies this`reply
      ensures Objects(V(), st, sch.idle) && t in old(reply) && t in reply
      ensures reply == if old(reply)[t] == NoMaster then old(reply)[t := Master(0)] else old(reply)
      ensures Now() == old(Now())
    {
      hide Objects;
      ReplyFacts(V(), st, sch.idle, t);
      if reply[t] == NoMaster {
        MasterObjects(V(), st, sch.idle, t);
        reply := reply[t := Master(0)];
      }
    }

    /**
     setupCallerCap: its assertions on the two slots hold. `st` is the states once the sender has
     left its queue.
     */
    method SetupCallerCap(sender: Tid, receiver: Tid, ghost st: States)
      requires links != sch.rq.links && sch.Valid({}) && Bindings(sch.st.Keys, aep.Keys, bound)
      requires sender in sch.st && receiver in sch.st && sender != receiver && sender != sch.idle
      requires sender in sch.rq.queued && !sch.rq.queued[sender] && sch.action != SwitchTo(sender)
      requires Objects(V(), st, sch.idle) && sender in st && receiver in st
               && st[sender := BlockedOnReply] == sch.st[sender := BlockedOnReply]
      requires Runnable(st[sender]) && Runnable(st[receiver])
      requires receiver in caller && caller[receiver] !in caps
      modifies this`reply, this`caps, sch`st, sch`action
      ensures Valid()
      ensures sch.action == if sender == sch.cur && old(sch.action) == ResumeCurrent then ChooseNew else old(sch.action)
      ensures Now() == Awaiting(old(Now()), sender, receiver, true)
    {
      hide Objects, Bindings, Scheduler.Valid, Stopping;
      sch.SetBlocked(sender, BlockedOnReply, {});
      InsertReplyCap(sender, receiver, st);
    }

    /** The cap itself, in the receiver's caller slot, and the master that knows of it. */
    method InsertReplyCap(sender: Tid, receiver: Tid, ghost st: States)
      requires Objects(V(), st, sch.idle) && sender in st && receiver in st && sender != receiver && sender != sch.idle
      requires Runnable(st[sender]) && Runnable(st[receiver]) && receiver in caller && caller[receiver] !in caps
      modifies this`reply, this`caps
      ensures Objects(V(), st[sender := BlockedOnReply], sch.idle)
      ensures Now() == old(Now()).(caps := old(caps)[caller[receiver] := sender])
    {
      hide Objects;
      ReplyFacts(V(), st, sch.idle, sender);
      CallObjects(V(), st, sch.idle, sender, receiver);
      assert reply[sender].Master? && reply[sender].slot == 0;
      reply := reply[sender := Master(caller[receiver])];
      assert caller[receiver] !in caps;
      caps := caps[caller[receiver] := sender];
    }

    /** The current thread joins the end of a queue, and does not run any more. */
    method BlockOn(c: Chan, thread: Tid, s: TState, way: EpState)
      requires Valid() && c in q && thread == sch.cur && thread in sch.st && Runnable(sch.st[thread])
      requires !sch.action.ChooseNew? && Waits(s, c)
      requires c.Ep? ==> c.id in ep && (ep[c.id] == EpIdle || ep[c.id] == way)
      requires c.Aep? ==> c.id in aep && aep[c.id] != AepActive
      requires s.BlockedOnSend? ==> way == EpSend
      requires s.BlockedOnReceive? ==> way == EpRecv && thread in caller && caller[thread] !in caps
      modifies this`queue, this`ep, this`aep, this`q, links, sch`st, sch`action
      ensures Valid() && Now() == Joining(old(Now()), c, thread, s)
    {
      hide Objects, Bindings, Scheduler.Valid, Stopping, Joined;
      sch.Current({});
      ReplyFacts(V(), sch.st, sch.idle, thread);
      Join(c, thread, s, way, sch.st);
      sch.SetBlocked(thread, s, {});
    }

    /** The part of sendIPC that finds no receiver. */
    method SendBlock(blocking: bool, doCall: bool, badge: bv32, canGrant: bool, thread: Tid, e: nat)
      requires Valid() && e in ep && ep[e] != EpRecv && Ep(e) in q
      requires thread == sch.cur && thread in sch.st && Runnable(sch.st[thread]) && !sch.action.ChooseNew?
      modifies this`queue, this`ep, this`aep, this`q, links, sch`st, sch`action
      ensures Valid()
      ensures Now() == if blocking then Joining(old(Now()), Ep(e), thread, BlockedOnSend(e, badge, canGrant, doCall))
                       else old(Now())
    {
      hide Objects, Bindings, Scheduler.Valid, Joining;
      if blocking {
        BlockOn(Ep(e), thread, BlockedOnSend(e, badge, canGrant, doCall), EpSend);
      }
    }

    /** A receiver is taken from the head of the queue and made to run. */
    method Deliver(badge: bv32, dest: Tid, c: Chan, onSamePriority: bool)
      requires Valid() && c in q && dest in q[c] && (sch.action.SwitchTo? ==> dest != sch.cur)
      modifies this`queue, this`ep, this`aep, this`q, this`badge, links, sch`st, sch`action, sch.rq, sch.rq.links
      ensures Valid() && dest in old(sch.st) && sch.st == old(sch.st)[dest := Running]
              && sch.rq.prio == old(sch.rq.prio)
      ensures q == old(q)[c := Minus(old(q)[c], dest)]
      ensures this.badge == old(this.badge)[dest := badge]
      ensures sch.action.SwitchTo? ==> sch.action.thread == dest
      ensures sch.rq.queued.Keys == old(sch.rq.queued).Keys
      ensures forall t :: t in sch.rq.queued && t != dest && old(sch.action) != SwitchTo(t) ==>
                sch.rq.queued[t] == old(sch.rq.queued)[t]
      ensures dest in sch.rq.prio && sch.cur in sch.rq.prio
      ensures Now() == Delivering(old(Now()), c, dest, badge, onSamePriority)
      ensures old(sch.action) == ResumeCurrent ==> sch.Promoted(dest, onSamePriority)
    {
      hide Objects, Bindings, Scheduler.Valid, Minus, Switching, Woken;
      ghost var st: States := sch.st;
      sch.Current({});
      OneQueue(V(), st, sch.idle, c);
      Leave(c, dest, st);
      this.badge := this.badge[dest := badge];
      sch.Wake(dest, Running, onSamePriority);
    }

    /**
     A call or a fault has reached its receiver: the sender gets to wait for the reply, or is stopped
     if it may not grant one.
     */
    method AwaitReply(sender: Tid, receiver: Tid, mayReply: bool, ghost st: States)
      requires links != sch.rq.links && sch.Valid({}) && Bindings(sch.st.Keys, aep.Keys, bound)
      requires sender in sch.st && receiver in sch.st && sender != receiver && sender != sch.idle
      requires sender in sch.rq.queued && !sch.rq.queued[sender] && sch.action != SwitchTo(sender)
      requires Objects(V(), st, sch.idle) && sender in st && receiver in st && Runnable(st[sender])
               && Runnable(st[receiver])
      requires st == sch.st[sender := st[sender]] && receiver in caller && caller[receiver] !in caps
      modifies this`reply, this`caps, sch`st, sch`action
      ensures Valid()
      ensures sch.action == if sender == sch.cur && old(sch.action) == ResumeCurrent then ChooseNew else old(sch.action)
      ensures Now() == Awaiting(old(Now()), sender, receiver, mayReply)
    {
      hide Objects, Bindings, Scheduler.Valid, Stopping;
      if mayReply {
        Overwrite(sch.st, sender, st[sender], BlockedOnReply);
        SetupCallerCap(sender, receiver, st);
      } else {
        Overwrite(sch.st, sender, st[sender], Inactive);
        ReplyFacts(V(), st, sch.idle, sender);
        StateObjects(V(), st, sch.idle, sender, Inactive);
        sch.SetBlocked(sender, Inactive, {});
      }
    }

    /** The part of sendIPC that finds a receiver. */
    method SendDeliver(doCall: bool, badge: bv32, canGrant: bool, thread: Tid, e: nat)
      requires Valid() && e in ep && Ep(e) in q && ep[e] == EpRecv
      requires thread == sch.cur && thread in sch.st && Runnable(sch.st[thread]) && !sch.action.ChooseNew?
      modifies this`queue, this`ep, this`aep, this`q, this`badge, this`reply, this`caps, links, sch`st, sch`action,
               sch.rq, sch.rq.links
      ensures Valid() && old(q)[Ep(e)] != []
      ensures Now() == Sending(old(Now()), true, doCall, badge, canGrant, thread, e)
      ensures Now() == Sending(old(Now()), false, doCall, badge, canGrant, thread, e)
      ensures old(sch.action) == ResumeCurrent ==> sch.Promoted(old(q)[Ep(e)][0], true)
    {
      hide Objects, Bindings, Scheduler.Valid, Minus, Woken, Uncalled, Delivering, Awaiting;
      ghost var st: States := sch.st;
      sch.Current({});
      FirstReceiver(V(), st, sch.idle, e);
      var dest := queue[Ep(e)].head;
      var diminish := sch.st[dest].diminish;
      Deliver(badge, dest, Ep(e), true);
      if doCall || thread in faulted {
        SameState(sch.st, thread);
        AwaitReply(thread, dest, canGrant && !diminish, sch.st);
      }
    }

    /** sendIPC: from the current thread, by a system call or for a fault. */
    method SendIPC(blocking: bool, doCall: bool, badge: bv32, canGrant: bool, thread: Tid, e: nat)
      requires Valid() && e in ep && Ep(e) in q
      requires thread == sch.cur && thread in sch.st && Runnable(sch.st[thread]) && !sch.action.ChooseNew?
      modifies this`queue, this`ep, this`aep, this`q, this`badge, this`reply, this`caps, links, sch`st, sch`action,
               sch.rq, sch.rq.links
      ensures Valid()
      ensures Now() == Sending(old(Now()), blocking, doCall, badge, canGrant, thread, e)
      ensures old(Now()).HasReceiver(e) && old(sch.action) == ResumeCurrent ==> sch.Promoted(old(q)[Ep(e)][0], true)
    {
      hide Objects, Bindings, Scheduler.Valid, Scheduler.Promoted, Joining, Delivering, Awaiting;
      EndpointWay(V(), sch.st, sch.idle, e);
      if ep[e] != EpRecv {
        SendBlock(blocking, doCall, badge, canGrant, thread, e);
      } else {
        SendDeliver(doCall, badge, canGrant, thread, e);
      }
    }

    /** The part of receiveIPC that finds a sender. */
    method ReceiveFrom(thread: Tid, e: nat, diminish: bool)
      requires Valid() && e in ep && Ep(e) in q && ep[e] == EpSend
      requires thread == sch.cur && thread in sch.st && Runnable(sch.st[thread]) && !sch.action.ChooseNew?
      requires thread in caller && caller[thread] !in caps
      modifies this`queue, this`ep, this`aep, this`q, this`badge, this`reply, this`caps, links, sch`st, sch`action,
               sch.rq, sch.rq.links
      ensures Valid()
      ensures old(Now()).HasSender(e) && Now() == Taking(old(Now()), thread, e, diminish)
      ensures var sender := old(q)[Ep(e)][0];
              old(sch.action) == ResumeCurrent && !old(sch.st)[sender].isCall && sender !in faulted ==>
                sch.Promoted(sender, false)
    {
      hide Objects, Bindings, Scheduler.Valid, Scheduler.Promoted, Awaiting, Switching, Minus;
      ghost var st: States := sch.st;
      sch.Facts({});
      FirstSender(V(), st, sch.idle, e);
      var sender := queue[Ep(e)].head;
      Leave(Ep(e), sender, st);
      var BlockedOnSend(_, b, canGrant, doCall) := sch.st[sender];
      badge := badge[thread := b];
      if doCall || sender in faulted {
        Overwrite(sch.st, sender, Running, Inactive);
        AwaitReply(sender, thread, canGrant && !diminish, st[sender := Running]);
      } else {
        sch.Wake(sender, Running, false);
      }
    }

    /** completeAsyncIPC, and receiveAsyncIPC on an active async endpoint: all pending signals at once. */
    method TakeSignals(a: nat, thread: Tid)
      requires Valid() && a in aep && aep[a] == AepActive
      modifies this`aep, this`badge, this`pending
      ensures Valid() && pending == old(pending)[a := []] && aep == old(aep)[a := AepIdle]
      ensures a in old(pending) && badge == old(badge)[thread := OrAll(old(pending)[a])]
      ensures Now() == Collecting(old(Now()), thread, a)
    {
      hide Objects, Bindings, Scheduler.Valid, OrAll;
      AsyncWay(V(), sch.st, sch.idle, a);
      TakeObjects(V(), sch.st, sch.idle, a);
      AepKeys(aep, a, AepIdle);
      badge := badge[thread := msg[a]];
      aep := aep[a := AepIdle];
      pending := pending[a := []];
    }

    /** The part of receiveIPC that finds no sender. */
    method ReceiveBlock(thread: Tid, e: nat, diminish: bool)
      requires Valid() && e in ep && Ep(e) in q && ep[e] != EpSend
      requires thread == sch.cur && thread in sch.st && Runnable(sch.st[thread]) && !sch.action.ChooseNew?
      requires thread in caller && caller[thread] !in caps
      modifies this`queue, this`ep, this`aep, this`q, links, sch`st, sch`action
      ensures Valid() && Now() == Joining(old(Now()), Ep(e), thread, BlockedOnReceive(e, diminish))
    {
      hide Objects, Bindings, Scheduler.Valid, Joining;
      BlockOn(Ep(e), thread, BlockedOnReceive(e, diminish), EpRecv);
    }

    /** receiveIPC */
    method ReceiveIPC(thread: Tid, e: nat, diminish: bool)
      requires Valid() && e in ep && Ep(e) in q
      requires thread == sch.cur && thread in sch.st && Runnable(sch.st[thread]) && !sch.action.ChooseNew?
      requires thread in caller && caller[thread] !in caps
      modifies this`queue, this`ep, this`aep, this`q, this`badge, this`reply, this`caps, this`pending, links, sch`st,
               sch`action, sch.rq, sch.rq.links
      ensures Valid()
      ensures Now() == Receiving(old(Now()), thread, e, diminish)
    {
      hide Objects, Bindings, Scheduler.Valid, OrAll, Taking, Joining, Collecting;
      EndpointWay(V(), sch.st, sch.idle, e);
      if thread in bound.aep {
        BoundExists(sch.st.Keys, aep.Keys, bound, thread);
        AsyncWay(V(), sch.st, sch.idle, bound.aep[thread]);
      }
      if thread in bound.aep && aep[bound.aep[thread]] == AepActive {
        TakeSignals(bound.aep[thread], thread);
      } else if ep[e] != EpSend {
        ReceiveBlock(thread, e, diminish);
      } else {
        ReceiveFrom(thread, e, diminish);
      }
    }

    /** receiveAsyncIPC */
    method ReceiveAsyncIPC(thread: Tid, a: nat, blocking: bool)
      requires Valid() && a in aep
      requires thread == sch.cur && thread in sch.st && Runnable(sch.st[thread]) && !sch.action.ChooseNew?
      modifies this`queue, this`ep, this`aep, this`q, this`badge, this`pending, links, sch`st, sch`action
      ensures Valid()
      ensures Now() == ReceivingAsync(old(Now()), thread, a, blocking)
    {
      hide Objects, Bindings, Scheduler.Valid, OrAll, Joining, Collecting;
      AsyncWay(V(), sch.st, sch.idle, a);
      if aep[a] != AepActive {
        if blocking {
          BlockOn(Aep(a), thread, BlockedOnAsyncEvent(a), EpIdle);
        } else {
          badge := badge[thread := 0];
        }
      } else {
        TakeSignals(a, thread);
      }
    }

    /** aep_set_active, and the merging of a signal into an active async endpoint. */
    method AddSignal(a: nat, b: bv32)
      requires Valid() && a in aep && aep[a] != AepWaiting
      modifies this`aep, this`msg, this`pending
      ensures Valid() && a in old(pending) && pending == old(pending)[a := old(pending)[a] + [b]]
      ensures Now() == old(Now()).(pending := pending)
    {
      hide Objects, Bindings, Scheduler.Valid, Or;
      AsyncWay(V(), sch.st, sch.idle, a);
      SignalObjects(V(), sch.st, sch.idle, a, b);
      AepKeys(aep, a, AepActive);
      msg := msg[a := if aep[a] == AepActive then Or(msg[a], b) else b];
      aep := aep[a := AepActive];
      pending := pending[a := pending[a] + [b]];
    }

    /** The signal goes to the bound thread, which gives up receiving on its endpoint. */
    method SignalBound(a: nat, b: bv32, tcb: Tid)
      requires Valid() && a in aep && tcb in sch.st && sch.st[tcb].BlockedOnReceive? && !sch.action.SwitchTo?
      modifies this`queue, this`ep, this`aep, this`q, this`badge, this`reply, this`caps, this`faulted, links, sch`st,
               sch`action, sch.rq, sch.rq.links
      ensures Valid() && sch.rq.prio == old(sch.rq.prio)
      ensures Now() == Delivering(old(Now()), ChanOf(old(sch.st)[tcb]), tcb, b, true)
      ensures old(sch.action) == ResumeCurrent ==> sch.Promoted(tcb, true)
    {
      hide Objects, Bindings, Scheduler.Valid, Scheduler.Promoted, Minus, NotFor, Switching;
      sch.Current({});
      ReplyFacts(V(), sch.st, sch.idle, tcb);
      NoneFor(V(), sch.st, sch.idle, tcb);
      IpcCancel(tcb);
      StateObjects(V(), sch.st, sch.idle, tcb, Running);
      Overwrite(old(sch.st), tcb, Inactive, Running);
      badge := badge[tcb := b];
      sch.Wake(tcb, Running, true);
    }

    /** sendAsyncIPC: a signal is delivered at once or becomes pending. */
    method SendAsyncIPC(a: nat, b: bv32)
      requires Valid() && a in aep && !sch.action.SwitchTo?
      modifies this`queue, this`ep, this`aep, this`q, this`msg, this`pending, this`badge, this`reply, this`caps,
               this`faulted, links, sch`st, sch`action, sch.rq, sch.rq.links
      ensures Valid() && sch.rq.prio == old(sch.rq.prio) && a in old(pending) && Aep(a) in old(q)
      ensures Now() == Signalling(old(Now()), a, b)
      ensures old(q)[Aep(a)] != [] && old(sch.action) == ResumeCurrent ==> sch.Promoted(old(q)[Aep(a)][0], false)
    {
      hide Objects, Scheduler.Valid, Scheduler.Promoted, OrAll, Delivering;
      AsyncWay(V(), sch.st, sch.idle, a);
      if aep[a] == AepWaiting {
        OneQueue(V(), sch.st, sch.idle, Aep(a));
        var dest := queue[Aep(a)].head;
        assert dest in q[Aep(a)];
        Deliver(b, dest, Aep(a), false);
      } else if aep[a] == AepIdle && a in bound.tcb && sch.st[bound.tcb[a]].BlockedOnReceive? {
        SignalBound(a, b, bound.tcb[a]);
      } else {
        AddSignal(a, b);
      }
    }

    /**
     The caller's state after a reply, or after the reply to its fault. `mayRestart` is the answer of
     handleFaultReply.
     */
    method ResumeCaller(receiver: Tid, mayRestart: bool)
      requires sch.Valid({}) && receiver in sch.st && receiver != sch.idle && sch.st[receiver].BlockedOnReply?
               && sch.action == ResumeCurrent
      modifies this`badge, this`faulted, sch`st, sch`action, sch.rq, sch.rq.links
      ensures sch.Valid({}) && !sch.action.ChooseNew? && sch.rq.prio == old(sch.rq.prio) && receiver != sch.cur
      ensures faulted == old(faulted) - {receiver} && sch.st.Keys == old(sch.st).Keys
      ensures sch.st == old(sch.st)[receiver := if receiver !in old(faulted) then Running
                                                else if mayRestart then TState.Restart else Inactive]
      ensures badge == if receiver !in old(faulted) then old(badge)[receiver := 0] else old(badge)
      ensures receiver in sch.rq.prio && sch.cur in sch.rq.prio
      ensures sch.Planned() == if receiver !in old(faulted) || mayRestart
                               then Switching(old(sch.Planned()), sch.rq.prio, sch.cur, receiver, true)
                               else Stopping(old(sch.Planned()), sch.cur, receiver)
      ensures receiver !in old(faulted) || mayRestart ==> sch.Promoted(receiver, true)
    {
      hide Scheduler.Valid, Scheduler.Promoted, Switching, Stopping;
      sch.Facts({});
      if receiver !in faulted {
        badge := badge[receiver := 0];
        sch.Wake(receiver, Running, true);
      } else {
        faulted := faulted - {receiver};
        if mayRestart {
          sch.Wake(receiver, TState.Restart, true);
        } else {
          sch.SetBlocked(receiver, Inactive, {});
        }
      }
    }

    /** doReplyTransfer: its assertion holds, and the reply cap is used up. */
    method DoReplyTransfer(slot: Slot, mayRestart: bool)
      requires Valid() && slot in caps && sch.action == ResumeCurrent
      modifies this`badge, this`faulted, this`reply, this`caps, sch`st, sch`action, sch.rq, sch.rq.links
      ensures Valid() && old(caps)[slot] != sch.cur && !sch.action.ChooseNew? && sch.rq.prio == old(sch.rq.prio)
      ensures Now() == Replying(old(Now()), slot, mayRestart)
      ensures old(caps)[slot] !in old(faulted) || mayRestart ==> sch.Promoted(old(caps)[slot], true)
    {
      hide Objects, Bindings, Scheduler.Valid, Scheduler.Promoted, Switching, Stopping;
      ghost var st: States := sch.st;
      var receiver := caps[slot];
      CallerWaits(V(), st, sch.idle, slot);
      sch.Current({});
      assert sch.st[receiver].BlockedOnReply?;
      ResumeCaller(receiver, mayRestart);
      DeleteReplyCap(slot, st);
      StateObjects(V(), st, sch.idle, receiver, sch.st[receiver]);
    }

    /** The loop of epCancelAll and aepCancelAll: every thread of the queue restarts and is queued to run. */
    method RestartAll(head: Queue, ghost s: seq<Tid>)
      requires links != sch.rq.links && sch.Valid({}) && !sch.action.SwitchTo?
      requires Linked(links.next, links.prev, head, s) && forall t :: t in s ==>
                 t in sch.st && !Runnable(sch.st[t]) && t != sch.idle
      modifies sch`st, sch`action, sch.rq, sch.rq.links
      ensures sch.Valid({}) && sch.action == ChooseNew && sch.rq.prio == old(sch.rq.prio)
      ensures sch.st == Restarted(old(sch.st), s) && sch.st.Keys == old(sch.st).Keys
      ensures sch.Planned() == Rescheduling(QueueingAll(old(sch.Planned()), sch.rq.prio, s), sch.rq.prio)
    {
      hide Linked, Scheduler.Valid, Restarted, Members, QueueingAll, Queueing, Rescheduling;
      QueueingNone(sch.Planned(), sch.rq.prio, s);
      sch.Facts({});
      LinkedHead(links.next, links.prev, head, s);
      RestartedNone(sch.st, s);
      var thread := head.head;
      ghost var i := 0;
      while thread != NULL
        invariant 0 <= i <= |s| && thread == if i < |s| then s[i] else NULL
        invariant i < |s| ==> s[i] != NULL
        invariant sch.Valid(Members(s[..i])) && sch.action == old(sch.action) && sch.rq.prio == old(sch.rq.prio)
        invariant sch.st == Restarted(old(sch.st), s[..i]) && sch.st.Keys == old(sch.st).Keys
        invariant forall t :: t in Members(s[..i]) ==> t in sch.rq.queued && sch.rq.queued[t]
        invariant sch.Planned() == QueueingAll(old(sch.Planned()), sch.rq.prio, s[..i])
        decreases |s| - i
      {
        assert thread in s;
        QueueingNext(old(sch.Planned()), sch.rq.prio, s, i);
        Neighbours(links.next, links.prev, head, s, i);
        NextRestarted(old(sch.st), s, i);
        sch.RestartAndQueue(thread, Members(s[..i]));
        thread := links.next[thread];
        i := i + 1;
      }
      assert s[..i] == s;
      sch.RescheduleAll(Members(s));
    }

    /** The part of epCancelAll and aepCancelAll for a queue that is not empty. */
    method CancelQueue(c: Chan)
      requires Valid() && !sch.action.SwitchTo? && c in q && q[c] != []
      modifies this`queue, this`ep, this`aep, this`q, sch`st, sch`action, sch.rq, sch.rq.links
      ensures Valid() && sch.action == ChooseNew && sch.rq.prio == old(sch.rq.prio)
      ensures sch.st == Restarted(old(sch.st), old(q)[c]) && q == old(q)[c := []]
      ensures Now() == Releasing(old(Now()), c, old(q)[c], [])
    {
      hide Objects, Bindings, Linked, Scheduler.Valid, Restarted, Distinct, WokenStates, OnlyRelinked;
      hide QueueingAll, Rescheduling;
      ghost var v: View, st: States := V(), sch.st;
      sch.Current({});
      Waiters(v, st, sch.idle, c);
      CancelObjects(v, st, sch.idle, c);
      var head := queue[c];
      StoreQueue(c, EMPTY, []);
      RestartAll(head, v.q[c]);
    }

    /** epCancelAll and aepCancelAll. */
    method CancelAll(c: Chan)
      requires Valid() && !sch.action.SwitchTo? && c in q
      modifies this`queue, this`ep, this`aep, this`q, sch`st, sch`action, sch.rq, sch.rq.links
      ensures Valid() && !sch.action.SwitchTo? && sch.rq.prio == old(sch.rq.prio)
      ensures sch.st == Restarted(old(sch.st), old(q)[c]) && q == old(q)[c := []]
      ensures old(q)[c] != [] ==> sch.action == ChooseNew
      ensures Now() == CancellingAll(old(Now()), c)
    {
      hide Objects, Bindings, Linked, Scheduler.Valid, Restarted, Distinct, Releasing;
      OneQueue(V(), sch.st, sch.idle, c);
      if queue[c].head != NULL {
        CancelQueue(c);
      } else {
        RestartedNone(sch.st, []);
        SameQueue(q, c);
      }
    }

    method RestartAndLeave(t: Tid, head: Queue, ghost w: seq<Tid>, ghost k: nat,
                           ghost flight: set<Tid>) returns (rest: Queue)
      requires links != sch.rq.links && sch.Valid(flight) && !sch.action.SwitchTo? && t in sch.st && t != sch.idle
      requires sch.action == ResumeCurrent ==> t != sch.cur
      requires Linked(links.next, links.prev, head, w) && k < |w| && w[k] == t
      modifies links, sch`st, sch`action, sch.rq, sch.rq.links
      ensures sch.Valid(flight + {t}) && sch.action == old(sch.action) && sch.rq.prio == old(sch.rq.prio)
      ensures sch.st == old(sch.st)[t := TState.Restart] && sch.st.Keys == old(sch.st).Keys
              && sch.rq.queued == old(sch.rq.queued)[t := true]
      ensures t in sch.rq.prio && sch.Planned() == Queueing(old(sch.Planned()), sch.rq.prio, t, true)
      ensures Linked(links.next, links.prev, rest, Without(w, k))
      ensures OnlyRelinked(old(links.next), old(links.prev), links.next, links.prev, Members(w) + {t})
    {
      hide Linked, Scheduler.Valid, Members, OnlyRelinked, Queueing;
      sch.RestartAndQueue(t, flight);
      rest := links.Dequeue(t, head, w, k);
    }

    /** The state of the loop of epCancelBadgedSends after `i` senders. */
    ghost predicate Sifted(st: States, s: seq<Tid>, i: nat, badge: bv32, thread: Tid, rest: Queue)
      reads this, links, sch, sch.rq
    {
      && i <= |s| && thread == (if i < |s| then s[i] else NULL)
      && Linked(links.next, links.prev, rest, Picked(st, s[..i], badge, false) + s[i..])
      && sch.st == Restarted(st, Picked(st, s[..i], badge, true)) && sch.st.Keys == st.Keys
      && (forall t :: t in Members(Picked(st, s[..i], badge, true)) ==> t in sch.rq.queued && sch.rq.queued[t])
    }

    /** One round of that loop. */
    method SiftOne(thread: Tid, rest: Queue, badge: bv32, ghost st: States, ghost s: seq<Tid>, ghost i: nat,
                   ghost p: Plan)
      returns (next: Tid, rest': Queue)
      requires i < |s| && Sifted(st, s, i, badge, thread, rest) && thread != NULL && Distinct(s)
      requires forall t :: t in s ==>
                 t in st && st[t].BlockedOnSend? && t != sch.idle && (sch.action == ResumeCurrent ==> t != sch.cur)
      requires links != sch.rq.links && sch.Valid(Members(Picked(st, s[..i], badge, true))) && !sch.action.SwitchTo?
      requires sch.Planned() == QueueingAll(p, sch.rq.prio, Picked(st, s[..i], badge, true))
      modifies links, sch`st, sch`action, sch.rq, sch.rq.links
      ensures Sifted(st, s, i + 1, badge, next, rest')
      ensures OnlyRelinked(old(links.next), old(links.prev), links.next, links.prev, Members(s))
      ensures sch.Valid(Members(Picked(st, s[..i + 1], badge, true))) && sch.action == old(sch.action)
              && sch.rq.prio == old(sch.rq.prio)
      ensures sch.Planned() == QueueingAll(p, sch.rq.prio, Picked(st, s[..i + 1], badge, true))
    {
      hide Linked, Scheduler.Valid, Restarted, Members, OnlyRelinked, Picked, Distinct, QueueingAll, Queueing;
      ghost var kept, dropped := Picked(st, s[..i], badge, false), Picked(st, s[..i], badge, true);
      assert thread in s;
      NextKept(st, s, i, badge);
      NextDropped(st, s, i, badge);
      Neighbours(links.next, links.prev, rest, kept + s[i..], |kept|);
      Untouched(links.next, links.prev, Members(s));
      next, rest' := links.next[thread], rest;
      if sch.st[thread].badge == badge {
        rest' := RestartAndLeave(thread, rest, kept + s[i..], |kept|, Members(dropped));
        RelinkedWithin(old(links.next), old(links.prev), links.next, links.prev, kept + s[i..], thread, s);
        NextMember(dropped, Picked(st, s[..i + 1], badge, true), thread);
        QueueingOne(p, sch.rq.prio, dropped, thread);
      }
    }

    /** The loop of epCancelBadgedSends: senders with the badge restart, the others stay in their order. */
    method RestartBadged(head: Queue, badge: bv32, ghost s: seq<Tid>) returns (rest: Queue)
      requires links != sch.rq.links && sch.Valid({}) && !sch.action.SwitchTo?
      requires Linked(links.next, links.prev, head, s) && forall t :: t in s ==>
                 t in sch.st && sch.st[t].BlockedOnSend? && t != sch.idle
      modifies links, sch`st, sch`action, sch.rq, sch.rq.links
      ensures sch.Valid({}) && sch.action == ChooseNew && sch.rq.prio == old(sch.rq.prio)
      ensures Linked(links.next, links.prev, rest, Picked(old(sch.st), s, badge, false))
      ensures OnlyRelinked(old(links.next), old(links.prev), links.next, links.prev, Members(s))
      ensures sch.st == Restarted(old(sch.st), Picked(old(sch.st), s, badge, true)) && sch.st.Keys == old(sch.st).Keys
      ensures sch.Planned() ==
              Rescheduling(QueueingAll(old(sch.Planned()), sch.rq.prio, Picked(old(sch.st), s, badge, true)),
                           sch.rq.prio)
    {
      hide Linked, Scheduler.Valid, Restarted, Members, OnlyRelinked, Picked, Distinct, Sifted;
      hide QueueingAll, Rescheduling;
      sch.Facts({});
      NoneQueued(sch.Planned(), sch.rq.prio, sch.st, s, badge);
      ghost var st: States := sch.st;
      PickedNone(st, s, badge);
      Untouched(links.next, links.prev, Members(s));
      LinkedDistinct(links.next, links.prev, head, s);
      NoneSifted(s, badge, head);
      rest := head;
      var thread := head.head;
      ghost var i := 0;
      while thread != NULL
        invariant i <= |s| && Sifted(st, s, i, badge, thread, rest)
        invariant OnlyRelinked(old(links.next), old(links.prev), links.next, links.prev, Members(s))
        invariant sch.Valid(Members(Picked(st, s[..i], badge, true))) && sch.action == old(sch.action)
                  && sch.rq.prio == old(sch.rq.prio)
        invariant sch.Planned() == QueueingAll(old(sch.Planned()), sch.rq.prio, Picked(st, s[..i], badge, true))
        decreases |s| - i
      {
        ghost var n, p := links.next, links.prev;
        OneToSift(st, s, i, badge, thread, rest);
        thread, rest := SiftOne(thread, rest, badge, st, s, i, old(sch.Planned()));
        RelinkedTwice(old(links.next), old(links.prev), n, p, links.next, links.prev, s);
        i := i + 1;
      }
      AllSifted(st, s, i, badge, rest);
      sch.RescheduleAll(Members(Picked(st, s, badge, true)));
    }

    lemma NoneSifted(s: seq<Tid>, badge: bv32, head: Queue)
      requires Linked(links.next, links.prev, head, s)
      ensures Sifted(sch.st, s, 0, badge, head.head, head)
    {
      hide Linked;
      LinkedHead(links.next, links.prev, head, s);
      PickedNone(sch.st, s, badge);
    }

    lemma OneToSift(st: States, s: seq<Tid>, i: nat, badge: bv32, thread: Tid, rest: Queue)
      requires Sifted(st, s, i, badge, thread, rest) && thread != NULL
      ensures i < |s|
    {
    }

    lemma AllSifted(st: States, s: seq<Tid>, i: nat, badge: bv32, rest: Queue)
      requires Sifted(st, s, i, badge, NULL, rest) && NULL !in s
      ensures s[..i] == s && Linked(links.next, links.prev, rest, Picked(st, s, badge, false))
      ensures sch.st == Restarted(st, Picked(st, s, badge, true)) && sch.st.Keys == st.Keys
      ensures forall t :: t in Members(Picked(st, s, badge, true)) ==> t in sch.rq.queued && sch.rq.queued[t]
    {
      hide Linked, Restarted, Members, Picked;
      assert s[..i] == s;
      assert Picked(st, s, badge, false) + s[i..] == Picked(st, s, badge, false);
    }

    /** epCancelBadgedSends on an endpoint with senders. */
    method SiftQueue(e: nat, badge: bv32)
      requires Valid() && !sch.action.SwitchTo? && e in ep && Ep(e) in q && ep[e] == EpSend
      modifies this`queue, this`ep, this`aep, this`q, links, sch`st, sch`action, sch.rq, sch.rq.links
      ensures Valid() && sch.action == ChooseNew && sch.rq.prio == old(sch.rq.prio)
      ensures sch.st == Restarted(old(sch.st), Picked(old(sch.st), old(q)[Ep(e)], badge, true))
      ensures q == old(q)[Ep(e) := Picked(old(sch.st), old(q)[Ep(e)], badge, false)]
      ensures var s := old(q)[Ep(e)];
              Now() == Releasing(old(Now()), Ep(e), Picked(old(sch.st), s, badge, true),
                                 Picked(old(sch.st), s, badge, false))
    {
      hide Objects, Bindings, Linked, Scheduler.Valid, Restarted, Distinct, WokenStates, OnlyRelinked, Members, Picked,
           Woken, QueueingAll, Rescheduling;
      ghost var v: View, st: States := V(), sch.st;
      sch.Current({});
      Senders(v, st, sch.idle, e);
      var rest := RestartBadged(queue[Ep(e)], badge, q[Ep(e)]);
      SiftObjects(v, st, sch.idle, e, badge, links.next, links.prev, rest);
      assert V() == v.(next := links.next, prev := links.prev);
      WokenOver(v, Ep(e), Picked(st, v.q[Ep(e)], badge, false), links.next, links.prev, rest);
      StoreQueue(Ep(e), rest, Picked(st, v.q[Ep(e)], badge, false));
    }

    /** epCancelBadgedSends */
    method CancelBadgedSends(e: nat, badge: bv32)
      requires Valid() && !sch.action.SwitchTo? && e in ep && Ep(e) in q
      modifies this`queue, this`ep, this`aep, this`q, links, sch`st, sch`action, sch.rq, sch.rq.links
      ensures Valid() && !sch.action.SwitchTo? && sch.rq.prio == old(sch.rq.prio)
      ensures old(ep)[e] != EpSend ==> sch.st == old(sch.st) && q == old(q)
      ensures old(ep)[e] == EpSend ==>
                && sch.st == Restarted(old(sch.st), Picked(old(sch.st), old(q)[Ep(e)], badge, true))
                && q == old(q)[Ep(e) := Picked(old(sch.st), old(q)[Ep(e)], badge, false)]
      ensures Now() == CancellingBadged(old(Now()), e, badge)
    {
      hide Objects, Bindings, Scheduler.Valid, Restarted, Picked, Releasing;
      EndpointWay(V(), sch.st, sch.idle, e);
      if ep[e] == EpSend {
        SiftQueue(e, badge);
      }
    }

    /** unbindAsyncEndpoint: the thread has no async endpoint, and the one it had has no thread. */
    method Unbind(t: Tid)
      requires Valid()
      modifies this`bound
      ensures Valid() && bound == Unbound(old(bound), t) && Now() == old(Now()).(bound := bound)
    {
      hide Objects, Scheduler.Valid;
      if t in bound.aep {
        bound := Bound(bound.tcb - {bound.aep[t]}, bound.aep - {t});
      }
    }

    /**
     bindAsyncEndpoint, as decodeBindAEP lets it through: the thread has no async endpoint yet. If all
     bindings were mutual they stay so exactly when the async endpoint had no thread yet, which is not
     checked.
     */
    method Bind(t: Tid, a: nat)
      requires Valid() && t in sch.st && a in aep && t !in bound.aep
      modifies this`bound
      ensures Valid() && bound == Bound(old(bound).tcb[a := t], old(bound).aep[t := a])
              && Now() == old(Now()).(bound := bound)
      ensures old(bound).Mutual() ==> (bound.Mutual() <==> a !in old(bound).tcb)
    {
      hide Objects, Scheduler.Valid;
      BindOnce(bound, t, a);
      bound := Bound(bound.tcb[a := t], bound.aep[t := a]);
    }

    /** finaliseCap of the last cap to an async endpoint: it has no thread and no waiting threads any more. */
    method DeleteAsyncEndpoint(a: nat)
      requires Valid() && a in aep && Aep(a) in q && !sch.action.SwitchTo?
      modifies this`bound, this`queue, this`ep, this`aep, this`q, sch`st, sch`action, sch.rq, sch.rq.links
      ensures Valid() && !sch.action.SwitchTo? && sch.rq.prio == old(sch.rq.prio)
      ensures q == old(q)[Aep(a) := []] && sch.st == Restarted(old(sch.st), old(q)[Aep(a)])
      ensures bound.tcb == old(bound).tcb - {a} && Now() == DeletingAep(old(Now()), a)
    {
      hide Objects, Scheduler.Valid, Restarted, CancellingAll;
      if a in bound.tcb {
        Unbind(bound.tcb[a]);
      }
      CancelAll(Aep(a));
    }

    /** finaliseCap of the last cap to a thread: it is unbound, stopped, and has no reply cap and no master. */
    method DeleteThread(t: Tid)
      requires Valid() && t in sch.st && t != sch.idle && !sch.action.SwitchTo?
      modifies this`bound, this`queue, this`ep, this`aep, this`q, this`reply, this`caps, this`faulted, links, sch`st,
               sch`action, sch.rq, sch.rq.links
      ensures Valid() && !sch.action.SwitchTo? && sch.st == old(sch.st)[t := Inactive]
              && sch.rq.prio == old(sch.rq.prio)
      ensures t in reply && reply[t] == NoMaster && (forall s :: s in caps ==> caps[s] != t)
      ensures t in caller && caller[t] !in caps
      ensures bound == Unbound(old(bound), t) && Now() == Suspending(old(Now()).(bound := bound), t)
    {
      hide Objects, Bindings, Scheduler.Valid, Suspending;
      Unbind(t);
      Suspend(t);
      ReplyFacts(V(), sch.st, sch.idle, t);
      UnmasterObjects(V(), sch.st, sch.idle, t);
      reply := reply[t := NoMaster];
    }

    /** A TCB that is created or recycled: an inactive thread that is bound to nothing, with priority 0. */
    method ResetThread(t: Tid)
      requires Valid() && t in sch.st && t != sch.idle && sch.st[t].Inactive?
      modifies this`faulted, sch`slice, sch.rq
      ensures Valid() && sch.rq.prio == old(sch.rq.prio)[t := 0] && sch.rq.queued == old(sch.rq.queued)
      ensures t in sch.rq.queued && !sch.rq.queued[t] && faulted == old(faulted) - {t}
      ensures Now() == old(Now()).(prio := sch.rq.prio, slice := old(sch.slice)[t := TIME_SLICE], faulted := faulted)
    {
      hide Objects, Bindings, Scheduler.Valid;
      sch.Reset(t);
      faulted := faulted - {t};
    }

    /** An async endpoint that is created: what was pending on it before is gone. */
    method ResetAsyncEndpoint(a: nat)
      requires Valid() && a in aep && Aep(a) in q && q[Aep(a)] == []
      modifies this`aep, this`pending
      ensures Valid() && pending == old(pending)[a := []] && a in aep && aep[a] == AepIdle
              && Now() == old(Now()).(pending := pending)
    {
      hide Objects, Bindings, Scheduler.Valid;
      AsyncWay(V(), sch.st, sch.idle, a);
      if aep[a] == AepActive {
        TakeObjects(V(), sch.st, sch.idle, a);
        AepKeys(aep, a, AepIdle);
        aep := aep[a := AepIdle];
        pending := pending[a := []];
      } else {
        SamePending(pending, a);
      }
    }

    /** cteMove of a reply cap into an empty slot: the cap moves, and the master follows it. */
    method MoveReplyCap(source: Slot, dest: Slot)
      requires Valid() && source in caps && dest != 0 && dest !in caps && dest !in caller.Values
      modifies this`reply, this`caps
      ensures Valid() && caps == Moved(old(caps), source, dest) && source !in caps && dest in caps
      ensures reply == old(reply)[old(caps)[source] := Master(dest)] && Now() == old(Now()).(caps := caps)
    {
      hide Objects, Bindings, Scheduler.Valid;
      SaveObjects(V(), sch.st, sch.idle, source, dest);
      reply := reply[caps[source] := Master(dest)];
      caps := caps[dest := caps[source]] - {source};
    }

    /** invokeCNodeSaveCaller into an empty slot. */
    method SaveCaller(dest: Slot)
      requires Valid() && dest != 0 && dest !in caps && dest !in caller.Values && sch.cur in caller
      modifies this`reply, this`caps
      ensures Valid() && caps == Moved(old(caps), caller[sch.cur], dest) && Now() == old(Now()).(caps := caps)
    {
      hide Objects, Bindings, Scheduler.Valid;
      if caller[sch.cur] in caps {
        MoveReplyCap(caller[sch.cur], dest);
      }
    }

    /**
     invokeCNodeRotate on three different slots, the third of them empty: what is in the second goes to
     the third and what is in the first to the second, and reply caps stay where their masters say.
     */
    method RotateReplyCaps(slot1: Slot, slot2: Slot, slot3: Slot)
      requires Valid() && slot1 != slot2 && slot2 != slot3 && slot1 != slot3 && slot3 !in caps
      requires slot2 != 0 && slot2 !in caller.Values && slot3 != 0 && slot3 !in caller.Values
      modifies this`reply, this`caps
      ensures Valid() && caps == Moved(Moved(old(caps), slot2, slot3), slot1, slot2)
              && Now() == old(Now()).(caps := caps)
    {
      hide Objects, Bindings, Scheduler.Valid;
      if slot2 in caps {
        MoveReplyCap(slot2, slot3);
      }
      if slot1 in caps {
        MoveReplyCap(slot1, slot2);
      }
    }

    /** handleDoubleFault: without a handler the faulting thread stops. */
    method HandleDoubleFault()
      requires Valid() && sch.cur in sch.st && Runnable(sch.st[sch.cur]) && !sch.action.ChooseNew?
      modifies sch`st, sch`action
      ensures Valid() && Now() == Blocking(old(Now()), sch.cur, Inactive)
    {
      hide Objects, Bindings, Scheduler.Valid, Stopping;
      sch.Current({});
      ReplyFacts(V(), sch.st, sch.idle, sch.cur);
      StateObjects(V(), sch.st, sch.idle, sch.cur, Inactive);
      sch.SetBlocked(sch.cur, Inactive, {});
    }

    /**
     handleFault for the current thread. `handler` is the endpoint that its fault handler slot leads to,
     with the rights to send and grant.
     */
    method HandleFault(handler: Handler)
      requires Valid() && sch.cur in sch.st && Runnable(sch.st[sch.cur]) && !sch.action.ChooseNew?
      modifies this`queue, this`ep, this`aep, this`q, this`badge, this`reply, this`caps, this`faulted, links, sch`st,
               sch`action, sch.rq, sch.rq.links
      ensures Valid()
      ensures Now() == Faulting(old(Now()), sch.cur, handler)
      ensures faulted == if handler.Handler? && handler.ep in old(ep) then old(faulted) + {sch.cur} else old(faulted)
    {
      hide Objects, Bindings, Scheduler.Valid, Sending, Blocking;
      HasObject(V(), sch.st, sch.idle, if handler.Handler? then Ep(handler.ep) else Ep(0));
      if handler.Handler? && handler.ep in ep {
        HasQueue(V(), sch.st, sch.idle, handler.ep);
        faulted := faulted + {sch.cur};
        SendIPC(true, false, handler.badge, true, sch.cur, handler.ep);
      } else {
        HandleDoubleFault();
      }
    }

    /** handleReply: its assertion holds, and its failure branch is never taken. */
    method HandleReply(mayRestart: bool)
      requires Valid() && sch.cur in sch.st && Runnable(sch.st[sch.cur]) && sch.action == ResumeCurrent
               && sch.cur in caller
      modifies this`badge, this`faulted, this`reply, this`caps, sch`st, sch`action, sch.rq, sch.rq.links
      ensures Valid() && !sch.action.ChooseNew? && sch.cur in sch.st && sch.st[sch.cur] == old(sch.st)[sch.cur]
      ensures Now() == Replying(old(Now()), caller[sch.cur], mayRestart)
    {
      hide Objects, Bindings, Scheduler.Valid, Switching, Stopping;
      if caller[sch.cur] in caps {
        DoReplyTransfer(caller[sch.cur], mayRestart);
      }
    }

    /** The part of handleWait for an endpoint: deleteCallerCap, then receiveIPC. */
    method WaitOnEndpoint(e: nat, diminish: bool)
      requires Valid() && sch.cur in sch.st && Runnable(sch.st[sch.cur]) && !sch.action.ChooseNew? && sch.cur in caller
      requires e in ep
      modifies this`queue, this`ep, this`aep, this`q, this`pending, this`badge, this`reply, this`caps, links, sch`st,
               sch`action, sch.rq, sch.rq.links
      ensures Valid()
      ensures Now() == Receiving(old(Now()).(caps := old(caps) - {caller[sch.cur]}), sch.cur, e, diminish)
    {
      hide Objects, Bindings, Scheduler.Valid, Receiving;
      HasQueue(V(), sch.st, sch.idle, e);
      DeleteReplyCap(caller[sch.cur], sch.st);
      ReceiveIPC(sch.cur, e, diminish);
    }

    /** handleWait: `what` is the capability the thread waits on, `handler` where a fault would go. */
    method HandleWait(what: Waitable, blocking: bool, handler: Handler)
      requires Valid() && sch.cur in sch.st && Runnable(sch.st[sch.cur]) && !sch.action.ChooseNew? && sch.cur in caller
      modifies this`queue, this`ep, this`aep, this`q, this`pending, this`badge, this`reply, this`caps, this`faulted,
               links, sch`st, sch`action, sch.rq, sch.rq.links
      ensures Valid()
      ensures Now() == WaitingOn(old(Now()), sch.cur, what, blocking, handler)
    {
      hide Objects, Bindings, Scheduler.Valid, Receiving, ReceivingAsync, Faulting, Uncalled;
      if !what.OnNothing? {
        HasObject(V(), sch.st, sch.idle, if what.OnEp? then Ep(what.id) else Aep(what.id));
      }
      if what.OnEp? && what.id in ep && what.canReceive && blocking {
        WaitOnEndpoint(what.id, what.diminish);
      } else if what.OnAep? && what.id in aep && what.canReceive
                && (what.id in bound.tcb ==> bound.tcb[what.id] == sch.cur) {
        ReceiveAsyncIPC(sch.cur, what.id, blocking);
      } else {
        HandleFault(handler);
      }
    }
  }

  /** Once unbound, a thread is bound to no async endpoint in either direction, and mutual bindings stay so. */
  lemma UnboundThread(bound: Bound, t: Tid)
    requires bound.Known()
    ensures var bound' := Unbound(bound, t);
            && t !in bound'.aep && (forall a :: a in bound'.tcb ==> bound'.tcb[a] != t)
            && bound'.Known() && (bound.Mutual() ==> bound'.Mutual())
  {
  }

  lemma BoundExists(threads: set<Tid>, aeps: set<nat>, bound: Bound, t: Tid)
    requires Bindings(threads, aeps, bound) && t in bound.aep
    ensures bound.aep[t] in aeps
  {
  }

  lemma BindOnce(bound: Bound, t: Tid, a: nat)
    requires t !in bound.aep && bound.Known()
    ensures bound.Mutual() ==> (Bound(bound.tcb[a := t], bound.aep[t := a]).Mutual() <==> a !in bound.tcb)
  {
    var bound' := Bound(bound.tcb[a := t], bound.aep[t := a]);
    if a in bound.tcb {
      var u := bound.tcb[a];
      assert u in bound'.aep && bound'.aep[u] == a;
    }
  }

  /** The object on which a thread waits is not idle. */
  lemma BusyObject(v: View, st: States, idle: Tid, t: Tid, c: Chan)
    requires Objects(v, st, idle) && t in st && Waits(st[t], c)
    ensures c.Ep? ==> c.id in v.ep && v.ep[c.id] != EpIdle
    ensures c.Aep? ==> c.id in v.aep && v.aep[c.id] == AepWaiting
  {
    hide Linked, Replies, CallerSlots;
    BlockedIsQueued(v, st, idle, t, c);
  }

  lemma QueueingNone(p: Plan, prio: Priorities, s: seq<Tid>)
    ensures QueueingAll(p, prio, s[..0]) == p
  {
  }

  lemma QueueingOne(p: Plan, prio: Priorities, s: seq<Tid>, t: Tid)
    requires t in prio
    ensures QueueingAll(p, prio, s + [t]) == Queueing(QueueingAll(p, prio, s), prio, t, true)
  {
    assert (s + [t])[..|s|] == s;
  }

  lemma QueueingNext(p: Plan, prio: Priorities, s: seq<Tid>, i: nat)
    requires i < |s| && s[i] in prio
    ensures QueueingAll(p, prio, s[..i + 1]) == Queueing(QueueingAll(p, prio, s[..i]), prio, s[i], true)
  {
    assert s[..i + 1] == s[..i] + [s[i]];
    QueueingOne(p, prio, s[..i], s[i]);
  }

  lemma NoneQueued(p: Plan, prio: Priorities, st: States, s: seq<Tid>, badge: bv32)
    ensures QueueingAll(p, prio, Picked(st, s[..0], badge, true)) == p
  {
  }

  lemma RestartedNone(st: States, s: seq<Tid>)
    ensures Restarted(st, s[..0]) == st && Members(s[..0]) == {} && Restarted(st, []) == st
  {
  }

  lemma NextRestarted(st: States, s: seq<Tid>, i: nat)
    requires i < |s| && s[i] in st
    ensures Restarted(st, s[..i])[s[i] := Restart] == Restarted(st, s[..i + 1])
    ensures Members(s[..i]) + {s[i]} == Members(s[..i + 1])
  {
    assert s[..i + 1] == s[..i] + [s[i]];
  }

  lemma PickedNone(st: States, s: seq<Tid>, badge: bv32)
    ensures Picked(st, s[..0], badge, false) + s[0..] == s
    ensures Members(Picked(st, s[..0], badge, true)) == {} && Restarted(st, Picked(st, s[..0], badge, true)) == st
  {
  }

  lemma {:induction false} PickedMembers(st: States, s: seq<Tid>, badge: bv32, with: bool)
    ensures forall t :: t in Picked(st, s, badge, with) <==>
              t in s && ((t in st && st[t].BlockedOnSend? && st[t].badge == badge) == with)
  {
    if s != [] {
      PickedMembers(st, s[..|s| - 1], badge, with);
      assert s == s[..|s| - 1] + [s[|s| - 1]];
    }
  }

  lemma PickedNext(st: States, s: seq<Tid>, i: nat, badge: bv32, with: bool)
    requires i < |s| && s[i] in st && st[s[i]].BlockedOnSend?
    ensures Picked(st, s[..i + 1], badge, with) ==
            Picked(st, s[..i], badge, with) + if (st[s[i]].badge == badge) == with then [s[i]] else []
  {
    assert s[..i + 1][..i] == s[..i];
  }

  /** One round of the loop: the queue. */
  lemma NextKept(st: States, s: seq<Tid>, i: nat, badge: bv32)
    requires i < |s| && s[i] in st && st[s[i]].BlockedOnSend?
    ensures var kept, kept' := Picked(st, s[..i], badge, false), Picked(st, s[..i + 1], badge, false);
            && |kept| < |kept + s[i..]| && (kept + s[i..])[|kept|] == s[i]
            && (i < |s| - 1 ==> |kept| < |kept + s[i..]| - 1 && (kept + s[i..])[|kept| + 1] == s[i + 1])
            && (i == |s| - 1 ==> |kept| == |kept + s[i..]| - 1)
            && (forall t :: t in kept + s[i..] ==> t in s)
            && (st[s[i]].badge == badge ==> Without(kept + s[i..], |kept|) == kept' + s[i + 1..])
            && (st[s[i]].badge != badge ==> kept' + s[i + 1..] == kept + s[i..])
  {
    PickedNext(st, s, i, badge, false);
    PickedMembers(st, s[..i], badge, false);
    assert s[i..] == [s[i]] + s[i + 1..];
  }

  /** One round of the loop: the threads. */
  lemma NextDropped(st: States, s: seq<Tid>, i: nat, badge: bv32)
    requires i < |s| && Distinct(s) && s[i] in st && st[s[i]].BlockedOnSend?
    ensures var dropped, dropped' := Picked(st, s[..i], badge, true), Picked(st, s[..i + 1], badge, true);
            && s[i] in Restarted(st, dropped) && Restarted(st, dropped)[s[i]] == st[s[i]]
            && (st[s[i]].badge == badge ==>
                  && Restarted(st, dropped)[s[i] := Restart] == Restarted(st, dropped')
                  && Members(dropped) + {s[i]} == Members(dropped') && dropped' == dropped + [s[i]])
            && (st[s[i]].badge != badge ==> dropped' == dropped)
  {
    PickedNext(st, s, i, badge, true);
    PickedMembers(st, s[..i], badge, true);
  }

  lemma LinkedDistinct(next: Link, prev: Link, q: Queue, s: seq<Tid>)
    requires Linked(next, prev, q, s)
    ensures Distinct(s) && forall t :: t in s ==> t != NULL
  {
  }

  lemma RelinkedWithin(next: Link, prev: Link, next': Link, prev': Link, w: seq<Tid>, t: Tid, s: seq<Tid>)
    requires OnlyRelinked(next, prev, next', prev', Members(w) + {t})
    requires t in s && forall u :: u in w ==> u in s
    ensures OnlyRelinked(next, prev, next', prev', Members(s))
  {
  }

  lemma RelinkedTwice(next: Link, prev: Link, next': Link, prev': Link,
                      next'': Link, prev'': Link, s: seq<Tid>)
    requires OnlyRelinked(next, prev, next', prev', Members(s))
             && OnlyRelinked(next', prev', next'', prev'', Members(s))
    ensures OnlyRelinked(next, prev, next'', prev'', Members(s))
  {
  }

  lemma NextMember(s: seq<Tid>, s': seq<Tid>, t: Tid)
    requires Members(s) + {t} == Members(s')
    ensures forall u :: u in Members(s') ==> u == t || u in Members(s)
  {
  }

  lemma Waiters(v: View, st: States, idle: Tid, c: Chan)
    requires Objects(v, st, idle) && c in v.q && idle in st && st[idle].IdleThreadState?
    ensures c in v.queue && Linked(v.next, v.prev, v.queue[c], v.q[c]) && idle !in v.q[c]
    ensures forall t :: t in v.q[c] ==> t in st && !Runnable(st[t]) && t != idle
  {
    hide Objects, Linked;
    OneQueue(v, st, idle, c);
  }

  lemma Senders(v: View, st: States, idle: Tid, e: nat)
    requires Objects(v, st, idle) && e in v.ep && Ep(e) in v.q && v.ep[e] == EpSend && idle in st
             && st[idle].IdleThreadState?
    ensures Ep(e) in v.queue && Linked(v.next, v.prev, v.queue[Ep(e)], v.q[Ep(e)]) && v.q[Ep(e)] != []
            && idle !in v.q[Ep(e)]
    ensures forall t :: t in v.q[Ep(e)] ==> t in st && st[t].BlockedOnSend? && t != idle
  {
    hide Objects, Linked;
    OneQueue(v, st, idle, Ep(e));
    EndpointWay(v, st, idle, e);
  }

  /** A queue of senders is left with those without the badge. */
  lemma SiftObjects(v: View, st: States, idle: Tid, e: nat, badge: bv32, next: Link, prev: Link, rest: Queue)
    requires Objects(v, st, idle) && Ep(e) in v.q && v.q[Ep(e)] != [] && idle !in v.q[Ep(e)]
    requires OnlyRelinked(v.next, v.prev, next, prev, Members(v.q[Ep(e)]))
    requires Linked(next, prev, rest, Picked(st, v.q[Ep(e)], badge, false))
    ensures Objects(Woken(v, Ep(e), Picked(st, v.q[Ep(e)], badge, false), next, prev, rest),
                    Restarted(st, Picked(st, v.q[Ep(e)], badge, true)), idle)
    ensures rest.head == NULL <==> Picked(st, v.q[Ep(e)], badge, false) == []
  {
    hide Objects, Linked, OnlyRelinked, WokenStates, Restarted, Picked;
    var s := v.q[Ep(e)];
    PickedMembers(st, s, badge, false);
    PickedMembers(st, s, badge, true);
    RestartedIsWoken(v, st, idle, Ep(e), Picked(st, s, badge, true), Picked(st, s, badge, false));
    WokenObjects(v, st, Restarted(st, Picked(st, s, badge, true)), idle, Ep(e), Picked(st, s, badge, false),
                 next, prev, rest);
  }

  lemma HasCaller(v: View, st: States, idle: Tid, t: Tid)
    requires Objects(v, st, idle) && t in st
    ensures t in v.caller
  {
  }

  lemma HasObject(v: View, st: States, idle: Tid, c: Chan)
    requires Objects(v, st, idle)
    ensures c in v.q <==> if c.Ep? then c.id in v.ep else c.id in v.aep
  {
  }

  lemma HasQueue(v: View, st: States, idle: Tid, e: nat)
    requires Objects(v, st, idle) && e in v.ep
    ensures Ep(e) in v.q
  {
  }

  /** What a view with new links becomes. */
  lemma WokenOver(v: View, c: Chan, s: seq<Tid>, next: Link, prev: Link, head: Queue)
    ensures Woken(v.(next := next, prev := prev), c, s, next, prev, head) == Woken(v, c, s, next, prev, head)
    ensures Woken(v, c, s, next, prev, head).q == v.q[c := s]
    ensures c.Ep? ==> Woken(v, c, s, next, prev, head).aep == v.aep
  {
  }

  lemma SameQueue(q: Waiting, c: Chan)
    requires c in q
    ensures q[c := q[c]] == q
  {
  }

  /** A queue is emptied and its threads restart. */
  lemma CancelObjects(v: View, st: States, idle: Tid, c: Chan)
    requires Objects(v, st, idle) && c in v.q && v.q[c] != [] && idle !in v.q[c]
    ensures Objects(Woken(v, c, [], v.next, v.prev, EMPTY), Restarted(st, v.q[c]), idle)
    ensures Woken(v, c, [], v.next, v.prev, EMPTY).aep.Keys == v.aep.Keys
  {
    hide Objects, Linked, OnlyRelinked, WokenStates, Restarted;
    OneQueue(v, st, idle, c);
    RestartedIsWoken(v, st, idle, c, v.q[c], []);
    Untouched(v.next, v.prev, Members(v.q[c]));
    WokenObjects(v, st, Restarted(st, v.q[c]), idle, c, [], v.next, v.prev, EMPTY);
  }

  lemma Untouched(next: Link, prev: Link, touched: set<Tid>)
    ensures OnlyRelinked(next, prev, next, prev, touched) && Linked(next, prev, EMPTY, [])
  {
  }

  lemma RestartedIsWoken(v: View, st: States, idle: Tid, c: Chan, dropped: seq<Tid>, kept: seq<Tid>)
    requires c in v.q && idle !in v.q[c]
    requires forall t :: t in v.q[c] <==> t in dropped || t in kept
    requires forall t :: t in dropped ==> t !in kept
    ensures WokenStates(v, st, Restarted(st, dropped), idle, c, kept)
  {
  }

  lemma Overwrite(st: States, t: Tid, a: TState, b: TState)
    ensures st[t := a][t := b] == st[t := b]
  {
  }

  lemma SameState(st: States, t: Tid)
    requires t in st
    ensures st[t := st[t]] == st
  {
  }

  /** The head of the queue of an endpoint in receive state. */
  lemma FirstReceiver(v: View, st: States, idle: Tid, e: nat)
    requires Objects(v, st, idle) && e in v.ep && Ep(e) in v.q && v.ep[e] == EpRecv
    ensures Ep(e) in v.queue && v.q[Ep(e)] != []
    ensures var dest := v.q[Ep(e)][0];
            && v.queue[Ep(e)].head == dest && dest in st && st[dest].BlockedOnReceive? && st[dest].ep == e
            && dest in v.caller && v.caller[dest] !in v.caps
            && Minus(v.q[Ep(e)], dest) == v.q[Ep(e)][1..]
  {
    hide Objects;
    OneQueue(v, st, idle, Ep(e));
    EndpointWay(v, st, idle, e);
    ReplyFacts(v, st, idle, v.q[Ep(e)][0]);
  }

  lemma AepKeys(aep: map<nat, AepState>, a: nat, s: AepState)
    requires a in aep
    ensures aep[a := s].Keys == aep.Keys
  {
  }

  /** The head of the queue of an endpoint in send state. */
  lemma FirstSender(v: View, st: States, idle: Tid, e: nat)
    requires Objects(v, st, idle) && e in v.ep && Ep(e) in v.q && v.ep[e] == EpSend
    ensures Ep(e) in v.queue && v.q[Ep(e)] != []
    ensures var sender := v.q[Ep(e)][0];
            && v.queue[Ep(e)].head == sender && sender in st && st[sender].BlockedOnSend? && st[sender].ep == e
            && Minus(v.q[Ep(e)], sender) == v.q[Ep(e)][1..]
  {
    hide Objects;
    OneQueue(v, st, idle, Ep(e));
    EndpointWay(v, st, idle, e);
  }

  lemma CallerWaits(v: View, st: States, idle: Tid, slot: Slot)
    requires Objects(v, st, idle) && slot in v.caps
    ensures v.caps[slot] in st && st[v.caps[slot]].BlockedOnReply? && v.caps[slot] in v.reply
  {
  }

  lemma SamePending(pending: map<nat, seq<bv32>>, a: nat)
    requires a in pending && pending[a] == []
    ensures pending[a := []] == pending
  {
  }

  lemma WithoutCaller(caps: ReplyCaps, slot: Slot)
    ensures slot !in caps ==> caps - {slot} == caps
  {
  }

  lemma InitialQueues(v: View, eps: set<nat>, aeps: set<nat>, st: States)
    requires v.next.Keys == st.Keys && v.prev.Keys == st.Keys && forall t :: t in st ==> WaitsForNone(st[t])
    requires v.queue == All(Chans(eps, aeps), EMPTY)
    requires v.q == All<Chan, seq<Tid>>(Chans(eps, aeps), [])
    ensures Queues(v.next, v.prev, v.queue, v.q, st)
  {
  }

  lemma InitialEndpoints(v: View, eps: set<nat>, aeps: set<nat>, st: States)
    requires v.q == All<Chan, seq<Tid>>(Chans(eps, aeps), [])
    requires v.ep == All(eps, EpIdle)
    requires v.aep == All(aeps, AepIdle)
    requires v.msg == All<nat, bv32>(aeps, 0)
    requires v.pending == All<nat, seq<bv32>>(aeps, [])
    ensures EpStates(v.ep, v.q, st) && AepStates(v.aep, v.msg, v.q, v.pending) && v.aep.Keys == aeps
  {
  }

  lemma InitialReplies(v: View, threads: set<Tid>, idle: Tid, initial: Tid)
    requires initial in threads && v.reply == All<Tid, Reply>(threads, NoMaster)[initial := Master(0)]
             && v.caps == map[]
    ensures Replies(v.reply, v.caps, v.caller, InitialStates(threads, idle, initial), idle)
  {
  }

  lemma InitialObjects(v: View, eps: set<nat>, aeps: set<nat>, threads: set<Tid>, idle: Tid, initial: Tid)
    requires v.next.Keys == threads && v.prev.Keys == threads && idle in threads && initial in threads
             && idle != initial
    requires v.queue == All(Chans(eps, aeps), EMPTY)
    requires v.q == All<Chan, seq<Tid>>(Chans(eps, aeps), [])
    requires v.ep == All(eps, EpIdle)
    requires v.aep == All(aeps, AepIdle)
    requires v.msg == All<nat, bv32>(aeps, 0)
    requires v.pending == All<nat, seq<bv32>>(aeps, [])
    requires v.reply == All<Tid, Reply>(threads, NoMaster)[initial := Master(0)] && v.caps == map[]
    requires v.caller.Keys == threads && (forall t :: t in v.caller ==> v.caller[t] != 0)
    requires forall t, u :: t in v.caller && u in v.caller && v.caller[t] == v.caller[u] ==> t == u
    ensures Objects(v, InitialStates(threads, idle, initial), idle) && v.aep.Keys == aeps
  {
    hide Queues, EpStates, AepStates, Replies, All;
    var st := InitialStates(threads, idle, initial);
    InitialReplies(v, threads, idle, initial);
    InitialQueues(v, eps, aeps, st);
    InitialEndpoints(v, eps, aeps, st);
  }

  lemma PlaceOf(v: View, st: States, idle: Tid, c: Chan, t: Tid) returns (i: nat)
    requires Objects(v, st, idle) && c in v.q && t in v.q[c]
    ensures i < |v.q[c]| && v.q[c][i] == t && c in v.queue && Linked(v.next, v.prev, v.queue[c], v.q[c])
    ensures Without(v.q[c], i) == Minus(v.q[c], t)
  {
    hide Objects, Linked;
    OneQueue(v, st, idle, c);
    i :| 0 <= i < |v.q[c]| && v.q[c][i] == t;
    WithoutIsMinus(v.q[c], i);
  }

  /** One thread leaves a queue. */
  lemma LeaveObjects(v: View, st: States, idle: Tid, c: Chan, t: Tid, next: Link, prev: Link, head: Queue)
    requires Objects(v, st, idle) && c in v.q && t in v.q[c] && t != idle
    requires OnlyRelinked(v.next, v.prev, next, prev, Members(v.q[c]) + {t})
             && Linked(next, prev, head, Minus(v.q[c], t))
    ensures t in st && Objects(Woken(v, c, Minus(v.q[c], t), next, prev, head), st[t := Running], idle)
    ensures head.head == NULL <==> Minus(v.q[c], t) == []
    ensures Woken(v, c, Minus(v.q[c], t), next, prev, head).aep.Keys == v.aep.Keys
  {
    hide Objects, OnlyRelinked, Linked, Minus, Distinct;
    OneQueue(v, st, idle, c);
    MinusMembers(v.q[c], t);
    assert Members(v.q[c]) + {t} == Members(v.q[c]);
    WokenObjects(v, st, st[t := Running], idle, c, Minus(v.q[c], t), next, prev, head);
  }
}
