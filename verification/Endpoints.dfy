/**
 The invariants of endpoints, async endpoints and reply capabilities, and how they survive each kind
 of change (kernel/src/object/endpoint.c, asyncendpoint.c, tcb.c, cnode.c).
 */
module Endpoints {
  import opened TcbQueues
  import opened Scheduler

  datatype EpState = EpIdle | EpSend | EpRecv

  datatype AepState = AepIdle | AepWaiting | AepActive

  /** An object on which threads queue. */
  datatype Chan = Ep(id: nat) | Aep(id: nat)

  /** A slot address, zero being NULL. */
  type Slot = nat

  /** A TCB's reply slot: empty, or the master reply cap with the slot that holds the caller's reply cap. */
  datatype Reply = NoMaster | Master(slot: Slot)

  /** The queue of each object, as its two ends and as the threads in order. */
  type Heads = map<Chan, Queue>
  type Waiting = map<Chan, seq<Tid>>

  /** The reply slot of each thread, the slots with a reply cap, and each thread's caller slot. */
  type Masters = map<Tid, Reply>
  type ReplyCaps = map<Slot, Tid>
  type CallerSlot = map<Tid, Slot>

  predicate Waits(s: TState, c: Chan) {
    match s
    case BlockedOnReceive(e, _) => c == Ep(e)
    case BlockedOnSend(e, _, _, _) => c == Ep(e)
    case BlockedOnAsyncEvent(a) => c == Aep(a)
    case _ => false
  }

  /** The object on which a blocked thread waits. */
  function ChanOf(s: TState): Chan {
    if s.BlockedOnAsyncEvent? then Aep(s.aep) else if s.BlockedOnSend? || s.BlockedOnReceive? then Ep(s.ep) else Ep(0)
  }

  predicate WaitsForNone(s: TState) {
    !s.BlockedOnReceive? && !s.BlockedOnSend? && !s.BlockedOnAsyncEvent?
  }

  /** The queue of an object holds exactly the threads blocked on it. */
  ghost predicate Enqueued(q: Waiting, st: States) {
    && (forall c, t :: c in q && t in q[c] ==> t in st && Waits(st[t], c))
    && (forall c, t :: t in st && Waits(st[t], c) ==> c in q && t in q[c])
  }

  /** The queue of each object is well linked and holds exactly the threads blocked on it. */
  ghost predicate Queues(next: Link, prev: Link, queue: Heads, q: Waiting,
                         st: States)
  {
    && queue.Keys == q.Keys && next.Keys == st.Keys && prev.Keys == st.Keys
    && (forall c :: c in q ==> Linked(next, prev, queue[c], q[c]))
    && Enqueued(q, st)
  }

  /** An endpoint's state says whether its queue is empty, and otherwise which way its threads wait. */
  ghost predicate EpStates(ep: map<nat, EpState>, q: Waiting, st: States) {
    && (forall e :: Ep(e) in q <==> e in ep)
    && (forall e :: e in ep ==> (ep[e] == EpIdle <==> q[Ep(e)] == []))
    && (forall e, t :: e in ep && t in q[Ep(e)] && t in st ==>
          (ep[e] == EpSend ==> st[t].BlockedOnSend?) && (ep[e] == EpRecv ==> st[t].BlockedOnReceive?))
  }

  function Or(a: bv32, b: bv32): bv32 {
    a | b
  }

  /** The bitwise or of a sequence of badges. */
  function OrAll(s: seq<bv32>): bv32 {
    if s == [] then 0 else Or(OrAll(s[..|s| - 1]), s[|s| - 1])
  }

  /** A badge has one of the bits of `mask`. */
  predicate Has(badge: bv32, mask: bv32) {
    badge & mask != 0
  }

  lemma OrHas(a: bv32, b: bv32, mask: bv32)
    ensures Has(Or(a, b), mask) <==> Has(a, mask) || Has(b, mask)
    ensures !Has(0, mask)
  {
    OrMask(a, b, mask);
    OrZero(a & mask, b & mask);
  }

  lemma OrMask(a: bv32, b: bv32, mask: bv32)
    ensures (a | b) & mask == (a & mask) | (b & mask)
  {
  }

  lemma OrZero(a: bv32, b: bv32)
    ensures a | b == 0 <==> a == 0 && b == 0
  {
  }

  /** A bit is in it exactly if it is in one of them. */
  lemma {:induction false} OrAllHas(s: seq<bv32>, mask: bv32)
    ensures Has(OrAll(s), mask) <==> exists i :: 0 <= i < |s| && Has(s[i], mask)
  {
    hide Has, Or;
    OrHas(0, 0, mask);
    if s != [] {
      var n := |s| - 1;
      OrAllHas(s[..n], mask);
      OrHas(OrAll(s[..n]), s[n], mask);
      assert forall i :: 0 <= i < n ==> s[..n][i] == s[i];
    }
  }

  lemma OrAppend(s: seq<bv32>, b: bv32)
    ensures OrAll(s + [b]) == Or(OrAll(s), b)
  {
    assert (s + [b])[..|s|] == s;
  }

  lemma OrOne(b: bv32)
    ensures OrAll([b]) == b
  {
    assert [b][..0] == [];
  }

  /**
   An async endpoint is waiting when threads queue on it and active when signals are pending; its word
   is then the bitwise or of all of them.
   */
  ghost predicate AepStates(aep: map<nat, AepState>, msg: map<nat, bv32>, q: Waiting, pending: map<nat, seq<bv32>>) {
    && (forall a :: Aep(a) in q <==> a in aep)
    && msg.Keys == aep.Keys && pending.Keys == aep.Keys
    && (forall a :: a in aep ==> (aep[a] == AepWaiting <==> q[Aep(a)] != []))
    && (forall a :: a in aep ==> (aep[a] == AepActive <==> pending[a] != []))
    && (forall a :: a in aep && aep[a] == AepActive ==> msg[a] == OrAll(pending[a]))
  }

  /** Each thread has its own caller slot. */
  ghost predicate CallerSlots(caller: CallerSlot, st: States) {
    && caller.Keys == st.Keys
    && (forall t :: t in caller ==> caller[t] != 0)
    && (forall t, u :: t in caller && u in caller && caller[t] == caller[u] ==> t == u)
  }

  /**
   Reply capabilities are linear: a reply cap for a thread is where the thread's master reply cap says
   it is and nowhere else, and the thread is waiting for it.
   */
  ghost predicate Replies(reply: Masters, caps: ReplyCaps, caller: CallerSlot, st: States, idle: Tid) {
    && reply.Keys == st.Keys
    && (forall t :: t in reply && reply[t].Master? && reply[t].slot != 0 ==>
        reply[t].slot in caps && caps[reply[t].slot] == t)
    && (forall s :: s in caps ==> s != 0 && caps[s] in st && reply[caps[s]] == Master(s) && st[caps[s]].BlockedOnReply?)
    && (forall t :: t in st && t in caller && st[t].BlockedOnReceive? ==> caller[t] !in caps)
    && (forall t :: t in st && t != idle && !st[t].Inactive? ==> reply[t].Master?)
  }

  /** No thread has two reply caps. */
  lemma OneReplyCap(reply: Masters, caps: ReplyCaps, caller: CallerSlot, st: States, idle: Tid, s: Slot, s': Slot)
    requires Replies(reply, caps, caller, st, idle) && s in caps && s' in caps && caps[s] == caps[s']
    ensures s == s'
  {
    assert reply[caps[s]] == Master(s);
    assert reply[caps[s']] == Master(s');
  }

  // Queues

  lemma InQueue(next: Link, prev: Link, queue: Heads, q: Waiting, st: States, c: Chan)
    requires Queues(next, prev, queue, q, st) && c in q
    ensures c in queue && Linked(next, prev, queue[c], q[c]) && Distinct(q[c])
    ensures queue[c].head == (if q[c] == [] then NULL else q[c][0])
    ensures forall t :: t in q[c] ==> t in st && Waits(st[t], c) && t != NULL
    ensures forall t :: t in st && Waits(st[t], c) ==> t in q[c]
  {
  }

  lemma NotInQueue(next: Link, prev: Link, queue: Heads, q: Waiting, st: States, t: Tid, c: Chan)
    requires Queues(next, prev, queue, q, st) && c in q && t in st && WaitsForNone(st[t])
    ensures t !in q[c] && t in next && t in prev
  {
  }

  lemma RelinkedKeys(next: Link, prev: Link, next': Link, prev': Link, touched: set<Tid>)
    requires OnlyRelinked(next, prev, next', prev', touched)
    ensures next'.Keys == next.Keys && prev'.Keys == prev.Keys
  {
  }

  /** Threads that wait for something else are not touched by what happens in one queue. */
  lemma OthersLinked(next: Link, prev: Link, next': Link, prev': Link,
                     queue: Heads, q: Waiting, st: States, c: Chan, touched: set<Tid>, d: Chan)
    requires Queues(next, prev, queue, q, st) && c in q && d in q && d != c
    requires forall t :: t in touched ==> t in q[c] || (t in st && WaitsForNone(st[t]))
    requires OnlyRelinked(next, prev, next', prev', touched)
    ensures Linked(next', prev', queue[d], q[d])
  {
    hide Linked;
    assert Linked(next, prev, queue[d], q[d]);
    LinkedKeys(next, prev, queue[d], q[d]);
    forall t | t in q[d]
      ensures t !in touched && t in next' && t in prev'
    {
      assert Waits(st[t], d);
    }
    LinkedFrame(next, prev, next', prev', queue[d], q[d]);
  }

  lemma EnqueuedStep(q: Waiting, st: States, st': States, c: Chan, s: seq<Tid>)
    requires Enqueued(q, st) && c in q && st'.Keys == st.Keys
    requires forall t :: t in s ==> t in st' && Waits(st'[t], c)
    requires forall t :: t in st && Waits(st'[t], c) ==> t in s
    requires forall t :: t in st && st'[t] != st[t] ==>
               (WaitsForNone(st[t]) || Waits(st[t], c)) && (WaitsForNone(st'[t]) || Waits(st'[t], c))
    ensures Enqueued(q[c := s], st')
  {
    forall d, t | d in q && d != c && t in q[d]
      ensures t in st' && Waits(st'[t], d)
    {
      assert Waits(st[t], d);
    }
  }

  /** Threads join or leave one queue, and their states say so. */
  lemma QueueStep(next: Link, prev: Link, next': Link, prev': Link,
                  queue: Heads, q: Waiting, st: States, st': States,
                  c: Chan, touched: set<Tid>, head: Queue, s: seq<Tid>)
    requires Queues(next, prev, queue, q, st) && c in q
    requires forall t :: t in touched ==> t in q[c] || (t in st && WaitsForNone(st[t]))
    requires OnlyRelinked(next, prev, next', prev', touched) && Linked(next', prev', head, s)
    requires st'.Keys == st.Keys
    requires forall t :: t in s ==> t in st' && Waits(st'[t], c)
    requires forall t :: t in st && Waits(st'[t], c) ==> t in s
    requires forall t :: t in st && st'[t] != st[t] ==>
               (WaitsForNone(st[t]) || Waits(st[t], c)) && (WaitsForNone(st'[t]) || Waits(st'[t], c))
    ensures Queues(next', prev', queue[c := head], q[c := s], st')
  {
    hide Linked, Enqueued, WaitsForNone, Waits, OnlyRelinked;
    RelinkedKeys(next, prev, next', prev', touched);
    EnqueuedStep(q, st, st', c, s);
    forall d | d in q && d != c
      ensures Linked(next', prev', queue[d], q[d])
    {
      OthersLinked(next, prev, next', prev', queue, q, st, c, touched, d);
    }
  }

  /** A change of state that concerns no queue. */
  lemma StateStep(next: Link, prev: Link, queue: Heads, q: Waiting, st: States, t: Tid, s: TState)
    requires Queues(next, prev, queue, q, st) && t in st && WaitsForNone(st[t]) && WaitsForNone(s)
    ensures Queues(next, prev, queue, q, st[t := s])
  {
    hide Linked;
  }

  // States

  lemma EpStep(ep: map<nat, EpState>, q: Waiting, st: States, st': States, e: nat, s: seq<Tid>, x: EpState)
    requires EpStates(ep, q, st) && e in ep && st.Keys == st'.Keys
    requires forall c, t :: c in q && c != Ep(e) && t in q[c] && t in st ==> st'[t] == st[t]
    requires x == EpIdle <==> s == []
    requires forall t :: t in s && t in st' ==>
               (x == EpSend ==> st'[t].BlockedOnSend?) && (x == EpRecv ==> st'[t].BlockedOnReceive?)
    ensures EpStates(ep[e := x], q[Ep(e) := s], st')
  {
  }

  lemma EpKept(ep: map<nat, EpState>, q: Waiting, q': Waiting, st: States, st': States)
    requires EpStates(ep, q, st) && st.Keys == st'.Keys && q'.Keys == q.Keys
    requires forall e :: Ep(e) in q ==> q'[Ep(e)] == q[Ep(e)]
    requires forall e, t :: Ep(e) in q && t in q[Ep(e)] && t in st ==> st'[t] == st[t]
    ensures EpStates(ep, q', st')
  {
  }

  lemma AepKept(aep: map<nat, AepState>, msg: map<nat, bv32>, q: Waiting, pending: map<nat, seq<bv32>>, e: nat,
                s: seq<Tid>)
    requires AepStates(aep, msg, q, pending) && Ep(e) in q
    ensures AepStates(aep, msg, q[Ep(e) := s], pending)
  {
  }

  /** The queue of an async endpoint grows or shrinks. */
  lemma AepQueueStep(aep: map<nat, AepState>, msg: map<nat, bv32>, q: Waiting, pending: map<nat, seq<bv32>>, a: nat,
                     s: seq<Tid>)
    requires AepStates(aep, msg, q, pending) && a in aep && aep[a] != AepActive
    ensures AepStates(aep[a := if s == [] then AepIdle else AepWaiting], msg, q[Aep(a) := s], pending)
  {
  }

  /** A signal becomes pending, alone or on top of others. */
  lemma SignalStep(aep: map<nat, AepState>, msg: map<nat, bv32>, q: Waiting, pending: map<nat, seq<bv32>>, a: nat,
                   badge: bv32)
    requires AepStates(aep, msg, q, pending) && a in aep && aep[a] != AepWaiting
    ensures AepStates(aep[a := AepActive], msg[a := if aep[a] == AepActive then Or(msg[a], badge) else badge], q,
                      pending[a := pending[a] + [badge]])
  {
    hide Or, OrAll;
    OrAppend(pending[a], badge);
    OrOne(badge);
    assert pending[a] == [] ==> pending[a] + [badge] == [badge];
  }

  lemma TakeStep(aep: map<nat, AepState>, msg: map<nat, bv32>, q: Waiting, pending: map<nat, seq<bv32>>, a: nat)
    requires AepStates(aep, msg, q, pending) && a in aep && aep[a] == AepActive
    ensures AepStates(aep[a := AepIdle], msg, q, pending[a := []])
  {
  }

  // Replies

  /** setupCallerCap: the receiver's caller slot gets the sender's one reply cap. */
  lemma CallStep(reply: Masters, caps: ReplyCaps, caller: CallerSlot, st: States, idle: Tid, sender: Tid, receiver: Tid)
    requires Replies(reply, caps, caller, st, idle) && CallerSlots(caller, st)
    requires sender in st && receiver in st && receiver != sender && !st[sender].BlockedOnReply?
             && !st[receiver].BlockedOnReceive?
    requires reply[sender].Master? && caller[receiver] !in caps
    ensures Replies(reply[sender := Master(caller[receiver])], caps[caller[receiver] := sender], caller,
                    st[sender := BlockedOnReply], idle)
  {
  }

  /** A reply cap is used, deleted or revoked: the thread it stood for has none left. */
  lemma UncallStep(reply: Masters, caps: ReplyCaps, caller: CallerSlot, st: States, idle: Tid, s: Slot)
    requires Replies(reply, caps, caller, st, idle) && s in caps
    ensures Replies(reply[caps[s] := Master(0)], caps - {s}, caller, st, idle)
  {
  }

  /** A thread without a live reply cap changes state. */
  lemma ReplyStateStep(reply: Masters, caps: ReplyCaps, caller: CallerSlot, st: States, idle: Tid, t: Tid, s: TState)
    requires Replies(reply, caps, caller, st, idle) && t in st && t in caller && t != idle
    requires reply[t] == NoMaster || reply[t] == Master(0)
    requires s.Inactive? || reply[t].Master?
    requires s.BlockedOnReceive? ==> caller[t] !in caps
    ensures Replies(reply, caps, caller, st[t := s], idle)
  {
  }

  /** Only threads waiting for a reply have a live reply cap. */
  lemma NoReplyCap(reply: Masters, caps: ReplyCaps, caller: CallerSlot, st: States, idle: Tid, t: Tid)
    requires Replies(reply, caps, caller, st, idle) && t in st && !st[t].BlockedOnReply?
    ensures reply[t] == NoMaster || reply[t] == Master(0)
    ensures forall s :: s in caps ==> caps[s] != t
    ensures t != idle && !st[t].Inactive? ==> reply[t] == Master(0)
  {
  }

  /** setupReplyMaster */
  lemma MasterStep(reply: Masters, caps: ReplyCaps, caller: CallerSlot, st: States, idle: Tid, t: Tid)
    requires Replies(reply, caps, caller, st, idle) && t in st && reply[t] == NoMaster
    ensures Replies(reply[t := Master(0)], caps, caller, st, idle)
  {
  }

  /** cteMove on a reply cap: the master follows it. */
  lemma SaveStep(reply: Masters, caps: ReplyCaps, caller: CallerSlot, st: States, idle: Tid, s: Slot, d: Slot)
    requires Replies(reply, caps, caller, st, idle) && s in caps && d !in caps && d != 0
    requires forall t :: t in caller ==> caller[t] != d
    ensures Replies(reply[caps[s] := Master(d)], caps[d := caps[s]] - {s}, caller, st, idle)
  {
  }

  /**
   Threads leave a queue as runnable threads; as they were not waiting for a reply they have no reply
   cap.
   */
  lemma WakeReplies(reply: Masters, caps: ReplyCaps, caller: CallerSlot, st: States, st': States, idle: Tid)
    requires Replies(reply, caps, caller, st, idle) && st'.Keys == st.Keys
    requires forall t :: t in st && st'[t] != st[t] ==> !WaitsForNone(st[t]) && t != idle && Runnable(st'[t])
    ensures Replies(reply, caps, caller, st', idle)
  {
  }

  // All of them together

  /** The endpoint and reply fields of the kernel state. */
  datatype View = View(next: Link, prev: Link, queue: Heads, q: Waiting,
                       ep: map<nat, EpState>, aep: map<nat, AepState>, msg: map<nat, bv32>,
                       pending: map<nat, seq<bv32>>, reply: Masters, caps: ReplyCaps, caller: CallerSlot)

  /** Everything the endpoint and reply code keeps true, for the thread states `st`. */
  ghost predicate Objects(v: View, st: States, idle: Tid) {
    && Queues(v.next, v.prev, v.queue, v.q, st)
    && EpStates(v.ep, v.q, st)
    && AepStates(v.aep, v.msg, v.q, v.pending)
    && CallerSlots(v.caller, st)
    && Replies(v.reply, v.caps, v.caller, st, idle)
  }

  /** What a queue operation on `c` starts from. */
  lemma OneQueue(v: View, st: States, idle: Tid, c: Chan)
    requires Objects(v, st, idle) && c in v.q
    ensures c in v.queue && Linked(v.next, v.prev, v.queue[c], v.q[c]) && Distinct(v.q[c])
    ensures v.queue[c].head == (if v.q[c] == [] then NULL else v.q[c][0])
    ensures v.queue[c].head == NULL <==> v.q[c] == []
    ensures forall t :: t in v.q[c] ==> t in st && Waits(st[t], c) && t != NULL
    ensures forall t :: t in st && Waits(st[t], c) ==> t in v.q[c]
  {
    hide Linked, EpStates, AepStates, Replies, CallerSlots;
    InQueue(v.next, v.prev, v.queue, v.q, st, c);
    LinkedHead(v.next, v.prev, v.queue[c], v.q[c]);
  }

  /** A thread blocked on an object is in its queue. */
  lemma BlockedIsQueued(v: View, st: States, idle: Tid, t: Tid, c: Chan)
    requires Objects(v, st, idle) && t in st && Waits(st[t], c)
    ensures c in v.q && t in v.q[c]
  {
  }

  /** The way the threads of an endpoint wait. */
  lemma EndpointWay(v: View, st: States, idle: Tid, e: nat)
    requires Objects(v, st, idle) && e in v.ep && Ep(e) in v.q
    ensures v.ep[e] == EpIdle <==> v.q[Ep(e)] == []
    ensures v.ep[e] == EpSend ==> forall t :: t in v.q[Ep(e)] ==> t in st && st[t].BlockedOnSend? && st[t].ep == e
    ensures v.ep[e] == EpRecv ==> forall t :: t in v.q[Ep(e)] ==> t in st && st[t].BlockedOnReceive? && st[t].ep == e
  {
    hide Linked, AepStates, Replies, CallerSlots;
  }

  /** The state of an async endpoint, and what its word means. */
  lemma AsyncWay(v: View, st: States, idle: Tid, a: nat)
    requires Objects(v, st, idle) && a in v.aep
    ensures Aep(a) in v.q && a in v.msg && a in v.pending
    ensures v.aep[a] == AepWaiting <==> v.q[Aep(a)] != []
    ensures v.aep[a] == AepActive <==> v.pending[a] != []
    ensures v.aep[a] == AepActive ==> v.msg[a] == OrAll(v.pending[a])
  {
  }

  lemma ReplyFacts(v: View, st: States, idle: Tid, t: Tid)
    requires Objects(v, st, idle) && t in st
    ensures t in v.reply && t in v.caller
    ensures t != idle && !st[t].Inactive? ==> v.reply[t].Master?
    ensures !st[t].BlockedOnReply? ==> (v.reply[t] == NoMaster || v.reply[t] == Master(0))
    ensures st[t].BlockedOnReceive? ==> v.caller[t] !in v.caps
    ensures v.reply[t].Master? && v.reply[t].slot != 0 ==> v.reply[t].slot in v.caps && v.caps[v.reply[t].slot] == t
    ensures forall s :: s in v.caps && v.caps[s] == t ==> s != 0 && v.reply[t] == Master(s) && st[t].BlockedOnReply?
    ensures forall s :: s in v.caps ==> v.caps[s] in st && st[v.caps[s]].BlockedOnReply?
  {
  }

  /** The view after threads have left the queue of `c` and only those in `s` remain. */
  ghost function Woken(v: View, c: Chan, s: seq<Tid>, next: Link, prev: Link, head: Queue): View {
    v.(next := next, prev := prev, queue := v.queue[c := head], q := v.q[c := s],
       ep := if c.Ep? && s == [] then v.ep[c.id := EpIdle] else v.ep,
       aep := if c.Aep? && s == [] then v.aep[c.id := AepIdle] else v.aep)
  }

  /** The threads of `c` outside `s` have become runnable. */
  ghost predicate WokenStates(v: View, st: States, st': States, idle: Tid, c: Chan, s: seq<Tid>)
    requires c in v.q
  {
    && st'.Keys == st.Keys
    && (forall t :: t in s ==> t in v.q[c])
    && (forall t :: t in st && st'[t] != st[t] ==> t in v.q[c] && t !in s && t != idle)
    && (forall t :: t in v.q[c] && t !in s && t in st' ==> Runnable(st'[t]))
  }

  lemma WokenQueues(v: View, st: States, st': States, idle: Tid, c: Chan, s: seq<Tid>,
                    next: Link, prev: Link, head: Queue)
    requires Queues(v.next, v.prev, v.queue, v.q, st) && c in v.q && WokenStates(v, st, st', idle, c, s)
    requires OnlyRelinked(v.next, v.prev, next, prev, Members(v.q[c])) && Linked(next, prev, head, s)
    ensures Queues(next, prev, v.queue[c := head], v.q[c := s], st')
  {
    hide Queues, OnlyRelinked, Linked, Distinct;
    InQueue(v.next, v.prev, v.queue, v.q, st, c);
    QueueStep(v.next, v.prev, next, prev, v.queue, v.q, st, st', c, Members(v.q[c]), head, s);
  }

  lemma WokenEps(v: View, st: States, st': States, idle: Tid, c: Chan, s: seq<Tid>)
    requires Enqueued(v.q, st) && EpStates(v.ep, v.q, st) && c in v.q && WokenStates(v, st, st', idle, c, s)
    ensures EpStates(if c.Ep? && s == [] then v.ep[c.id := EpIdle] else v.ep, v.q[c := s], st')
  {
    forall d, t | d in v.q && d != c && t in v.q[d] && t in st
      ensures st'[t] == st[t]
    {
      assert Waits(st[t], d);
    }
    assert s != [] ==> s[0] in s;
    if c.Ep? {
      EpStep(v.ep, v.q, st, st', c.id, s, if s == [] then EpIdle else v.ep[c.id]);
      assert v.ep[c.id := v.ep[c.id]] == v.ep;
    } else {
      EpKept(v.ep, v.q, v.q[c := s], st, st');
    }
  }

  lemma WokenAeps(v: View, c: Chan, s: seq<Tid>)
    requires AepStates(v.aep, v.msg, v.q, v.pending) && c in v.q && v.q[c] != []
    ensures c.Aep? ==> c.id in v.aep
    ensures AepStates(if c.Aep? && s == [] then v.aep[c.id := AepIdle] else v.aep, v.msg, v.q[c := s], v.pending)
  {
    if c.Ep? {
      AepKept(v.aep, v.msg, v.q, v.pending, c.id, s);
    } else {
      AepQueueStep(v.aep, v.msg, v.q, v.pending, c.id, s);
      assert v.aep[c.id := v.aep[c.id]] == v.aep;
    }
  }

  lemma WokenReplies(v: View, st: States, st': States, idle: Tid, c: Chan, s: seq<Tid>)
    requires Enqueued(v.q, st) && Replies(v.reply, v.caps, v.caller, st, idle) && c in v.q
             && WokenStates(v, st, st', idle, c, s)
    ensures Replies(v.reply, v.caps, v.caller, st', idle)
  {
    forall t | t in st && st'[t] != st[t]
      ensures !WaitsForNone(st[t]) && t != idle && Runnable(st'[t])
    {
      assert Waits(st[t], c);
    }
    WakeReplies(v.reply, v.caps, v.caller, st, st', idle);
  }

  lemma WokenObjects(v: View, st: States, st': States, idle: Tid, c: Chan, s: seq<Tid>,
                     next: Link, prev: Link, head: Queue)
    requires Objects(v, st, idle) && c in v.q && v.q[c] != [] && WokenStates(v, st, st', idle, c, s)
    requires OnlyRelinked(v.next, v.prev, next, prev, Members(v.q[c])) && Linked(next, prev, head, s)
    ensures Objects(Woken(v, c, s, next, prev, head), st', idle)
    ensures Woken(v, c, s, next, prev, head).aep.Keys == v.aep.Keys
    ensures head.head == NULL <==> s == []
  {
    hide OnlyRelinked, Linked, Members, Enqueued, EpStates, AepStates, Replies;
    LinkedHead(next, prev, head, s);
    WokenQueues(v, st, st', idle, c, s, next, prev, head);
    WokenEps(v, st, st', idle, c, s);
    WokenAeps(v, c, s);
    WokenReplies(v, st, st', idle, c, s);
  }

  /** The view after a thread has joined the queue of `c`. */
  ghost function Joined(v: View, c: Chan, t: Tid, way: EpState, next: Link, prev: Link, head: Queue): View
    requires c in v.q
  {
    v.(next := next, prev := prev, queue := v.queue[c := head], q := v.q[c := v.q[c] + [t]],
       ep := if c.Ep? then v.ep[c.id := way] else v.ep,
       aep := if c.Aep? then v.aep[c.id := AepWaiting] else v.aep)
  }

  /** A runnable thread blocks on `c`, an endpoint used the same way by the threads already there. */
  ghost predicate MayJoin(v: View, st: States, idle: Tid, c: Chan, t: Tid, s: TState, way: EpState) {
    && c in v.q && t in st && t in v.caller && t != idle && Runnable(st[t]) && Waits(s, c)
    && (c.Ep? ==> c.id in v.ep && (v.ep[c.id] == EpIdle || v.ep[c.id] == way))
    && (c.Aep? ==> c.id in v.aep && v.aep[c.id] != AepActive)
    && (s.BlockedOnSend? ==> way == EpSend) && (s.BlockedOnReceive? ==> way == EpRecv && v.caller[t] !in v.caps)
  }

  lemma JoinedQueues(v: View, st: States, idle: Tid, c: Chan, t: Tid, s: TState, way: EpState,
                     next: Link, prev: Link, head: Queue)
    requires Queues(v.next, v.prev, v.queue, v.q, st) && MayJoin(v, st, idle, c, t, s, way)
    requires OnlyRelinked(v.next, v.prev, next, prev, Members(v.q[c]) + {t}) && Linked(next, prev, head, v.q[c] + [t])
    ensures Queues(next, prev, v.queue[c := head], v.q[c := v.q[c] + [t]], st[t := s])
  {
    hide Queues, OnlyRelinked, Linked, Distinct;
    InQueue(v.next, v.prev, v.queue, v.q, st, c);
    QueueStep(v.next, v.prev, next, prev, v.queue, v.q, st, st[t := s], c, Members(v.q[c]) + {t}, head, v.q[c] + [t]);
  }

  lemma NotEnqueued(q: Waiting, st: States, t: Tid)
    requires Enqueued(q, st) && t in st && WaitsForNone(st[t])
    ensures forall d :: d in q ==> t !in q[d]
  {
  }

  lemma JoinedEps(v: View, st: States, idle: Tid, c: Chan, t: Tid, s: TState, way: EpState)
    requires Enqueued(v.q, st) && EpStates(v.ep, v.q, st) && MayJoin(v, st, idle, c, t, s, way)
    ensures EpStates(if c.Ep? then v.ep[c.id := way] else v.ep, v.q[c := v.q[c] + [t]], st[t := s])
  {
    NotEnqueued(v.q, st, t);
    if c.Ep? {
      EpStep(v.ep, v.q, st, st[t := s], c.id, v.q[c] + [t], way);
    } else {
      EpKept(v.ep, v.q, v.q[c := v.q[c] + [t]], st, st[t := s]);
    }
  }

  lemma JoinedAeps(v: View, st: States, idle: Tid, c: Chan, t: Tid, s: TState, way: EpState)
    requires AepStates(v.aep, v.msg, v.q, v.pending) && MayJoin(v, st, idle, c, t, s, way)
    ensures AepStates(if c.Aep? then v.aep[c.id := AepWaiting] else v.aep, v.msg, v.q[c := v.q[c] + [t]], v.pending)
  {
    if c.Ep? {
      AepKept(v.aep, v.msg, v.q, v.pending, c.id, v.q[c] + [t]);
    } else {
      AepQueueStep(v.aep, v.msg, v.q, v.pending, c.id, v.q[c] + [t]);
    }
  }

  lemma JoinedObjects(v: View, st: States, idle: Tid, c: Chan, t: Tid, s: TState, way: EpState,
                      next: Link, prev: Link, head: Queue)
    requires Objects(v, st, idle) && MayJoin(v, st, idle, c, t, s, way)
    requires OnlyRelinked(v.next, v.prev, next, prev, Members(v.q[c]) + {t}) && Linked(next, prev, head, v.q[c] + [t])
    ensures Objects(Joined(v, c, t, way, next, prev, head), st[t := s], idle)
    ensures Joined(v, c, t, way, next, prev, head).aep.Keys == v.aep.Keys
  {
    hide OnlyRelinked, Linked, Members, Enqueued, EpStates, AepStates, Replies;
    JoinedQueues(v, st, idle, c, t, s, way, next, prev, head);
    JoinedEps(v, st, idle, c, t, s, way);
    JoinedAeps(v, st, idle, c, t, s, way);
    NoReplyCap(v.reply, v.caps, v.caller, st, idle, t);
    ReplyStateStep(v.reply, v.caps, v.caller, st, idle, t, s);
  }

  /** A thread that can join a queue is in none. */
  lemma NotQueuedYet(v: View, st: States, idle: Tid, c: Chan, t: Tid)
    requires Objects(v, st, idle) && c in v.q && t in st && WaitsForNone(st[t])
    ensures t !in v.q[c] && t in v.next && t in v.prev && c in v.queue && Linked(v.next, v.prev, v.queue[c], v.q[c])
  {
    hide Linked;
    NotInQueue(v.next, v.prev, v.queue, v.q, st, t, c);
  }

  /** A thread that waits for nothing, before and after, changes state. */
  lemma StateObjects(v: View, st: States, idle: Tid, t: Tid, s: TState)
    requires Objects(v, st, idle) && t in st && t != idle && WaitsForNone(st[t]) && WaitsForNone(s) && t in v.reply
    requires !st[t].BlockedOnReply? || v.reply[t] == Master(0)
    requires s.Inactive? || v.reply[t].Master?
    ensures Objects(v, st[t := s], idle)
  {
    hide Linked, EpStates, AepStates, Replies;
    StateStep(v.next, v.prev, v.queue, v.q, st, t, s);
    forall d | d in v.q
      ensures t !in v.q[d]
    {
      NotInQueue(v.next, v.prev, v.queue, v.q, st, t, d);
    }
    EpKept(v.ep, v.q, v.q, st, st[t := s]);
    if !st[t].BlockedOnReply? {
      NoReplyCap(v.reply, v.caps, v.caller, st, idle, t);
    }
    ReplyStateStep(v.reply, v.caps, v.caller, st, idle, t, s);
  }

  /** setupCallerCap */
  lemma CallObjects(v: View, st: States, idle: Tid, sender: Tid, receiver: Tid)
    requires Objects(v, st, idle) && sender in st && receiver in st && sender != receiver && sender != idle
    requires WaitsForNone(st[sender]) && !st[sender].BlockedOnReply? && !st[sender].Inactive?
    requires !st[receiver].BlockedOnReceive? && receiver in v.caller && v.caller[receiver] !in v.caps
    ensures Objects(v.(reply := v.reply[sender := Master(v.caller[receiver])],
                       caps := v.caps[v.caller[receiver] := sender]),
                    st[sender := BlockedOnReply], idle)
  {
    hide Linked, EpStates, AepStates, Replies;
    NoReplyCap(v.reply, v.caps, v.caller, st, idle, sender);
    CallStep(v.reply, v.caps, v.caller, st, idle, sender, receiver);
    StateStep(v.next, v.prev, v.queue, v.q, st, sender, BlockedOnReply);
    forall d | d in v.q
      ensures sender !in v.q[d]
    {
      NotInQueue(v.next, v.prev, v.queue, v.q, st, sender, d);
    }
    EpKept(v.ep, v.q, v.q, st, st[sender := BlockedOnReply]);
  }

  /** The view after finaliseCap on the reply cap in slot `s`, and the clearing of the slot. */
  ghost function Uncalled(v: View, s: Slot): View {
    if s in v.caps then v.(reply := v.reply[v.caps[s] := Master(0)], caps := v.caps - {s}) else v
  }

  lemma UncallObjects(v: View, st: States, idle: Tid, s: Slot)
    requires Objects(v, st, idle)
    ensures Objects(Uncalled(v, s), st, idle)
    ensures forall t :: t in v.reply && v.reply[t].Master? ==>
              t in Uncalled(v, s).reply && Uncalled(v, s).reply[t].Master?
    ensures forall t :: t in v.reply && v.reply[t] == Master(0) ==>
              t in Uncalled(v, s).reply && Uncalled(v, s).reply[t] == Master(0)
    ensures forall t :: t in v.reply && v.reply[t] == NoMaster ==>
              t in Uncalled(v, s).reply && Uncalled(v, s).reply[t] == NoMaster
  {
    hide Queues, EpStates, AepStates;
    if s in v.caps {
      UncallStep(v.reply, v.caps, v.caller, st, idle, s);
    }
  }

  /** The reply caps other than those for thread `t`. */
  ghost function NotFor(caps: ReplyCaps, t: Tid): ReplyCaps {
    map s | s in caps && caps[s] != t :: caps[s]
  }

  /** Taking away the reply cap that a thread's master names takes away all there are for it. */
  lemma UncallCaller(v: View, st: States, idle: Tid, t: Tid)
    requires Objects(v, st, idle) && t in st && t in v.reply && v.reply[t].Master?
    ensures Uncalled(v, v.reply[t].slot).caps == NotFor(v.caps, t)
    ensures t in Uncalled(v, v.reply[t].slot).reply && Uncalled(v, v.reply[t].slot).reply[t] == Master(0)
    ensures v.reply[t].slot == 0 ==> 0 !in v.caps
    ensures v.reply[t].slot != 0 ==> v.reply[t].slot in v.caps && v.caps[v.reply[t].slot] == t
  {
    hide Queues, EpStates, AepStates;
    ReplyFacts(v, st, idle, t);
    assert 0 !in v.caps;
    assert Uncalled(v, v.reply[t].slot).caps == NotFor(v.caps, t);
  }

  lemma NoneFor(v: View, st: States, idle: Tid, t: Tid)
    requires Objects(v, st, idle) && t in st && !st[t].BlockedOnReply?
    ensures NotFor(v.caps, t) == v.caps
  {
    ReplyFacts(v, st, idle, t);
  }

  lemma MasterObjects(v: View, st: States, idle: Tid, t: Tid)
    requires Objects(v, st, idle) && t in st && t in v.reply && v.reply[t] == NoMaster
    ensures Objects(v.(reply := v.reply[t := Master(0)]), st, idle)
  {
    hide Queues, EpStates, AepStates;
    MasterStep(v.reply, v.caps, v.caller, st, idle, t);
  }

  /** The master reply cap of an inactive thread goes when the thread is deleted. */
  lemma UnmasterObjects(v: View, st: States, idle: Tid, t: Tid)
    requires Objects(v, st, idle) && t in st && st[t].Inactive?
    ensures Objects(v.(reply := v.reply[t := NoMaster]), st, idle)
  {
    hide Queues, EpStates, AepStates;
  }

  lemma SaveObjects(v: View, st: States, idle: Tid, s: Slot, d: Slot)
    requires Objects(v, st, idle) && s in v.caps && d !in v.caps && d != 0
    requires forall t :: t in v.caller ==> v.caller[t] != d
    ensures Objects(v.(reply := v.reply[v.caps[s] := Master(d)], caps := v.caps[d := v.caps[s]] - {s}), st, idle)
  {
    hide Queues, EpStates, AepStates, Replies;
    SaveStep(v.reply, v.caps, v.caller, st, idle, s, d);
  }

  lemma SignalObjects(v: View, st: States, idle: Tid, a: nat, badge: bv32)
    requires Objects(v, st, idle) && a in v.aep && v.aep[a] != AepWaiting && a in v.msg && a in v.pending
    ensures Objects(v.(aep := v.aep[a := AepActive],
                       msg := v.msg[a := if v.aep[a] == AepActive then Or(v.msg[a], badge) else badge],
                       pending := v.pending[a := v.pending[a] + [badge]]), st, idle)
  {
    hide Queues, EpStates, AepStates, Replies, Or;
    SignalStep(v.aep, v.msg, v.q, v.pending, a, badge);
  }

  lemma TakeObjects(v: View, st: States, idle: Tid, a: nat)
    requires Objects(v, st, idle) && a in v.aep && v.aep[a] == AepActive
    ensures Objects(v.(aep := v.aep[a := AepIdle], pending := v.pending[a := []]), st, idle)
  {
    hide Queues, EpStates, AepStates, Replies;
    TakeStep(v.aep, v.msg, v.q, v.pending, a);
  }
}
