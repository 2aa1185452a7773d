/**
 Doubly linked TCB queues and the ready queues with their two-level bitmap
 (kernel/src/object/tcb.c, kernel/include/kernel/thread.h, chooseThread in kernel/src/kernel/thread.c).

 A TCB pointer is a number, zero being NULL, and each TCB field is a map from TCB pointers. A
 32-bit bitmap word is the set of the positions of its one bits.
 */
module TcbQueues {
  import opened Collections

  type Tid = nat

  /** The next, or the previous, thread of every thread. */
  type Link = map<Tid, Tid>

  const NULL: Tid := 0

  /** tcb_queue_t */
  datatype Queue = Queue(head: Tid, end: Tid)

  const EMPTY: Queue := Queue(NULL, NULL)

  ghost predicate Distinct(s: seq<Tid>) {
    forall i, j :: 0 <= i < j < |s| ==> s[i] != s[j]
  }

  /** The links of the threads in `s`, and the queue's two ends, spell out `s` in order. */
  ghost predicate Linked(next: Link, prev: Link, q: Queue, s: seq<Tid>) {
    && Distinct(s)
    && (forall i :: 0 <= i < |s| ==> s[i] != NULL && s[i] in next && s[i] in prev)
    && (if s == [] then q == EMPTY
        else q == Queue(s[0], s[|s| - 1]) && prev[s[0]] == NULL && next[s[|s| - 1]] == NULL)
    && (forall i :: 0 <= i < |s| - 1 ==> next[s[i]] == s[i + 1])
    && (forall i :: 0 < i < |s| ==> prev[s[i]] == s[i - 1])
  }

  /** Relinking other threads leaves a queue as it was. */
  lemma LinkedFrame(next: Link, prev: Link, next': Link, prev': Link, q: Queue, s: seq<Tid>)
    requires Linked(next, prev, q, s)
    requires forall t :: t in s ==> t in next' && t in prev' && next'[t] == next[t] && prev'[t] == prev[t]
    ensures Linked(next', prev', q, s)
  {
  }

  lemma LinkedKeys(next: Link, prev: Link, q: Queue, s: seq<Tid>)
    requires Linked(next, prev, q, s)
    ensures forall t :: t in s ==> t in next && t in prev
  {
  }

  lemma LinkedHead(next: Link, prev: Link, q: Queue, s: seq<Tid>)
    requires Linked(next, prev, q, s)
    ensures q.head == if s == [] then NULL else s[0]
    ensures q.head == NULL <==> s == []
  {
  }

  /** `s` without the first occurrence of `t`. */
  function Minus(s: seq<Tid>, t: Tid): seq<Tid> {
    if s == [] then [] else if s[0] == t then s[1..] else [s[0]] + Minus(s[1..], t)
  }

  lemma {:induction false} WithoutIsMinus(s: seq<Tid>, i: nat)
    requires i < |s| && Distinct(s)
    ensures Without(s, i) == Minus(s, s[i])
  {
    if i == 0 {
      assert Without(s, 0) == s[1..];
    } else {
      WithoutIsMinus(s[1..], i - 1);
      assert Without(s, i) == [s[0]] + Without(s[1..], i - 1);
    }
  }

  lemma {:induction false} MinusMembers(s: seq<Tid>, t: Tid)
    requires Distinct(s)
    ensures forall u :: u in Minus(s, t) <==> u in s && u != t
  {
    if s != [] && s[0] != t {
      MinusMembers(s[1..], t);
      assert s == [s[0]] + s[1..];
    } else if s != [] {
      assert s == [s[0]] + s[1..];
      assert forall i :: 0 <= i < |s[1..]| ==> s[1..][i] != s[0];
    }
  }

  /** Only links of threads in `touched` differ. */
  ghost predicate OnlyRelinked(next: Link, prev: Link, next': Link, prev': Link, touched: set<Tid>) {
    && next'.Keys == next.Keys && prev'.Keys == prev.Keys
    && (forall t :: t in next && t !in touched ==> next'[t] == next[t])
    && (forall t :: t in prev && t !in touched ==> prev'[t] == prev[t])
  }

  ghost function Members(s: seq<Tid>): set<Tid> {
    set t | t in s
  }

  /** The links of a queued thread lead to its neighbours. */
  lemma Neighbours(next: Link, prev: Link, q: Queue, s: seq<Tid>, i: nat)
    requires Linked(next, prev, q, s) && i < |s|
    ensures s[i] in prev && prev[s[i]] == (if i == 0 then NULL else s[i - 1])
    ensures s[i] in next && next[s[i]] == (if i == |s| - 1 then NULL else s[i + 1])
    ensures (prev[s[i]] == NULL <==> i == 0) && (next[s[i]] == NULL <==> i == |s| - 1)
  {
  }

  lemma WithoutAt(s: seq<Tid>, i: nat)
    requires Distinct(s) && i < |s|
    ensures |Without(s, i)| == |s| - 1 && Distinct(Without(s, i))
    ensures forall k :: 0 <= k < |s| - 1 ==> Without(s, i)[k] == if k < i then s[k] else s[k + 1]
  {
  }

  /** Joining the neighbours of a thread to each other takes it out of the queue. */
  lemma Unlinked(next: Link, prev: Link, q: Queue, s: seq<Tid>, i: nat)
    requires Linked(next, prev, q, s) && i < |s|
    ensures Linked(if i == 0 then next else next[s[i - 1] := if i == |s| - 1 then NULL else s[i + 1]],
                   if i == |s| - 1 then prev else prev[s[i + 1] := if i == 0 then NULL else s[i - 1]],
                   Queue(if i == 0 then (if |s| == 1 then NULL else s[1]) else q.head,
                         if i == |s| - 1 then (if i == 0 then NULL else s[i - 1]) else q.end),
                   Without(s, i))
  {
    WithoutAt(s, i);
    var w := Without(s, i);
    var n := if i == 0 then next else next[s[i - 1] := if i == |s| - 1 then NULL else s[i + 1]];
    var p := if i == |s| - 1 then prev else prev[s[i + 1] := if i == 0 then NULL else s[i - 1]];
    forall k | 0 <= k < |w|
      ensures w[k] != NULL && w[k] in n && w[k] in p
      ensures k < |w| - 1 ==> n[w[k]] == w[k + 1]
      ensures k > 0 ==> p[w[k]] == w[k - 1]
    {
      var a := if k < i then k else k + 1;
      assert w[k] == s[a];
    }
  }

  /** The link fields of all TCBs for one kind of queue. */
  class Links {
    var next: Link
    var prev: Link

    constructor (threads: set<Tid>)
      ensures next.Keys == threads && prev.Keys == threads
    {
      next := map t | t in threads :: NULL;
      prev := map t | t in threads :: NULL;
    }

    /** tcbEPAppend, and the linking done by tcbSchedAppend. */
    method Append(tcb: Tid, queue: Queue, ghost s: seq<Tid>) returns (q: Queue)
      requires Linked(next, prev, queue, s) && tcb !in s && tcb != NULL && tcb in next && tcb in prev
      modifies this
      ensures Linked(next, prev, q, s + [tcb])
      ensures OnlyRelinked(old(next), old(prev), next, prev, Members(s) + {tcb})
    {
      q := queue;
      if q.head == NULL {
        q := q.(head := tcb);
      } else {
        next := next[q.end := tcb];
      }
      prev := prev[tcb := q.end];
      next := next[tcb := NULL];
      q := q.(end := tcb);
    }

    /** The linking done by tcbSchedEnqueue, which adds at the head. */
    method Prepend(tcb: Tid, queue: Queue, ghost s: seq<Tid>) returns (q: Queue)
      requires Linked(next, prev, queue, s) && tcb !in s && tcb != NULL && tcb in next && tcb in prev
      modifies this
      ensures Linked(next, prev, q, [tcb] + s)
      ensures OnlyRelinked(old(next), old(prev), next, prev, Members(s) + {tcb})
    {
      q := queue;
      if q.end == NULL {
        q := q.(end := tcb);
      } else {
        prev := prev[q.head := tcb];
      }
      prev := prev[tcb := NULL];
      next := next[tcb := q.head];
      q := q.(head := tcb);
    }

    /** tcbEPDequeue, and the unlinking done by tcbSchedDequeue. */
    method Dequeue(tcb: Tid, queue: Queue, ghost s: seq<Tid>, ghost i: nat) returns (q: Queue)
      requires Linked(next, prev, queue, s) && i < |s| && s[i] == tcb
      modifies this
      ensures Linked(next, prev, q, Without(s, i))
      ensures OnlyRelinked(old(next), old(prev), next, prev, Members(s) + {tcb})
    {
      hide Linked;
      assert i > 0 ==> s[i - 1] in Members(s);
      assert i < |s| - 1 ==> s[i + 1] in Members(s);
      LinkedKeys(next, prev, queue, s);
      Neighbours(next, prev, queue, s, i);
      Unlinked(next, prev, queue, s, i);
      q := queue;
      if prev[tcb] != NULL {
        next := next[prev[tcb] := next[tcb]];
      } else {
        q := q.(head := next[tcb]);
      }
      if next[tcb] != NULL {
        prev := prev[next[tcb] := prev[tcb]];
      } else {
        q := q.(end := prev[tcb]);
      }
    }
  }
}

module ReadyQueues {
  import opened Collections
  import opened TcbQueues

  type Priorities = map<Tid, nat>
  type Flags = map<Tid, bool>

  /** seL4_MaxPrio is 255, and a bitmap word has 32 bits. */
  const NUM_PRIORITIES := 256
  const WORD_BITS := 32

  ghost function NoneQueued(): (ready: seq<seq<Tid>>)
    ensures |ready| == NUM_PRIORITIES && forall p :: 0 <= p < NUM_PRIORITIES ==> ready[p] == []
  {
    seq(NUM_PRIORITIES, _ => [])
  }

  /** The queue that a scan from priority `p - 1` downwards meets first: its head, or NULL when none. */
  ghost function FirstReady(ready: seq<seq<Tid>>, p: nat): Tid
    requires p <= |ready|
  {
    if p == 0 then NULL
    else if ready[p - 1] != [] then ready[p - 1][0]
    else FirstReady(ready, p - 1)
  }

  /** The place of a thread in a queue, and what its links tell. */
  lemma PlaceIn(next: Link, prev: Link, q: Queue, s: seq<Tid>, t: Tid) returns (i: nat)
    requires Linked(next, prev, q, s) && t in s
    ensures i < |s| && s[i] == t && t in next && t in prev
    ensures prev[t] == NULL && next[t] == NULL <==> |s| == 1
    ensures Without(s, i) == Minus(s, t) && (Without(s, i) == [] <==> |s| == 1)
    ensures forall u :: u in Without(s, i) <==> u in s && u != t
  {
    i :| 0 <= i < |s| && s[i] == t;
    WithoutMembers(s, i);
    WithoutIsMinus(s, i);
    Neighbours(next, prev, q, s, i);
  }

  lemma FirstReadyAt(ready: seq<seq<Tid>>, p: nat, best: nat)
    requires best < p <= |ready| && ready[best] != []
    requires forall q :: best < q < p ==> ready[q] == []
    ensures FirstReady(ready, p) == ready[best][0]
  {
  }

  lemma NoneReady(ready: seq<seq<Tid>>, p: nat)
    requires p <= |ready|
    requires forall q :: 0 <= q < p ==> ready[q] == []
    ensures FirstReady(ready, p) == NULL
  {
  }

  /** The queue of one priority, and the queues with that one replaced. */
  ghost function At(ready: seq<seq<Tid>>, p: nat): seq<Tid> {
    if p < |ready| then ready[p] else []
  }

  ghost function Put(ready: seq<seq<Tid>>, p: nat, s: seq<Tid>): seq<seq<Tid>> {
    if p < |ready| then ready[p := s] else ready
  }

  /**
   The second-level words mark the priorities whose queue is not empty, the first-level word the
   words that are not zero.
   */
  ghost predicate Marked(l1: set<nat>, l2: seq<set<nat>>, ready: seq<seq<Tid>>) {
    && |ready| == NUM_PRIORITIES && |l2| == NUM_PRIORITIES / WORD_BITS
    && (forall i :: i in l1 ==> i < |l2|)
    && (forall i, b :: 0 <= i < |l2| && b in l2[i] ==> b < WORD_BITS)
    && (forall i :: 0 <= i < |l2| ==> (i in l1 <==> l2[i] != {}))
    && (forall p :: 0 <= p < |ready| ==> (p % WORD_BITS in l2[p / WORD_BITS] <==> ready[p] != []))
  }

  /** wordBits - 1 - CLZ(w): the position of the highest one bit. */
  method HighestBit(w: set<nat>) returns (i: nat)
    requires w != {} && forall b :: b in w ==> b < WORD_BITS
    ensures i in w && forall b :: b in w ==> b <= i
  {
    i := WORD_BITS - 1;
    while i !in w
      invariant i < WORD_BITS
      invariant forall b :: b in w ==> b <= i
      decreases i
    {
      assert i != 0 by {
        var b :| b in w;
      }
      i := i - 1;
    }
  }

  /** What the two bitmaps say: their highest bits name the highest priority with a thread. */
  lemma HighestMarked(l1: set<nat>, l2: seq<set<nat>>, ready: seq<seq<Tid>>, i: nat, b: nat)
    requires Marked(l1, l2, ready)
    requires i in l1 && forall j :: j in l1 ==> j <= i
    requires b in l2[i] && forall c :: c in l2[i] ==> c <= b
    ensures i * WORD_BITS + b < NUM_PRIORITIES && ready[i * WORD_BITS + b] != []
    ensures forall q :: i * WORD_BITS + b < q < NUM_PRIORITIES ==> ready[q] == []
  {
    var p := i * WORD_BITS + b;
    assert p / WORD_BITS == i && p % WORD_BITS == b;
    forall q | p < q < NUM_PRIORITIES
      ensures ready[q] == []
    {
      assert q / WORD_BITS > i || (q / WORD_BITS == i && q % WORD_BITS > b);
    }
  }

  lemma NoneMarked(l1: set<nat>, l2: seq<set<nat>>, ready: seq<seq<Tid>>)
    requires Marked(l1, l2, ready) && l1 == {}
    ensures forall q :: 0 <= q < NUM_PRIORITIES ==> ready[q] == []
  {
    forall q | 0 <= q < NUM_PRIORITIES
      ensures ready[q] == []
    {
      assert q / WORD_BITS !in l1;
    }
  }

  lemma MarkAdded(l1: set<nat>, l2: seq<set<nat>>, ready: seq<seq<Tid>>, prio: nat, s: seq<Tid>)
    requires Marked(l1, l2, ready) && prio < NUM_PRIORITIES && s != []
    ensures Marked(l1 + {prio / WORD_BITS},
                   l2[prio / WORD_BITS := l2[prio / WORD_BITS] + {prio % WORD_BITS}],
                   ready[prio := s])
  {
  }

  lemma MarkRemoved(l1: set<nat>, l2: seq<set<nat>>, ready: seq<seq<Tid>>, prio: nat)
    requires Marked(l1, l2, ready) && prio < NUM_PRIORITIES
    ensures var i := prio / WORD_BITS;
            var w := l2[i] - {prio % WORD_BITS};
            Marked(if w == {} then l1 - {i} else l1, l2[i := w], ready[prio := []])
  {
  }

  lemma MarkKept(l1: set<nat>, l2: seq<set<nat>>, ready: seq<seq<Tid>>, prio: nat, s: seq<Tid>)
    requires Marked(l1, l2, ready) && prio < NUM_PRIORITIES && ready[prio] != [] && s != []
    ensures Marked(l1, l2, ready[prio := s])
  {
  }

  /** Every ready queue is well linked. */
  ghost predicate AllLinked(next: Link, prev: Link, queues: seq<Queue>, ready: seq<seq<Tid>>) {
    && |queues| == |ready|
    && forall p :: 0 <= p < |ready| ==> Linked(next, prev, queues[p], ready[p])
  }

  /** A thread is in the queue of its own priority exactly when it is marked as queued, and in no other. */
  ghost predicate Placed(ready: seq<seq<Tid>>, prio: Priorities, queued: Flags) {
    && prio.Keys == queued.Keys
    && (forall t :: t in prio ==> prio[t] < |ready|)
    && (forall p, t :: 0 <= p < |ready| && t in ready[p] ==> t in prio && prio[t] == p && queued[t])
    && (forall t :: t in queued && queued[t] ==> t in ready[prio[t]])
  }

  lemma HeadIsQueued(ready: seq<seq<Tid>>, prio: Priorities, queued: Flags, p: nat)
    requires Placed(ready, prio, queued) && p < |ready| && ready[p] != []
    ensures ready[p][0] in prio && prio[ready[p][0]] == p && queued[ready[p][0]]
  {
  }

  lemma RelinkOne(next: Link, prev: Link, next': Link, prev': Link, queues: seq<Queue>,
                  ready: seq<seq<Tid>>, prio: Priorities, queued: Flags, t: Tid, q: Queue, s: seq<Tid>)
    requires AllLinked(next, prev, queues, ready) && Placed(ready, prio, queued) && t in prio
    requires queued[t] || (forall p :: 0 <= p < |ready| ==> t !in ready[p])
    requires OnlyRelinked(next, prev, next', prev', Members(ready[prio[t]]) + {t})
    requires Linked(next', prev', q, s)
    ensures AllLinked(next', prev', queues[prio[t] := q], ready[prio[t] := s])
    ensures next'.Keys == next.Keys && prev'.Keys == prev.Keys
  {
    hide Linked;
    forall p | 0 <= p < |ready| && p != prio[t]
      ensures Linked(next', prev', queues[p], ready[p])
    {
      assert Linked(next, prev, queues[p], ready[p]);
      LinkedKeys(next, prev, queues[p], ready[p]);
      forall u | u in ready[p]
        ensures u !in Members(ready[prio[t]]) + {t}
      {
        assert prio[u] == p;
      }
      LinkedFrame(next, prev, next', prev', queues[p], ready[p]);
    }
  }

  /** What the operations on one queue start from. */
  lemma OneQueue(next: Link, prev: Link, queues: seq<Queue>, l1: set<nat>, l2: seq<set<nat>>,
                 ready: seq<seq<Tid>>, prio: Priorities, queued: Flags, t: Tid)
    requires AllLinked(next, prev, queues, ready) && Marked(l1, l2, ready) && Placed(ready, prio, queued) && t in prio
    ensures prio[t] < |ready| == |queues| == NUM_PRIORITIES && t in queued && prio[t] / WORD_BITS < |l2|
    ensures Linked(next, prev, queues[prio[t]], ready[prio[t]]) && Distinct(ready[prio[t]])
    ensures queued[t] <==> t in ready[prio[t]]
    ensures queues[prio[t]].head == NULL <==> ready[prio[t]] == []
    ensures queues[prio[t]].end == NULL <==> ready[prio[t]] == []
    ensures queued[t] || (forall p :: 0 <= p < |ready| ==> t !in ready[p])
  {
  }

  lemma PlacedAfterAdd(ready: seq<seq<Tid>>, prio: Priorities, queued: Flags, t: Tid, s: seq<Tid>)
    requires Placed(ready, prio, queued) && t in prio
    requires forall u :: u in s <==> u in ready[prio[t]] || u == t
    ensures Placed(ready[prio[t] := s], prio, queued[t := true])
  {
  }

  lemma PlacedAfterRemove(ready: seq<seq<Tid>>, prio: Priorities, queued: Flags, t: Tid, s: seq<Tid>)
    requires Placed(ready, prio, queued) && t in prio
    requires forall u :: u in s <==> u in ready[prio[t]] && u != t
    ensures Placed(ready[prio[t] := s], prio, queued[t := false])
  {
  }

  lemma PlacedAfterChange(ready: seq<seq<Tid>>, prio: Priorities, queued: Flags, t: Tid, p: nat)
    requires Placed(ready, prio, queued) && t in prio && !queued[t] && p < |ready|
    ensures Placed(ready, prio[t := p], queued)
  {
  }

  lemma WithoutMembers(s: seq<Tid>, i: nat)
    requires i < |s| && Distinct(s)
    ensures forall u :: u in Without(s, i) <==> u in s && u != s[i]
  {
    forall u | u in s && u != s[i]
      ensures u in Without(s, i)
    {
      var j :| 0 <= j < |s| && s[j] == u;
      assert j < i ==> Without(s, i)[j] == u;
      assert j > i ==> Without(s, i)[j - 1] == u;
    }
  }

  /** ksReadyQueues with its bitmaps, and the TCB fields they rest on. */
  class ReadyQueues {
    const links: Links
    var queues: seq<Queue>
    var l1: set<nat>
    var l2: seq<set<nat>>
    var prio: Priorities
    var queued: Flags
    ghost var ready: seq<seq<Tid>>

    ghost predicate Valid()
      reads this, links
    {
      && |ready| == NUM_PRIORITIES
      && AllLinked(links.next, links.prev, queues, ready)
      && Marked(l1, l2, ready)
      && Placed(ready, prio, queued)
      && NULL !in prio
      && links.next.Keys == prio.Keys && links.prev.Keys == prio.Keys
    }

    lemma Facts()
      requires Valid()
      ensures |ready| == NUM_PRIORITIES && Placed(ready, prio, queued)
      ensures forall t :: t in prio ==> prio[t] < NUM_PRIORITIES
    {
    }

    constructor (priorities: Priorities)
      requires NULL !in priorities && forall t :: t in priorities ==> priorities[t] < NUM_PRIORITIES
      ensures Valid() && fresh(links)
      ensures prio == priorities && queued == map t | t in priorities :: false
      ensures ready == NoneQueued()
    {
      links := new Links(priorities.Keys);
      queues := seq(NUM_PRIORITIES, _ => EMPTY);
      l1 := {};
      l2 := seq(NUM_PRIORITIES / WORD_BITS, _ => {});
      prio := priorities;
      queued := map t | t in priorities :: false;
      ready := NoneQueued();
    }

    /** addToBitmap */
    method AddToBitmap(p: nat, ghost s: seq<Tid>)
      requires Marked(l1, l2, ready) && p < |ready| && s != []
      modifies this`l1, this`l2
      ensures Marked(l1, l2, ready[p := s])
    {
      MarkAdded(l1, l2, ready, p, s);
      l1 := l1 + {p / WORD_BITS};
      l2 := l2[p / WORD_BITS := l2[p / WORD_BITS] + {p % WORD_BITS}];
    }

    /** removeFromBitmap */
    method RemoveFromBitmap(p: nat)
      requires Marked(l1, l2, ready) && p < |ready|
      modifies this`l1, this`l2
      ensures Marked(l1, l2, ready[p := []])
    {
      MarkRemoved(l1, l2, ready, p);
      var i := p / WORD_BITS;
      l2 := l2[i := l2[i] - {p % WORD_BITS}];
      if l2[i] == {} {
        l1 := l1 - {i};
      }
    }

    /** tcbSchedEnqueue: at the head of the queue of the thread's priority, unless already queued. */
    method Enqueue(t: Tid)
      requires Valid() && t in prio
      modifies this`queues, this`l1, this`l2, this`queued, this`ready, links
      ensures Valid() && t in old(queued) && queued == old(queued)[t := true]
      ensures old(queued[t]) ==> ready == old(ready)
      ensures !old(queued[t]) ==> ready == Put(old(ready), prio[t], [t] + At(old(ready), prio[t]))
    {
      hide AllLinked, Linked, Marked, Placed, OnlyRelinked, Members, Distinct;
      OneQueue(links.next, links.prev, queues, l1, l2, ready, prio, queued, t);
      if !queued[t] {
        var p := prio[t];
        var queue := queues[p];
        ghost var s := [t] + ready[p];
        ghost var next, prev := links.next, links.prev;
        if queue.end == NULL {
          AddToBitmap(p, s);
        } else {
          MarkKept(l1, l2, ready, p, s);
        }
        queue := links.Prepend(t, queue, ready[p]);
        RelinkOne(next, prev, links.next, links.prev, queues, ready, prio, queued, t, queue, s);
        PlacedAfterAdd(ready, prio, queued, t, s);
        queues := queues[p := queue];
        queued := queued[t := true];
        ready := ready[p := s];
      }
    }

    /** tcbSchedAppend: at the end of the queue of the thread's priority, unless already queued. */
    method Append(t: Tid)
      requires Valid() && t in prio
      modifies this`queues, this`l1, this`l2, this`queued, this`ready, links
      ensures Valid() && t in old(queued) && queued == old(queued)[t := true]
      ensures old(queued[t]) ==> ready == old(ready)
      ensures !old(queued[t]) ==> ready == Put(old(ready), prio[t], At(old(ready), prio[t]) + [t])
    {
      hide AllLinked, Linked, Marked, Placed, OnlyRelinked, Members, Distinct;
      OneQueue(links.next, links.prev, queues, l1, l2, ready, prio, queued, t);
      if !queued[t] {
        var p := prio[t];
        var queue := queues[p];
        ghost var s := ready[p] + [t];
        ghost var next, prev := links.next, links.prev;
        if queue.head == NULL {
          AddToBitmap(p, s);
        } else {
          MarkKept(l1, l2, ready, p, s);
        }
        queue := links.Append(t, queue, ready[p]);
        RelinkOne(next, prev, links.next, links.prev, queues, ready, prio, queued, t, queue, s);
        PlacedAfterAdd(ready, prio, queued, t, s);
        queues := queues[p := queue];
        queued := queued[t := true];
        ready := ready[p := s];
      }
    }

    /** tcbSchedDequeue: out of its queue, leaving the others in their order. */
    method Dequeue(t: Tid)
      requires Valid() && t in prio
      modifies this`queues, this`l1, this`l2, this`queued, this`ready, links
      ensures Valid() && t in old(queued) && queued == old(queued)[t := false]
      ensures !old(queued[t]) ==> ready == old(ready)
      ensures old(queued[t]) ==> ready == Put(old(ready), prio[t], Minus(At(old(ready), prio[t]), t))
    {
      hide AllLinked, Linked, Marked, Placed, OnlyRelinked, Members, Distinct, Minus, Without;
      OneQueue(links.next, links.prev, queues, l1, l2, ready, prio, queued, t);
      if queued[t] {
        var p := prio[t];
        ghost var i := PlaceIn(links.next, links.prev, queues[p], ready[p], t);
        ghost var s := Without(ready[p], i);
        ghost var next, prev := links.next, links.prev;
        if links.prev[t] == NULL && links.next[t] == NULL {
          assert s == [];
          RemoveFromBitmap(p);
        } else {
          MarkKept(l1, l2, ready, p, s);
        }
        var queue := links.Dequeue(t, queues[p], ready[p], i);
        RelinkOne(next, prev, links.next, links.prev, queues, ready, prio, queued, t, queue, s);
        PlacedAfterRemove(ready, prio, queued, t, s);
        queues := queues[p := queue];
        queued := queued[t := false];
        ready := ready[p := s];
      }
    }

    /** The assignment to tcbPriority in setPriority, made while the thread is not queued. */
    method SetPriority(t: Tid, p: nat)
      requires Valid() && t in prio && !queued[t] && p < NUM_PRIORITIES
      modifies this`prio
      ensures Valid() && prio == old(prio)[t := p]
    {
      hide AllLinked, Linked, Marked, Placed;
      PlacedAfterChange(ready, prio, queued, t, p);
      prio := prio[t := p];
    }

    /**
     The thread chooseThread takes from the two-level bitmap: the one a scan of all queues from the
     highest priority down finds first; NULL when every queue is empty.
     */
    method Choose() returns (t: Tid)
      requires Valid()
      ensures t == FirstReady(ready, NUM_PRIORITIES)
      ensures t == NULL ==> forall u :: u in queued ==> !queued[u]
      ensures t != NULL ==> t in queued && t in prio && At(ready, prio[t]) != [] && At(ready, prio[t])[0] == t
      ensures t != NULL ==> queued[t] && forall u :: u in queued && queued[u] ==> prio[u] <= prio[t]
    {
      if l1 != {} {
        var l1index := HighestBit(l1);
        var l2index := HighestBit(l2[l1index]);
        HighestMarked(l1, l2, ready, l1index, l2index);
        var p := l1index * WORD_BITS + l2index;
        FirstReadyAt(ready, NUM_PRIORITIES, p);
        t := queues[p].head;
        assert t in ready[p];
      } else {
        NoneMarked(l1, l2, ready);
        NoneReady(ready, NUM_PRIORITIES);
        t := NULL;
      }
    }
  }
}
