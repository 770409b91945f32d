/**
 user/pcb.c, the PCB commands of user/interface.c and kernel/sys_call.c over linked lists. Every
 method is proved to take the state that the linked lists stand for, the ghost field `view`, to the
 state that Scheduler and Steps specify.
 */
module Kernel {
  import opened Common
  import opened CStrings
  import opened Pcbs
  import opened Scheduler
  import opened Steps

  /** What the `next` field of p must hold when the lists are those of m. */
  function Next(m: Lists, p: Pcb): Pcb? {
    if p in List(m, Ready) then Succ(List(m, Ready), p)
    else if p in List(m, Blocked) then Succ(List(m, Blocked), p)
    else if p in List(m, SuspReady) then Succ(List(m, SuspReady), p)
    else if p in List(m, SuspBlocked) then Succ(List(m, SuspBlocked), p)
    else null
  }

  ghost predicate Disjoint(m: Lists) {
    && (forall q :: Distinct(List(m, q)))
    && (forall q, r, p :: q != r && p in List(m, q) ==> p !in List(m, r))
  }

  lemma NextIn(m: Lists, q: QueueId, p: Pcb)
    requires Disjoint(m) && p in List(m, q)
    ensures Next(m, p) == Succ(List(m, q), p)
  {
  }

  lemma NextAt(m: Lists, q: QueueId, i: nat)
    requires Disjoint(m) && i < |List(m, q)|
    ensures Next(m, List(m, q)[i]) == At(List(m, q), i + 1)
  {
    NextIn(m, q, List(m, q)[i]);
    SuccAt(List(m, q), i);
  }

  lemma NextNowhere(m: Lists, p: Pcb)
    requires forall q :: p !in List(m, q)
    ensures Next(m, p) == null
  {
  }

  /** The links that change when the list of one queue is replaced. */
  lemma NextReplaced(m: Lists, m': Lists, q: QueueId, p: Pcb)
    requires Disjoint(m) && Disjoint(m')
    requires forall r :: r != q ==> List(m', r) == List(m, r)
    requires forall r :: r != q ==> p !in List(m, r)
    ensures Next(m', p) == Succ(List(m', q), p) && Next(m, p) == Succ(List(m, q), p)
  {
  }

  lemma NextUntouched(m: Lists, m': Lists, q: QueueId, r: QueueId, p: Pcb)
    requires Disjoint(m) && Disjoint(m')
    requires forall r :: r != q ==> List(m', r) == List(m, r)
    requires r != q && p in List(m, r)
    ensures Next(m', p) == Next(m, p)
  {
  }

  lemma NextInserted(m: Lists, m': Lists, q: QueueId, k: nat, x: Pcb, p: Pcb)
    requires Disjoint(m) && k <= |List(m, q)| && forall r :: x !in List(m, r)
    requires forall r :: List(m', r) == if r == q then Spliced(List(m, q), k, x) else List(m, r)
    ensures Disjoint(m')
    ensures Next(m', p) ==
            if p == x then At(List(m, q), k) else if k > 0 && p == List(m, q)[k - 1] then x else Next(m, p)
  {
    var l := List(m, q);
    SplicedDistinct(l, k, x);
    forall y ensures y in List(m', q) <==> y == x || y in l { SplicedMembers(l, k, x, y); }
    if r :| r != q && p in List(m, r) {
      NextUntouched(m, m', q, r, p);
    } else {
      NextReplaced(m, m', q, p);
      SuccSpliced(l, k, x, p);
    }
  }

  lemma NextRemoved(m: Lists, m': Lists, q: QueueId, k: nat, p: Pcb)
    requires Disjoint(m) && k < |List(m, q)|
    requires forall r :: List(m', r) == if r == q then Without(List(m, q), List(m, q)[k]) else List(m, r)
    ensures Disjoint(m')
    ensures Next(m', p) ==
            if p == List(m, q)[k] then null
            else if k > 0 && p == List(m, q)[k - 1] then At(List(m, q), k + 1) else Next(m, p)
  {
    var l := List(m, q);
    WithoutAt(l, k);
    assert Distinct(Without(l, l[k]));
    forall y ensures y in List(m', q) <==> y in l && y != l[k] { WithoutMembers(l, l[k], y); }
    if r :| r != q && p in List(m, r) {
      NextUntouched(m, m', q, r, p);
    } else {
      NextReplaced(m, m', q, p);
      SuccWithout(l, k, p);
    }
  }

  /** Taking p out of the one queue that can hold it takes it out of every queue. */
  lemma TakenOut(m: Lists, q: QueueId, p: Pcb)
    requires q in m && forall r :: r != q ==> p !in List(m, r)
    ensures TakeOut(m, p) == m[q := Without(m[q], p)]
  {
    forall r | r in m && r != q ensures TakeOut(m, p)[r] == m[r] {
      assert p !in List(m, r);
      WithoutNone(m[r], p);
    }
  }

  lemma TakenOutNone(m: Lists, p: Pcb)
    requires forall r :: p !in List(m, r)
    ensures TakeOut(m, p) == m
  {
    forall r | r in m ensures TakeOut(m, p)[r] == m[r] {
      assert p !in List(m, r);
      WithoutNone(m[r], p);
    }
  }

  lemma TakenOutGone(m: Lists, p: Pcb, q: QueueId)
    requires forall r :: Distinct(List(m, r))
    ensures p !in List(TakeOut(m, p), q)
  {
    WithoutMembers(List(m, q), p, p);
  }

  ghost predicate FrontOk(m: Lists, q: QueueId, queue: Queue?)
    reads queue
  {
    (q in m <==> queue != null) && (queue != null ==> queue.front == At(m[q], 0))
  }

  /** The recorded attributes are those in the PCBs. */
  ghost predicate AttrsOk(attr: map<Pcb, Attributes>)
    reads attr.Keys`processName, attr.Keys`processClass, attr.Keys`processPriority
    reads attr.Keys`executionState, attr.Keys`dispatchingState, attr.Keys`stackPtr
  {
    forall p {:trigger attr[p]} :: p in attr ==> p.Attr() == attr[p]
  }

  function Changed(a: Attributes, exec: ExecutionState, disp: DispatchingState, priority: int): Attributes {
    a.(exec := exec, disp := disp, priority := priority)
  }

  /** A heap's free function, and what it has been given. */
  class FreeFunction {
    var freed: seq<object>

    constructor ()
      ensures freed == []
    {
      freed := [];
    }

    method Free(ptr: object) returns (r: int)
      modifies this
      ensures freed == old(freed) + [ptr]
    {
      freed := freed + [ptr];
      r := 0;
    }
  }

  /** sys_free_mem (lib/core.c:57-60). */
  method SysFreeMem(freeFunction: FreeFunction?, ptr: object) returns (r: int)
    modifies if freeFunction != null then {freeFunction} else {}
    ensures freeFunction == null ==> r == -1
    ensures freeFunction != null ==> freeFunction.freed == old(freeFunction.freed) + [ptr]
  {
    if freeFunction == null {
      return -1;
    }
    r := freeFunction.Free(ptr);
  }

  /** pcb_free (pcb.c:21-38). It gives the free function, if one is installed, the saved context, which lies
      in the middle of the PCB's own stack, and then the PCB; with none installed it touches nothing. */
  method PcbFree(freeFunction: FreeFunction?, pcb: Pcb?) returns (r: int)
    modifies if freeFunction != null then {freeFunction} else {}
    ensures r == -1 <==> pcb == null
    ensures freeFunction != null ==>
      freeFunction.freed == old(freeFunction.freed) + if pcb == null then [] else [pcb.stackPtr, pcb]
  {
    if pcb == null {
      return -1;
    }
    var _ := SysFreeMem(freeFunction, pcb.stackPtr);
    var _ := SysFreeMem(freeFunction, pcb);
    return 0;
  }

  /** strcmp(current->process_name, name) == 0 (pcb.c:75). */
  method SameName(a: CStr, b: CStr) returns (same: bool)
    ensures same <==> a == b
  {
    ContentAt(a + [0], |a|);
    ContentAt(b + [0], |b|);
    var c := StrCmp(a + [0], b + [0]);
    same := c == 0;
  }

  class Machine {
    const freeFunction: FreeFunction? := null  // nothing calls sys_set_heap_functions
    var readyQ: Queue?
    var blockedQ: Queue?
    var suspReadyQ: Queue?
    var suspBlockedQ: Queue?
    var currentProcess: Pcb?
    var nextProcess: Pcb?
    var initialContext: Context?
    var insertFlag: int

    /** The state the pointers and fields stand for. */
    ghost var view: State

    constructor ()
      ensures Valid() && view == Boot
    {
      readyQ, blockedQ, suspReadyQ, suspBlockedQ := null, null, null, null;
      currentProcess, nextProcess, initialContext, insertFlag := null, null, null, 0;
      view := Boot;
    }

    /** A queue has a list exactly when it is allocated, and its front is the head of the list. */
    ghost predicate Fronts()
      reads this`readyQ, this`blockedQ, this`suspReadyQ, this`suspBlockedQ, this`view
      reads readyQ, blockedQ, suspReadyQ, suspBlockedQ
    {
      && FrontOk(view.queues, Ready, readyQ) && FrontOk(view.queues, Blocked, blockedQ)
      && FrontOk(view.queues, SuspReady, suspReadyQ) && FrontOk(view.queues, SuspBlocked, suspBlockedQ)
    }

    /** No two queue pointers are aliases. */
    ghost predicate Separate()
      reads this`readyQ, this`blockedQ, this`suspReadyQ, this`suspBlockedQ
    {
      && (readyQ != null ==> readyQ != blockedQ && readyQ != suspReadyQ && readyQ != suspBlockedQ)
      && (blockedQ != null ==> blockedQ != suspReadyQ && blockedQ != suspBlockedQ)
      && (suspReadyQ != null ==> suspReadyQ != suspBlockedQ)
    }

    /** The links spell the lists, which hold live PCBs and share none. */
    ghost predicate Chained()
      reads this`view, view.attr.Keys
    {
      && (forall p {:trigger p.next} :: p in view.attr ==> p.next == Next(view.queues, p))
      && Disjoint(view.queues)
      && (forall q, p :: p in List(view.queues, q) ==> p in view.attr)
      && AttrsOk(view.attr)
    }

    /** The queue pointers and the links are in step with the view. */
    ghost predicate Linked()
      reads this`readyQ, this`blockedQ, this`suspReadyQ, this`suspBlockedQ, this`view
      reads readyQ, blockedQ, suspReadyQ, suspBlockedQ, view.attr.Keys
    {
      Fronts() && Separate() && Chained()
    }

    /** The variables of sys_call.c are in step with the view. */
    ghost predicate Globals()
      reads this`view, this`currentProcess, this`initialContext, this`insertFlag
    {
      view.current == Current() && view.initial == Initial() && view.insertFlag == insertFlag
    }

    /** The invariant between calls. */
    ghost predicate Valid()
      reads this, readyQ, blockedQ, suspReadyQ, suspBlockedQ, view.attr.Keys
    {
      Linked() && Globals() && Inv(view)
    }

    ghost function Current(): Option<Pcb>
      reads this`currentProcess
    {
      if currentProcess == null then None else Some(currentProcess)
    }

    ghost function Initial(): Option<Context>
      reads this`initialContext
    {
      if initialContext == null then None else Some(initialContext)
    }

    /** The view takes over the variables of sys_call.c, which the queues do not depend on. */
    ghost method Observe()
      requires Linked()
      modifies this`view
      ensures Linked() && Globals()
      ensures view == old(view).(current := Current(), initial := Initial(), insertFlag := insertFlag)
    {
      view := view.(current := Current(), initial := Initial(), insertFlag := insertFlag);
    }

    /** The link of the PCB at position i of a list. */
    lemma LinkAt(q: QueueId, i: nat)
      requires Chained() && i < |List(view.queues, q)|
      ensures var l := List(view.queues, q); l[i] in view.attr && l[i].next == At(l, i + 1)
    {
      NextAt(view.queues, q, i);
    }

    /** The walk of the ordered branches (pcb.c:175-187, 254-266), for a front whose priority number
        is not larger: it stops at the last PCB that pcb has to follow. */
    method SeekByPriority(queue: Queue, pcb: Pcb, ghost q: QueueId) returns (current: Pcb, ghost k: nat)
      requires Chained() && queue.front == At(List(view.queues, q), 0) && queue.front != null
      requires pcb in view.attr && queue.front.processPriority <= pcb.processPriority
      ensures k == Position(view, List(view.queues, q), PriorityOf(view, pcb), 0)
      ensures 1 <= k <= |List(view.queues, q)| && current == List(view.queues, q)[k - 1]
      ensures current.next == At(List(view.queues, q), k)
    {
      ghost var l := List(view.queues, q);
      current := queue.front;
      k := 1;
      LinkAt(q, 0);
      while current.next != null && current.next.processPriority <= pcb.processPriority
        invariant 1 <= k <= |l| && current == l[k - 1] && current.next == At(l, k)
        invariant forall i :: 0 <= i < k ==> PriorityOf(view, l[i]) <= PriorityOf(view, pcb)
        decreases |l| - k
      {
        LinkAt(q, k);
        current := current.next;
        k := k + 1;
      }
      if k < |l| { LinkAt(q, k); }
      PositionIs(view, l, PriorityOf(view, pcb), 0, k);
    }

    /** pcb becomes the front (pcb.c:161-173, 240-252). An empty queue leaves its link as it is. */
    method LinkFront(queue: Queue, pcb: Pcb, ghost q: QueueId)
      requires Chained() && queue.front == At(List(view.queues, q), 0)
      requires pcb in view.attr && forall r :: pcb !in List(view.queues, r)
      modifies queue, pcb`next, this`view
      ensures Chained() && queue.front == pcb
      ensures view == PutAt(old(view), q, 0, pcb)
    {
      ghost var m := view.queues;
      var current := queue.front;
      queue.front := pcb;
      if current != null {
        pcb.next := current;
      }
      view := PutAt(view, q, 0, pcb);
      Relinked(m, q, 0, pcb);
    }

    /** pcb is linked after current (pcb.c:180-191, 259-270, 215-216, 294-295). */
    method LinkAfter(current: Pcb, pcb: Pcb, ghost q: QueueId, ghost k: nat)
      requires Chained() && 1 <= k <= |List(view.queues, q)|
      requires current == List(view.queues, q)[k - 1] && current.next == At(List(view.queues, q), k)
      requires pcb in view.attr && forall r :: pcb !in List(view.queues, r)
      modifies current`next, pcb`next, this`view
      ensures Chained()
      ensures view == PutAt(old(view), q, k, pcb)
    {
      ghost var m := view.queues;
      if current.next != null {
        pcb.next := current.next;
        current.next := pcb;
      } else {
        current.next := pcb;
        pcb.next := null;
      }
      view := PutAt(view, q, k, pcb);
      Relinked(m, q, k, pcb);
    }

    /** The pointer writes of an insertion bring the links back in step with the lists. */
    lemma Relinked(m: Lists, q: QueueId, k: nat, pcb: Pcb)
      requires Disjoint(m) && k <= |List(m, q)| && pcb in view.attr
      requires (forall r :: pcb !in List(m, r)) && forall r, p :: p in List(m, r) ==> p in view.attr
      requires view.queues == m[q := Spliced(List(m, q), k, pcb)]
      requires AttrsOk(view.attr)
      requires forall p {:trigger p.next} :: p in view.attr ==>
                 p.next == if p == pcb then At(List(m, q), k)
                           else if k > 0 && p == List(m, q)[k - 1] then pcb else Next(m, p)
      ensures Chained()
    {
      forall p ensures Disjoint(view.queues) && p in view.attr ==> p.next == Next(view.queues, p) {
        NextInserted(m, view.queues, q, k, pcb, p);
      }
      forall r, p | p in List(view.queues, r) ensures p in view.attr {
        if r == q { SplicedMembers(List(m, q), k, pcb, p); } else { assert p in List(m, r); }
      }
      NextInserted(m, view.queues, q, k, pcb, pcb);
    }

    lemma AttrOf(p: Pcb)
      requires Chained() && p in view.attr
      ensures view.attr[p] == p.Attr()
    {
    }

    /** The ordered branches of pcb_insert (pcb.c:158-191, 237-270). */
    method InsertByPriority(queue: Queue, pcb: Pcb, ghost q: QueueId)
      requires Chained() && queue.front == At(List(view.queues, q), 0)
      requires pcb in view.attr && forall r :: pcb !in List(view.queues, r)
      modifies queue, view.attr.Keys`next, this`view
      ensures Chained() && queue.front == At(List(view.queues, q), 0)
      ensures var k := Position(old(view), List(old(view.queues), q), PriorityOf(old(view), pcb), 0);
        view == PutAt(old(view), q, k, pcb)
    {
      var current := queue.front;
      if current == null {
        LinkFront(queue, pcb, q);
        return;
      }
      hide Chained;
      LinkAt(q, 0);
      AttrOf(pcb);
      AttrOf(current);
      if current.processPriority > pcb.processPriority {
        LinkFront(queue, pcb, q);
      } else {
        ghost var k;
        current, k := SeekByPriority(queue, pcb, q);
        LinkAfter(current, pcb, q, k);
      }
    }

    /** The walk of the FIFO branches (pcb.c:207-213, 286-292). It reads `front->next` without checking
        that there is a front. */
    method SeekLast(queue: Queue, ghost q: QueueId) returns (current: Pcb)
      requires Chained() && queue.front == At(List(view.queues, q), 0) && queue.front != null
      ensures current == List(view.queues, q)[|List(view.queues, q)| - 1]
    {
      ghost var l, k := List(view.queues, q), 1;
      current := queue.front;
      LinkAt(q, 0);
      while current.next != null
        invariant 1 <= k <= |l| && current == l[k - 1] && current.next == At(l, k)
        decreases |l| - k
      {
        LinkAt(q, k);
        current := current.next;
        k := k + 1;
      }
    }

    /** The FIFO branches of pcb_insert. */
    method InsertLast(queue: Queue, pcb: Pcb, ghost q: QueueId)
      requires Chained() && queue.front == At(List(view.queues, q), 0) && queue.front != null
      requires pcb in view.attr && forall r :: pcb !in List(view.queues, r)
      modifies view.attr.Keys`next, this`view
      ensures Chained() && queue.front == At(List(view.queues, q), 0)
      ensures view == PutAt(old(view), q, |List(old(view.queues), q)|, pcb)
    {
      var current := SeekLast(queue, q);
      LinkAfter(current, pcb, q, |List(view.queues, q)|);
    }

    /** No list has pcb, it is live, and pcb_insert will not run into a missing front. */
    ghost predicate Insertable(pcb: Pcb)
      reads this`view
    {
      pcb in view.attr && (forall r :: pcb !in List(view.queues, r)) && !InsertFaults(view, pcb)
    }

    /** The branches that allocate a queue (pcb.c:149-155, 198-204, 228-234, 277-283). */
    method NewQueue(pcb: Pcb, ghost q: QueueId) returns (queue: Queue)
      requires Chained() && List(view.queues, q) == []
      requires pcb in view.attr && forall r :: pcb !in List(view.queues, r)
      modifies pcb`next, this`view
      ensures fresh(queue) && Chained() && queue.front == pcb
      ensures view == PutAt(old(view), q, 0, pcb)
    {
      ghost var m := view.queues;
      queue := new Queue(pcb);
      pcb.next := null;
      view := PutAt(view, q, 0, pcb);
      Relinked(m, q, 0, pcb);
    }

    /** An ordered branch of pcb_insert (pcb.c:149-192, 228-271). */
    method PutByPriority(queue: Queue?, pcb: Pcb, ghost q: QueueId) returns (r: Queue)
      requires Chained() && FrontOk(view.queues, q, queue)
      requires pcb in view.attr && forall r :: pcb !in List(view.queues, r)
      modifies queue, view.attr.Keys`next, this`view
      ensures Chained() && FrontOk(view.queues, q, r)
      ensures r == queue || fresh(r)
      ensures var k := Position(old(view), List(old(view.queues), q), PriorityOf(old(view), pcb), 0);
        view == PutAt(old(view), q, k, pcb)
    {
      if queue == null {
        r := NewQueue(pcb, q);
      } else {
        r := queue;
        InsertByPriority(queue, pcb, q);
      }
    }

    /** A FIFO branch of pcb_insert (pcb.c:198-218, 277-297). */
    method PutLast(queue: Queue?, pcb: Pcb, ghost q: QueueId) returns (r: Queue)
      requires Chained() && FrontOk(view.queues, q, queue)
      requires pcb in view.attr && forall r :: pcb !in List(view.queues, r)
      requires queue != null ==> queue.front != null
      modifies queue, view.attr.Keys`next, this`view
      ensures Chained() && FrontOk(view.queues, q, r)
      ensures r == queue || fresh(r)
      ensures view == PutAt(old(view), q, |List(old(view.queues), q)|, pcb)
    {
      if queue == null {
        r := NewQueue(pcb, q);
      } else {
        r := queue;
        InsertLast(queue, pcb, q);
      }
    }

    method PutReady(pcb: Pcb)
      requires Linked() && Insertable(pcb) && Home(view.attr[pcb]) == Ready
      modifies this`readyQ, this`view, readyQ, view.attr.Keys`next
      ensures Linked() && (readyQ == old(readyQ) || fresh(readyQ))
      ensures view == Insert(old(view), pcb).value
    {
      hide Chained;
      readyQ := PutByPriority(readyQ, pcb, Ready);
    }

    method PutBlocked(pcb: Pcb)
      requires Linked() && Insertable(pcb) && Home(view.attr[pcb]) == Blocked
      modifies this`blockedQ, this`view, blockedQ, view.attr.Keys`next
      ensures Linked() && (blockedQ == old(blockedQ) || fresh(blockedQ))
      ensures view == Insert(old(view), pcb).value
    {
      hide Chained;
      blockedQ := PutLast(blockedQ, pcb, Blocked);
    }

    method PutSuspReady(pcb: Pcb)
      requires Linked() && Insertable(pcb) && Home(view.attr[pcb]) == SuspReady
      modifies this`suspReadyQ, this`view, suspReadyQ, view.attr.Keys`next
      ensures Linked() && (suspReadyQ == old(suspReadyQ) || fresh(suspReadyQ))
      ensures view == Insert(old(view), pcb).value
    {
      hide Chained;
      suspReadyQ := PutByPriority(suspReadyQ, pcb, SuspReady);
    }

    method PutSuspBlocked(pcb: Pcb)
      requires Linked() && Insertable(pcb) && Home(view.attr[pcb]) == SuspBlocked
      modifies this`suspBlockedQ, this`view, suspBlockedQ, view.attr.Keys`next
      ensures Linked() && (suspBlockedQ == old(suspBlockedQ) || fresh(suspBlockedQ))
      ensures view == Insert(old(view), pcb).value
    {
      hide Chained;
      suspBlockedQ := PutLast(suspBlockedQ, pcb, SuspBlocked);
    }

    /** The choice of the queue (pcb.c:143-146, 195, 222-225, 274). */
    method Enqueue(pcb: Pcb)
      requires Linked() && Insertable(pcb)
      modifies this`readyQ, this`blockedQ, this`suspReadyQ, this`suspBlockedQ, this`view
      modifies readyQ, blockedQ, suspReadyQ, suspBlockedQ, view.attr.Keys`next
      ensures Linked()
      ensures view == Insert(old(view), pcb).value
      ensures (readyQ == old(readyQ) || fresh(readyQ)) && (blockedQ == old(blockedQ) || fresh(blockedQ))
      ensures suspReadyQ == old(suspReadyQ) || fresh(suspReadyQ)
      ensures suspBlockedQ == old(suspBlockedQ) || fresh(suspBlockedQ)
    {
      if pcb.dispatchingState == NOT_SUSPENDED {
        if pcb.executionState == READY {
          PutReady(pcb);
        } else {
          PutBlocked(pcb);
        }
      } else {
        if pcb.executionState == READY {
          PutSuspReady(pcb);
        } else if pcb.executionState == BLOCKED {
          PutSuspBlocked(pcb);
        }
      }
    }

    /** pcb_insert (pcb.c:134-300). */
    method PcbInsert(pcb: Pcb?)
      requires Linked() && (pcb != null ==> Insertable(pcb))
      modifies this`readyQ, this`blockedQ, this`suspReadyQ, this`suspBlockedQ, this`view
      modifies readyQ, blockedQ, suspReadyQ, suspBlockedQ, view.attr.Keys`next
      ensures Linked()
      ensures view == if pcb == null then old(view) else Insert(old(view), pcb).value
      ensures (readyQ == old(readyQ) || fresh(readyQ)) && (blockedQ == old(blockedQ) || fresh(blockedQ))
      ensures suspReadyQ == old(suspReadyQ) || fresh(suspReadyQ)
      ensures suspBlockedQ == old(suspBlockedQ) || fresh(suspBlockedQ)
    {
      if pcb == null {
        return;
      }
      Enqueue(pcb);
    }

    /** One of the four searches of pcb_remove (pcb.c:312-334, 340-362, 368-390, 396-418). */
    method SeekPcb(queue: Queue?, pcb: Pcb, ghost q: QueueId) returns (prev: Pcb?, current: Pcb?, ghost k: nat)
      requires Chained() && FrontOk(view.queues, q, queue)
      ensures current == null ==> pcb !in List(view.queues, q)
      ensures current != null ==> FoundAt(pcb, queue, prev, current, q, k)
    {
      ghost var l := List(view.queues, q);
      prev, current, k := null, null, 0;
      if queue == null {
        return;
      }
      current := queue.front;
      while current != null
        invariant k <= |l| && current == At(l, k) && prev == if k == 0 then null else l[k - 1]
        invariant pcb !in l[..k]
        decreases |l| - k
      {
        if current == pcb {
          return;
        }
        LinkAt(q, k);
        prev := current;
        current := current.next;
        k := k + 1;
      }
    }

    /** The search has stopped at pcb, number k of queue q, with its predecessor in hand. */
    ghost predicate FoundAt(pcb: Pcb, queue: Queue?, prev: Pcb?, current: Pcb?, q: QueueId, k: nat)
      reads this`view, queue
    {
      && queue != null && queue.front == At(List(view.queues, q), 0)
      && k < |List(view.queues, q)| && current == pcb == List(view.queues, q)[k]
      && prev == if k == 0 then null else List(view.queues, q)[k - 1]
    }

    /** The pointer writes of a removal bring the links back in step with the lists. */
    lemma Unlinked(m: Lists, q: QueueId, k: nat)
      requires Disjoint(m) && q in m && k < |m[q]|
      requires forall r, p :: p in List(m, r) ==> p in view.attr
      requires view.queues == m[q := Without(m[q], m[q][k])]
      requires AttrsOk(view.attr)
      requires forall p {:trigger p.next} :: p in view.attr ==>
                 p.next == if p == m[q][k] then null
                           else if k > 0 && p == m[q][k - 1] then At(m[q], k + 1) else Next(m, p)
      ensures Chained()
    {
      assert Distinct(List(m, q));
      WithoutAt(m[q], k);
      forall p ensures Disjoint(view.queues) && p in view.attr ==> p.next == Next(view.queues, p) {
        NextRemoved(m, view.queues, q, k, p);
      }
      NextRemoved(m, view.queues, q, k, m[q][k]);
      forall r, p | p in List(view.queues, r) ensures p in view.attr { assert p in List(m, r); }
    }

    /** current is unlinked (pcb.c:321-329 and its three copies). */
    method Unlink(queue: Queue, prev: Pcb?, current: Pcb, ghost q: QueueId, ghost k: nat)
      requires Chained() && queue.front == At(List(view.queues, q), 0)
      requires k < |List(view.queues, q)| && current == List(view.queues, q)[k]
      requires prev == if k == 0 then null else List(view.queues, q)[k - 1]
      modifies queue, view.attr.Keys`next, this`view
      ensures Chained() && queue.front == At(List(view.queues, q), 0)
      ensures view == old(view).(queues := old(view.queues)[q := Without(List(old(view.queues), q), current)])
    {
      ghost var m := view.queues;
      LinkAt(q, k);
      WithoutAt(List(m, q), k);
      if prev != null {
        prev.next := current.next;
      } else {
        queue.front := current.next;
      }
      current.next := null;
      view := view.(queues := m[q := Without(List(m, q), current)]);
      Unlinked(m, q, k);
    }

    /** q names the queue that the pointer queue is. */
    ghost predicate Slot(q: QueueId, queue: Queue?)
      reads this`readyQ, this`blockedQ, this`suspReadyQ, this`suspBlockedQ
    {
      match q
      case Ready => queue == readyQ
      case Blocked => queue == blockedQ
      case SuspReady => queue == suspReadyQ
      case SuspBlocked => queue == suspBlockedQ
    }

    /** The four searches of pcb_remove, one after the other. */
    method SeekAny(pcb: Pcb) returns (queue: Queue?, prev: Pcb?, current: Pcb?, ghost q: QueueId, ghost k: nat)
      requires Linked()
      ensures current != null ==> Slot(q, queue) && FoundAt(pcb, queue, prev, current, q, k)
      ensures current == null ==> forall r :: pcb !in List(view.queues, r)
    {
      queue, q := readyQ, Ready;
      prev, current, k := SeekPcb(queue, pcb, q);
      if current != null { return; }
      queue, q := blockedQ, Blocked;
      prev, current, k := SeekPcb(queue, pcb, q);
      if current != null { return; }
      queue, q := suspReadyQ, SuspReady;
      prev, current, k := SeekPcb(queue, pcb, q);
      if current != null { return; }
      queue, q := suspBlockedQ, SuspBlocked;
      prev, current, k := SeekPcb(queue, pcb, q);
      if current != null { return; }
      forall r ensures pcb !in List(view.queues, r) {
        match r
        case Ready => case Blocked => case SuspReady => case SuspBlocked =>
      }
    }

    /** Unlinking a PCB of one queue leaves the other three pointers alone. */
    method UnlinkFound(queue: Queue, prev: Pcb?, current: Pcb, ghost q: QueueId, ghost k: nat)
      requires Linked() && Slot(q, queue) && FoundAt(current, queue, prev, current, q, k)
      modifies queue, view.attr.Keys`next, this`view
      ensures Linked()
      ensures view == old(view).(queues := old(view.queues)[q := Without(List(old(view.queues), q), current)])
    {
      Unlink(queue, prev, current, q, k);
      match q
      case Ready => case Blocked => case SuspReady => case SuspBlocked =>
    }

    /** pcb_remove (pcb.c:302-422): 0, or -1 with nothing changed when no queue holds pcb. */
    method PcbRemove(pcb: Pcb?) returns (r: int)
      requires Linked()
      modifies this`view, readyQ, blockedQ, suspReadyQ, suspBlockedQ, view.attr.Keys`next
      ensures Linked()
      ensures r == if pcb != null && old(Listed(pcb)) then 0 else -1
      ensures r == -1 ==> view == old(view)
      ensures pcb != null ==> view == Remove(old(view), pcb) && forall q :: pcb !in List(view.queues, q)
    {
      if pcb == null {
        return -1;
      }
      ghost var m := view.queues;
      var queue, prev, current;
      ghost var q, k;
      queue, prev, current, q, k := SeekAny(pcb);
      if current == null {
        TakenOutNone(m, pcb);
        return -1;
      }
      UnlinkFound(queue, prev, current, q, k);
      TakenOut(m, q, pcb);
      forall r ensures pcb !in List(TakeOut(m, pcb), r) {
        TakenOutGone(m, pcb, r);
      }
      return 0;
    }

    /** One of the four searches of pcb_find (pcb.c:67-81, 83-97, 99-113, 115-129). */
    method FindPcb(queue: Queue?, name: CStr, ghost q: QueueId) returns (p: Pcb?)
      requires Chained() && FrontOk(view.queues, q, queue)
      ensures FindIn(view, List(view.queues, q), name, 0) == if p == null then None else Some(p)
    {
      ghost var l, k := List(view.queues, q), 0;
      p := null;
      if queue != null {
        p := queue.front;
        while p != null
          invariant k <= |l| && p == At(l, k)
          invariant forall i :: 0 <= i < k ==> !Named(view, l[i], name)
          decreases |l| - k
        {
          LinkAt(q, k);
          var same := SameName(p.processName, name);
          assert p in view.attr && p.processName == view.attr[p].name;
          if same {
            FindInIs(view, l, name, 0, k);
            return;
          }
          p := p.next;
          k := k + 1;
        }
      }
      FindInIs(view, l, name, 0, |l|);
    }

    /** p is in some queue. */
    ghost predicate Listed(p: Pcb)
      reads this`view
    {
      exists q :: p in List(view.queues, q)
    }

    /** pcb_find (pcb.c:63-131). */
    method PcbFind(name: CStr) returns (p: Pcb?)
      requires Linked()
      ensures Find(view, name) == if p == null then None else Some(p)
      ensures Meant(view, name, if p == null then None else Some(p))
      ensures p != null ==> p in view.attr && p.Attr() == view.attr[p] && Listed(p)
    {
      ghost var a, b := Items(view, Ready), Items(view, Blocked);
      ghost var c, d := Items(view, SuspReady), Items(view, SuspBlocked);
      FindInAppend(view, a, b, name);
      FindInAppend(view, a + b, c, name);
      FindInAppend(view, a + b + c, d, name);
      p := FindPcb(readyQ, name, Ready);
      if p == null {
        p := FindPcb(blockedQ, name, Blocked);
      }
      if p == null {
        p := FindPcb(suspReadyQ, name, SuspReady);
      }
      if p == null {
        p := FindPcb(suspBlockedQ, name, SuspBlocked);
      }
      FindIsMeant(view, name);
      if p != null {
        InSearchOrder(view, p);
        ghost var q :| p in Items(view, q);
        assert p in List(view.queues, q);
      }
    }

    /** Assignments to fields of a PCB. */
    method Assign(pcb: Pcb, exec: ExecutionState, disp: DispatchingState, priority: int)
      requires Linked() && pcb in view.attr
      modifies pcb`executionState, pcb`dispatchingState, pcb`processPriority, this`view
      ensures Linked()
      ensures view == old(view).(attr := old(view.attr)[pcb := Changed(old(view.attr)[pcb], exec, disp, priority)])
    {
      assert pcb.Attr() == view.attr[pcb];
      pcb.executionState, pcb.dispatchingState, pcb.processPriority := exec, disp, priority;
      view := view.(attr := view.attr[pcb := pcb.Attr()]);
    }

    /** The two assignments of IDLE to the running process (sys_call.c:25-26). */
    method SaveContext(pcb: Pcb, ctx: Context)
      requires Linked() && pcb in view.attr
      modifies pcb`executionState, pcb`stackPtr, this`view
      ensures Linked()
      ensures view == old(view).(attr := old(view.attr)[pcb := old(view.attr)[pcb].(exec := READY, ctx := ctx)])
    {
      assert pcb.Attr() == view.attr[pcb];
      pcb.executionState, pcb.stackPtr := READY, ctx;
      view := view.(attr := view.attr[pcb := pcb.Attr()]);
    }

    /** The three statements with which the commands move a PCB: pcb_remove, assignments to its fields,
        pcb_insert. A PCB that is in no queue is left alone (interface.c:592-598, 650-656, 699-705). */
    method Refile(pcb: Pcb, exec: ExecutionState, disp: DispatchingState, priority: int)
      requires Linked() && pcb in view.attr && Listed(pcb)
      requires Move(view, pcb, Changed(view.attr[pcb], exec, disp, priority)).Some?
      modifies this`readyQ, this`blockedQ, this`suspReadyQ, this`suspBlockedQ, this`view
      modifies readyQ, blockedQ, suspReadyQ, suspBlockedQ, view.attr.Keys
      ensures Linked()
      ensures view == Move(old(view), pcb, Changed(old(view.attr)[pcb], exec, disp, priority)).value
    {
      hide Linked;
      var r := PcbRemove(pcb);
      if r == -1 {
        return;
      }
      Assign(pcb, exec, disp, priority);
      PcbInsert(pcb);
    }

    /** pcb_set_priority (pcb.c:425-460). */
    method PcbSetPriority(name: CStr, newPriority: int) returns (r: int)
      requires Linked()
      modifies this`readyQ, this`blockedQ, this`suspReadyQ, this`suspBlockedQ, this`view
      modifies readyQ, blockedQ, suspReadyQ, suspBlockedQ, view.attr.Keys
      ensures Linked()
      ensures view == SetPriority(old(view), name, newPriority).value
      ensures r == PriorityCode(old(view), name, newPriority)
    {
      var pcb := PcbFind(name);
      if pcb == null {
        return -1;
      }
      if newPriority < 0 || newPriority > 9 {
        return -2;
      }
      if pcb.executionState == READY {
        Refile(pcb, READY, pcb.dispatchingState, newPriority);
      } else {
        Assign(pcb, BLOCKED, pcb.dispatchingState, newPriority);
      }
      return 0;
    }

    /** A PCB in no queue leaves the set of live PCBs. Its memory is untouched. */
    ghost method Bury(pcb: Pcb)
      requires Linked() && !Listed(pcb)
      modifies this`view
      ensures Linked() && view == Forget(old(view), pcb)
    {
      forall q, p | p in List(view.queues, q) ensures p != pcb { }
      view := Forget(view, pcb);
    }

    /** A new PCB joins the live PCBs. */
    ghost method Admit(pcb: Pcb)
      requires Linked() && pcb !in view.attr && pcb.next == null
      modifies this`view
      ensures Linked() && view == old(view).(attr := old(view.attr)[pcb := pcb.Attr()])
    {
      forall q ensures pcb !in List(view.queues, q) { }
      NextNowhere(view.queues, pcb);
      view := view.(attr := view.attr[pcb := pcb.Attr()]);
    }

    /** pcb_remove followed by pcb_free, as delete (interface.c:493-496, where pcb_remove cannot fail)
        and EXIT (sys_call.c:37-38) do. */
    method Discard(pcb: Pcb)
      requires Linked() && pcb in view.attr
      modifies this`view, readyQ, blockedQ, suspReadyQ, suspBlockedQ, view.attr.Keys`next
      ensures Linked() && view == Forget(Remove(old(view), pcb), pcb)
    {
      hide Linked;
      var _ := PcbRemove(pcb);
      var _ := PcbFree(freeFunction, pcb);
      Bury(pcb);
    }
  }
}
