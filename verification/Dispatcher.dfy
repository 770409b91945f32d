/** kernel/sys_call.c: the dispatcher. */
module Dispatcher {
  import opened Common
  import opened Pcbs
  import opened Scheduler
  import opened Steps
  import opened Kernel

  /** IDLE before dispatching (sys_call.c:14-29). */
  method EnterIdle(m: Machine, ctx: Context)
    requires m.Linked() && m.Globals() && (m.currentProcess != null ==> m.currentProcess in m.view.attr)
    modifies m`initialContext, m`insertFlag, m`view
    modifies m.view.attr.Keys`executionState, m.view.attr.Keys`stackPtr
    ensures m.Linked() && m.Globals() && m.view == IdleEntry(old(m.view), ctx)
  {
    KeepFirst(m, ctx);
    if m.currentProcess != null {
      Yield(m, m.currentProcess, ctx);
    }
    m.Observe();
  }

  /** sys_call.c:15-17. */
  method KeepFirst(m: Machine, ctx: Context)
    requires m.Linked()
    modifies m`initialContext
    ensures m.Linked() && m.initialContext == if old(m.initialContext) == null then ctx else old(m.initialContext)
  {
    if m.initialContext == null {
      m.initialContext := ctx;
    }
  }

  /** sys_call.c:25-27. */
  method Yield(m: Machine, p: Pcb, ctx: Context)
    requires m.Linked() && p in m.view.attr
    modifies m`insertFlag, m`view, p`executionState, p`stackPtr
    ensures m.Linked() && m.insertFlag == 1
    ensures m.view == old(m.view).(attr := old(m.view.attr)[p := old(m.view.attr)[p].(exec := READY, ctx := ctx)])
  {
    m.SaveContext(p, ctx);
    m.insertFlag := 1;
  }

  /** EXIT before dispatching (sys_call.c:36-40). */
  method EnterExit(m: Machine)
    requires m.Linked() && m.Globals() && (m.currentProcess != null ==> m.currentProcess in m.view.attr)
    modifies m`currentProcess, m`view, m.readyQ, m.blockedQ, m.suspReadyQ, m.suspBlockedQ, m.view.attr.Keys`next
    ensures m.Linked() && m.Globals() && m.view == ExitEntry(old(m.view))
  {
    if m.currentProcess != null {
      Leave(m, m.currentProcess);
    }
  }

  /** The running process leaves (sys_call.c:37-39). */
  method Leave(m: Machine, p: Pcb)
    requires m.Linked() && m.Globals() && p in m.view.attr
    modifies m`currentProcess, m`view, m.readyQ, m.blockedQ, m.suspReadyQ, m.suspBlockedQ, m.view.attr.Keys`next
    ensures m.Linked() && m.Globals() && m.view == Forget(Remove(old(m.view), p), p).(current := None)
  {
    hide Machine.Linked;
    m.Discard(p);
    ClearCurrent(m);
  }

  method ClearCurrent(m: Machine)
    requires m.Linked()
    modifies m`currentProcess, m`view
    ensures m.Linked() && m.Globals() && m.initialContext == old(m.initialContext) && m.insertFlag == old(m.insertFlag)
    ensures m.view == old(m.view).(current := None, initial := m.Initial(), insertFlag := m.insertFlag)
  {
    m.currentProcess := null;
    m.Observe();
  }

  /** The process that goes back into the ready queue. */
  function Requeued(s: State): Option<Pcb> {
    if s.insertFlag == 1 && s.current.Some? && s.current.value in s.attr then s.current else None
  }

  /** The queues after the exchange. */
  function Exchanged(s: State, next: Pcb, requeued: Option<Pcb>): Option<State> {
    if requeued.Some? && requeued.value in s.attr then Insert(Remove(s, next), requeued.value)
    else Some(Remove(s, next))
  }

  /** The next process leaves the ready queue, and then the yielding one goes back in
      (sys_call.c:49-53). */
  method Exchange(m: Machine, next: Pcb, requeued: Pcb?)
    requires m.Linked() && next in m.view.attr
    requires requeued != null ==> requeued in m.view.attr && !m.Listed(requeued)
    requires Exchanged(m.view, next, Maybe(requeued)).Some?
    modifies m`readyQ, m`blockedQ, m`suspReadyQ, m`suspBlockedQ, m`view
    modifies m.readyQ, m.blockedQ, m.suspReadyQ, m.suspBlockedQ, m.view.attr.Keys`next
    ensures m.Linked()
    ensures m.view == Exchanged(old(m.view), next, Maybe(requeued)).value
  {
    hide Machine.Linked;
    ghost var s := m.view;
    var _ := m.PcbRemove(next);
    var _ := PcbFree(m.freeFunction, next);
    if requeued != null {
      forall q ensures requeued !in List(m.view.queues, q) {
        RemoveListed(s, next, requeued, q);
      }
    }
    m.PcbInsert(requeued);
  }

  lemma RemoveListed(s: State, p: Pcb, x: Pcb, q: QueueId)
    requires x !in List(s.queues, q)
    ensures x !in List(Remove(s, p).queues, q)
  {
  }

  function Maybe(p: Pcb?): Option<Pcb> {
    if p == null then None else Some(p)
  }

  lemma DispatchIs(s: State, next: Pcb)
    requires Dispatch(s).Some? && Items(s, Ready) != [] && next == Items(s, Ready)[0]
    ensures next in s.attr && next in List(s.queues, Ready) && Exchanged(s, next, Requeued(s)).Some?
    ensures Dispatch(s).value ==
      (Exchanged(s, next, Requeued(s)).value.(insertFlag := 0, current := Some(next)), s.attr[next].ctx)
  {
  }

  /** The assignments around the exchange (sys_call.c:47, 53, 55). */
  method MakeCurrent(m: Machine, next: Pcb)
    requires m.Linked()
    modifies m`nextProcess, m`insertFlag, m`currentProcess, m`view
    ensures m.Linked() && m.Globals() && m.initialContext == old(m.initialContext)
    ensures m.view == old(m.view).(current := Some(next), initial := m.Initial(), insertFlag := 0)
  {
    m.nextProcess, m.insertFlag, m.currentProcess := next, 0, next;
    m.Observe();
  }

  lemma ExchangedKeeps(s: State, next: Pcb, requeued: Option<Pcb>)
    requires Exchanged(s, next, requeued).Some?
    ensures Exchanged(s, next, requeued).value.initial == s.initial
  {
  }

  /** sys_call.c:48. */
  method SavedContext(m: Machine, p: Pcb) returns (ctx: Context)
    requires m.Linked() && p in m.view.attr
    ensures ctx == m.view.attr[p].ctx
  {
    assert p.Attr() == m.view.attr[p];
    ctx := p.stackPtr;
  }

  /** A process takes over (sys_call.c:47-55). */
  method SwitchTo(m: Machine, next: Pcb) returns (ctx: Context)
    requires m.Linked() && m.Globals() && next in m.view.attr && Exchanged(m.view, next, Requeued(m.view)).Some?
    requires m.currentProcess != null ==> m.currentProcess in m.view.attr && !m.Listed(m.currentProcess)
    modifies m, m.readyQ, m.blockedQ, m.suspReadyQ, m.suspBlockedQ, m.view.attr.Keys`next
    ensures m.Linked() && m.Globals() && ctx == old(m.view).attr[next].ctx
    ensures m.view == Exchanged(old(m.view), next, Requeued(old(m.view))).value.(insertFlag := 0, current := Some(next))
  {
    hide Machine.Linked;
    hide Exchanged;
    ExchangedKeeps(m.view, next, Requeued(m.view));
    ctx := SavedContext(m, next);
    var requeued := if m.insertFlag == 1 then m.currentProcess else null;
    assert Maybe(requeued) == Requeued(m.view);
    Exchange(m, next, requeued);
    MakeCurrent(m, next);
  }

  /** The choice of the next process (sys_call.c:46-60). */
  method Switch(m: Machine) returns (ctx: Context)
    requires m.Linked() && m.Globals() && Dispatch(m.view).Some?
    requires m.currentProcess != null ==> m.currentProcess in m.view.attr && !m.Listed(m.currentProcess)
    modifies m, m.readyQ, m.blockedQ, m.suspReadyQ, m.suspBlockedQ, m.view.attr.Keys`next
    ensures m.Linked() && m.Globals() && (m.view, ctx) == Dispatch(old(m.view)).value
  {
    if m.readyQ != null && m.readyQ.front != null {
      DispatchIs(m.view, m.readyQ.front);
      ctx := SwitchTo(m, m.readyQ.front);
    } else {
      ctx := m.initialContext;
      m.initialContext := null;
      m.Observe();
    }
  }

  /** Entry and dispatch for an IDLE or EXIT request. */
  method Serve(m: Machine, op: Word, ctx: Context) returns (r: Context)
    requires m.Linked() && m.Globals() && (op == IDLE || op == EXIT) && SysCall(m.view, op, ctx).Some?
    requires m.currentProcess != null ==> m.currentProcess in m.view.attr && !m.Listed(m.currentProcess)
    modifies m, m.readyQ, m.blockedQ, m.suspReadyQ, m.suspBlockedQ
    modifies m.view.attr.Keys`next, m.view.attr.Keys`executionState, m.view.attr.Keys`stackPtr
    ensures m.Linked() && m.Globals() && (m.view, r) == SysCall(old(m.view), op, ctx).value
  {
    hide Machine.Linked;
    if op == IDLE {
      EnterIdle(m, ctx);
    } else {
      EnterExit(m);
    }
    r := Switch(m);
  }

  lemma CurrentUnlisted(s: State, q: QueueId)
    requires Inv(s) && s.current.Some?
    ensures s.current.value in s.attr && s.current.value !in List(s.queues, q)
  {
    assert QueueOk(s, q, Running(s));
    assert Items(s, q) == List(s.queues, q);
  }

  /** The contexts that a system call may hand back. */
  ghost function Contexts(m: Machine, ctx: Context): set<Context>
    reads m`view
  {
    (set p | p in m.view.attr :: m.view.attr[p].ctx) + {ctx}
    + (if m.view.initial.Some? then {m.view.initial.value} else {})
  }

  /** The return value (sys_call.c:42, 61). */
  method SetResult(m: Machine, c: Context, v: Word)
    requires m.Linked() && m.Globals()
    modifies c`eax
    ensures m.Linked() && m.Globals() && c.eax == v
  {
    c.eax := v;
  }

  /** IDLE and EXIT (sys_call.c:22-61). */
  method Answer(m: Machine, op: Word, ctx: Context) returns (r: Context)
    requires m.Linked() && m.Globals() && (op == IDLE || op == EXIT) && SysCall(m.view, op, ctx).Some?
    requires m.currentProcess != null ==> m.currentProcess in m.view.attr && !m.Listed(m.currentProcess)
    requires SysCall(m.view, op, ctx).value.1 in Contexts(m, ctx)
    modifies m, m.readyQ, m.blockedQ, m.suspReadyQ, m.suspBlockedQ
    modifies m.view.attr.Keys`next, m.view.attr.Keys`executionState, m.view.attr.Keys`stackPtr
    modifies Contexts(m, ctx)
    ensures m.Linked() && m.Globals() && (m.view, r) == SysCall(old(m.view), op, ctx).value && r.eax == 0
    ensures forall c: Context :: old(allocated(c)) && c != r ==> c.eax == old(c.eax)
  {
    hide Machine.Linked;
    r := Serve(m, op, ctx);
    SetResult(m, r, 0);
  }

  /** sys_call (sys_call.c:11-64), on linked lists that are in step with the view. */
  method Call(m: Machine, ctx: Context) returns (r: Context)
    requires m.Linked() && m.Globals() && SysCall(m.view, ctx.eax, ctx).Some?
    requires m.currentProcess != null ==> m.currentProcess in m.view.attr && !m.Listed(m.currentProcess)
    requires SysCall(m.view, ctx.eax, ctx).value.1 in Contexts(m, ctx)
    modifies m, m.readyQ, m.blockedQ, m.suspReadyQ, m.suspBlockedQ
    modifies m.view.attr.Keys`next, m.view.attr.Keys`executionState, m.view.attr.Keys`stackPtr
    modifies Contexts(m, ctx)
    ensures m.Linked() && m.Globals() && (m.view, r) == SysCall(old(m.view), old(ctx.eax), ctx).value
    ensures r.eax == if old(ctx.eax) == IDLE || old(ctx.eax) == EXIT then 0 else 0xFFFF_FFFF
    ensures forall c: Context :: old(allocated(c)) && c != r ==> c.eax == old(c.eax)
  {
    hide Machine.Linked;
    var operation := ctx.eax;
    if operation == IDLE || operation == EXIT {
      r := Answer(m, operation, ctx);
    } else {
      r := ctx;
      SetResult(m, r, 0xFFFF_FFFF);
    }
  }

  /** sys_call between calls: the context handed back is the caller's, the first one saved or that of a
      live process; its eax is 0, or 0xFFFFFFFF for an operation that is not supported, and no other
      context is written. */
  method SystemCall(m: Machine, ctx: Context) returns (r: Context)
    requires m.Valid() && SysCall(m.view, ctx.eax, ctx).Some?
    modifies m, m.readyQ, m.blockedQ, m.suspReadyQ, m.suspBlockedQ
    modifies m.view.attr.Keys`next, m.view.attr.Keys`executionState, m.view.attr.Keys`stackPtr
    modifies Contexts(m, ctx)
    ensures m.Valid() && (m.view, r) == SysCall(old(m.view), old(ctx.eax), ctx).value
    ensures r in old(Contexts(m, ctx))
    ensures r.eax == if old(ctx.eax) == IDLE || old(ctx.eax) == EXIT then 0 else 0xFFFF_FFFF
    ensures forall c: Context :: old(allocated(c)) && c != r ==> c.eax == old(c.eax)
  {
    SysCallInv(m.view, ctx.eax, ctx);
    ResumedContext(m.view, ctx.eax, ctx);
    if m.currentProcess != null {
      forall q ensures m.currentProcess !in List(m.view.queues, q) { CurrentUnlisted(m.view, q); }
      CurrentUnlisted(m.view, Ready);
    }
    r := Call(m, ctx);
  }

  /** The resumed context is the caller's, the first one saved, or that of a live process. */
  lemma ResumedContext(s: State, op: Word, ctx: Context)
    requires Inv(s) && SysCall(s, op, ctx).Some?
    ensures var r := SysCall(s, op, ctx).value.1;
            r == ctx || s.initial == Some(r) || exists p :: p in s.attr && s.attr[p].ctx == r
  {
  }
}
