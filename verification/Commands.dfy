/** The PCB commands of user/interface.c, without the text they print. */
module Commands {
  import opened Common
  import opened CStrings
  import opened Pcbs
  import opened Scheduler
  import opened Steps
  import opened Kernel

  /** The bytes of process_class, which lies behind the 8 bytes of process_name (include/pcb.h:22-31). */
  function ClassBytes(cls: ProcessClass): seq<Byte> {
    [if cls.SYSTEM_PROCESS? then 1 else 0, 0, 0, 0]
  }

  /** The name strcmp reads in a PCB that load has filled: strcpy does not look at the length, and the
      fields assigned after it overwrite what does not fit. */
  function StoredName(name: CStr, cls: ProcessClass): CStr {
    if |name| < 8 then name
    else
      var bytes: seq<Byte> := name[..8] + ClassBytes(cls);
      assert bytes[9] == 0;
      Content(bytes)
  }

  /** What stays of a name that does not fit: 8 characters, and a byte 1 behind them in a system process. */
  lemma StoredNameIs(name: CStr, cls: ProcessClass)
    requires |name| >= 8
    ensures StoredName(name, cls) == name[..8] + if cls.SYSTEM_PROCESS? then [1] else []
  {
    var bytes: seq<Byte> := name[..8] + ClassBytes(cls);
    var n := if cls.SYSTEM_PROCESS? then 9 else 8;
    assert bytes[..n] == name[..8] + if cls.SYSTEM_PROCESS? then [1] else [];
    assert bytes[n] == 0 && 0 !in bytes[..n];
    ContentAt(bytes, n);
  }

  /** A process has the name it was loaded with exactly when the name has at most 7 characters, or 8 in the
      case of a user process, or 8 and a byte 1 in the case of a system process. */
  lemma StoredNameIff(name: CStr, cls: ProcessClass)
    ensures StoredName(name, cls) == name <==>
              || |name| < 8
              || (|name| == 8 && cls.USER_APP?)
              || (|name| == 9 && name[8] == 1 && cls.SYSTEM_PROCESS?)
  {
    if |name| >= 8 {
      StoredNameIs(name, cls);
      assert name == name[..8] + name[8..];
      if cls.SYSTEM_PROCESS? && |name| == 9 {
        assert name[8..] == [name[8]];
      }
      if StoredName(name, cls) == name && cls.SYSTEM_PROCESS? {
        assert |name| == 9 && name[8] == StoredName(name, cls)[8] == 1;
      }
    }
  }

  /** The longest name that strcpy copies without reaching the link of the PCB (offset 1052). */
  const LONGEST_NAME: nat := 1051

  /** load (interface.c:798-818). `allocate` returns fresh memory; its link field is taken to be null. */
  method LoadProcess(m: Machine, name: CStr, cls: ProcessClass, priority: int) returns (p: Pcb)
    requires m.Linked() && |name| <= LONGEST_NAME
    modifies m`readyQ, m`blockedQ, m`suspReadyQ, m`suspBlockedQ, m`view
    modifies m.readyQ, m.blockedQ, m.suspReadyQ, m.suspBlockedQ, m.view.attr.Keys`next
    ensures m.Linked() && fresh(p) && p !in old(m.view.attr)
    ensures p in m.view.attr && Load(old(m.view), p, m.view.attr[p]) == Some(m.view)
    ensures var a := m.view.attr[p];
      a == Attributes(StoredName(name, cls), cls, priority, READY, NOT_SUSPENDED, a.ctx) && fresh(a.ctx)
  {
    hide Machine.Linked;
    var ctx := new Context(0);
    p := new Pcb(StoredName(name, cls), cls, priority, ctx);
    m.Admit(p);
    m.PcbInsert(p);
  }

  /** The check on a name that delete makes (interface.c:475). */
  method NameMissing(name: Option<CStr>) returns (missing: bool)
    ensures missing <==> name.None? || name.value == []
  {
    if name.None? {
      return true;
    }
    var len := StrLen(name.value + [0]);
    ContentAt(name.value + [0], |name.value|);
    return len == 0;
  }

  /** delete_pcb_command (interface.c:472-511). */
  method DeletePcbCommand(m: Machine, name: Option<CStr>)
    requires m.Linked()
    modifies m`view, m.readyQ, m.blockedQ, m.suspReadyQ, m.suspBlockedQ, m.view.attr.Keys`next
    ensures m.Linked() && m.view == Delete(old(m.view), name).value
  {
    hide Machine.Linked;
    var missing := NameMissing(name);
    if !missing {
      var pcb := m.PcbFind(name.value);
      if pcb != null && pcb.processClass != SYSTEM_PROCESS {
        m.Discard(pcb);
      }
    }
  }

  /** suspend_pcb_command (interface.c:513-559). The usage message for an empty name does not return. */
  method SuspendPcbCommand(m: Machine, name: CStr)
    requires m.Linked() && Suspend(m.view, name).Some?
    modifies m`readyQ, m`blockedQ, m`suspReadyQ, m`suspBlockedQ, m`view
    modifies m.readyQ, m.blockedQ, m.suspReadyQ, m.suspBlockedQ, m.view.attr.Keys
    ensures m.Linked() && m.view == Suspend(old(m.view), name).value
  {
    hide Machine.Linked;
    var pcb := m.PcbFind(name);
    if pcb != null {
      if pcb.processClass != SYSTEM_PROCESS && pcb.dispatchingState != SUSPENDED {
        m.Refile(pcb, pcb.executionState, SUSPENDED, pcb.processPriority);
      }
    }
  }

  /** The checks on a name that resume, block and unblock share (interface.c:564-578, 613-627,
      671-685). */
  method NameRefused(name: Option<CStr>) returns (refused: bool)
    ensures refused <==> BadName(name)
  {
    if name.None? {
      return true;
    }
    var len := StrLen(name.value + [0]);
    ContentAt(name.value + [0], |name.value|);
    return len > 8;
  }

  /** resume_pcb_command (interface.c:561-608). */
  method ResumePcbCommand(m: Machine, name: Option<CStr>)
    requires m.Linked() && Resume(m.view, name).Some?
    modifies m`readyQ, m`blockedQ, m`suspReadyQ, m`suspBlockedQ, m`view
    modifies m.readyQ, m.blockedQ, m.suspReadyQ, m.suspBlockedQ, m.view.attr.Keys
    ensures m.Linked() && m.view == Resume(old(m.view), name).value
  {
    hide Machine.Linked;
    var refused := NameRefused(name);
    if refused {
      return;
    }
    var pcb := m.PcbFind(name.value);
    if pcb == null {
      return;
    }
    m.Refile(pcb, pcb.executionState, NOT_SUSPENDED, pcb.processPriority);
  }

  /** block_pcb_command (interface.c:610-666). */
  method BlockPcbCommand(m: Machine, name: Option<CStr>)
    requires m.Linked() && Block(m.view, name).Some?
    modifies m`readyQ, m`blockedQ, m`suspReadyQ, m`suspBlockedQ, m`view
    modifies m.readyQ, m.blockedQ, m.suspReadyQ, m.suspBlockedQ, m.view.attr.Keys
    ensures m.Linked() && m.view == Block(old(m.view), name).value
  {
    hide Machine.Linked;
    var refused := NameRefused(name);
    if refused {
      return;
    }
    var pcb := m.PcbFind(name.value);
    if pcb == null {
      return;
    }
    if pcb.processClass == SYSTEM_PROCESS {
      return;
    }
    m.Refile(pcb, BLOCKED, pcb.dispatchingState, pcb.processPriority);
  }

  /** unblock_pcb_command (interface.c:668-715). */
  method UnblockPcbCommand(m: Machine, name: Option<CStr>)
    requires m.Linked() && Unblock(m.view, name).Some?
    modifies m`readyQ, m`blockedQ, m`suspReadyQ, m`suspBlockedQ, m`view
    modifies m.readyQ, m.blockedQ, m.suspReadyQ, m.suspBlockedQ, m.view.attr.Keys
    ensures m.Linked() && m.view == Unblock(old(m.view), name).value
  {
    hide Machine.Linked;
    var refused := NameRefused(name);
    if refused {
      return;
    }
    var pcb := m.PcbFind(name.value);
    if pcb == null {
      return;
    }
    m.Refile(pcb, READY, pcb.dispatchingState, pcb.processPriority);
  }

  /** No command touches the variables of sys_call.c. */
  lemma LeavesDispatcher(s: State, e: Event)
    requires Step(s, e).Some? && !e.ELoad? && !e.ESysCall?
    ensures var s' := Step(s, e).value;
      s'.current == s.current && s'.initial == s.initial && s'.insertFlag == s.insertFlag
  {
  }

  /** Any command on a machine that is valid between calls leaves it valid, in the state the
      specification gives. */
  method Perform(m: Machine, e: Event)
    requires m.Valid() && Step(m.view, e).Some? && !e.ELoad? && !e.ESysCall?
    modifies m`readyQ, m`blockedQ, m`suspReadyQ, m`suspBlockedQ, m`view
    modifies m.readyQ, m.blockedQ, m.suspReadyQ, m.suspBlockedQ, m.view.attr.Keys
    ensures m.Valid() && m.view == Step(old(m.view), e).value
  {
    StepInv(m.view, e);
    LeavesDispatcher(m.view, e);
    PerformLinked(m, e);
  }

  method PerformLinked(m: Machine, e: Event)
    requires m.Linked() && Step(m.view, e).Some? && !e.ELoad? && !e.ESysCall?
    modifies m`readyQ, m`blockedQ, m`suspReadyQ, m`suspBlockedQ, m`view
    modifies m.readyQ, m.blockedQ, m.suspReadyQ, m.suspBlockedQ, m.view.attr.Keys
    ensures m.Linked() && m.view == Step(old(m.view), e).value
  {
    match e {
      case EDelete(name) => DeletePcbCommand(m, name);
      case ESuspend(name) => SuspendPcbCommand(m, name);
      case EResume(name) => ResumePcbCommand(m, name);
      case EBlock(name) => BlockPcbCommand(m, name);
      case EUnblock(name) => UnblockPcbCommand(m, name);
      case ESetPriority(name, x) => var _ := m.PcbSetPriority(name, x);
    }
  }

  /** load on a machine that is valid between calls. */
  method Start(m: Machine, name: CStr, cls: ProcessClass, priority: int) returns (p: Pcb)
    requires m.Valid() && |name| <= LONGEST_NAME
    modifies m`readyQ, m`blockedQ, m`suspReadyQ, m`suspBlockedQ, m`view
    modifies m.readyQ, m.blockedQ, m.suspReadyQ, m.suspBlockedQ, m.view.attr.Keys`next
    ensures m.Valid() && fresh(p) && p !in old(m.view.attr) && p in m.view.attr
    ensures Step(old(m.view), ELoad(p, m.view.attr[p])) == Some(m.view)
    ensures var a := m.view.attr[p];
      a == Attributes(StoredName(name, cls), cls, priority, READY, NOT_SUSPENDED, a.ctx) && fresh(a.ctx)
  {
    ghost var s := m.view;
    p := LoadProcess(m, name, cls, priority);
    LoadInv(s, p, m.view.attr[p]);
  }
}
