/**
 Processes at the level of bytes, over whole runs: the frames that system calls push stay on the stacks of
 the processes until each is dispatched again. This joins the queues and contexts of module Runs to the
 pushes and pops of module ContextSwitch, on the memory that module Capacity says the processes have.
 */
module Stacks {
  import opened Common
  import opened Pcbs
  import opened Scheduler
  import opened Steps
  import opened Runs
  import opened ContextSwitch
  import opened Capacity
  import opened MemoryMap
  import Heap = Allocations

  /** What the processor sees of an event: registers, stack pointer and memory when it begins, memory after
      the pushes of a system call, and memory when it is over. A load starts its process at `entry`. */
  datatype Moment = Moment(entry: Word, regs: Regs, esp: int, before: Memory, pushed: Memory, after: Memory)

  /** What a process finds again: its registers, its stack pointer and what its stack holds. */
  datatype Point = Point(regs: Regs, esp: int, mem: Memory)

  /** a lies in the stack of the PCB at address pcb. */
  predicate InStack(pcb: int, a: int) {
    pcb + STACK_OFFSET <= a < StackEnd(pcb)
  }

  function StackEnd(pcb: int): int {
    pcb + STACK_OFFSET + STACK_SIZE
  }

  // ------------------------------------------------------------ what the rest of the system does

  /** The stack of every process but the running one is the same in m' as in m. */
  ghost predicate Spares(es: seq<Event>, m: Memory, m': Memory)
    requires Run(es).Some?
  {
    var s := Run(es).value;
    forall p, a :: p in s.attr && s.current != Some(p) && InStack(Address(es, p), a) ==> m'(a) == m(a)
  }

  /** The registers a new process starts with. */
  function Birth(es: seq<Event>, entry: Word): Regs
    requires Run(es).Some? && |Loaded(es)| <= 62
  {
    NextIsSum(es);
    FirstRegs(NextAddress(es), entry)
  }

  /** load after the run es: the first frame is where the context is, with the words load_pcb writes. */
  ghost predicate Loads(es: seq<Event>, e: Event, t: Moment, addr: Context -> Word)
    requires Run(es).Some? && |Loaded(es)| <= 62 && e.ELoad?
  {
    NextIsSum(es);
    var f := FirstFrame(NextAddress(es));
    && addr(e.a.ctx) == f
    && Words(t.after, f, FRAME_WORDS) == Frame(Birth(es, t.entry), f)
    && Spares(es, t.before, t.after)
  }

  /** The stack has room for a system call: a process is on its own, kmain on one below the heap. */
  ghost predicate OnStack(es: seq<Event>, esp: int)
    requires Run(es).Some?
  {
    var c := Run(es).value.current;
    68 <= esp < 0x1_0000_0000
    && if c.Some? then InStack(Address(es, c.value), esp - 68) && esp <= StackEnd(Address(es, c.value))
       else esp <= KHEAP_BASE
  }

  /** The eax that sys_call answers with. */
  function Result(op: Word): Word {
    if op == IDLE || op == EXIT then 0 else 0xFFFF_FFFF
  }

  /** A system call after the run es: the pushes, and then the C code, which uses the caller's stack below
      the frame only and writes the result into the context it returns. */
  ghost predicate Calls(es: seq<Event>, e: Event, t: Moment, addr: Context -> Word)
    requires Run(es).Some? && e.ESysCall? && SysCall(Run(es).value, e.op, e.ctx).Some?
  {
    var s, r := Run(es).value, SysCall(Run(es).value, e.op, e.ctx).value.1;
    && OnStack(es, t.esp)
    && addr(e.ctx) == t.esp - 64
    && Pushed(t.before, t.pushed, t.regs, t.esp)
    && forall p, a :: p in s.attr && InStack(Address(es, p), a) && (s.current == Some(p) ==> t.esp - 64 <= a)
         ==> t.after(a) == Store32(t.pushed, addr(r) + 4 * EAX, Result(e.op))(a)
  }

  /** The moments ms belong to the run es: between two events and during a command the running process
      changes no other stack, and loads and system calls do what the code does. addr says where contexts are. */
  ghost predicate Genuine(es: seq<Event>, ms: seq<Moment>, addr: Context -> Word)
    requires Run(es).Some? && |Loaded(es)| <= 62
    decreases |es|
  {
    if es == [] then ms == [] else
      FewerBefore(es);
      |ms| == |es| &&
      var b, t := Before(es), ms[|ms| - 1];
      && Genuine(b, ms[..|ms| - 1], addr)
      && (b != [] ==> Spares(b, ms[|ms| - 2].after, t.before))
      && match Last(es)
         case ELoad(_, _) => Loads(b, Last(es), t, addr)
         case ESysCall(_, _) => Calls(b, Last(es), t, addr)
         case _ => Spares(b, t.before, t.after)
  }

  // ------------------------------------------------------------ where a process was left

  /** Where p was left: at its own last IDLE, or where load had it start. */
  function LastPoint(es: seq<Event>, ms: seq<Moment>, p: Pcb): Option<Point>
    requires Run(es).Some? && |Loaded(es)| <= 62 && |ms| == |es|
    decreases |es|
  {
    if es == [] then None else
      FewerBefore(es);
      var b, e, t := Before(es), Last(es), ms[|ms| - 1];
      if e.ELoad? && e.p == p then
        Some(Point(Birth(b, t.entry), FirstFrame(NextAddress(b)) + 4 * FRAME_WORDS, t.after))
      else if e.ESysCall? && e.op == IDLE && Run(b).value.current == Some(p) then
        Some(Point(t.regs, t.esp, t.before))
      else LastPoint(b, ms[..|ms| - 1], p)
  }

  /** Memory m, with the frame at f on the stack of the PCB at address pcb, leads back to the point pt. */
  ghost predicate LeadsTo(m: Memory, pcb: int, f: int, pt: Point) {
    && pcb + STACK_OFFSET <= f && f + 4 * FRAME_WORDS == pt.esp <= StackEnd(pcb)
    && Restored(Words(m, f, FRAME_WORDS)) == pt.regs
    && forall a :: pt.esp <= a < StackEnd(pcb) ==> m(a) == pt.mem(a)
  }

  /** The saved context of p in memory m leads back to where p was left. */
  ghost predicate Kept(es: seq<Event>, ms: seq<Moment>, addr: Context -> Word, m: Memory, p: Pcb)
    requires Run(es).Some? && |Loaded(es)| <= 62 && |ms| == |es| && p in Run(es).value.attr
  {
    var pt := LastPoint(es, ms, p);
    pt.Some? && LeadsTo(m, Address(es, p), addr(Run(es).value.attr[p].ctx), pt.value)
  }

  /** All processes that do not run are kept. */
  ghost predicate AllKept(es: seq<Event>, ms: seq<Moment>, addr: Context -> Word, m: Memory)
    requires Run(es).Some? && |Loaded(es)| <= 62 && |ms| == |es|
  {
    forall p :: p in Run(es).value.attr && Run(es).value.current != Some(p) ==> Kept(es, ms, addr, m, p)
  }

  // ------------------------------------------------------------ frames

  lemma SameStack(m: Memory, m': Memory, pcb: int, f: int, pt: Point)
    requires LeadsTo(m, pcb, f, pt) && forall a :: InStack(pcb, a) ==> m'(a) == m(a)
    ensures LeadsTo(m', pcb, f, pt)
  {
    assert forall a :: f <= a < f + 4 * FRAME_WORDS ==> InStack(pcb, a);
    WordsFrame(m, m', f, FRAME_WORDS);
    assert forall a :: pt.esp <= a < StackEnd(pcb) ==> InStack(pcb, a);
  }

  lemma KeptFrame(es: seq<Event>, ms: seq<Moment>, addr: Context -> Word, m: Memory, p: Pcb, a: int)
    requires Run(es).Some? && |Loaded(es)| <= 62 && |ms| == |es| && p in Run(es).value.attr
    requires AllKept(es, ms, addr, m) && Run(es).value.current != Some(p)
    ensures Kept(es, ms, addr, m, p)
    ensures var f := addr(Run(es).value.attr[p].ctx); f <= a < f + 4 * FRAME_WORDS ==> InStack(Address(es, p), a)
  {
    hide Run;
    hide LastPoint;
    hide Words;
    hide Restored;
    assert Kept(es, ms, addr, m, p);
  }

  lemma AllSpared(es: seq<Event>, ms: seq<Moment>, addr: Context -> Word, m: Memory, m': Memory)
    requires Run(es).Some? && |Loaded(es)| <= 62 && |ms| == |es|
    requires AllKept(es, ms, addr, m) && Spares(es, m, m')
    ensures AllKept(es, ms, addr, m')
  {
    var s := Run(es).value;
    forall p | p in s.attr && s.current != Some(p) ensures Kept(es, ms, addr, m', p) {
      assert Kept(es, ms, addr, m, p);
      SameStack(m, m', Address(es, p), addr(s.attr[p].ctx), LastPoint(es, ms, p).value);
    }
  }

  /** The stacks of two live processes have no byte in common, and all lie in the heap. */
  lemma StacksApart(es: seq<Event>, p: Pcb, q: Pcb, a: int)
    requires Run(es).Some? && |Loaded(es)| <= 62 && p in Run(es).value.attr && q in Run(es).value.attr && p != q
    requires InStack(Address(es, p), a)
    ensures !InStack(Address(es, q), a)
  {
    RunInvariant(es);
    ProcessesApart(es, p, q);
  }

  lemma InHeap(es: seq<Event>, p: Pcb, a: int)
    requires Run(es).Some? && |Loaded(es)| <= 62 && p in Run(es).value.attr && InStack(Address(es, p), a)
    ensures KHEAP_BASE < a
  {
    RunInvariant(es);
    AddressBelow(es, p);
  }

  lemma RestoredFrame(r: Regs, e: Word)
    ensures Restored(Frame(r, e)) == r
  {
    RestoreInvertsSave(r, e, r.eax);
    assert Frame(r, e)[EAX := r.eax] == Frame(r, e);
  }

  lemma RestoredEax(ws: seq<Word>, v: Word)
    requires |ws| == FRAME_WORDS
    ensures Restored(ws[EAX := v]) == Restored(ws).(eax := v)
  {
  }

  /** The pushes reach no stack but the caller's own. */
  lemma PushSpares(es: seq<Event>, t: Moment)
    requires Run(es).Some? && |Loaded(es)| <= 62 && Inv(Run(es).value)
    requires OnStack(es, t.esp) && Pushed(t.before, t.pushed, t.regs, t.esp)
    ensures Spares(es, t.before, t.pushed)
  {
    hide Inv;
    var s := Run(es).value;
    forall p, a | p in s.attr && s.current != Some(p) && InStack(Address(es, p), a) ensures t.pushed(a) == t.before(a) {
      NotPushed(es, t.esp, p, a);
    }
  }

  lemma NotPushed(es: seq<Event>, esp: int, p: Pcb, a: int)
    requires Run(es).Some? && |Loaded(es)| <= 62 && Inv(Run(es).value) && OnStack(es, esp)
    requires p in Run(es).value.attr && Run(es).value.current != Some(p) && InStack(Address(es, p), a)
    ensures a < esp - 68 || esp <= a
  {
    var s := Run(es).value;
    if s.current.Some? {
      CurrentLive(s);
      StacksApart(es, p, s.current.value, a);
    } else {
      InHeap(es, p, a);
    }
  }

  lemma CurrentLive(s: State)
    requires Inv(s) && s.current.Some?
    ensures s.current.value in s.attr
  {
  }

  // ------------------------------------------------------------ each step

  /** Only IDLE and EXIT change who runs. */
  lemma RunsOn(s: State, e: Event)
    requires Step(s, e).Some? && !(e.ESysCall? && (e.op == IDLE || e.op == EXIT))
    ensures Step(s, e).value.current == s.current
  {
    if !e.ELoad? && !e.ESysCall? { CommandKeeps(s, e); }
  }

  /** How a process that lives and does not run came through a step. */
  lemma CameThrough(es: seq<Event>, p: Pcb)
    requires es != [] && Run(es).Some? && !Ended(es)
    requires p in Run(es).value.attr && Run(es).value.current != Some(p)
    ensures var s, s', e := Run(Before(es)).value, Run(es).value, Last(es);
      if e.ELoad? && e.p == p then s'.attr[p] == e.a
      else
        && p in s.attr
        && if s.current == Some(p) then e.ESysCall? && e.op == IDLE && s'.attr[p].ctx == e.ctx
           else s'.attr[p].ctx == s.attr[p].ctx
  {
    hide Inv;
    hide Step;
    RunStep(es);
    var s, e := Run(Before(es)).value, Last(es);
    StepFollows(s, e);
    if !(e.ESysCall? && (e.op == IDLE || e.op == EXIT)) {
      RunsOn(s, e);
    }
  }

  /** A process that a step neither loads nor lets yield is still to be found where it was. */
  lemma SamePoint(es: seq<Event>, ms: seq<Moment>, p: Pcb)
    requires es != [] && Run(es).Some? && |Loaded(es)| <= 62 && |ms| == |es|
    requires !(Last(es).ELoad? && Last(es).p == p) && Run(Before(es)).value.current != Some(p)
    ensures |Loaded(Before(es))| <= 62
    ensures LastPoint(es, ms, p) == LastPoint(Before(es), ms[..|ms| - 1], p) && Address(es, p) == Address(Before(es), p)
  {
    FewerBefore(es);
  }

  lemma PassOn(es: seq<Event>, ms: seq<Moment>, addr: Context -> Word, m: Memory, m': Memory, p: Pcb)
    requires es != [] && Run(es).Some? && |Loaded(es)| <= 62 && |ms| == |es| && |Loaded(Before(es))| <= 62
    requires !(Last(es).ELoad? && Last(es).p == p) && Run(Before(es)).value.current != Some(p)
    requires p in Run(Before(es)).value.attr && p in Run(es).value.attr
    requires Run(es).value.attr[p].ctx == Run(Before(es)).value.attr[p].ctx
    requires Kept(Before(es), ms[..|ms| - 1], addr, m, p)
    requires forall a :: InStack(Address(Before(es), p), a) ==> m'(a) == m(a)
    ensures Kept(es, ms, addr, m', p)
  {
    hide Run;
    hide LeadsTo;
    SamePoint(es, ms, p);
    SameStack(m, m', Address(es, p), addr(Run(es).value.attr[p].ctx), LastPoint(es, ms, p).value);
  }

  lemma CommandKept(es: seq<Event>, ms: seq<Moment>, addr: Context -> Word)
    requires es != [] && Run(es).Some? && !Ended(es) && |Loaded(es)| <= 62 && |ms| == |es| && |Loaded(Before(es))| <= 62
    requires !Last(es).ESysCall?
    requires var t := ms[|ms| - 1];
      && Spares(Before(es), t.before, t.after) && AllKept(Before(es), ms[..|ms| - 1], addr, t.before)
      && (Last(es).ELoad? ==> Loads(Before(es), Last(es), t, addr))
    ensures AllKept(es, ms, addr, ms[|ms| - 1].after)
  {
    hide Run;
    var t := ms[|ms| - 1];
    forall p | p in Run(es).value.attr && Run(es).value.current != Some(p) ensures Kept(es, ms, addr, t.after, p) {
      CameThrough(es, p);
      if Last(es).ELoad? && Last(es).p == p {
        LoadKept(es, ms, addr, p);
      } else {
        PassOn(es, ms, addr, t.before, t.after, p);
      }
    }
  }

  lemma LoadKept(es: seq<Event>, ms: seq<Moment>, addr: Context -> Word, p: Pcb)
    requires es != [] && Run(es).Some? && |Loaded(es)| <= 62 && |ms| == |es| && |Loaded(Before(es))| <= 62
    requires Last(es).ELoad? && Last(es).p == p && Loads(Before(es), Last(es), ms[|ms| - 1], addr)
    requires p in Run(es).value.attr && Run(es).value.attr[p] == Last(es).a
    ensures Kept(es, ms, addr, ms[|ms| - 1].after, p)
  {
    var b, t := Before(es), ms[|ms| - 1];
    var f := FirstFrame(NextAddress(b));
    NextIsSum(b);
    RestoredFrame(Birth(b, t.entry), f);
  }

  // ------------------------------------------------------------ a system call

  /** The process that a system call dispatches did not run before, and resumes the context it has saved. */
  lemma Dispatched(s: State, op: Word, ctx: Context)
    requires Inv(s) && (op == IDLE || op == EXIT) && Items(s, Ready) != []
    ensures SysCall(s, op, ctx).Some?
    ensures var s', r := SysCall(s, op, ctx).value.0, SysCall(s, op, ctx).value.1;
      && s'.current.Some? && s'.current.value in s.attr && s.current != s'.current
      && r == s.attr[s'.current.value].ctx
  {
    hide Inv;
    hide SysCall;
    hide IdleEntry;
    ReadyFrontLive(s);
    if op == IDLE { IdleKeeps(s, ctx); } else { ExitKeeps(s, ctx); }
  }

  lemma NextProcess(es: seq<Event>)
    requires es != [] && Run(es).Some? && !Ended(es)
    requires Last(es).ESysCall? && (Last(es).op == IDLE || Last(es).op == EXIT)
    ensures SysCall(Run(Before(es)).value, Last(es).op, Last(es).ctx).Some? && Run(es).value.current.Some?
    ensures var s, p := Run(Before(es)).value, Run(es).value.current.value;
      p in s.attr && s.current != Some(p) && SysCall(s, Last(es).op, Last(es).ctx).value.1 == s.attr[p].ctx
  {
    hide Inv;
    hide SysCall;
    RunStep(es);
    assert !HandsBack(Run(Before(es)).value, Last(es));
    Dispatched(Run(Before(es)).value, Last(es).op, Last(es).ctx);
  }

  /** Its frame lies on its own stack. */
  lemma NextFrame(es: seq<Event>, ms: seq<Moment>, addr: Context -> Word, m: Memory, a: int)
    requires es != [] && Run(es).Some? && !Ended(es) && |Loaded(es)| <= 62 && |ms| == |es| && |Loaded(Before(es))| <= 62
    requires Last(es).ESysCall? && (Last(es).op == IDLE || Last(es).op == EXIT)
    requires AllKept(Before(es), ms[..|ms| - 1], addr, m)
    ensures SysCall(Run(Before(es)).value, Last(es).op, Last(es).ctx).Some? && Run(es).value.current.Some?
    ensures var p := Run(es).value.current.value;
      var r := addr(SysCall(Run(Before(es)).value, Last(es).op, Last(es).ctx).value.1);
      && p in Run(Before(es)).value.attr && Kept(Before(es), ms[..|ms| - 1], addr, m, p)
      && (r <= a < r + 4 * FRAME_WORDS ==> InStack(Address(Before(es), p), a))
  {
    hide Run;
    hide SysCall;
    hide Kept;
    hide AllKept;
    RunStep(es);
    NextProcess(es);
    KeptFrame(Before(es), ms[..|ms| - 1], addr, m, Run(es).value.current.value, a);
  }

  lemma Unsupported(s: State, op: Word, ctx: Context)
    requires op != IDLE && op != EXIT
    ensures SysCall(s, op, ctx) == Some((s, ctx))
  {
  }

  /** The result goes into the frame of the process that runs next, or of the caller: into no other stack. */
  lemma ResultSpares(es: seq<Event>, ms: seq<Moment>, addr: Context -> Word, p: Pcb, a: int)
    requires es != [] && Run(es).Some? && !Ended(es) && |Loaded(es)| <= 62 && |ms| == |es| && |Loaded(Before(es))| <= 62
    requires Last(es).ESysCall? && SysCall(Run(Before(es)).value, Last(es).op, Last(es).ctx).Some?
    requires Calls(Before(es), Last(es), ms[|ms| - 1], addr)
    requires AllKept(Before(es), ms[..|ms| - 1], addr, ms[|ms| - 1].pushed)
    requires p in Run(Before(es)).value.attr && Run(es).value.current != Some(p) && InStack(Address(Before(es), p), a)
    ensures var r := addr(SysCall(Run(Before(es)).value, Last(es).op, Last(es).ctx).value.1);
      a < r + 4 * EAX || r + 4 * EAX + 4 <= a
  {
    hide Run;
    hide Inv;
    hide SysCall;
    hide Kept;
    var b, e, t := Before(es), Last(es), ms[|ms| - 1];
    RunStep(es);
    if e.op == IDLE || e.op == EXIT {
      NextFrame(es, ms, addr, t.pushed, a);
      StacksApart(b, p, Run(es).value.current.value, a);
    } else {
      Unsupported(Run(b).value, e.op, e.ctx);
      NotPushed(b, t.esp, p, a);
    }
  }
  /** The stack of a process that does not run afterwards is, from its frame on, as the pushes left it. */
  lemma AfterCall(es: seq<Event>, ms: seq<Moment>, addr: Context -> Word, p: Pcb, a: int)
    requires es != [] && Run(es).Some? && !Ended(es) && |Loaded(es)| <= 62 && |ms| == |es| && |Loaded(Before(es))| <= 62
    requires Last(es).ESysCall? && SysCall(Run(Before(es)).value, Last(es).op, Last(es).ctx).Some?
    requires Calls(Before(es), Last(es), ms[|ms| - 1], addr)
    requires AllKept(Before(es), ms[..|ms| - 1], addr, ms[|ms| - 1].pushed)
    requires p in Run(Before(es)).value.attr && Run(es).value.current != Some(p) && InStack(Address(Before(es), p), a)
    requires Run(Before(es)).value.current == Some(p) ==> ms[|ms| - 1].esp - 64 <= a
    ensures ms[|ms| - 1].after(a) == ms[|ms| - 1].pushed(a)
  {
    hide Run;
    hide SysCall;
    hide AllKept;
    ResultSpares(es, ms, addr, p, a);
  }

  /** A process that yields is left with its registers in the frame. */
  lemma YieldKept(es: seq<Event>, ms: seq<Moment>, addr: Context -> Word, p: Pcb)
    requires es != [] && Run(es).Some? && |Loaded(es)| <= 62 && |ms| == |es|
    requires Run(Before(es)).Some? && |Loaded(Before(es))| <= 62
    requires Last(es).ESysCall? && Last(es).op == IDLE && Run(Before(es)).value.current == Some(p)
    requires var t := ms[|ms| - 1];
      && OnStack(Before(es), t.esp) && addr(Last(es).ctx) == t.esp - 64 && Pushed(t.before, t.pushed, t.regs, t.esp)
      && forall a :: InStack(Address(Before(es), p), a) && t.esp - 64 <= a ==> t.after(a) == t.pushed(a)
    requires p in Run(es).value.attr && Run(es).value.attr[p].ctx == Last(es).ctx
    ensures Kept(es, ms, addr, ms[|ms| - 1].after, p)
  {
    hide Run;
    hide LeadsTo;
    hide Pushed;
    YieldPoint(es, ms, p);
    YieldLeads(ms[|ms| - 1], Address(Before(es), p));
  }

  lemma YieldLeads(t: Moment, pcb: int)
    requires 68 <= t.esp < 0x1_0000_0000 && InStack(pcb, t.esp - 68) && t.esp <= StackEnd(pcb)
    requires Pushed(t.before, t.pushed, t.regs, t.esp)
    requires forall a :: InStack(pcb, a) && t.esp - 64 <= a ==> t.after(a) == t.pushed(a)
    ensures LeadsTo(t.after, pcb, t.esp - 64, Point(t.regs, t.esp, t.before))
  {
    hide Restored;
    hide Frame;
    assert forall a :: t.esp - 64 <= a < StackEnd(pcb) ==> InStack(pcb, a);
    WordsFrame(t.pushed, t.after, t.esp - 64, FRAME_WORDS);
    RestoredFrame(t.regs, t.esp - 32);
  }

  lemma YieldPoint(es: seq<Event>, ms: seq<Moment>, p: Pcb)
    requires es != [] && Run(es).Some? && |Loaded(es)| <= 62 && |ms| == |es|
    requires Last(es).ESysCall? && Last(es).op == IDLE && Run(Before(es)).value.current == Some(p)
    ensures Address(es, p) == Address(Before(es), p)
    ensures var t := ms[|ms| - 1]; LastPoint(es, ms, p) == Some(Point(t.regs, t.esp, t.before))
  {
  }

  lemma CallKept(es: seq<Event>, ms: seq<Moment>, addr: Context -> Word)
    requires es != [] && Run(es).Some? && !Ended(es) && |Loaded(es)| <= 62 && |ms| == |es| && |Loaded(Before(es))| <= 62
    requires Last(es).ESysCall? && SysCall(Run(Before(es)).value, Last(es).op, Last(es).ctx).Some?
    requires Calls(Before(es), Last(es), ms[|ms| - 1], addr)
    requires AllKept(Before(es), ms[..|ms| - 1], addr, ms[|ms| - 1].pushed)
    ensures AllKept(es, ms, addr, ms[|ms| - 1].after)
  {
    hide Run;
    hide SysCall;
    hide Kept;
    hide Inv;
    RunStep(es);
    var b, t := Before(es), ms[|ms| - 1];
    forall p | p in Run(es).value.attr && Run(es).value.current != Some(p) ensures Kept(es, ms, addr, t.after, p) {
      CameThrough(es, p);
      forall a | InStack(Address(b, p), a) && (Run(b).value.current == Some(p) ==> t.esp - 64 <= a)
        ensures t.after(a) == t.pushed(a)
      {
        AfterCall(es, ms, addr, p, a);
      }
      if Run(b).value.current == Some(p) {
        YieldKept(es, ms, addr, p);
      } else {
        PassOn(es, ms, addr, t.pushed, t.after, p);
      }
    }
  }

  // ------------------------------------------------------------ every run

  /** As long as memory lasts, the frames of all processes that do not run lead back to where each was left,
      whatever the others have done since. */
  lemma {:induction false} FramesSurvive(es: seq<Event>, ms: seq<Moment>, addr: Context -> Word)
    requires es != [] && Run(es).Some? && !Ended(es) && |Loaded(es)| <= 62 && Genuine(es, ms, addr)
    ensures |ms| == |es| && AllKept(es, ms, addr, ms[|ms| - 1].after)
    decreases |es|
  {
    var b, e, t := Before(es), Last(es), ms[|ms| - 1];
    KeptTillNow(es, ms, addr);
    if e.ESysCall? {
      RunStep(es);
      PushSpares(b, t);
      AllSpared(b, ms[..|ms| - 1], addr, t.before, t.pushed);
      CallKept(es, ms, addr);
    } else {
      CommandKept(es, ms, addr);
    }
  }

  /** The same at the moment an event begins, of the run before it. */
  lemma {:induction false} KeptTillNow(es: seq<Event>, ms: seq<Moment>, addr: Context -> Word)
    requires es != [] && Run(es).Some? && |Loaded(es)| <= 62 && Genuine(es, ms, addr)
    ensures |ms| == |es| && |Loaded(Before(es))| <= 62
    ensures AllKept(Before(es), ms[..|ms| - 1], addr, ms[|ms| - 1].before)
    decreases |es|, 0
  {
    var b := Before(es);
    FewerBefore(es);
    if b != [] {
      FramesSurvive(b, ms[..|ms| - 1], addr);
      AllSpared(b, ms[..|ms| - 1], addr, ms[|ms| - 2].after, ms[|ms| - 1].before);
    }
  }

  /** What the pops find. */
  lemma FrameFound(es: seq<Event>, ms: seq<Moment>, addr: Context -> Word)
    requires es != [] && Run(es).Some? && !Ended(es) && |Loaded(es)| <= 62 && Genuine(es, ms, addr)
    requires Last(es).ESysCall? && (Last(es).op == IDLE || Last(es).op == EXIT)
    requires SysCall(Run(Before(es)).value, Last(es).op, Last(es).ctx).Some?
    ensures |ms| == |es| && |Loaded(Before(es))| <= 62 && Run(es).value.current.Some?
    ensures var f := addr(SysCall(Run(Before(es)).value, Last(es).op, Last(es).ctx).value.1);
      var p, m := Run(es).value.current.value, ms[|ms| - 1].after;
      var pt := LastPoint(Before(es), ms[..|ms| - 1], p);
      pt.Some? && LeadsTo(m, Address(es, p), f, pt.value.(regs := pt.value.regs.(eax := 0)))
  {
    hide Inv;
    hide LeadsTo;
    hide SysCall;
    var b, t := Before(es), ms[|ms| - 1];
    KeptTillNow(es, ms, addr);
    RunStep(es);
    PushSpares(b, t);
    AllSpared(b, ms[..|ms| - 1], addr, t.before, t.pushed);
    NextProcess(es);
    NextAnswered(b, Last(es), ms[..|ms| - 1], t, addr, Run(es).value.current.value);
  }

  lemma NextAnswered(b: seq<Event>, e: Event, ms: seq<Moment>, t: Moment, addr: Context -> Word, p: Pcb)
    requires Run(b).Some? && |Loaded(b)| <= 62 && |ms| == |b| && AllKept(b, ms, addr, t.pushed)
    requires e.ESysCall? && (e.op == IDLE || e.op == EXIT) && SysCall(Run(b).value, e.op, e.ctx).Some?
    requires p in Run(b).value.attr && Run(b).value.current != Some(p) && Calls(b, e, t, addr)
    requires SysCall(Run(b).value, e.op, e.ctx).value.1 == Run(b).value.attr[p].ctx
    ensures var pt := LastPoint(b, ms, p);
      && pt.Some?
      && LeadsTo(t.after, Address(b, p), addr(Run(b).value.attr[p].ctx),
                 pt.value.(regs := pt.value.regs.(eax := 0)))
  {
    hide Run;
    hide LeadsTo;
    hide SysCall;
    hide LastPoint;
    hide OnStack;
    hide Pushed;
    assert Kept(b, ms, addr, t.pushed, p);
    AnsweredFrame(t.pushed, t.after, Address(b, p), addr(Run(b).value.attr[p].ctx), LastPoint(b, ms, p).value, 0);
  }

  lemma AnsweredFrame(m: Memory, m': Memory, pcb: int, f: int, pt: Point, v: Word)
    requires LeadsTo(m, pcb, f, pt)
    requires forall a :: InStack(pcb, a) && f <= a ==> m'(a) == Store32(m, f + 4 * EAX, v)(a)
    ensures LeadsTo(m', pcb, f, pt.(regs := pt.regs.(eax := v)))
  {
    hide Words;
    hide Restored;
    assert forall a :: f <= a < StackEnd(pcb) ==> InStack(pcb, a);
    WordsAfterStore(m, f, FRAME_WORDS, EAX, v);
    WordsFrame(Store32(m, f + 4 * EAX, v), m', f, FRAME_WORDS);
    RestoredEax(Words(m, f, FRAME_WORDS), v);
  }

  // ------------------------------------------------------------ a whole system call in a run

  /** The bytes sys_call leaves alone: the stacks, of which the caller's from its frame on. */
  ghost predicate Protected(es: seq<Event>, esp: int, a: int)
    requires Run(es).Some?
  {
    var s := Run(es).value;
    exists p :: p in s.attr && InStack(Address(es, p), a) && (s.current == Some(p) ==> esp - 64 <= a)
  }

  lemma CallIsGenuine(es: seq<Event>, ms: seq<Moment>, addr: Context -> Word)
    requires es != [] && |ms| == |es| && Run(es).Some? && |Loaded(es)| <= 62
    requires Run(Before(es)).Some? && |Loaded(Before(es))| <= 62 && Genuine(Before(es), ms[..|ms| - 1], addr)
    requires Before(es) != [] ==> Spares(Before(es), ms[|ms| - 2].after, ms[|ms| - 1].before)
    requires Last(es).ESysCall? && SysCall(Run(Before(es)).value, Last(es).op, Last(es).ctx).Some?
    requires Calls(Before(es), Last(es), ms[|ms| - 1], addr)
    ensures Genuine(es, ms, addr)
  {
    hide Run;
    hide Calls;
    hide Spares;
    hide SysCall;
  }

  lemma GenuineOn(es: seq<Event>, ms: seq<Moment>, e: Event, t: Moment, addr: Context -> Word)
    requires Run(es).Some? && |Loaded(es)| <= 62 && |ms| == |es| && Genuine(es, ms, addr) && Run(es + [e]).Some?
    requires es != [] ==> Spares(es, ms[|ms| - 1].after, t.before)
    requires e.ESysCall? && SysCall(Run(es).value, e.op, e.ctx).Some? && Calls(es, e, t, addr)
    ensures |Loaded(es + [e])| <= 62 && Genuine(es + [e], ms + [t], addr)
  {
    hide Run;
    hide Calls;
    hide Spares;
    hide SysCall;
    hide Genuine;
    assert Before(es + [e]) == es && Last(es + [e]) == e && (ms + [t])[..|ms|] == ms;
    LoadedGrows(es + [e]);
    CallIsGenuine(es + [e], ms + [t], addr);
  }

  lemma Room(es: seq<Event>, esp: int)
    requires Run(es).Some? && OnStack(es, esp)
    ensures 68 <= esp < 0x1_0000_0000
  {
  }

  /** The processor goes on at the point pt, with v in eax, on the stack of the PCB at address pcb. */
  ghost predicate ContinuesAt(cpu: Cpu, pcb: int, pt: Point, v: Word)
    reads cpu
  {
    && cpu.regs == pt.regs.(eax := v) && cpu.esp == pt.esp
    && forall a :: pt.esp <= a < StackEnd(pcb) ==> cpu.mem(a) == pt.mem(a)
  }

  lemma LedTo(cpu: Cpu, pcb: int, f: int, pt: Point, v: Word)
    requires LeadsTo(cpu.mem, pcb, f, pt.(regs := pt.regs.(eax := v)))
    requires cpu.regs == Restored(Words(cpu.mem, f, FRAME_WORDS)) && cpu.esp == f + 64
    ensures ContinuesAt(cpu, pcb, pt, v)
  {
  }

  /** The pushes, the C code and the pops. Whatever sys_call does to bytes that are not protected, the
      process that it dispatches has the registers, the stack pointer and the stack that it was left with,
      but 0 in eax; after an unsupported operation the caller has its own, but -1 in eax. The call is one
      more genuine moment of the run. */
  method SystemCall(cpu: Cpu, r: Word, v: Word, keep: int -> bool, scratch: Memory,
                    ghost es: seq<Event>, ghost ms: seq<Moment>, ghost e: Event, ghost addr: Context -> Word)
    returns (ghost t: Moment)
    requires Run(es).Some? && !Ended(es) && |Loaded(es)| <= 62 && |ms| == |es| && Genuine(es, ms, addr)
    requires e.ESysCall? && Allowed(es, Run(es).value, e) && !HandsBack(Run(es).value, e)
    requires es != [] ==> Spares(es, ms[|ms| - 1].after, cpu.mem)
    requires OnStack(es, cpu.esp) && addr(e.ctx) == cpu.esp - 64
    requires SysCall(Run(es).value, e.op, e.ctx).Some?
    requires r == addr(SysCall(Run(es).value, e.op, e.ctx).value.1) && v == Result(e.op)
    requires forall a :: Protected(es, cpu.esp, a) ==> keep(a)
    modifies cpu
    ensures Run(es + [e]).Some? && !Ended(es + [e]) && |Loaded(es + [e])| <= 62
    ensures t.before == old(cpu.mem) && t.regs == old(cpu.regs) && t.esp == old(cpu.esp) && t.after == cpu.mem
    ensures Genuine(es + [e], ms + [t], addr)
    ensures e.op == IDLE || e.op == EXIT ==>
      && Run(es + [e]).value.current.Some?
      && var p := Run(es + [e]).value.current.value; var pt := LastPoint(es, ms, p);
      pt.Some? && ContinuesAt(cpu, Address(es, p), pt.value, 0)
    ensures e.op != IDLE && e.op != EXIT && Run(es).value.current.Some? ==>
      ContinuesAt(cpu, Address(es, Run(es).value.current.value), Point(t.regs, t.esp, t.before), 0xFFFF_FFFF)
  {
    hide Run;
    hide Genuine;
    hide Calls;
    hide Spares;
    hide SysCall;
    hide Written;
    hide Protected;
    hide LastPoint;
    hide OnStack;
    hide Pushed;
    hide LeadsTo;
    hide ContinuesAt;
    Room(es, cpu.esp);
    cpu.Save();
    t := Moment(0, old(cpu.regs), old(cpu.esp), old(cpu.mem), cpu.mem, Written(cpu.mem, r, v, keep, scratch));
    cpu.mem := Written(cpu.mem, r, v, keep, scratch);
    WrittenCalls(es, e, t, addr, keep, scratch);
    cpu.Restore(r);
    StepOn(es, e);
    GenuineOn(es, ms, e, t, addr);
    if e.op == IDLE || e.op == EXIT {
      Dispatches(es, ms, e, t, addr);
      ghost var p := Run(es + [e]).value.current.value;
      LedTo(cpu, Address(es, p), r, LastPoint(es, ms, p).value, 0);
    } else if Run(es).value.current.Some? {
      Refuses(es, e, t, addr);
      LedTo(cpu, Address(es, Run(es).value.current.value), r, Point(t.regs, t.esp, t.before), 0xFFFF_FFFF);
    }
  }

  /** The result in the context at r, anything in the bytes that are not kept. */
  function Written(m: Memory, r: Word, v: Word, keep: int -> bool, scratch: Memory): Memory {
    x => if keep(x) then Store32(m, r + 4 * EAX, v)(x) else scratch(x)
  }

  lemma WrittenCalls(es: seq<Event>, e: Event, t: Moment, addr: Context -> Word, keep: int -> bool, scratch: Memory)
    requires Run(es).Some? && e.ESysCall? && SysCall(Run(es).value, e.op, e.ctx).Some?
    requires OnStack(es, t.esp) && addr(e.ctx) == t.esp - 64 && Pushed(t.before, t.pushed, t.regs, t.esp)
    requires var r := addr(SysCall(Run(es).value, e.op, e.ctx).value.1);
      t.after == Written(t.pushed, r, Result(e.op), keep, scratch)
    requires forall a :: Protected(es, t.esp, a) ==> keep(a)
    ensures Calls(es, e, t, addr)
  {
    hide Run;
    hide SysCall;
    hide Pushed;
    var s, r := Run(es).value, addr(SysCall(Run(es).value, e.op, e.ctx).value.1);
    forall p, a | p in s.attr && InStack(Address(es, p), a) && (s.current == Some(p) ==> t.esp - 64 <= a)
      ensures t.after(a) == Store32(t.pushed, r + 4 * EAX, Result(e.op))(a)
    {
      assert Protected(es, t.esp, a);
    }
  }

  lemma StepOn(es: seq<Event>, e: Event)
    requires Run(es).Some? && !Ended(es) && Allowed(es, Run(es).value, e) && e.ESysCall? && !HandsBack(Run(es).value, e)
    ensures Run(es + [e]).Some? && !Ended(es + [e]) && Inv(Run(es).value)
  {
    assert Before(es + [e]) == es && Last(es + [e]) == e;
    DispatcherNeverFaults(es, e);
    RunInvariant(es);
  }

  lemma Dispatches(es: seq<Event>, ms: seq<Moment>, e: Event, t: Moment, addr: Context -> Word)
    requires Run(es).Some? && Run(es + [e]).Some? && !Ended(es + [e]) && |Loaded(es)| <= 62 && |Loaded(es + [e])| <= 62
    requires Genuine(es, ms, addr) && Genuine(es + [e], ms + [t], addr)
    requires e.ESysCall? && (e.op == IDLE || e.op == EXIT) && SysCall(Run(es).value, e.op, e.ctx).Some?
    ensures Run(es + [e]).value.current.Some?
    ensures var f, p := addr(SysCall(Run(es).value, e.op, e.ctx).value.1), Run(es + [e]).value.current.value;
      var pt := LastPoint(es, ms, p);
      pt.Some? && LeadsTo(t.after, Address(es, p), f, pt.value.(regs := pt.value.regs.(eax := 0)))
  {
    hide Run;
    hide Genuine;
    hide LeadsTo;
    assert Before(es + [e]) == es && Last(es + [e]) == e && (ms + [t])[..|ms|] == ms;
    FrameFound(es + [e], ms + [t], addr);
  }

  lemma Refuses(es: seq<Event>, e: Event, t: Moment, addr: Context -> Word)
    requires Run(es).Some? && Inv(Run(es).value) && Run(es).value.current.Some?
    requires e.ESysCall? && e.op != IDLE && e.op != EXIT
    requires SysCall(Run(es).value, e.op, e.ctx).Some? && Calls(es, e, t, addr)
    ensures LeadsTo(t.after, Address(es, Run(es).value.current.value),
      addr(SysCall(Run(es).value, e.op, e.ctx).value.1), Point(t.regs.(eax := 0xFFFF_FFFF), t.esp, t.before))
  {
    hide Run;
    hide SysCall;
    hide LeadsTo;
    hide Inv;
    hide Pushed;
    var pcb := Address(es, Run(es).value.current.value);
    Unsupported(Run(es).value, e.op, e.ctx);
    CurrentLive(Run(es).value);
    YieldLeads(t.(after := t.pushed), pcb);
    AnsweredFrame(t.pushed, t.after, pcb, t.esp - 64, Point(t.regs, t.esp, t.before), 0xFFFF_FFFF);
  }
}
