/**
 Process control blocks and one linked queue of them (include/pcb.h and the list surgery of
 user/pcb.c). A queue is refined by the sequence `nodes`: the chain of `next` pointers from
 `front` visits exactly those PCBs, in that order, and ends in null.
 */
module Pcbs {
  import opened Common

  datatype ProcessClass = USER_APP | SYSTEM_PROCESS
  datatype ExecutionState = READY | BLOCKED
  datatype DispatchingState = NOT_SUSPENDED | SUSPENDED

  /** A saved register frame. The dispatcher reads and writes only its eax; the layout of the whole
      frame is the subject of module ContextSwitch. */
  class Context {
    var eax: Word

    constructor (eax: Word)
      ensures this.eax == eax
    {
      this.eax := eax;
    }
  }

  /** The fields of a PCB other than its link. */
  datatype Attributes = Attributes(
    name: CStr,
    cls: ProcessClass,
    priority: int,
    exec: ExecutionState,
    disp: DispatchingState,
    ctx: Context)

  class Pcb {
    var processName: CStr
    var processClass: ProcessClass
    var processPriority: int
    var executionState: ExecutionState
    var dispatchingState: DispatchingState
    var stackPtr: Context
    var next: Pcb?

    constructor (name: CStr, cls: ProcessClass, priority: int, ctx: Context)
      ensures Attr() == Attributes(name, cls, priority, READY, NOT_SUSPENDED, ctx)
      ensures next == null
    {
      processName, processClass, processPriority := name, cls, priority;
      executionState, dispatchingState, stackPtr, next := READY, NOT_SUSPENDED, ctx, null;
    }

    ghost function Attr(): Attributes
      reads this`processName, this`processClass, this`processPriority
      reads this`executionState, this`dispatchingState, this`stackPtr
    {
      Attributes(processName, processClass, processPriority, executionState, dispatchingState, stackPtr)
    }
  }

  class Queue {
    var front: Pcb?

    constructor (pcb: Pcb)
      ensures front == pcb
    {
      front := pcb;
    }
  }

  function At(s: seq<Pcb>, i: nat): Pcb? {
    if i < |s| then s[i] else null
  }

  ghost predicate Distinct(s: seq<Pcb>) {
    forall i, j :: 0 <= i < j < |s| ==> s[i] != s[j]
  }

  ghost predicate Linked(front: Pcb?, s: seq<Pcb>)
    reads s
  {
    front == At(s, 0) && forall i {:trigger s[i].next} :: 0 <= i < |s| ==> s[i].next == At(s, i + 1)
  }

  /** A chain that ends in null is acyclic: a repeated PCB would repeat everything after it, and
      one of the two tails would run past the null. */
  lemma {:induction false} LinkedIsAcyclic(front: Pcb?, s: seq<Pcb>)
    requires Linked(front, s)
    ensures Distinct(s)
  {
    forall i, j | 0 <= i < j < |s| ensures s[i] != s[j] {
      RepeatRunsOff(front, s, i, j);
    }
  }

  lemma {:induction false} RepeatRunsOff(front: Pcb?, s: seq<Pcb>, i: nat, j: nat)
    requires Linked(front, s) && i < j < |s|
    ensures s[i] != s[j]
    decreases |s| - j
  {
    if s[i] == s[j] {
      assert s[i].next == At(s, i + 1) && s[j].next == At(s, j + 1);
      if j + 1 < |s| {
        RepeatRunsOff(front, s, i + 1, j + 1);
      }
    }
  }

  /** The first position of x in s at or after i, |s| when there is none. */
  function IndexOf(s: seq<Pcb>, x: Pcb, i: nat): (k: nat)
    requires i <= |s|
    ensures i <= k <= |s|
    ensures k < |s| ==> s[k] == x
    decreases |s| - i
  {
    if i == |s| || s[i] == x then i else IndexOf(s, x, i + 1)
  }

  lemma IndexOfNone(s: seq<Pcb>, x: Pcb, i: nat)
    requires i <= |s| && x !in s
    ensures IndexOf(s, x, i) == |s|
    decreases |s| - i
  {
  }

  lemma {:induction false} IndexOfAt(s: seq<Pcb>, i: nat, k: nat)
    requires i <= k < |s| && Distinct(s)
    ensures IndexOf(s, s[k], i) == k
    decreases k - i
  {
    if i < k { IndexOfAt(s, i + 1, k); }
  }

  /** s with the first x taken out of it (s itself when x is not in it). */
  function Without(s: seq<Pcb>, x: Pcb): seq<Pcb> {
    var k := IndexOf(s, x, 0);
    if k < |s| then s[..k] + s[k + 1..] else s
  }

  lemma WithoutAt(s: seq<Pcb>, k: nat)
    requires k < |s| && Distinct(s)
    ensures Without(s, s[k]) == s[..k] + s[k + 1..]
  {
    IndexOfAt(s, 0, k);
  }

  lemma WithoutNone(s: seq<Pcb>, x: Pcb)
    requires x !in s
    ensures Without(s, x) == s
  {
    IndexOfNone(s, x, 0);
  }

  lemma WithoutMembers(s: seq<Pcb>, x: Pcb, y: Pcb)
    requires Distinct(s)
    ensures y in Without(s, x) <==> y in s && y != x
  {
    hide Without;
    hide IndexOf;
    var r := Without(s, x);
    if x !in s {
      WithoutNone(s, x);
    } else {
      var k :| 0 <= k < |s| && s[k] == x;
      WithoutAt(s, k);
      if y in r {
        var i :| 0 <= i < |r| && r[i] == y;
        assert r[i] == s[if i < k then i else i + 1];
      }
      if y in s && y != x {
        var j :| 0 <= j < |s| && s[j] == y;
        assert r[if j < k then j else j - 1] == y;
      }
    }
  }

  /** s with x put in at position k. */
  function Spliced(s: seq<Pcb>, k: nat, x: Pcb): seq<Pcb>
    requires k <= |s|
  {
    s[..k] + [x] + s[k..]
  }

  lemma SplicedMembers(s: seq<Pcb>, k: nat, x: Pcb, y: Pcb)
    requires k <= |s|
    ensures y in Spliced(s, k, x) <==> y == x || y in s
  {
  }

  /** The PCB after p in s, null when p is the last one or not there. */
  function Succ(s: seq<Pcb>, p: Pcb): Pcb? {
    At(s, IndexOf(s, p, 0) + 1)
  }

  lemma SuccAt(s: seq<Pcb>, i: nat)
    requires i < |s| && Distinct(s)
    ensures Succ(s, s[i]) == At(s, i + 1)
  {
    IndexOfAt(s, 0, i);
  }

  lemma SuccNone(s: seq<Pcb>, p: Pcb)
    requires p !in s
    ensures Succ(s, p) == null
  {
  }

  lemma SplicedDistinct(s: seq<Pcb>, k: nat, x: Pcb)
    requires k <= |s| && Distinct(s) && x !in s
    ensures Distinct(Spliced(s, k, x))
  {
  }

  /** Putting x in at k changes the successor of x and of the PCB before it, and of no other. */
  lemma SuccSpliced(s: seq<Pcb>, k: nat, x: Pcb, p: Pcb)
    requires k <= |s| && Distinct(s) && x !in s
    ensures Succ(Spliced(s, k, x), p) ==
            if p == x then At(s, k) else if k > 0 && p == s[k - 1] then x else Succ(s, p)
  {
    var r := Spliced(s, k, x);
    SplicedDistinct(s, k, x);
    SplicedMembers(s, k, x, p);
    if p == x {
      SuccAt(r, k);
    } else if p in s {
      var i :| 0 <= i < |s| && s[i] == p;
      SuccAt(s, i);
      SuccAt(r, if i < k then i else i + 1);
    } else {
      SuccNone(s, p);
      SuccNone(r, p);
    }
  }

  /** Taking the PCB at k out changes its successor and that of the PCB before it, and of no other. */
  lemma SuccWithout(s: seq<Pcb>, k: nat, p: Pcb)
    requires k < |s| && Distinct(s)
    ensures Succ(Without(s, s[k]), p) ==
            if p == s[k] then null else if k > 0 && p == s[k - 1] then At(s, k + 1) else Succ(s, p)
  {
    var r := Without(s, s[k]);
    WithoutAt(s, k);
    assert Distinct(r);
    if p in s && p != s[k] {
      var i :| 0 <= i < |s| && s[i] == p;
      SuccAt(s, i);
      SuccAt(r, if i < k then i else i - 1);
    } else {
      SuccNone(r, p);
      if p !in s { SuccNone(s, p); }
    }
  }
}
