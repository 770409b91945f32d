/**
 How long a ready process waits when every running process only yields. The yielding process goes back
 in after the next one has been chosen (sys_call.c:46-55), so a process with exactly one rival of
 smaller priority number is still served, every second turn, and one with two is never served.
 */
module Waiting {
  import opened Common
  import opened Pcbs
  import opened Scheduler
  import opened Steps
  import opened Runs

  /** Who runs and who is ready. */
  datatype Rotor = Rotor(run: Option<Pcb>, ready: seq<Pcb>)

  function RotorOf(s: State): Rotor {
    Rotor(s.current, Items(s, Ready))
  }

  /** One IDLE, with the priorities of s: the front runs and the yielding process is filed. */
  function Turn(s: State, r: Rotor): Rotor {
    if r.ready == [] then r else
      var rest := r.ready[1..];
      Rotor(Some(r.ready[0]),
            if r.run.None? then rest
            else Spliced(rest, Position(s, rest, PriorityOf(s, r.run.value), 0), r.run.value))
  }

  /** A run of IDLE calls, given the contexts they pass; None when one of them finds nobody ready. */
  function IdleRun(s: State, ctxs: seq<Context>): Option<State>
    decreases |ctxs|
  {
    if ctxs == [] then Some(s)
    else if Items(s, Ready) == [] then None
    else
      var n := SysCall(s, IDLE, ctxs[0]);
      if n.None? then None else IdleRun(n.value.0, ctxs[1..])
  }

  ghost predicate Same(s: State, s': State) {
    s'.attr.Keys == s.attr.Keys && forall p :: p in s.attr ==> s'.attr[p].priority == s.attr[p].priority
  }

  lemma {:induction false} PositionFrame(s: State, s': State, list: seq<Pcb>, x: int, i: nat)
    requires Same(s, s') && i <= |list|
    ensures Position(s', list, x, i) == Position(s, list, x, i)
    decreases |list| - i
  {
    if i < |list| { PositionFrame(s, s', list, x, i + 1); }
  }

  lemma WithoutFront(s: State)
    requires Items(s, Ready) != []
    ensures Items(Remove(s, Items(s, Ready)[0]), Ready) == Items(s, Ready)[1..]
  {
  }

  lemma DispatchIsTurn(s: State)
    requires Items(s, Ready) != [] && Items(s, Ready)[0] in s.attr && Dispatch(s).Some?
    requires s.current.Some? ==>
      s.insertFlag == 1 && s.current.value in s.attr && Home(s.attr[s.current.value]) == Ready
    ensures RotorOf(Dispatch(s).value.0) == Turn(s, RotorOf(s))
  {
    WithoutFront(s);
    var s1 := Remove(s, Items(s, Ready)[0]);
    if s.current.Some? {
      PositionFrame(s, s1, Items(s1, Ready), PriorityOf(s, s.current.value), 0);
    }
  }

  lemma TurnFrame(s: State, s': State, r: Rotor)
    requires Same(s, s')
    ensures Turn(s', r) == Turn(s, r)
  {
    if r.ready != [] && r.run.Some? {
      PositionFrame(s, s', r.ready[1..], PriorityOf(s, r.run.value), 0);
    }
  }

  /** The dispatcher does what Turn says. */
  lemma IdleIsTurn(s0: State, s: State, ctx: Context)
    requires Inv(s) && Items(s, Ready) != [] && Same(s0, s)
    ensures SysCall(s, IDLE, ctx).Some?
    ensures var s' := SysCall(s, IDLE, ctx).value.0;
            Inv(s') && Same(s0, s') && RotorOf(s') == Turn(s0, RotorOf(s))
  {
    SysCallInv(s, IDLE, ctx);
    IdleKeeps(s, ctx);
    DispatchIsTurn(IdleEntry(s, ctx));
    TurnFrame(s0, IdleEntry(s, ctx), RotorOf(s));
  }

  // ------------------------------------------------------------ the rotor

  ghost predicate Sorted(s: State, list: seq<Pcb>) {
    forall i, j :: 0 <= i < j < |list| ==> PriorityOf(s, list[i]) <= PriorityOf(s, list[j])
  }

  ghost predicate Sound(s: State, r: Rotor) {
    Sorted(s, r.ready) && Distinct(r.ready) && (r.run.Some? ==> r.run.value !in r.ready)
  }

  predicate Less(s: State, p: Option<Pcb>, x: int) {
    p.Some? && PriorityOf(s, p.value) < x
  }

  function Nth(list: seq<Pcb>, i: nat): Option<Pcb> {
    if i < |list| then Some(list[i]) else None
  }

  /** The wait of the process at index k, in turns: by whether the running process, the front and the
      one behind it have smaller priority numbers. None: it is never served. */
  function Wait(s: State, r: Rotor, k: nat): (w: Option<nat>)
    requires k < |r.ready|
    ensures w.Some? ==> w.value > 0
  {
    var x := PriorityOf(s, r.ready[k]);
    WaitFor(k, Less(s, r.run, x), Less(s, Nth(r.ready, 0), x), Less(s, Nth(r.ready, 1), x))
  }

  function WaitFor(k: nat, runner: bool, front: bool, second: bool): Option<nat> {
    if !front then Some(if runner then 2 * k + 1 else k + 1)
    else if !runner && !second then Some(2 * k)
    else None
  }

  lemma SplicedSorted(s: State, list: seq<Pcb>, p: Pcb)
    requires Sorted(s, list)
    ensures Sorted(s, Spliced(list, Position(s, list, PriorityOf(s, p), 0), p))
  {
    var x := PriorityOf(s, p);
    var k := Position(s, list, x, 0);
    PositionIs(s, list, x, 0, k);
    var r := Spliced(list, k, p);
    assert forall i :: 0 <= i < k ==> r[i] == list[i];
    assert forall i :: k < i < |r| ==> r[i] == list[i - 1];
    forall i, j | 0 <= i < j < |r| ensures PriorityOf(s, r[i]) <= PriorityOf(s, r[j]) {
      if i == k {
        assert k == j - 1 || PriorityOf(s, list[k]) <= PriorityOf(s, list[j - 1]);
      } else if j != k {
        assert PriorityOf(s, list[if i < k then i else i - 1]) <= PriorityOf(s, list[if j < k then j else j - 1]);
      }
    }
  }

  lemma TurnSound(s: State, r: Rotor)
    requires Sound(s, r) && r.ready != []
    ensures Sound(s, Turn(s, r))
  {
    var rest := r.ready[1..];
    assert forall i :: 0 <= i < |rest| ==> rest[i] == r.ready[i + 1];
    if r.run.Some? {
      var p := r.run.value;
      SplicedSorted(s, rest, p);
      var k := Position(s, rest, PriorityOf(s, p), 0);
      SplicedDistinct(rest, k, p);
      SplicedMembers(rest, k, p, r.ready[0]);
    }
  }

  lemma {:induction false} PositionAfter(s: State, list: seq<Pcb>, x: int, i: nat, k: nat)
    requires i <= k <= |list| && forall j :: i <= j < k ==> PriorityOf(s, list[j]) <= x
    ensures k <= Position(s, list, x, i)
    decreases k - i
  {
    if i < k { PositionAfter(s, list, x, i + 1, k); }
  }

  /** Where the process at index k > 0 is after one turn: one place further on, unless the yielding
      process is the more urgent of the two and nobody ahead is. */
  lemma TurnMoves(s: State, r: Rotor, k: nat)
    requires Sound(s, r) && 0 < k < |r.ready|
    requires var x := PriorityOf(s, r.ready[k]); !Less(s, r.run, x) || !Less(s, Nth(r.ready, 0), x)
    ensures var x := PriorityOf(s, r.ready[k]);
            var k' := if Less(s, r.run, x) then k else k - 1;
            var r' := Turn(s, r);
            && k' < |r'.ready| && r'.ready[k'] == r.ready[k]
            && (Less(s, r.run, x) ==> r'.ready[0] == r.run.value && r'.ready[1..] == r.ready[1..])
            && (!Less(s, r.run, x) ==> forall i :: 0 <= i < k ==> r'.ready[i] == r.ready[i + 1])
  {
    hide Turn;
    if Less(s, r.run, PriorityOf(s, r.ready[k])) {
      RunnerFirst(s, r, k);
    } else {
      OneUp(s, r, k);
    }
  }

  lemma RunnerFirst(s: State, r: Rotor, k: nat)
    requires Sound(s, r) && 0 < k < |r.ready|
    requires var x := PriorityOf(s, r.ready[k]); Less(s, r.run, x) && !Less(s, Nth(r.ready, 0), x)
    ensures Turn(s, r).ready == [r.run.value] + r.ready[1..]
  {
    var rest, y := r.ready[1..], PriorityOf(s, r.run.value);
    assert rest[0] == r.ready[1];
    assert PriorityOf(s, r.ready[0]) <= PriorityOf(s, rest[0]);
    PositionIs(s, rest, y, 0, 0);
  }

  lemma OneUp(s: State, r: Rotor, k: nat)
    requires Sound(s, r) && 0 < k < |r.ready| && !Less(s, r.run, PriorityOf(s, r.ready[k]))
    ensures k - 1 < |Turn(s, r).ready| && forall i :: 0 <= i < k ==> Turn(s, r).ready[i] == r.ready[i + 1]
  {
    var rest := r.ready[1..];
    assert forall i :: 0 <= i < |rest| ==> rest[i] == r.ready[i + 1];
    if r.run.Some? {
      PositionAfter(s, rest, PriorityOf(s, r.run.value), 0, k);
    }
  }

  lemma FrontFirst(s: State, r: Rotor)
    requires Sound(s, r) && |r.ready| > 1
    ensures PriorityOf(s, r.ready[0]) <= PriorityOf(s, r.ready[1])
  {
  }

  /** A more urgent running process comes to the front, so one more urgent process is left there. */
  lemma Overtaken(s: State, r: Rotor, k: nat)
    requires Sound(s, r) && 0 < k < |r.ready|
    requires var x := PriorityOf(s, r.ready[k]); Less(s, r.run, x) && !Less(s, Nth(r.ready, 0), x)
    ensures var x, r' := PriorityOf(s, r.ready[k]), Turn(s, r);
            && k < |r'.ready| && r'.ready[k] == r.ready[k] && r'.run == Some(r.ready[0])
            && Less(s, Nth(r'.ready, 0), x) && !Less(s, Nth(r'.ready, 1), x)
  {
    hide Sound;
    TurnMoves(s, r, k);
    FrontFirst(s, r);
    ghost var r' := Turn(s, r);
    assert r'.ready[1] == r'.ready[1..][0] == r.ready[1..][0] == r.ready[1];
  }

  /** Without one, everybody moves up. */
  lemma MovedUp(s: State, r: Rotor, k: nat)
    requires Sound(s, r) && 0 < k < |r.ready|
    requires var x := PriorityOf(s, r.ready[k]);
      !Less(s, r.run, x) && !(Less(s, Nth(r.ready, 0), x) && Less(s, Nth(r.ready, 1), x))
    ensures var x, r' := PriorityOf(s, r.ready[k]), Turn(s, r);
            && k - 1 < |r'.ready| && r'.ready[k - 1] == r.ready[k] && r'.run == Some(r.ready[0])
            && !Less(s, Nth(r'.ready, 0), x)
  {
    hide Sound;
    TurnMoves(s, r, k);
    FrontFirst(s, r);
    assert Turn(s, r).ready[0] == r.ready[1];
  }

  lemma Apart(s: State, r: Rotor, k: nat)
    requires Sound(s, r) && 0 < k < |r.ready|
    ensures r.ready[0] != r.ready[k]
  {
  }

  /** One turn brings a process that is not starved one turn closer. */
  lemma TurnShortensWait(s: State, r: Rotor, k: nat)
    requires Sound(s, r) && 0 < k < |r.ready| && Wait(s, r, k).Some?
    ensures var k' := if Less(s, r.run, PriorityOf(s, r.ready[k])) then k else k - 1;
            var r' := Turn(s, r);
            && k' < |r'.ready| && r'.ready[k'] == r.ready[k] && r'.run != Some(r.ready[k])
            && Wait(s, r', k') == Some(Wait(s, r, k).value - 1)
  {
    hide Sound;
    hide Turn;
    hide PriorityOf;
    Apart(s, r, k);
    if Less(s, r.run, PriorityOf(s, r.ready[k])) {
      Overtaken(s, r, k);
    } else {
      MovedUp(s, r, k);
    }
  }

  /** x waits behind a running process and a front that are both more urgent. */
  ghost predicate Starved(s: State, r: Rotor, p: Pcb) {
    p in r.ready && Less(s, r.run, PriorityOf(s, p)) && Less(s, Nth(r.ready, 0), PriorityOf(s, p))
  }

  /** A process with two more urgent rivals is starved after one turn, if it is not already. */
  lemma TurnStarves(s: State, r: Rotor, p: Pcb, k: nat)
    requires Sound(s, r) && k < |r.ready| && r.ready[k] == p
    requires Starved(s, r, p) || Wait(s, r, k).None?
    ensures Starved(s, Turn(s, r), p) && Turn(s, r).run != Some(p)
  {
  }

  // ------------------------------------------------------------ runs of IDLE calls

  function Turns(s: State, r: Rotor, n: nat): Rotor
    decreases n
  {
    if n == 0 then r else Turns(s, Turn(s, r), n - 1)
  }

  lemma FrontIsNext(s: State, r: Rotor)
    requires r.ready != []
    ensures Wait(s, r, 0) == Some(1) && Turn(s, r).run == Some(r.ready[0])
  {
  }

  /** The process at index k runs after exactly its wait, and not before. */
  lemma {:induction false} ServedAfterWait(s: State, r: Rotor, k: nat, n: nat)
    requires Sound(s, r) && k < |r.ready| && Wait(s, r, k).Some? && 0 < n <= Wait(s, r, k).value
    ensures Turns(s, r, n).run == Some(r.ready[k]) <==> n == Wait(s, r, k).value
    ensures n < Wait(s, r, k).value ==> r.ready[k] in Turns(s, r, n).ready
    decreases n
  {
    hide Turn;
    hide Wait;
    FrontIsNext(s, r);
    if n == 1 {
      assert Turns(s, r, 1) == Turns(s, Turn(s, r), 0) == Turn(s, r);
      if k > 0 { TurnShortensWait(s, r, k); }
    } else {
      var k' := if Less(s, r.run, PriorityOf(s, r.ready[k])) then k else k - 1;
      TurnShortensWait(s, r, k);
      TurnSound(s, r);
      ServedAfterWait(s, Turn(s, r), k', n - 1);
    }
  }

  lemma {:induction false} NeverServed(s: State, r: Rotor, p: Pcb, k: nat, n: nat)
    requires Sound(s, r) && k < |r.ready| && r.ready[k] == p && n > 0
    requires Starved(s, r, p) || Wait(s, r, k).None?
    ensures Turns(s, r, n).run != Some(p) && p in Turns(s, r, n).ready
    decreases n
  {
    TurnStarves(s, r, p, k);
    TurnSound(s, r);
    if n > 1 {
      var k' :| 0 <= k' < |Turn(s, r).ready| && Turn(s, r).ready[k'] == p;
      NeverServed(s, Turn(s, r), p, k', n - 1);
    }
  }

  predicate ReadyAfter(s: State, r: Rotor, n: nat) {
    Turns(s, r, n).ready != []
  }

  lemma OneIdle(s0: State, s: State, r: Rotor, ctxs: seq<Context>) returns (s': State)
    requires Inv(s) && Same(s0, s) && r == RotorOf(s) && ctxs != [] && ReadyAfter(s0, r, 0)
    ensures Inv(s') && Same(s0, s') && Turn(s0, r) == RotorOf(s') && IdleRun(s, ctxs) == IdleRun(s', ctxs[1..])
  {
    IdleIsTurn(s0, s, ctxs[0]);
    s' := SysCall(s, IDLE, ctxs[0]).value.0;
  }

  lemma TurnFirst(s: State, r: Rotor, n: nat)
    requires r.ready != []
    ensures Turns(s, r, n + 1) == Turns(s, Turn(s, r), n) && ReadyAfter(s, r, n + 1) == ReadyAfter(s, Turn(s, r), n)
  {
  }

  lemma {:induction false} IdleRunIsTurns(s0: State, s: State, r: Rotor, ctxs: seq<Context>)
    returns (out: State, q: Rotor)
    requires Inv(s) && Same(s0, s) && r == RotorOf(s)
    requires forall n :: 0 <= n < |ctxs| ==> ReadyAfter(s0, r, n)
    ensures IdleRun(s, ctxs) == Some(out) && q == RotorOf(out) && Turns(s0, r, |ctxs|) == q
    decreases |ctxs|
  {
    hide Inv;
    hide Same;
    hide SysCall;
    hide Turn;
    if ctxs == [] {
      return s, r;
    }
    assert ReadyAfter(s0, r, 0);
    var s' := OneIdle(s0, s, r, ctxs);
    var r' := Turn(s0, r);
    forall n: nat | n < |ctxs[1..]| ensures ReadyAfter(s0, r', n) {
      TurnFirst(s0, r, n);
      assert ReadyAfter(s0, r, n + 1);
    }
    out, q := IdleRunIsTurns(s0, s', r', ctxs[1..]);
    TurnFirst(s0, r, |ctxs| - 1);
  }

  /** The running and ready processes more urgent than p. */
  function Rivals(s: State, p: Pcb): set<Pcb> {
    set q | q in s.attr && (s.current == Some(q) || q in Items(s, Ready)) && PriorityOf(s, q) < PriorityOf(s, p)
  }

  /** The turn in which the ready process at index k is served, None for never. */
  function WaitByRivals(s: State, k: nat): Option<nat>
    requires k < |Items(s, Ready)|
  {
    var rivals := Rivals(s, Items(s, Ready)[k]);
    if |rivals| == 0 then Some(k + 1)
    else if |rivals| == 1 then Some(if s.current.Some? && s.current.value in rivals then 2 * k + 1 else 2 * k)
    else None
  }

  lemma InvSound(s: State)
    requires Inv(s)
    ensures Sound(s, RotorOf(s))
    ensures forall p :: p in Items(s, Ready) || s.current == Some(p) ==> p in s.attr
  {
    InvInPlace(s);
    var l := Items(s, Ready);
    assert QueueOk(s, Ready, Running(s));
    forall i, j | 0 <= i < j < |l| ensures PriorityOf(s, l[i]) <= PriorityOf(s, l[j]) {
      assert Precedes(s, Ready, l[i], l[j]);
    }
  }

  lemma TwoIn<T>(a: T, b: T, x: set<T>)
    requires a in x && b in x && a != b
    ensures |x| >= 2
  {
    assert {a, b} <= x;
    assert x == {a, b} + (x - {a, b});
  }

  /** In a sorted ready queue the rivals are a prefix, so the running process, the front and the one
      behind it tell how many there are, up to two. */
  lemma WaitCountsRivals(s: State, k: nat)
    requires Sound(s, RotorOf(s)) && k < |Items(s, Ready)|
    requires forall p :: p in Items(s, Ready) || s.current == Some(p) ==> p in s.attr
    ensures WaitByRivals(s, k) == Wait(s, RotorOf(s), k)
  {
    var l, r := Items(s, Ready), RotorOf(s);
    var x, rivals := PriorityOf(s, l[k]), Rivals(s, l[k]);
    if !Less(s, Nth(l, 0), x) {
      assert forall i :: 0 < i < |l| ==> PriorityOf(s, l[0]) <= PriorityOf(s, l[i]);
      assert rivals == if Less(s, r.run, x) then {r.run.value} else {};
    } else if Less(s, r.run, x) {
      TwoIn(r.run.value, l[0], rivals);
    } else if Less(s, Nth(l, 1), x) {
      TwoIn(l[0], l[1], rivals);
    } else {
      forall i | 0 < i < |l| ensures PriorityOf(s, l[i]) >= x {
        assert i == 1 || PriorityOf(s, l[1]) <= PriorityOf(s, l[i]);
      }
      assert rivals == {l[0]};
    }
  }

  /** The exact wait. While every running process only yields, the ready process at index k is first
      dispatched by the IDLE number k + 1 when nobody running or ready is more urgent, number 2k + 1 or
      2k when one process is (and is running, or waits in front), and never when two are. Until then no
      IDLE falls back to the first context. */
  lemma ExactWait(s: State, k: nat, ctxs: seq<Context>)
    requires Inv(s) && k < |Items(s, Ready)| && ctxs != []
    ensures var w := WaitByRivals(s, k);
            w.None? || |ctxs| <= w.value ==>
              && IdleRun(s, ctxs).Some?
              && (IdleRun(s, ctxs).value.current == Some(Items(s, Ready)[k]) <==> w == Some(|ctxs|))
  {
    InvSound(s);
    WaitCountsRivals(s, k);
    var r, w := RotorOf(s), Wait(s, RotorOf(s), k);
    if w.None? || |ctxs| <= w.value {
      forall n | 0 <= n < |ctxs| ensures ReadyAfter(s, r, n) {
        if n > 0 {
          if w.Some? { ServedAfterWait(s, r, k, n); } else { NeverServed(s, r, r.ready[k], k, n); }
        }
      }
      var out, q := IdleRunIsTurns(s, s, r, ctxs);
      if w.Some? { ServedAfterWait(s, r, k, |ctxs|); } else { NeverServed(s, r, r.ready[k], k, |ctxs|); }
    }
  }
}
