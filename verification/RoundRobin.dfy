/** The scheduler refines plain round robin over the READY threads, and what that
    gives: bounded waiting and an exact account of when the process exits. */
module RoundRobin {
  import opened Wrappers
  import opened ThreadModel
  import opened ThreadInvariant

  /** The reference scheduler: who runs, and who is next, in order. */
  datatype Robin = Robin(running: Option<nat>, ready: seq<nat>)

  datatype Move = Tick | Spawn(id: nat) | Stop | Halt | Stutter

  function Play(m: Move, r: Robin): Robin {
    match m
    case Tick =>
      var line := r.ready + (if r.running.Some? then [r.running.value] else []);
      if line == [] then Robin(None, []) else Robin(Some(line[0]), line[1..])
    case Spawn(id) => r.(ready := r.ready + [id])
    case Stop => r.(running := None)
    case Halt => Robin(None, [])
    case Stutter => r
  }

  function ReadyList(ts: seq<Thread>, q: seq<nat>): seq<nat>
    requires InRange(ts, q)
  {
    if q == [] then []
    else (if ts[q[0]].status == Ready then [q[0]] else []) + ReadyList(ts, q[1..])
  }

  /** What is left of a library state when the TERMINATED threads and all records are forgotten. */
  function Abs(s: State): Robin
    requires Wf(s)
  {
    Robin(if s.current.Some? && Me(s).status != Terminated then s.current else None,
          ReadyList(s.threads, s.queue))
  }

  function MoveOf(e: Event, s: State): Move
    requires Enabled(e, s)
  {
    match e
    case Schedule => Tick
    case Create(nh, nr) => if CreateCode(s, nh, nr) == Zero then Spawn(|s.threads|) else Stutter
    case Exit(_) => Stop
    case Cleanup => Halt
    case _ => Stutter
  }

  // ----- the filtered queue -----

  lemma {:induction false} ReadyAppend(ts: seq<Thread>, a: seq<nat>, b: seq<nat>)
    requires InRange(ts, a) && InRange(ts, b) && InRange(ts, a + b)
    ensures ReadyList(ts, a + b) == ReadyList(ts, a) + ReadyList(ts, b)
  {
    if a == [] {
      assert a + b == b;
    } else {
      var rest := a[1..];
      assert (a + b)[1..] == rest + b && (a + b)[0] == a[0];
      ReadyAppend(ts, rest, b);
    }
  }

  lemma {:induction false} ReadySame(ts: seq<Thread>, us: seq<Thread>, q: seq<nat>)
    requires InRange(ts, q) && InRange(us, q)
    requires forall k | 0 <= k < |q| :: (ts[q[k]].status == Ready) == (us[q[k]].status == Ready)
    ensures ReadyList(ts, q) == ReadyList(us, q)
  {
    if q != [] {
      assert forall k | 0 <= k < |q[1..]| :: q[1..][k] == q[k + 1];
      ReadySame(ts, us, q[1..]);
    }
  }

  lemma {:induction false} ReadyNone(ts: seq<Thread>, q: seq<nat>)
    requires InRange(ts, q)
    requires forall k | 0 <= k < |q| :: ts[q[k]].status != Ready
    ensures ReadyList(ts, q) == []
  {
    if q != [] {
      assert forall k | 0 <= k < |q[1..]| :: q[1..][k] == q[k + 1];
      ReadyNone(ts, q[1..]);
    }
  }

  lemma {:induction false} ReadyMembers(ts: seq<Thread>, q: seq<nat>)
    requires InRange(ts, q)
    ensures |ReadyList(ts, q)| <= |q|
    ensures forall x :: x in ReadyList(ts, q) <==> x in q && ts[x].status == Ready
  {
    if q != [] {
      ReadyMembers(ts, q[1..]);
      assert q == [q[0]] + q[1..];
    }
  }

  lemma ReadyPopAt(ts: seq<Thread>, a: seq<nat>, x: nat, c: seq<nat>)
    requires InRange(ts, a) && x < |ts| && InRange(ts, c)
    requires ts[x].status == Ready && forall j | 0 <= j < |a| :: ts[a[j]].status != Ready
    ensures ReadyList(ts, a + ([x] + c)) == [x] + ReadyList(ts, c + a)
  {
    ReadyNone(ts, a);
    ReadyAppend(ts, a, [x] + c);
    ReadyAppend(ts, c, a);
    assert ([x] + c)[1..] == c;
  }

  /** Taking out the first READY entry and moving those it passed to the back pops the READY list. */
  lemma ReadyPop(ts: seq<Thread>, q: seq<nat>)
    requires InRange(ts, q)
    ensures var k := FirstReady(ts, q);
            ReadyList(ts, q) ==
            if k < |q| then [q[k]] + ReadyList(ts, q[k + 1..] + q[..k]) else []
  {
    var k := FirstReady(ts, q);
    if k < |q| {
      assert q == q[..k] + ([q[k]] + q[k + 1..]);
      ReadyPopAt(ts, q[..k], q[k], q[k + 1..]);
    } else {
      ReadyNone(ts, q);
    }
  }

  // ----- refinement -----

  lemma RequeueLine(s: State)
    requires Inv(s) && !s.ended && s.current.Some?
    requires InRange(Requeue(s).threads, Requeue(s).queue)
    ensures ReadyList(Requeue(s).threads, Requeue(s).queue) ==
            Abs(s).ready + (if Abs(s).running.Some? then [s.current.value] else [])
  {
    var c, r := s.current.value, Requeue(s);
    ReadySame(s.threads, r.threads, s.queue);
    ReadyAppend(r.threads, s.queue, [c]);
  }

  lemma ResumeAbs(r: State, n: nat)
    requires Wf(r) && n < |r.threads| && n !in r.queue && Wf(Resume(r, n))
    ensures Abs(Resume(r, n)) == Robin(Some(n), ReadyList(r.threads, r.queue))
  {
    ReadySame(r.threads, Resume(r, n).threads, r.queue);
  }

  lemma ScheduleRefines(s: State)
    requires Inv(s) && Enabled(Schedule, s)
    ensures Wf(ScheduleStep(s)) && Abs(ScheduleStep(s)) == Play(Tick, Abs(s))
  {
    var r := Requeue(s);
    ScheduleKeepsInv(s);
    ScheduleResult(s);
    RequeueKeeps(s);
    RequeueLine(s);
    ReadyPop(r.threads, r.queue);
    var k := FirstReady(r.threads, r.queue);
    if k < |r.queue| {
      RotatedMembers(r.queue, k);
      var rest := r.queue[k + 1..] + r.queue[..k];
      WfFromThreads(r.(queue := rest));
      ResumeAbs(r.(queue := rest), r.queue[k]);
    }
  }

  lemma ExitRefines(s: State, v: int)
    requires Inv(s) && Enabled(Exit(v), s)
    ensures Wf(ExitStep(s, v)) && Abs(ExitStep(s, v)) == Play(Stop, Abs(s))
  {
    ExitTouchesOnlyMe(s, v);
    ExitKeepsInv(s, v);
    ReadySame(s.threads, ExitStep(s, v).threads, s.queue);
  }

  lemma CreateRefines(s: State, nh: bool, nr: bool)
    requires Inv(s) && Enabled(Create(nh, nr), s)
    ensures Wf(CreateStep(s, nh, nr))
    ensures Abs(CreateStep(s, nh, nr)) == Play(MoveOf(Create(nh, nr), s), Abs(s))
  {
    var s' := CreateStep(s, nh, nr);
    CreateKeepsInv(s, nh, nr);
    if CreateCode(s, nh, nr) == Zero {
      ReadySame(s.threads, s'.threads, s.queue);
      ReadyAppend(s'.threads, s.queue, [|s.threads|]);
    }
  }

  lemma OtherRefines(s: State, s': State)
    requires Wf(s) && Wf(s') && s'.queue == s.queue && s'.current == s.current && |s'.threads| == |s.threads|
    requires forall i | 0 <= i < |s.threads| && s.current != Some(i) :: s'.threads[i].status == s.threads[i].status
    requires s.current.Some? ==> s.current.value !in s.queue
                                 && (Me(s').status == Terminated <==> Me(s).status == Terminated)
    ensures Abs(s') == Abs(s)
  {
    ReadySame(s.threads, s'.threads, s.queue);
  }

  lemma JoinRefines(s: State, h: Handle, want: bool)
    requires Inv(s) && Enabled(JoinCall(h, want), s) && Wf(JoinStep(s, h, want))
    ensures Abs(JoinStep(s, h, want)) == Abs(s)
  {
    assert ThreadOk(s.threads, s.current.value);
    if Decide(s, h).MustWait? { DecideMustWait(s, h); }
    OtherRefines(s, JoinStep(s, h, want));
  }

  lemma QuietRefines(s: State, e: Event)
    requires Inv(s) && Enabled(e, s) && (e.Return? || e.JoinPoll? || e.JoinFinish? || e.Kill?)
    requires Wf(Apply(e, s))
    ensures Abs(Apply(e, s)) == Abs(s)
  {
    assert ThreadOk(s.threads, s.current.value);
    OtherRefines(s, Apply(e, s));
  }

  /** Main result: each step of the library is one move of plain round robin. */
  lemma RoundRobinRefinement(s: State, e: Event)
    requires Inv(s) && Enabled(e, s)
    ensures Inv(Apply(e, s)) && Abs(Apply(e, s)) == Play(MoveOf(e, s), Abs(s))
  {
    StepKeepsInv(s, e);
    match e
    case Schedule => ScheduleRefines(s);
    case Exit(v) => ExitRefines(s, v);
    case Create(nh, nr) => CreateRefines(s, nh, nr);
    case JoinCall(h, want) => JoinRefines(s, h, want);
    case Cleanup =>
    case _ => QuietRefines(s, e);
  }

  // ----- whole runs -----

  function PlayAll(ms: seq<Move>, r: Robin): Robin {
    if ms == [] then r else Play(ms[|ms| - 1], PlayAll(ms[..|ms| - 1], r))
  }

  function Moves(s: State, es: seq<Event>): seq<Move>
    requires Legal(s, es)
  {
    if es == [] then []
    else Moves(s, es[..|es| - 1]) + [MoveOf(es[|es| - 1], End(s, es[..|es| - 1]))]
  }

  /** Main result: a whole run of the library is a run of plain round robin. */
  lemma {:induction false} RunRefinement(s: State, es: seq<Event>)
    requires Inv(s) && Legal(s, es)
    ensures Inv(End(s, es)) && Abs(End(s, es)) == PlayAll(Moves(s, es), Abs(s))
  {
    if es != [] {
      var es' := es[..|es| - 1];
      RunRefinement(s, es');
      RoundRobinRefinement(End(s, es'), es[|es| - 1]);
      assert Moves(s, es)[..|es'|] == Moves(s, es') by { MovesLength(s, es'); }
      MovesLength(s, es);
    }
  }

  lemma {:induction false} MovesLength(s: State, es: seq<Event>)
    requires Legal(s, es)
    ensures |Moves(s, es)| == |es|
  {
    if es != [] { MovesLength(s, es[..|es| - 1]); }
  }

  // ----- bounded waiting -----

  /** Number of scheduler calls. */
  function Ticks(es: seq<Event>): nat {
    if es == [] then 0 else Ticks(es[..|es| - 1]) + (if es[|es| - 1].Schedule? then 1 else 0)
  }

  function TickMoves(ms: seq<Move>): nat {
    if ms == [] then 0 else TickMoves(ms[..|ms| - 1]) + (if ms[|ms| - 1].Tick? then 1 else 0)
  }

  lemma {:induction false} MovesTicks(s: State, es: seq<Event>)
    requires Legal(s, es)
    ensures TickMoves(Moves(s, es)) == Ticks(es)
    ensures !End(s, es).ended ==> Halt !in Moves(s, es)
  {
    if es != [] {
      var es' := es[..|es| - 1];
      MovesTicks(s, es');
      var ms := Moves(s, es);
      assert ms[..|ms| - 1] == Moves(s, es');
    }
  }

  ghost predicate InLine(r: Robin, t: nat, k: nat) {
    k < |r.ready| && r.ready[k] == t
  }

  /** In round robin, `k` ticks bring the entry at position `k` to the front, whatever joins or leaves. */
  lemma {:induction false} LineAdvances(ms: seq<Move>, r: Robin, t: nat, k: nat)
    requires InLine(r, t, k) && Halt !in ms && TickMoves(ms) <= k
    ensures InLine(PlayAll(ms, r), t, k - TickMoves(ms))
  {
    if ms != [] {
      LineAdvances(ms[..|ms| - 1], r, t, k);
      assert ms[|ms| - 1] in ms;
    }
  }

  lemma QueuedReady(s: State, t: nat)
    requires Inv(s) && t in Abs(s).ready
    ensures t < |s.threads| && t in s.queue && s.threads[t].status == Ready && !s.ended
    ensures s.current.Some? && s.current != Some(t)
  {
    ReadyMembers(s.threads, s.queue);
    if s.current.None? {
      assert Unfinished(s.threads, t);
    }
  }

  ghost predicate Queued(s: State, t: nat) {
    t < |s.threads| && t in s.queue && s.threads[t].status == Ready && s.current.Some? && s.current != Some(t)
  }

  lemma StillInLine(s0: State, es: seq<Event>, t: nat, k: nat)
    requires Inv(s0) && Legal(s0, es) && !End(s0, es).ended && InLine(Abs(s0), t, k)
    requires Ticks(es) <= k
    ensures Queued(End(s0, es), t)
  {
    RunRefinement(s0, es);
    MovesTicks(s0, es);
    var r := PlayAll(Moves(s0, es), Abs(s0));
    LineAdvances(Moves(s0, es), Abs(s0), t, k);
    assert r.ready[k - Ticks(es)] in r.ready;
    QueuedReady(End(s0, es), t);
  }

  lemma NextInLine(s0: State, es: seq<Event>, t: nat, k: nat)
    requires Inv(s0) && Legal(s0, es) && !End(s0, es).ended && InLine(Abs(s0), t, k)
    requires Ticks(es) == k + 1 && es[|es| - 1].Schedule?
    ensures End(s0, es).current == Some(t)
  {
    RunRefinement(s0, es);
    MovesTicks(s0, es);
    var ms, r := Moves(s0, es), Abs(s0);
    var before := ms[..|ms| - 1];
    assert ms[|ms| - 1] == Tick;
    assert PlayAll(ms, r) == Play(Tick, PlayAll(before, r));
    assert Halt !in before && TickMoves(before) == k;
    LineAdvances(before, r, t, k);
  }

  /** Main result: a READY thread with `k` READY threads ahead of it stays queued through the next
      `k` calls of the scheduler and is dispatched by the one after, unless the process ends first,
      whatever is created, joined, killed or exits meanwhile. */
  lemma BoundedWaiting(s0: State, es: seq<Event>, t: nat, k: nat)
    requires Inv(s0) && Legal(s0, es) && !End(s0, es).ended && InLine(Abs(s0), t, k)
    ensures Ticks(es) <= k ==> Queued(End(s0, es), t)
    ensures Ticks(es) == k + 1 && es[|es| - 1].Schedule? ==> End(s0, es).current == Some(t)
  {
    if Ticks(es) <= k {
      StillInLine(s0, es, t, k);
    } else if Ticks(es) == k + 1 && es[|es| - 1].Schedule? {
      NextInLine(s0, es, t, k);
    }
  }

  /** Together with BoundedWaiting: a READY thread runs within MAX_THREADS scheduler calls. */
  lemma LineIsShort(s: State, t: nat, k: nat)
    requires Inv(s) && InLine(Abs(s), t, k)
    ensures k + 1 <= MAX_THREADS
  {
    assert t in Abs(s).ready;
    QueuedReady(s, t);
    ReadyMembers(s.threads, s.queue);
  }

  // ----- when the process exits -----

  lemma NoneReadyAllDone(s: State)
    requires Inv(s) && Enabled(Schedule, s) && ScheduleStep(s).current.None?
    ensures forall i | 0 <= i < |s.threads| :: s.threads[i].status == Terminated
    ensures ScheduleStep(s).queue == s.queue + [s.current.value] && ScheduleStep(s).threads == s.threads
  {
    var r := Requeue(s);
    RequeueKeeps(s);
    ScheduleResult(s);
    forall i | 0 <= i < |s.threads| ensures s.threads[i].status == Terminated {
      assert i in r.queue;
      var j :| 0 <= j < |r.queue| && r.queue[j] == i;
    }
    assert r.threads == s.threads;
  }

  lemma DispatchedUnfinished(s: State)
    requires Inv(s) && Enabled(Schedule, s) && ScheduleStep(s).current.Some?
    ensures Unfinished(s.threads, ScheduleStep(s).current.value)
  {
    var n := ScheduleStep(s).current.value;
    ScheduleKeepsInv(s);
    ScheduleThread(s, 0);
    ScheduleThread(s, n);
    ScheduleResult(s);
  }

  /** Main result: the scheduler finds no thread to run exactly when every created thread, the
      caller included, is TERMINATED; the failed scan then leaves the queue in its order. */
  lemma ExitsExactlyWhenAllDone(s: State)
    requires Inv(s) && Enabled(Schedule, s)
    ensures var s' := ScheduleStep(s);
            && (s'.current.None? <==> forall i | 0 <= i < |s.threads| :: s.threads[i].status == Terminated)
            && (s'.current.None? ==> s'.queue == s.queue + [s.current.value] && s'.threads == s.threads)
  {
    if ScheduleStep(s).current.None? { NoneReadyAllDone(s); } else { DispatchedUnfinished(s); }
  }
}
