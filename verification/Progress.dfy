/** What a process can still reach: a waiting join returns at its caller's next dispatch after the
    target has finished, and every process without a deadlock can run to exit. */
module Progress {
  import opened Wrappers
  import opened ThreadModel
  import opened ThreadInvariant
  import opened RoundRobin
  import opened JoinProtocol
  import opened Deadlock

  // ----- a join returns -----

  lemma PointKept(s: State, e: Event, c: nat)
    requires Inv(s) && Enabled(e, s) && c < |s.threads| && s.current != Some(c) && s.threads[c].point.Joining?
    ensures c < |Apply(e, s).threads| && Apply(e, s).threads[c].point == s.threads[c].point
  {
    match e
    case Exit(v) => ExitTouchesOnlyMe(s, v);
    case Schedule => ScheduleThread(s, c);
    case JoinCall(h, want) => if Decide(s, h).MustWait? { JoinLinks(s, h, want); }
    case _ =>
  }

  lemma {:induction false} PointKeptInLine(s: State, es: seq<Event>, c: nat, k: nat)
    requires Inv(s) && Legal(s, es) && !End(s, es).ended && InLine(Abs(s), c, k) && Ticks(es) <= k
    requires c < |s.threads| && s.threads[c].point.Joining?
    ensures c < |End(s, es).threads| && End(s, es).threads[c].point == s.threads[c].point
  {
    if es != [] {
      var es' := es[..|es| - 1];
      PointKeptInLine(s, es', c, k);
      LegalKeepsInv(s, es');
      BoundedWaiting(s, es', c, k);
      PointKept(End(s, es'), es[|es| - 1], c);
    }
  }

  lemma {:induction false} FinishedStays(s: State, es: seq<Event>, t: nat)
    requires Inv(s) && Legal(s, es) && t < |s.threads| && s.threads[t].status == Terminated
    ensures var ts := End(s, es).threads;
            t < |ts| && ts[t].status == Terminated && ts[t].ret == s.threads[t].ret
  {
    if es != [] {
      var es' := es[..|es| - 1];
      FinishedStays(s, es', t);
      LegalKeepsInv(s, es');
      TerminatedIsFinal(End(s, es'), es[|es| - 1], t);
    }
  }

  /** Thread `c` is running in the wait loop, and its next two steps leave it with `value` stored
      through retval and return to user code with SIGALRM unblocked. */
  ghost predicate ReturnsNow(s: State, c: nat, value: Option<int>) {
    && s.current == Some(c) && Enabled(JoinPoll, s)
    && var s1 := Apply(JoinPoll, s);
    && Enabled(JoinFinish, s1) && Delivered(s1) == value
    && var s2 := Apply(JoinFinish, s1);
    s2 == WithMe(s, Me(s).(point := User)).(alarmBlocked := false)
  }

  lemma FinishedWaitReturns(s: State)
    requires Inv(s) && Enabled(JoinPoll, s) && Me(s).point.target < |s.threads|
    requires !Unfinished(s.threads, Me(s).point.target)
    ensures ReturnsNow(s, s.current.value, if Me(s).point.want then Some(s.threads[Me(s).point.target].ret) else None)
  {
    PollKeepsInv(s);
    WaitEndsExactly(s);
    PollThenFinish(s);
  }

  /** The dispatch that BoundedWaiting promises finds the caller where it was, in the wait loop. */
  lemma BackInLoop(s: State, es: seq<Event>, c: nat, k: nat)
    requires Inv(s) && Legal(s, es) && !End(s, es).ended && InLine(Abs(s), c, k)
    requires c < |s.threads| && s.threads[c].point.Joining?
    requires Ticks(es) == k + 1 && es[|es| - 1].Schedule?
    ensures Inv(End(s, es)) && Enabled(JoinPoll, End(s, es))
    ensures End(s, es).current == Some(c) && Me(End(s, es)).point == s.threads[c].point
  {
    var es' := es[..|es| - 1];
    PointKeptInLine(s, es', c, k);
    BoundedWaiting(s, es', c, k);
    BoundedWaiting(s, es, c, k);
    LegalKeepsInv(s, es');
    PointKept(End(s, es'), Schedule, c);
    StepKeepsInv(End(s, es'), Schedule);
  }

  /** Main result: when the target has finished, a waiting thread with `k` READY threads ahead of it
      is back in thread_join at exactly the (k+1)-th scheduler call, whatever the others do, and
      from there leaves the loop, stores the target's value if asked to, and returns. */
  lemma JoinReturns(s: State, es: seq<Event>, c: nat, t: nat, k: nat)
    requires Inv(s) && Legal(s, es) && !End(s, es).ended && InLine(Abs(s), c, k)
    requires c < |s.threads| && Waits(s.threads, c, t) && t < |s.threads| && !Unfinished(s.threads, t)
    requires Ticks(es) == k + 1 && es[|es| - 1].Schedule?
    ensures ReturnsNow(End(s, es), c, if s.threads[c].point.want then Some(s.threads[t].ret) else None)
  {
    BackInLoop(s, es, c, k);
    FinishedStays(s, es, t);
    FinishedWaitReturns(End(s, es));
  }

  // ----- a whole join -----

  lemma FirstJoinCalled() returns (s: State)
    ensures Reachable(s)
    ensures s == State([InitialThread.(status := Waiting, point := Joining(1, true)), Fresh(1).(waiter := 0)],
                       [1], Some(0), 2, false, [], false, [], [])
  {
    assert After(Init, []) == Some(Init);
    var s1 := State([InitialThread, Fresh(1)], [1], Some(0), 2, false, [], false, [], []);
    ReachStep(Init, Create(false, false), s1);
    ReachableHasInv(s1);
    CycleJoin(s1, 0, 1);
    s := s1.(threads := LinkWaiter(s1.threads, 0, 1, true));
    ReachStep(s1, CycleCall(1), s);
  }

  lemma FirstJoinWaits(v: int) returns (s: State)
    ensures Reachable(s) && s.current == Some(1) && !s.ended && |s.threads| == 2 && s.queue == [0]
    ensures s.threads[0].status == Ready && s.threads[0].point == Joining(1, true)
    ensures s.threads[1].point == User && Enabled(Exit(v), s)
  {
    var s1 := FirstJoinCalled();
    SwitchToNew(s1);
    s := ScheduleStep(s1);
    ReachStep(s1, Schedule, s);
    ReachableHasInv(s);
  }

  lemma OnlyOneInLine(s: State, t: nat)
    requires Inv(s) && !s.ended && s.queue == [t] && t < |s.threads| && s.threads[t].status == Ready
    ensures InLine(Abs(s), t, 0)
  {
    ReadyMembers(s.threads, s.queue);
    assert t in s.queue;
    assert t in Abs(s).ready;
  }

  lemma SecondExits(v: int) returns (s: State)
    ensures Reachable(s) && Inv(s) && !s.ended && Enabled(Schedule, s) && InLine(Abs(s), 0, 0)
    ensures |s.threads| == 2 && s.threads[0].point == Joining(1, true)
    ensures s.threads[1].status == Terminated && s.threads[1].ret == v
  {
    var before := FirstJoinWaits(v);
    ReachableHasInv(before);
    s := Apply(Exit(v), before);
    ExitTouchesOnlyMe(before, v);
    ReachStep(before, Exit(v), s);
    ReachableHasInv(s);
    OnlyOneInLine(s, 0);
  }

  /** Main result: from the start a thread can be created and joined, and whatever value it passes
      to thread_exit its creator gets back, and goes on. */
  lemma JoinRoundTrip(v: int)
    ensures exists s :: Reachable(s) && ReturnsNow(s, 0, Some(v))
  {
    var s := SecondExits(v);
    var s' := Apply(Schedule, s);
    assert After(s, []) == Some(s);
    Extend(s, [], Schedule);
    assert [] + [Schedule] == [Schedule];
    OnlyCleanupEnds(s, Schedule);
    JoinReturns(s, [Schedule], 0, 1, 0);
    ReachStep(s, Schedule, s');
  }

  lemma OnlyCleanupEnds(s: State, e: Event)
    requires Enabled(e, s) && !e.Cleanup? && Inv(s)
    ensures !Apply(e, s).ended
  {
    match e
    case Exit(v) => ExitTouchesOnlyMe(s, v);
    case Schedule => ScheduleResult(s);
    case _ =>
  }

  // ----- every process without a deadlock can exit -----

  ghost predicate LeadsTo(s: State, s': State) {
    exists es :: After(s, es) == Some(s')
  }

  lemma StepOn(s0: State, s: State, e: Event)
    requires LeadsTo(s0, s) && Enabled(e, s)
    ensures LeadsTo(s0, Apply(e, s))
  {
    var es :| After(s0, es) == Some(s);
    Extend(s0, es, e);
    assert After(s0, es + [e]) == Some(Apply(e, s));
  }

  /** exit(0) has been reached: the scheduler found no thread to run. */
  ghost predicate Exited(s: State) {
    !s.ended && s.current.None?
  }

  /** Own steps a thread has left if it makes no further call but thread_exit. */
  function Rank(p: Point): nat {
    match p
    case Joining(_, _) => 3
    case Collecting(_, _) => 2
    case Exited => 0
    case _ => 1
  }

  function RankAll(ts: seq<Thread>): nat {
    if ts == [] then 0 else Rank(ts[0].point) + RankAll(ts[1..])
  }

  lemma {:induction false} RankAllUpdate(ts: seq<Thread>, i: nat, t: Thread)
    requires i < |ts|
    ensures RankAll(ts[i := t]) == RankAll(ts) - Rank(ts[i].point) + Rank(t.point)
  {
    if i == 0 {
      assert ts[i := t][1..] == ts[1..];
    } else {
      assert ts[i := t][1..] == ts[1..][i - 1 := t];
      RankAllUpdate(ts[1..], i - 1, t);
    }
  }

  lemma {:induction false} RankAllSame(ts: seq<Thread>, us: seq<Thread>)
    requires |us| == |ts| && forall i | 0 <= i < |ts| :: Rank(us[i].point) == Rank(ts[i].point)
    ensures RankAll(us) == RankAll(ts)
  {
    if ts != [] { RankAllSame(ts[1..], us[1..]); }
  }

  /** The next own step of a current thread that nothing holds up. */
  function OwnStep(s: State): Event
    requires Wf(s) && s.current.Some?
  {
    match Me(s).point
    case Joining(_, _) => JoinPoll
    case Collecting(_, _) => JoinFinish
    case _ => Exit(Me(s).ret)
  }

  lemma OwnStepAdvances(s: State)
    requires Inv(s) && !s.ended && s.current.Some? && CanProceed(s.threads, s.current.value)
    ensures Enabled(OwnStep(s), s) && RankAll(Apply(OwnStep(s), s).threads) < RankAll(s.threads)
    ensures !Apply(OwnStep(s), s).ended && Apply(OwnStep(s), s).current == s.current
  {
    var c := s.current.value;
    assert ThreadOk(s.threads, c);
    var p := Me(s).point;
    if p.Joining? {
      WaitEndsExactly(s);
      RankAllUpdate(s.threads, c, Me(s).(point := Collecting(p.target, p.want)));
    } else if p.Collecting? {
      RankAllUpdate(s.threads, c, Me(s).(point := User));
    } else {
      ExitTouchesOnlyMe(s, Me(s).ret);
      RankAllUpdate(s.threads, c, Me(s).(status := Terminated, point := Point.Exited));
    }
  }

  lemma ScheduleKeepsRank(s: State)
    requires Inv(s) && Enabled(Schedule, s)
    ensures RankAll(ScheduleStep(s).threads) == RankAll(s.threads)
  {
    var us := ScheduleStep(s).threads;
    ScheduleThread(s, 0);
    forall i | 0 <= i < |s.threads| ensures Rank(us[i].point) == Rank(s.threads[i].point) { ScheduleThread(s, i); }
    RankAllSame(s.threads, us);
  }

  /** Thread `j` can proceed and is running, or will be dispatched by the `k`-th scheduler call. */
  ghost predicate Aim(s: State, j: nat, k: nat)
    requires Wf(s)
  {
    CanProceed(s.threads, j) && if k == 0 then s.current == Some(j) else InLine(Abs(s), j, k - 1)
  }

  lemma FindAim(s: State) returns (j: nat, k: nat)
    requires Inv(s) && !s.ended && DeadlockFree(s.threads) && UnfinishedSet(s.threads) != {}
    ensures Aim(s, j, k)
  {
    NothingProceedsExactly(s);
    j :| CanProceed(s.threads, j);
    UnfinishedIsInLine(s, j);
    if s.current == Some(j) {
      k := 0;
    } else {
      var i: nat :| i + 1 <= MAX_THREADS && InLine(Abs(s), j, i);
      k := i + 1;
    }
  }

  lemma CanProceedKept(s: State, j: nat)
    requires Inv(s) && Enabled(Schedule, s) && CanProceed(s.threads, j)
    ensures CanProceed(ScheduleStep(s).threads, j)
  {
    ScheduleThread(s, j);
    assert ThreadOk(s.threads, j);
    if s.threads[j].point.Joining? {
      ScheduleThread(s, s.threads[j].point.target);
    }
  }

  lemma LineMoves(s: State, j: nat, k: nat)
    requires Inv(s) && Enabled(Schedule, s) && InLine(Abs(s), j, k)
    ensures Wf(ScheduleStep(s))
    ensures if k == 0 then ScheduleStep(s).current == Some(j) else InLine(Abs(ScheduleStep(s)), j, k - 1)
  {
    ScheduleRefines(s);
  }

  /** A current thread that has exited, or waits for an unfinished one, gives way to the next in line. */
  lemma ScheduleTowards(s: State, j: nat, k: nat)
    requires Inv(s) && Enabled(Schedule, s) && k > 0 && Aim(s, j, k)
    ensures Wf(ScheduleStep(s)) && Aim(ScheduleStep(s), j, k - 1)
  {
    CanProceedKept(s, j);
    LineMoves(s, j, k - 1);
  }

  lemma AllDoneExits(s0: State, s: State)
    requires LeadsTo(s0, s) && Inv(s) && !s.ended && UnfinishedSet(s.threads) == {}
    ensures exists s' :: LeadsTo(s0, s') && Exited(s')
  {
    if s.current.Some? {
      var c := s.current.value;
      assert ThreadOk(s.threads, c);
      assert c !in UnfinishedSet(s.threads);
      forall i | 0 <= i < |s.threads| ensures s.threads[i].status == Terminated {
        assert i !in UnfinishedSet(s.threads);
      }
      ExitsExactlyWhenAllDone(s);
      OnlyCleanupEnds(s, Schedule);
      StepOn(s0, s, Schedule);
    }
  }

  ghost predicate OnTheWay(s0: State, s: State) {
    LeadsTo(s0, s) && Inv(s) && !s.ended && DeadlockFree(s.threads)
  }

  lemma ProceedOn(s0: State, s: State) returns (s': State)
    requires OnTheWay(s0, s) && s.current.Some? && CanProceed(s.threads, s.current.value)
    ensures OnTheWay(s0, s') && RankAll(s'.threads) < RankAll(s.threads)
  {
    OwnStepAdvances(s);
    s' := Apply(OwnStep(s), s);
    StepKeepsInv(s, OwnStep(s));
    NoNewDeadlock(s, OwnStep(s), s');
    StepOn(s0, s, OwnStep(s));
  }

  lemma GiveWay(s0: State, s: State, j: nat, k: nat) returns (s': State)
    requires OnTheWay(s0, s) && s.current.Some? && !CanProceed(s.threads, s.current.value) && Aim(s, j, k)
    ensures k > 0 && OnTheWay(s0, s') && RankAll(s'.threads) == RankAll(s.threads) && Aim(s', j, k - 1)
  {
    assert ThreadOk(s.threads, s.current.value);
    s' := ScheduleStep(s);
    ScheduleTowards(s, j, k);
    ScheduleKeepsRank(s);
    ScheduleKeepsInv(s);
    OnlyCleanupEnds(s, Schedule);
    NoNewDeadlock(s, Schedule, s');
    StepOn(s0, s, Schedule);
  }

  lemma SomebodyRuns(s: State)
    requires Inv(s) && !s.ended && UnfinishedSet(s.threads) != {}
    ensures s.current.Some?
  {
    var i :| i in UnfinishedSet(s.threads);
  }

  /** Let whoever can proceed exit, and otherwise the scheduler run, until all are done. */
  lemma {:induction false} DriveToExit(s0: State, s: State, j: nat, k: nat)
    requires OnTheWay(s0, s) && (UnfinishedSet(s.threads) != {} ==> Aim(s, j, k))
    ensures exists s' :: LeadsTo(s0, s') && Exited(s')
    decreases RankAll(s.threads), k
  {
    if UnfinishedSet(s.threads) == {} {
      AllDoneExits(s0, s);
      return;
    }
    SomebodyRuns(s);
    if CanProceed(s.threads, s.current.value) {
      var s' := ProceedOn(s0, s);
      var j', k' := 0, 0;
      if UnfinishedSet(s'.threads) != {} { j', k' := FindAim(s'); }
      DriveToExit(s0, s', j', k');
    } else {
      var s' := GiveWay(s0, s, j, k);
      DriveToExit(s0, s', j, k - 1);
    }
  }

  lemma DeadlockedNeverExits(s: State, es: seq<Event>, d: set<nat>)
    requires Inv(s) && Legal(s, es) && Deadlocked(s.threads, d)
    ensures !Exited(End(s, es))
  {
    DeadlockedForEver(s, es, d);
    LegalKeepsInv(s, es);
    var i :| i in d;
    assert StuckIn(End(s, es).threads, d, i);
    assert ThreadOk(End(s, es).threads, i);
    assert Unfinished(End(s, es).threads, i);
  }

  /** Main result: some continuation of a run reaches exit(0), every thread TERMINATED, if and only
      if no set of threads is deadlocked. */
  lemma CanExitExactly(s: State)
    requires Inv(s) && !s.ended
    ensures (exists s' :: LeadsTo(s, s') && Exited(s')) <==> DeadlockFree(s.threads)
  {
    if DeadlockFree(s.threads) {
      assert After(s, []) == Some(s);
      var j, k := 0, 0;
      if UnfinishedSet(s.threads) != {} { j, k := FindAim(s); }
      DriveToExit(s, s, j, k);
    } else {
      var d :| Deadlocked(s.threads, d);
      forall s' | LeadsTo(s, s') ensures !Exited(s') {
        var es :| After(s, es) == Some(s');
        DeadlockedNeverExits(s, es, d);
      }
    }
  }
}
