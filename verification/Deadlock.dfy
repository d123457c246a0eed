/** Deadlock among joins: what thread_join's EDEADLK test catches, what it misses, which runs
    deadlock, and that without a deadlock the process makes progress. */
module Deadlock {
  import opened Wrappers
  import opened ThreadModel
  import opened ThreadInvariant
  import opened RoundRobin

  // ----- deadlocked sets -----

  ghost predicate StuckIn(ts: seq<Thread>, d: set<nat>, i: nat) {
    i < |ts| && ts[i].point.Joining? && ts[i].point.target in d
  }

  /** Every thread of `d` is in the wait loop on another thread of `d`. */
  ghost predicate Deadlocked(ts: seq<Thread>, d: set<nat>) {
    d != {} && forall i {:trigger StuckIn(ts, d, i)} | i in d :: StuckIn(ts, d, i)
  }

  ghost predicate DeadlockFree(ts: seq<Thread>) {
    forall d | Deadlocked(ts, d) :: false
  }

  lemma JoinerStays(s: State, e: Event, i: nat)
    requires Inv(s) && Enabled(e, s) && i < |s.threads| && s.threads[i].point.Joining?
    requires Unfinished(s.threads, s.threads[i].point.target)
    ensures i < |Apply(e, s).threads| && Apply(e, s).threads[i].point == s.threads[i].point
  {
    assert ThreadOk(s.threads, i);
    match e
    case Exit(v) => ExitTouchesOnlyMe(s, v);
    case Schedule => ScheduleThread(s, i);
    case JoinCall(h, want) => if Decide(s, h).MustWait? { JoinLinks(s, h, want); }
    case _ =>
  }

  /** A deadlock is for ever: no step frees one of its threads. */
  lemma DeadlockPersists(s: State, e: Event, s': State, d: set<nat>)
    requires Inv(s) && Enabled(e, s) && s' == Apply(e, s) && Deadlocked(s.threads, d)
    ensures Deadlocked(s'.threads, d)
  {
    var us := s'.threads;
    forall i | i in d ensures StuckIn(us, d, i) {
      assert StuckIn(s.threads, d, i);
      assert StuckIn(s.threads, d, s.threads[i].point.target);
      assert ThreadOk(s.threads, s.threads[i].point.target);
      JoinerStays(s, e, i);
    }
  }

  lemma {:induction false} DeadlockedForEver(s: State, es: seq<Event>, d: set<nat>)
    requires Inv(s) && Legal(s, es) && Deadlocked(s.threads, d)
    ensures Deadlocked(End(s, es).threads, d)
  {
    if es != [] {
      var es' := es[..|es| - 1];
      DeadlockedForEver(s, es', d);
      LegalKeepsInv(s, es');
      DeadlockPersists(End(s, es'), es[|es| - 1], End(s, es), d);
    }
  }

  // ----- chains of joins -----

  /** The thread reached from `i` by following `n` joins, if that many are pending. */
  function Follow(ts: seq<Thread>, i: nat, n: nat): Option<nat>
    decreases n
  {
    if n == 0 then Some(i)
    else if i < |ts| && ts[i].point.Joining? then Follow(ts, ts[i].point.target, n - 1)
    else None
  }

  ghost predicate Reaches(ts: seq<Thread>, i: nat, c: nat) {
    exists n: nat :: Follow(ts, i, n) == Some(c)
  }

  lemma {:induction false} FollowAppend(ts: seq<Thread>, i: nat, n: nat, j: nat)
    requires Follow(ts, i, n) == Some(j) && j < |ts| && ts[j].point.Joining?
    ensures Follow(ts, i, n + 1) == Some(ts[j].point.target)
    decreases n
  {
    if n > 0 { FollowAppend(ts, ts[i].point.target, n - 1, j); }
  }

  /** The threads on a chain that ends in a thread which is not itself waiting. */
  function Chain(ts: seq<Thread>, i: nat, n: nat): (d: set<nat>)
    requires Follow(ts, i, n).Some?
    ensures i in d && Follow(ts, i, n).value in d
    ensures forall x | x in d && x != Follow(ts, i, n).value ::
              x < |ts| && ts[x].point.Joining? && ts[x].point.target in d
    decreases n
  {
    if n == 0 then {i} else {i} + Chain(ts, ts[i].point.target, n - 1)
  }

  /** The wait that thread `c` is about to begin on thread `t`. */
  ghost predicate StartsWaiting(ts: seq<Thread>, us: seq<Thread>, c: nat, t: nat) {
    && |us| == |ts| && c < |ts| && !ts[c].point.Joining?
    && us[c].point.Joining? && us[c].point.target == t
    && forall i | 0 <= i < |ts| && i != c :: us[i].point == ts[i].point
  }

  lemma ChainCloses(ts: seq<Thread>, us: seq<Thread>, c: nat, t: nat)
    requires StartsWaiting(ts, us, c, t) && Reaches(ts, t, c)
    ensures exists d :: Deadlocked(us, d)
  {
    var n: nat :| Follow(ts, t, n) == Some(c);
    var d := Chain(ts, t, n);
    assert forall i | i in d :: StuckIn(us, d, i);
    assert Deadlocked(us, d);
  }

  /** The part of a deadlocked set that lies on the chain from `t`, when the chain misses `c`. */
  lemma ReachedPart(ts: seq<Thread>, us: seq<Thread>, c: nat, t: nat, d: set<nat>)
    requires StartsWaiting(ts, us, c, t) && Deadlocked(us, d) && c in d && !Reaches(ts, t, c)
    ensures exists p :: Deadlocked(ts, p)
  {
    var p := set x | x in d && Reaches(ts, t, x);
    assert StuckIn(us, d, c);
    assert t in p by { assert Follow(ts, t, 0) == Some(t); }
    forall x | x in p ensures StuckIn(ts, p, x) {
      assert StuckIn(us, d, x);
      var n: nat :| Follow(ts, t, n) == Some(x);
      assert x != c && us[x].point == ts[x].point;
      FollowAppend(ts, t, n, x);
    }
    assert Deadlocked(ts, p);
  }

  lemma DeadlockHasChain(ts: seq<Thread>, us: seq<Thread>, c: nat, t: nat, d: set<nat>)
    requires StartsWaiting(ts, us, c, t) && DeadlockFree(ts) && Deadlocked(us, d)
    ensures Reaches(ts, t, c)
  {
    if c in d {
      if !Reaches(ts, t, c) {
        ReachedPart(ts, us, c, t, d);
      }
    } else {
      forall i | i in d ensures StuckIn(ts, d, i) { assert StuckIn(us, d, i); }
      assert Deadlocked(ts, d);
    }
  }

  /** Main result: a join that starts to wait creates a deadlock if and only if the target's own
      chain of joins leads back to the caller; EDEADLK is returned exactly for chains of length one. */
  lemma JoinDeadlocksExactly(s: State, h: Handle, want: bool)
    requires Inv(s) && Enabled(JoinCall(h, want), s) && DeadlockFree(s.threads)
    requires !h.detach.Detached? && 0 <= h.tid < |s.threads|
    ensures Decide(s, h) == Returned(EDEADLK) <==> Follow(s.threads, h.tid, 1) == Some(s.current.value)
    ensures Decide(s, h).MustWait? ==>
              (DeadlockFree(Apply(JoinCall(h, want), s).threads) <==> !Reaches(s.threads, h.tid, s.current.value))
  {
    var c, ts := s.current.value, s.threads;
    InvTids(s);
    SearchFinds(ts, s.queue, h.tid);
    assert ThreadOk(ts, c) && ThreadOk(ts, h.tid);
    assert Follow(ts, h.tid, 1) == Some(c) <==> Waits(ts, h.tid, c) by {
      if Waits(ts, h.tid, c) { assert Follow(ts, c, 0) == Some(c); }
    }
    if Decide(s, h).MustWait? {
      DecideMustWait(s, h);
      JoinLinks(s, h, want);
      var us := JoinStep(s, h, want).threads;
      assert StartsWaiting(ts, us, c, h.tid);
      if Reaches(ts, h.tid, c) {
        ChainCloses(ts, us, c, h.tid);
      } else if d :| Deadlocked(us, d) {
        DeadlockHasChain(ts, us, c, h.tid, d);
      }
    }
  }

  // ----- whole runs -----

  ghost predicate ClosesCycle(s: State, e: Event)
    requires Enabled(e, s)
  {
    && e.JoinCall? && Decide(s, e.handle).MustWait?
    && Reaches(s.threads, Decide(s, e.handle).target, s.current.value)
  }

  /** Some join of the run started to wait while its target's chain of joins led to the caller. */
  ghost predicate SomeJoinClosedCycle(s: State, es: seq<Event>)
    requires Legal(s, es)
  {
    es != [] &&
    var es', e := es[..|es| - 1], es[|es| - 1];
    SomeJoinClosedCycle(s, es') || ClosesCycle(End(s, es'), e)
  }

  lemma NewJoiner(s: State, e: Event, s': State, i: nat)
    requires Inv(s) && Enabled(e, s) && s' == Apply(e, s) && i < |s'.threads| && s'.threads[i].point.Joining?
    ensures i < |s.threads| && |s.threads| <= |s'.threads|
    ensures s'.threads[i].point == s.threads[i].point
            || (e.JoinCall? && s.current == Some(i) && Decide(s, e.handle) == MustWait(s'.threads[i].point.target))
  {
    match e
    case Exit(v) => ExitTouchesOnlyMe(s, v);
    case Schedule =>
      ScheduleThread(s, 0);
      ScheduleThread(s, i);
    case JoinCall(h, want) => if Decide(s, h).MustWait? { JoinLinks(s, h, want); }
    case _ =>
  }

  lemma NoNewDeadlock(s: State, e: Event, s': State)
    requires Inv(s) && Enabled(e, s) && s' == Apply(e, s) && DeadlockFree(s.threads)
    requires !(e.JoinCall? && Decide(s, e.handle).MustWait?)
    ensures DeadlockFree(s'.threads)
  {
    if d :| Deadlocked(s'.threads, d) {
      forall i | i in d ensures StuckIn(s.threads, d, i) {
        assert StuckIn(s'.threads, d, i);
        NewJoiner(s, e, s', i);
      }
      assert Deadlocked(s.threads, d);
    }
  }

  lemma StepDeadlocksExactly(s: State, e: Event, s': State)
    requires Inv(s) && Enabled(e, s) && s' == Apply(e, s) && DeadlockFree(s.threads)
    ensures DeadlockFree(s'.threads) <==> !ClosesCycle(s, e)
  {
    if e.JoinCall? && Decide(s, e.handle).MustWait? {
      DecideMustWait(s, e.handle);
      JoinDeadlocksExactly(s, e.handle, e.want);
    } else {
      NoNewDeadlock(s, e, s');
    }
  }

  /** Main result: a run ends in a deadlock if and only if, somewhere in it, a join started to wait
      while its target's chain of joins led back to the caller. */
  lemma {:induction false} RunDeadlocksExactly(es: seq<Event>)
    requires Legal(Init, es)
    ensures DeadlockFree(End(Init, es).threads) <==> !SomeJoinClosedCycle(Init, es)
  {
    if es == [] {
      forall d ensures !Deadlocked(Init.threads, d) {
        if d != {} {
          var i :| i in d;
          assert !StuckIn(Init.threads, d, i);
        }
      }
    } else {
      var es', e := es[..|es| - 1], es[|es| - 1];
      var s, s' := End(Init, es'), End(Init, es);
      RunDeadlocksExactly(es');
      ReachableInv(es');
      if d :| Deadlocked(s.threads, d) {
        DeadlockPersists(s, e, s', d);
      } else {
        StepDeadlocksExactly(s, e, s');
      }
    }
  }

  // ----- progress -----

  /** An unfinished thread that waits for no unfinished thread. */
  ghost predicate CanProceed(ts: seq<Thread>, i: nat) {
    Unfinished(ts, i) && (ts[i].point.Joining? ==> !Unfinished(ts, ts[i].point.target))
  }

  ghost function UnfinishedSet(ts: seq<Thread>): set<nat> {
    set i: nat | i < |ts| && Unfinished(ts, i)
  }

  lemma NothingProceedsExactly(s: State)
    requires Inv(s) && UnfinishedSet(s.threads) != {}
    ensures (forall j: nat :: !CanProceed(s.threads, j)) <==> Deadlocked(s.threads, UnfinishedSet(s.threads))
  {
    var ts, d := s.threads, UnfinishedSet(s.threads);
    if Deadlocked(ts, d) {
      forall j: nat ensures !CanProceed(ts, j) {
        if j in d { assert StuckIn(ts, d, j); }
      }
    } else {
      var i :| i in d && !StuckIn(ts, d, i);
      assert ThreadOk(ts, i);
      assert CanProceed(ts, i);
    }
  }

  /** Running, or near enough in line to run within MAX_THREADS scheduler calls. */
  ghost predicate RunsSoon(s: State, j: nat)
    requires Wf(s)
  {
    s.current == Some(j) || exists k: nat :: k + 1 <= MAX_THREADS && InLine(Abs(s), j, k)
  }

  /** An unfinished thread is running or in line. */
  lemma UnfinishedIsInLine(s: State, j: nat)
    requires Inv(s) && !s.ended && Unfinished(s.threads, j)
    ensures RunsSoon(s, j)
  {
    if s.current != Some(j) {
      assert Placed(s, j);
      ReadyMembers(s.threads, s.queue);
      var k :| 0 <= k < |Abs(s).ready| && Abs(s).ready[k] == j;
      assert InLine(Abs(s), j, k);
      LineIsShort(s, j, k);
    }
  }

  /** Main result: a process with unfinished threads is stuck, nobody being able to proceed, if and
      only if all its unfinished threads are deadlocked together; and without any deadlock one that
      can proceed is running or, by BoundedWaiting, dispatched within MAX_THREADS scheduler calls. */
  lemma StuckExactlyWhenDeadlocked(es: seq<Event>)
    requires Legal(Init, es) && !End(Init, es).ended && UnfinishedSet(End(Init, es).threads) != {}
    ensures var s := End(Init, es);
            && Wf(s)
            && ((exists j: nat :: CanProceed(s.threads, j) && RunsSoon(s, j)) <==>
                  !Deadlocked(s.threads, UnfinishedSet(s.threads)))
            && (DeadlockFree(s.threads) ==> exists j: nat :: CanProceed(s.threads, j) && RunsSoon(s, j))
  {
    ReachableInv(es);
    var s := End(Init, es);
    NothingProceedsExactly(s);
    if j: nat :| CanProceed(s.threads, j) {
      UnfinishedIsInLine(s, j);
    }
  }

  // ----- a deadlock the test does not see -----

  function Fresh(tid: int): Thread {
    Thread(tid, Ready, 0, -1, {}, NotStarted, 0)
  }

  /** The scheduler step from an unfinished thread to a queue head that has not run yet. */
  lemma SwitchToNew(s: State)
    requires Wf(s) && s.current.Some? && s.queue != [] && s.queue[0] != s.current.value
    requires Me(s).status != Terminated
    requires s.threads[s.queue[0]].status == Ready && s.threads[s.queue[0]].point.NotStarted?
    ensures var c, n := s.current.value, s.queue[0];
            ScheduleStep(s) ==
            s.(threads := s.threads[c := Me(s).(status := Ready)]
                          [n := s.threads[n].(status := Running, point := User)],
               queue := s.queue[1..] + [c], current := Some(n), alarmBlocked := false)
  {
    var r := Requeue(s);
    assert r.queue[0] == s.queue[0];
    assert Scan(r.threads, r.queue, |r.queue|) == Scanned(Some(s.queue[0]), r.queue[1..]);
    assert r.queue[1..] == s.queue[1..] + [s.current.value];
  }

  function CycleCall(t: nat): Event {
    JoinCall(Handle(t, Joinable), true)
  }

  function Staged(th0: Thread, th1: Thread, th2: Thread, q: seq<nat>, current: nat): State {
    State([th0, th1, th2], q, Some(current), 3, false, [], false, [], [])
  }

  /** One join call of the cycle: `a` is current and joins `b`, which nobody joined yet. */
  lemma CycleJoin(s: State, a: nat, b: nat)
    requires Inv(s) && !s.ended && s.current == Some(a) && Me(s).point.User?
    requires b < |s.threads| && b != a && s.threads[b].waiter == -1 && Me(s).waiter != b
    ensures Enabled(JoinCall(Handle(b, Joinable), true), s)
    ensures Apply(JoinCall(Handle(b, Joinable), true), s) ==
            s.(threads := LinkWaiter(s.threads, a, b, true), alarmBlocked := false)
  {
    InvTids(s);
    SearchFinds(s.threads, s.queue, b);
    assert Placed(s, b);
    JoinLinks(s, Handle(b, Joinable), true);
  }

  lemma CycleCreates()
    ensures Reachable(Staged(InitialThread, Fresh(1), Fresh(2), [1, 2], 0))
  {
    assert After(Init, []) == Some(Init);
    var s1 := State([InitialThread, Fresh(1)], [1], Some(0), 2, false, [], false, [], []);
    ReachStep(Init, Create(false, false), s1);
    ReachStep(s1, Create(false, false), Staged(InitialThread, Fresh(1), Fresh(2), [1, 2], 0));
  }

  lemma CycleFirst(s2: State, s3: State, s4: State)
    requires s2 == Staged(InitialThread, Fresh(1), Fresh(2), [1, 2], 0) && Reachable(s2)
    requires s3 == Staged(InitialThread.(status := Waiting, point := Joining(1, true)),
                          Fresh(1).(waiter := 0), Fresh(2), [1, 2], 0)
    requires s4 == Staged(InitialThread.(status := Ready, point := Joining(1, true)),
                          Fresh(1).(status := Running, waiter := 0, point := User), Fresh(2), [2, 0], 1)
    ensures Reachable(s4)
  {
    ReachableHasInv(s2);
    CycleJoin(s2, 0, 1);
    ReachStep(s2, CycleCall(1), s3);
    SwitchToNew(s3);
    ReachStep(s3, Schedule, s4);
  }

  lemma CycleSecond(s4: State, s5: State, s6: State)
    requires s4 == Staged(InitialThread.(status := Ready, point := Joining(1, true)),
                          Fresh(1).(status := Running, waiter := 0, point := User), Fresh(2), [2, 0], 1)
    requires Reachable(s4)
    requires s5 == Staged(s4.threads[0], Fresh(1).(status := Waiting, waiter := 0, point := Joining(2, true)),
                          Fresh(2).(waiter := 1), [2, 0], 1)
    requires s6 == Staged(s4.threads[0], Fresh(1).(status := Ready, waiter := 0, point := Joining(2, true)),
                          Fresh(2).(status := Running, waiter := 1, point := User), [0, 1], 2)
    ensures Reachable(s6)
  {
    ReachableHasInv(s4);
    CycleJoin(s4, 1, 2);
    ReachStep(s4, CycleCall(2), s5);
    SwitchToNew(s5);
    ReachStep(s5, Schedule, s6);
  }

  lemma CycleThird(s6: State, s7: State)
    requires s6 == Staged(InitialThread.(status := Ready, point := Joining(1, true)),
                          Fresh(1).(status := Ready, waiter := 0, point := Joining(2, true)),
                          Fresh(2).(status := Running, waiter := 1, point := User), [0, 1], 2)
    requires Reachable(s6) && s7 == s6.(threads := LinkWaiter(s6.threads, 2, 0, true))
    ensures Reachable(s7) && Deadlocked(s7.threads, {0, 1, 2})
  {
    ReachableHasInv(s6);
    CycleJoin(s6, 2, 0);
    ReachStep(s6, CycleCall(0), s7);
    assert forall i | i in {0, 1, 2} :: StuckIn(s7.threads, {0, 1, 2}, i);
  }

  /** Main result: three threads can join one another in a cycle and none of the three calls is
      refused, although EDEADLK exists for this. */
  lemma ThreeCycleReachable()
    ensures exists s :: Reachable(s) && Deadlocked(s.threads, {0, 1, 2})
  {
    CycleCreates();
    var t0 := InitialThread.(status := Ready, point := Joining(1, true));
    var s4 := Staged(t0, Fresh(1).(status := Running, waiter := 0, point := User), Fresh(2), [2, 0], 1);
    CycleFirst(Staged(InitialThread, Fresh(1), Fresh(2), [1, 2], 0),
               Staged(InitialThread.(status := Waiting, point := Joining(1, true)),
                      Fresh(1).(waiter := 0), Fresh(2), [1, 2], 0), s4);
    var t1 := Fresh(1).(waiter := 0, point := Joining(2, true));
    var s6 := Staged(t0, t1, Fresh(2).(status := Running, waiter := 1, point := User), [0, 1], 2);
    CycleSecond(s4, Staged(t0, t1.(status := Waiting), Fresh(2).(waiter := 1), [2, 0], 1), s6);
    CycleThird(s6, s6.(threads := LinkWaiter(s6.threads, 2, 0, true)));
  }

  // ----- parents joining their children -----

  /** In the run, a thread that waits in thread_join waits for a thread it created itself. */
  ghost predicate JoinsOwnChildren(s: State, es: seq<Event>)
    requires Legal(s, es)
  {
    es == [] ||
    var es', e := es[..|es| - 1], es[|es| - 1];
    var p := End(s, es');
    && JoinsOwnChildren(s, es')
    && (e.JoinCall? && Decide(p, e.handle).MustWait? ==>
          p.threads[Decide(p, e.handle).target].parent == p.current.value)
  }

  ghost predicate JoinsDown(ts: seq<Thread>) {
    forall i | 0 <= i < |ts| && ts[i].point.Joining? :: i < ts[i].point.target < |ts|
  }

  lemma {:induction false} ChildJoinsGoDown(es: seq<Event>)
    requires Legal(Init, es) && JoinsOwnChildren(Init, es)
    ensures JoinsDown(End(Init, es).threads)
  {
    if es != [] {
      var es', e := es[..|es| - 1], es[|es| - 1];
      var s, s' := End(Init, es'), End(Init, es);
      ChildJoinsGoDown(es');
      ReachableInv(es');
      forall i | 0 <= i < |s'.threads| && s'.threads[i].point.Joining?
        ensures i < s'.threads[i].point.target < |s'.threads|
      {
        NewJoiner(s, e, s', i);
        if s'.threads[i].point != s.threads[i].point {
          assert ThreadOk(s.threads, s'.threads[i].point.target);
        }
      }
    }
  }

  lemma {:induction false} NoClimb(ts: seq<Thread>, d: set<nat>, i: nat)
    requires JoinsDown(ts) && Deadlocked(ts, d) && i in d
    ensures false
    decreases |ts| - i
  {
    assert StuckIn(ts, d, i);
    NoClimb(ts, d, ts[i].point.target);
  }

  /** Main result: when threads join only threads they created, the waits-for relation follows the
      order of creation, no set of threads is ever deadlocked, and while some thread is unfinished
      there is one that nothing unfinished holds up. */
  lemma ParentsJoiningChildrenNeverDeadlock(es: seq<Event>)
    requires Legal(Init, es) && JoinsOwnChildren(Init, es)
    ensures var ts := End(Init, es).threads;
            && (forall i, t: nat | Waits(ts, i, t) :: i < t)
            && DeadlockFree(ts)
            && ((exists i: nat :: Unfinished(ts, i)) ==> exists j: nat :: CanProceed(ts, j))
  {
    ChildJoinsGoDown(es);
    var ts := End(Init, es).threads;
    if d :| Deadlocked(ts, d) {
      var i :| i in d;
      NoClimb(ts, d, i);
    }
    if i: nat :| Unfinished(ts, i) {
      assert i in UnfinishedSet(ts);
      ReachableInv(es);
      NothingProceedsExactly(End(Init, es));
    }
  }

  /** Under the same discipline the process never gets stuck: while some thread is unfinished, one
      that nothing unfinished holds up is running or dispatched within MAX_THREADS scheduler calls. */
  lemma ParentsJoiningChildrenProgress(es: seq<Event>)
    requires Legal(Init, es) && JoinsOwnChildren(Init, es) && !End(Init, es).ended
    requires exists i: nat :: Unfinished(End(Init, es).threads, i)
    ensures var s := End(Init, es);
            Wf(s) && exists j: nat :: CanProceed(s.threads, j) && RunsSoon(s, j)
  {
    var s := End(Init, es);
    var i: nat :| Unfinished(s.threads, i);
    assert i in UnfinishedSet(s.threads);
    ParentsJoiningChildrenNeverDeadlock(es);
    StuckExactlyWhenDeadlocked(es);
  }
}
