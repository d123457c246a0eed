/** What thread_create and thread_kill return and do, and which calls leave SIGALRM blocked. */
module CallOutcomes {
  import opened Wrappers
  import opened ThreadModel
  import opened ThreadInvariant
  import opened JoinProtocol

  // ----- what can happen next -----

  /** From user code every call is possible, whatever the calls before returned and left blocked, and
      any thread but main can return; the timer interrupts exactly while SIGALRM is not blocked. */
  lemma EverythingPossible(s: State, e: Event)
    requires Inv(s) && !s.ended && s.current.Some?
    ensures Enabled(Schedule, s) <==> !s.alarmBlocked
    ensures Me(s).point.User? && !e.Schedule? && !e.JoinPoll? && !e.JoinFinish? && !e.Return? ==> Enabled(e, s)
    ensures Me(s).point.User? && e.Return? ==> (Enabled(e, s) <==> s.current != Some(0))
    ensures Me(s).point.Returning? ==> Enabled(Exit(Me(s).ret), s)
    ensures !Me(s).point.User? && !Me(s).point.Returning? ==> Enabled(Schedule, s)
  {
    assert ThreadOk(s.threads, s.current.value);
  }

  // ----- thread_create -----

  /** Main result: a create succeeds exactly when both pointers are given and at most MAX_THREADS
      threads exist, and then adds one thread; a refused one adds nothing and is EAGAIN. */
  lemma CreateOutcome(s: State, nullHandle: bool, nullRoutine: bool)
    requires Inv(s) && Enabled(Create(nullHandle, nullRoutine), s)
    ensures var s', n := Apply(Create(nullHandle, nullRoutine), s), |s.threads|;
            var ok := !nullHandle && !nullRoutine && n <= MAX_THREADS;
            && CreateCode(s, nullHandle, nullRoutine) == (if ok then Zero else EAGAIN)
            && |s'.threads| == n + (if ok then 1 else 0) && s'.threads[..n] == s.threads
            && (ok ==> NewThread(s'.threads[n], n, s.current.value))
            && (ok ==> s'.queue == s.queue + [n] && s'.current == s.current)
            && (!ok ==> s' == s.(alarmBlocked := true))
  {
  }

  /** READY to enter its start routine, with nothing pending and nobody waiting for it. */
  ghost predicate NewThread(t: Thread, tid: int, parent: int) {
    && t.tid == tid && t.parent == parent
    && t.status == Ready && t.point == NotStarted && t.pending == {} && t.waiter == -1
  }

  /** The handle of a successful create names the new thread: joining it waits for that thread. */
  lemma CreatedCanBeJoined(s: State)
    requires Inv(s) && Enabled(Create(false, false), s) && CreateCode(s, false, false) == Zero
    ensures var s' := Apply(Create(false, false), s);
            Wf(s') && s'.current.Some? && Decide(s', Handle(s.threadCount, Joinable)) == MustWait(|s.threads|)
  {
    var s', h := Apply(Create(false, false), s), Handle(s.threadCount, Joinable);
    CreateKeepsInv(s, false, false);
    CreateOutcome(s, false, false);
    assert ThreadOk(s.threads, s.current.value);
    assert Enabled(JoinCall(h, true), s');
    JoinOutcome(s', h);
  }

  lemma {:induction false} RunWithThreads(n: nat) returns (es: seq<Event>)
    requires 1 <= n <= MAX_THREADS + 1
    ensures Legal(Init, es) && |End(Init, es).threads| == n && !End(Init, es).ended
    ensures Wf(End(Init, es)) && End(Init, es).current.Some? && Me(End(Init, es)).point.User?
  {
    if n == 1 {
      es := [];
      assert After(Init, []) == Some(Init);
    } else {
      es := RunWithThreads(n - 1);
      var s := End(Init, es);
      ReachableInv(es);
      CreateOutcome(s, false, false);
      CreateKeepsInv(s, false, false);
      Extend(Init, es, Create(false, false));
      es := es + [Create(false, false)];
    }
  }

  /** Main result: the process can have exactly 1 to MAX_THREADS + 1 threads. */
  lemma ThreadCountsPossible(n: nat)
    ensures (exists es :: Legal(Init, es) && !End(Init, es).ended && |End(Init, es).threads| == n)
            <==> 1 <= n <= MAX_THREADS + 1
  {
    if 1 <= n <= MAX_THREADS + 1 {
      var es := RunWithThreads(n);
    }
    forall es | Legal(Init, es) && !End(Init, es).ended ensures 1 <= |End(Init, es).threads| <= MAX_THREADS + 1 {
      ReachableInv(es);
    }
  }

  // ----- thread_kill -----

  /** Main result: a kill returns 0 exactly for a signal number and another existing thread, whose
      signal is then pending; it raises exactly for the caller's own tid, which is then EINVAL. */
  lemma KillOutcome(s: State, tid: int, sig: int)
    requires Inv(s) && Enabled(Kill(tid, sig), s)
    ensures var s', c := Apply(Kill(tid, sig), s), s.current.value;
            var ok := 0 <= sig <= 64 && 0 <= tid < |s.threads| && tid != c;
            && KillCode(s, tid, sig) == (if ok then Zero else EINVAL)
            && |s'.threads| == |s.threads|
            && (ok && sig > 0 ==> sig in s'.threads[tid].pending)
            && (forall i | 0 <= i < |s.threads| && !(ok && i == tid) :: s'.threads[i] == s.threads[i])
            && (ok ==> s'.threads[tid] == s.threads[tid].(pending := s'.threads[tid].pending)
                       && s.threads[tid].pending <= s'.threads[tid].pending <= s.threads[tid].pending + {sig})
            && s'.raised == s.raised + (if tid == c && 1 <= sig <= 64 then [Raise(c, sig)] else [])
            && s'.queue == s.queue && s'.current == s.current
  {
    InvTids(s);
    SearchFinds(s.threads, s.queue, tid);
    assert ThreadOk(s.threads, s.current.value);
    if 0 <= tid < |s.threads| { assert Placed(s, tid); }
  }

  // ----- SIGALRM -----

  /** Main result: SIGALRM is left blocked by a refused create, a join that returns ESRCH and a kill
      with a bad number, and by nothing else. */
  lemma LeavesBlockedExactly(s: State, e: Event)
    requires Inv(s) && Enabled(e, s)
    ensures Apply(e, s).alarmBlocked <==>
            match e
            case Create(nh, nr) => nh || nr || |s.threads| > MAX_THREADS
            case JoinCall(h, _) => Decide(s, h) == Returned(ESRCH)
            case Kill(_, sig) => sig < 0 || sig > 64
            case Return(_) => s.alarmBlocked
            case Cleanup => s.alarmBlocked
            case _ => false
  {
    match e
    case Create(nh, nr) => CreateOutcome(s, nh, nr);
    case Exit(v) => ExitTouchesOnlyMe(s, v);
    case Schedule => ScheduleResult(s);
    case _ =>
  }

  /** A refused join changes nothing but the blocking of SIGALRM. */
  lemma RefusedJoin(s: State, h: Handle, want: bool)
    requires Inv(s) && Enabled(JoinCall(h, want), s) && Decide(s, h).Returned?
    ensures Apply(JoinCall(h, want), s) == s.(alarmBlocked := Decide(s, h) == Returned(ESRCH))
  {
  }
}
