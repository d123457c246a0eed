/** What thread_join and thread_exit promise: which error is returned when, that the
    right value is delivered, and that each thread is joined at most once. */
module JoinProtocol {
  import opened Wrappers
  import opened ThreadModel
  import opened ThreadInvariant

  // ----- outcome of a join call -----

  /** Main result: what thread_join decides, in terms of who waits for whom. */
  lemma JoinOutcome(s: State, h: Handle)
    requires Inv(s) && Enabled(JoinCall(h, true), s)
    ensures h.detach.Detached? ==> Decide(s, h) == Returned(EINVAL)
    ensures !h.detach.Detached? ==>
            var c, valid := s.current.value, 0 <= h.tid < |s.threads|;
            && (valid ==> (Decide(s, h) == Returned(EDEADLK) <==> Waits(s.threads, h.tid, c)))
            && (valid ==> (Decide(s, h) == Returned(ESRCH) <==> h.tid == c))
            && (valid && h.tid != c && !Waits(s.threads, h.tid, c) ==>
                  Decide(s, h) == if s.threads[h.tid].waiter != -1 then Returned(EINVAL)
                                  else if h.detach.Joinable? then MustWait(h.tid) else Returned(Zero))
            && (!valid ==> Decide(s, h) == Returned(if h.tid == -1 && Me(s).waiter == -1 then EDEADLK else ESRCH))
  {
    InvTids(s);
    SearchFinds(s.threads, s.queue, h.tid);
    assert ThreadOk(s.threads, s.current.value);
    if 0 <= h.tid < |s.threads| {
      assert Placed(s, h.tid);
      assert ThreadOk(s.threads, h.tid);
    }
  }

  lemma NoMutualWait(s: State, a: nat, b: nat)
    requires Inv(s) && Waits(s.threads, a, b)
    ensures Unfinished(s.threads, a) && a != b && !Waits(s.threads, b, a)
    ensures forall x | Waits(s.threads, x, b) :: x == a
  {
    assert ThreadOk(s.threads, a);
    forall x | Waits(s.threads, x, b) ensures x == a { assert ThreadOk(s.threads, x); }
  }

  // ----- the end of a wait -----

  lemma PollThenFinish(s: State)
    requires Enabled(JoinPoll, s) && Enabled(JoinFinish, Apply(JoinPoll, s))
    ensures Legal(s, [JoinPoll, JoinFinish])
    ensures End(s, [JoinPoll, JoinFinish]) == Apply(JoinFinish, Apply(JoinPoll, s))
  {
    assert After(s, []) == Some(s);
    Extend(s, [], JoinPoll);
    assert [] + [JoinPoll] == [JoinPoll];
    Extend(s, [JoinPoll], JoinFinish);
    assert [JoinPoll] + [JoinFinish] == [JoinPoll, JoinFinish];
  }

  /** Main result: a turn of the wait loop changes nothing while the target is unfinished; once it
      has finished, the turn leaves the loop, and the call stores the target's value if asked to
      and returns to the caller with SIGALRM unblocked, having changed nothing else. */
  lemma WaitEndsExactly(s: State)
    requires Inv(s) && Enabled(JoinPoll, s)
    ensures var t, want := Me(s).point.target, Me(s).point.want;
            var s1 := Apply(JoinPoll, s);
            && t < |s.threads|
            && (Unfinished(s.threads, t) ==> s1 == s)
            && (!Unfinished(s.threads, t) ==>
                  && s1 == WithMe(s, Me(s).(point := Collecting(t, want)))
                  && Legal(s, [JoinPoll, JoinFinish])
                  && Delivered(s1) == (if want then Some(s.threads[t].ret) else None)
                  && End(s, [JoinPoll, JoinFinish]) == WithMe(s, Me(s).(point := User)).(alarmBlocked := false))
  {
    var s1 := Apply(JoinPoll, s);
    if !Unfinished(s.threads, Me(s).point.target) {
      PollKeepsInv(s);
      PollThenFinish(s);
    }
  }

  // ----- finished threads -----

  /** A TERMINATED thread is never dispatched again and its status and value are final. */
  lemma TerminatedIsFinal(s: State, e: Event, t: nat)
    requires Inv(s) && Enabled(e, s) && t < |s.threads| && s.threads[t].status == Terminated
    ensures var s' := Apply(e, s);
            && t < |s'.threads| && s'.threads[t].status == Terminated && s'.threads[t].ret == s.threads[t].ret
            && (s'.current == Some(t) ==> s.current == Some(t) && !e.Schedule?)
  {
    assert ThreadOk(s.threads, t);
    match e
    case Exit(v) => ExitTouchesOnlyMe(s, v);
    case Schedule => ScheduleThread(s, t); TerminatedNotResumed(s, t);
    case JoinCall(h, want) => if Decide(s, h).MustWait? { JoinLinks(s, h, want); DecideMustWait(s, h); }
    case _ =>
  }

  lemma TerminatedNotResumed(s: State, t: nat)
    requires Inv(s) && Enabled(Schedule, s) && t < |s.threads| && s.threads[t].status == Terminated
    ensures ScheduleStep(s).current != Some(t)
  {
    ScheduleThread(s, t);
    ScheduleResult(s);
  }

  // ----- delivered values -----

  /** The values thread `t` returned from its start routine or passed to thread_exit, in order. */
  function Results(s: State, es: seq<Event>, t: nat): seq<int>
    requires Legal(s, es)
  {
    if es == [] then []
    else
      var es', e := es[..|es| - 1], es[|es| - 1];
      Results(s, es', t) +
      if End(s, es').current != Some(t) then []
      else match e case Return(v) => [v] case Exit(v) => [v] case _ => []
  }

  ghost predicate Recorded(th: Thread, rs: seq<int>) {
    if th.point.Returning? then rs == [th.ret]
    else if th.point.Exited? then rs == [th.ret] || rs == [th.ret, th.ret]
    else rs == []
  }

  /** A step by which thread `t` does not finish changes neither its value nor how far it got. */
  lemma OthersKeepResult(s: State, e: Event, t: nat)
    requires Inv(s) && Enabled(e, s) && t < |s.threads|
    requires s.current == Some(t) ==> !e.Return? && !e.Exit?
    ensures var th, th' := s.threads[t], Apply(e, s).threads[t];
            && th'.ret == th.ret
            && (th'.point.Returning? <==> th.point.Returning?) && (th'.point.Exited? <==> th.point.Exited?)
  {
    match e
    case Exit(v) => ExitTouchesOnlyMe(s, v);
    case Schedule => ScheduleThread(s, t);
    case JoinCall(h, want) => if Decide(s, h).MustWait? { JoinLinks(s, h, want); DecideMustWait(s, h); }
    case _ =>
  }

  lemma FinishRecordsResult(s: State, e: Event, t: nat)
    requires Inv(s) && Enabled(e, s) && s.current == Some(t) && (e.Return? || e.Exit?)
    ensures var th := Apply(e, s).threads[t];
            th.ret == e.value && (if e.Return? then th.point.Returning? else th.point.Exited?)
  {
    if e.Exit? { ExitTouchesOnlyMe(s, e.value); }
  }

  lemma OneMoreAtMost(s: State, e: Event)
    requires Inv(s) && Enabled(e, s)
    ensures |s.threads| <= |Apply(e, s).threads| <= |s.threads| + 1
    ensures |Apply(e, s).threads| > |s.threads| ==> e.Create? && Apply(e, s).threads[|s.threads|].point.NotStarted?
  {
    if e.Schedule? { ScheduleResult(s); }
    if e.Exit? { ExitTouchesOnlyMe(s, e.value); }
  }

  lemma {:induction false} NoResultsYet(s: State, es: seq<Event>, t: nat)
    requires Inv(s) && Legal(s, es) && t >= |End(s, es).threads|
    ensures Results(s, es, t) == []
  {
    if es != [] {
      var es' := es[..|es| - 1];
      LegalKeepsInv(s, es');
      OneMoreAtMost(End(s, es'), es[|es| - 1]);
      NoResultsYet(s, es', t);
    }
  }

  lemma StepRecords(s: State, e: Event, t: nat, rs: seq<int>)
    requires Inv(s) && Enabled(e, s) && t < |s.threads| && Recorded(s.threads[t], rs)
    ensures t < |Apply(e, s).threads|
    ensures Recorded(Apply(e, s).threads[t],
                     if s.current == Some(t) && (e.Return? || e.Exit?) then rs + [e.value] else rs)
  {
    OneMoreAtMost(s, e);
    assert ThreadOk(s.threads, t);
    if s.current == Some(t) && (e.Return? || e.Exit?) {
      FinishRecordsResult(s, e, t);
    } else {
      OthersKeepResult(s, e, t);
    }
  }

  /** Each thread produces one result, and its TCB holds it from then on. */
  lemma {:induction false} ResultsRecorded(es: seq<Event>, t: nat)
    requires Legal(Init, es) && t < |End(Init, es).threads|
    ensures Recorded(End(Init, es).threads[t], Results(Init, es, t))
  {
    InitInv();
    if es != [] {
      var es', e := es[..|es| - 1], es[|es| - 1];
      var s := End(Init, es');
      ReachableInv(es');
      if t < |s.threads| {
        ResultsRecorded(es', t);
        StepRecords(s, e, t, Results(Init, es', t));
        assert Results(Init, es', t) + [] == Results(Init, es', t);
      } else {
        OneMoreAtMost(s, e);
        NoResultsYet(Init, es', t);
      }
    }
  }

  /** Main result: a thread_join that returns 0 after waiting has stored the value its target
      returned or passed to thread_exit; the target has finished and produced no other value. */
  lemma JoinDeliversResult(es: seq<Event>)
    requires Legal(Init, es) && Enabled(JoinFinish, End(Init, es))
    ensures var s := End(Init, es);
            var t := Me(s).point.target;
            && s.threads[t].status == Terminated
            && Results(Init, es, t) != []
            && (Me(s).point.want ==>
                  Delivered(s).Some? && forall v | v in Results(Init, es, t) :: Delivered(s) == Some(v))
  {
    ReachableInv(es);
    var s := End(Init, es);
    assert ThreadOk(s.threads, s.current.value);
    var t := Me(s).point.target;
    assert ThreadOk(s.threads, t);
    ResultsRecorded(es, t);
  }

  // ----- at most one join -----

  /** The step is a thread_join on `t` returning 0, after waiting or at once. */
  predicate ReturnsZero(s: State, e: Event, t: nat)
    requires Enabled(e, s)
  {
    match e
    case JoinFinish => Me(s).point.target == t
    case JoinCall(h, _) => h.tid == t && Decide(s, h) == Returned(Zero)
    case _ => false
  }

  /** Number of joins on `t` that returned 0. */
  function ZeroReturns(s: State, es: seq<Event>, t: nat): nat
    requires Legal(s, es)
  {
    if es == [] then 0
    else
      var es', e := es[..|es| - 1], es[|es| - 1];
      ZeroReturns(s, es', t) + if ReturnsZero(End(s, es'), e, t) then 1 else 0
  }

  /** A call on `t`, which nobody joined yet, with a handle neither JOINABLE nor DETACHED. */
  ghost predicate UnsetJoin(s: State, e: Event, t: nat) {
    && e.JoinCall? && e.handle == Handle(t, Unset)
    && s.current.Some? && t != s.current.value && t < |s.threads| && s.threads[t].waiter == -1
    && !Waits(s.threads, t, s.current.value)
  }

  ghost function UnsetJoins(s: State, es: seq<Event>, t: nat): nat
    requires Legal(s, es)
  {
    if es == [] then 0
    else
      var es', e := es[..|es| - 1], es[|es| - 1];
      UnsetJoins(s, es', t) + if UnsetJoin(End(s, es'), e, t) then 1 else 0
  }

  lemma ReturnsZeroExactly(s: State, e: Event, t: nat)
    requires Inv(s) && Enabled(e, s)
    ensures ReturnsZero(s, e, t) <==> (e.JoinFinish? && Me(s).point.target == t) || UnsetJoin(s, e, t)
  {
    if e.JoinCall? {
      assert Enabled(JoinCall(e.handle, true), s);
      JoinOutcome(s, e.handle);
    }
  }

  /** The account of joins on `t` that waited: one once its recorded waiter has left thread_join, none before. */
  function Account(ts: seq<Thread>, t: nat): nat {
    if t < |ts| && ts[t].waiter != -1 && !Claim(ts, ts[t].waiter, t) then 1 else 0
  }

  predicate Claim(ts: seq<Thread>, w: int, t: nat) {
    0 <= w < |ts| && (ts[w].point.Joining? || ts[w].point.Collecting?) && ts[w].point.target == t
  }

  lemma ClaimantIsWaiter(s: State, w: nat, t: nat)
    requires Inv(s) && Claim(s.threads, w, t)
    ensures t < |s.threads| && s.threads[t].waiter == w
  {
    assert ThreadOk(s.threads, w);
  }

  lemma LinkAccount(s: State, w: nat, j: nat, want: bool, t: nat)
    requires Inv(s) && w < |s.threads| && j < |s.threads| && w != j
    requires s.threads[j].waiter == -1 && s.threads[w].point.User? && s.threads[w].waiter != j
    ensures Account(LinkWaiter(s.threads, w, j, want), t) == Account(s.threads, t)
  {
  }

  lemma JoinAccount(s: State, h: Handle, want: bool, t: nat)
    requires Inv(s) && Enabled(JoinCall(h, want), s)
    ensures Account(JoinStep(s, h, want).threads, t) == Account(s.threads, t)
  {
    if Decide(s, h).MustWait? {
      JoinLinks(s, h, want);
      DecideMustWait(s, h);
      LinkAccount(s, s.current.value, Decide(s, h).target, want, t);
    }
  }

  lemma FinishAccount(s: State, t: nat)
    requires Inv(s) && Enabled(JoinFinish, s)
    ensures Account(FinishStep(s).threads, t) == Account(s.threads, t) + if Me(s).point.target == t then 1 else 0
  {
    ClaimantIsWaiter(s, s.current.value, Me(s).point.target);
  }

  lemma ExitAccount(s: State, v: int, t: nat)
    requires Inv(s) && Enabled(Exit(v), s)
    ensures Account(ExitStep(s, v).threads, t) == Account(s.threads, t)
  {
    ExitTouchesOnlyMe(s, v);
  }

  lemma QuietAccount(s: State, e: Event, t: nat)
    requires Inv(s) && Enabled(e, s) && (e.Return? || e.JoinPoll? || e.Kill? || e.Cleanup?)
    ensures Account(Apply(e, s).threads, t) == Account(s.threads, t)
  {
  }

  lemma CreateAccount(s: State, nh: bool, nr: bool, t: nat)
    requires Inv(s) && Enabled(Create(nh, nr), s)
    ensures Account(CreateStep(s, nh, nr).threads, t) == Account(s.threads, t)
  {
    if t < |s.threads| { assert ThreadOk(s.threads, t); }
  }

  lemma StepAccount(s: State, e: Event, t: nat)
    requires Inv(s) && Enabled(e, s)
    ensures Account(Apply(e, s).threads, t) ==
            Account(s.threads, t) + if e.JoinFinish? && Me(s).point.target == t then 1 else 0
  {
    match e
    case Create(nh, nr) => CreateAccount(s, nh, nr, t);
    case Exit(v) => ExitAccount(s, v, t);
    case Schedule => ScheduleAccount(s, t);
    case JoinCall(h, want) => JoinAccount(s, h, want, t);
    case JoinFinish => FinishAccount(s, t);
    case _ => QuietAccount(s, e, t);
  }

  lemma ScheduleAccount(s: State, t: nat)
    requires Inv(s) && Enabled(Schedule, s)
    ensures Account(ScheduleStep(s).threads, t) == Account(s.threads, t)
  {
    ScheduleThread(s, 0);
    if t < |s.threads| {
      ScheduleThread(s, t);
      assert ThreadOk(s.threads, t);
      if s.threads[t].waiter != -1 { ScheduleThread(s, s.threads[t].waiter); }
    }
  }

  /** Main result: the joins on `t` that returned 0 are the one whose caller is its recorded waiter,
      once that caller has left thread_join, and the calls with an unset detach state. */
  lemma {:induction false} JoinsAccounted(es: seq<Event>, t: nat)
    requires Legal(Init, es)
    ensures ZeroReturns(Init, es, t) == Account(End(Init, es).threads, t) + UnsetJoins(Init, es, t)
  {
    if es != [] {
      var es', e := es[..|es| - 1], es[|es| - 1];
      JoinsAccounted(es', t);
      ReachableInv(es');
      StepAccount(End(Init, es'), e, t);
      ReturnsZeroExactly(End(Init, es'), e, t);
    }
  }

  /** In every run at most one join on `t` waits and returns 0, whatever handles are used. */
  lemma JoinedAtMostOnce(es: seq<Event>, t: nat)
    requires Legal(Init, es)
    ensures UnsetJoins(Init, es, t) <= ZeroReturns(Init, es, t) <= UnsetJoins(Init, es, t) + 1
  {
    JoinsAccounted(es, t);
  }

  /** All joins of the run are called with handles of the given detach states. */
  ghost predicate UsesOnly(es: seq<Event>, kinds: set<DetachState>) {
    forall k | 0 <= k < |es| && es[k].JoinCall? :: es[k].handle.detach in kinds
  }

  lemma {:induction false} NoUnsetJoins(es: seq<Event>, kinds: set<DetachState>, t: nat)
    requires Legal(Init, es) && UsesOnly(es, kinds) && Unset !in kinds
    ensures UnsetJoins(Init, es, t) == 0
  {
    if es != [] {
      NoUnsetJoins(es[..|es| - 1], kinds, t);
    }
  }

  lemma {:induction false} UnsetJoinsRepeat(es: seq<Event>, e: Event, t: nat, n: nat) returns (more: seq<Event>)
    requires Legal(Init, es) && Enabled(e, End(Init, es)) && UnsetJoin(End(Init, es), e, t)
    ensures more == es + seq(n, _ => e) && Legal(Init, more)
    ensures ZeroReturns(Init, more, t) == ZeroReturns(Init, es, t) + n
    ensures Enabled(e, End(Init, more)) && UnsetJoin(End(Init, more), e, t)
    decreases n
  {
    more := es;
    if n > 0 {
      var most := UnsetJoinsRepeat(es, e, t, n - 1);
      more := most + [e];
      assert more[..|more| - 1] == most;
      ReachableInv(most);
      ReturnsZeroExactly(End(Init, most), e, t);
    }
  }

  lemma UnsetJoinPossible(es: seq<Event>, e: Event)
    requires es == [Create(false, false)] && e == JoinCall(Handle(1, Unset), false)
    ensures Legal(Init, es) && Enabled(e, End(Init, es)) && UnsetJoin(End(Init, es), e, 1)
  {
    assert es[..|es| - 1] == [];
    assert After(Init, []) == Some(Init);
  }

  /** Main result: no thread is joined with result 0 twice, in any run, if and only if no handle
      with an unset detach state is used. */
  lemma JoinedAtMostOnceExactly(kinds: set<DetachState>)
    ensures (forall es, t: nat | Legal(Init, es) && UsesOnly(es, kinds) :: ZeroReturns(Init, es, t) <= 1)
            <==> Unset !in kinds
  {
    if Unset in kinds {
      var es, e := [Create(false, false)], JoinCall(Handle(1, Unset), false);
      UnsetJoinPossible(es, e);
      var more := UnsetJoinsRepeat(es, e, 1, 2);
      assert UsesOnly(more, kinds);
    } else {
      forall es, t: nat | Legal(Init, es) && UsesOnly(es, kinds) ensures ZeroReturns(Init, es, t) <= 1 {
        JoinedAtMostOnce(es, t);
        NoUnsetJoins(es, kinds, t);
      }
    }
  }
}
