/** thread_kill and the delivery of pending signals when a thread resumes. */
module Signals {
  import opened Wrappers
  import opened ThreadModel
  import opened ThreadInvariant

  // ----- the resume loop -----

  ghost predicate StrictlyAscending(xs: seq<int>) {
    forall i, j | 0 <= i < j < |xs| :: xs[i] < xs[j]
  }

  lemma {:induction false} AscendingMembers(p: set<int>, i: nat)
    ensures forall g :: g in Ascending(p, i) <==> g in p && i <= g < NSIG
    decreases NSIG - i
  {
    if i < NSIG { AscendingMembers(p, i + 1); }
  }

  lemma Prepend(x: int, rest: seq<int>)
    requires StrictlyAscending(rest) && forall g | g in rest :: x < g
    ensures StrictlyAscending([x] + rest)
  {
    assert forall k | 0 <= k < |rest| :: rest[k] in rest;
  }

  lemma {:induction false} AscendingSorted(p: set<int>, i: nat)
    ensures StrictlyAscending(Ascending(p, i))
    decreases NSIG - i
  {
    if i < NSIG {
      var rest := Ascending(p, i + 1);
      AscendingSorted(p, i + 1);
      AscendingMembers(p, i + 1);
      if i in p {
        Prepend(i, rest);
        assert Ascending(p, i) == [i] + rest;
      } else {
        assert Ascending(p, i) == [] + rest;
        assert [] + rest == rest;
      }
    }
  }

  lemma AscendingSpec(p: set<int>)
    ensures StrictlyAscending(Ascending(p, 0))
    ensures forall g :: g in Ascending(p, 0) <==> g in p && 0 <= g < NSIG
  {
    AscendingMembers(p, 0);
    AscendingSorted(p, 0);
  }

  lemma {:induction false} AscendingOnce(xs: seq<int>, g: int)
    requires StrictlyAscending(xs)
    ensures multiset(xs)[g] == if g in xs then 1 else 0
  {
    if xs != [] {
      assert xs == [xs[0]] + xs[1..];
      AscendingOnce(xs[1..], g);
    }
  }

  lemma {:induction false} RaisesCount(n: nat, xs: seq<int>, t: nat, sig: int)
    ensures multiset(Raises(n, xs))[Raise(t, sig)] == if n == t then multiset(xs)[sig] else 0
  {
    if xs == [] {
      assert Raises(n, xs) == [];
    } else {
      RaisesCount(n, xs[1..], t, sig);
      assert xs == [xs[0]] + xs[1..];
      assert Raises(n, xs) == [Raise(n, xs[0])] + Raises(n, xs[1..]);
    }
  }

  /** What a resumption out of setjmp raises: each pending signal once, in ascending order. */
  lemma ResumeDelivers(s: State)
    requires Inv(s) && Enabled(Schedule, s) && ScheduleStep(s).current.Some?
    ensures var s' := ScheduleStep(s);
            var n := s'.current.value;
            && n < |s.threads| == |s'.threads|
            && (s.threads[n].point.NotStarted? ==>
                  s'.raised == s.raised && s'.threads[n].pending == s.threads[n].pending)
            && (!s.threads[n].point.NotStarted? ==>
                  var sigs := Ascending(s.threads[n].pending, 0);
                  && s'.raised == s.raised + Raises(n, sigs) && s'.threads[n].pending == {}
                  && StrictlyAscending(sigs) && forall g :: g in sigs <==> g in s.threads[n].pending)
  {
    ScheduleResult(s);
    RequeueKeeps(s);
    var r := Requeue(s);
    var k := FirstReady(r.threads, r.queue);
    var n := r.queue[k];
    RequeueThread(s, n);
    assert ThreadOk(s.threads, n);
    AscendingSpec(s.threads[n].pending);
    ResumePending(r.(queue := r.queue[k + 1..] + r.queue[..k]), n);
  }

  lemma ResumePending(r: State, n: nat)
    requires n < |r.threads| && forall g | g in r.threads[n].pending :: 1 <= g < NSIG
    ensures var s', th := Resume(r, n), r.threads[n];
            if th.point.NotStarted? then s'.raised == r.raised && s'.threads[n].pending == th.pending
            else s'.raised == r.raised + Raises(n, Ascending(th.pending, 0)) && s'.threads[n].pending == {}
  {
  }

  // ----- one step -----

  ghost predicate Pending(s: State, t: nat, sig: int) {
    t < |s.threads| && sig in s.threads[t].pending
  }

  /** The step resumes `t` out of setjmp. */
  ghost predicate Resumes(s: State, e: Event, t: nat) {
    && e.Schedule? && Enabled(e, s) && ScheduleStep(s).current == Some(t)
    && t < |s.threads| && !s.threads[t].point.NotStarted?
  }

  function Bit(b: bool): nat { if b then 1 else 0 }

  function Raised(s: State, t: nat, sig: int): nat {
    multiset(s.raised)[Raise(t, sig)]
  }

  /** thread_kill posts a signal that is not pending yet, or raises it for the caller. */
  ghost predicate Posts(s: State, e: Event, t: nat, sig: int) {
    && e.Kill? && e.tid == t < |s.threads| && e.sig == sig && 1 <= sig < NSIG
    && (s.current == Some(t) || sig !in s.threads[t].pending)
  }

  lemma KillFinds(s: State, tid: int)
    requires Inv(s) && !s.ended && s.current.Some?
    ensures Me(s).tid == s.current.value
    ensures Search(s.threads, s.queue, tid) ==
            if 0 <= tid < |s.threads| && tid != s.current.value then Some(tid) else None
  {
    InvTids(s);
    SearchFinds(s.threads, s.queue, tid);
    if 0 <= tid < |s.threads| { assert Placed(s, tid); }
  }

  lemma KillAccount(s: State, tid: int, g: int, t: nat, sig: int)
    requires Inv(s) && Enabled(Kill(tid, g), s)
    ensures var s' := KillStep(s, tid, g);
            Raised(s', t, sig) + Bit(Pending(s', t, sig)) ==
            Raised(s, t, sig) + Bit(Pending(s, t, sig)) + Bit(Posts(s, Kill(tid, g), t, sig))
  {
    KillFinds(s, tid);
  }

  lemma DispatchAccount(s: State, t: nat, sig: int)
    requires Inv(s) && Enabled(Schedule, s) && ScheduleStep(s).current.Some?
    ensures var s', n := ScheduleStep(s), ScheduleStep(s).current.value;
            n < |s.threads| &&
            Raised(s', t, sig) == Raised(s, t, sig) + Bit(t == n && Resumes(s, Schedule, n) && Pending(s, n, sig))
  {
    ResumeDelivers(s);
    var n := ScheduleStep(s).current.value;
    var sigs := Ascending(s.threads[n].pending, 0);
    RaisesCount(n, sigs, t, sig);
    AscendingSpec(s.threads[n].pending);
    AscendingOnce(sigs, sig);
  }

  lemma OthersKeepPending(s: State, t: nat)
    requires Inv(s) && Enabled(Schedule, s) && ScheduleStep(s).current != Some(t)
    ensures var s' := ScheduleStep(s);
            && |s'.threads| == |s.threads| && (t < |s.threads| ==> s'.threads[t].pending == s.threads[t].pending)
            && (s'.current.None? ==> s'.raised == s.raised)
  {
    ScheduleResult(s);
    var r := Requeue(s);
    var k := FirstReady(r.threads, r.queue);
    if t < |s.threads| {
      RequeueThread(s, t);
      if k < |r.queue| {
        ResumeThread(r, r.queue[k], t);
        ResumeOther(r.(queue := r.queue[k + 1..] + r.queue[..k]), r.queue[k], t);
      }
    }
  }

  lemma ResumeOther(r: State, n: nat, t: nat)
    requires n < |r.threads| && t < |r.threads| && n != t
    ensures Resume(r, n).threads[t] == r.threads[t]
  {
  }

  lemma ScheduleAccount(s: State, t: nat, sig: int)
    requires Inv(s) && Enabled(Schedule, s)
    ensures var s' := ScheduleStep(s);
            Raised(s', t, sig) + Bit(Pending(s', t, sig)) == Raised(s, t, sig) + Bit(Pending(s, t, sig))
    ensures Pending(s, t, sig) && !Resumes(s, Schedule, t) ==> Pending(ScheduleStep(s), t, sig)
    ensures Resumes(s, Schedule, t) ==> ScheduleStep(s).threads[t].pending == {}
  {
    if ScheduleStep(s).current == Some(t) {
      DispatchAccount(s, t, sig);
      ResumeDelivers(s);
    } else {
      OthersKeepPending(s, t);
      if ScheduleStep(s).current.Some? { DispatchAccount(s, t, sig); }
    }
  }

  /** Every other step leaves the log and all pending sets alone. */
  lemma QuietStep(s: State, e: Event, t: nat)
    requires Inv(s) && Enabled(e, s) && !e.Kill? && !e.Schedule?
    ensures Apply(e, s).raised == s.raised
    ensures t < |s.threads| ==> t < |Apply(e, s).threads| && Apply(e, s).threads[t].pending == s.threads[t].pending
    ensures |s.threads| <= t < |Apply(e, s).threads| ==> Apply(e, s).threads[t].pending == {}
  {
    match e
    case Exit(v) => ExitTouchesOnlyMe(s, v);
    case JoinCall(h, want) => if Decide(s, h).MustWait? { JoinLinks(s, h, want); }
    case _ =>
  }

  lemma StepAccount(s: State, e: Event, t: nat, sig: int)
    requires Inv(s) && Enabled(e, s)
    ensures var s' := Apply(e, s);
            Raised(s', t, sig) + Bit(Pending(s', t, sig)) ==
            Raised(s, t, sig) + Bit(Pending(s, t, sig)) + Bit(Posts(s, e, t, sig))
  {
    match e
    case Kill(tid, g) => KillAccount(s, tid, g, t, sig);
    case Schedule => ScheduleAccount(s, t, sig);
    case _ => QuietStep(s, e, t);
  }

  lemma StepKeepsPending(s: State, e: Event, t: nat, sig: int)
    requires Inv(s) && Enabled(e, s) && Pending(s, t, sig) && !Resumes(s, e, t)
    ensures Pending(Apply(e, s), t, sig)
  {
    match e
    case Kill(tid, g) =>
    case Schedule => ScheduleAccount(s, t, sig);
    case _ => QuietStep(s, e, t);
  }

  // ----- whole runs -----

  ghost function Posted(s: State, es: seq<Event>, t: nat, sig: int): nat
    requires Legal(s, es)
  {
    if es == [] then 0
    else Posted(s, es[..|es| - 1], t, sig) + Bit(Posts(End(s, es[..|es| - 1]), es[|es| - 1], t, sig))
  }

  /** Main result: in every run each signal posted to a thread, repeats while it is pending counted
      once, has been raised exactly once or is still pending, and nothing else has been raised. */
  lemma {:induction false} SignalConservation(es: seq<Event>, t: nat, sig: int)
    requires Legal(Init, es)
    ensures Raised(End(Init, es), t, sig) + Bit(Pending(End(Init, es), t, sig)) == Posted(Init, es, t, sig)
  {
    if es != [] {
      var es' := es[..|es| - 1];
      SignalConservation(es', t, sig);
      ReachableInv(es');
      StepAccount(End(Init, es'), es[|es| - 1], t, sig);
    }
  }

  lemma {:induction false} NothingElsePosted(es: seq<Event>, t: nat, sig: int)
    requires Legal(Init, es) && !(1 <= sig < NSIG)
    ensures Posted(Init, es, t, sig) == 0
  {
    if es != [] { NothingElsePosted(es[..|es| - 1], t, sig); }
  }

  /** No number that is not a signal number is ever raised or pending. */
  lemma NothingElseRaised(es: seq<Event>, t: nat, sig: int)
    requires Legal(Init, es) && !(1 <= sig < NSIG)
    ensures Raised(End(Init, es), t, sig) == 0 && !Pending(End(Init, es), t, sig)
  {
    SignalConservation(es, t, sig);
    NothingElsePosted(es, t, sig);
  }

  function Dispatches(s: State, es: seq<Event>, t: nat): nat
    requires Legal(s, es)
  {
    if es == [] then 0
    else Dispatches(s, es[..|es| - 1], t) + Bit(es[|es| - 1].Schedule? && End(s, es).current == Some(t))
  }

  ghost function Resumptions(s: State, es: seq<Event>, t: nat): nat
    requires Legal(s, es)
  {
    if es == [] then 0
    else Resumptions(s, es[..|es| - 1], t) + Bit(Resumes(End(s, es[..|es| - 1]), es[|es| - 1], t))
  }

  lemma OtherStepsStart(s: State, e: Event, t: nat)
    requires Inv(s) && Enabled(e, s) && !e.Schedule? && t < |s.threads|
    ensures t < |Apply(e, s).threads|
    ensures !s.threads[t].point.NotStarted? ==> !Apply(e, s).threads[t].point.NotStarted?
  {
    match e
    case Exit(v) => ExitTouchesOnlyMe(s, v);
    case JoinCall(h, want) => if Decide(s, h).MustWait? { JoinLinks(s, h, want); }
    case _ =>
  }

  lemma StepDispatch(s: State, e: Event, t: nat)
    requires Inv(s) && Enabled(e, s) && t < |s.threads|
    ensures t < |Apply(e, s).threads|
    ensures e.Schedule? && Apply(e, s).current == Some(t) && !Resumes(s, e, t) ==> s.threads[t].point.NotStarted?
    ensures e.Schedule? && Apply(e, s).current == Some(t) ==> !Apply(e, s).threads[t].point.NotStarted?
    ensures !s.threads[t].point.NotStarted? ==> !Apply(e, s).threads[t].point.NotStarted?
  {
    if e.Schedule? {
      assert ThreadOk(s.threads, t);
      ScheduleThread(s, t);
    } else {
      OtherStepsStart(s, e, t);
    }
  }

  lemma {:induction false} DispatchesResume(s: State, es: seq<Event>, t: nat)
    requires Inv(s) && Legal(s, es) && t < |s.threads|
    ensures t < |End(s, es).threads|
    ensures Dispatches(s, es, t) + Bit(End(s, es).threads[t].point.NotStarted?)
            <= Resumptions(s, es, t) + Bit(s.threads[t].point.NotStarted?)
  {
    if es != [] {
      var es' := es[..|es| - 1];
      DispatchesResume(s, es', t);
      LegalKeepsInv(s, es');
      StepDispatch(End(s, es'), es[|es| - 1], t);
    }
  }

  lemma {:induction false} PendingUntilResumed(s: State, es: seq<Event>, t: nat, sig: int)
    requires Inv(s) && Legal(s, es) && Pending(s, t, sig)
    requires Resumptions(s, es, t) == 0
    ensures Pending(End(s, es), t, sig)
  {
    if es != [] {
      var es' := es[..|es| - 1];
      PendingUntilResumed(s, es', t, sig);
      LegalKeepsInv(s, es');
      StepKeepsPending(End(s, es'), es[|es| - 1], t, sig);
    }
  }

  /** Main result: a pending signal stays pending until the thread resumes out of setjmp, which is
      its next dispatch, or the second one if it had not started. */
  lemma DeliveredBySecondDispatch(s: State, es: seq<Event>, t: nat, sig: int)
    requires Inv(s) && Legal(s, es) && Pending(s, t, sig)
    ensures Resumptions(s, es, t) == 0 ==> Pending(End(s, es), t, sig)
    ensures Dispatches(s, es, t) >= (if s.threads[t].point.NotStarted? then 2 else 1) ==> Resumptions(s, es, t) >= 1
  {
    if Resumptions(s, es, t) == 0 { PendingUntilResumed(s, es, t, sig); }
    DispatchesResume(s, es, t);
  }
}
