/** A whole process: the library together with the local variables of the threads that are
    inside thread_join, driven by any sequence of calls, returns and timer interrupts. */
module Process {
  import opened Wrappers
  import opened ThreadModel
  import opened ThreadInvariant
  import opened ThreadQueue
  import opened ThreadLibrary

  /** joined_thread, whether retval is non-NULL, and whether the wait loop has been left, on the
      stack of a thread inside thread_join. */
  datatype Local = Local(joined: Tcb, want: bool, done: bool)

  predicate InJoin(p: Point) {
    p.Joining? || p.Collecting?
  }

  /** A thread inside thread_join after a step was at the same point before it, or the step is the
      call that put it there or its own turn of the wait loop. */
  lemma InJoinKept(s: State, e: Event, s': State, i: nat)
    requires Inv(s) && Enabled(e, s) && s' == Apply(e, s) && i < |s'.threads| && InJoin(s'.threads[i].point)
    ensures i < |s.threads| && |s.threads| <= |s'.threads|
    ensures var p, p' := s.threads[i].point, s'.threads[i].point;
            || (p' == p && !(e.JoinPoll? && s.current == Some(i)))
            || (e.JoinPoll? && s.current == Some(i) && InJoin(p) && p'.target == p.target && p'.want == p.want)
            || (e.JoinCall? && s.current == Some(i) && Decide(s, e.handle) == MustWait(p'.target)
                && p' == Joining(p'.target, e.want))
  {
    match e
    case Exit(v) => ExitTouchesOnlyMe(s, v);
    case Schedule =>
      ScheduleThread(s, 0);
      ScheduleThread(s, i);
    case JoinCall(h, want) => if Decide(s, h).MustWait? { JoinLinks(s, h, want); }
    case _ =>
  }

  function LocalOf(created: seq<Tcb>, p: Point): Local
    requires InJoin(p) && p.target < |created|
  {
    Local(created[p.target], p.want, p.Collecting?)
  }

  /** Thread `i` has the local variables of its program point, if it is inside thread_join. */
  ghost predicate LocalFits(s: State, created: seq<Tcb>, locals: map<Tcb, Local>, i: nat) {
    i < |s.threads| && InJoin(s.threads[i].point) ==>
      && i < |created| && s.threads[i].point.target < |created|
      && created[i] in locals && locals[created[i]] == LocalOf(created, s.threads[i].point)
  }

  /** The local variables after a step: only a join that starts to wait and a turn of the wait loop
      write them. */
  ghost function LocalsAfter(s: State, e: Event, before: map<Tcb, Local>, created: seq<Tcb>): map<Tcb, Local>
    requires Enabled(e, s) && |created| == |s.threads|
  {
    if e.JoinCall? && Decide(s, e.handle).MustWait? then
      before[created[s.current.value] := Local(created[Decide(s, e.handle).target], e.want, false)]
    else if e.JoinPoll? then
      before[created[s.current.value] := LocalOf(created, Apply(e, s).threads[s.current.value].point)]
    else before
  }

  lemma LocalsKept(s: State, e: Event, s': State, before: map<Tcb, Local>, created: seq<Tcb>,
                   created': seq<Tcb>, i: nat)
    requires Inv(s) && Enabled(e, s) && s' == Apply(e, s) && !e.Cleanup?
    requires created <= created' && |created| == |s.threads| && |created'| == |s'.threads|
    requires forall x, y | 0 <= x < y < |created| :: created[x] != created[y]
    requires LocalFits(s, created, before, i)
    ensures LocalFits(s', created', LocalsAfter(s, e, before, created), i)
  {
    if i < |s'.threads| && InJoin(s'.threads[i].point) {
      InJoinKept(s, e, s', i);
      assert ThreadOk(s.threads, i);
    }
  }

  class Process {
    const lib: Library
    var locals: map<Tcb, Local>
    ghost var Repr: set<object>     // every object a step may write

    ghost predicate LocalOk(s: State, i: nat)
      reads this, lib
    {
      LocalFits(s, lib.created, locals, i)
    }

    ghost predicate Owned()
      reads this, Repr
    {
      && this in Repr && lib in Repr && lib.allthreads in Repr
      && lib.allthreads.cells <= Repr && (forall o | o in lib.created :: o in Repr)
    }

    ghost predicate Valid(s: State)
      reads this, Repr
    {
      Owned() && lib.Valid(s) && forall i: nat :: LocalOk(s, i)
    }

    constructor ()
      ensures Valid(Init) && fresh(Repr)
    {
      var l := new Library.ThreadInit();
      lib := l;
      locals := map[];
      Repr := {this, l, l.allthreads} + l.allthreads.cells + set o | o in l.created;
    }

    method Spawn(ghost s: State, nullHandle: bool, nullRoutine: bool)
      requires lib.Valid(s) && Wf(s) && s.current.Some?
      modifies lib, lib.allthreads, lib.allthreads.cells
      ensures lib.Valid(CreateStep(s, nullHandle, nullRoutine)) && Grown(old(lib.created))
      ensures lib.allthreads == old(lib.allthreads) && fresh(lib.allthreads.cells - old(lib.allthreads.cells))
    {
      var code, handle := lib.ThreadCreate(s, nullHandle, nullRoutine);
    }

    method Signal(ghost s: State, tid: int, sig: int)
      requires lib.Valid(s) && Numbered(s) && s.current.Some?
      modifies lib, lib.created
      ensures lib.Valid(KillStep(s, tid, sig))
      ensures lib.created == old(lib.created) && lib.allthreads == old(lib.allthreads)
    {
      var code := lib.ThreadKill(s, tid, sig);
    }

    method Switch(ghost s: State)
      requires lib.Valid(s) && Numbered(s) && s.current.Some?
      modifies lib, lib.allthreads, lib.allthreads.cells, lib.created
      ensures lib.Valid(ScheduleStep(s)) && lib.created == old(lib.created)
      ensures lib.allthreads == old(lib.allthreads) && fresh(lib.allthreads.cells - old(lib.allthreads.cells))
    {
      lib.Scheduler(s);
    }

    method FinishThread(ghost s: State, e: Event)
      requires lib.Valid(s) && Enabled(e, s) && s.current.Some? && !Me(s).point.NotStarted? && (e.Return? || e.Exit?)
      requires Me(s).waiter != -1 ==> Search(s.threads, s.queue, Me(s).waiter).Some?
      modifies lib`alarmBlocked, lib.created
      ensures lib.Valid(Apply(e, s))
    {
      if e.Return? {
        lib.StartRoutineReturns(s, e.value);
      } else {
        lib.ThreadExit(s, e.value);
      }
    }

    method CallJoin(ghost s: State, h: Handle, want: bool)
      requires lib.Valid(s) && Wf(s) && s.current.Some? && !Me(s).point.NotStarted?
      modifies this`locals, lib`alarmBlocked, lib.created
      ensures lib.Valid(JoinStep(s, h, want))
      ensures if Decide(s, h).MustWait?
              then locals == old(locals)[lib.created[s.current.value] :=
                                           Local(lib.created[Decide(s, h).target], want, false)]
              else locals == old(locals)
    {
      var code, joined := lib.ThreadJoin(s, h, want);
      if joined != null {
        locals := locals[lib.currentThread := Local(joined, want, false)];
      }
    }

    /** The caller's next step inside thread_join: a turn of the wait loop or, once a turn has left
        it, the rest of the call. */
    method ContinueJoin(ghost s: State, ghost e: Event)
      requires lib.Valid(s) && Enabled(e, s) && s.current.Some? && LocalOk(s, s.current.value)
      requires e.JoinPoll? || e.JoinFinish?
      modifies this`locals, lib`alarmBlocked
      ensures lib.Valid(Apply(e, s))
      ensures locals == LocalsAfter(s, e, old(locals), lib.created)
    {
      var local := locals[lib.currentThread];
      if !local.done {
        var done := lib.JoinPolls(s, local.joined);
        locals := locals[lib.currentThread := local.(done := done)];
      } else {
        var value := lib.JoinCollects(s, local.joined, local.want);
      }
    }

    twostate predicate Grown(before: seq<Tcb>)
      reads lib
    {
      before <= lib.created && forall o | o in lib.created :: o in before || fresh(o)
    }

    /** One step of the process. */
    method Perform(ghost s: State, e: Event)
      requires Valid(s) && Reachable(s) && Enabled(e, s) && !e.Cleanup?
      modifies Repr
      ensures Valid(Apply(e, s)) && fresh(Repr - old(Repr))
    {
      ghost var before, created := locals, lib.created;
      assert forall i: nat {:trigger LocalFits(s, created, before, i)} :: LocalFits(s, created, before, i) by {
        forall i: nat ensures LocalFits(s, created, before, i) { assert LocalOk(s, i); }
      }
      DispatchAndOwn(s, e);
      ReachableHasInv(s);
      forall i: nat ensures LocalOk(Apply(e, s), i) {
        LocalsKept(s, e, Apply(e, s), before, created, lib.created, i);
      }
    }

    method DispatchAndOwn(ghost s: State, e: Event)
      requires Valid(s) && Reachable(s) && Enabled(e, s) && !e.Cleanup?
      modifies Repr
      ensures Owned() && lib.Valid(Apply(e, s)) && fresh(Repr - old(Repr))
      ensures old(lib.created) <= lib.created && locals == LocalsAfter(s, e, old(locals), old(lib.created))
    {
      assert LocalOk(s, s.current.value);
      Dispatch(s, e);
      Repr := Repr + lib.allthreads.cells + set o | o in lib.created;
    }

    /** The step, before the account of the local variables. */
    method Dispatch(ghost s: State, e: Event)
      requires lib.Valid(s) && Reachable(s) && Enabled(e, s) && !e.Cleanup? && LocalOk(s, s.current.value)
      modifies this`locals, lib, lib.allthreads, lib.allthreads.cells, lib.created
      ensures lib.Valid(Apply(e, s)) && Grown(old(lib.created))
      ensures lib.allthreads == old(lib.allthreads) && fresh(lib.allthreads.cells - old(lib.allthreads.cells))
      ensures locals == LocalsAfter(s, e, old(locals), old(lib.created))
    {
      CallsAreSafe(s);
      if e.JoinCall? || e.JoinPoll? || e.JoinFinish? {
        DispatchJoin(s, e);
      } else {
        DispatchOther(s, e);
      }
    }

    method DispatchJoin(ghost s: State, e: Event)
      requires lib.Valid(s) && Enabled(e, s) && s.current.Some? && LocalOk(s, s.current.value)
      requires !Me(s).point.NotStarted? && (e.JoinCall? || e.JoinPoll? || e.JoinFinish?)
      modifies this`locals, lib`alarmBlocked, lib.created
      ensures lib.Valid(Apply(e, s))
      ensures locals == LocalsAfter(s, e, old(locals), lib.created)
    {
      if e.JoinCall? {
        CallJoin(s, e.handle, e.want);
      } else {
        ContinueJoin(s, e);
      }
    }

    method DispatchOther(ghost s: State, e: Event)
      requires lib.Valid(s) && Enabled(e, s) && s.current.Some? && Numbered(s)
      requires !Me(s).point.NotStarted? && !e.Cleanup? && !e.JoinCall? && !e.JoinPoll? && !e.JoinFinish?
      requires !Me(s).point.Exited? && Me(s).waiter != -1 ==> Search(s.threads, s.queue, Me(s).waiter).Some?
      modifies lib, lib.allthreads, lib.allthreads.cells, lib.created
      ensures lib.Valid(Apply(e, s)) && Grown(old(lib.created))
      ensures lib.allthreads == old(lib.allthreads) && fresh(lib.allthreads.cells - old(lib.allthreads.cells))
    {
      match e {
        case Create(nh, nr) => Spawn(s, nh, nr);
        case Kill(tid, sig) => Signal(s, tid, sig);
        case Schedule => Switch(s);
        case Return(_) => FinishThread(s, e);
        case Exit(_) => FinishThread(s, e);
        case _ =>
      }
    }
  }

  /** Main result: the linked TCBs, queue and globals follow the transition system through every
      run of calls, returns and interrupts. */
  method RunEvents(es: seq<Event>) returns (p: Process)
    requires Legal(Init, es) && !End(Init, es).ended
    ensures p.Valid(End(Init, es))
  {
    p := new Process();
    ghost var s := Init;
    var i := 0;
    while i < |es|
      invariant 0 <= i <= |es| && After(Init, es[..i]) == Some(s) && p.Valid(s) && fresh(p.Repr)
    {
      s := PerformNext(p, es, i, s);
      i := i + 1;
    }
    assert es[..i] == es;
  }

  method PerformNext(p: Process, es: seq<Event>, i: nat, ghost s: State) returns (ghost next: State)
    requires Legal(Init, es) && !End(Init, es).ended && i < |es| && After(Init, es[..i]) == Some(s) && p.Valid(s)
    modifies p.Repr
    ensures After(Init, es[..i + 1]) == Some(next) && p.Valid(next)
    ensures fresh(p.Repr - old(p.Repr))
  {
    next := Advance(es, i, s);
    p.Perform(s, es[i]);
  }

  /** In a run that has not ended, each event was enabled and none was the clean-up. */
  lemma {:induction false} NextStep(es: seq<Event>, i: nat)
    requires Legal(Init, es) && !End(Init, es).ended && i < |es|
    ensures Legal(Init, es[..i]) && Enabled(es[i], End(Init, es[..i])) && !es[i].Cleanup?
    decreases |es|
  {
    var es' := es[..|es| - 1];
    if i < |es'| {
      NextStep(es', i);
      assert es'[..i] == es[..i];
    } else {
      assert es[..i] == es';
    }
  }

  lemma Advance(es: seq<Event>, i: nat, s: State) returns (next: State)
    requires Legal(Init, es) && !End(Init, es).ended && i < |es| && After(Init, es[..i]) == Some(s)
    ensures Reachable(s) && Enabled(es[i], s) && !es[i].Cleanup?
    ensures next == Apply(es[i], s) && After(Init, es[..i + 1]) == Some(next)
  {
    NextStep(es, i);
    assert es[..i + 1][..i] == es[..i];
    next := Apply(es[i], s);
  }
}
