/** many-one/library/thread.c: the library's globals and calls, over linked TCBs. Each
    method takes the heap from showing a state of ThreadModel to showing the next one. */
module ThreadLibrary {
  import opened Wrappers
  import opened ThreadModel
  import opened ThreadInvariant
  import opened ThreadQueue

  /** The control block shows the record. */
  ghost predicate Shows(o: Tcb, th: Thread)
    reads o
  {
    && o.tid == th.tid && o.status == th.status && o.returnValue == th.ret
    && o.waitingThreadTid == th.waiter && o.pendingSignals == th.pending
    && o.atStart == th.point.NotStarted?
  }

  class Library {
    var currentThread: Tcb?
    var threadCount: nat
    var allthreads: Queue
    var alarmBlocked: bool          // SIGALRM is in the process's signal mask
    var raised: seq<Raise>          // the calls of raise(sig) so far
    ghost var created: seq<Tcb>     // every TCB allocated, in order

    /** Every TCB shows its record. */
    ghost predicate Records(ts: seq<Thread>)
      reads this`created, created
    {
      && |created| == |ts|
      && (forall i, j | 0 <= i < j < |created| :: created[i] != created[j])
      && (forall i | 0 <= i < |created| :: Shows(created[i], ts[i]))
    }

    /** The linked queue holds the TCBs the state names, in that order. */
    ghost predicate Queued(q: seq<nat>)
      reads this`created, this`allthreads, allthreads, allthreads.cells
    {
      && allthreads.Valid()
      && |allthreads.contents| == |q|
      && (forall k | 0 <= k < |q| :: q[k] < |created| && allthreads.contents[k] == created[q[k]])
    }

    /** The globals and the linked TCBs show the state `s`. */
    ghost predicate Valid(s: State)
      reads this, allthreads, allthreads.cells, created
    {
      && Records(s.threads) && Queued(s.queue)
      && (s.current.Some? ==> s.current.value < |created|)
      && currentThread == (if s.current.None? then null else created[s.current.value])
      && threadCount == s.threadCount && alarmBlocked == s.alarmBlocked && raised == s.raised
    }

    // ----- thread_init -----

    constructor ThreadInit()
      ensures Valid(Init)
      ensures fresh(allthreads) && fresh(allthreads.cells) && forall o | o in created :: fresh(o)
    {
      allthreads := new Queue.InitQueue();
      var mainThread := new Tcb(0, Running, false);
      currentThread := mainThread;
      threadCount := 1;
      alarmBlocked := false;
      raised := [];
      created := [mainThread];
    }

    // ----- thread_create -----

    method ThreadCreate(ghost s: State, nullHandle: bool, nullRoutine: bool)
      returns (code: Code, handle: Option<Handle>)
      requires Valid(s) && Wf(s) && s.current.Some?
      modifies this`threadCount, this`alarmBlocked, this`created, allthreads, allthreads.cells
      ensures Valid(CreateStep(s, nullHandle, nullRoutine))
      ensures code == CreateCode(s, nullHandle, nullRoutine)
      ensures handle == if code == Zero then Some(Handle(s.threadCount, Joinable)) else None
      ensures fresh(allthreads.cells - old(allthreads.cells))
      ensures old(created) <= created && forall o | o in created :: o in old(created) || fresh(o)
    {
      if nullHandle || threadCount > MAX_THREADS || nullRoutine {
        alarmBlocked := true;
        return EAGAIN, None;
      }
      code := Zero;
      var tcb := StartThread(s);
      handle := Some(Handle(tcb.tid, tcb.detachState));
    }

    method StartThread(ghost s: State) returns (newThread: Tcb)
      requires Valid(s) && Wf(s) && s.current.Some?
      modifies this`threadCount, this`alarmBlocked, this`created, allthreads, allthreads.cells
      ensures Valid(Launch(s).(alarmBlocked := false))
      ensures created == old(created) + [newThread] && fresh(newThread)
      ensures newThread.tid == s.threadCount && newThread.detachState == Joinable
      ensures fresh(allthreads.cells - old(allthreads.cells))
    {
      newThread := new Tcb(threadCount, Ready, true);
      AddThread(s, newThread);
      threadCount := threadCount + 1;
      alarmBlocked := false;
    }

    method AddThread(ghost s: State, t: Tcb)
      requires Records(s.threads) && Queued(s.queue) && Wf(s) && s.current.Some?
      requires t !in created && Shows(t, Launch(s).threads[|s.threads|])
      modifies this`created, allthreads, allthreads.cells
      ensures Records(Launch(s).threads) && Queued(Launch(s).queue)
      ensures created == old(created) + [t] && fresh(allthreads.cells - old(allthreads.cells))
    {
      allthreads.Enqueue(t);
      created := created + [t];
    }

    // ----- search_with_tid on the shared queue -----

    method Find(ghost ts: seq<Thread>, ghost q: seq<nat>, id: int) returns (t: Tcb?)
      requires Records(ts) && Queued(q) && InRange(ts, q)
      ensures var r := Search(ts, q, id);
              t == if r.None? then null else created[r.value]
    {
      t := allthreads.SearchWithTid(id);
      ghost var k := FirstWithTid(allthreads.contents, id);
      assert forall j | 0 <= j < |q| :: allthreads.contents[j].tid == ts[q[j]].tid;
    }

    // ----- next_ready_thread, scheduler -----

    method NextReadyThread(ghost ts: seq<Thread>, ghost q: seq<nat>) returns (t: Tcb?)
      requires Records(ts) && Queued(q) && InRange(ts, q)
      modifies allthreads, allthreads.cells
      ensures var r := Scan(ts, q, |q|);
              && Queued(r.rest) && t == (if r.found.None? then null else created[r.found.value])
      ensures fresh(allthreads.cells - old(allthreads.cells))
    {
      ghost var now := q;
      var i := 0;
      while i < allthreads.count
        invariant 0 <= i <= |now| == |q| && Queued(now) && InRange(ts, now)
        invariant Scan(ts, now, |q| - i) == Scan(ts, q, |q|)
        invariant fresh(allthreads.cells - old(allthreads.cells))
      {
        t := allthreads.Dequeue();
        if t.status == Ready {
          return t;
        }
        allthreads.Enqueue(t);
        now := now[1..] + [now[0]];
        i := i + 1;
      }
      return null;
    }

    /** The loop after setjmp returns: raise every pending signal of the resumed thread. */
    method RaisePending(ghost p: set<int>, ghost n: nat)
      requires currentThread != null && currentThread.pendingSignals == p && currentThread.tid == n
      modifies this`raised, currentThread`pendingSignals
      ensures raised == old(raised) + Raises(n, Ascending(p, 0))
      ensures currentThread.pendingSignals == Unvisited(p, NSIG)
    {
      ghost var sent: seq<int> := [];
      var i := 0;
      while i < NSIG
        invariant 0 <= i <= NSIG
        invariant sent + Ascending(p, i) == Ascending(p, 0)
        invariant raised == old(raised) + Raises(n, sent)
        invariant currentThread.pendingSignals == Unvisited(p, i)
      {
        VisitNext(p, i, sent, n);
        if i in currentThread.pendingSignals {
          raised := raised + [Raise(currentThread.tid, i)];
          sent := sent + [i];
          currentThread.pendingSignals := currentThread.pendingSignals - {i};
        }
        i := i + 1;
      }
      assert sent + [] == sent;
    }

    method Scheduler(ghost s: State)
      requires Valid(s) && Numbered(s) && s.current.Some?
      modifies this`currentThread, this`alarmBlocked, this`raised, allthreads, allthreads.cells, created
      ensures Valid(ScheduleStep(s))
      ensures fresh(allthreads.cells - old(allthreads.cells))
    {
      PutBack(s);
      RunNext(Requeue(s));
    }

    /** The part of scheduler after the running thread is back in the queue. */
    method RunNext(ghost r: State)
      requires Records(r.threads) && Queued(r.queue) && InRange(r.threads, r.queue) && TidsAreIndices(r.threads)
      requires threadCount == r.threadCount && alarmBlocked == r.alarmBlocked && raised == r.raised
      modifies this`currentThread, this`alarmBlocked, this`raised, allthreads, allthreads.cells, created
      ensures Valid(Pick(r)) && fresh(allthreads.cells - old(allthreads.cells))
    {
      ghost var scan := Scan(r.threads, r.queue, |r.queue|);
      var next := NextReadyThread(r.threads, r.queue);
      currentThread := next;
      if currentThread == null {
        return; // exit(0)
      }
      Dispatch(r.(queue := scan.rest), scan.found.value);
    }

    /** The part of scheduler before it picks a thread. */
    method PutBack(ghost s: State)
      requires Valid(s) && Wf(s) && s.current.Some?
      modifies allthreads, allthreads.cells, currentThread
      ensures Records(Requeue(s).threads) && Queued(Requeue(s).queue)
      ensures fresh(allthreads.cells - old(allthreads.cells))
    {
      if currentThread.status != Terminated {
        currentThread.status := Ready;
      }
      allthreads.Enqueue(currentThread);
    }

    /** longjmp into the picked thread: its start routine, or out of its setjmp. */
    method Dispatch(ghost r: State, ghost n: nat)
      requires Records(r.threads) && Queued(r.queue) && n < |r.threads|
      requires currentThread == created[n] && r.threads[n].tid == n
      requires threadCount == r.threadCount && raised == r.raised
      modifies this`alarmBlocked, this`raised, currentThread
      ensures Valid(Resume(r, n))
    {
      currentThread.status := Running;
      if currentThread.atStart {
        currentThread.atStart := false;
      } else {
        RaisePending(r.threads[n].pending, n);
      }
      alarmBlocked := false;
    }

    // ----- thread_startroutine_execute, thread_exit -----

    method StartRoutineReturns(ghost s: State, value: int)
      requires Valid(s) && Enabled(Return(value), s)
      modifies currentThread
      ensures Valid(Apply(Return(value), s))
    {
      currentThread.returnValue := value;
    }

    method ThreadExit(ghost s: State, value: int)
      requires Valid(s) && Wf(s) && s.current.Some? && !Me(s).point.NotStarted?
      requires Me(s).waiter != -1 ==> Search(s.threads, s.queue, Me(s).waiter).Some?
      modifies this`alarmBlocked, created
      ensures Valid(ExitStep(s, value))
    {
      alarmBlocked := true;
      FinishAndWake(s, value);
      alarmBlocked := false;
    }

    method FinishAndWake(ghost s: State, value: int)
      requires Records(s.threads) && Queued(s.queue) && Wf(s) && s.current.Some? && !Me(s).point.NotStarted?
      requires currentThread == created[s.current.value]
      requires Me(s).waiter != -1 ==> Search(s.threads, s.queue, Me(s).waiter).Some?
      modifies created
      ensures Records(ExitStep(s, value).threads)
    {
      ghost var ts := s.threads[s.current.value := Me(s).(status := Terminated, ret := value, point := Exited)];
      Finish(s.threads, s.current.value, value);
      SearchSame(s.threads, ts, s.queue, Me(s).waiter);
      if currentThread.waitingThreadTid != -1 {
        WakeWaiter(ts, s.queue, currentThread.waitingThreadTid);
      }
    }

    method Finish(ghost ts: seq<Thread>, ghost c: nat, value: int)
      requires Records(ts) && c < |ts| && currentThread == created[c] && !ts[c].point.NotStarted?
      modifies currentThread
      ensures Records(ts[c := ts[c].(status := Terminated, ret := value, point := Exited)])
    {
      currentThread.status := Terminated;
      currentThread.returnValue := value;
    }

    method WakeWaiter(ghost ts: seq<Thread>, ghost q: seq<nat>, w: int)
      requires Records(ts) && Queued(q) && InRange(ts, q) && Search(ts, q, w).Some?
      modifies created
      ensures var i := Search(ts, q, w).value;
              Records(ts[i := ts[i].(status := Ready)])
    {
      var waitingThread := Find(ts, q, w);
      waitingThread.status := Ready;
    }

    // ----- thread_join -----

    /** The error checks of thread_join; `joined` is NULL unless the caller has to wait. */
    method CheckJoin(ghost s: State, h: Handle) returns (code: Code, joined: Tcb?)
      requires Valid(s) && Wf(s) && s.current.Some?
      ensures match Decide(s, h)
              case Returned(c) => code == c && joined == null
              case MustWait(t) => code == Zero && joined == created[t]
    {
      if h.detach == Detached {
        return EINVAL, null;
      }
      if h.tid == currentThread.waitingThreadTid {
        return EDEADLK, null;
      }
      joined := Find(s.threads, s.queue, h.tid);
      if joined == null {
        return ESRCH, null;
      }
      if joined.waitingThreadTid != -1 {
        return EINVAL, null;
      }
      return Zero, if h.detach == Joinable then joined else null;
    }

    /** The part of thread_join before its wait loop; `joined` is its local joined_thread. Every
        way out unblocks SIGALRM except the one that returns ESRCH. */
    method ThreadJoin(ghost s: State, h: Handle, ghost want: bool) returns (code: Code, joined: Tcb?)
      requires Valid(s) && Wf(s) && s.current.Some? && !Me(s).point.NotStarted?
      modifies this`alarmBlocked, created
      ensures Valid(JoinStep(s, h, want))
      ensures match Decide(s, h)
              case Returned(c) => code == c && joined == null
              case MustWait(t) => code == Zero && joined == created[t]
    {
      JoinKeepsFrame(s, h, want);
      code, joined := CheckJoin(s, h);
      if joined != null {
        BeginWait(s.threads, s.current.value, Decide(s, h).target, joined, want);
      }
      alarmBlocked := code == ESRCH;
    }

    method BeginWait(ghost ts: seq<Thread>, ghost c: nat, ghost t: nat, joined: Tcb, ghost want: bool)
      requires Records(ts) && c < |ts| && t < |ts| && currentThread == created[c] && joined == created[t]
      requires !ts[c].point.NotStarted?
      modifies joined`waitingThreadTid, currentThread`status
      ensures var us := ts[t := ts[t].(waiter := ts[c].tid)];
              Records(us[c := us[c].(status := Waiting, point := Joining(t, want))])
    {
      joined.waitingThreadTid := currentThread.tid;
      currentThread.status := Waiting;
    }

    /** One test of the condition of the wait loop. */
    method JoinPolls(ghost s: State, joined: Tcb) returns (done: bool)
      requires Valid(s) && Enabled(JoinPoll, s) && joined == created[Me(s).point.target]
      ensures Valid(Apply(JoinPoll, s))
      ensures done <==> s.threads[Me(s).point.target].status == Terminated
      ensures done <==> Apply(JoinPoll, s).threads[s.current.value].point.Collecting?
    {
      done := joined.status == Terminated;
    }

    method JoinCollects(ghost s: State, joined: Tcb, want: bool) returns (value: Option<int>)
      requires Valid(s) && Enabled(JoinFinish, s)
      requires joined == created[Me(s).point.target] && want == Me(s).point.want
      modifies this`alarmBlocked
      ensures Valid(Apply(JoinFinish, s)) && value == Delivered(s)
    {
      alarmBlocked := true;
      value := if want then Some(joined.returnValue) else None;
      alarmBlocked := false;
    }

    // ----- thread_kill -----

    method ThreadKill(ghost s: State, tid: int, sig: int) returns (code: Code)
      requires Valid(s) && Numbered(s) && s.current.Some?
      modifies this`alarmBlocked, this`raised, created
      ensures Valid(KillStep(s, tid, sig)) && code == KillCode(s, tid, sig)
    {
      if sig < 0 || sig > 64 {
        alarmBlocked := true;
        return EINVAL;
      }
      KillKeepsFrame(s, tid, sig);
      code := RaiseAndPost(s, tid, sig);
      alarmBlocked := false;
    }

    method RaiseAndPost(ghost s: State, tid: int, sig: int) returns (code: Code)
      requires Records(s.threads) && Queued(s.queue) && Numbered(s) && s.current.Some?
      requires currentThread == created[s.current.value] && raised == s.raised && 0 <= sig <= 64
      modifies this`raised, created
      ensures Records(KillStep(s, tid, sig).threads) && raised == KillStep(s, tid, sig).raised
      ensures code == KillCode(s, tid, sig)
    {
      if tid == currentThread.tid {
        RaiseSelf(s.current.value, sig);
      }
      code := PostSignal(s.threads, s.queue, tid, sig);
    }

    /** raise on the calling thread; signal 0 raises nothing. */
    method RaiseSelf(ghost c: nat, sig: int)
      requires currentThread != null && currentThread.tid == c
      modifies this`raised
      ensures raised == old(raised) + if sig != 0 then [Raise(c, sig)] else []
    {
      if sig != 0 {
        raised := raised + [Raise(currentThread.tid, sig)];
      }
    }

    method PostSignal(ghost ts: seq<Thread>, ghost q: seq<nat>, tid: int, sig: int) returns (code: Code)
      requires Records(ts) && Queued(q) && InRange(ts, q)
      modifies created
      ensures var t := Search(ts, q, tid);
              if t.None? then code == EINVAL && Records(ts)
              else code == Zero &&
                   Records(ts[t.value := ts[t.value].(pending := ts[t.value].pending + if sig == 0 then {} else {sig})])
    {
      var target := Find(ts, q, tid);
      if target == null {
        return EINVAL;
      }
      AddSignal(ts, Search(ts, q, tid).value, target, sig);
      return Zero;
    }

    /** sigaddset, which refuses signal 0. */
    method AddSignal(ghost ts: seq<Thread>, ghost t: nat, target: Tcb, sig: int)
      requires Records(ts) && t < |ts| && target == created[t]
      modifies target`pendingSignals
      ensures Records(ts[t := ts[t].(pending := ts[t].pending + if sig == 0 then {} else {sig})])
    {
      if sig != 0 {
        target.pendingSignals := target.pendingSignals + {sig};
      }
    }

    // ----- cleanup -----

    method DequeueAll(ghost q: seq<nat>) returns (out: seq<Tcb>)
      requires Queued(q)
      modifies allthreads, allthreads.cells
      ensures Queued([]) && |out| == |q| && forall k | 0 <= k < |q| :: out[k] == created[q[k]]
    {
      out := [];
      var n := allthreads.count;
      var i := 0;
      while i < n
        invariant 0 <= i <= n == |q| && Queued(q[i..])
        invariant |out| == i && forall k | 0 <= k < i :: out[k] == created[q[k]]
        invariant allthreads.cells == old(allthreads.cells)
      {
        var p := allthreads.Dequeue();
        assert q[i..][1..] == q[i + 1..] && q[i..][0] == q[i];
        out := out + [p];
        i := i + 1;
      }
      assert q[i..] == [];
    }

    /** The TCBs in the order they are freed, and those whose stack is unmapped. */
    method Cleanup(ghost s: State) returns (freed: seq<Tcb>, unmapped: seq<Tcb>)
      requires Valid(s) && Wf(s)
      modifies this`threadCount, allthreads, allthreads.cells
      ensures var s' := CleanupStep(s);
              && |freed| == |s'.freed| && (forall k | 0 <= k < |freed| :: freed[k] == created[s'.freed[k]])
              && |unmapped| == |s'.unmapped|
              && (forall k | 0 <= k < |unmapped| :: unmapped[k] == created[s'.unmapped[k]])
              && threadCount == s'.threadCount && Queued(s'.queue)
    {
      freed := if currentThread != null then [currentThread] else [];
      unmapped := DequeueAll(s.queue);
      freed := freed + unmapped;
      threadCount := 0;
    }
  }

  lemma JoinKeepsFrame(s: State, h: Handle, want: bool)
    requires Wf(s) && s.current.Some?
    ensures match Decide(s, h)
            case Returned(c) => JoinStep(s, h, want) == s.(alarmBlocked := c == ESRCH)
            case MustWait(t) =>
              var s' := JoinStep(s, h, want);
              s' == s.(threads := s'.threads, alarmBlocked := false) && |s'.threads| == |s.threads|
  {
  }

  lemma KillKeepsFrame(s: State, tid: int, sig: int)
    requires Wf(s) && s.current.Some? && 0 <= sig <= 64
    ensures var s' := KillStep(s, tid, sig);
            s' == s.(threads := s'.threads, raised := s'.raised, alarmBlocked := false) && |s'.threads| == |s.threads|
  {
  }

  ghost predicate Numbered(s: State) {
    Wf(s) && TidsAreIndices(s.threads)
  }

  /** Every reachable state meets what the methods ask of their callers. */
  lemma CallsAreSafe(s: State)
    requires Reachable(s) && !s.ended
    ensures Numbered(s)
    ensures s.current.Some? ==> !Me(s).point.NotStarted?
    ensures s.current.Some? && !Me(s).point.Exited? && Me(s).waiter != -1 ==>
              Search(s.threads, s.queue, Me(s).waiter).Some?
  {
    ReachableHasInv(s);
    InvTids(s);
    if s.current.Some? {
      assert ThreadOk(s.threads, s.current.value);
      if Me(s).status != Terminated && Me(s).waiter != -1 { WaiterFound(s); }
    }
  }

  lemma {:induction false} SearchSame(ts: seq<Thread>, us: seq<Thread>, q: seq<nat>, id: int)
    requires InRange(ts, q) && |us| == |ts| && forall i | 0 <= i < |ts| :: us[i].tid == ts[i].tid
    ensures Search(us, q, id) == Search(ts, q, id)
  {
    if q != [] && ts[q[0]].tid != id { SearchSame(ts, us, q[1..], id); }
  }

  lemma VisitNext(p: set<int>, i: nat, sent: seq<int>, n: nat)
    requires i < NSIG
    ensures i in Unvisited(p, i) <==> i in p
    ensures Unvisited(p, i + 1) == Unvisited(p, i) - {i}
    ensures i in p ==> (sent + [i]) + Ascending(p, i + 1) == sent + Ascending(p, i)
    ensures i !in p ==> Ascending(p, i + 1) == Ascending(p, i)
    ensures Raises(n, sent) + [Raise(n, i)] == Raises(n, sent + [i])
  {
    assert Ascending(p, i) == (if i in p then [i] else []) + Ascending(p, i + 1);
  }
}
