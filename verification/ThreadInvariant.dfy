/** The invariant every reachable state satisfies: conservation of threads, the
    join protocol's cross references, and what cleanup has released. */
module ThreadInvariant {
  import opened Wrappers
  import opened ThreadModel

  // ----- the invariant -----

  ghost predicate NoDup(q: seq<nat>) {
    forall i, j | 0 <= i < j < |q| :: q[i] != q[j]
  }

  ghost predicate Unfinished(ts: seq<Thread>, i: int) {
    0 <= i < |ts| && ts[i].status != Terminated
  }

  /** Thread `i` is in the wait loop of thread_join on thread `t`. */
  ghost predicate Waits(ts: seq<Thread>, i: int, t: int) {
    0 <= i < |ts| && ts[i].point.Joining? && ts[i].point.target == t
  }

  ghost predicate ThreadOk(ts: seq<Thread>, i: nat)
    requires i < |ts|
  {
    var t := ts[i];
    && t.tid == i
    && (t.status == Terminated <==> t.point.Exited?)
    && (t.point.NotStarted? ==> t.status == Ready)
    && (forall g | g in t.pending :: 1 <= g < NSIG)
    && -1 <= t.waiter < |ts|
    && t.waiter != i
    && (t.waiter != -1 && t.status != Terminated ==> Waits(ts, t.waiter, i))
    && (t.point.Joining? ==> Unjoined(ts, i, t.point.target))
    && (t.point.Collecting? ==>
          t.point.target < |ts| && !Unfinished(ts, t.point.target) && ts[t.point.target].waiter == i)
    && (if i == 0 then t.parent == -1 else 0 <= t.parent < i)
  }

  /** `i` waits on `t`: recorded there, and not waited on in return. */
  ghost predicate Unjoined(ts: seq<Thread>, i: nat, t: nat) {
    t < |ts| && t != i && ts[t].waiter == i && !Waits(ts, t, i)
  }

  ghost predicate Placed(s: State, i: nat) {
    i in s.queue || s.current == Some(i)
  }

  /** Current thread plus queue hold each created thread exactly once. */
  ghost predicate Conserved(s: State) {
    && InRange(s.threads, s.queue)
    && NoDup(s.queue)
    && (s.current.Some? ==> s.current.value < |s.threads| && s.current.value !in s.queue)
    && (forall i | 0 <= i < |s.threads| :: Placed(s, i))
    && |s.threads| == s.threadCount == |s.queue| + (if s.current.Some? then 1 else 0)
    && 1 <= s.threadCount <= MAX_THREADS + 1
  }

  ghost predicate QueueOk(s: State) {
    forall i | 0 <= i < |s.threads| && s.current != Some(i) ::
      s.threads[i].status == Ready || s.threads[i].status == Terminated
  }

  ghost predicate CurrentOk(s: State)
    requires s.current.Some? ==> s.current.value < |s.threads|
  {
    if s.current.None? then forall i | 0 <= i < |s.threads| :: !Unfinished(s.threads, i)
    else
      var me := s.threads[s.current.value];
      && me.status != Ready
      && (s.alarmBlocked ==> me.point.User? || me.point.Returning?)
  }

  ghost predicate AllThreadsOk(ts: seq<Thread>) {
    forall i | 0 <= i < |ts| :: ThreadOk(ts, i)
  }

  /** After cleanup: every TCB was freed exactly once. */
  ghost predicate Released(s: State) {
    NoDup(s.freed) && forall i | 0 <= i < |s.threads| :: i in s.freed
  }

  ghost predicate Inv(s: State) {
    && Wf(s)
    && AllThreadsOk(s.threads)
    && if s.ended then Released(s) && s.queue == [] && s.current == None
       else Conserved(s) && QueueOk(s) && CurrentOk(s)
  }

  // ----- the rotating scan -----

  function FirstReady(threads: seq<Thread>, q: seq<nat>): (k: nat)
    requires InRange(threads, q)
    ensures k <= |q|
    ensures forall j | 0 <= j < k :: threads[q[j]].status != Ready
    ensures k < |q| ==> threads[q[k]].status == Ready
  {
    if q == [] || threads[q[0]].status == Ready then 0
    else
      assert forall j | 1 <= j < |q| :: q[j] == q[1..][j - 1];
      1 + FirstReady(threads, q[1..])
  }

  function Rotated(todo: seq<nat>, done: seq<nat>, k: nat): seq<nat>
    requires k < |todo|
  {
    todo[k + 1..] + done + todo[..k]
  }

  lemma RotatedShift(todo: seq<nat>, done: seq<nat>, k: nat)
    requires 0 < k < |todo|
    ensures Rotated(todo[1..], done + [todo[0]], k - 1) == Rotated(todo, done, k)
  {
    assert todo[1..][k..] == todo[k + 1..];
    assert todo[..k] == [todo[0]] + todo[1..][..k - 1];
  }

  lemma {:induction false} ScanRotates(threads: seq<Thread>, todo: seq<nat>, done: seq<nat>)
    requires InRange(threads, todo) && InRange(threads, done) && InRange(threads, todo + done)
    ensures var k := FirstReady(threads, todo);
            Scan(threads, todo + done, |todo|) ==
            if k < |todo| then Scanned(Some(todo[k]), Rotated(todo, done, k)) else Scanned(None, done + todo)
    decreases |todo|
  {
    if todo == [] {
      assert todo + done == done + todo;
      return;
    }
    var k, rest, more := FirstReady(threads, todo), todo[1..], done + [todo[0]];
    assert (todo + done)[0] == todo[0] && (todo + done)[1..] == rest + done;
    if k == 0 {
      assert Rotated(todo, done, 0) == rest + done;
      return;
    }
    assert (rest + done) + [todo[0]] == rest + more;
    assert Scan(threads, todo + done, |todo|) == Scan(threads, rest + more, |rest|);
    ScanRotates(threads, rest, more);
    if k < |todo| {
      RotatedShift(todo, done, k);
    } else {
      assert more + rest == done + todo;
    }
  }

  /** A full scan returns the first READY entry and leaves the entries before it
      at the back; when there is none the queue is in its original order. */
  lemma ScanFindsFirstReady(threads: seq<Thread>, q: seq<nat>)
    requires InRange(threads, q)
    ensures var k := FirstReady(threads, q);
            Scan(threads, q, |q|) ==
            if k < |q| then Scanned(Some(q[k]), q[k + 1..] + q[..k]) else Scanned(None, q)
  {
    var none: seq<nat> := [];
    assert q + none == q && none + q == q;
    ScanRotates(threads, q, none);
    var k := FirstReady(threads, q);
    if k < |q| {
      assert Rotated(q, none, k) == q[k + 1..] + q[..k];
    }
  }

  ghost predicate TidsAreIndices(ts: seq<Thread>) {
    forall i | 0 <= i < |ts| :: ts[i].tid == i
  }

  lemma SearchFinds(ts: seq<Thread>, q: seq<nat>, id: int)
    requires InRange(ts, q) && TidsAreIndices(ts)
    ensures Search(ts, q, id) == if id in q then Some(id) else None
  {
  }

  lemma InvTids(s: State)
    requires Inv(s)
    ensures TidsAreIndices(s.threads)
  {
    forall i | 0 <= i < |s.threads| ensures s.threads[i].tid == i { assert ThreadOk(s.threads, i); }
  }

  // ----- every step keeps it -----

  lemma InitInv()
    ensures Inv(Init)
  {
    assert ThreadOk(Init.threads, 0);
  }

  lemma ReturnKeepsInv(s: State, v: int)
    requires Inv(s) && Enabled(Return(v), s)
    ensures Inv(Apply(Return(v), s))
  {
    var s' := Apply(Return(v), s);
    forall i | 0 <= i < |s.threads| ensures ThreadOk(s'.threads, i) { assert ThreadOk(s.threads, i); }
    assert forall i | Placed(s, i) :: Placed(s', i);
  }

  lemma WaiterFound(s: State)
    requires Inv(s) && s.current.Some? && !s.ended && Me(s).status != Terminated && Me(s).waiter != -1
    ensures Me(s).waiter in s.queue
    ensures s.threads[Me(s).waiter].status == Ready
    ensures Search(s.threads, s.queue, Me(s).waiter) == Some(Me(s).waiter)
  {
    assert ThreadOk(s.threads, s.current.value);
    assert ThreadOk(s.threads, Me(s).waiter);
    assert Placed(s, Me(s).waiter);
    InvTids(s);
    SearchFinds(s.threads, s.queue, Me(s).waiter);
  }

  /** The write to the waiter in thread_exit stores the status it already has. */
  lemma ExitTouchesOnlyMe(s: State, v: int)
    requires Inv(s) && Enabled(Exit(v), s)
    ensures ExitStep(s, v) ==
            WithMe(s, Me(s).(status := Terminated, ret := v, point := Exited)).(alarmBlocked := false)
  {
    var s1 := WithMe(s, Me(s).(status := Terminated, ret := v, point := Exited)).(alarmBlocked := false);
    assert ThreadOk(s.threads, s.current.value);
    var w := Me(s).waiter;
    if w != -1 {
      WaiterFound(s);
      InvTids(s);
      SearchFinds(s1.threads, s1.queue, w);
      assert s1.threads[w].(status := Ready) == s1.threads[w];
      assert s1.threads[w := s1.threads[w]] == s1.threads;
    }
  }

  lemma ExitKeepsInv(s: State, v: int)
    requires Inv(s) && Enabled(Exit(v), s)
    ensures Inv(Apply(Exit(v), s))
  {
    ExitTouchesOnlyMe(s, v);
    var c, t := s.current.value, Me(s).(status := Terminated, ret := v, point := Exited);
    var ts := s.threads[c := t];
    forall i | 0 <= i < |ts| ensures ThreadOk(ts, i) {
      assert ThreadOk(s.threads, i);
    }
    var s' := ExitStep(s, v);
    assert forall i | Placed(s, i) :: Placed(s', i);
  }

  lemma PollKeepsInv(s: State)
    requires Inv(s) && Enabled(JoinPoll, s)
    ensures Inv(Apply(JoinPoll, s))
  {
    var s' := Apply(JoinPoll, s);
    assert ThreadOk(s.threads, s.current.value);
    forall i | 0 <= i < |s.threads| ensures ThreadOk(s'.threads, i) { assert ThreadOk(s.threads, i); }
    assert forall i | Placed(s, i) :: Placed(s', i);
  }

  lemma FinishKeepsInv(s: State)
    requires Inv(s) && Enabled(JoinFinish, s)
    ensures Inv(Apply(JoinFinish, s))
  {
    var s' := Apply(JoinFinish, s);
    forall i | 0 <= i < |s.threads| ensures ThreadOk(s'.threads, i) { assert ThreadOk(s.threads, i); }
    assert forall i | Placed(s, i) :: Placed(s', i);
  }

  lemma DecideMustWait(s: State, h: Handle)
    requires Inv(s) && !s.ended && s.current.Some? && Decide(s, h).MustWait?
    ensures var t := Decide(s, h).target;
            && t == h.tid && t in s.queue && t != s.current.value && h.detach.Joinable?
            && s.threads[t].waiter == -1 && Me(s).waiter != t
  {
    InvTids(s);
    SearchFinds(s.threads, s.queue, h.tid);
  }

  /** The two records thread_join writes before it starts to wait. */
  function LinkWaiter(ts: seq<Thread>, c: nat, t: nat, want: bool): seq<Thread>
    requires c < |ts| && t < |ts|
  {
    ts[t := ts[t].(waiter := c)][c := ts[c].(status := Waiting, point := Joining(t, want))]
  }

  lemma LinkKeepsThreads(ts: seq<Thread>, c: nat, t: nat, want: bool)
    requires AllThreadsOk(ts) && c < |ts| && t < |ts| && c != t
    requires ts[c].point.User? && ts[t].waiter == -1 && ts[c].waiter != t
    ensures AllThreadsOk(LinkWaiter(ts, c, t, want))
  {
    assert ThreadOk(ts, c) && ThreadOk(ts, t);
    forall i | 0 <= i < |ts| ensures ThreadOk(LinkWaiter(ts, c, t, want), i) {
      assert ThreadOk(ts, i);
    }
  }

  lemma JoinLinks(s: State, h: Handle, want: bool)
    requires Inv(s) && !s.ended && s.current.Some? && Decide(s, h).MustWait?
    ensures JoinStep(s, h, want) ==
            s.(threads := LinkWaiter(s.threads, s.current.value, Decide(s, h).target, want), alarmBlocked := false)
  {
    DecideMustWait(s, h);
    InvTids(s);
  }

  lemma JoinKeepsInv(s: State, h: Handle, want: bool)
    requires Inv(s) && Enabled(JoinCall(h, want), s)
    ensures Inv(Apply(JoinCall(h, want), s))
  {
    var s' := JoinStep(s, h, want);
    if Decide(s, h).MustWait? {
      var c, t := s.current.value, Decide(s, h).target;
      DecideMustWait(s, h);
      JoinLinks(s, h, want);
      LinkKeepsThreads(s.threads, c, t, want);
    }
    assert forall i | Placed(s, i) :: Placed(s', i);
  }

  lemma PostKeepsThreads(ts: seq<Thread>, t: nat, p: set<int>)
    requires AllThreadsOk(ts) && t < |ts| && forall g | g in p :: 1 <= g < NSIG
    ensures AllThreadsOk(ts[t := ts[t].(pending := p)])
  {
    var us := ts[t := ts[t].(pending := p)];
    forall i | 0 <= i < |us| ensures ThreadOk(us, i) { assert ThreadOk(ts, i); }
  }

  lemma KillKeepsInv(s: State, tid: int, sig: int)
    requires Inv(s) && Enabled(Kill(tid, sig), s)
    ensures Inv(Apply(Kill(tid, sig), s))
  {
    var s' := KillStep(s, tid, sig);
    InvTids(s);
    SearchFinds(s.threads, s.queue, tid);
    if tid in s.queue && 0 <= sig <= 64 {
      assert ThreadOk(s.threads, tid);
      PostKeepsThreads(s.threads, tid, s'.threads[tid].pending);
    }
    assert forall i | Placed(s, i) :: Placed(s', i);
  }

  lemma CreateKeepsInv(s: State, nh: bool, nr: bool)
    requires Inv(s) && Enabled(Create(nh, nr), s)
    ensures Inv(Apply(Create(nh, nr), s))
  {
    var s' := Apply(Create(nh, nr), s);
    if CreateCode(s, nh, nr) == Zero {
      forall i | 0 <= i < |s'.threads| ensures ThreadOk(s'.threads, i) && Placed(s', i) {
        if i < |s.threads| {
          assert ThreadOk(s.threads, i);
          assert Placed(s, i);
        } else {
          assert s'.queue[|s.queue|] == i;
        }
      }
    } else {
      assert forall i | Placed(s, i) :: Placed(s', i);
    }
  }

  lemma CleanupKeepsInv(s: State)
    requires Inv(s) && Enabled(Cleanup, s)
    ensures Inv(Apply(Cleanup, s))
  {
    var s' := Apply(Cleanup, s);
    forall i | 0 <= i < |s.threads| ensures i in s'.freed { assert Placed(s, i); }
  }

  lemma RequeueKeeps(s: State)
    requires Inv(s) && !s.ended && s.current.Some?
    ensures var r := Requeue(s);
            && NoDup(r.queue) && InRange(r.threads, r.queue) && AllThreadsOk(r.threads)
            && (forall i | 0 <= i < |r.threads| ::
                  i in r.queue && (r.threads[i].status == Ready || r.threads[i].status == Terminated))
            && |r.queue| == |r.threads| == |s.threads|
  {
    var r := Requeue(s);
    forall i | 0 <= i < |s.threads| ensures ThreadOk(r.threads, i) && i in r.queue {
      assert ThreadOk(s.threads, i);
      assert Placed(s, i);
      assert r.queue[|s.queue|] == s.current.value;
    }
  }

  lemma RotatedMembers(q: seq<nat>, k: nat)
    requires k < |q| && NoDup(q)
    ensures NoDup(q[k + 1..] + q[..k]) && q[k] !in q[k + 1..] + q[..k]
    ensures forall x | x in q :: x == q[k] || x in q[k + 1..] + q[..k]
    ensures forall x | x in q[k + 1..] + q[..k] :: x in q
  {
    var rot := q[k + 1..] + q[..k];
    forall x | x in q && x != q[k] ensures x in rot {
      var j :| 0 <= j < |q| && q[j] == x;
      if j < k { assert rot[|q| - k - 1 + j] == x; } else { assert rot[j - k - 1] == x; }
    }
  }

  lemma DispatchKeepsThreads(ts: seq<Thread>, n: nat, t: Thread)
    requires AllThreadsOk(ts) && n < |ts| && ts[n].status == Ready && t.status == Running
    requires t == ts[n].(status := t.status, point := t.point, pending := t.pending)
    requires t.point == if ts[n].point.NotStarted? then User else ts[n].point
    requires t.pending <= ts[n].pending
    ensures AllThreadsOk(ts[n := t])
  {
    assert ThreadOk(ts, n);
    var us := ts[n := t];
    forall i | 0 <= i < |us| ensures ThreadOk(us, i) {
      assert ThreadOk(ts, i);
    }
  }

  lemma WfFromThreads(s: State)
    requires AllThreadsOk(s.threads) && InRange(s.threads, s.queue)
    requires s.current.Some? ==> s.current.value < |s.threads|
    ensures Wf(s)
  {
    forall i | 0 <= i < |s.threads| ensures TargetInRange(s.threads[i].point, |s.threads|) {
      assert ThreadOk(s.threads, i);
    }
  }

  /** The scheduler without its scan: the first READY entry behind the requeued thread is
      resumed and the entries it passed go to the back; with none, the queue order is kept. */
  lemma ScheduleResult(s: State)
    requires Inv(s) && Enabled(Schedule, s)
    ensures var r := Requeue(s);
            var k := FirstReady(r.threads, r.queue);
            ScheduleStep(s) ==
            if k < |r.queue| then Resume(r.(queue := r.queue[k + 1..] + r.queue[..k]), r.queue[k])
            else r.(current := None)
  {
    RequeueKeeps(s);
    ScanFindsFirstReady(Requeue(s).threads, Requeue(s).queue);
  }

  lemma RequeueThread(s: State, t: nat)
    requires Wf(s) && s.current.Some? && t < |s.threads|
    ensures var th, th' := s.threads[t], Requeue(s).threads[t];
            && th' == th.(status := th'.status)
            && (th'.status == Terminated <==> th.status == Terminated)
  {
  }

  lemma ResumeThread(r: State, n: nat, t: nat)
    requires n < |r.threads| && t < |r.threads|
    ensures var th, th' := r.threads[t], Resume(r, n).threads[t];
            && th' == th.(status := th'.status, point := th'.point, pending := th'.pending)
            && th'.point == (if th.point.NotStarted? && n == t then User else th.point)
            && th'.status == if n == t then Running else th.status
  {
  }

  /** What one call of the scheduler can change in the record of thread `t`. */
  lemma ScheduleThread(s: State, t: nat)
    requires Inv(s) && Enabled(Schedule, s) && t < |s.threads|
    ensures var s' := ScheduleStep(s);
            && |s'.threads| == |s.threads|
            && var th, th' := s.threads[t], s'.threads[t];
            && th' == th.(status := th'.status, point := th'.point, pending := th'.pending)
            && th'.point == (if th.point.NotStarted? && s'.current == Some(t) then User else th.point)
            && (th'.status == Terminated <==> th.status == Terminated)
  {
    ScheduleResult(s);
    RequeueKeeps(s);
    var r := Requeue(s);
    RequeueThread(s, t);
    var k := FirstReady(r.threads, r.queue);
    if k < |r.queue| {
      ResumeThread(r.(queue := r.queue[k + 1..] + r.queue[..k]), r.queue[k], t);
    } else {
      assert ThreadOk(r.threads, t);
      assert t in r.queue;
      var j :| 0 <= j < |r.queue| && r.queue[j] == t;
    }
  }

  lemma ResumeConserves(r: State, n: nat)
    requires n < |r.threads| && InRange(r.threads, r.queue) && NoDup(r.queue) && n !in r.queue
    requires forall i | 0 <= i < |r.threads| :: i in r.queue || i == n
    requires |r.threads| == r.threadCount == |r.queue| + 1 <= MAX_THREADS + 1
    ensures Conserved(Resume(r, n))
  {
    var s' := Resume(r, n);
    assert s'.queue == r.queue && |s'.threads| == |r.threads| && s'.current == Some(n);
    forall i | 0 <= i < |s'.threads| ensures Placed(s', i) { assert i in r.queue || i == n; }
  }

  lemma ResumeEstablishesInv(r: State, n: nat)
    requires AllThreadsOk(r.threads) && n < |r.threads| && r.threads[n].status == Ready && !r.ended
    requires Conserved(Resume(r, n))
    requires forall i | 0 <= i < |r.threads| :: r.threads[i].status == Ready || r.threads[i].status == Terminated
    ensures Inv(Resume(r, n))
  {
    var s' := Resume(r, n);
    DispatchKeepsThreads(r.threads, n, s'.threads[n]);
    assert s'.threads == r.threads[n := s'.threads[n]];
    WfFromThreads(s');
  }

  lemma ResumeAfterRotation(r: State, k: nat, rest: seq<nat>)
    requires AllThreadsOk(r.threads) && !r.ended && InRange(r.threads, r.queue) && NoDup(r.queue)
    requires k < |r.queue| && rest == r.queue[k + 1..] + r.queue[..k] && r.threads[r.queue[k]].status == Ready
    requires forall i | 0 <= i < |r.threads| ::
               i in r.queue && (r.threads[i].status == Ready || r.threads[i].status == Terminated)
    requires |r.threads| == r.threadCount == |r.queue| <= MAX_THREADS + 1
    ensures Inv(Resume(r.(queue := rest), r.queue[k]))
  {
    RotatedMembers(r.queue, k);
    assert InRange(r.threads, rest);
    forall i | 0 <= i < |r.threads| ensures i in rest || i == r.queue[k] { assert i in r.queue; }
    ResumeConserves(r.(queue := rest), r.queue[k]);
    ResumeEstablishesInv(r.(queue := rest), r.queue[k]);
  }

  lemma DispatchKeepsInv(s: State, k: nat)
    requires Inv(s) && Enabled(Schedule, s)
    requires k == FirstReady(Requeue(s).threads, Requeue(s).queue) < |Requeue(s).queue|
    ensures Inv(ScheduleStep(s))
  {
    RequeueKeeps(s);
    ScheduleResult(s);
    var r := Requeue(s);
    ResumeAfterRotation(r, k, r.queue[k + 1..] + r.queue[..k]);
  }

  lemma LastExitKeepsInv(s: State)
    requires Inv(s) && Enabled(Schedule, s)
    requires FirstReady(Requeue(s).threads, Requeue(s).queue) == |Requeue(s).queue|
    ensures Inv(ScheduleStep(s))
  {
    var s', r := ScheduleStep(s), Requeue(s);
    RequeueKeeps(s);
    ScheduleResult(s);
    WfFromThreads(s');
    forall i | 0 <= i < |s'.threads| ensures Placed(s', i) && !Unfinished(s'.threads, i) {
      assert i in r.queue;
      var j :| 0 <= j < |r.queue| && r.queue[j] == i;
    }
  }

  lemma ScheduleKeepsInv(s: State)
    requires Inv(s) && Enabled(Schedule, s)
    ensures Inv(Apply(Schedule, s))
  {
    var k := FirstReady(Requeue(s).threads, Requeue(s).queue);
    if k < |Requeue(s).queue| { DispatchKeepsInv(s, k); } else { LastExitKeepsInv(s); }
  }

  lemma StepKeepsInv(s: State, e: Event)
    requires Inv(s) && Enabled(e, s)
    ensures Inv(Apply(e, s))
  {
    match e
    case Create(nh, nr) => CreateKeepsInv(s, nh, nr);
    case Return(v) => ReturnKeepsInv(s, v);
    case Exit(v) => ExitKeepsInv(s, v);
    case JoinCall(h, want) => JoinKeepsInv(s, h, want);
    case JoinPoll => PollKeepsInv(s);
    case JoinFinish => FinishKeepsInv(s);
    case Kill(tid, sig) => KillKeepsInv(s, tid, sig);
    case Schedule => ScheduleKeepsInv(s);
    case Cleanup => CleanupKeepsInv(s);
  }

  lemma {:induction false} LegalPrefix(s: State, es: seq<Event>, j: nat)
    requires Legal(s, es) && j <= |es|
    ensures Legal(s, es[..j])
  {
    if j < |es| {
      LegalPrefix(s, es[..|es| - 1], j);
      assert es[..|es| - 1][..j] == es[..j];
    } else {
      assert es[..j] == es;
    }
  }

  lemma {:induction false} LegalKeepsInv(s: State, es: seq<Event>)
    requires Inv(s) && Legal(s, es)
    ensures Inv(End(s, es))
  {
    if es != [] {
      var es' := es[..|es| - 1];
      LegalKeepsInv(s, es');
      StepKeepsInv(End(s, es'), es[|es| - 1]);
    }
  }

  /** Main result: conservation and the join protocol hold in every reachable state. */
  lemma ReachableInv(es: seq<Event>)
    requires Legal(Init, es)
    ensures Inv(End(Init, es))
  {
    InitInv();
    LegalKeepsInv(Init, es);
  }

  ghost predicate Reachable(s: State) {
    exists es :: After(Init, es) == Some(s)
  }

  lemma ReachableHasInv(s: State)
    requires Reachable(s)
    ensures Inv(s)
  {
    var es :| After(Init, es) == Some(s);
    ReachableInv(es);
  }

  lemma Extend(s: State, es: seq<Event>, e: Event)
    requires Legal(s, es) && Enabled(e, End(s, es))
    ensures Legal(s, es + [e]) && End(s, es + [e]) == Apply(e, End(s, es))
  {
    assert (es + [e])[..|es|] == es;
  }

  lemma ReachStep(s: State, e: Event, s': State)
    requires Reachable(s) && Enabled(e, s) && s' == Apply(e, s)
    ensures Reachable(s')
  {
    var es :| After(Init, es) == Some(s);
    Extend(Init, es, e);
    assert After(Init, es + [e]) == Some(s');
  }

  // ----- what it says -----

  /** Main result: between calls the current thread and the queue hold each created thread exactly
      once, tids are the numbers below thread_count, and queued threads are READY or TERMINATED. */
  lemma Conservation(s: State)
    requires Reachable(s) && !s.ended
    ensures var held := s.queue + (if s.current.Some? then [s.current.value] else []);
            && |held| == |s.threads| == s.threadCount <= MAX_THREADS + 1
            && (forall i | 0 <= i < s.threadCount :: s.threads[i].tid == i && i in held)
            && (forall i, j | 0 <= i < j < |held| :: held[i] != held[j])
            && (forall i | i in s.queue :: i < |s.threads| && s.threads[i].status in {Ready, Terminated})
  {
    ReachableHasInv(s);
    InvTids(s);
    var held := s.queue + (if s.current.Some? then [s.current.value] else []);
    forall i | 0 <= i < s.threadCount ensures i in held {
      assert Placed(s, i);
      assert s.current.Some? ==> held[|s.queue|] == s.current.value;
    }
  }

  /** Main result: a waiter recorded in an unfinished thread is another unfinished thread, inside the
      wait loop on exactly that thread. */
  lemma WaiterInvariant(s: State, t: nat)
    requires Reachable(s) && t < |s.threads| && Unfinished(s.threads, t) && s.threads[t].waiter != -1
    ensures var w := s.threads[t].waiter;
            Unfinished(s.threads, w) && w != t && Waits(s.threads, w, t) && s.threads[w].tid == w
  {
    ReachableHasInv(s);
    assert ThreadOk(s.threads, t) && ThreadOk(s.threads, s.threads[t].waiter);
  }

  /** Main result: cleanup, with or without a current thread, frees every TCB ever allocated once
      and unmaps the stack of each queued thread once. */
  lemma CleanupFreesEachOnce(s: State)
    requires Reachable(s) && Enabled(Cleanup, s)
    ensures var s' := Apply(Cleanup, s);
            && |s'.freed| == |s.threads| && NoDup(s'.freed)
            && (forall i: nat :: i in s'.freed <==> i < |s.threads|)
            && NoDup(s'.unmapped)
            && (forall i: nat :: i in s'.unmapped <==> i < |s.threads| && s.current != Some(i))
            && s'.threadCount == 0 && s'.queue == [] && s'.ended && forall e :: !Enabled(e, s')
  {
    ReachableHasInv(s);
    CleanupKeepsInv(s);
    forall i | 0 <= i < |s.threads| ensures i in s.queue || s.current == Some(i) {
      assert Placed(s, i);
    }
    forall i | i in s.queue ensures i < |s.threads| {
      var k :| 0 <= k < |s.queue| && s.queue[k] == i;
    }
  }

  /** A thread that waits in thread_join, or has exited, can always be switched away from: only a
      thread in its own code is ever left with SIGALRM blocked. */
  lemma WaitersArePreemptible(s: State)
    requires Reachable(s) && !s.ended && s.current.Some?
    requires Wf(s) && !Me(s).point.User? && !Me(s).point.Returning?
    ensures Enabled(Schedule, s)
  {
    ReachableHasInv(s);
  }
}
