/** The user-level threads of many-one/library/thread.c as a transition system.
    A thread is named by the order of its allocation; that its stored tid is the
    same number is a theorem, not part of the representation. */
module ThreadModel {
  import opened Wrappers

  const MAX_THREADS: nat := 50
  const NSIG: nat := 65

  datatype Status = Running | Ready | Terminated | Waiting

  /** `Unset` stands for every integer that is neither JOINABLE nor DETACHED. */
  datatype DetachState = Joinable | Detached | Unset

  datatype Code = Zero | EAGAIN | EINVAL | ESRCH | EDEADLK

  /** Where a thread is in its own code; the stored status does not tell. */
  datatype Point =
    | NotStarted
    | User
    | Returning                              // start routine returned, thread_exit not yet entered
    | Joining(target: nat, want: bool)       // in the wait loop of thread_join
    | Collecting(target: nat, want: bool)    // left the loop, value not yet stored
    | Exited

  /** `parent` is the creating thread; the C code does not store it. */
  datatype Thread = Thread(tid: int, status: Status, ret: int, waiter: int,
                           pending: set<int>, point: Point, parent: int)

  /** One call of raise(sig) made on behalf of thread `who`. */
  datatype Raise = Raise(who: nat, sig: int)

  datatype State = State(threads: seq<Thread>, queue: seq<nat>, current: Option<nat>, threadCount: nat,
                         alarmBlocked: bool, raised: seq<Raise>, ended: bool, freed: seq<nat>, unmapped: seq<nat>)

  /** The thread_tcb copy that thread_create hands to its caller. */
  datatype Handle = Handle(tid: int, detach: DetachState)

  datatype Event =
    | Create(nullHandle: bool, nullRoutine: bool)
    | Return(value: int)
    | Exit(value: int)
    | JoinCall(handle: Handle, want: bool)
    | JoinPoll
    | JoinFinish
    | Kill(tid: int, sig: int)
    | Schedule
    | Cleanup

  datatype JoinDecision = Returned(code: Code) | MustWait(target: nat)

  datatype Scanned = Scanned(found: Option<nat>, rest: seq<nat>)

  // ----- state access -----

  predicate InRange(threads: seq<Thread>, q: seq<nat>) {
    forall k | 0 <= k < |q| :: q[k] < |threads|
  }

  predicate TargetInRange(p: Point, n: nat) {
    p.Joining? || p.Collecting? ==> p.target < n
  }

  predicate Wf(s: State) {
    && InRange(s.threads, s.queue)
    && (forall i | 0 <= i < |s.threads| :: TargetInRange(s.threads[i].point, |s.threads|))
    && (s.current.Some? ==> s.current.value < |s.threads|)
  }

  function Me(s: State): Thread
    requires Wf(s) && s.current.Some?
  {
    s.threads[s.current.value]
  }

  function WithMe(s: State, t: Thread): State
    requires Wf(s) && s.current.Some?
  {
    s.(threads := s.threads[s.current.value := t])
  }

  const InitialThread := Thread(0, Running, 0, -1, {}, User, -1)

  const Init := State([InitialThread], [], Some(0), 1, false, [], false, [], [])

  // ----- queue.c and next_ready_thread -----

  /** The first queued thread that stores the given tid. */
  function Search(threads: seq<Thread>, q: seq<nat>, id: int): (r: Option<nat>)
    requires InRange(threads, q)
    ensures r.None? <==> forall k | 0 <= k < |q| :: threads[q[k]].tid != id
    ensures r.Some? ==> exists k :: 0 <= k < |q| && r.value == q[k] && threads[q[k]].tid == id
                                    && forall j | 0 <= j < k :: threads[q[j]].tid != id
  {
    if q == [] then None
    else if threads[q[0]].tid == id then
      assert q[0] == q[0];
      Some(q[0])
    else
      assert forall k | 1 <= k < |q| :: q[k] == q[1..][k - 1];
      var r := Search(threads, q[1..], id);
      assert r.Some? ==> exists k :: 0 <= k < |q| && r.value == q[k] && threads[q[k]].tid == id
                                     && forall j | 0 <= j < k :: threads[q[j]].tid != id by {
        if r.Some? {
          var k :| 0 <= k < |q[1..]| && r.value == q[1..][k] && threads[q[1..][k]].tid == id
                   && forall j | 0 <= j < k :: threads[q[1..][j]].tid != id;
          assert r.value == q[k + 1];
        }
      }
      r
  }

  /** At most `n` rounds of: dequeue, return it if READY, otherwise enqueue it again. */
  function Scan(threads: seq<Thread>, q: seq<nat>, n: nat): (r: Scanned)
    requires InRange(threads, q)
    ensures InRange(threads, r.rest)
    ensures r.found.Some? ==> r.found.value < |threads| && threads[r.found.value].status == Ready
    decreases n
  {
    if n == 0 || q == [] then Scanned(None, q)
    else if threads[q[0]].status == Ready then Scanned(Some(q[0]), q[1..])
    else Scan(threads, q[1..] + [q[0]], n - 1)
  }

  // ----- scheduler -----

  /** The members of a signal set from `i` up to NSIG - 1, in the order the resume loop visits them. */
  function Ascending(p: set<int>, i: nat): seq<int>
    decreases NSIG - i
  {
    if i >= NSIG then [] else (if i in p then [i] else []) + Ascending(p, i + 1)
  }

  /** The members of a signal set the resume loop has not visited when it reaches `i`. */
  function Unvisited(p: set<int>, i: nat): set<int> {
    set g | g in p && !(0 <= g < i)
  }

  function Raises(who: nat, sigs: seq<int>): (r: seq<Raise>)
    ensures |r| == |sigs| && forall k | 0 <= k < |r| :: r[k] == Raise(who, sigs[k])
  {
    seq(|sigs|, k requires 0 <= k < |sigs| => Raise(who, sigs[k]))
  }

  /** Control returns to thread `n`: into its start routine the first time, out of setjmp later. */
  function Resume(s: State, n: nat): State
    requires n < |s.threads|
  {
    var t := s.threads[n].(status := Running);
    if t.point.NotStarted? then
      s.(threads := s.threads[n := t.(point := User)], current := Some(n), alarmBlocked := false)
    else
      s.(threads := s.threads[n := t.(pending := Unvisited(t.pending, NSIG))],
         current := Some(n), alarmBlocked := false,
         raised := s.raised + Raises(n, Ascending(t.pending, 0)))
  }

  function Requeue(s: State): State
    requires Wf(s) && s.current.Some?
  {
    var me := Me(s);
    WithMe(s, if me.status != Terminated then me.(status := Ready) else me)
    .(queue := s.queue + [s.current.value])
  }

  /** Dispatch the first READY thread of the queue; with none, the scheduler calls exit. */
  function Pick(r: State): State
    requires InRange(r.threads, r.queue)
  {
    var scan := Scan(r.threads, r.queue, |r.queue|);
    if scan.found.None? then r.(queue := scan.rest, current := None)
    else Resume(r.(queue := scan.rest), scan.found.value)
  }

  function ScheduleStep(s: State): State
    requires Wf(s) && s.current.Some?
  {
    Pick(Requeue(s))
  }

  // ----- library calls -----

  function CreateCode(s: State, nullHandle: bool, nullRoutine: bool): Code {
    if nullHandle then EAGAIN
    else if s.threadCount > MAX_THREADS then EAGAIN
    else if nullRoutine then EAGAIN
    else Zero
  }

  function Launch(s: State): State
    requires Wf(s) && s.current.Some?
  {
    s.(threads := s.threads + [Thread(s.threadCount, Ready, 0, -1, {}, NotStarted, s.current.value)],
       queue := s.queue + [|s.threads|],
       threadCount := s.threadCount + 1)
  }

  function CreateStep(s: State, nullHandle: bool, nullRoutine: bool): State
    requires Wf(s) && s.current.Some?
  {
    if CreateCode(s, nullHandle, nullRoutine) != Zero then s.(alarmBlocked := true)
    else Launch(s).(alarmBlocked := false)
  }

  function ExitStep(s: State, value: int): State
    requires Wf(s) && s.current.Some?
  {
    var s1 := WithMe(s, Me(s).(status := Terminated, ret := value, point := Exited)).(alarmBlocked := false);
    if Me(s).waiter == -1 then s1
    else
      var w := Search(s1.threads, s1.queue, Me(s).waiter);
      if w.None? then s1 // the C code would dereference NULL here; WaiterFound excludes it
      else s1.(threads := s1.threads[w.value := s1.threads[w.value].(status := Ready)])
  }

  function Decide(s: State, h: Handle): (d: JoinDecision)
    requires Wf(s) && s.current.Some?
    ensures d.MustWait? ==> d.target < |s.threads|
  {
    if h.detach.Detached? then Returned(EINVAL)
    else if h.tid == Me(s).waiter then Returned(EDEADLK)
    else
      var t := Search(s.threads, s.queue, h.tid);
      if t.None? then Returned(ESRCH)
      else if s.threads[t.value].waiter != -1 then Returned(EINVAL)
      else if h.detach.Joinable? then MustWait(t.value)
      else Returned(Zero)
  }

  function JoinStep(s: State, h: Handle, want: bool): State
    requires Wf(s) && s.current.Some?
  {
    match Decide(s, h)
    case Returned(code) => s.(alarmBlocked := code == ESRCH)
    case MustWait(t) =>
      var s1 := s.(threads := s.threads[t := s.threads[t].(waiter := Me(s).tid)]);
      WithMe(s1, Me(s1).(status := Waiting, point := Joining(t, want))).(alarmBlocked := false)
  }

  function PollStep(s: State): State
    requires Wf(s) && s.current.Some? && Me(s).point.Joining?
  {
    var t := Me(s).point.target;
    if s.threads[t].status == Terminated
    then WithMe(s, Me(s).(point := Collecting(t, Me(s).point.want)))
    else s
  }

  function FinishStep(s: State): State
    requires Wf(s) && s.current.Some? && Me(s).point.Collecting?
  {
    WithMe(s, Me(s).(point := User)).(alarmBlocked := false)
  }

  /** What thread_join stores through `retval`; None when the caller passed NULL. */
  function Delivered(s: State): Option<int>
    requires Wf(s) && s.current.Some? && Me(s).point.Collecting?
  {
    var p := Me(s).point;
    if p.want then Some(s.threads[p.target].ret) else None
  }

  function KillCode(s: State, tid: int, sig: int): Code
    requires Wf(s)
  {
    if sig < 0 || sig > 64 then EINVAL
    else if Search(s.threads, s.queue, tid).None? then EINVAL
    else Zero
  }

  function KillStep(s: State, tid: int, sig: int): State
    requires Wf(s) && s.current.Some?
  {
    if sig < 0 || sig > 64 then s.(alarmBlocked := true)
    else
      var s1 := if tid == Me(s).tid && sig != 0 then s.(raised := s.raised + [Raise(s.current.value, sig)]) else s;
      var t := Search(s1.threads, s1.queue, tid);
      if t.None? then s1.(alarmBlocked := false)
      else
        var th := s1.threads[t.value];
        var added := if sig == 0 then {} else {sig};
        s1.(threads := s1.threads[t.value := th.(pending := th.pending + added)], alarmBlocked := false)
  }

  function CleanupStep(s: State): State {
    s.(freed := (if s.current.Some? then [s.current.value] else []) + s.queue,
       unmapped := s.queue, queue := [], current := None, threadCount := 0, ended := true)
  }

  // ----- the transition system -----

  predicate Enabled(e: Event, s: State) {
    && Wf(s)
    && !s.ended
    && (s.current.None? ==> e.Cleanup?)
    && (s.current.Some? ==>
          match e
          case Create(_, _) => Me(s).point.User?
          case JoinCall(_, _) => Me(s).point.User?
          case Kill(_, _) => Me(s).point.User?
          case Cleanup => Me(s).point.User?
          case Return(_) => Me(s).point.User? && Me(s).parent != -1
          case Exit(v) => Me(s).point.User? || (Me(s).point.Returning? && v == Me(s).ret)
          case JoinPoll => Me(s).point.Joining?
          case JoinFinish => Me(s).point.Collecting?
          case Schedule => !s.alarmBlocked)
  }

  function Apply(e: Event, s: State): State
    requires Enabled(e, s)
  {
    match e
    case Create(nh, nr) => CreateStep(s, nh, nr)
    case Return(v) => WithMe(s, Me(s).(ret := v, point := Returning))
    case Exit(v) => ExitStep(s, v)
    case JoinCall(h, want) => JoinStep(s, h, want)
    case JoinPoll => PollStep(s)
    case JoinFinish => FinishStep(s)
    case Kill(tid, sig) => KillStep(s, tid, sig)
    case Schedule => ScheduleStep(s)
    case Cleanup => CleanupStep(s)
  }

  /** The state after a whole run, or None when some event of it was not enabled. */
  function After(s: State, es: seq<Event>): Option<State> {
    if es == [] then Some(s)
    else
      var p := After(s, es[..|es| - 1]);
      var e := es[|es| - 1];
      if p.None? || !Enabled(e, p.value) then None else Some(Apply(e, p.value))
  }

  predicate Legal(s: State, es: seq<Event>) {
    After(s, es).Some?
  }

  function End(s: State, es: seq<Event>): State
    requires Legal(s, es)
  {
    After(s, es).value
  }
}
