/** The spinlock and the futex mutex of one-one/library/lock.c, shared by any number of
    threads that each make one access to shared memory per step. */
module LockModel {
  import opened Wrappers

  /** Which of the two locks the structure is used as. */
  datatype Kind = Spin | Futex

  datatype LockState = Locked | Unlocked

  datatype Code = Zero | EINVAL

  datatype Lock = Lock(flag: int, pid: int, lockState: LockState)

  /** The next access of a thread; `Out` is user code, with or without the lock. */
  datatype Pc =
    | Out
    | TrySet         // test-and-set, or compare-exchange 0 -> 1
    | FutexWait      // FUTEX_WAIT on the flag with value 0
    | Asleep
    | StorePid
    | StoreLocked
    | CheckPid
    | ClearPid
    | ClearFlag      // flag = 0, or compare-exchange 1 -> 0
    | StoreUnlocked
    | FutexWake      // FUTEX_WAKE of one sleeper

  /** `holding` runs from the successful exchange to the release; `code` is the last result. */
  datatype Thread = Thread(pc: Pc, holding: bool, code: Code)

  datatype Machine = Machine(kind: Kind, pids: seq<int>, lock: Lock, ts: seq<Thread>)

  datatype Act = CallLock | CallUnlock | Access(wakes: nat) | Spurious

  ghost predicate Wf(m: Machine) {
    |m.ts| == |m.pids|
  }

  predicate SomeoneAsleep(m: Machine) {
    exists i | 0 <= i < |m.ts| :: m.ts[i].pc.Asleep?
  }

  predicate Enabled(m: Machine, t: nat, a: Act) {
    && |m.ts| == |m.pids| && t < |m.ts|
    && match a
       case CallLock => m.ts[t].pc.Out?
       case CallUnlock => m.ts[t].pc.Out?
       case Spurious => m.ts[t].pc.Asleep?
       case Access(w) =>
         && !m.ts[t].pc.Out? && !m.ts[t].pc.Asleep?
         && (m.ts[t].pc.FutexWake? && SomeoneAsleep(m) ==> w < |m.ts| && m.ts[w].pc.Asleep?)
  }

  function Goto(m: Machine, t: nat, pc: Pc): Machine
    requires t < |m.ts|
  {
    m.(ts := m.ts[t := m.ts[t].(pc := pc)])
  }

  function Finish(m: Machine, t: nat, code: Code): Machine
    requires t < |m.ts|
  {
    m.(ts := m.ts[t := m.ts[t].(pc := Out, code := code)])
  }

  function AccessStep(m: Machine, t: nat, wakes: nat): Machine
    requires Enabled(m, t, Access(wakes))
  {
    var th, l := m.ts[t], m.lock;
    match th.pc
    case TrySet =>
      if l.flag == 0 then m.(lock := l.(flag := 1), ts := m.ts[t := th.(pc := StorePid, holding := true)])
      else Goto(m, t, if m.kind.Spin? then TrySet else FutexWait)
    case FutexWait => Goto(m, t, if l.flag == 0 then Asleep else TrySet)
    case StorePid => Goto(m.(lock := l.(pid := m.pids[t])), t, StoreLocked)
    case StoreLocked => Finish(m.(lock := l.(lockState := Locked)), t, Zero)
    case CheckPid => if l.pid != m.pids[t] then Finish(m, t, EINVAL) else Goto(m, t, ClearPid)
    case ClearPid => Goto(m.(lock := l.(pid := -1)), t, if m.kind.Spin? then ClearFlag else StoreUnlocked)
    case ClearFlag =>
      if m.kind.Spin? then m.(lock := l.(flag := 0), ts := m.ts[t := th.(pc := StoreUnlocked, holding := false)])
      else if l.flag == 1 then m.(lock := l.(flag := 0), ts := m.ts[t := th.(pc := FutexWake, holding := false)])
      else Finish(m, t, Zero)
    case StoreUnlocked =>
      var m' := m.(lock := l.(lockState := Unlocked));
      if m.kind.Spin? then Finish(m', t, Zero) else Goto(m', t, ClearFlag)
    case FutexWake => Finish(if SomeoneAsleep(m) then Goto(m, wakes, TrySet) else m, t, Zero)
    case _ => m
  }

  function Apply(m: Machine, t: nat, a: Act): Machine
    requires Enabled(m, t, a)
  {
    match a
    case CallLock => Goto(m, t, TrySet)
    case CallUnlock => Goto(m, t, CheckPid)
    case Spurious => Goto(m, t, TrySet)
    case Access(w) => AccessStep(m, t, w)
  }

  // ----- invariant -----

  /** The accesses at which a thread that holds the lock has its pid stored. */
  predicate PidStored(pc: Pc) {
    pc in {StoreLocked, Out, TrySet, FutexWait, Asleep, CheckPid, ClearPid}
  }

  predicate OnlyHolding(kind: Kind, pc: Pc) {
    pc in {StorePid, StoreLocked, ClearPid, ClearFlag} || (kind.Futex? && pc.StoreUnlocked?)
  }

  predicate NeverHolding(kind: Kind, pc: Pc) {
    pc.FutexWake? || (kind.Spin? && pc.StoreUnlocked?)
  }

  ghost predicate ThreadOk(m: Machine, t: nat)
    requires t < |m.ts| == |m.pids|
  {
    var th := m.ts[t];
    && (OnlyHolding(m.kind, th.pc) ==> th.holding)
    && (NeverHolding(m.kind, th.pc) ==> !th.holding)
    && (m.kind.Spin? ==> th.pc !in {FutexWait, Asleep, FutexWake})
    && (th.holding ==> m.lock.flag == 1)
    && (m.lock.pid == m.pids[t] <==> th.holding && PidStored(th.pc))
  }

  ghost predicate Distinct(pids: seq<int>) {
    (forall i, j | 0 <= i < j < |pids| :: pids[i] != pids[j]) && forall i | 0 <= i < |pids| :: pids[i] != -1
  }

  ghost predicate Exclusive(ts: seq<Thread>) {
    forall i, j | 0 <= i < |ts| && 0 <= j < |ts| && ts[i].holding && ts[j].holding :: i == j
  }

  ghost predicate Held(ts: seq<Thread>) {
    exists i :: 0 <= i < |ts| && ts[i].holding
  }

  ghost predicate Inv(m: Machine) {
    && Wf(m) && Distinct(m.pids) && 0 <= m.lock.flag <= 1
    && Exclusive(m.ts) && (m.lock.flag == 1 ==> Held(m.ts))
    && (forall t | 0 <= t < |m.ts| :: ThreadOk(m, t))
  }

  ghost predicate Initial(m: Machine) {
    && Wf(m) && Distinct(m.pids) && m.lock.flag == 0 && m.lock.pid !in m.pids
    && forall t | 0 <= t < |m.ts| :: m.ts[t].pc.Out? && !m.ts[t].holding
  }

  lemma StepKeepsHeld(m: Machine, t: nat, a: Act)
    requires Inv(m) && Enabled(m, t, a) && Apply(m, t, a).lock.flag == 1
    ensures Held(Apply(m, t, a).ts)
  {
    var m' := Apply(m, t, a);
    assert ThreadOk(m, t);
    if m.lock.flag == 1 {
      var i :| 0 <= i < |m.ts| && m.ts[i].holding;
      assert ThreadOk(m, i);
      assert m'.ts[i].holding;
    } else {
      assert m'.ts[t].holding;
    }
  }

  lemma StepKeepsExclusive(m: Machine, t: nat, a: Act)
    requires Inv(m) && Enabled(m, t, a)
    ensures Exclusive(Apply(m, t, a).ts)
  {
    var us := Apply(m, t, a).ts;
    assert ThreadOk(m, t);
    forall u | 0 <= u < |us| && u != t && us[u].holding ensures m.ts[u].holding && m.lock.flag == 1 {
      assert ThreadOk(m, u);
    }
  }

  lemma StepKeepsThread(m: Machine, t: nat, a: Act, u: nat)
    requires Inv(m) && Enabled(m, t, a) && u < |m.ts|
    ensures |Apply(m, t, a).ts| == |Apply(m, t, a).pids| == |m.ts| && ThreadOk(Apply(m, t, a), u)
  {
    assert ThreadOk(m, t) && ThreadOk(m, u);
  }

  lemma StepKeepsInv(m: Machine, t: nat, a: Act)
    requires Inv(m) && Enabled(m, t, a)
    ensures Inv(Apply(m, t, a))
  {
    var m' := Apply(m, t, a);
    if m'.lock.flag == 1 { StepKeepsHeld(m, t, a); }
    StepKeepsExclusive(m, t, a);
    forall u | 0 <= u < |m'.ts| ensures ThreadOk(m', u) { StepKeepsThread(m, t, a, u); }
  }

  // ----- runs -----

  datatype Turn = Turn(thread: nat, act: Act)

  function After(m: Machine, turns: seq<Turn>): Option<Machine> {
    if turns == [] then Some(m)
    else
      var p := After(m, turns[..|turns| - 1]);
      var last := turns[|turns| - 1];
      if p.None? || !Enabled(p.value, last.thread, last.act) then None
      else Some(Apply(p.value, last.thread, last.act))
  }

  lemma {:induction false} RunKeepsInv(m: Machine, turns: seq<Turn>)
    requires Inv(m) && After(m, turns).Some?
    ensures Inv(After(m, turns).value)
  {
    if turns != [] {
      var last := turns[|turns| - 1];
      RunKeepsInv(m, turns[..|turns| - 1]);
      StepKeepsInv(After(m, turns[..|turns| - 1]).value, last.thread, last.act);
    }
  }

  lemma InitialInv(m: Machine)
    requires Initial(m)
    ensures Inv(m)
  {
    forall t | 0 <= t < |m.ts| ensures ThreadOk(m, t) {}
  }

  /** Main result, for both locks and any number of threads calling lock and unlock in any order:
      at most one thread holds the lock, a stored pid is that of the thread holding it, and while
      flag is 0 no thread's pid is stored. */
  lemma MutualExclusion(m: Machine, turns: seq<Turn>)
    requires Initial(m) && After(m, turns).Some?
    ensures var m' := After(m, turns).value;
            && Inv(m') && m'.pids == m.pids
            && (forall i, j | 0 <= i < |m'.ts| && 0 <= j < |m'.ts| && m'.ts[i].holding && m'.ts[j].holding :: i == j)
            && (forall i | 0 <= i < |m'.ts| && m'.lock.pid == m.pids[i] :: m'.ts[i].holding)
            && (m'.lock.flag == 0 ==> m'.lock.pid !in m.pids)
  {
    InitialInv(m);
    RunKeepsInv(m, turns);
    PidsFixed(m, turns);
    var m' := After(m, turns).value;
    forall i | 0 <= i < |m'.ts| && m'.lock.pid == m.pids[i] ensures m'.ts[i].holding && m'.lock.flag == 1 {
      assert ThreadOk(m', i);
    }
  }

  lemma {:induction false} PidsFixed(m: Machine, turns: seq<Turn>)
    requires After(m, turns).Some?
    ensures After(m, turns).value.pids == m.pids && After(m, turns).value.kind == m.kind
    ensures |After(m, turns).value.ts| == |m.ts|
  {
    if turns != [] { PidsFixed(m, turns[..|turns| - 1]); }
  }

  // ----- lock -----

  /** The acquiring exchange of either lock succeeds exactly when no thread holds the lock; where it
      fails, the spinlock tries again and the mutex calls FUTEX_WAIT. */
  lemma AcquiresExactlyWhenFree(m: Machine, t: nat, w: nat)
    requires Inv(m) && Enabled(m, t, Access(w)) && m.ts[t].pc.TrySet?
    ensures var m' := AccessStep(m, t, w);
            if Held(m.ts) then m' == Goto(m, t, if m.kind.Spin? then TrySet else FutexWait)
            else m'.lock == m.lock.(flag := 1) && m'.ts[t].holding
                 && forall u | 0 <= u < |m.ts| && u != t :: m'.ts[u] == m.ts[u] && !m'.ts[u].holding
  {
    if Held(m.ts) {
      var i :| 0 <= i < |m.ts| && m.ts[i].holding;
      assert ThreadOk(m, i);
    }
  }

  function Sleepers(ts: seq<Thread>): nat {
    if ts == [] then 0 else (if ts[0].pc.Asleep? then 1 else 0) + Sleepers(ts[1..])
  }

  lemma {:induction false} SleepersUpdate(ts: seq<Thread>, t: nat, th: Thread)
    requires t < |ts|
    ensures Sleepers(ts[t := th]) ==
            Sleepers(ts) - (if ts[t].pc.Asleep? then 1 else 0) + (if th.pc.Asleep? then 1 else 0)
  {
    if t == 0 {
      assert ts[t := th][1..] == ts[1..];
    } else {
      assert ts[t := th][1..] == ts[1..][t - 1 := th];
      SleepersUpdate(ts[1..], t - 1, th);
    }
  }

  /** The FUTEX_WAKE of an unlock wakes exactly one sleeper when there is one, and nobody else. */
  lemma UnlockWakesOne(m: Machine, t: nat, w: nat)
    requires Inv(m) && Enabled(m, t, Access(w)) && m.ts[t].pc.FutexWake?
    ensures var m' := AccessStep(m, t, w);
            && m'.lock == m.lock && m'.ts[t] == Thread(Out, false, Zero)
            && Sleepers(m'.ts) == Sleepers(m.ts) - (if SomeoneAsleep(m) then 1 else 0)
            && forall u | 0 <= u < |m.ts| && u != t && !m.ts[u].pc.Asleep? :: m'.ts[u] == m.ts[u]
  {
    assert ThreadOk(m, t);
    if SomeoneAsleep(m) {
      SleepersUpdate(m.ts, w, m.ts[w].(pc := TrySet));
      SleepersUpdate(Goto(m, w, TrySet).ts, t, m.ts[t].(pc := Out, code := Zero));
    } else {
      SleepersUpdate(m.ts, t, m.ts[t].(pc := Out, code := Zero));
    }
  }

  // ----- unlock -----

  /** Main result: the owner check of unlock succeeds exactly for the thread that holds the lock;
      for any other thread the call ends with EINVAL and the lock is untouched. */
  lemma UnlockCheckIsExact(m: Machine, t: nat, w: nat)
    requires Inv(m) && Enabled(m, t, Access(w)) && m.ts[t].pc.CheckPid?
    ensures var m' := AccessStep(m, t, w);
            && m'.lock == m.lock
            && (m.ts[t].holding <==> m'.ts[t].pc == ClearPid)
            && (!m.ts[t].holding <==> m'.ts[t] == Thread(Out, false, EINVAL))
            && forall u | 0 <= u < |m.ts| && u != t :: m'.ts[u] == m.ts[u]
  {
    assert ThreadOk(m, t);
  }

  /** The releasing exchange of thread_wake never fails, and releases. */
  lemma ReleaseNeverFails(m: Machine, t: nat, w: nat)
    requires Inv(m) && Enabled(m, t, Access(w)) && m.ts[t].pc.ClearFlag?
    ensures var m' := AccessStep(m, t, w);
            && m.lock.flag == 1 && m'.lock.flag == 0 && m.ts[t].holding
            && forall u | 0 <= u < |m'.ts| :: !m'.ts[u].holding
  {
    assert ThreadOk(m, t);
  }

  // ----- what the mutex adds -----

  /** The accesses at which the holder of a mutex has it marked LOCKED. */
  predicate MarkedLocked(pc: Pc) {
    pc in {Out, TrySet, FutexWait, Asleep, CheckPid, ClearPid, StoreUnlocked}
  }

  ghost predicate MutexOk(m: Machine) {
    && (m.lock.flag == 0 ==> m.lock.pid == -1 && m.lock.lockState == Unlocked)
    && forall t | 0 <= t < |m.ts| && m.ts[t].holding ::
         && (m.lock.lockState == Locked <==> MarkedLocked(m.ts[t].pc))
         && (m.ts[t].pc in {StorePid, StoreUnlocked, ClearFlag} ==> m.lock.pid == -1)
  }

  lemma StepKeepsMutexOk(m: Machine, t: nat, a: Act)
    requires Inv(m) && m.kind.Futex? && MutexOk(m) && Enabled(m, t, a)
    ensures MutexOk(Apply(m, t, a))
  {
    assert ThreadOk(m, t);
    forall u | 0 <= u < |m.ts| && m.ts[u].holding ensures m.lock.flag == 1 { assert ThreadOk(m, u); }
  }

  /** Main result: from a properly initialised mutex, flag 0 means pid -1 and UNLOCKED, and the
      holder's lock_state is LOCKED exactly from its store of LOCKED to its store of UNLOCKED. */
  lemma {:induction false} MutexFields(m: Machine, turns: seq<Turn>)
    requires Initial(m) && m.kind.Futex? && m.lock == Lock(0, -1, Unlocked) && After(m, turns).Some?
    ensures MutexOk(After(m, turns).value)
  {
    if turns != [] {
      var p := After(m, turns[..|turns| - 1]).value;
      var last := turns[|turns| - 1];
      MutexFields(m, turns[..|turns| - 1]);
      MutualExclusion(m, turns[..|turns| - 1]);
      PidsFixed(m, turns[..|turns| - 1]);
      StepKeepsMutexOk(p, last.thread, last.act);
    }
  }

  // ----- what the spinlock's lock_state says -----

  /** Thread `t` holds the lock from the start of the run to its end. */
  ghost predicate HoldsThrough(m: Machine, turns: seq<Turn>, t: nat) {
    && After(m, turns).Some? && t < |After(m, turns).value.ts| && After(m, turns).value.ts[t].holding
    && (turns == [] || HoldsThrough(m, turns[..|turns| - 1], t))
  }

  /** If `t` holds the spinlock and has stored LOCKED, then lock_state still reads LOCKED. */
  ghost predicate StateAgrees(m: Machine, t: nat)
    requires t < |m.ts|
  {
    m.ts[t].holding && m.ts[t].pc !in {StorePid, StoreLocked} ==> m.lock.lockState == Locked
  }

  /** No thread is between its clearing of flag and its store of UNLOCKED. */
  ghost predicate NoLateStore(m: Machine) {
    forall u | 0 <= u < |m.ts| :: m.ts[u].pc != StoreUnlocked
  }

  lemma StepKeepsState(m: Machine, u: nat, a: Act, t: nat)
    requires Inv(m) && m.kind.Spin? && Enabled(m, u, a) && t < |m.ts| && m.ts[t].holding
    requires NoLateStore(m) && StateAgrees(m, t) && Apply(m, u, a).ts[t].holding
    ensures NoLateStore(Apply(m, u, a)) && StateAgrees(Apply(m, u, a), t)
  {
    assert ThreadOk(m, t) && ThreadOk(m, u);
  }

  lemma {:induction false} HoldKeepsState(m: Machine, turns: seq<Turn>, t: nat)
    requires Inv(m) && m.kind.Spin? && t < |m.ts| && NoLateStore(m) && StateAgrees(m, t)
    requires HoldsThrough(m, turns, t)
    ensures NoLateStore(After(m, turns).value) && StateAgrees(After(m, turns).value, t)
  {
    if turns != [] {
      var turns', last := turns[..|turns| - 1], turns[|turns| - 1];
      HoldKeepsState(m, turns', t);
      RunKeepsInv(m, turns');
      PidsFixed(m, turns');
      StepKeepsState(After(m, turns').value, last.thread, last.act, t);
    }
  }

  lemma HoldStep(m0: Machine, turns: seq<Turn>, m: Machine, u: nat, a: Act, m': Machine, t: nat)
    returns (more: seq<Turn>)
    requires HoldsThrough(m0, turns, t) && After(m0, turns) == Some(m)
    requires Enabled(m, u, a) && m' == Apply(m, u, a) && t < |m'.ts| && m'.ts[t].holding
    ensures HoldsThrough(m0, more, t) && After(m0, more) == Some(m')
  {
    more := turns + [Turn(u, a)];
    assert more[..|more| - 1] == turns;
  }

  /** Thread `t` stores its pid and LOCKED, and then the late store of `u` overwrites it. */
  lemma LateStoreOverwrites(m: Machine, t: nat, u: nat) returns (turns: seq<Turn>)
    requires Wf(m) && m.kind.Spin? && t < |m.ts| && m.ts[t].pc.StorePid? && m.ts[t].holding
    requires u < |m.ts| && m.ts[u].pc.StoreUnlocked?
    ensures HoldsThrough(m, turns, t) && !StateAgrees(After(m, turns).value, t)
  {
    turns := [];
    var m1 := AccessStep(m, t, 0);
    turns := HoldStep(m, turns, m, t, Access(0), m1, t);
    var m2 := AccessStep(m1, t, 0);
    turns := HoldStep(m, turns, m1, t, Access(0), m2, t);
    turns := HoldStep(m, turns, m2, u, Access(0), AccessStep(m2, u, 0), t);
  }

  /** Main result: lock_state is sure to read LOCKED from the store of LOCKED to the release, in
      every continuation of a successful test-and-set, if and only if at that moment no thread is
      between its clearing of flag and its store of UNLOCKED. */
  lemma SpinStateAgreesExactly(m: Machine, t: nat, w: nat)
    requires Inv(m) && m.kind.Spin? && Enabled(m, t, Access(w)) && m.ts[t].pc.TrySet? && m.lock.flag == 0
    ensures (forall turns | HoldsThrough(AccessStep(m, t, w), turns, t) ::
               t < |After(AccessStep(m, t, w), turns).value.ts| &&
               StateAgrees(After(AccessStep(m, t, w), turns).value, t))
            <==> NoLateStore(m)
  {
    var m1 := AccessStep(m, t, w);
    StepKeepsInv(m, t, Access(w));
    if NoLateStore(m) {
      forall turns | HoldsThrough(m1, turns, t) ensures StateAgrees(After(m1, turns).value, t) {
        HoldKeepsState(m1, turns, t);
      }
    } else {
      var u :| 0 <= u < |m.ts| && m.ts[u].pc == StoreUnlocked;
      var turns := LateStoreOverwrites(m1, t, u);
    }
  }

  // ----- how long a waiter sleeps, and what it does then -----

  /** The two steps that take thread `t` out of its sleep. */
  ghost predicate Wakes(m: Machine, u: nat, a: Act, t: nat)
    requires u < |m.ts|
  {
    (u == t && a.Spurious?) || (m.ts[u].pc.FutexWake? && a == Access(t))
  }

  lemma AsleepExactlyUntilWoken(m: Machine, u: nat, a: Act, t: nat)
    requires Enabled(m, u, a) && t < |m.ts| && m.ts[t].pc.Asleep?
    ensures |Apply(m, u, a).ts| == |m.ts|
    ensures if Wakes(m, u, a, t) then Apply(m, u, a).ts[t].pc.TrySet? else Apply(m, u, a).ts[t] == m.ts[t]
  {
  }

  /** No step of the run is a wake-up of thread `t`. */
  ghost predicate NeverWoken(m: Machine, turns: seq<Turn>, t: nat)
    requires After(m, turns).Some?
  {
    turns == [] ||
    var turns', last := turns[..|turns| - 1], turns[|turns| - 1];
    NeverWoken(m, turns', t) && !Wakes(After(m, turns').value, last.thread, last.act, t)
  }

  /** Thread `t` is asleep at the start of the run, after every step of it and at its end. */
  ghost predicate SleepsThrough(m: Machine, turns: seq<Turn>, t: nat) {
    && After(m, turns).Some? && t < |After(m, turns).value.ts| && After(m, turns).value.ts[t].pc.Asleep?
    && (turns == [] || SleepsThrough(m, turns[..|turns| - 1], t))
  }

  /** A sleeper sleeps through exactly the runs in which neither a FUTEX_WAKE picks it nor its
      FUTEX_WAIT returns by itself. */
  lemma {:induction false} SleepsExactlyUntilWoken(m: Machine, turns: seq<Turn>, t: nat)
    requires After(m, turns).Some? && t < |m.ts| && m.ts[t].pc.Asleep?
    ensures SleepsThrough(m, turns, t) <==> NeverWoken(m, turns, t)
  {
    if turns != [] {
      var turns', last := turns[..|turns| - 1], turns[|turns| - 1];
      SleepsExactlyUntilWoken(m, turns', t);
      if SleepsThrough(m, turns', t) {
        AsleepExactlyUntilWoken(After(m, turns').value, last.thread, last.act, t);
      }
    }
  }

  /** Thread `t` is about to call FUTEX_WAIT or asleep in it. */
  ghost predicate InWait(m: Machine, t: nat) {
    t < |m.ts| && m.ts[t].pc in {FutexWait, Asleep}
  }

  /** The step is a return of FUTEX_WAIT to thread `t`: because the flag was not 0, or by a wake-up. */
  ghost predicate WaitReturns(m: Machine, u: nat, a: Act, t: nat)
    requires u < |m.ts| && t < |m.ts|
  {
    || (m.ts[t].pc.FutexWait? && u == t && a.Access? && m.lock.flag != 0)
    || (m.ts[t].pc.Asleep? && Wakes(m, u, a, t))
  }

  lemma WaitEndsExactly(m: Machine, u: nat, a: Act, t: nat)
    requires Enabled(m, u, a) && InWait(m, t)
    ensures |Apply(m, u, a).ts| == |m.ts| && (InWait(Apply(m, u, a), t) <==> !WaitReturns(m, u, a, t))
    ensures WaitReturns(m, u, a, t) ==> Apply(m, u, a).ts[t].pc.TrySet?
  {
  }

  lemma {:induction false} AwakeUntilItsTurn(m: Machine, turns: seq<Turn>, t: nat)
    requires After(m, turns).Some? && t < |m.ts| && !m.ts[t].pc.Asleep?
    requires forall k | 0 <= k < |turns| :: turns[k].thread != t
    ensures t < |After(m, turns).value.ts| && After(m, turns).value.ts[t] == m.ts[t]
  {
    if turns != [] {
      var turns' := turns[..|turns| - 1];
      assert forall k | 0 <= k < |turns'| :: turns'[k] == turns[k];
      AwakeUntilItsTurn(m, turns', t);
    }
  }

  /** Main result: however FUTEX_WAIT returns, and whatever the others do meanwhile, the waiter's
      next access is the exchange again: it then holds the mutex if nobody else does, and is back at
      FUTEX_WAIT with nothing changed if somebody does. */
  lemma WaiterTriesAgain(m: Machine, u: nat, a: Act, turns: seq<Turn>, t: nat, w: nat)
    requires Inv(m) && Enabled(m, u, a) && InWait(m, t) && WaitReturns(m, u, a, t)
    requires After(Apply(m, u, a), turns).Some? && forall k | 0 <= k < |turns| :: turns[k].thread != t
    requires Enabled(After(Apply(m, u, a), turns).value, t, Access(w))
    ensures var m1 := After(Apply(m, u, a), turns).value;
            var m2 := AccessStep(m1, t, w);
            if Held(m1.ts) then m2 == Goto(m1, t, FutexWait) else m2.ts[t].holding && m2.lock.flag == 1
  {
    var m0 := Apply(m, u, a);
    assert ThreadOk(m, t);
    WaitEndsExactly(m, u, a, t);
    AwakeUntilItsTurn(m0, turns, t);
    StepKeepsInv(m, u, a);
    RunKeepsInv(m0, turns);
    PidsFixed(m0, turns);
    AcquiresExactlyWhenFree(After(m0, turns).value, t, w);
  }

  predicate InUnlock(pc: Pc) {
    pc in {CheckPid, ClearPid, ClearFlag, StoreUnlocked, FutexWake}
  }

  ghost predicate NobodyUnlocks(m: Machine) {
    forall u | 0 <= u < |m.ts| :: !InUnlock(m.ts[u].pc)
  }

  /** Main result: once no thread is inside unlock, a sleeper sleeps through every run in which
      nobody calls unlock and its FUTEX_WAIT does not return by itself, whoever calls lock. */
  lemma {:induction false} SleepsUntilUnlock(m: Machine, turns: seq<Turn>, t: nat)
    requires After(m, turns).Some? && t < |m.ts| && m.ts[t].pc.Asleep? && NobodyUnlocks(m)
    requires forall k | 0 <= k < |turns| :: !turns[k].act.CallUnlock? && turns[k] != Turn(t, Spurious)
    ensures var m' := After(m, turns).value;
            |m'.ts| == |m.ts| && m'.ts[t] == m.ts[t] && NobodyUnlocks(m')
  {
    if turns != [] {
      var turns', last := turns[..|turns| - 1], turns[|turns| - 1];
      assert forall k | 0 <= k < |turns'| :: turns'[k] == turns[k];
      SleepsUntilUnlock(m, turns', t);
      AsleepExactlyUntilWoken(After(m, turns').value, last.thread, last.act, t);
    }
  }

  // ----- what neither lock promises -----

  /** FUTEX_WAIT is called with value 0, so a waiter goes to sleep exactly when the mutex is free. */
  lemma SleepsExactlyWhenFree(m: Machine, t: nat, w: nat)
    requires Inv(m) && Enabled(m, t, Access(w)) && m.ts[t].pc.FutexWait?
    ensures AccessStep(m, t, w).ts[t].pc.Asleep? <==> m.lock.flag == 0
    ensures AccessStep(m, t, w).ts[t].pc.Asleep? ==> forall u | 0 <= u < |m.ts| :: !m.ts[u].holding
  {
    forall u | 0 <= u < |m.ts| ensures m.ts[u].holding ==> m.lock.flag == 1 { assert ThreadOk(m, u); }
  }

  ghost predicate Reaches(m: Machine, m': Machine) {
    exists turns :: After(m, turns) == Some(m')
  }

  lemma Go(m0: Machine, m: Machine, t: nat, a: Act, m': Machine)
    requires Reaches(m0, m) && Enabled(m, t, a) && m' == Apply(m, t, a)
    ensures Reaches(m0, m')
  {
    var turns :| After(m0, turns) == Some(m);
    assert (turns + [Turn(t, a)])[..|turns|] == turns;
    assert After(m0, turns + [Turn(t, a)]) == Some(m');
  }

  /** The machine after thread `t` has taken the lock, with the call returning 0. */
  function Taken(m: Machine, t: nat): Machine
    requires t < |m.ts| == |m.pids|
  {
    m.(lock := Lock(1, m.pids[t], Locked), ts := m.ts[t := Thread(Out, true, Zero)])
  }

  /** The machine after thread `t` has given the lock up, with the call returning 0. */
  function Given(m: Machine, t: nat): Machine
    requires t < |m.ts|
  {
    m.(lock := Free, ts := m.ts[t := Thread(Out, false, Zero)])
  }

  /** With nobody holding the lock, a lock call made without interruption takes it and returns 0. */
  lemma LockAlone(m: Machine, t: nat)
    requires Inv(m) && t < |m.ts| && m.ts[t].pc.Out? && !Held(m.ts)
    ensures Reaches(m, Taken(m, t))
  {
    var th, l := m.ts[t], m.lock;
    assert After(m, []) == Some(m);
    var m1 := Goto(m, t, TrySet);
    Go(m, m, t, CallLock, m1);
    var m2 := m.(lock := l.(flag := 1), ts := m.ts[t := th.(pc := StorePid, holding := true)]);
    Go(m, m1, t, Access(0), m2);
    var m3 := m.(lock := l.(flag := 1, pid := m.pids[t]), ts := m.ts[t := th.(pc := StoreLocked, holding := true)]);
    Go(m, m2, t, Access(0), m3);
    assert AccessStep(m3, t, 0) == Taken(m, t);
    Go(m, m3, t, Access(0), Taken(m, t));
  }

  lemma ClearPidAlone(m: Machine, t: nat) returns (m': Machine)
    requires Inv(m) && t < |m.ts| && m.ts[t].pc.Out? && m.ts[t].holding
    ensures m' == m.(lock := m.lock.(pid := -1),
                     ts := m.ts[t := m.ts[t].(pc := if m.kind.Spin? then ClearFlag else StoreUnlocked)])
    ensures Reaches(m, m')
  {
    assert ThreadOk(m, t);
    assert After(m, []) == Some(m);
    var m1 := Goto(m, t, CheckPid);
    Go(m, m, t, CallUnlock, m1);
    var m2 := Goto(m, t, ClearPid);
    Go(m, m1, t, Access(0), m2);
    m' := AccessStep(m2, t, 0);
    Go(m, m2, t, Access(0), m');
  }

  lemma SpinUnlockAlone(m: Machine, t: nat)
    requires Inv(m) && m.kind.Spin? && t < |m.ts| && m.ts[t].pc.Out? && m.ts[t].holding
    ensures Reaches(m, Given(m, t))
  {
    var m1 := ClearPidAlone(m, t);
    var ts := m.ts[t := m.ts[t].(pc := StoreUnlocked, holding := false)];
    var m2 := m.(lock := Lock(0, -1, m.lock.lockState), ts := ts);
    Go(m, m1, t, Access(0), m2);
    assert AccessStep(m2, t, 0) == Given(m, t);
    Go(m, m2, t, Access(0), Given(m, t));
  }

  lemma FutexUnlockAlone(m: Machine, t: nat, w: nat)
    requires Inv(m) && m.kind.Futex? && t < |m.ts| && m.ts[t].pc.Out? && m.ts[t].holding
    requires SomeoneAsleep(m) ==> w < |m.ts| && m.ts[w].pc.Asleep?
    ensures Reaches(m, Given(if SomeoneAsleep(m) then Goto(m, w, TrySet) else m, t))
  {
    assert ThreadOk(m, t);
    var th := m.ts[t];
    var m1 := ClearPidAlone(m, t);
    var m2 := m.(lock := m.lock.(pid := -1, lockState := Unlocked), ts := m.ts[t := th.(pc := ClearFlag)]);
    Go(m, m1, t, Access(0), m2);
    var m3 := m.(lock := Free, ts := m.ts[t := th.(pc := FutexWake, holding := false)]);
    Go(m, m2, t, Access(0), m3);
    SleepersElsewhere(m, m3, t);
    var m4 := if SomeoneAsleep(m) then Goto(m, w, TrySet) else m;
    assert AccessStep(m3, t, w) == Given(m4, t);
    Go(m, m3, t, Access(w), Given(m4, t));
  }

  lemma SleepersElsewhere(m: Machine, m': Machine, t: nat)
    requires t < |m.ts| && !m.ts[t].pc.Asleep? && |m'.ts| == |m.ts| && !m'.ts[t].pc.Asleep?
    requires forall u | 0 <= u < |m.ts| && u != t :: m'.ts[u] == m.ts[u]
    ensures SomeoneAsleep(m') <==> SomeoneAsleep(m)
  {
    if i :| 0 <= i < |m.ts| && m.ts[i].pc.Asleep? { assert m'.ts[i].pc.Asleep?; }
    if i :| 0 <= i < |m.ts| && m'.ts[i].pc.Asleep? { assert m.ts[i].pc.Asleep?; }
  }

  /** Main result: without contention a lock call and an unlock call both return 0, the first
      leaves the caller's pid and LOCKED in the lock, and the second restores the free lock and
      wakes a sleeper if there is one. */
  lemma LockThenUnlock(m: Machine, t: nat, w: nat)
    requires Inv(m) && t < |m.ts| && m.ts[t].pc.Out? && !Held(m.ts)
    requires SomeoneAsleep(m) ==> w < |m.ts| && m.ts[w].pc.Asleep?
    ensures Reaches(m, Taken(m, t))
    ensures Reaches(Taken(m, t), Given(if SomeoneAsleep(m) then Goto(m, w, TrySet) else m, t))
  {
    LockAlone(m, t);
    var m1 := Taken(m, t);
    var turns :| After(m, turns) == Some(m1);
    RunKeepsInv(m, turns);
    SleepersElsewhere(m, m1, t);
    if m.kind.Spin? {
      assert !SomeoneAsleep(m) by { forall u | 0 <= u < |m.ts| ensures !m.ts[u].pc.Asleep? { assert ThreadOk(m, u); } }
      SpinUnlockAlone(m1, t);
      assert Given(m1, t) == Given(m, t);
    } else {
      FutexUnlockAlone(m1, t, w);
      var m2 := if SomeoneAsleep(m) then Goto(m, w, TrySet) else m;
      var m3 := if SomeoneAsleep(m1) then Goto(m1, w, TrySet) else m1;
      assert Given(m3, t) == Given(m2, t);
    }
  }

  /** Two threads with pids 1 and 2. */
  function Two(kind: Kind, l: Lock, a: Thread, b: Thread): Machine {
    Machine(kind, [1, 2], l, [a, b])
  }

  function Idle(pc: Pc): Thread { Thread(pc, false, Zero) }

  function Holds(pc: Pc): Thread { Thread(pc, true, Zero) }

  const Free := Lock(0, -1, Unlocked)

  lemma FirstLocks(kind: Kind)
    ensures Reaches(Two(kind, Free, Idle(Out), Idle(Out)), Two(kind, Lock(1, 1, Locked), Holds(Out), Idle(Out)))
  {
    var m0 := Two(kind, Free, Idle(Out), Idle(Out));
    assert After(m0, []) == Some(m0);
    var m1 := Two(kind, Free, Idle(TrySet), Idle(Out));
    Go(m0, m0, 0, CallLock, m1);
    var m2 := Two(kind, Lock(1, -1, Unlocked), Holds(StorePid), Idle(Out));
    Go(m0, m1, 0, Access(0), m2);
    var m3 := Two(kind, Lock(1, 1, Unlocked), Holds(StoreLocked), Idle(Out));
    Go(m0, m2, 0, Access(0), m3);
    Go(m0, m3, 0, Access(0), Two(kind, Lock(1, 1, Locked), Holds(Out), Idle(Out)));
  }

  lemma SecondWaitsFirstChecks(m0: Machine)
    requires Reaches(m0, Two(Futex, Lock(1, 1, Locked), Holds(Out), Idle(Out)))
    ensures Reaches(m0, Two(Futex, Lock(1, 1, Locked), Holds(ClearPid), Idle(FutexWait)))
  {
    var l := Lock(1, 1, Locked);
    var w := Idle(FutexWait);
    Go(m0, Two(Futex, l, Holds(Out), Idle(Out)), 1, CallLock, Two(Futex, l, Holds(Out), Idle(TrySet)));
    Go(m0, Two(Futex, l, Holds(Out), Idle(TrySet)), 1, Access(0), Two(Futex, l, Holds(Out), w));
    Go(m0, Two(Futex, l, Holds(Out), w), 0, CallUnlock, Two(Futex, l, Holds(CheckPid), w));
    Go(m0, Two(Futex, l, Holds(CheckPid), w), 0, Access(0), Two(Futex, l, Holds(ClearPid), w));
  }

  lemma FirstReleasesSecondSleeps(m0: Machine)
    requires Reaches(m0, Two(Futex, Lock(1, 1, Locked), Holds(ClearPid), Idle(FutexWait)))
    ensures Reaches(m0, Two(Futex, Free, Idle(Out), Idle(Asleep)))
  {
    var w := Idle(FutexWait);
    var m1 := Two(Futex, Lock(1, -1, Locked), Holds(StoreUnlocked), w);
    Go(m0, Two(Futex, Lock(1, 1, Locked), Holds(ClearPid), w), 0, Access(0), m1);
    var m2 := Two(Futex, Lock(1, -1, Unlocked), Holds(ClearFlag), w);
    Go(m0, m1, 0, Access(0), m2);
    FirstWakesSecondSleeps(m0);
  }

  lemma FirstWakesSecondSleeps(m0: Machine)
    requires Reaches(m0, Two(Futex, Lock(1, -1, Unlocked), Holds(ClearFlag), Idle(FutexWait)))
    ensures Reaches(m0, Two(Futex, Free, Idle(Out), Idle(Asleep)))
  {
    var w := Idle(FutexWait);
    var m3 := Two(Futex, Free, Idle(FutexWake), w);
    Go(m0, Two(Futex, Lock(1, -1, Unlocked), Holds(ClearFlag), w), 0, Access(0), m3);
    var m4 := Two(Futex, Free, Idle(Out), w);
    Go(m0, m3, 0, Access(0), m4);
    Go(m0, m4, 1, Access(0), Two(Futex, Free, Idle(Out), Idle(Asleep)));
  }

  /** Main result: a waiter can be left asleep with the mutex free and every other thread back in
      user code, so that, by SleepsUntilUnlock, only a later call of unlock or a spurious return
      wakes it. */
  lemma SleeperBesideFreeMutex()
    ensures Reaches(Two(Futex, Free, Idle(Out), Idle(Out)), Two(Futex, Free, Idle(Out), Idle(Asleep)))
  {
    var m0 := Two(Futex, Free, Idle(Out), Idle(Out));
    FirstLocks(Futex);
    SecondWaitsFirstChecks(m0);
    FirstReleasesSecondSleeps(m0);
  }

  lemma FirstReleasesSpin(m0: Machine)
    requires Reaches(m0, Two(Spin, Lock(1, 1, Locked), Holds(Out), Idle(Out)))
    ensures Reaches(m0, Two(Spin, Lock(0, -1, Locked), Idle(StoreUnlocked), Idle(Out)))
  {
    var l, b := Lock(1, 1, Locked), Idle(Out);
    Go(m0, Two(Spin, l, Holds(Out), b), 0, CallUnlock, Two(Spin, l, Holds(CheckPid), b));
    Go(m0, Two(Spin, l, Holds(CheckPid), b), 0, Access(0), Two(Spin, l, Holds(ClearPid), b));
    var m1 := Two(Spin, Lock(1, -1, Locked), Holds(ClearFlag), b);
    Go(m0, Two(Spin, l, Holds(ClearPid), b), 0, Access(0), m1);
    Go(m0, m1, 0, Access(0), Two(Spin, Lock(0, -1, Locked), Idle(StoreUnlocked), b));
  }

  /** The spinlock clears flag before it stores UNLOCKED, so a thread can hold it, lock call
      finished, while lock_state reads UNLOCKED. */
  lemma SpinStateCanDisagree()
    ensures Reaches(Two(Spin, Free, Idle(Out), Idle(Out)), Two(Spin, Lock(1, 2, Unlocked), Idle(Out), Holds(Out)))
  {
    var m0 := Two(Spin, Free, Idle(Out), Idle(Out));
    FirstLocks(Spin);
    FirstReleasesSpin(m0);
    var a := Idle(StoreUnlocked);
    Go(m0, Two(Spin, Lock(0, -1, Locked), a, Idle(Out)), 1, CallLock, Two(Spin, Lock(0, -1, Locked), a, Idle(TrySet)));
    var m1 := Two(Spin, Lock(1, -1, Locked), a, Holds(StorePid));
    Go(m0, Two(Spin, Lock(0, -1, Locked), a, Idle(TrySet)), 1, Access(0), m1);
    var m2 := Two(Spin, Lock(1, 2, Locked), a, Holds(StoreLocked));
    Go(m0, m1, 1, Access(0), m2);
    var m3 := Two(Spin, Lock(1, 2, Locked), a, Holds(Out));
    Go(m0, m2, 1, Access(0), m3);
    Go(m0, m3, 0, Access(0), Two(Spin, Lock(1, 2, Unlocked), Idle(Out), Holds(Out)));
  }
}
