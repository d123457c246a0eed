/** The workers of one-one/testfiles/mutextest.c and spinlocktest.c: any number of
    threads that increment one counter under the lock and a private one outside it. */
module CounterModel {
  import opened Wrappers
  import opened LockModel

  datatype At = Test | Locking | Load | Store | Unlocking | Bump | Done

  /** `reg` is the register between the load and the store of `c++`. */
  datatype Worker = Worker(at: At, reg: int, mine: int)

  datatype Sys = Sys(m: Machine, running: bool, c: int, ws: seq<Worker>)

  /** A worker's next step (with the sleeper its FUTEX_WAKE picks), a spurious futex return, or
      main's store of 0 to `run`. */
  datatype Pick = Work(thread: nat, wakes: nat) | WakeUp(thread: nat) | StopAll

  predicate CanPick(s: Sys, p: Pick) {
    && |s.ws| == |s.m.ts| == |s.m.pids|
    && match p
       case StopAll => true
       case WakeUp(t) => Enabled(s.m, t, Spurious)
       case Work(t, w) =>
         t < |s.ws| &&
         match s.ws[t].at
         case Done => false
         case Locking => Enabled(s.m, t, Access(w))
         case Unlocking => Enabled(s.m, t, Access(w))
         case Test => s.m.ts[t].pc.Out?
         case Store => s.m.ts[t].pc.Out?
         case _ => true
  }

  function Work1(s: Sys, t: nat, w: nat): Sys
    requires CanPick(s, Work(t, w))
  {
    var me := s.ws[t];
    match me.at
    case Test =>
      if s.running then s.(m := Apply(s.m, t, CallLock), ws := s.ws[t := me.(at := Locking)])
      else s.(ws := s.ws[t := me.(at := Done)])
    case Locking =>
      var m' := AccessStep(s.m, t, w);
      if m'.ts[t].pc.Out? then s.(m := m', ws := s.ws[t := me.(at := Load)]) else s.(m := m')
    case Load => s.(ws := s.ws[t := me.(at := Store, reg := s.c)])
    case Store => s.(c := me.reg + 1, m := Apply(s.m, t, CallUnlock), ws := s.ws[t := me.(at := Unlocking)])
    case Unlocking =>
      var m' := AccessStep(s.m, t, w);
      if m'.ts[t].pc.Out? then s.(m := m', ws := s.ws[t := me.(at := Bump)]) else s.(m := m')
    case Bump => s.(ws := s.ws[t := me.(at := Test, mine := me.mine + 1)])
    case Done => s
  }

  function Next(s: Sys, p: Pick): Sys
    requires CanPick(s, p)
  {
    match p
    case StopAll => s.(running := false)
    case WakeUp(t) => s.(m := Apply(s.m, t, Spurious))
    case Work(t, w) => Work1(s, t, w)
  }

  // ----- sums over the workers -----

  function Sum(ws: seq<Worker>): int {
    if ws == [] then 0 else ws[0].mine + Sum(ws[1..])
  }

  /** Workers that have stored to `c` and not yet counted it. */
  function Owed(ws: seq<Worker>): nat {
    if ws == [] then 0 else (if ws[0].at in {Unlocking, Bump} then 1 else 0) + Owed(ws[1..])
  }

  lemma {:induction false} SumUpdate(ws: seq<Worker>, t: nat, w: Worker)
    requires t < |ws|
    ensures Sum(ws[t := w]) == Sum(ws) - ws[t].mine + w.mine
    ensures Owed(ws[t := w]) == Owed(ws) - (if ws[t].at in {Unlocking, Bump} then 1 else 0)
                                + (if w.at in {Unlocking, Bump} then 1 else 0)
  {
    if t == 0 {
      assert ws[t := w][1..] == ws[1..];
    } else {
      assert ws[t := w][1..] == ws[1..][t - 1 := w];
      SumUpdate(ws[1..], t - 1, w);
    }
  }

  lemma {:induction false} NoneOwed(ws: seq<Worker>)
    requires forall t | 0 <= t < |ws| :: ws[t].at.Done?
    ensures Owed(ws) == 0
  {
    if ws != [] { NoneOwed(ws[1..]); }
  }

  // ----- invariant -----

  ghost predicate WorkerOk(s: Sys, t: nat)
    requires t < |s.ws| == |s.m.ts|
  {
    var th := s.m.ts[t];
    match s.ws[t].at
    case Locking =>
      th.pc in {TrySet, FutexWait, Asleep, StorePid, StoreLocked} && (th.holding <==> th.pc in {StorePid, StoreLocked})
    case Load => th.pc.Out? && th.holding
    case Store => th.pc.Out? && th.holding && s.ws[t].reg == s.c
    case Unlocking => UnlockPhase(s.m.kind, th)
    case _ => th.pc.Out? && !th.holding
  }

  ghost predicate Inv(s: Sys) {
    && LockModel.Inv(s.m) && |s.ws| == |s.m.ts|
    && (forall t | 0 <= t < |s.ws| :: WorkerOk(s, t))
    && s.c == Sum(s.ws) + Owed(s.ws)
  }

  /** What a step of one thread can do to the record of another. */
  ghost predicate LeftAlone(m: Machine, m': Machine, u: nat)
    requires u < |m.ts| == |m'.ts|
  {
    m'.kind == m.kind
    && (m'.ts[u] == m.ts[u] || (m.ts[u].pc.Asleep? && m'.ts[u] == m.ts[u].(pc := TrySet)))
  }

  lemma OthersLeftAlone(m: Machine, t: nat, a: Act, u: nat)
    requires Enabled(m, t, a) && u < |m.ts| && u != t
    ensures |Apply(m, t, a).ts| == |m.ts| && LeftAlone(m, Apply(m, t, a), u)
  {
  }

  lemma LockingAccess(m: Machine, t: nat, w: nat)
    requires LockModel.Inv(m) && Enabled(m, t, Access(w))
    requires m.ts[t].pc in {TrySet, FutexWait, Asleep, StorePid, StoreLocked}
    requires m.ts[t].holding <==> m.ts[t].pc in {StorePid, StoreLocked}
    ensures var th := AccessStep(m, t, w).ts[t];
            if th.pc.Out? then th.holding
            else th.pc in {TrySet, FutexWait, Asleep, StorePid, StoreLocked}
                 && (th.holding <==> th.pc in {StorePid, StoreLocked})
  {
  }

  ghost predicate UnlockPhase(kind: Kind, th: LockModel.Thread) {
    && th.pc in {CheckPid, ClearPid, ClearFlag, StoreUnlocked, FutexWake}
    && (th.holding <==> th.pc in {CheckPid, ClearPid, ClearFlag} || (th.pc.StoreUnlocked? && kind.Futex?))
  }

  lemma UnlockingAccess(m: Machine, t: nat, w: nat)
    requires LockModel.Inv(m) && Enabled(m, t, Access(w)) && UnlockPhase(m.kind, m.ts[t])
    ensures var th := AccessStep(m, t, w).ts[t];
            if th.pc.Out? then !th.holding else UnlockPhase(m.kind, th)
  {
    assert ThreadOk(m, t);
  }

  lemma OtherWorkerOk(s: Sys, s': Sys, u: nat)
    requires u < |s.ws| == |s.m.ts| == |s'.ws| == |s'.m.ts| && WorkerOk(s, u)
    requires s'.ws[u] == s.ws[u] && LeftAlone(s.m, s'.m, u)
    requires s'.c == s.c || !s.m.ts[u].holding
    ensures WorkerOk(s', u)
  {
  }

  /** The step's own part: the acting thread's record and the sums. */
  lemma OwnWorkerOk(s: Sys, t: nat, w: nat)
    requires Inv(s) && CanPick(s, Work(t, w))
    ensures WorkerOk(Work1(s, t, w), t)
    ensures Work1(s, t, w).c == Sum(Work1(s, t, w).ws) + Owed(Work1(s, t, w).ws)
  {
    assert WorkerOk(s, t);
    SumUpdate(s.ws, t, Work1(s, t, w).ws[t]);
    match s.ws[t].at
    case Locking => LockingAccess(s.m, t, w);
    case Unlocking => UnlockingAccess(s.m, t, w);
    case _ =>
  }

  lemma LockPartOk(s: Sys, t: nat, w: nat, u: nat)
    requires Inv(s) && CanPick(s, Work(t, w)) && u < |s.ws| && u != t
    ensures var s' := Work1(s, t, w);
            |s'.m.ts| == |s.m.ts| == |s'.ws| && LockModel.Inv(s'.m) && LeftAlone(s.m, s'.m, u)
  {
    match s.ws[t].at
    case Test => if s.running { StepKeepsInv(s.m, t, CallLock); OthersLeftAlone(s.m, t, CallLock, u); }
    case Locking => StepKeepsInv(s.m, t, Access(w)); OthersLeftAlone(s.m, t, Access(w), u);
    case Store => StepKeepsInv(s.m, t, CallUnlock); OthersLeftAlone(s.m, t, CallUnlock, u);
    case Unlocking => StepKeepsInv(s.m, t, Access(w)); OthersLeftAlone(s.m, t, Access(w), u);
    case _ =>
  }

  lemma WorkKeepsInv(s: Sys, t: nat, w: nat)
    requires Inv(s) && CanPick(s, Work(t, w))
    ensures Inv(Work1(s, t, w))
  {
    var s' := Work1(s, t, w);
    WorkKeepsLock(s, t, w);
    OwnWorkerOk(s, t, w);
    forall u | 0 <= u < |s'.ws| ensures WorkerOk(s', u) {
      if u != t {
        LockPartOk(s, t, w, u);
        assert WorkerOk(s, u) && WorkerOk(s, t);
        OtherWorkerOk(s, s', u);
      }
    }
  }

  lemma WorkKeepsLock(s: Sys, t: nat, w: nat)
    requires Inv(s) && CanPick(s, Work(t, w))
    ensures LockModel.Inv(Work1(s, t, w).m) && |Work1(s, t, w).ws| == |Work1(s, t, w).m.ts| == |s.ws|
  {
    match s.ws[t].at
    case Test => if s.running { StepKeepsInv(s.m, t, CallLock); }
    case Locking => StepKeepsInv(s.m, t, Access(w));
    case Store => StepKeepsInv(s.m, t, CallUnlock);
    case Unlocking => StepKeepsInv(s.m, t, Access(w));
    case _ =>
  }

  lemma WakeUpKeepsInv(s: Sys, t: nat)
    requires Inv(s) && CanPick(s, WakeUp(t))
    ensures Inv(Next(s, WakeUp(t)))
  {
    var s' := Next(s, WakeUp(t));
    StepKeepsInv(s.m, t, Spurious);
    forall u | 0 <= u < |s'.ws| ensures WorkerOk(s', u) {
      assert WorkerOk(s, u);
    }
  }

  lemma NextKeepsInv(s: Sys, p: Pick)
    requires Inv(s) && CanPick(s, p)
    ensures Inv(Next(s, p))
  {
    match p
    case Work(t, w) => WorkKeepsInv(s, t, w);
    case WakeUp(t) => WakeUpKeepsInv(s, t);
    case StopAll =>
      forall u | 0 <= u < |s.ws| ensures WorkerOk(Next(s, p), u) { assert WorkerOk(s, u); }
  }

  // ----- runs -----

  function After(s: Sys, ps: seq<Pick>): Option<Sys> {
    if ps == [] then Some(s)
    else
      var q := After(s, ps[..|ps| - 1]);
      if q.None? || !CanPick(q.value, ps[|ps| - 1]) then None else Some(Next(q.value, ps[|ps| - 1]))
  }

  /** Zero counters, nobody in a call, and a lock word that is free. */
  ghost predicate Initial(s: Sys) {
    && LockModel.Initial(s.m) && |s.ws| == |s.m.ts| && s.c == 0
    && forall t | 0 <= t < |s.ws| :: s.ws[t].at.Test? && s.ws[t].mine == 0
  }

  lemma {:induction false} InitialSums(ws: seq<Worker>)
    requires forall t | 0 <= t < |ws| :: ws[t].at.Test? && ws[t].mine == 0
    ensures Sum(ws) == 0 && Owed(ws) == 0
  {
    if ws != [] { InitialSums(ws[1..]); }
  }

  lemma InitialInv(s: Sys)
    requires Initial(s)
    ensures Inv(s)
  {
    InitialSums(s.ws);
    forall t | 0 <= t < |s.ws| ensures ThreadOk(s.m, t) && WorkerOk(s, t) {}
  }

  lemma {:induction false} RunKeepsInv(s: Sys, ps: seq<Pick>)
    requires Inv(s) && After(s, ps).Some?
    ensures Inv(After(s, ps).value)
  {
    if ps != [] {
      RunKeepsInv(s, ps[..|ps| - 1]);
      NextKeepsInv(After(s, ps[..|ps| - 1]).value, ps[|ps| - 1]);
    }
  }

  /** Main result, for the spinlock and the mutex and any number of workers: under every
      interleaving the shared counter is the sum of the private ones plus the workers between their
      store to `c` and their private increment; when all have stopped the two are equal. */
  lemma NoLostUpdates(s: Sys, ps: seq<Pick>)
    requires Initial(s) && After(s, ps).Some?
    ensures var s' := After(s, ps).value;
            && s'.c == Sum(s'.ws) + Owed(s'.ws)
            && ((forall t | 0 <= t < |s'.ws| :: s'.ws[t].at.Done?) ==> s'.c == Sum(s'.ws))
  {
    InitialInv(s);
    RunKeepsInv(s, ps);
    var s' := After(s, ps).value;
    if forall t | 0 <= t < |s'.ws| :: s'.ws[t].at.Done? { NoneOwed(s'.ws); }
  }

  /** No worker's unlock is ever refused. */
  lemma UnlockNeverRefused(s: Sys, ps: seq<Pick>, t: nat, w: nat)
    requires Initial(s) && After(s, ps).Some?
    requires CanPick(After(s, ps).value, Work(t, w))
    requires After(s, ps).value.ws[t].at.Unlocking? && After(s, ps).value.m.ts[t].pc.CheckPid?
    ensures Next(After(s, ps).value, Work(t, w)).m.ts[t].pc.ClearPid?
  {
    InitialInv(s);
    RunKeepsInv(s, ps);
    var s' := After(s, ps).value;
    assert WorkerOk(s', t) && ThreadOk(s'.m, t);
  }

  // ----- the loop of a worker -----

  predicate InPass(at: At) {
    at in {Locking, Load, Store, Unlocking, Bump}
  }

  predicate Stored(at: At) {
    at in {Unlocking, Bump}
  }

  function Bit(b: bool): nat { if b then 1 else 0 }

  /** The step is the entry of thread `t` into a lock call, seen at the lock alone. */
  predicate EntersLock(s: Sys, p: Pick, t: nat)
    requires CanPick(s, p)
  {
    p.Work? && p.thread == t && t < |s.ws| && s.m.ts[t].pc.Out?
    && t < |Next(s, p).m.ts| && Next(s, p).m.ts[t].pc.TrySet?
  }

  /** The step is the entry of thread `t` into an unlock call. */
  predicate EntersUnlock(s: Sys, p: Pick, t: nat)
    requires CanPick(s, p)
  {
    p.Work? && p.thread == t && t < |s.ws| && s.m.ts[t].pc.Out?
    && t < |Next(s, p).m.ts| && Next(s, p).m.ts[t].pc.CheckPid?
  }

  /** The step brings worker `t` back to the condition of its loop. */
  predicate EndsPass(s: Sys, p: Pick, t: nat)
    requires CanPick(s, p)
  {
    t < |s.ws| && s.ws[t].at != Test && t < |Next(s, p).ws| && Next(s, p).ws[t].at == Test
  }

  function LockCalls(s: Sys, ps: seq<Pick>, t: nat): nat
    requires After(s, ps).Some?
  {
    if ps == [] then 0
    else
      var ps' := ps[..|ps| - 1];
      LockCalls(s, ps', t) + Bit(EntersLock(After(s, ps').value, ps[|ps| - 1], t))
  }

  function UnlockCalls(s: Sys, ps: seq<Pick>, t: nat): nat
    requires After(s, ps).Some?
  {
    if ps == [] then 0
    else
      var ps' := ps[..|ps| - 1];
      UnlockCalls(s, ps', t) + Bit(EntersUnlock(After(s, ps').value, ps[|ps| - 1], t))
  }

  function Passes(s: Sys, ps: seq<Pick>, t: nat): nat
    requires After(s, ps).Some?
  {
    if ps == [] then 0
    else
      var ps' := ps[..|ps| - 1];
      Passes(s, ps', t) + Bit(EndsPass(After(s, ps').value, ps[|ps| - 1], t))
  }

  /** What one step does to the account of worker `t`. */
  lemma StepCounts(s: Sys, p: Pick, t: nat)
    requires Inv(s) && CanPick(s, p) && t < |s.ws|
    ensures |Next(s, p).ws| == |s.ws|
    ensures var w, w' := s.ws[t], Next(s, p).ws[t];
            && w'.mine == w.mine + Bit(EndsPass(s, p, t))
            && Bit(InPass(w'.at)) + Bit(EndsPass(s, p, t)) == Bit(InPass(w.at)) + Bit(EntersLock(s, p, t))
            && Bit(Stored(w'.at)) + Bit(EndsPass(s, p, t)) == Bit(Stored(w.at)) + Bit(EntersUnlock(s, p, t))
            && (EntersLock(s, p, t) ==> s.running)
  {
    NextKeepsInv(s, p);
    assert WorkerOk(s, t) && WorkerOk(Next(s, p), t);
  }

  lemma {:induction false} RunCounts(s: Sys, ps: seq<Pick>, t: nat)
    requires Inv(s) && After(s, ps).Some? && t < |s.ws|
    ensures |After(s, ps).value.ws| == |s.ws|
    ensures var w, w' := s.ws[t], After(s, ps).value.ws[t];
            && w'.mine == w.mine + Passes(s, ps, t)
            && Bit(InPass(w'.at)) + Passes(s, ps, t) == Bit(InPass(w.at)) + LockCalls(s, ps, t)
            && Bit(Stored(w'.at)) + Passes(s, ps, t) == Bit(Stored(w.at)) + UnlockCalls(s, ps, t)
  {
    if ps != [] {
      var ps' := ps[..|ps| - 1];
      RunCounts(s, ps', t);
      RunKeepsInv(s, ps');
      StepCounts(After(s, ps').value, ps[|ps| - 1], t);
    }
  }

  /** Main result: a worker's private counter is the number of passes it has completed, and each
      pass made exactly one lock call and one unlock call. */
  lemma PassesCounted(s: Sys, ps: seq<Pick>, t: nat)
    requires Initial(s) && After(s, ps).Some? && t < |s.ws|
    ensures |After(s, ps).value.ws| == |s.ws|
    ensures var w := After(s, ps).value.ws[t];
            && w.mine == Passes(s, ps, t)
            && LockCalls(s, ps, t) == Passes(s, ps, t) + Bit(InPass(w.at))
            && UnlockCalls(s, ps, t) == Passes(s, ps, t) + Bit(Stored(w.at))
  {
    InitialInv(s);
    RunCounts(s, ps, t);
  }

  // ----- when the workers stop -----

  /** The condition of the loop: while `run` is 1 the worker enters the lock call, and otherwise it
      leaves the loop and touches nothing else. */
  lemma TestExactly(s: Sys, t: nat, w: nat)
    requires Inv(s) && CanPick(s, Work(t, w)) && s.ws[t].at.Test?
    ensures var s' := Next(s, Work(t, w));
            if s.running then EntersLock(s, Work(t, w), t) && s'.ws[t].at.Locking? && s'.c == s.c
            else s' == s.(ws := s.ws[t := s.ws[t].(at := Done)])
  {
  }

  lemma {:induction false} RunFlag(s: Sys, ps: seq<Pick>)
    requires After(s, ps).Some?
    ensures After(s, ps).value.running <==> s.running && StopAll !in ps
  {
    if ps != [] {
      RunFlag(s, ps[..|ps| - 1]);
      assert ps == ps[..|ps| - 1] + [ps[|ps| - 1]];
    }
  }

  /** Main result: no worker leaves its loop before main stores 0 to `run`. */
  lemma {:induction false} NobodyStopsEarly(s: Sys, ps: seq<Pick>, t: nat)
    requires Initial(s) && s.running && After(s, ps).Some? && StopAll !in ps
    ensures t < |After(s, ps).value.ws| ==> After(s, ps).value.ws[t].at != Done
  {
    if ps != [] {
      var ps' := ps[..|ps| - 1];
      assert ps == ps' + [ps[|ps| - 1]];
      NobodyStopsEarly(s, ps', t);
      RunFlag(s, ps');
      InitialInv(s);
      RunKeepsInv(s, ps');
      if t < |s.ws| { RunCounts(s, ps', t); }
    }
  }

  /** Main result: once `run` is 0 nobody enters the lock again, so a worker completes at most the
      pass it is in. */
  lemma {:induction false} AtMostOnePassMore(s: Sys, ps: seq<Pick>, t: nat)
    requires Inv(s) && !s.running && After(s, ps).Some? && t < |s.ws|
    ensures LockCalls(s, ps, t) == 0 && Passes(s, ps, t) <= Bit(InPass(s.ws[t].at))
  {
    RunCounts(s, ps, t);
    if ps != [] {
      var ps' := ps[..|ps| - 1];
      AtMostOnePassMore(s, ps', t);
      RunKeepsInv(s, ps');
      RunFlag(s, ps');
      RunCounts(s, ps', t);
      StepCounts(After(s, ps').value, ps[|ps| - 1], t);
    }
  }

  // ----- the test can always finish -----

  ghost predicate LeadsTo(s: Sys, s': Sys) {
    exists ps :: After(s, ps) == Some(s')
  }

  lemma StepOn(s0: Sys, s: Sys, p: Pick)
    requires LeadsTo(s0, s) && CanPick(s, p)
    ensures LeadsTo(s0, Next(s, p))
  {
    var ps :| After(s0, ps) == Some(s);
    assert (ps + [p])[..|ps|] == ps;
    assert After(s0, ps + [p]) == Some(Next(s, p));
  }

  /** Steps left to a worker that finds the lock free and the loop over. */
  function Rank(kind: Kind, at: At, pc: Pc): nat {
    match at
    case Done => 0
    case Test => 1
    case Bump => 2
    case Unlocking =>
      (match pc
       case FutexWake => 3
       case StoreUnlocked => if kind.Spin? then 3 else 5
       case ClearFlag => 4
       case ClearPid => 6
       case _ => 7)
    case Store => 8
    case Load => 9
    case Locking =>
      (match pc
       case StoreLocked => 10
       case StorePid => 11
       case TrySet => 12
       case Asleep => 13
       case _ => 14)
  }

  function RankAll(kind: Kind, ws: seq<Worker>, ts: seq<LockModel.Thread>): nat
    requires |ws| == |ts|
  {
    if ws == [] then 0 else Rank(kind, ws[0].at, ts[0].pc) + RankAll(kind, ws[1..], ts[1..])
  }

  lemma {:induction false} RankAllFalls(kind: Kind, ws: seq<Worker>, ts: seq<LockModel.Thread>,
                                        ws': seq<Worker>, ts': seq<LockModel.Thread>, t: nat)
    requires |ws| == |ts| == |ws'| == |ts'|
    requires forall u | 0 <= u < |ws| :: Rank(kind, ws'[u].at, ts'[u].pc) <= Rank(kind, ws[u].at, ts[u].pc)
    ensures RankAll(kind, ws', ts') <= RankAll(kind, ws, ts)
    ensures t < |ws| && Rank(kind, ws'[t].at, ts'[t].pc) < Rank(kind, ws[t].at, ts[t].pc) ==>
              RankAll(kind, ws', ts') < RankAll(kind, ws, ts)
  {
    if ws != [] {
      RankAllFalls(kind, ws[1..], ts[1..], ws'[1..], ts'[1..], if t > 0 then t - 1 else |ws|);
    }
  }

  ghost predicate AllDone(s: Sys) {
    forall t | 0 <= t < |s.ws| :: s.ws[t].at.Done?
  }

  lemma LockingHelps(m: Machine, t: nat, w: nat)
    requires LockModel.Inv(m) && Enabled(m, t, Access(w)) && (Held(m.ts) ==> m.ts[t].holding)
    requires m.ts[t].pc in {TrySet, FutexWait, StorePid, StoreLocked}
    requires m.ts[t].holding <==> m.ts[t].pc in {StorePid, StoreLocked}
    ensures var pc := AccessStep(m, t, w).ts[t].pc;
            pc.Out? || Rank(m.kind, Locking, pc) < Rank(m.kind, Locking, m.ts[t].pc)
  {
    assert m.lock.flag == 1 ==> m.ts[t].holding;
  }

  lemma UnlockingHelps(m: Machine, t: nat, w: nat)
    requires LockModel.Inv(m) && Enabled(m, t, Access(w)) && UnlockPhase(m.kind, m.ts[t])
    ensures var pc := AccessStep(m, t, w).ts[t].pc;
            pc.Out? || Rank(m.kind, Unlocking, pc) < Rank(m.kind, Unlocking, m.ts[t].pc)
  {
    assert ThreadOk(m, t);
  }

  lemma WorkHelps(s: Sys, t: nat, w: nat)
    requires Inv(s) && !s.running && CanPick(s, Work(t, w)) && (Held(s.m.ts) ==> s.m.ts[t].holding)
    ensures var s' := Work1(s, t, w);
            && |s'.ws| == |s.ws| == |s'.m.ts|
            && Rank(s.m.kind, s'.ws[t].at, s'.m.ts[t].pc) < Rank(s.m.kind, s.ws[t].at, s.m.ts[t].pc)
  {
    WorkKeepsLock(s, t, w);
    assert WorkerOk(s, t);
    match s.ws[t].at
    case Locking => LockingHelps(s.m, t, w);
    case Unlocking => UnlockingHelps(s.m, t, w);
    case _ =>
  }

  /** Whoever holds the lock, or anybody if nobody does, has a step towards its end. */
  lemma SomeStepHelps(s: Sys) returns (t: nat, p: Pick)
    requires Inv(s) && !s.running && !AllDone(s)
    ensures CanPick(s, p) && t < |s.ws| && (p == WakeUp(t) || (p.Work? && p.thread == t))
    ensures |Next(s, p).ws| == |s.ws| == |Next(s, p).m.ts|
    ensures Rank(s.m.kind, Next(s, p).ws[t].at, Next(s, p).m.ts[t].pc) < Rank(s.m.kind, s.ws[t].at, s.m.ts[t].pc)
  {
    if Held(s.m.ts) {
      t :| 0 <= t < |s.ws| && s.m.ts[t].holding;
    } else {
      t :| 0 <= t < |s.ws| && !s.ws[t].at.Done?;
    }
    assert WorkerOk(s, t);
    if s.m.ts[t].pc.Asleep? {
      p := WakeUp(t);
    } else {
      var w: nat := 0;
      if SomeoneAsleep(s.m) { w :| w < |s.m.ts| && s.m.ts[w].pc.Asleep?; }
      p := Work(t, w);
      WorkHelps(s, t, w);
    }
  }

  lemma OthersKeepRank(s: Sys, p: Pick, t: nat, u: nat)
    requires Inv(s) && CanPick(s, p) && (p == WakeUp(t) || (p.Work? && p.thread == t))
    requires t < |s.ws| && u < |s.ws| && u != t
    ensures |Next(s, p).ws| == |s.ws| == |Next(s, p).m.ts| && Next(s, p).m.kind == s.m.kind
    ensures Rank(s.m.kind, Next(s, p).ws[u].at, Next(s, p).m.ts[u].pc) <= Rank(s.m.kind, s.ws[u].at, s.m.ts[u].pc)
  {
    if p.Work? { LockPartOk(s, t, p.wakes, u); }
    assert WorkerOk(s, u);
  }

  lemma {:induction false} DriveToEnd(s0: Sys, s: Sys)
    requires LeadsTo(s0, s) && Inv(s) && !s.running
    ensures exists s' :: LeadsTo(s0, s') && Inv(s') && AllDone(s')
    decreases RankAll(s.m.kind, s.ws, s.m.ts)
  {
    if !AllDone(s) {
      var t, p := SomeStepHelps(s);
      var s' := Next(s, p);
      forall u | 0 <= u < |s.ws|
        ensures |s'.ws| == |s.ws| == |s'.m.ts| && s'.m.kind == s.m.kind
        ensures Rank(s.m.kind, s'.ws[u].at, s'.m.ts[u].pc) <= Rank(s.m.kind, s.ws[u].at, s.m.ts[u].pc)
      {
        if u != t { OthersKeepRank(s, p, t, u); }
      }
      RankAllFalls(s.m.kind, s.ws, s.m.ts, s'.ws, s'.m.ts, t);
      StepOn(s0, s, p);
      NextKeepsInv(s, p);
      DriveToEnd(s0, s');
    }
  }

  /** Main result: from every point of a run the test can still end with all workers out of their
      loops, and whenever it does the check c == c1 + ... + cN holds. */
  lemma TestCanPass(s: Sys, ps: seq<Pick>)
    requires Initial(s) && After(s, ps).Some?
    ensures exists s' :: LeadsTo(After(s, ps).value, s') && AllDone(s') && s'.c == Sum(s'.ws)
  {
    InitialInv(s);
    RunKeepsInv(s, ps);
    var s1 := After(s, ps).value;
    assert After(s1, []) == Some(s1);
    StepOn(s1, s1, StopAll);
    NextKeepsInv(s1, StopAll);
    DriveToEnd(s1, Next(s1, StopAll));
    var s' :| LeadsTo(s1, s') && Inv(s') && AllDone(s');
    NoneOwed(s'.ws);
  }
}
