/** one-one/library/lock.c in place: the fields of the lock and the calls of all threads,
    advanced one shared access at a time. */
module LockLibrary {
  import opened Wrappers
  import opened LockModel

  class LockSystem {
    const kind: Kind
    const pids: seq<int>
    var flag: int
    var pid: int
    var lockState: LockState
    const threads: array<Thread>

    ghost function Abs(): Machine
      reads this, threads
    {
      Machine(kind, pids, Lock(flag, pid, lockState), threads[..])
    }

    /** A lock with the given fields, and one thread per pid in user code. */
    constructor (kind: Kind, pids: seq<int>, pid: int, lockState: LockState)
      ensures Abs() == Machine(kind, pids, Lock(0, pid, lockState), seq(|pids|, i => Thread(Out, false, Zero)))
      ensures fresh(threads)
    {
      this.kind, this.pids, this.flag, this.pid, this.lockState := kind, pids, 0, pid, lockState;
      threads := new Thread[|pids|](i => Thread(Out, false, Zero));
    }

    /** atomic_flag_test_and_set. */
    method TestAndSet() returns (was: bool)
      modifies this`flag
      ensures flag == 1 && (was <==> old(flag) != 0)
    {
      was := flag != 0;
      flag := 1;
    }

    method CompareExchange(expected: int, desired: int) returns (ok: bool)
      modifies this`flag
      ensures ok <==> old(flag) == expected
      ensures flag == if ok then desired else old(flag)
    {
      ok := flag == expected;
      if ok {
        flag := desired;
      }
    }

    method Goto(t: nat, pc: Pc)
      requires t < threads.Length
      modifies threads
      ensures threads[..] == old(threads[..])[t := old(threads[t]).(pc := pc)]
    {
      threads[t] := threads[t].(pc := pc);
    }

    method Return(t: nat, code: Code)
      requires t < threads.Length
      modifies threads
      ensures threads[..] == old(threads[..])[t := old(threads[t]).(pc := Out, code := code)]
    {
      threads[t] := threads[t].(pc := Out, code := code);
    }

    /** The exchange at the head of both lock calls. */
    method TryAcquire(t: nat)
      requires t < threads.Length == |pids| && threads[t].pc.TrySet? && 0 <= flag <= 1
      modifies this`flag, threads
      ensures Abs() == AccessStep(old(Abs()), t, 0)
    {
      var got;
      if kind.Spin? {
        var was := TestAndSet();
        got := !was;
      } else {
        got := CompareExchange(0, 1);
      }
      if got {
        threads[t] := threads[t].(pc := StorePid, holding := true);
      } else if kind.Futex? {
        threads[t] := threads[t].(pc := FutexWait);
      } else {
        assert threads[..][t := threads[t]] == threads[..];
      }
    }

    /** The store or exchange that gives the lock up. */
    method Release(t: nat)
      requires t < threads.Length == |pids| && threads[t].pc.ClearFlag?
      modifies this`flag, threads
      ensures Abs() == AccessStep(old(Abs()), t, 0)
    {
      if kind.Spin? {
        flag := 0;
        threads[t] := threads[t].(pc := StoreUnlocked, holding := false);
      } else {
        var ok := CompareExchange(1, 0);
        threads[t] := if ok then threads[t].(pc := FutexWake, holding := false)
                      else threads[t].(pc := Out, code := Zero);
      }
    }

    method WakeOne(t: nat, wakes: nat)
      requires Enabled(Abs(), t, Access(wakes)) && threads[t].pc.FutexWake?
      modifies threads
      ensures Abs() == AccessStep(old(Abs()), t, wakes)
    {
      if wakes < threads.Length && threads[wakes].pc.Asleep? {
        Goto(wakes, TrySet);
      }
      Return(t, Zero);
    }

    /** The loads and stores of pid and lock_state. */
    method AccessField(t: nat, wakes: nat)
      requires Enabled(Abs(), t, Access(wakes))
      requires threads[t].pc !in {TrySet, ClearFlag, FutexWake}
      modifies this`pid, this`lockState, threads
      ensures Abs() == AccessStep(old(Abs()), t, wakes)
    {
      match threads[t].pc {
        case FutexWait =>
          Goto(t, if flag == 0 then Asleep else TrySet);
        case StorePid =>
          pid := pids[t];
          Goto(t, StoreLocked);
        case StoreLocked =>
          lockState := Locked;
          Return(t, Zero);
        case CheckPid =>
          if pid != pids[t] {
            Return(t, EINVAL);
          } else {
            Goto(t, ClearPid);
          }
        case ClearPid =>
          pid := -1;
          Goto(t, if kind.Spin? then ClearFlag else StoreUnlocked);
        case StoreUnlocked =>
          lockState := Unlocked;
          if kind.Spin? {
            Return(t, Zero);
          } else {
            Goto(t, ClearFlag);
          }
        case _ =>
      }
    }

    method Step(t: nat, a: Act)
      requires Enabled(Abs(), t, a) && 0 <= flag <= 1
      modifies this`flag, this`pid, this`lockState, threads
      ensures Abs() == Apply(old(Abs()), t, a)
    {
      match a {
        case CallLock => Goto(t, TrySet);
        case CallUnlock => Goto(t, CheckPid);
        case Spurious => Goto(t, TrySet);
        case Access(w) =>
          if threads[t].pc.TrySet? {
            TryAcquire(t);
          } else if threads[t].pc.ClearFlag? {
            Release(t);
          } else if threads[t].pc.FutexWake? {
            WakeOne(t, w);
          } else {
            AccessField(t, w);
          }
      }
    }

    /** Main result: under any schedule the fields in memory follow the model, and at no point do
        two threads hold the lock. */
    method RunTurns(turns: seq<Turn>)
      requires Initial(Abs()) && After(Abs(), turns).Some?
      modifies this`flag, this`pid, this`lockState, threads
      ensures Some(Abs()) == After(old(Abs()), turns)
      ensures forall i, j | 0 <= i < j < threads.Length :: !(threads[i].holding && threads[j].holding)
    {
      var i := 0;
      ghost var m := Abs();
      InitialInv(m);
      while i < |turns|
        invariant 0 <= i <= |turns| && After(m, turns[..i]) == Some(Abs()) && Inv(Abs())
      {
        AfterPrefix(m, turns, i + 1);
        assert turns[..i + 1][..i] == turns[..i];
        StepKeepsInv(Abs(), turns[i].thread, turns[i].act);
        Step(turns[i].thread, turns[i].act);
        i := i + 1;
      }
      assert turns[..i] == turns;
      MutualExclusion(m, turns);
    }
  }

  lemma {:induction false} AfterPrefix(m: Machine, turns: seq<Turn>, j: nat)
    requires After(m, turns).Some? && j <= |turns|
    ensures After(m, turns[..j]).Some?
  {
    if j < |turns| {
      AfterPrefix(m, turns[..|turns| - 1], j);
      assert turns[..|turns| - 1][..j] == turns[..j];
    } else {
      assert turns[..j] == turns;
    }
  }
}
