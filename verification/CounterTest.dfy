/** The worker threads and main of one-one/testfiles/mutextest.c and spinlocktest.c in place. */
module CounterTest {
  import opened Wrappers
  import opened LockModel
  import opened LockLibrary
  import opened CounterModel

  class Test {
    const lock: LockSystem
    const workers: array<Worker>
    var running: bool
    var c: int

    ghost function Abs(): Sys
      reads this, lock, lock.threads, workers
    {
      Sys(lock.Abs(), running, c, workers[..])
    }

    /** The test program with one worker per pid; the lock's other fields may hold anything. */
    constructor (kind: Kind, pids: seq<int>, pid: int, lockState: LockState)
      requires Distinct(pids) && pid !in pids
      ensures CounterModel.Initial(Abs()) && running
      ensures fresh(lock) && fresh(lock.threads) && fresh(workers)
    {
      lock := new LockSystem(kind, pids, pid, lockState);
      workers := new Worker[|pids|](i => Worker(At.Test, 0, 0));
      running := true;
      c := 0;
    }

    method MoveTo(t: nat, w: Worker)
      requires t < workers.Length
      modifies workers
      ensures workers[..] == old(workers[..])[t := w]
    {
      workers[t] := w;
    }

    /** The next step of worker `t` in: while(run == 1) { lock; c++; unlock; mine++; }. */
    method Work(t: nat, wakes: nat)
      requires CanPick(Abs(), Pick.Work(t, wakes)) && 0 <= lock.flag <= 1
      modifies this`c, lock, lock.threads, workers
      ensures Abs() == Next(old(Abs()), Pick.Work(t, wakes))
    {
      var me := workers[t];
      match me.at {
        case Test =>
          if running {
            lock.Step(t, CallLock);
            MoveTo(t, me.(at := Locking));
          } else {
            MoveTo(t, me.(at := Done));
          }
        case Locking => InCall(t, wakes, Load);
        case Load => MoveTo(t, me.(at := Store, reg := c));
        case Store =>
          c := me.reg + 1;
          lock.Step(t, CallUnlock);
          MoveTo(t, me.(at := Unlocking));
        case Unlocking => InCall(t, wakes, Bump);
        case Bump => MoveTo(t, me.(at := At.Test, mine := me.mine + 1));
        case Done =>
      }
    }

    /** One access inside lock or unlock; the worker goes on to `next` when the call returns. */
    method InCall(t: nat, wakes: nat, next: At)
      requires Enabled(lock.Abs(), t, Access(wakes)) && t < workers.Length && 0 <= lock.flag <= 1
      modifies lock, lock.threads, workers
      ensures lock.Abs() == AccessStep(old(lock.Abs()), t, wakes)
      ensures workers[..] == if lock.threads[t].pc.Out? then old(workers[..])[t := old(workers[t]).(at := next)]
                             else old(workers[..])
    {
      lock.Step(t, Access(wakes));
      if lock.threads[t].pc.Out? {
        MoveTo(t, workers[t].(at := next));
      }
    }

    method Step(p: Pick)
      requires CanPick(Abs(), p) && 0 <= lock.flag <= 1
      modifies this`c, this`running, lock, lock.threads, workers
      ensures Abs() == Next(old(Abs()), p)
    {
      match p {
        case StopAll => running := false;
        case WakeUp(t) => lock.Step(t, Spurious);
        case Work(t, w) => Work(t, w);
      }
    }

    /** Main result: whatever the schedule, once every worker has left its loop the final check
        of main, c == c1 + ... + cN, succeeds. */
    method RunTest(picks: seq<Pick>) returns (passed: bool)
      requires CounterModel.Initial(Abs()) && CounterModel.After(Abs(), picks).Some?
      modifies this`c, this`running, lock, lock.threads, workers
      ensures Some(Abs()) == CounterModel.After(old(Abs()), picks)
      ensures passed <==> c == CounterModel.Sum(workers[..])
      ensures (forall t | 0 <= t < workers.Length :: workers[t].at.Done?) ==> passed
    {
      ghost var s := Abs();
      CounterModel.InitialInv(s);
      var i := 0;
      while i < |picks|
        invariant 0 <= i <= |picks| && CounterModel.After(s, picks[..i]) == Some(Abs())
        invariant CounterModel.Inv(Abs())
      {
        PickPrefix(s, picks, i + 1);
        assert picks[..i + 1][..i] == picks[..i];
        NextKeepsInv(Abs(), picks[i]);
        Step(picks[i]);
        i := i + 1;
      }
      assert picks[..i] == picks;
      NoLostUpdates(s, picks);
      var total := Total();
      passed := c == total;
    }

    /** c1 + c2 + ... over the private counters. */
    method Total() returns (total: int)
      ensures total == CounterModel.Sum(workers[..])
    {
      total := 0;
      var i := workers.Length;
      while i > 0
        invariant 0 <= i <= workers.Length && total == CounterModel.Sum(workers[i..])
      {
        i := i - 1;
        total := workers[i].mine + total;
        assert workers[i..][1..] == workers[i + 1..];
      }
      assert workers[0..] == workers[..];
    }
  }

  lemma {:induction false} PickPrefix(s: Sys, ps: seq<Pick>, j: nat)
    requires CounterModel.After(s, ps).Some? && j <= |ps|
    ensures CounterModel.After(s, ps[..j]).Some?
  {
    if j < |ps| {
      PickPrefix(s, ps[..|ps| - 1], j);
      assert ps[..|ps| - 1][..j] == ps[..j];
    } else {
      assert ps[..j] == ps;
    }
  }
}
