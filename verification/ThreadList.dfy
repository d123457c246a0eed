/** one-one/library/dll.c: the doubly linked list of thread control blocks. */
module ThreadList {
  datatype Tcb = Tcb(tid: int, pid: int)

  class Node {
    var tcb: Tcb
    var next: Node?
    var prev: Node?

    constructor (tcb: Tcb)
      ensures this.tcb == tcb && next == null && prev == null
    {
      this.tcb, next, prev := tcb, null, null;
    }
  }

  // ----- the list as a sequence -----

  datatype Key = Tid | Pid

  function Get(t: Tcb, key: Key): int {
    if key.Tid? then t.tid else t.pid
  }

  /** The position of the first block with the given tid or pid, or the length. */
  function First(s: seq<Tcb>, key: Key, v: int): (k: nat)
    ensures k <= |s| && (k < |s| ==> Get(s[k], key) == v)
    ensures forall j | 0 <= j < k :: Get(s[j], key) != v
  {
    if s == [] || Get(s[0], key) == v then 0 else 1 + First(s[1..], key, v)
  }

  ghost predicate HasTid(s: seq<Tcb>, tid: int) {
    exists t :: t in s && t.tid == tid
  }

  function Without<T>(s: seq<T>, k: nat): seq<T>
    requires k < |s|
  {
    s[..k] + s[k + 1..]
  }

  /** Exactly the block at position `k` is gone: putting it back restores the list. */
  lemma WithoutOne<T>(s: seq<T>, k: nat)
    requires k < |s|
    ensures |Without(s, k)| == |s| - 1 && Without(s, k)[..k] + [s[k]] + Without(s, k)[k..] == s
  {
    var r := Without(s, k);
    assert r[..k] == s[..k] && r[k..] == s[k + 1..];
    assert s == s[..k] + [s[k]] + s[k + 1..];
  }

  /** How a call of removeNodeWithTid ends. */
  datatype Outcome = Crash | Left(list: seq<Tcb>)

  /** A lone node stays if it has the tid and is otherwise asked for the next field of its NULL prev
      pointer; in a longer list an absent tid costs the last node. */
  function Remove(s: seq<Tcb>, tid: int): Outcome {
    if s == [] then Left(s)
    else if |s| == 1 then if s[0].tid == tid then Left(s) else Crash
    else
      var k := First(s, Tid, tid);
      Left(if k < |s| then Without(s, k) else s[..|s| - 1])
  }

  /** What the operation is for: the list without its first block of that tid, if there is one. */
  function Intended(s: seq<Tcb>, tid: int): seq<Tcb> {
    var k := First(s, Tid, tid);
    if k < |s| then Without(s, k) else s
  }

  lemma {:induction false} FirstTidFound(s: seq<Tcb>, tid: int)
    ensures First(s, Tid, tid) < |s| <==> HasTid(s, tid)
  {
    var k := First(s, Tid, tid);
    if k < |s| {
      assert s[k] in s;
    }
  }

  /** Main result: the call does what it is for exactly when the list is empty, or has at least two
      nodes and holds the tid. */
  lemma RemoveMeetsIntent(s: seq<Tcb>, tid: int)
    ensures Remove(s, tid) == Left(Intended(s, tid)) <==> s == [] || (|s| >= 2 && HasTid(s, tid))
  {
    FirstTidFound(s, tid);
    if s != [] {
      RemoveFailures(s, tid);
    }
  }

  /** The three ways it fails: a lone node of the tid stays, a lone node of another tid crashes the
      call, and an absent tid takes the last of several nodes. Only the second one crashes. */
  lemma RemoveFailures(s: seq<Tcb>, tid: int)
    ensures |s| == 1 && HasTid(s, tid) ==> Remove(s, tid) == Left(s) && Intended(s, tid) == []
    ensures |s| == 1 && !HasTid(s, tid) <==> Remove(s, tid).Crash?
    ensures |s| >= 2 && !HasTid(s, tid) ==> Remove(s, tid) == Left(s[..|s| - 1]) && Intended(s, tid) == s
  {
    FirstTidFound(s, tid);
  }

  /** Removing the tid just added gives back the list, if it was not empty. */
  lemma RemoveUndoesAdd(s: seq<Tcb>, t: Tcb)
    requires s != []
    ensures Remove([t] + s, t.tid) == Left(s)
  {
    assert ([t] + s)[1..] == s;
  }

  // ----- the linked list -----

  class List {
    var head: Node?
    ghost var nodes: seq<Node>

    ghost predicate Linked(i: nat)
      reads this, nodes
      requires i < |nodes|
    {
      && nodes[i].next == (if i + 1 < |nodes| then nodes[i + 1] else null)
      && nodes[i].prev == (if i > 0 then nodes[i - 1] else null)
    }

    /** head is the first of a chain of distinct nodes; prev and next are mutually inverse. */
    ghost predicate Valid()
      reads this, nodes
    {
      && head == (if nodes == [] then null else nodes[0])
      && (forall i | 0 <= i < |nodes| :: Linked(i))
      && (forall i, j | 0 <= i < j < |nodes| :: nodes[i] != nodes[j])
    }

    ghost function Blocks(): (s: seq<Tcb>)
      reads this, nodes
      ensures |s| == |nodes| && forall i | 0 <= i < |s| :: s[i] == nodes[i].tcb
    {
      seq(|nodes|, i requires 0 <= i < |nodes| reads this, nodes => nodes[i].tcb)
    }

    constructor ()
      ensures Valid() && nodes == []
    {
      head, nodes := null, [];
    }

    method Add(tcb: Tcb)
      requires Valid()
      modifies this, nodes
      ensures Valid() && Blocks() == [tcb] + old(Blocks())
      ensures nodes[1..] == old(nodes) && fresh(nodes[0])
      ensures forall n | n in nodes :: n in old(nodes) || fresh(n)
    {
      var newNode := new Node(tcb);
      assert nodes != [] ==> Linked(0);
      newNode.next := head;
      if head != null {
        head.prev := newNode;
      }
      head := newNode;
      nodes := [newNode] + nodes;
      forall i | 0 <= i < |nodes| ensures Linked(i) {
        if i > 0 { assert old(Linked(i - 1)); }
      }
      AddedBlocks(tcb);
    }

    twostate lemma AddedBlocks(tcb: Tcb)
      requires |nodes| == |old(nodes)| + 1 && nodes[1..] == old(nodes) && nodes[0].tcb == tcb
      requires TcbsKept(old(nodes))
      ensures Blocks() == [tcb] + old(Blocks())
    {
      var s, t := Blocks(), old(Blocks());
      forall i | 0 < i < |s| ensures s[i] == t[i - 1] {
        assert nodes[i] == nodes[1..][i - 1];
        assert old(nodes)[i - 1] in old(nodes);
      }
    }

    twostate lemma BlocksWithout(k: nat)
      requires k < |old(nodes)| && nodes == Without(old(nodes), k) && TcbsKept(old(nodes))
      ensures Blocks() == Without(old(Blocks()), k)
    {
      var s, t := Blocks(), old(Blocks());
      forall i | 0 <= i < |s| ensures s[i] == Without(t, k)[i] {
        assert nodes[i] == old(nodes)[if i < k then i else i + 1];
        assert nodes[i] in old(nodes);
      }
    }

    method IsEmpty() returns (b: bool)
      requires Valid()
      ensures b <==> Blocks() == []
    {
      b := head == null;
    }

    /** The node of the first block with the tid, or NULL when there is none. */
    method GetNodeUsingTid(tid: int) returns (n: Node?)
      requires Valid()
      ensures var k := First(Blocks(), Tid, tid);
              n == if k < |nodes| then nodes[k] else null
    {
      if head == null {
        return null;
      }
      var temp := head;
      ghost var k := 0;
      assert Linked(0);
      while temp.next != null
        invariant k < |nodes| && temp == nodes[k]
        invariant forall j | 0 <= j < k :: nodes[j].tcb.tid != tid
        decreases |nodes| - k
      {
        if temp.tcb.tid == tid {
          return temp;
        }
        assert Linked(k);
        temp := temp.next;
        k := k + 1;
      }
      assert Linked(k);
      return if temp.tcb.tid == tid then temp else null;
    }

    method GetNodeUsingPid(pid: int) returns (n: Node?)
      requires Valid()
      ensures var k := First(Blocks(), Pid, pid);
              n == if k < |nodes| then nodes[k] else null
    {
      if head == null {
        return null;
      }
      var temp := head;
      ghost var k := 0;
      assert Linked(0);
      while temp.next != null
        invariant k < |nodes| && temp == nodes[k]
        invariant forall j | 0 <= j < k :: nodes[j].tcb.pid != pid
        decreases |nodes| - k
      {
        if temp.tcb.pid == pid {
          return temp;
        }
        assert Linked(k);
        temp := temp.next;
        k := k + 1;
      }
      assert Linked(k);
      return if temp.tcb.pid == pid then temp else null;
    }

    method UnlinkFront()
      requires Valid() && |nodes| >= 2
      modifies this, nodes
      ensures Valid() && nodes == Without(old(nodes), 0) && TcbsKept(old(nodes))
    {
      var temp := head;
      assert Linked(0) && Linked(1);
      head.next.prev := null;
      head := head.next;
      temp.next := null;
      nodes := nodes[1..];
      forall i | 0 <= i < |nodes| ensures Linked(i) { assert old(Linked(i + 1)); }
    }

    method UnlinkMiddle(temp: Node, ghost k: nat)
      requires Valid() && 0 < k < |nodes| - 1 && temp == nodes[k]
      modifies this, nodes
      ensures Valid() && nodes == Without(old(nodes), k) && TcbsKept(old(nodes))
    {
      assert Linked(k) && Linked(k - 1) && Linked(k + 1);
      temp.prev.next := temp.next;
      temp.next.prev := temp.prev;
      nodes := nodes[..k] + nodes[k + 1..];
      forall i | 0 <= i < |nodes| ensures Linked(i) {
        if i < k { assert old(Linked(i)); } else { assert old(Linked(i + 1)); }
      }
    }

    method UnlinkLast(temp: Node)
      requires Valid() && |nodes| >= 2 && temp == nodes[|nodes| - 1]
      modifies this, nodes
      ensures Valid() && nodes == Without(old(nodes), |old(nodes)| - 1) && TcbsKept(old(nodes))
    {
      assert Linked(|nodes| - 1) && Linked(|nodes| - 2);
      temp.prev.next := temp.next;
      temp.prev := temp.next;
      nodes := nodes[..|nodes| - 1];
      forall i | 0 <= i < |nodes| ensures Linked(i) { assert old(Linked(i)); }
    }

    twostate predicate TcbsKept(ns: seq<Node>)
      reads ns
    {
      forall n | n in ns :: n.tcb == old(n.tcb)
    }

    /** The position removeNodeWithTid takes out of a list of at least two nodes. */
    ghost function Victim(tid: int): (k: nat)
      requires |nodes| >= 2
      reads this, nodes
      ensures k < |nodes|
    {
      var k := First(Blocks(), Tid, tid);
      if k < |nodes| then k else |nodes| - 1
    }

    method RemoveFromMany(tid: int) returns (n: Node)
      requires Valid() && |nodes| >= 2
      modifies this, nodes
      ensures Valid() && TcbsKept(old(nodes))
      ensures n == old(nodes)[old(Victim(tid))] && nodes == Without(old(nodes), old(Victim(tid)))
    {
      var temp := head;
      if head.tcb.tid == tid {
        UnlinkFront();
        return temp;
      }
      ghost var k := 0;
      assert Linked(0);
      while temp.next != null
        invariant k < |nodes| && temp == nodes[k]
        invariant forall j | 0 <= j < k :: nodes[j].tcb.tid != tid
        invariant nodes[0].tcb.tid != tid
        decreases |nodes| - k
      {
        assert Linked(k);
        if temp.tcb.tid == tid {
          UnlinkMiddle(temp, k);
          return temp;
        }
        temp := temp.next;
        k := k + 1;
      }
      assert Linked(k);
      UnlinkLast(temp);
      return temp;
    }

    /** `crashed` stands for the access through a NULL prev pointer; nothing is written before it. */
    method RemoveNodeWithTid(tid: int) returns (crashed: bool, n: Node?)
      requires Valid()
      modifies this, nodes
      ensures Valid()
      ensures if crashed then Remove(old(Blocks()), tid) == Crash && Blocks() == old(Blocks())
              else Remove(old(Blocks()), tid) == Left(Blocks())
      ensures !crashed ==> (n == null <==> old(nodes) == [])
      ensures n != null ==> n in old(nodes) && n.tcb == old(n.tcb)
      ensures n != null && First(old(Blocks()), Tid, tid) < |old(nodes)| ==> n.tcb.tid == tid
      ensures !crashed && |old(nodes)| >= 2 ==> n !in nodes
    {
      if head == null {
        return false, null;
      }
      assert Linked(0);
      if head.next == null {
        if head.tcb.tid == tid {
          return false, head;
        }
        assert head.prev == null;
        return true, null;
      }
      ghost var k := Victim(tid);
      n := RemoveFromMany(tid);
      crashed := false;
      BlocksWithout(k);
      assert n in old(nodes);
    }
  }

  /** Adding a block to a list that is not empty and removing its tid restores the list. */
  method AddThenRemove(l: List, t: Tcb)
    requires l.Valid() && l.nodes != []
    modifies l, l.nodes
    ensures l.Valid() && l.Blocks() == old(l.Blocks())
  {
    ghost var before := l.Blocks();
    l.Add(t);
    ghost var mid := l.Blocks();
    assert |l.nodes| == |before| + 1;
    var crashed, n := l.RemoveNodeWithTid(t.tid);
    assert !crashed && l.Blocks() == before by {
      assert mid == [t] + before;
      RemoveUndoesAdd(before, t);
    }
  }
}
