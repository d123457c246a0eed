/** many-one/library/queue.c: the linked queue of thread control blocks. */
module ThreadQueue {
  import opened ThreadModel

  class Tcb {
    var tid: int
    var status: Status
    var detachState: DetachState
    var returnValue: int
    var waitingThreadTid: int
    var pendingSignals: set<int>
    var atStart: bool               // the saved context is the one thread_create made

    constructor (tid: int, status: Status, atStart: bool)
      ensures this.tid == tid && this.status == status && this.atStart == atStart
      ensures detachState == Joinable && returnValue == 0 && waitingThreadTid == -1 && pendingSignals == {}
    {
      this.tid, this.status, this.atStart := tid, status, atStart;
      detachState, returnValue, waitingThreadTid, pendingSignals := Joinable, 0, -1, {};
    }
  }

  class Node {
    var thread: Tcb
    var next: Node?

    constructor (thread: Tcb)
      ensures this.thread == thread && next == null
    {
      this.thread, next := thread, null;
    }
  }

  /** The position of the first element with the given tid, or the length. */
  ghost function FirstWithTid(contents: seq<Tcb>, id: int): (k: nat)
    reads contents
    ensures k <= |contents|
    ensures forall j | 0 <= j < k :: contents[j].tid != id
    ensures k < |contents| ==> contents[k].tid == id
  {
    if contents == [] || contents[0].tid == id then 0 else 1 + FirstWithTid(contents[1..], id)
  }

  class Queue {
    var head: Node?
    var tail: Node?
    var count: int
    ghost var nodes: seq<Node>      // the nodes reachable from head, in order
    ghost var contents: seq<Tcb>
    ghost var cells: set<Node>      // every node ever linked

    /** head and tail are the two ends of one chain of distinct nodes; count is its length. */
    ghost predicate Valid()
      reads this, cells
    {
      && |nodes| == |contents| == count
      && head == (if nodes == [] then null else nodes[0])
      && tail == (if nodes == [] then null else nodes[|nodes| - 1])
      && (forall i | 0 <= i < |nodes| :: Linked(i))
      && (forall i, j | 0 <= i < j < |nodes| :: nodes[i] != nodes[j])
    }

    ghost predicate Linked(i: nat)
      reads this, cells
      requires i < |nodes| == |contents|
    {
      && nodes[i] in cells && nodes[i].thread == contents[i]
      && nodes[i].next == (if i + 1 < |nodes| then nodes[i + 1] else null)
    }

    constructor InitQueue()
      ensures Valid() && contents == [] && cells == {}
    {
      head, tail, count, nodes, contents, cells := null, null, 0, [], [], {};
    }

    method Enqueue(t: Tcb)
      requires Valid()
      modifies this, cells
      ensures Valid() && contents == old(contents) + [t]
      ensures fresh(cells - old(cells))
    {
      var tmp := new Node(t);
      assert nodes != [] ==> Linked(|nodes| - 1);
      if tail == null {
        head := tmp;
        tail := tmp;
      } else {
        tail.next := tmp;
        tail := tmp;
      }
      count := count + 1;
      nodes, contents, cells := nodes + [tmp], contents + [t], cells + {tmp};
      forall i | 0 <= i < |nodes| ensures Linked(i) {
        if i < |nodes| - 1 { assert old(Linked(i)); }
      }
    }

    /** NULL exactly when the queue is empty, otherwise the oldest thread. */
    method Dequeue() returns (t: Tcb?)
      requires Valid()
      modifies this
      ensures Valid() && cells == old(cells)
      ensures old(contents) == [] ==> t == null && contents == []
      ensures old(contents) != [] ==> t == old(contents)[0] && contents == old(contents)[1..]
    {
      if tail == null {
        return null;
      }
      assert Linked(0);
      var tmp := head;
      t := tmp.thread;
      head := head.next;
      count := count - 1;
      if head == null {
        tail := null;
      }
      nodes, contents := nodes[1..], contents[1..];
      forall i | 0 <= i < |nodes| ensures Linked(i) { assert old(Linked(i + 1)); }
    }

    method IsEmpty() returns (b: bool)
      requires Valid()
      ensures b <==> contents == []
    {
      b := head == null && tail == null;
    }

    /** The first thread in queue order with the given tid; NULL exactly when there is none. */
    method SearchWithTid(id: int) returns (t: Tcb?)
      requires Valid()
      ensures var k := FirstWithTid(contents, id);
              if k < |contents| then t == contents[k] else t == null
    {
      if head == null {
        return null;
      }
      var tmp := head;
      ghost var k := 0;
      while tmp != null
        invariant 0 <= k <= |nodes|
        invariant tmp == if k < |nodes| then nodes[k] else null
        invariant forall j | 0 <= j < k :: contents[j].tid != id
        decreases |nodes| - k
      {
        assert Linked(k);
        if tmp.thread.tid == id {
          return tmp.thread;
        }
        tmp := tmp.next;
        k := k + 1;
      }
      return null;
    }
  }

  // ----- any sequence of operations -----

  datatype Op = Put(thread: Tcb) | Take

  datatype Fifo = Fifo(held: seq<Tcb>, out: seq<Tcb>)

  function Puts(ops: seq<Op>): seq<Tcb> {
    if ops == [] then []
    else Puts(ops[..|ops| - 1]) + match ops[|ops| - 1] case Put(t) => [t] case Take => []
  }

  function Replay(ops: seq<Op>): Fifo {
    if ops == [] then Fifo([], [])
    else
      var f := Replay(ops[..|ops| - 1]);
      match ops[|ops| - 1]
      case Put(t) => f.(held := f.held + [t])
      case Take => if f.held == [] then f else Fifo(f.held[1..], f.out + [f.held[0]])
  }

  /** Threads leave in the order they came, and none is lost or duplicated. */
  lemma {:induction false} FifoOrder(ops: seq<Op>)
    ensures Replay(ops).out + Replay(ops).held == Puts(ops)
  {
    if ops != [] {
      FifoOrder(ops[..|ops| - 1]);
      var f := Replay(ops[..|ops| - 1]);
      if f.held != [] { assert f.held == [f.held[0]] + f.held[1..]; }
    }
  }

  /** Main result: the linked queue behaves as a FIFO sequence over any run of operations. */
  method RunOps(q: Queue, ops: seq<Op>) returns (out: seq<Tcb>)
    requires q.Valid() && q.contents == []
    modifies q, q.cells
    ensures q.Valid() && Fifo(q.contents, out) == Replay(ops) && out + q.contents == Puts(ops)
  {
    out := [];
    var i := 0;
    while i < |ops|
      invariant 0 <= i <= |ops| && q.Valid()
      invariant fresh(q.cells - old(q.cells))
      invariant Fifo(q.contents, out) == Replay(ops[..i])
    {
      assert ops[..i + 1][..i] == ops[..i];
      match ops[i] {
        case Put(t) => q.Enqueue(t);
        case Take =>
          var t := q.Dequeue();
          if t != null { out := out + [t]; }
      }
      i := i + 1;
    }
    assert ops[..i] == ops;
    FifoOrder(ops);
  }
}
