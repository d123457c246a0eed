/** many-one/testfiles/matrix.c: worker threads that fill disjoint rows of one result
    matrix, preempted between any two accesses to it. */
module MatrixProduct {
  import opened Wrappers

  /** Entry (i, j) of the product, summed over the first `n` terms. */
  ghost function Dot(a: array2<int>, b: array2<int>, i: nat, j: nat, n: nat): int
    requires i < a.Length0 && j < b.Length1 && n <= a.Length1 && n <= b.Length0
    reads a, b
  {
    if n == 0 then 0 else Dot(a, b, i, j, n - 1) + a[i, n - 1] * b[n - 1, j]
  }

  ghost predicate Unit(b: array2<int>)
    reads b
  {
    && b.Length0 == b.Length1
    && forall k, j | 0 <= k < b.Length0 && 0 <= j < b.Length1 :: b[k, j] == if k == j then 1 else 0
  }

  lemma {:induction false} DotUnit(a: array2<int>, b: array2<int>, i: nat, j: nat, n: nat)
    requires Unit(b) && a.Length1 == b.Length0 && i < a.Length0 && j < b.Length1 && n <= a.Length1
    ensures Dot(a, b, i, j, n) == if j < n then a[i, j] else 0
  {
    if n > 0 { DotUnit(a, b, i, j, n - 1); }
  }

  /** The entries are linear in the second matrix; with TimesUnit this fixes what they are. */
  lemma {:induction false} DotLinear(a: array2<int>, b: array2<int>, b1: array2<int>, b2: array2<int>, x: int,
                                     i: nat, j: nat, n: nat)
    requires i < a.Length0 && n <= a.Length1 && j < b.Length1
    requires b.Length0 == b1.Length0 == b2.Length0 >= n && b.Length1 == b1.Length1 == b2.Length1
    requires forall k | 0 <= k < n :: b[k, j] == x * b1[k, j] + b2[k, j]
    ensures Dot(a, b, i, j, n) == x * Dot(a, b1, i, j, n) + Dot(a, b2, i, j, n)
  {
    if n > 0 {
      DotLinear(a, b, b1, b2, x, i, j, n - 1);
      Distribute(a[i, n - 1], b1[n - 1, j], b2[n - 1, j], x);
      assert x * (Dot(a, b1, i, j, n - 1) + a[i, n - 1] * b1[n - 1, j]) ==
             x * Dot(a, b1, i, j, n - 1) + x * (a[i, n - 1] * b1[n - 1, j]);
    }
  }

  lemma Distribute(p: int, q: int, r: int, x: int)
    ensures p * (x * q + r) == x * (p * q) + p * r
  {
    assert p * (x * q) == x * (p * q);
  }

  // ----- the row split -----

  datatype Range = Range(lo: nat, hi: nat)

  function RowSplit(n: nat): seq<Range> {
    if n < 3 then [Range(0, n)]
    else
      var rows := n / 3;
      [Range(0, rows), Range(rows, 2 * rows), Range(2 * rows, n)]
  }

  ghost predicate Partition(rs: seq<Range>, n: nat) {
    && rs != [] && rs[0].lo == 0 && rs[|rs| - 1].hi == n
    && (forall k | 0 <= k < |rs| :: rs[k].lo <= rs[k].hi)
    && (forall k | 0 < k < |rs| :: rs[k - 1].hi == rs[k].lo)
  }

  lemma RowSplitPartitions(n: nat)
    ensures Partition(RowSplit(n), n)
  {
  }

  /** Three workers when there are three rows or more: none without rows, the first two with equally
      many, and the last with at most two more. */
  lemma RowSplitBalanced(n: nat)
    ensures n < 3 ==> |RowSplit(n)| == 1
    ensures n >= 3 ==>
            var rs := RowSplit(n);
            && |rs| == 3 && 0 < rs[0].hi - rs[0].lo == rs[1].hi - rs[1].lo
            && rs[0].hi - rs[0].lo <= rs[2].hi - rs[2].lo <= rs[0].hi - rs[0].lo + 2
  {
    RowSplitPartitions(n);
  }

  lemma {:induction false} RangesAscend(rs: seq<Range>, n: nat, j: nat, k: nat)
    requires Partition(rs, n) && j < k < |rs|
    ensures rs[j].hi <= rs[k].lo
    decreases k
  {
    if j < k - 1 { RangesAscend(rs, n, j, k - 1); }
  }

  lemma {:induction false} RowFound(rs: seq<Range>, n: nat, row: nat, k: nat) returns (j: nat)
    requires Partition(rs, n) && k < |rs| && row < rs[k].hi
    ensures j <= k && rs[j].lo <= row < rs[j].hi
  {
    if rs[k].lo <= row { j := k; } else { j := RowFound(rs, n, row, k - 1); }
  }

  ghost predicate Owns(rs: seq<Range>, k: nat, row: nat) {
    k < |rs| && rs[k].lo <= row < rs[k].hi
  }

  lemma OneOwner(rs: seq<Range>, n: nat, row: nat, j: nat, k: nat)
    requires Partition(rs, n) && Owns(rs, j, row) && Owns(rs, k, row)
    ensures j == k
  {
    if k < j { RangesAscend(rs, n, k, j); } else if j < k { RangesAscend(rs, n, j, k); }
  }

  /** Each row belongs to exactly one worker. */
  lemma EachRowOnce(n: nat, row: nat)
    requires row < n
    ensures exists j :: Owns(RowSplit(n), j, row) && forall k | Owns(RowSplit(n), k, row) :: k == j
  {
    var rs := RowSplit(n);
    RowSplitPartitions(n);
    var j := RowFound(rs, n, row, |rs| - 1);
    assert Owns(rs, j, row);
    forall k | Owns(rs, k, row) ensures k == j { OneOwner(rs, n, row, j, k); }
  }

  // ----- the workers -----

  /** The next access of a worker to the result: `C[i][j] = 0`, or the load or the store of
      `C[i][j] += ...`. */
  datatype At = Zero | Load | Store

  datatype Worker = Worker(rows: Range, i: nat, j: nat, k: nat, at: At, reg: int)

  class Product {
    const a: array2<int>
    const b: array2<int>
    const c: array2<int>
    const ws: array<Worker>

    /** Worker `w` has left its loops; with no columns it has nothing to do. */
    predicate Done(w: Worker) {
      w.i >= w.rows.hi || b.Length1 == 0
    }

    /** Dimensions match and the result is a separate matrix. */
    predicate Fits() {
      && a.Length1 == b.Length0 && c.Length0 == a.Length0 && c.Length1 == b.Length1
      && c != a && c != b
    }

    /** The ranges split the rows of the result. */
    ghost predicate Shape()
      reads ws
    {
      Fits() && Partition(Ranges(), c.Length0)
    }

    ghost function Ranges(): (rs: seq<Range>)
      reads ws
      ensures |rs| == ws.Length && forall t | 0 <= t < ws.Length :: rs[t] == ws[t].rows
    {
      seq(ws.Length, t requires 0 <= t < ws.Length reads ws => ws[t].rows)
    }

    ghost predicate Before(w: Worker, i: nat, j: nat) {
      i < w.i || (i == w.i && j < w.j)
    }

    /** What worker `w` has written so far is right, and so is the cell it is working on. */
    ghost predicate WorkerOk(w: Worker)
      requires Fits()
      reads a, b, c
    {
      && w.rows.lo <= w.i <= w.rows.hi <= c.Length0
      && (w.i == w.rows.hi ==> w.j == 0 && w.at == Zero && w.k == 0)
      && (forall i, j | w.rows.lo <= i < w.rows.hi && 0 <= j < c.Length1 && Before(w, i, j) ::
            c[i, j] == Dot(a, b, i, j, a.Length1))
      && (!Done(w) ==> w.j < c.Length1 && CellOk(w))
      && (c.Length1 == 0 ==> w.j == 0 && w.k == 0 && w.at == Zero)
    }

    ghost predicate CellOk(w: Worker)
      requires Fits()
      requires w.i < c.Length0 && w.j < c.Length1
      reads a, b, c
    {
      match w.at
      case Zero => w.k == 0
      case Load => w.k < a.Length1 && c[w.i, w.j] == Dot(a, b, w.i, w.j, w.k)
      case Store =>
        && w.k < a.Length1 && c[w.i, w.j] == Dot(a, b, w.i, w.j, w.k)
        && w.reg == Dot(a, b, w.i, w.j, w.k + 1)
    }

    ghost predicate Valid()
      reads a, b, c, ws
    {
      Shape() && forall t | 0 <= t < ws.Length :: WorkerOk(ws[t])
    }

    predicate Fresh(w: Worker) {
      w.i == w.rows.lo && w.j == 0 && w.k == 0 && w.at.Zero?
    }

    constructor (a: array2<int>, b: array2<int>, c: array2<int>, split: seq<Range>)
      requires a.Length1 == b.Length0 && c.Length0 == a.Length0 && c.Length1 == b.Length1
      requires c != a && c != b && Partition(split, c.Length0)
      ensures Valid() && this.a == a && this.b == b && this.c == c && fresh(ws)
      ensures forall t | 0 <= t < ws.Length :: Fresh(ws[t])
    {
      this.a, this.b, this.c := a, b, c;
      ws := new Worker[|split|](t requires 0 <= t < |split| => Worker(split[t], split[t].lo, 0, 0, Zero, 0));
      new;
      assert Ranges() == split;
      forall t | 0 <= t < ws.Length ensures WorkerOk(ws[t]) {
        if t < |split| - 1 { RangesAscend(split, c.Length0, t, |split| - 1); }
      }
    }

    /** The worker after its cell is finished: the next column, or the next row. */
    function NextCell(w: Worker): Worker {
      if w.j + 1 < b.Length1 then w.(j := w.j + 1, k := 0, at := Zero)
      else w.(i := w.i + 1, j := 0, k := 0, at := Zero)
    }

    // ----- remaining work -----

    /** Accesses left to worker `w`: one store of 0 and a load and a store per term, for each cell. */
    function Left(w: Worker): int {
      if Done(w) then 0
      else ((w.rows.hi - w.i) * b.Length1 - w.j) * (1 + 2 * a.Length1)
           - (match w.at case Zero => 0 case Load => 1 + 2 * w.k case Store => 2 + 2 * w.k)
    }

    function LeftAll(ws: seq<Worker>): int {
      if ws == [] then 0 else Left(ws[0]) + LeftAll(ws[1..])
    }

    lemma {:induction false} LeftUpdate(ws: seq<Worker>, t: nat, w: Worker)
      requires t < |ws|
      ensures LeftAll(ws[t := w]) == LeftAll(ws) - Left(ws[t]) + Left(w)
    {
      if t == 0 {
        assert ws[t := w][1..] == ws[1..];
      } else {
        assert ws[t := w][1..] == ws[1..][t - 1 := w];
        LeftUpdate(ws[1..], t - 1, w);
      }
    }

    lemma NextCellLeft(w: Worker)
      requires !Done(w) && w.i < w.rows.hi && w.j < b.Length1
      ensures Left(NextCell(w)) == ((w.rows.hi - w.i) * b.Length1 - w.j - 1) * (1 + 2 * a.Length1)
      ensures Left(w.(at := Zero, k := 0)) == Left(NextCell(w)) + 1 + 2 * a.Length1
    {
      var cells := (w.rows.hi - w.i) * b.Length1 - w.j;
      var size := 1 + 2 * a.Length1;
      assert cells * size == (cells - 1) * size + size;
      if w.j + 1 >= b.Length1 {
        assert (w.rows.hi - (w.i + 1)) * b.Length1 == (w.rows.hi - w.i) * b.Length1 - b.Length1;
      }
    }

    lemma {:induction false} LeftNonNegative(w: Worker)
      requires !Done(w) ==> w.j < b.Length1 && (w.at != Zero ==> w.k < a.Length1)
      ensures Left(w) >= 0 && (Left(w) == 0 <==> Done(w))
    {
      if !Done(w) {
        NextCellLeft(w);
        CellsLeft(w.rows.hi - w.i, w.j, 1 + 2 * a.Length1);
      }
    }

    lemma CellsLeft(r: int, j: nat, size: nat)
      requires r >= 1 && j < b.Length1
      ensures (r * b.Length1 - j - 1) * size >= 0
    {
      assert r * b.Length1 >= b.Length1;
    }

    // ----- one access -----

    /** The record of worker `t` after its next access, given what the access reads. */
    function Advance(w: Worker, loaded: int): Worker {
      match w.at
      case Zero => if a.Length1 == 0 then NextCell(w) else w.(at := Load)
      case Load => w.(at := Store, reg := loaded)
      case Store => if w.k + 1 < a.Length1 then w.(at := Load, k := w.k + 1) else NextCell(w)
    }

    lemma AdvanceLeft(w: Worker, loaded: int)
      requires !Done(w) && w.i < w.rows.hi && w.j < b.Length1
      requires if w.at.Zero? then w.k == 0 else w.k < a.Length1
      ensures Left(Advance(w, loaded)) == Left(w) - 1
    {
      NextCellLeft(w);
    }

    /** One access of a worker that is not done, and its next record. */
    method Access(w: Worker) returns (next: Worker)
      requires Fits() && WorkerOk(w) && !Done(w)
      modifies c
      ensures WorkerOk(next) && next.rows == w.rows && Left(next) == Left(w) - 1
      ensures forall u | old(WorkerOk(u)) && !(u.rows.lo <= w.i < u.rows.hi) :: WorkerOk(u)
      ensures forall i, j | 0 <= i < c.Length0 && 0 <= j < c.Length1 && i != w.i :: c[i, j] == old(c[i, j])
    {
      var loaded := 0;
      match w.at {
        case Zero => c[w.i, w.j] := 0;
        case Load => loaded := c[w.i, w.j] + a[w.i, w.k] * b[w.k, w.j];
        case Store => c[w.i, w.j] := w.reg;
      }
      next := Advance(w, loaded);
      AdvanceLeft(w, loaded);
    }

    lemma OtherRows(t: nat, u: nat)
      requires Valid() && t < ws.Length && u < ws.Length && u != t && !Done(ws[t])
      ensures !(ws[u].rows.lo <= ws[t].i < ws[u].rows.hi)
    {
      assert WorkerOk(ws[t]) && WorkerOk(ws[u]);
      if u < t { RangesAscend(Ranges(), c.Length0, u, t); } else { RangesAscend(Ranges(), c.Length0, t, u); }
    }

    method Replace(t: nat, next: Worker)
      requires Shape() && t < ws.Length && next.rows == ws[t].rows && WorkerOk(next)
      requires forall u | 0 <= u < ws.Length && u != t :: WorkerOk(ws[u])
      modifies ws
      ensures Valid() && ws[..] == old(ws[..])[t := next]
    {
      ws[t] := next;
      assert Ranges() == old(Ranges());
    }

    /** Worker `t` makes its next access to the result. */
    method Step(t: nat)
      requires Valid() && t < ws.Length && !Done(ws[t])
      modifies c, ws
      ensures Valid() && LeftAll(ws[..]) == old(LeftAll(ws[..])) - 1
    {
      var w := ws[t];
      assert WorkerOk(w);
      forall u | 0 <= u < ws.Length && u != t ensures !(ws[u].rows.lo <= w.i < ws[u].rows.hi) {
        OtherRows(t, u);
      }
      var next := Access(w);
      LeftUpdate(ws[..], t, next);
      Replace(t, next);
    }

    lemma {:induction false} AllNonNegative(us: seq<Worker>)
      requires Fits() && forall u | u in us :: WorkerOk(u)
      ensures LeftAll(us) >= 0
    {
      if us != [] {
        var u := us[0];
        assert u in us;
        LeftNonNegative(u);
        AllNonNegative(us[1..]);
      }
    }

    /** When every worker is done the result is the product, whatever it held at first. */
    lemma DoneIsProduct()
      requires Valid() && forall t | 0 <= t < ws.Length :: Done(ws[t])
      ensures forall i, j | 0 <= i < c.Length0 && 0 <= j < c.Length1 :: c[i, j] == Dot(a, b, i, j, a.Length1)
    {
      forall i, j | 0 <= i < c.Length0 && 0 <= j < c.Length1 ensures c[i, j] == Dot(a, b, i, j, a.Length1) {
        var t := RowFound(Ranges(), c.Length0, i, ws.Length - 1);
        assert WorkerOk(ws[t]);
        assert Before(ws[t], i, j);
      }
    }

    predicate AnyLeft()
      reads ws
    {
      exists t | 0 <= t < ws.Length :: !Done(ws[t])
    }

    lemma {:induction false} WorkAhead(us: seq<Worker>, lo: int, hi: int)
      requires forall t | 0 <= t < |us| :: Fresh(us[t]) && us[t].rows.lo <= us[t].rows.hi
      requires if us == [] then lo == hi else us[0].rows.lo == lo && us[|us| - 1].rows.hi == hi
      requires forall t | 0 < t < |us| :: us[t - 1].rows.hi == us[t].rows.lo
      ensures LeftAll(us) == (hi - lo) * b.Length1 * (1 + 2 * a.Length1)
    {
      if us != [] {
        var mid := us[0].rows.hi;
        assert |us| > 1 ==> us[1].rows.lo == us[0].rows.hi;
        WorkAhead(us[1..], mid, hi);
        Split(mid - lo, hi - mid, b.Length1, 1 + 2 * a.Length1);
        assert Left(us[0]) == (mid - lo) * b.Length1 * (1 + 2 * a.Length1);
      }
    }

    /** Before it starts, the whole computation is one store and two accesses per term for each cell. */
    lemma FreshWork()
      requires Shape() && forall t | 0 <= t < ws.Length :: Fresh(ws[t])
      ensures LeftAll(ws[..]) == c.Length0 * c.Length1 * (1 + 2 * a.Length1)
    {
      WorkAhead(ws[..], 0, c.Length0);
    }

    lemma Split(x: int, y: int, p: int, q: int)
      ensures (x + y) * p * q == x * p * q + y * p * q
    {
      assert (x + y) * p == x * p + y * p;
    }

    /** Main result: in whatever order the workers make their accesses, they finish after exactly
        the accesses counted by LeftAll and leave the product of the two matrices. */
    method RunAll() returns (accesses: nat)
      requires Valid()
      modifies c, ws
      ensures forall i, j | 0 <= i < c.Length0 && 0 <= j < c.Length1 :: c[i, j] == Dot(a, b, i, j, a.Length1)
      ensures accesses == old(LeftAll(ws[..]))
    {
      accesses := 0;
      AllNonNegative(ws[..]);
      while AnyLeft()
        invariant Valid() && LeftAll(ws[..]) >= 0
        invariant accesses + LeftAll(ws[..]) == old(LeftAll(ws[..]))
        decreases LeftAll(ws[..])
      {
        var t :| 0 <= t < ws.Length && !Done(ws[t]);
        Step(t);
        AllNonNegative(ws[..]);
        accesses := accesses + 1;
      }
      DoneIsProduct();
      NothingLeft(ws[..]);
    }

    lemma {:induction false} NothingLeft(us: seq<Worker>)
      requires forall u | u in us :: Done(u)
      ensures LeftAll(us) == 0
    {
      if us != [] {
        assert us[0] in us;
        NothingLeft(us[1..]);
      }
    }
  }

  /** A matrix multiplied by the unit matrix is itself. */
  method TimesUnit(a: array2<int>, b: array2<int>) returns (c: Option<array2<int>>)
    requires Unit(b) && a.Length1 == b.Length0
    ensures c.Some? && c.value.Length0 == a.Length0 && c.value.Length1 == a.Length1
    ensures forall i, j | 0 <= i < a.Length0 && 0 <= j < a.Length1 :: c.value[i, j] == a[i, j]
  {
    var accesses;
    c, accesses := Multiply(a, b);
    forall i, j | 0 <= i < a.Length0 && 0 <= j < a.Length1 ensures c.value[i, j] == a[i, j] {
      DotUnit(a, b, i, j, a.Length1);
    }
  }

  /** main: refuse matrices that do not fit, otherwise split the rows over one or three workers,
      run them to completion and return the result. */
  method Multiply(a: array2<int>, b: array2<int>) returns (c: Option<array2<int>>, accesses: nat)
    ensures c.None? <==> a.Length1 != b.Length0
    ensures c.Some? ==> accesses == a.Length0 * b.Length1 * (1 + 2 * a.Length1)
    ensures c.Some? ==> c.value.Length0 == a.Length0 && c.value.Length1 == b.Length1
    ensures c.Some? ==> forall i, j | 0 <= i < a.Length0 && 0 <= j < b.Length1 ::
                          c.value[i, j] == Dot(a, b, i, j, a.Length1)
  {
    if a.Length1 != b.Length0 {
      return None, 0;
    }
    var result := new int[a.Length0, b.Length1];
    RowSplitPartitions(a.Length0);
    var p := new Product(a, b, result, RowSplit(a.Length0));
    p.FreshWork();
    accesses := p.RunAll();
    c := Some(result);
  }

  /** mult run by one thread without preemption, as the source writes it: three nested loops. */
  method Mult(a: array2<int>, b: array2<int>, c: array2<int>, rows: Range)
    requires a.Length1 == b.Length0 && c.Length0 == a.Length0 && c.Length1 == b.Length1
    requires c != a && c != b && rows.lo <= rows.hi <= c.Length0
    modifies c
    ensures forall i, j | 0 <= i < c.Length0 && 0 <= j < c.Length1 ::
              c[i, j] == if rows.lo <= i < rows.hi then Dot(a, b, i, j, a.Length1) else old(c[i, j])
  {
    var i := rows.lo;
    while i < rows.hi
      invariant rows.lo <= i <= rows.hi
      invariant forall r, q | 0 <= r < c.Length0 && 0 <= q < c.Length1 ::
                  c[r, q] == if rows.lo <= r < i then Dot(a, b, r, q, a.Length1) else old(c[r, q])
    {
      var j := 0;
      while j < b.Length1
        invariant 0 <= j <= b.Length1
        invariant forall r, q | 0 <= r < c.Length0 && 0 <= q < c.Length1 ::
                    c[r, q] == if rows.lo <= r < i || (r == i && q < j) then Dot(a, b, r, q, a.Length1)
                               else old(c[r, q])
      {
        c[i, j] := 0;
        var k := 0;
        while k < b.Length0
          invariant 0 <= k <= b.Length0 && c[i, j] == Dot(a, b, i, j, k)
          invariant forall r, q | 0 <= r < c.Length0 && 0 <= q < c.Length1 && !(r == i && q == j) ::
                      c[r, q] == if rows.lo <= r < i || (r == i && q < j) then Dot(a, b, r, q, a.Length1)
                                 else old(c[r, q])
        {
          c[i, j] := c[i, j] + a[i, k] * b[k, j];
          k := k + 1;
        }
        j := j + 1;
      }
      i := i + 1;
    }
  }
}
