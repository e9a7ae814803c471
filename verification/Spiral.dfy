// The clockwise spiral written by fill_spiral_matrix.

module Spiral {

  function Min(a: int, b: int): int { if a <= b then a else b }

  /** The ring a cell lies on, counted from the border. */
  function Layer(n: int, i: int, j: int): int {
    Min(Min(i, j), Min(n - 1 - i, n - 1 - j))
  }

  /** How many cells lie on the rings outside ring k: ring k - 1 has four sides of n - 2(k - 1) - 1 cells. */
  function Base(n: int, k: int): int
    decreases k
  {
    if k <= 0 then 0 else Base(n, k - 1) + 4 * (n - 2 * k + 1)
  }

  lemma {:induction false} BaseClosedForm(n: int, k: nat)
    ensures Base(n, k) == 4 * k * (n - k)
  {
    if k > 0 {
      BaseClosedForm(n, k - 1);
      assert 4 * (k - 1) * (n - (k - 1)) == 4 * k * (n - k) - 4 * (n - 2 * k + 1);
    }
  }

  predicate InSquare(n: int, i: int, j: int) { 0 <= i < n && 0 <= j < n }

  /** The number the spiral puts in row i, column j: top side, right side, bottom side, left side of ring k. */
  function Value(n: int, i: int, j: int): int {
    var k := Layer(n, i, j);
    var m := n - 2 * k;
    if i == k then Base(n, k) + 1 + (j - k)
    else if j == n - 1 - k then Base(n, k) + m + (i - k)
    else if i == n - 1 - k then Base(n, k) + 2 * m - 1 + (n - 1 - k - j)
    else Base(n, k) + 3 * m - 2 + (n - 1 - k - i)
  }

  /** Row-major position of a cell. */
  function Idx(n: int, i: int, j: int): int { i * n + j }

  lemma NextRow(n: int, i: int)
    ensures (i + 1) * n == i * n + n
  {
  }

  lemma {:induction false} RowsApart(n: nat, i: int, i': int)
    requires i < i'
    ensures i * n + n <= i' * n
    decreases i' - i
  {
    NextRow(n, i' - 1);
    if i + 1 < i' {
      RowsApart(n, i, i' - 1);
    }
  }

  lemma IdxInRange(n: int, i: int, j: int)
    requires InSquare(n, i, j)
    ensures 0 <= Idx(n, i, j) < n * n
  {
    RowsApart(n, i, n);
  }

  lemma IdxInjective(n: int, i: int, j: int, i': int, j': int)
    requires InSquare(n, i, j) && InSquare(n, i', j')
    ensures Idx(n, i, j) == Idx(n, i', j') ==> i == i' && j == j'
  {
    if i < i' {
      RowsApart(n, i, i');
    } else if i' < i {
      RowsApart(n, i', i);
    }
  }

  lemma Square(m: int)
    ensures (m == 1 ==> m * m == 1) && (m == 2 ==> m * m == 4)
    ensures 0 <= m ==> m <= m * m
    ensures m >= 1 ==> (if m == 1 then 1 else 4 * (m - 1)) <= m * m
    ensures m >= 2 ==> 3 * m - 2 <= m * m && (3 * m - 2 < m * m ==> m >= 3)
    ensures 2 * m - 1 <= m * m && (2 * m - 1 < m * m && m >= 0 ==> m == 0 || m >= 2)
  {
    assert 0 <= (m - 2) * (m - 2) == m * m - 4 * m + 4;
    assert 0 <= (m - 1) * (m - 1) == m * m - 2 * m + 1;
  }

  // The cells not outside ring k form a square of side n - 2k.
  lemma {:induction false} BaseAndRest(n: int, k: nat)
    ensures n * n == Base(n, k) + (n - 2 * k) * (n - 2 * k)
  {
    if k > 0 {
      BaseAndRest(n, k - 1);
      assert (n - 2 * (k - 1)) * (n - 2 * (k - 1)) == (n - 2 * k) * (n - 2 * k) + 4 * (n - 2 * k) + 4;
    }
  }

  lemma BaseMonotone(n: int, k: int, k': int)
    requires 0 <= k < k' && 2 * k' <= n + 1
    ensures Base(n, k + 1) <= Base(n, k')
    decreases k'
  {
    if k + 1 < k' {
      BaseMonotone(n, k, k' - 1);
    }
  }

  // The numbers on ring k are those in (Base(k), Base(k) + 4(m - 1)], or just Base(k) + 1 for a centre cell.
  lemma ValueOnRing(n: int, i: int, j: int)
    requires InSquare(n, i, j)
    ensures
      var k := Layer(n, i, j);
      var m := n - 2 * k;
      && 0 <= k && 1 <= m
      && Base(n, k) < Value(n, i, j) <= Base(n, k) + (if m == 1 then 1 else 4 * (m - 1))
  {
  }

  lemma {:induction false} BaseNonNegative(n: int, k: int)
    requires 2 * k <= n + 1
    ensures 0 <= Base(n, k)
  {
    if k > 0 {
      BaseNonNegative(n, k - 1);
    }
  }

  lemma ValueInRange(n: int, i: int, j: int)
    requires InSquare(n, i, j)
    ensures 1 <= Value(n, i, j) <= n * n
  {
    var k := Layer(n, i, j);
    var m := n - 2 * k;
    ValueOnRing(n, i, j);
    BaseAndRest(n, k);
    Square(m);
    BaseNonNegative(n, k);
  }

  /** The ring of the number v, searching inwards from ring k. */
  function LayerOf(n: int, v: int, k: int): (r: int)
    requires 0 <= k && 2 * k < n && Base(n, k) < v <= n * n
    ensures k <= r && 2 * r < n && Base(n, r) < v
    ensures v <= Base(n, r) + (if n - 2 * r == 1 then 1 else 4 * (n - 2 * r - 1))
    decreases n - 2 * k
  {
    BaseAndRest(n, k);
    BaseAndRest(n, k + 1);
    if n - 2 * k == 1 || v <= Base(n, k + 1) then k
    else
      assert n - 2 * k == 2 ==> n * n == Base(n, k + 1);
      LayerOf(n, v, k + 1)
  }

  /** The o-th cell of ring k, along the walk. */
  function RingCell(n: int, k: int, o: int): (c: (int, int))
    requires 0 <= k && 1 <= o <= (if n - 2 * k == 1 then 1 else 4 * (n - 2 * k - 1))
    ensures InSquare(n, c.0, c.1)
  {
    var m := n - 2 * k;
    if o <= m then (k, k + o - 1)
    else if o <= 2 * m - 1 then (k + o - m, n - 1 - k)
    else if o <= 3 * m - 2 then (n - 1 - k, n - 1 - k - (o - (2 * m - 1)))
    else (n - 1 - k - (o - (3 * m - 2)), k)
  }

  lemma LayerOfBorder(n: int, k: int, i: int, j: int)
    requires 0 <= k && k <= i < n - k && k <= j < n - k
    requires i == k || j == k || i == n - 1 - k || j == n - 1 - k
    ensures Layer(n, i, j) == k
  {
  }

  lemma RingCellValue(n: int, k: int, o: int, i: int, j: int)
    requires 0 <= k && 1 <= o <= (if n - 2 * k == 1 then 1 else 4 * (n - 2 * k - 1))
    requires RingCell(n, k, o) == (i, j)
    ensures Value(n, i, j) == Base(n, k) + o
  {
    LayerOfBorder(n, k, i, j);
  }

  // Every number belongs to a cell: find its ring, then walk along it.
  lemma CellExists(n: int, v: int) returns (i: int, j: int)
    requires 0 <= n && 1 <= v <= n * n
    ensures InSquare(n, i, j) && Value(n, i, j) == v
  {
    var k := LayerOf(n, v, 0);
    var c := RingCell(n, k, v - Base(n, k));
    i, j := c.0, c.1;
    RingCellValue(n, k, v - Base(n, k), i, j);
  }

  /** The cell that holds the number v. */
  ghost function CellOf(n: int, v: int): (c: (int, int))
    requires 0 <= n && 1 <= v <= n * n
    ensures InSquare(n, c.0, c.1)
    ensures Value(n, c.0, c.1) == v
  {
    assert exists i, j :: InSquare(n, i, j) && Value(n, i, j) == v by {
      var i, j := CellExists(n, v);
    }
    var i, j :| InSquare(n, i, j) && Value(n, i, j) == v;
    (i, j)
  }

  // Two cells never get the same number.
  lemma ValueInjective(n: int, i: int, j: int, i': int, j': int)
    requires InSquare(n, i, j) && InSquare(n, i', j')
    requires Value(n, i, j) == Value(n, i', j')
    ensures i == i' && j == j'
  {
    var k, k' := Layer(n, i, j), Layer(n, i', j');
    ValueOnRing(n, i, j);
    ValueOnRing(n, i', j');
    if k < k' {
      BaseMonotone(n, k, k');
    } else if k' < k {
      BaseMonotone(n, k', k);
    }
  }

  /** The spiral is a bijection between the square and 1..n*n, with CellOf as the inverse of Value. */
  lemma SpiralIsBijection(n: int)
    requires 0 <= n
    ensures forall i, j :: InSquare(n, i, j) ==>
              1 <= Value(n, i, j) <= n * n && CellOf(n, Value(n, i, j)) == (i, j)
    ensures forall v :: 1 <= v <= n * n ==>
              InSquare(n, CellOf(n, v).0, CellOf(n, v).1) && Value(n, CellOf(n, v).0, CellOf(n, v).1) == v
  {
    forall i, j | InSquare(n, i, j)
      ensures 1 <= Value(n, i, j) <= n * n && CellOf(n, Value(n, i, j)) == (i, j)
    {
      ValueInRange(n, i, j);
      var c := CellOf(n, Value(n, i, j));
      ValueInjective(n, c.0, c.1, i, j);
    }
  }

  function Abs(x: int): nat { if x < 0 then -x else x }

  predicate Adjacent(c: (int, int), d: (int, int)) {
    Abs(c.0 - d.0) + Abs(c.1 - d.1) == 1
  }

  lemma StepInRing(n: int, k: int, o: int)
    requires 0 <= k && 2 <= n - 2 * k && 1 <= o < 4 * (n - 2 * k - 1)
    ensures Adjacent(RingCell(n, k, o), RingCell(n, k, o + 1))
  {
  }

  lemma StepInwards(n: int, k: int)
    requires 0 <= k && 3 <= n - 2 * k
    ensures Adjacent(RingCell(n, k, 4 * (n - 2 * k - 1)), RingCell(n, k + 1, 1))
  {
    assert RingCell(n, k, 4 * (n - 2 * k - 1)) == (k + 1, k);
    assert RingCell(n, k + 1, 1) == (k + 1, k + 1);
  }

  lemma CellIsUnique(n: int, v: int, i: int, j: int)
    requires InSquare(n, i, j) && 1 <= v <= n * n && Value(n, i, j) == v
    ensures CellOf(n, v) == (i, j)
  {
    var c := CellOf(n, v);
    ValueInjective(n, c.0, c.1, i, j);
  }

  lemma CellOfOnRing(n: int, k: int, o: int, v: int)
    requires 0 <= k && 1 <= o <= (if n - 2 * k == 1 then 1 else 4 * (n - 2 * k - 1))
    requires v == Base(n, k) + o && 1 <= v <= n * n
    ensures CellOf(n, v) == RingCell(n, k, o)
  {
    var c := RingCell(n, k, o);
    RingCellValue(n, k, o, c.0, c.1);
    CellIsUnique(n, v, c.0, c.1);
  }

  // A number below n * n is not the last of its ring unless there is a ring further in.
  lemma NotTheEnd(n: int, k: int, v: int)
    requires 0 <= k && 1 <= n - 2 * k && v < n * n
    requires Base(n, k) < v <= Base(n, k) + (if n - 2 * k == 1 then 1 else 4 * (n - 2 * k - 1))
    ensures 2 <= n - 2 * k && (v == Base(n, k) + 4 * (n - 2 * k - 1) ==> 3 <= n - 2 * k)
  {
    BaseAndRest(n, k);
    Square(n - 2 * k);
  }

  lemma TouchingCells(n: int, v: int, c: (int, int), d: (int, int))
    requires InSquare(n, c.0, c.1) && InSquare(n, d.0, d.1) && Adjacent(c, d)
    requires 1 <= v < n * n && CellOf(n, v) == c && CellOf(n, v + 1) == d
    ensures Adjacent(CellOf(n, v), CellOf(n, v + 1))
  {
  }

  // The cells of v and v + 1, given where they lie on their rings.
  lemma TouchOnRings(n: int, v: int, k: int, o: int, k': int, o': int)
    requires 0 <= k && 1 <= o <= (if n - 2 * k == 1 then 1 else 4 * (n - 2 * k - 1))
    requires 0 <= k' && 1 <= o' <= (if n - 2 * k' == 1 then 1 else 4 * (n - 2 * k' - 1))
    requires v == Base(n, k) + o && v + 1 == Base(n, k') + o' && 1 <= v < n * n
    requires Adjacent(RingCell(n, k, o), RingCell(n, k', o'))
    ensures Adjacent(CellOf(n, v), CellOf(n, v + 1))
  {
    var c, d := RingCell(n, k, o), RingCell(n, k', o');
    CellOfOnRing(n, k, o, v);
    CellOfOnRing(n, k', o', v + 1);
    TouchingCells(n, v, c, d);
  }

  /** Consecutive numbers sit in cells that share a side: the spiral is one unbroken walk. */
  lemma ConsecutiveCellsTouch(n: int, v: int)
    requires 0 <= n && 1 <= v < n * n
    ensures Adjacent(CellOf(n, v), CellOf(n, v + 1))
  {
    var k := LayerOf(n, v, 0);
    var o, last := v - Base(n, k), 4 * (n - 2 * k - 1);
    NotTheEnd(n, k, v);
    if o < last {
      StepInRing(n, k, o);
      TouchOnRings(n, v, k, o, k, o + 1);
    } else {
      StepInwards(n, k);
      TouchOnRings(n, v, k, last, k + 1, 1);
    }
  }

  // ----- the fill -----

  /** Every cell whose number is at most `count` holds its number. */
  ghost predicate Filled(s: seq<int>, n: int, count: int)
    requires n * n <= |s|
  {
    forall i, j {:trigger Idx(n, i, j)} :: InSquare(n, i, j) && Value(n, i, j) <= count ==>
      0 <= Idx(n, i, j) < n * n && s[Idx(n, i, j)] == Value(n, i, j)
  }

  lemma WriteCell(s: seq<int>, n: int, i: int, j: int, count: int)
    requires n * n <= |s| && Filled(s, n, count)
    requires InSquare(n, i, j) && Value(n, i, j) == count + 1
    ensures 0 <= Idx(n, i, j) < n * n
    ensures Filled(s[Idx(n, i, j) := count + 1], n, count + 1)
  {
    IdxInRange(n, i, j);
    var s' := s[Idx(n, i, j) := count + 1];
    forall i', j' {:trigger Idx(n, i', j')} | InSquare(n, i', j') && Value(n, i', j') <= count + 1
      ensures 0 <= Idx(n, i', j') < n * n && s'[Idx(n, i', j')] == Value(n, i', j')
    {
      IdxInRange(n, i', j');
      IdxInjective(n, i, j, i', j');
      if Idx(n, i, j) != Idx(n, i', j') && Value(n, i', j') == count + 1 {
        ValueInjective(n, i, j, i', j');
      }
    }
  }

  /** What the walk's variables are when it turns into side `state` of ring k. */
  ghost predicate AtCorner(n: int, k: int, state: int, x: int, y: int,
                           right: int, left: int, down: int, up: int, count: int) {
    var m := n - 2 * k;
    && 0 <= k && 0 <= m && left == k - 1 + (if state == 3 then 1 else 0)
    && up == k && down == n - k - (if state >= 2 then 1 else 0)
    && right == n - k - (if state >= 1 then 1 else 0)
    && match state
       case 0 => x == k && y == k && count == Base(n, k)
       case 1 => 1 <= m && x == n - k - 1 && y == k + 1 && count == Base(n, k) + m
       case 2 => 2 <= m && x == n - k - 2 && y == n - k - 1 && count == Base(n, k) + 2 * m - 1
       case 3 => 2 <= m && x == k && y == n - k - 2 && count == Base(n, k) + 3 * m - 2
       case _ => false
  }

  // While numbers remain, the side about to be walked has at least one cell.
  lemma SideNotEmpty(n: int, k: int, state: int, x: int, y: int,
                     right: int, left: int, down: int, up: int, count: int)
    requires AtCorner(n, k, state, x, y, right, left, down, up, count)
    ensures count <= n * n
    ensures count < n * n ==>
              if state == 0 then x < right else if state == 1 then y < down
              else if state == 2 then x > left else y > up
  {
    var m := n - 2 * k;
    BaseAndRest(n, k);
    Square(m);
  }

  // ----- the spiral, ring by ring -----

  /** The border is numbered clockwise: the top row from the left, then right side, bottom row and left side. */
  lemma BorderIsClockwise(n: int, k: int)
    requires 0 <= k < n
    ensures Value(n, 0, k) == k + 1
    ensures Value(n, k, n - 1) == n + k
    ensures k < n - 1 ==> Value(n, n - 1, k) == 3 * n - 2 - k
    ensures 0 < k < n - 1 ==> Value(n, k, 0) == 4 * n - 3 - k
  {
  }

  lemma {:induction false} BaseInside(n: int, k: int)
    requires k >= 1
    ensures Base(n, k) == Base(n - 2, k - 1) + 4 * (n - 1)
    decreases k
  {
    if k > 1 {
      BaseInside(n, k - 1);
    }
  }

  /** Inside the border lies the spiral of size n - 2, its numbers going on from the last one of the border. */
  lemma InsideIsSmallerSpiral(n: int, i: int, j: int)
    requires 0 < i < n - 1 && 0 < j < n - 1
    ensures Value(n, i, j) == Value(n - 2, i - 1, j - 1) + 4 * (n - 1)
  {
    var k := Layer(n, i, j);
    assert Layer(n - 2, i - 1, j - 1) == k - 1;
    BaseInside(n, k);
  }

  /** The first `count` writes went to the cells of 1..count, in this order. */
  ghost predicate Traced(n: int, writes: seq<int>, count: int) {
    && 0 <= n && |writes| == count <= n * n
    && forall v :: 1 <= v <= count ==> writes[v - 1] == Idx(n, CellOf(n, v).0, CellOf(n, v).1)
  }

  /** The walk is on side `state` of ring k, about to write count + 1 in row i, column j. */
  ghost predicate OnSide(n: int, k: int, state: int, i: int, j: int, count: int) {
    var m := n - 2 * k;
    0 <= k && match state
    case 0 => i == k && k <= j < n - k && count == Base(n, k) + (j - k)
    case 1 => j == n - 1 - k && k < i < n - k && count == Base(n, k) + m + (i - k - 1)
    case 2 => i == n - 1 - k && k <= j < n - 1 - k && k < i && count == Base(n, k) + 2 * m - 1 + (n - k - 2 - j)
    case _ => j == k && k < i < n - 1 - k && count == Base(n, k) + 3 * m - 2 + (n - k - 2 - i)
  }

  lemma OnSideIsRingCell(n: int, k: int, state: int, i: int, j: int, count: int) returns (o: int)
    requires OnSide(n, k, state, i, j, count)
    ensures o == count + 1 - Base(n, k)
    ensures 1 <= o <= (if n - 2 * k == 1 then 1 else 4 * (n - 2 * k - 1))
    ensures RingCell(n, k, o) == (i, j)
  {
    o := count + 1 - Base(n, k);
  }

  /** The state of the fill after `count` assignments, from `before` to `s`. */
  ghost predicate Progress(s: seq<int>, before: seq<int>, n: int, count: int, writes: seq<int>) {
    && 0 <= count <= n * n <= |s| == |before|
    && Filled(s, n, count) && Traced(n, writes, count)
    && s[n * n..] == before[n * n..]
  }

  lemma NextTrace(n: int, k: int, state: int, i: int, j: int, count: int, writes: seq<int>)
    requires Traced(n, writes, count) && OnSide(n, k, state, i, j, count)
    ensures InSquare(n, i, j) && Value(n, i, j) == count + 1
    ensures Traced(n, writes + [Idx(n, i, j)], count + 1)
  {
    var o := OnSideIsRingCell(n, k, state, i, j, count);
    RingCellValue(n, k, o, i, j);
    ValueInRange(n, i, j);
    CellOfOnRing(n, k, o, count + 1);
  }

  lemma NextWrite(s: seq<int>, before: seq<int>, n: int, k: int, state: int, i: int, j: int,
                  count: int, writes: seq<int>)
    requires Progress(s, before, n, count, writes)
    requires OnSide(n, k, state, i, j, count)
    ensures 0 <= Idx(n, i, j) < n * n
    ensures Progress(s[Idx(n, i, j) := count + 1], before, n, count + 1, writes + [Idx(n, i, j)])
  {
    NextTrace(n, k, state, i, j, count, writes);
    WriteCell(s, n, i, j, count);
  }

  // One assignment of the walk: the statement shared by its four sides.
  method Put(a: array<int>, n: nat, ghost k: int, ghost state: int, y: int, x: int, count: int,
             ghost writes: seq<int>, ghost before: seq<int>)
    returns (ghost writes': seq<int>)
    requires Progress(a[..], before, n, count, writes)
    requires OnSide(n, k, state, y, x, count)
    modifies a
    ensures Progress(a[..], before, n, count + 1, writes')
  {
    NextWrite(a[..], before, n, k, state, y, x, count, writes);
    ghost var s := a[..];
    a[y * n + x] := count + 1;
    assert a[..] == s[Idx(n, y, x) := count + 1];
    writes' := writes + [Idx(n, y, x)];
  }

  lemma FilledCompletely(s: seq<int>, n: int)
    requires n * n <= |s| && Filled(s, n, n * n)
    ensures forall i, j {:trigger Idx(n, i, j)} :: InSquare(n, i, j) ==>
              0 <= Idx(n, i, j) < n * n && s[Idx(n, i, j)] == Value(n, i, j)
  {
    forall i, j {:trigger Idx(n, i, j)} | InSquare(n, i, j) ensures Value(n, i, j) <= n * n {
      ValueInRange(n, i, j);
    }
  }

  lemma NothingFilled(s: seq<int>, n: int)
    requires n * n <= |s|
    ensures Filled(s, n, 0)
  {
    forall i, j | InSquare(n, i, j) ensures Value(n, i, j) > 0 {
      ValueInRange(n, i, j);
    }
  }

  // Side 0: row k, towards larger columns.
  method GoRight(a: array<int>, n: nat, ghost k: int, x0: int, y0: int, right: int, count0: int,
                 ghost writes0: seq<int>, ghost before: seq<int>)
    returns (x: int, count: int, ghost writes: seq<int>)
    requires Progress(a[..], before, n, count0, writes0)
    requires 0 <= x0 == k == y0 && right == n - k && x0 <= right && count0 == Base(n, k)
    modifies a
    ensures Progress(a[..], before, n, count, writes)
    ensures x == right && count == count0 + right - x0
  {
    x, count, writes := x0, count0, writes0;
    while x < right
      invariant x0 <= x <= right && count == count0 + (x - x0)
      invariant Progress(a[..], before, n, count, writes)
    {
      writes := Put(a, n, k, 0, y0, x, count, writes, before);
      count := count + 1;
      x := x + 1;
    }
  }

  // Side 1: column n - 1 - k, towards larger rows.
  method GoDown(a: array<int>, n: nat, ghost k: int, x0: int, y0: int, down: int, count0: int,
                 ghost writes0: seq<int>, ghost before: seq<int>)
    returns (y: int, count: int, ghost writes: seq<int>)
    requires Progress(a[..], before, n, count0, writes0)
    requires 0 <= k < y0 == k + 1 <= down == n - k && x0 == n - 1 - k && count0 == Base(n, k) + (n - 2 * k)
    modifies a
    ensures Progress(a[..], before, n, count, writes)
    ensures y == down && count == count0 + down - y0
  {
    y, count, writes := y0, count0, writes0;
    while y < down
      invariant y0 <= y <= down && count == count0 + (y - y0)
      invariant Progress(a[..], before, n, count, writes)
    {
      writes := Put(a, n, k, 1, y, x0, count, writes, before);
      count := count + 1;
      y := y + 1;
    }
  }

  // Side 2: row n - 1 - k, towards smaller columns.
  method GoLeft(a: array<int>, n: nat, ghost k: int, x0: int, y0: int, left: int, count0: int,
                 ghost writes0: seq<int>, ghost before: seq<int>)
    returns (x: int, count: int, ghost writes: seq<int>)
    requires Progress(a[..], before, n, count0, writes0)
    requires 0 <= k && left == k - 1 && left <= x0 == n - k - 2 && k < y0 == n - 1 - k
    requires count0 == Base(n, k) + 2 * (n - 2 * k) - 1
    modifies a
    ensures Progress(a[..], before, n, count, writes)
    ensures x == left && count == count0 + x0 - left
  {
    x, count, writes := x0, count0, writes0;
    while x > left
      invariant left <= x <= x0 && count == count0 + (x0 - x)
      invariant Progress(a[..], before, n, count, writes)
    {
      writes := Put(a, n, k, 2, y0, x, count, writes, before);
      count := count + 1;
      x := x - 1;
    }
  }

  // Side 3: column k, towards smaller rows.
  method GoUp(a: array<int>, n: nat, ghost k: int, x0: int, y0: int, up: int, count0: int,
                 ghost writes0: seq<int>, ghost before: seq<int>)
    returns (y: int, count: int, ghost writes: seq<int>)
    requires Progress(a[..], before, n, count0, writes0)
    requires 0 <= k == up == x0 && up <= y0 == n - k - 2 && count0 == Base(n, k) + 3 * (n - 2 * k) - 2
    modifies a
    ensures Progress(a[..], before, n, count, writes)
    ensures y == up && count == count0 + y0 - up
  {
    y, count, writes := y0, count0, writes0;
    while y > up
      invariant up <= y <= y0 && count == count0 + (y0 - y)
      invariant Progress(a[..], before, n, count, writes)
    {
      writes := Put(a, n, k, 3, y, x0, count, writes, before);
      count := count + 1;
      y := y - 1;
    }
  }

  // The walk of fill_spiral_matrix, on positions.
  method Walk(a: array<int>, n: nat) returns (ghost writes: seq<int>)
    requires n * n <= a.Length
    modifies a
    ensures Progress(a[..], old(a[..]), n, n * n, writes)
  {
    writes := [];
    var count := 0;
    var right, left, down, up, x, y := n as int, -1, n as int, 0, 0, 0;
    var state := 0;
    ghost var k := 0;
    NothingFilled(a[..], n);
    while count < n * n
      invariant AtCorner(n, k, state, x, y, right, left, down, up, count)
      invariant Progress(a[..], old(a[..]), n, count, writes)
      decreases n * n - count
    {
      SideNotEmpty(n, k, state, x, y, right, left, down, up, count);
      match state
      case 0 =>
        x, count, writes := GoRight(a, n, k, x, y, right, count, writes, old(a[..]));
        right := right - 1;
        x := x - 1;
        y := y + 1;
        state := 1;
      case 1 =>
        y, count, writes := GoDown(a, n, k, x, y, down, count, writes, old(a[..]));
        down := down - 1;
        y := y - 1;
        x := x - 1;
        state := 2;
      case 2 =>
        x, count, writes := GoLeft(a, n, k, x, y, left, count, writes, old(a[..]));
        left := left + 1;
        x := x + 1;
        y := y - 1;
        state := 3;
      case 3 =>
        y, count, writes := GoUp(a, n, k, x, y, up, count, writes, old(a[..]));
        up := up + 1;
        y := y + 1;
        x := x + 1;
        state := 0;
        k := k + 1;
    }
  }

  lemma CellFilled(s: seq<int>, n: nat, i: int, j: int)
    requires n * n <= |s| && Filled(s, n, n * n) && InSquare(n, i, j)
    ensures 0 <= i * n + j < |s| && s[i * n + j] == Value(n, i, j)
  {
    FilledCompletely(s, n);
    assert Idx(n, i, j) == i * n + j;
  }

  lemma CellTraced(n: nat, writes: seq<int>, count: int, v: int)
    requires Traced(n, writes, count) && 1 <= v <= count
    ensures writes[v - 1] == CellOf(n, v).0 * n + CellOf(n, v).1
  {
  }

  lemma RestKept(s: seq<int>, before: seq<int>, from: nat, k: nat)
    requires |s| == |before| && from <= k < |s| && s[from..] == before[from..]
    ensures s[k] == before[k]
  {
    assert s[from..][k - from] == before[from..][k - from];
  }

  /**
   * fill_spiral_matrix. Row i starts at position i * n. Besides the filled array, `writes` records the position of
   * every assignment in order: there are exactly n * n of them and the v-th one goes to the cell of v, so no cell is
   * written twice.
   */
  method FillSpiralMatrix(a: array<int>, n: nat) returns (ghost writes: seq<int>)
    requires n * n <= 0x7fff_ffff && n * n <= a.Length
    modifies a
    ensures forall i, j {:trigger Value(n, i, j)} :: 0 <= i < n && 0 <= j < n ==>
              0 <= i * n + j < a.Length && a[i * n + j] == Value(n, i, j)
    ensures forall k :: n * n <= k < a.Length ==> a[k] == old(a[k])
    ensures |writes| == n * n
    ensures forall v {:trigger CellOf(n, v)} :: 1 <= v <= n * n ==>
              writes[v - 1] == CellOf(n, v).0 * n + CellOf(n, v).1
  {
    writes := Walk(a, n);
    forall i, j | 0 <= i < n && 0 <= j < n
      ensures 0 <= i * n + j < a.Length && a[i * n + j] == Value(n, i, j)
    {
      CellFilled(a[..], n, i, j);
    }
    forall k | n * n <= k < a.Length ensures a[k] == old(a[k]) {
      RestKept(a[..], old(a[..]), n * n, k);
    }
    forall v | 1 <= v <= n * n ensures writes[v - 1] == CellOf(n, v).0 * n + CellOf(n, v).1 {
      CellTraced(n, writes, n * n, v);
    }
  }
}
