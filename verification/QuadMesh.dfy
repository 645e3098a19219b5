/**
 The structured quadrilateral mesh generator: three ways to cut grid cells into triangles, and the four boundary lists.
 */
module QuadMesh {
  /** A node by its grid coordinates. */
  datatype Point = Point(x: nat, y: nat)

  datatype Pattern = Simple | Zigzag | Checker

  datatype Element = Element(id: nat, kind: nat, nodes: seq<nat>)

  const NO_ELEMENT: Element := Element(0, 0, [])

  function NodeId(m: nat, p: Point): nat {
    p.x + (m + 1) * p.y
  }

  /** Whether cell (i, j) is cut from its lower left to its upper right corner. */
  predicate Rising(pattern: Pattern, i: nat, j: nat) {
    match pattern
    case Simple => true
    case Zigzag => j % 2 == 0
    case Checker => i % 2 == j % 2
  }

  /** Vertex k of the first or second triangle of a cell. */
  function Vertex(rising: bool, i: nat, j: nat, s: nat, k: nat): Point
    requires s < 2 && k < 3
  {
    if rising then
      if s == 0 then (if k == 0 then Point(i, j) else if k == 1 then Point(i + 1, j + 1) else Point(i, j + 1))
      else (if k == 0 then Point(i, j) else if k == 1 then Point(i + 1, j) else Point(i + 1, j + 1))
    else
      if s == 0 then (if k == 0 then Point(i, j) else if k == 1 then Point(i + 1, j) else Point(i, j + 1))
      else (if k == 0 then Point(i + 1, j) else if k == 1 then Point(i + 1, j + 1) else Point(i, j + 1))
  }

  /** The triangle that belongs in the slot of cell (i, j). */
  function ElementOf(m: nat, pattern: Pattern, i: nat, j: nat, s: nat): Element
    requires s < 2
  {
    var r := Rising(pattern, i, j);
    Element(2 * i + 2 * m * j + s, 3,
            [NodeId(m, Vertex(r, i, j, s, 0)), NodeId(m, Vertex(r, i, j, s, 1)), NodeId(m, Vertex(r, i, j, s, 2))])
  }

  // ----- slots -----

  function Slot(m: nat, i: nat, j: nat): nat {
    2 * i + 2 * m * j
  }

  lemma SlotBound(m: nat, n: nat, i: nat, j: nat)
    requires i < m && j < n
    ensures Slot(m, i, j) + 1 < 2 * m * n
  {
    assert m * (n - 1 - j) >= 0;
    assert 2 * m * n == 2 * (m * (n - 1 - j)) + 2 * m * j + 2 * m;
  }

  lemma SlotsApart(m: nat, i: nat, j: nat, i': nat, j': nat)
    requires i < m && i' < m && (i != i' || j != j')
    ensures Slot(m, i, j) + 1 < Slot(m, i', j') || Slot(m, i', j') + 1 < Slot(m, i, j)
  {
    if j < j' {
      SlotsOrdered(m, i, j, i', j');
    } else if j' < j {
      SlotsOrdered(m, i', j', i, j);
    }
  }

  lemma SlotsOrdered(m: nat, i: nat, j: nat, i': nat, j': nat)
    requires i < m && j < j'
    ensures Slot(m, i, j) + 1 < Slot(m, i', j')
  {
    var d := j' - j - 1;
    assert m * d >= 0;
    assert 2 * m * (j + 1 + d) == 2 * m * j + 2 * m + 2 * (m * d);
  }

  /** Both slots of a cell hold their triangles. */
  ghost predicate CellFilled(s: seq<Element>, m: nat, n: nat, pattern: Pattern, i: nat, j: nat)
    requires i < m && j < n && |s| == 2 * m * n
  {
    SlotBound(m, n, i, j);
    s[Slot(m, i, j)] == ElementOf(m, pattern, i, j, 0) && s[Slot(m, i, j) + 1] == ElementOf(m, pattern, i, j, 1)
  }

  /** Writes the two triangles of a cell that is cut upwards. */
  method FillRising(a: array<Element>, m: nat, n: nat, i: nat, j: nat)
    requires a.Length == 2 * m * n && i < m && j < n
    modifies a
    ensures forall pattern | Rising(pattern, i, j) :: CellFilled(a[..], m, n, pattern, i, j)
    ensures OthersKept(old(a[..]), a[..], Slot(m, i, j))
  {
    SlotBound(m, n, i, j);
    var e, c := 2 * i + 2 * m * j, i + (m + 1) * j;
    a[e] := Element(e, 3, [c, c + m + 2, c + m + 1]);
    a[e + 1] := Element(e + 1, 3, [c, c + 1, c + m + 2]);
    CornersOfCell(m, i, j);
  }

  /** Writes the two triangles of a cell that is cut downwards. */
  method FillFalling(a: array<Element>, m: nat, n: nat, i: nat, j: nat)
    requires a.Length == 2 * m * n && i < m && j < n
    modifies a
    ensures forall pattern | !Rising(pattern, i, j) :: CellFilled(a[..], m, n, pattern, i, j)
    ensures OthersKept(old(a[..]), a[..], Slot(m, i, j))
  {
    SlotBound(m, n, i, j);
    var e, c := 2 * i + 2 * m * j, i + (m + 1) * j;
    a[e] := Element(e, 3, [c, c + 1, c + m + 1]);
    a[e + 1] := Element(e + 1, 3, [c + 1, c + m + 2, c + m + 1]);
    CornersOfCell(m, i, j);
  }

  lemma CornersOfCell(m: nat, i: nat, j: nat)
    ensures NodeId(m, Point(i, j + 1)) == NodeId(m, Point(i, j)) + m + 1
    ensures NodeId(m, Point(i + 1, j)) == NodeId(m, Point(i, j)) + 1
    ensures NodeId(m, Point(i + 1, j + 1)) == NodeId(m, Point(i, j)) + m + 2
  {
    assert (m + 1) * (j + 1) == (m + 1) * j + m + 1;
  }

  ghost predicate OthersKept(before: seq<Element>, after: seq<Element>, e: nat) {
    |after| == |before| && forall k | 0 <= k < |before| && k != e && k != e + 1 :: after[k] == before[k]
  }

  /** The cells that `done` selects are filled. */
  ghost predicate FilledWhere(s: seq<Element>, m: nat, n: nat, pattern: Pattern, done: (nat, nat) -> bool)
    requires |s| == 2 * m * n
  {
    forall i: nat, j: nat | i < m && j < n && done(i, j) :: CellFilled(s, m, n, pattern, i, j)
  }

  /** Filling one cell leaves the other cells filled. */
  lemma FilledNext(before: seq<Element>, after: seq<Element>, m: nat, n: nat, pattern: Pattern, i: nat, j: nat,
                   done: (nat, nat) -> bool, done': (nat, nat) -> bool)
    requires |before| == 2 * m * n && OthersKept(before, after, Slot(m, i, j)) && i < m && j < n
    requires FilledWhere(before, m, n, pattern, done) && CellFilled(after, m, n, pattern, i, j)
    requires forall x: nat, y: nat | done'(x, y) && (x != i || y != j) :: done(x, y)
    ensures FilledWhere(after, m, n, pattern, done')
  {
    forall x: nat, y: nat | x < m && y < n && done'(x, y)
      ensures CellFilled(after, m, n, pattern, x, y)
    {
      if x != i || y != j {
        assert done(x, y);
        SlotBound(m, n, x, y);
        SlotsApart(m, i, j, x, y);
        assert CellFilled(before, m, n, pattern, x, y);
      }
    }
  }

  /** Row by row up to cell (i, j). */
  function RowsUpto(i: nat, j: nat): (nat, nat) -> bool {
    (x: nat, y: nat) => y < j || (y == j && x < i)
  }

  method SimplePattern(m: nat, n: nat, a: array<Element>)
    requires a.Length == 2 * m * n
    modifies a
    ensures FilledWhere(a[..], m, n, Simple, (x, y) => true)
  {
    for j := 0 to n
      invariant FilledWhere(a[..], m, n, Simple, RowsUpto(0, j))
    {
      for i := 0 to m
        invariant FilledWhere(a[..], m, n, Simple, RowsUpto(i, j))
      {
        ghost var before := a[..];
        FillRising(a, m, n, i, j);
        FilledNext(before, a[..], m, n, Simple, i, j, RowsUpto(i, j), RowsUpto(i + 1, j));
      }
    }
  }

  /** Rows of one parity up to cell (i, j), on top of what a first pass did. */
  function StripesUpto(first: bool, i: nat, j: nat): (nat, nat) -> bool {
    (x: nat, y: nat) => (first && y % 2 == 0) || (y % 2 == j % 2 && (y < j || (y == j && x < i)))
  }

  /** Fills every cell of row j. */
  method FillRow(m: nat, n: nat, a: array<Element>, pattern: Pattern, rising: bool, first: bool, j: nat)
    requires a.Length == 2 * m * n && j < n && forall i: nat | i < m :: Rising(pattern, i, j) == rising
    requires FilledWhere(a[..], m, n, pattern, StripesUpto(first, 0, j))
    modifies a
    ensures FilledWhere(a[..], m, n, pattern, StripesUpto(first, m, j))
  {
    for i := 0 to m
      invariant FilledWhere(a[..], m, n, pattern, StripesUpto(first, i, j))
    {
      ghost var before := a[..];
      if rising {
        FillRising(a, m, n, i, j);
      } else {
        FillFalling(a, m, n, i, j);
      }
      FilledNext(before, a[..], m, n, pattern, i, j, StripesUpto(first, i, j), StripesUpto(first, i + 1, j));
    }
  }

  lemma RowToNext(s: seq<Element>, m: nat, n: nat, pattern: Pattern, first: bool, j: nat)
    requires |s| == 2 * m * n && FilledWhere(s, m, n, pattern, StripesUpto(first, m, j))
    ensures FilledWhere(s, m, n, pattern, StripesUpto(first, 0, j + 2))
  {
    forall x: nat, y: nat | x < m && y < n && StripesUpto(first, 0, j + 2)(x, y)
      ensures CellFilled(s, m, n, pattern, x, y)
    {
      assert y % 2 == j % 2 && y < j + 2 ==> y <= j;
      assert StripesUpto(first, m, j)(x, y);
    }
  }

  method ZigzagPattern(m: nat, n: nat, a: array<Element>)
    requires a.Length == 2 * m * n
    modifies a
    ensures FilledWhere(a[..], m, n, Zigzag, (x, y) => true)
  {
    var j := 0;
    while j < n
      invariant j % 2 == 0 && FilledWhere(a[..], m, n, Zigzag, StripesUpto(false, 0, j))
    {
      FillRow(m, n, a, Zigzag, true, false, j);
      RowToNext(a[..], m, n, Zigzag, false, j);
      j := j + 2;
    }
    SecondPass(a[..], m, n, j);
    j := 1;
    while j < n
      invariant j % 2 == 1 && FilledWhere(a[..], m, n, Zigzag, StripesUpto(true, 0, j))
    {
      FillRow(m, n, a, Zigzag, false, true, j);
      RowToNext(a[..], m, n, Zigzag, true, j);
      j := j + 2;
    }
  }

  lemma SecondPass(s: seq<Element>, m: nat, n: nat, j: nat)
    requires |s| == 2 * m * n && j % 2 == 0 && j >= n && FilledWhere(s, m, n, Zigzag, StripesUpto(false, 0, j))
    ensures FilledWhere(s, m, n, Zigzag, StripesUpto(true, 0, 1))
  {
    forall x: nat, y: nat | x < m && y < n && StripesUpto(true, 0, 1)(x, y)
      ensures CellFilled(s, m, n, Zigzag, x, y)
    {
      assert StripesUpto(false, 0, j)(x, y);
    }
  }

  /** Cells of one colour up to cell (i, j), on top of the other colour if `first` is done. */
  function SquaresUpto(first: bool, i: nat, j: nat): (nat, nat) -> bool {
    (x: nat, y: nat) => (first && x % 2 == y % 2) || (((x % 2 == y % 2) == !first) && (y < j || (y == j && x < i)))
  }

  ghost predicate SquaresFilled(s: seq<Element>, m: nat, n: nat, first: bool, i: nat, j: nat) {
    |s| == 2 * m * n && FilledWhere(s, m, n, Checker, SquaresUpto(first, i, j))
  }

  /** Fills every second cell of row j: those cut upwards, or the others. */
  method FillSquares(m: nat, n: nat, a: array<Element>, first: bool, j: nat)
    requires j < n && SquaresFilled(a[..], m, n, first, 0, j)
    modifies a
    ensures SquaresFilled(a[..], m, n, first, 0, j + 1)
  {
    var i := if first then (j + 1) % 2 else j % 2;
    SquaresFromStart(a[..], m, n, first, i, j);
    while i < m
      invariant (i % 2 == j % 2) == !first && SquaresFilled(a[..], m, n, first, i, j)
    {
      FillSquare(m, n, a, first, i, j);
      i := i + 2;
    }
    SquaresToNext(a[..], m, n, first, i, j);
  }

  method FillSquare(m: nat, n: nat, a: array<Element>, first: bool, i: nat, j: nat)
    requires i < m && j < n && (i % 2 == j % 2) == !first && SquaresFilled(a[..], m, n, first, i, j)
    modifies a
    ensures SquaresFilled(a[..], m, n, first, i + 2, j)
  {
    ghost var before := a[..];
    if first {
      FillFalling(a, m, n, i, j);
    } else {
      FillRising(a, m, n, i, j);
    }
    SquareFilled(before, a[..], m, n, first, i, j);
  }

  lemma SquareFilled(before: seq<Element>, after: seq<Element>, m: nat, n: nat, first: bool, i: nat, j: nat)
    requires SquaresFilled(before, m, n, first, i, j) && OthersKept(before, after, Slot(m, i, j)) && i < m && j < n
    requires (i % 2 == j % 2) == !first && CellFilled(after, m, n, Checker, i, j)
    ensures SquaresFilled(after, m, n, first, i + 2, j)
  {
    SquareStep(first, i, j);
    FilledNext(before, after, m, n, Checker, i, j, SquaresUpto(first, i, j), SquaresUpto(first, i + 2, j));
  }

  lemma SquaresFromStart(s: seq<Element>, m: nat, n: nat, first: bool, i: nat, j: nat)
    requires SquaresFilled(s, m, n, first, 0, j) && i == if first then (j + 1) % 2 else j % 2
    ensures SquaresFilled(s, m, n, first, i, j)
  {
    forall x: nat, y: nat | x < m && y < n && SquaresUpto(first, i, j)(x, y)
      ensures CellFilled(s, m, n, Checker, x, y)
    {
      assert SquaresUpto(first, 0, j)(x, y);
    }
  }

  lemma SquaresToNext(s: seq<Element>, m: nat, n: nat, first: bool, i: nat, j: nat)
    requires i >= m && SquaresFilled(s, m, n, first, i, j)
    ensures SquaresFilled(s, m, n, first, 0, j + 1)
  {
    forall x: nat, y: nat | x < m && y < n && SquaresUpto(first, 0, j + 1)(x, y)
      ensures CellFilled(s, m, n, Checker, x, y)
    {
      assert SquaresUpto(first, i, j)(x, y);
    }
  }

  lemma SquareStep(first: bool, i: nat, j: nat)
    requires (i % 2 == j % 2) == !first
    ensures forall x: nat, y: nat | SquaresUpto(first, i + 2, j)(x, y) && (x != i || y != j) ::
              SquaresUpto(first, i, j)(x, y)
  {
    forall x: nat, y: nat | SquaresUpto(first, i + 2, j)(x, y) && (x != i || y != j)
      ensures SquaresUpto(first, i, j)(x, y)
    {
      if y == j && (x % 2 == y % 2) == !first {
        assert x % 2 == i % 2 && x < i + 2 ==> x <= i;
      }
    }
  }

  method CheckerPattern(m: nat, n: nat, a: array<Element>)
    requires a.Length == 2 * m * n
    modifies a
    ensures FilledWhere(a[..], m, n, Checker, (x, y) => true)
  {
    for j := 0 to n
      invariant SquaresFilled(a[..], m, n, false, 0, j)
    {
      FillSquares(m, n, a, false, j);
    }
    SecondColour(a[..], m, n);
    for j := 0 to n
      invariant SquaresFilled(a[..], m, n, true, 0, j)
    {
      FillSquares(m, n, a, true, j);
    }
  }

  lemma SecondColour(s: seq<Element>, m: nat, n: nat)
    requires SquaresFilled(s, m, n, false, 0, n)
    ensures SquaresFilled(s, m, n, true, 0, 0)
  {
    forall x: nat, y: nat | x < m && y < n && SquaresUpto(true, 0, 0)(x, y)
      ensures CellFilled(s, m, n, Checker, x, y)
    {
      assert SquaresUpto(false, 0, n)(x, y);
    }
  }

  /** The cell of a slot. */
  lemma CellOf(m: nat, n: nat, e: nat) returns (i: nat, j: nat)
    requires e < 2 * m * n
    ensures i < m && j < n && e == Slot(m, i, j) + e % 2
  {
    var h := e / 2;
    assert m > 0;
    j, i := h / m, h % m;
    assert h == m * j + i;
    RowInRange(m, n, i, j);
    assert 2 * m * j == 2 * (m * j);
  }

  lemma RowInRange(m: nat, n: nat, i: nat, j: nat)
    requires m * j + i < m * n
    ensures j < n
  {
    assert m * (n - j) == m * n - m * j;
    SignOfProduct(m, n - j);
  }

  lemma SignOfProduct(m: nat, d: int)
    ensures d <= 0 ==> m * d <= 0
  {
    if d <= 0 {
      assert m * -d >= 0;
    }
  }

  /** Every slot of the table belongs to a cell, so no slot is left as it was allocated. */
  lemma EverySlotFilled(s: seq<Element>, m: nat, n: nat, pattern: Pattern, e: nat) returns (i: nat, j: nat)
    requires |s| == 2 * m * n && FilledWhere(s, m, n, pattern, (x, y) => true) && e < |s|
    ensures i < m && j < n && s[e] == ElementOf(m, pattern, i, j, e % 2) && s[e].id == e
  {
    i, j := CellOf(m, n, e);
    assert CellFilled(s, m, n, pattern, i, j);
  }

  method MakeElements(m: nat, n: nat, pattern: Pattern) returns (a: array<Element>)
    ensures fresh(a) && a.Length == 2 * m * n && FilledWhere(a[..], m, n, pattern, (x, y) => true)
  {
    a := new Element[2 * m * n](_ => NO_ELEMENT);
    match pattern {
      case Simple => SimplePattern(m, n, a);
      case Zigzag => ZigzagPattern(m, n, a);
      case Checker => CheckerPattern(m, n, a);
    }
  }

  // ----- geometry -----

  /** Nodes are told apart by their ids. */
  lemma NodeIdsDiffer(m: nat, p: Point, q: Point)
    requires p.x <= m && q.x <= m && NodeId(m, p) == NodeId(m, q)
    ensures p == q
  {
    if p.y > q.y {
      HigherRow(m, q, p);
    } else if p.y < q.y {
      HigherRow(m, p, q);
    }
  }

  lemma HigherRow(m: nat, p: Point, q: Point)
    requires p.x <= m && p.y < q.y
    ensures NodeId(m, p) < NodeId(m, q)
  {
    var d := q.y - p.y - 1;
    assert (m + 1) * d >= 0;
    assert (m + 1) * (p.y + 1 + d) == (m + 1) * p.y + (m + 1) + (m + 1) * d;
  }

  /** Twice the signed area of a triangle. */
  function Orientation(p: Point, q: Point, r: Point): int {
    (q.x - p.x) * (r.y - p.y) - (r.x - p.x) * (q.y - p.y)
  }

  /** Every triangle runs counter-clockwise and covers half a cell. */
  lemma CounterClockwise(pattern: Pattern, i: nat, j: nat, s: nat)
    requires s < 2
    ensures var r := Rising(pattern, i, j);
            Orientation(Vertex(r, i, j, s, 0), Vertex(r, i, j, s, 1), Vertex(r, i, j, s, 2)) == 1
  {
  }

  // ----- edges -----

  /** Side k of triangle s of cell (i, j). */
  datatype Corner = Corner(i: nat, j: nat, s: nat, k: nat)

  /** The triangle of this corner runs along its side from p to q. */
  predicate Runs(m: nat, n: nat, pattern: Pattern, c: Corner, p: Point, q: Point) {
    && c.i < m && c.j < n && c.s < 2 && c.k < 3
    && Vertex(Rising(pattern, c.i, c.j), c.i, c.j, c.s, c.k) == p
    && Vertex(Rising(pattern, c.i, c.j), c.i, c.j, c.s, (c.k + 1) % 3) == q
  }

  /** No two triangles run along an edge in the same direction. */
  lemma RunsOnce(m: nat, n: nat, pattern: Pattern, c: Corner, c': Corner, p: Point, q: Point)
    requires Runs(m, n, pattern, c, p, q) && Runs(m, n, pattern, c', p, q)
    ensures c == c'
  {
  }

  /** The edge from p to q lies on the rim of the grid, with the grid on its left. */
  predicate OnRim(m: nat, n: nat, p: Point, q: Point) {
    || (p.y == q.y == 0 && q.x == p.x + 1 && q.x <= m)
    || (p.x == q.x == m && q.y == p.y + 1 && q.y <= n)
    || (p.y == q.y == n && p.x == q.x + 1 && p.x <= m)
    || (p.x == q.x == 0 && p.y == q.y + 1 && p.y <= n)
  }

  /** An edge that a triangle runs along is run along the other way by another, unless it lies on the rim. */
  lemma RunsBack(m: nat, n: nat, pattern: Pattern, c: Corner, p: Point, q: Point) returns (back: Corner)
    requires Runs(m, n, pattern, c, p, q) && !OnRim(m, n, p, q)
    ensures Runs(m, n, pattern, back, q, p)
  {
    if p.y == q.y && q.x == p.x + 1 {
      back := Corner(p.x, p.y - 1, if Rising(pattern, p.x, p.y - 1) then 0 else 1, 1);
    } else if p.y == q.y {
      back := Corner(q.x, q.y, if Rising(pattern, q.x, q.y) then 1 else 0, 0);
    } else if p.x == q.x && q.y == p.y + 1 {
      back := Corner(p.x, p.y, 0, 2);
    } else if p.x == q.x {
      back := Corner(q.x - 1, q.y, 1, if Rising(pattern, q.x - 1, q.y) then 1 else 0);
    } else if Rising(pattern, c.i, c.j) {
      back := if c.s == 0 then Corner(c.i, c.j, 1, 2) else Corner(c.i, c.j, 0, 0);
    } else {
      back := if c.s == 0 then Corner(c.i, c.j, 1, 2) else Corner(c.i, c.j, 0, 1);
    }
  }

  /** Along the rim one triangle runs with the grid on its left, and none the other way. */
  lemma RimRuns(m: nat, n: nat, pattern: Pattern, p: Point, q: Point) returns (c: Corner)
    requires m > 0 && n > 0 && OnRim(m, n, p, q)
    ensures Runs(m, n, pattern, c, p, q)
    ensures forall c' :: !Runs(m, n, pattern, c', q, p)
  {
    if p.y == q.y == 0 && q.x == p.x + 1 {
      c := Corner(p.x, 0, if Rising(pattern, p.x, 0) then 1 else 0, 0);
    } else if p.x == q.x == m && q.y == p.y + 1 {
      c := Corner(m - 1, p.y, 1, if Rising(pattern, m - 1, p.y) then 1 else 0);
    } else if p.y == q.y == n && p.x == q.x + 1 {
      c := Corner(q.x, n - 1, if Rising(pattern, q.x, n - 1) then 0 else 1, 1);
    } else {
      c := Corner(0, q.y, 0, 2);
    }
  }

  // ----- boundary lists -----

  method MakeBoundaries(m: nat, n: nat) returns (lists: seq<seq<nat>>)
    ensures lists == [Bottom(m), Right(m, n), Top(m, n), Left(m, n)]
  {
    var b0, b2 := MakeHorizontal(m, n);
    var b1, b3 := MakeVertical(m, n);
    lists := [b0, b1, b2, b3];
  }

  method MakeHorizontal(m: nat, n: nat) returns (bottom: seq<nat>, top: seq<nat>)
    ensures bottom == Bottom(m) && top == Top(m, n)
  {
    var b0, b2 := new nat[m + 1], new nat[m + 1];
    for i := 0 to m + 1
      invariant forall k | 0 <= k < i :: b0[k] == NodeId(m, Point(k, 0)) && b2[k] == NodeId(m, Point(k, n))
    {
      b0[i], b2[i] := i, i + (m + 1) * n;
    }
    bottom, top := b0[..], b2[..];
  }

  method MakeVertical(m: nat, n: nat) returns (right: seq<nat>, left: seq<nat>)
    ensures right == Right(m, n) && left == Left(m, n)
  {
    var b1, b3 := new nat[n + 1], new nat[n + 1];
    for i := 0 to n + 1
      invariant forall k | 0 <= k < i :: b1[k] == NodeId(m, Point(m, k)) && b3[k] == NodeId(m, Point(0, k))
    {
      Commute(i, m);
      b1[i], b3[i] := m + i * (m + 1), i * (m + 1);
    }
    right, left := b1[..], b3[..];
  }

  lemma Commute(i: nat, m: nat)
    ensures i * (m + 1) == NodeId(m, Point(0, i)) && m + i * (m + 1) == NodeId(m, Point(m, i))
  {
  }

  function Bottom(m: nat): (s: seq<nat>)
    ensures |s| == m + 1
  {
    seq(m + 1, i requires 0 <= i <= m => NodeId(m, Point(i, 0)))
  }

  function Right(m: nat, n: nat): (s: seq<nat>)
    ensures |s| == n + 1
  {
    seq(n + 1, j requires 0 <= j <= n => NodeId(m, Point(m, j)))
  }

  function Top(m: nat, n: nat): (s: seq<nat>)
    ensures |s| == m + 1
  {
    seq(m + 1, i requires 0 <= i <= m => NodeId(m, Point(i, n)))
  }

  function Left(m: nat, n: nat): (s: seq<nat>)
    ensures |s| == n + 1
  {
    seq(n + 1, j requires 0 <= j <= n => NodeId(m, Point(0, j)))
  }

  /** Two nodes stand next to each other in a list. */
  ghost predicate Consecutive(s: seq<nat>, a: nat, b: nat) {
    exists i :: NextTo(s, i, a, b)
  }

  predicate NextTo(s: seq<nat>, i: int, a: nat, b: nat) {
    0 <= i < |s| - 1 && ((s[i] == a && s[i + 1] == b) || (s[i] == b && s[i + 1] == a))
  }

  predicate InGrid(m: nat, n: nat, p: Point) {
    p.x <= m && p.y <= n
  }

  /** Row y of the grid as a list. */
  lemma ConsecutiveInRow(m: nat, n: nat, y: nat, s: seq<nat>, p: Point, q: Point)
    requires InGrid(m, n, p) && InGrid(m, n, q) && |s| == m + 1
    requires forall i: nat | i <= m :: s[i] == NodeId(m, Point(i, y))
    ensures Consecutive(s, NodeId(m, p), NodeId(m, q)) <==> p.y == q.y == y && (q.x == p.x + 1 || p.x == q.x + 1)
  {
    if i :| NextTo(s, i, NodeId(m, p), NodeId(m, q)) {
      var u, v := Point(i, y), Point(i + 1, y);
      if s[i] == NodeId(m, p) && s[i + 1] == NodeId(m, q) {
        NodeIdsDiffer(m, u, p);
        NodeIdsDiffer(m, v, q);
      } else {
        NodeIdsDiffer(m, u, q);
        NodeIdsDiffer(m, v, p);
      }
    }
    if p.y == q.y == y && (q.x == p.x + 1 || p.x == q.x + 1) {
      assert NextTo(s, if q.x == p.x + 1 then p.x else q.x, NodeId(m, p), NodeId(m, q));
    }
  }

  /** Column x of the grid as a list. */
  lemma ConsecutiveInColumn(m: nat, n: nat, x: nat, s: seq<nat>, p: Point, q: Point)
    requires InGrid(m, n, p) && InGrid(m, n, q) && x <= m && |s| == n + 1
    requires forall j: nat | j <= n :: s[j] == NodeId(m, Point(x, j))
    ensures Consecutive(s, NodeId(m, p), NodeId(m, q)) <==> p.x == q.x == x && (q.y == p.y + 1 || p.y == q.y + 1)
  {
    if j :| NextTo(s, j, NodeId(m, p), NodeId(m, q)) {
      var u, v := Point(x, j), Point(x, j + 1);
      if s[j] == NodeId(m, p) && s[j + 1] == NodeId(m, q) {
        NodeIdsDiffer(m, u, p);
        NodeIdsDiffer(m, v, q);
      } else {
        NodeIdsDiffer(m, u, q);
        NodeIdsDiffer(m, v, p);
      }
    }
    if p.x == q.x == x && (q.y == p.y + 1 || p.y == q.y + 1) {
      assert NextTo(s, if q.y == p.y + 1 then p.y else q.y, NodeId(m, p), NodeId(m, q));
    }
  }

  ghost predicate OnBoundaryList(m: nat, n: nat, a: nat, b: nat) {
    Consecutive(Bottom(m), a, b) || Consecutive(Right(m, n), a, b) || Consecutive(Top(m, n), a, b)
        || Consecutive(Left(m, n), a, b)
  }

  /** The consecutive pairs of the four lists are exactly the edges that only one triangle has. */
  lemma BoundaryListsExact(m: nat, n: nat, pattern: Pattern, p: Point, q: Point)
    requires m > 0 && n > 0 && InGrid(m, n, p) && InGrid(m, n, q)
    ensures OnBoundaryList(m, n, NodeId(m, p), NodeId(m, q))
            <==> HasRunner(m, n, pattern, p, q) != HasRunner(m, n, pattern, q, p)
  {
    ConsecutiveInRow(m, n, 0, Bottom(m), p, q);
    ConsecutiveInRow(m, n, n, Top(m, n), p, q);
    ConsecutiveInColumn(m, n, 0, Left(m, n), p, q);
    ConsecutiveInColumn(m, n, m, Right(m, n), p, q);
    assert OnBoundaryList(m, n, NodeId(m, p), NodeId(m, q)) <==> OnRim(m, n, p, q) || OnRim(m, n, q, p);
    RunnersOfEdge(m, n, pattern, p, q);
    RunnersOfEdge(m, n, pattern, q, p);
  }

  ghost predicate HasRunner(m: nat, n: nat, pattern: Pattern, p: Point, q: Point) {
    exists c :: Runs(m, n, pattern, c, p, q)
  }

  lemma RunnersOfEdge(m: nat, n: nat, pattern: Pattern, p: Point, q: Point)
    requires m > 0 && n > 0
    ensures HasRunner(m, n, pattern, p, q) && !HasRunner(m, n, pattern, q, p) <==> OnRim(m, n, p, q)
  {
    if OnRim(m, n, p, q) {
      var c := RimRuns(m, n, pattern, p, q);
    } else if c :| Runs(m, n, pattern, c, p, q) {
      var back := RunsBack(m, n, pattern, c, p, q);
    }
  }
}
