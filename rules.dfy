/**
 * Board values of the five-in-a-row (Gobang) engine: the 15 x 15 grid of
 * stone codes, how many stones it holds, the one-direction runs the win
 * check scans, the cells it highlights, and the reference definition of
 * "five in a row through a cell" that the scan is proved against.
 */
module GobangRules {

  datatype Option<T> = None | Some(value: T)

  /** Board size and stone codes, as the engine declares them. */
  const ROWS: int := 15
  const COLS: int := 15
  const CHESS_TOTAL: int := ROWS * COLS
  const EMPTY: int := 0
  const BLACK: int := 1
  const WHITE: int := 2

  /** A cell as (first array index, second array index). */
  type Pos = (int, int)

  /** The stone codes, row by row: grid[x][y] is the stone at (x, y). */
  type Grid = seq<seq<int>>

  predicate InBoard(p: Pos) {
    0 <= p.0 < ROWS && 0 <= p.1 < COLS
  }

  predicate WellFormed(g: Grid) {
    |g| == ROWS && forall i :: 0 <= i < |g| ==> |g[i]| == COLS
  }

  /** Every cell of the board holds a stone. */
  predicate Full(g: Grid)
    requires WellFormed(g)
  {
    forall i, j :: 0 <= i < ROWS && 0 <= j < COLS ==> g[i][j] != EMPTY
  }

  function EmptyGrid(): (g: Grid)
    ensures WellFormed(g)
    ensures forall i, j :: 0 <= i < ROWS && 0 <= j < COLS ==> g[i][j] == EMPTY
  {
    seq(ROWS, i => seq(COLS, j => EMPTY))
  }

  /** The grid with stone t written at p and every other cell as it was. */
  function Place(g: Grid, p: Pos, t: int): Grid
    requires WellFormed(g) && InBoard(p)
  {
    g[p.0 := g[p.0][p.1 := t]]
  }

  /** The placed cell holds t and every other cell is as it was. */
  lemma PlaceCells(g: Grid, p: Pos, t: int)
    requires WellFormed(g) && InBoard(p)
    ensures WellFormed(Place(g, p, t))
    ensures Place(g, p, t)[p.0][p.1] == t
    ensures forall i, j :: 0 <= i < ROWS && 0 <= j < COLS && (i, j) != p ==> Place(g, p, t)[i][j] == g[i][j]
  {
  }

  /** Cells holding a stone are left as they are (no stone is ever removed or replaced). */
  predicate Extends(g0: Grid, g1: Grid)
    requires WellFormed(g0) && WellFormed(g1)
  {
    forall i, j :: 0 <= i < ROWS && 0 <= j < COLS && g0[i][j] != EMPTY ==> g1[i][j] == g0[i][j]
  }

  /** p is on the board and holds stone t. */
  predicate Matches(g: Grid, p: Pos, t: int) {
    InBoard(p) && p.0 < |g| && p.1 < |g[p.0]| && g[p.0][p.1] == t
  }

  // ---------------------------------------------------------------------
  // Directions and axes

  /** A scan direction; each component is read only for its sign. */
  datatype Dir = Dir(dx: int, dy: int)

  predicate NonZero(d: Dir) {
    d.dx != 0 || d.dy != 0
  }

  function Reverse(d: Dir): Dir {
    Dir(-d.dx, -d.dy)
  }

  /** v moved i steps along the sign of s. */
  function Shift(v: int, s: int, i: int): int {
    if s < 0 then v - i else if s > 0 then v + i else v
  }

  /** The cell i steps from o in direction d. */
  function At(o: Pos, d: Dir, i: int): Pos {
    (Shift(o.0, d.dx, i), Shift(o.1, d.dy, i))
  }

  /** The four axes, in the order the win check scans them. */
  datatype Axis = Horizontal | Vertical | LeftDiagonal | RightDiagonal

  function Rank(a: Axis): nat {
    match a
    case Horizontal => 0
    case Vertical => 1
    case LeftDiagonal => 2
    case RightDiagonal => 3
  }

  /** The direction an axis is scanned first. */
  function Backward(a: Axis): (d: Dir)
    ensures NonZero(d)
  {
    match a
    case Horizontal => Dir(-1, 0)
    case Vertical => Dir(0, -1)
    case LeftDiagonal => Dir(-1, -1)
    case RightDiagonal => Dir(1, -1)
  }

  /** The direction an axis is scanned second. */
  function Forward(a: Axis): (d: Dir)
    ensures NonZero(d)
  {
    Reverse(Backward(a))
  }

  lemma ShiftBack(o: Pos, d: Dir, s: int, j: int)
    ensures At(At(o, d, s), Reverse(d), j) == At(o, Reverse(d), j - s)
    ensures At(o, Reverse(d), j - s) == At(o, d, s - j)
    ensures At(o, d, 0) == o
  {
  }

  /** Steps 1..m from o in direction d all hold stone t. */
  predicate AllMatch(g: Grid, o: Pos, d: Dir, t: int, m: int) {
    forall i :: 1 <= i <= m ==> Matches(g, At(o, d, i), t)
  }

  // ---------------------------------------------------------------------
  // Runs and rays

  /**
   * How many consecutive cells from step 1 on, at most n, hold stone t in
   * direction d: the count one scan loop adds to k.
   */
  function Run(g: Grid, o: Pos, d: Dir, t: int, n: nat): (r: nat)
    ensures r <= n
  {
    if n == 0 then 0
    else
      var r := Run(g, o, d, t, n - 1);
      if r == n - 1 && Matches(g, At(o, d, n), t) then n else r
  }

  /**
   * The run never exceeds n, every cell it covers holds t, and when it stops
   * short of n the next cell does not.
   */
  lemma {:induction false} RunSpec(g: Grid, o: Pos, d: Dir, t: int, n: nat)
    ensures AllMatch(g, o, d, t, Run(g, o, d, t, n))
    ensures Run(g, o, d, t, n) < n ==> !Matches(g, At(o, d, Run(g, o, d, t, n) + 1), t)
  {
    if n > 0 {
      RunSpec(g, o, d, t, n - 1);
    }
  }

  /** A run is at least as long as any matching prefix it can reach. */
  lemma RunAtLeast(g: Grid, o: Pos, d: Dir, t: int, n: nat, m: nat)
    requires m <= n && AllMatch(g, o, d, t, m)
    ensures Run(g, o, d, t, n) >= m
  {
    RunSpec(g, o, d, t, n);
    var r := Run(g, o, d, t, n);
    assert r < m ==> Matches(g, At(o, d, r + 1), t);
  }

  /** A matching prefix followed by a mismatch is exactly the run. */
  lemma RunStops(g: Grid, o: Pos, d: Dir, t: int, n: nat, m: nat)
    requires m < n && AllMatch(g, o, d, t, m) && !Matches(g, At(o, d, m + 1), t)
    ensures Run(g, o, d, t, n) == m
  {
    RunAtLeast(g, o, d, t, n, m);
    RunSpec(g, o, d, t, n);
    var r := Run(g, o, d, t, n);
    assert r > m ==> Matches(g, At(o, d, m + 1), t);
  }

  /** The cells at steps 1..m from o in direction d. */
  function Ray(o: Pos, d: Dir, m: nat): set<Pos> {
    if m == 0 then {} else Ray(o, d, m - 1) + {At(o, d, m)}
  }

  /** A ray holds exactly the cells at steps 1..m. */
  lemma {:induction false} RayCells(o: Pos, d: Dir, m: nat)
    ensures forall i :: 1 <= i <= m ==> At(o, d, i) in Ray(o, d, m)
    ensures forall c :: c in Ray(o, d, m) ==> exists i :: 1 <= i <= m && c == At(o, d, i)
  {
    if m > 0 {
      RayCells(o, d, m - 1);
    }
  }

  /** Distinct steps in a non-zero direction reach distinct cells. */
  lemma AtInjective(o: Pos, d: Dir, i: int, j: int)
    requires NonZero(d) && At(o, d, i) == At(o, d, j)
    ensures i == j
  {
  }

  lemma {:induction false} RaySize(o: Pos, d: Dir, m: nat)
    requires NonZero(d)
    ensures |Ray(o, d, m)| == m
  {
    if m > 0 {
      RaySize(o, d, m - 1);
      RayCells(o, d, m - 1);
      if At(o, d, m) in Ray(o, d, m - 1) {
        var i :| 1 <= i <= m - 1 && At(o, d, m) == At(o, d, i);
        AtInjective(o, d, m, i);
      }
    }
  }

  /** A shorter ray is part of a longer one. */
  lemma {:induction false} RayGrows(o: Pos, d: Dir, m: nat, n: nat)
    requires m <= n
    ensures Ray(o, d, m) <= Ray(o, d, n)
  {
    if m < n {
      RayGrows(o, d, m, n - 1);
    }
  }

  /** Every cell of a matching ray holds the stone. */
  lemma {:induction false} RayMatches(g: Grid, o: Pos, d: Dir, t: int, m: nat)
    requires AllMatch(g, o, d, t, m)
    ensures forall c :: c in Ray(o, d, m) ==> Matches(g, c, t)
  {
    if m > 0 {
      RayMatches(g, o, d, t, m - 1);
    }
  }

  /** The two halves of an axis share no cell and do not contain the origin. */
  lemma RaysApart(o: Pos, d: Dir, m1: nat, m2: nat)
    requires NonZero(d)
    ensures Ray(o, d, m1) !! Ray(o, Reverse(d), m2)
    ensures o !in Ray(o, d, m1) && o !in Ray(o, Reverse(d), m2)
  {
    RayCells(o, d, m1);
    RayCells(o, Reverse(d), m2);
    forall c | c in Ray(o, d, m1) ensures c !in Ray(o, Reverse(d), m2) && c != o {
      var i :| 1 <= i <= m1 && c == At(o, d, i);
      if c in Ray(o, Reverse(d), m2) {
        var j :| 1 <= j <= m2 && c == At(o, Reverse(d), j);
        ShiftBack(o, d, 0, j);
        AtInjective(o, d, i, -j);
      }
      ShiftBack(o, d, 0, 0);
      if c == o {
        AtInjective(o, d, i, 0);
      }
    }
    forall c | c in Ray(o, Reverse(d), m2) ensures c != o {
      var j :| 1 <= j <= m2 && c == At(o, Reverse(d), j);
      ShiftBack(o, d, 0, j);
      ShiftBack(o, d, 0, 0);
      if c == o {
        AtInjective(o, d, -j, 0);
      }
    }
  }

  // ---------------------------------------------------------------------
  // One axis of the win check

  function Min(a: nat, b: nat): nat {
    if a <= b then a else b
  }

  /**
   * The origin plus the first scan plus the second scan reach five: the
   * second scan's count added to the first's reaches four.
   */
  predicate AxisWins(g: Grid, o: Pos, a: Axis, t: int) {
    Run(g, o, Backward(a), t, 4) + Run(g, o, Forward(a), t, 4) >= 4
  }

  /**
   * The highlight set one axis leaves: every cell the first scan matched,
   * then the cells the second scan matched before k reached five.
   */
  function AxisCells(g: Grid, o: Pos, a: Axis, t: int): set<Pos> {
    var p := Run(g, o, Backward(a), t, 4);
    Ray(o, Backward(a), p) + Ray(o, Forward(a), Min(Run(g, o, Forward(a), t, 4), 4 - p))
  }

  /**
   * One axis decided by its two scans: a first run of four wins at once and
   * highlights that run; otherwise the second scan, counting on from 1 + p,
   * decides the win by reaching five and adds the cells it passed.
   */
  lemma AxisFromScans(g: Grid, o: Pos, a: Axis, t: int, k1: int, h1: set<Pos>, k2: int, h2: set<Pos>)
    requires k1 == Min(1 + Run(g, o, Backward(a), t, 4), 5) && h1 == {} + Ray(o, Backward(a), k1 - 1)
    requires k1 < 5 ==>
      k2 == Min(k1 + Run(g, o, Forward(a), t, 4), 5) && h2 == h1 + Ray(o, Forward(a), k2 - k1)
    ensures k1 == 5 ==> AxisWins(g, o, a, t) && h1 == AxisCells(g, o, a, t)
    ensures k1 < 5 ==> (AxisWins(g, o, a, t) <==> k2 == 5) && h2 == AxisCells(g, o, a, t)
  {
    var p := Run(g, o, Backward(a), t, 4);
    if k1 == 5 {
      AxisAfterFirstScan(g, o, a, t);
      assert h1 == Ray(o, Backward(a), 4);
    } else {
      AxisAfterSecondScan(g, o, a, t, k2);
      assert h2 == Ray(o, Backward(a), p) + Ray(o, Forward(a), k2 - (1 + p));
    }
  }

  /** A first run of four wins on its own and highlights just that run. */
  lemma AxisAfterFirstScan(g: Grid, o: Pos, a: Axis, t: int)
    requires Run(g, o, Backward(a), t, 4) == 4
    ensures AxisWins(g, o, a, t) && AxisCells(g, o, a, t) == Ray(o, Backward(a), 4)
  {
    assert Ray(o, Forward(a), 0) == {};
  }

  /** After a shorter first run the second scan's count k decides the axis. */
  lemma AxisAfterSecondScan(g: Grid, o: Pos, a: Axis, t: int, k: int)
    requires Run(g, o, Backward(a), t, 4) < 4
    requires k == Min(1 + Run(g, o, Backward(a), t, 4) + Run(g, o, Forward(a), t, 4), 5)
    ensures AxisWins(g, o, a, t) <==> k == 5
    ensures AxisCells(g, o, a, t) ==
      Ray(o, Backward(a), Run(g, o, Backward(a), t, 4)) + Ray(o, Forward(a), k - (1 + Run(g, o, Backward(a), t, 4)))
  {
    var p, q := Run(g, o, Backward(a), t, 4), Run(g, o, Forward(a), t, 4);
    assert k - (1 + p) == Min(q, 4 - p);
  }

  /** The first axis, in scan order, that wins; None when no axis does. */
  function FirstWin(g: Grid, o: Pos, t: int): Option<Axis> {
    if AxisWins(g, o, Horizontal, t) then Some(Horizontal)
    else if AxisWins(g, o, Vertical, t) then Some(Vertical)
    else if AxisWins(g, o, LeftDiagonal, t) then Some(LeftDiagonal)
    else if AxisWins(g, o, RightDiagonal, t) then Some(RightDiagonal)
    else None
  }

  /** The axis found wins, and when none is found no axis wins. */
  lemma FirstWinSound(g: Grid, o: Pos, t: int)
    ensures FirstWin(g, o, t).Some? ==> AxisWins(g, o, FirstWin(g, o, t).value, t)
    ensures FirstWin(g, o, t).None? ==> forall a :: !AxisWins(g, o, a, t)
  {
    var h, v, l, r := AxisWins(g, o, Horizontal, t), AxisWins(g, o, Vertical, t),
      AxisWins(g, o, LeftDiagonal, t), AxisWins(g, o, RightDiagonal, t);
    assert FirstWin(g, o, t) ==
      if h then Some(Horizontal) else if v then Some(Vertical)
      else if l then Some(LeftDiagonal) else if r then Some(RightDiagonal) else None;
    forall a | FirstWin(g, o, t).None? ensures !AxisWins(g, o, a, t) {
      match a
      case Horizontal =>
      case Vertical =>
      case LeftDiagonal =>
      case RightDiagonal =>
    }
  }

  // ---------------------------------------------------------------------
  // Reference definition: five consecutive stones on a line

  /** The five cells from s on in direction d all hold stone t. */
  predicate FiveFrom(g: Grid, s: Pos, d: Dir, t: int) {
    forall j :: 0 <= j < 5 ==> Matches(g, At(s, d, j), t)
  }

  /** Some five consecutive cells of axis a that include o all hold stone t. */
  predicate FiveThrough(g: Grid, o: Pos, a: Axis, t: int) {
    exists s :: 0 <= s <= 4 && FiveFrom(g, At(o, Backward(a), s), Forward(a), t)
  }

  ghost predicate HasFive(g: Grid, o: Pos, t: int) {
    exists a :: FiveThrough(g, o, a, t)
  }

  /** Runs that reach four together give five in a row starting p cells back. */
  lemma {:induction false} FiveFromRuns(g: Grid, o: Pos, b: Dir, t: int, p: nat, q: nat)
    requires Matches(g, o, t) && AllMatch(g, o, b, t, p) && AllMatch(g, o, Reverse(b), t, q)
    requires p <= 4 && p + q >= 4
    ensures FiveFrom(g, At(o, b, p), Reverse(b), t)
  {
    forall j | 0 <= j < 5 ensures Matches(g, At(At(o, b, p), Reverse(b), j), t) {
      ShiftBack(o, b, p, j);
      if j < p {
        assert Matches(g, At(o, b, p - j), t);
      } else if j > p {
        assert Matches(g, At(o, Reverse(b), j - p), t);
      }
    }
  }

  /** Five in a row starting s cells back gives runs of s and 4 - s. */
  lemma {:induction false} RunsFromFive(g: Grid, o: Pos, b: Dir, t: int, s: nat)
    requires s <= 4 && FiveFrom(g, At(o, b, s), Reverse(b), t)
    ensures AllMatch(g, o, b, t, s) && AllMatch(g, o, Reverse(b), t, 4 - s)
  {
    forall i | 1 <= i <= s ensures Matches(g, At(o, b, i), t) {
      ShiftBack(o, b, s, s - i);
      assert Matches(g, At(At(o, b, s), Reverse(b), s - i), t);
    }
    forall i | 1 <= i <= 4 - s ensures Matches(g, At(o, Reverse(b), i), t) {
      ShiftBack(o, b, s, s + i);
      assert Matches(g, At(At(o, b, s), Reverse(b), s + i), t);
    }
  }

  /**
   * With the placed stone on o, one axis's two bounded scans reach five
   * exactly when five stones of t lie in a row on that axis through o; runs
   * longer than five count too.
   */
  lemma AxisWinsIffFive(g: Grid, o: Pos, a: Axis, t: int)
    requires Matches(g, o, t)
    ensures AxisWins(g, o, a, t) <==> FiveThrough(g, o, a, t)
  {
    var b := Backward(a);
    assert Forward(a) == Reverse(b);
    var p, q := Run(g, o, b, t, 4), Run(g, o, Reverse(b), t, 4);
    RunSpec(g, o, b, t, 4);
    RunSpec(g, o, Reverse(b), t, 4);
    if p + q >= 4 {
      FiveFromRuns(g, o, b, t, p, q);
      assert FiveFrom(g, At(o, b, p), Forward(a), t);
    }
    if FiveThrough(g, o, a, t) {
      var s :| 0 <= s <= 4 && FiveFrom(g, At(o, b, s), Forward(a), t);
      RunsFromFive(g, o, b, t, s);
      RunAtLeast(g, o, b, t, 4, s);
      RunAtLeast(g, o, Reverse(b), t, 4, 4 - s);
    }
  }

  /** Five in a row on any one axis makes the scan report a win. */
  lemma FiveMakesWin(g: Grid, o: Pos, t: int, a: Axis)
    requires Matches(g, o, t) && FiveThrough(g, o, a, t)
    ensures FirstWin(g, o, t).Some?
  {
    FirstWinSound(g, o, t);
    AxisWinsIffFive(g, o, a, t);
  }

  /**
   * The scan reports a win exactly when some axis holds five in a row
   * through the placed stone.
   */
  lemma WinIffFive(g: Grid, o: Pos, t: int)
    requires Matches(g, o, t)
    ensures FirstWin(g, o, t).Some? <==> HasFive(g, o, t)
  {
    FirstWinSound(g, o, t);
    if FirstWin(g, o, t).Some? {
      var a := FirstWin(g, o, t).value;
      AxisWinsIffFive(g, o, a, t);
      assert FiveThrough(g, o, a, t);
    }
    if HasFive(g, o, t) {
      var a :| FiveThrough(g, o, a, t);
      FiveMakesWin(g, o, t, a);
    }
  }

  /**
   * The axis the scan reports holds five in a row through the placed stone,
   * and no axis scanned before it does.
   */
  lemma FirstWinIsFirst(g: Grid, o: Pos, t: int, a: Axis)
    requires Matches(g, o, t) && FirstWin(g, o, t) == Some(a)
    ensures FiveThrough(g, o, a, t)
    ensures forall b :: Rank(b) < Rank(a) ==> !FiveThrough(g, o, b, t)
  {
    FirstWinSound(g, o, t);
    AxisWinsIffFive(g, o, Horizontal, t);
    AxisWinsIffFive(g, o, Vertical, t);
    AxisWinsIffFive(g, o, LeftDiagonal, t);
    AxisWinsIffFive(g, o, RightDiagonal, t);
    forall b | Rank(b) < Rank(a) ensures !FiveThrough(g, o, b, t) {
      match b
      case Horizontal =>
      case Vertical =>
      case LeftDiagonal =>
      case RightDiagonal =>
    }
  }

  /**
   * Every highlighted cell of an axis holds stone t, lies within four steps
   * of o on that axis, and is not o itself.
   */
  lemma AxisCellsOnAxis(g: Grid, o: Pos, a: Axis, t: int)
    ensures o !in AxisCells(g, o, a, t)
    ensures forall c :: c in AxisCells(g, o, a, t) ==>
      Matches(g, c, t) && c in Ray(o, Backward(a), 4) + Ray(o, Forward(a), 4)
  {
    var b := Backward(a);
    var p, q := Run(g, o, b, t, 4), Run(g, o, Reverse(b), t, 4);
    RunSpec(g, o, b, t, 4);
    RunSpec(g, o, Reverse(b), t, 4);
    HalvesOnAxis(g, o, b, t, p, Min(q, 4 - p));
  }

  /** Two matching rays of at most four steps on either side of o. */
  lemma HalvesOnAxis(g: Grid, o: Pos, b: Dir, t: int, p: nat, m: nat)
    requires NonZero(b) && p <= 4 && m <= 4
    requires AllMatch(g, o, b, t, p) && AllMatch(g, o, Reverse(b), t, m)
    ensures o !in Ray(o, b, p) + Ray(o, Reverse(b), m)
    ensures Ray(o, b, p) !! Ray(o, Reverse(b), m)
    ensures forall c :: c in Ray(o, b, p) + Ray(o, Reverse(b), m) ==>
      Matches(g, c, t) && c in Ray(o, b, 4) + Ray(o, Reverse(b), 4)
  {
    RaysApart(o, b, p, m);
    RayMatches(g, o, b, t, p);
    RayMatches(g, o, Reverse(b), t, m);
    RayGrows(o, b, p, 4);
    RayGrows(o, Reverse(b), m, 4);
  }

  /** On a winning axis the highlight holds exactly four cells. */
  lemma {:induction false} AxisCellsSize(g: Grid, o: Pos, a: Axis, t: int)
    requires AxisWins(g, o, a, t)
    ensures |AxisCells(g, o, a, t)| == 4
  {
    var b, f := Backward(a), Forward(a);
    var p, q := Run(g, o, b, t, 4), Run(g, o, f, t, 4);
    RaysApart(o, b, p, 4 - p);
    RaySize(o, b, p);
    RaySize(o, f, 4 - p);
    assert Min(q, 4 - p) == 4 - p;
    assert f == Reverse(b);
  }

  // ---------------------------------------------------------------------
  // Stone count

  function CountRow(r: seq<int>): (n: nat)
    ensures n <= |r|
    ensures n == |r| <==> forall j :: 0 <= j < |r| ==> r[j] != EMPTY
  {
    if r == [] then 0
    else
      var rest := CountRow(r[1..]);
      assert forall j :: 1 <= j < |r| ==> r[j] == r[1..][j - 1];
      (if r[0] != EMPTY then 1 else 0) + rest
  }

  /** The number of cells that hold a stone. */
  function Count(g: Grid): nat {
    if g == [] then 0 else CountRow(g[0]) + Count(g[1..])
  }

  lemma {:induction false} CountRowZero(r: seq<int>)
    requires forall j :: 0 <= j < |r| ==> r[j] == EMPTY
    ensures CountRow(r) == 0
  {
    if r != [] {
      CountRowZero(r[1..]);
    }
  }

  lemma {:induction false} CountZero(g: Grid)
    requires forall i, j :: 0 <= i < |g| && 0 <= j < |g[i]| ==> g[i][j] == EMPTY
    ensures Count(g) == 0
  {
    if g != [] {
      CountRowZero(g[0]);
      CountZero(g[1..]);
    }
  }

  /** The empty board holds no stone. */
  lemma CountEmpty()
    ensures Count(EmptyGrid()) == 0
  {
    CountZero(EmptyGrid());
  }

  lemma {:induction false} CountRowUpdate(r: seq<int>, j: nat, v: int)
    requires j < |r|
    ensures CountRow(r[j := v]) + (if r[j] != EMPTY then 1 else 0)
         == CountRow(r) + (if v != EMPTY then 1 else 0)
  {
    if j > 0 {
      CountRowUpdate(r[1..], j - 1, v);
      assert r[j := v][1..] == r[1..][j - 1 := v];
    } else {
      assert r[j := v][1..] == r[1..];
    }
  }

  lemma {:induction false} CountUpdate(g: Grid, i: nat, row: seq<int>)
    requires i < |g|
    ensures Count(g[i := row]) + CountRow(g[i]) == Count(g) + CountRow(row)
  {
    if i > 0 {
      CountUpdate(g[1..], i - 1, row);
      assert g[i := row][1..] == g[1..][i - 1 := row];
    } else {
      assert g[i := row][1..] == g[1..];
    }
  }

  /** Placing a stone on an empty cell adds exactly one to the count. */
  lemma CountPlace(g: Grid, p: Pos, t: int)
    requires WellFormed(g) && InBoard(p) && g[p.0][p.1] == EMPTY && t != EMPTY
    ensures Count(Place(g, p, t)) == Count(g) + 1
  {
    CountRowUpdate(g[p.0], p.1, t);
    CountUpdate(g, p.0, g[p.0][p.1 := t]);
  }

  lemma {:induction false} CountRows(g: Grid)
    requires forall i :: 0 <= i < |g| ==> |g[i]| == COLS
    ensures Count(g) <= COLS * |g|
    ensures Count(g) == COLS * |g| <==>
      forall i, j :: 0 <= i < |g| && 0 <= j < COLS ==> g[i][j] != EMPTY
  {
    if g != [] {
      CountRows(g[1..]);
      assert forall i :: 1 <= i < |g| ==> g[i] == g[1..][i - 1];
    }
  }

  /** The count reaches the board's 225 cells exactly when the board is full. */
  lemma CountFull(g: Grid)
    requires WellFormed(g)
    ensures Count(g) <= CHESS_TOTAL
    ensures Count(g) == CHESS_TOTAL <==> Full(g)
  {
    CountRows(g);
  }

  // ---------------------------------------------------------------------
  // One move on the board state

  /**
   * The part of the engine's state a move changes: the grid, the stone
   * counter, the last move, the status (0 playing, 1 won, 2 drawn) and the
   * highlighted winning cells.
   */
  datatype Board = Board(grid: Grid, total: int, last: Pos, status: int, highlight: set<Pos>)

  /** What holds of the state between moves. */
  ghost predicate Invariant(b: Board) {
    && WellFormed(b.grid)
    && (forall i, j :: 0 <= i < ROWS && 0 <= j < COLS ==> EMPTY <= b.grid[i][j] <= WHITE)
    && b.total == Count(b.grid)
    && 0 <= b.status <= 2
    && (b.status == 2 ==> b.total == CHESS_TOTAL)
    && (b.total > 0 ==> InBoard(b.last) && b.grid[b.last.0][b.last.1] != EMPTY)
    && (forall c :: c in b.highlight ==> InBoard(c) && b.grid[c.0][c.1] != EMPTY)
  }

  /**
   * The win check's outcome for stone t just placed at o, as (status,
   * highlight): a win with the first winning axis's cells; otherwise no
   * highlight and a draw once total reaches every cell, the old status s0
   * if not.
   */
  function Verdict(g: Grid, o: Pos, t: int, total: int, s0: int): (int, set<Pos>) {
    match FirstWin(g, o, t)
    case Some(a) => (1, AxisCells(g, o, a, t))
    case None => (if total == CHESS_TOTAL then 2 else s0, {})
  }

  /**
   * Stone t placed at p: nothing changes on an occupied cell; otherwise the
   * cell gets t, the counter grows by one, p becomes the last move and the
   * win check decides the status and the highlight.
   */
  function Move(b: Board, p: Pos, t: int): Board
    requires WellFormed(b.grid) && InBoard(p)
  {
    if b.grid[p.0][p.1] != EMPTY then b
    else
      var g := Place(b.grid, p, t);
      var v := Verdict(g, p, t, b.total + 1, b.status);
      Board(g, b.total + 1, p, v.0, v.1)
  }

  /**
   * What one move does to the grid, the counter and the last move: nothing
   * on an occupied cell; on an empty cell t is written there and nowhere
   * else, the counter grows by one, p becomes the last move, and no stone
   * already on the board is removed or replaced.
   */
  lemma MoveEffects(b: Board, p: Pos, t: int)
    requires WellFormed(b.grid) && InBoard(p)
    ensures b.grid[p.0][p.1] != EMPTY ==> Move(b, p, t) == b
    ensures WellFormed(Move(b, p, t).grid) && Extends(b.grid, Move(b, p, t).grid)
    ensures b.grid[p.0][p.1] == EMPTY ==>
      && Move(b, p, t).grid[p.0][p.1] == t
      && (forall i, j :: 0 <= i < ROWS && 0 <= j < COLS && (i, j) != p ==> Move(b, p, t).grid[i][j] == b.grid[i][j])
      && Move(b, p, t).total == b.total + 1
      && Move(b, p, t).last == p
  {
  }

  /** A fresh board meets the invariant, whatever last move it remembers. */
  lemma InitialInvariant(b: Board)
    requires b.grid == EmptyGrid() && b.total == 0 && b.status == 0 && b.highlight == {}
    ensures Invariant(b)
  {
    CountEmpty();
  }

  /** A move of a black or white stone keeps the invariant. */
  lemma MoveKeepsInvariant(b: Board, p: Pos, t: int)
    requires Invariant(b) && InBoard(p) && (t == BLACK || t == WHITE)
    ensures Invariant(Move(b, p, t))
  {
    if b.grid[p.0][p.1] == EMPTY {
      var g := Place(b.grid, p, t);
      CountPlace(b.grid, p, t);
      CountFull(b.grid);
      assert b.status != 2;
      match FirstWin(g, p, t)
      case Some(a) => AxisCellsOnAxis(g, p, a, t);
      case None =>
    }
  }

  /**
   * A move wins exactly when its cell was empty and the stone completes five
   * in a row through it.
   */
  lemma MoveWins(b: Board, p: Pos, t: int)
    requires Invariant(b) && b.status != 1 && InBoard(p)
    ensures Move(b, p, t).status == 1 <==>
      b.grid[p.0][p.1] == EMPTY && HasFive(Place(b.grid, p, t), p, t)
  {
    if b.grid[p.0][p.1] == EMPTY {
      WinIffFive(Place(b.grid, p, t), p, t);
    }
  }

  /**
   * On a winning axis the highlight is the first s cells behind o and the
   * first 4 - s ahead, and with o they are five consecutive stones of t.
   */
  lemma WinningFive(g: Grid, o: Pos, a: Axis, t: int)
    requires Matches(g, o, t) && AxisWins(g, o, a, t)
    ensures exists s ::
      && 0 <= s <= 4
      && AxisCells(g, o, a, t) == Ray(o, Backward(a), s) + Ray(o, Forward(a), 4 - s)
      && FiveFrom(g, At(o, Backward(a), s), Forward(a), t)
  {
    var b := Backward(a);
    assert Forward(a) == Reverse(b);
    var s, q := Run(g, o, b, t, 4), Run(g, o, Reverse(b), t, 4);
    RunSpec(g, o, b, t, 4);
    RunSpec(g, o, Reverse(b), t, 4);
    assert Min(q, 4 - s) == 4 - s;
    FiveFromRuns(g, o, b, t, s, 4 - s);
  }

  /**
   * A winning move highlights exactly four cells besides the placed one,
   * each holding the placed stone and lying within four steps of it on one
   * axis; with the placed cell they are five consecutive stones on the
   * winning axis, s of them behind it and 4 - s ahead.
   */
  lemma MoveWinHighlight(b: Board, p: Pos, t: int)
    requires WellFormed(b.grid) && InBoard(p) && b.grid[p.0][p.1] == EMPTY
    requires HasFive(Place(b.grid, p, t), p, t)
    ensures Move(b, p, t).status == 1 && |Move(b, p, t).highlight| == 4
    ensures p !in Move(b, p, t).highlight
    ensures exists a, s ::
      && 0 <= s <= 4 && FiveThrough(Place(b.grid, p, t), p, a, t)
      && Move(b, p, t).highlight == Ray(p, Backward(a), s) + Ray(p, Forward(a), 4 - s)
      && FiveFrom(Place(b.grid, p, t), At(p, Backward(a), s), Forward(a), t)
      && (forall c :: c in Move(b, p, t).highlight ==> Matches(Place(b.grid, p, t), c, t))
  {
    var g := Place(b.grid, p, t);
    PlaceCells(b.grid, p, t);
    WinIffFive(g, p, t);
    var a := FirstWin(g, p, t).value;
    var h := AxisCells(g, p, a, t);
    assert Move(b, p, t).status == 1 && Move(b, p, t).highlight == h;
    WinningCells(g, p, t, a);
    var s :| 0 <= s <= 4 && FiveThrough(g, p, a, t)
      && h == Ray(p, Backward(a), s) + Ray(p, Forward(a), 4 - s)
      && FiveFrom(g, At(p, Backward(a), s), Forward(a), t);
  }

  /** The highlight of the first winning axis, as MoveWinHighlight states it. */
  lemma WinningCells(g: Grid, o: Pos, t: int, a: Axis)
    requires Matches(g, o, t) && FirstWin(g, o, t) == Some(a)
    ensures |AxisCells(g, o, a, t)| == 4 && o !in AxisCells(g, o, a, t)
    ensures forall c :: c in AxisCells(g, o, a, t) ==>
      Matches(g, c, t) && c in Ray(o, Backward(a), 4) + Ray(o, Forward(a), 4)
    ensures exists s ::
      && 0 <= s <= 4 && FiveThrough(g, o, a, t)
      && AxisCells(g, o, a, t) == Ray(o, Backward(a), s) + Ray(o, Forward(a), 4 - s)
      && FiveFrom(g, At(o, Backward(a), s), Forward(a), t)
  {
    FirstWinIsFirst(g, o, t, a);
    FirstWinSound(g, o, t);
    AxisCellsSize(g, o, a, t);
    AxisCellsOnAxis(g, o, a, t);
    WinningFive(g, o, a, t);
  }

  /**
   * In a game not already drawn, a move on an empty cell draws exactly when
   * it makes no five and fills the last empty cell: a five on the last cell
   * is a win, not a draw.
   */
  lemma MoveDraws(b: Board, p: Pos, t: int)
    requires Invariant(b) && b.status != 2 && InBoard(p) && b.grid[p.0][p.1] == EMPTY && t != EMPTY
    ensures Move(b, p, t).status == 2 <==>
      !HasFive(Place(b.grid, p, t), p, t) && Full(Place(b.grid, p, t))
  {
    var g := Place(b.grid, p, t);
    WinIffFive(g, p, t);
    CountPlace(b.grid, p, t);
    CountFull(g);
  }
}
