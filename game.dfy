/**
 * The Gobang game engine: a 15 x 15 board of stone codes, the placed-stone
 * counter, the last move, the win/draw status, the highlighted winning
 * cells, the game mode, the colour that moves next and the lock that keeps
 * an online player from moving twice.
 */
module GobangGame {
  import opened GobangRules

  /** The three game modes, in declaration order. */
  datatype GameMode = HumanVsPc | HumanVsHuman | Online {
    /** The display name the start form submits for this mode. */
    function Name(): string {
      match this
      case HumanVsPc => "\U{4eba}\U{7c7b}VS\U{7535}\U{8111}"
      case HumanVsHuman => "\U{4eba}\U{7c7b}VS\U{4eba}\U{7c7b}"
      case Online => "\U{5728}\U{7ebf}PK"
    }
  }

  /** No two modes share a display name, so a name picks out at most one mode. */
  lemma ModeNamesDistinct(m: GameMode, k: GameMode)
    ensures m.Name() == k.Name() ==> m == k
  {
  }

  /** The modes in the order the name lookup tries them. */
  const MODES: seq<GameMode> := [HumanVsPc, HumanVsHuman, Online]

  /** m is the mode named name, or the fallback when no mode has that name. */
  ghost predicate ModeFor(name: string, m: GameMode) {
    m.Name() == name || (m == HumanVsPc && forall k: GameMode :: k.Name() != name)
  }

  /** Looks a mode up by its name, falling back to human versus computer. */
  method GetMode(name: string) returns (mode: GameMode)
    ensures ModeFor(name, mode)
  {
    var i := 0;
    while i < |MODES|
      invariant 0 <= i <= |MODES|
      invariant forall j :: 0 <= j < i ==> MODES[j].Name() != name
    {
      if MODES[i].Name() == name {
        return MODES[i];
      }
      i := i + 1;
    }
    forall k: GameMode ensures k.Name() != name {
      assert k == MODES[0] || k == MODES[1] || k == MODES[2];
    }
    return HumanVsPc;
  }

  /** A fresh 15 x 15 array of empty cells. */
  method NewChessData() returns (a: array2<int>)
    ensures fresh(a) && a.Length0 == ROWS && a.Length1 == COLS
    ensures forall i, j :: 0 <= i < ROWS && 0 <= j < COLS ==> a[i, j] == EMPTY
  {
    a := new int[ROWS, COLS]((i, j) => EMPTY);
  }

  /** The record a move is sent to the opponent as: the cell and the stone code. */
  datatype GobangMove = GobangMove(x: int, y: int, stone: int)

  class Gobang {
    /** chessData[x, y] is the stone code at (x, y): 0 empty, 1 black, 2 white. */
    var chessData: array2<int>
    /** The value of chessData, for the specification. */
    ghost var grid: Grid
    var currentChessTotal: int
    /** The stone code the local player places next. */
    var chessType: int
    var isGameOver: bool
    /** 0 while playing, 1 after a win, 2 after a draw. */
    var status: int
    /** The turn lock: a local click is ignored while it is set. */
    var put: bool
    /** The cells marked as the winning line (the placed stone itself is not among them). */
    var chessHighlight: set<Pos>
    var gameMode: GameMode
    var currentRow: int
    var currentCol: int

    /** The array has the board's size and grid mirrors it. */
    ghost predicate BoardValid()
      reads this`chessData, this`grid, chessData
    {
      && chessData.Length0 == ROWS && chessData.Length1 == COLS
      && WellFormed(grid)
      && (forall i, j :: 0 <= i < ROWS && 0 <= j < COLS ==> chessData[i, j] == grid[i][j])
    }

    /** The fields a move changes, as one value. */
    ghost function State(): Board
      reads this`grid, this`currentChessTotal, this`currentRow, this`currentCol, this`status
      reads this`chessHighlight
    {
      Board(grid, currentChessTotal, (currentRow, currentCol), status, chessHighlight)
    }

    /** The invariant every operation keeps, except for the game-over flag. */
    ghost predicate Consistent()
      reads this, chessData
    {
      BoardValid() && Invariant(State()) && (chessType == BLACK || chessType == WHITE)
    }

    /** The full invariant: the game-over flag also reflects the status. */
    ghost predicate Valid()
      reads this, chessData
    {
      Consistent() && isGameOver == (status != 0)
    }

    /** An empty board before any game is configured. */
    constructor ()
      ensures Valid() && fresh(chessData)
      ensures grid == EmptyGrid() && currentChessTotal == 0 && status == 0
      ensures !put && chessHighlight == {} && chessType == BLACK && gameMode == HumanVsPc
    {
      var a := NewChessData();
      chessData := a;
      grid := EmptyGrid();
      currentChessTotal := 0;
      chessType := BLACK;
      isGameOver := false;
      status := 0;
      put := false;
      chessHighlight := {};
      gameMode := HumanVsPc;
      currentRow, currentCol := 0, 0;
      new;
      assert BoardValid();
      InitialInvariant(State());
    }

    /** Starts a game afresh: an empty board, no stone counted, no result, no lock, no highlight. */
    method InitValue()
      requires chessType == BLACK || chessType == WHITE
      modifies this`chessData, this`grid, this`currentChessTotal, this`isGameOver, this`status
      modifies this`put, this`chessHighlight
      ensures Valid() && fresh(chessData)
      ensures grid == EmptyGrid() && currentChessTotal == 0 && status == 0 && !put && chessHighlight == {}
    {
      currentChessTotal := 0;
      isGameOver := false;
      status := 0;
      put := false;
      chessHighlight := {};
      ClearBoard();
      InitialInvariant(State());
    }

    /** A fresh empty array, mirrored by the empty grid. */
    method ClearBoard()
      modifies this`chessData, this`grid
      ensures BoardValid() && fresh(chessData) && grid == EmptyGrid()
    {
      chessData := NewChessData();
      grid := EmptyGrid();
    }

    /**
     * Sets up a game: resets the board, then an online opponent makes the
     * game online, black and free to move for the side that invited, white
     * and locked for the other; without one, a hot-seat game always starts
     * with black.
     */
    method InitChessPanel(hasOpponent: bool, proactive: bool)
      requires chessType == BLACK || chessType == WHITE
      modifies this
      ensures Valid() && fresh(chessData)
      ensures grid == EmptyGrid() && currentChessTotal == 0 && status == 0 && chessHighlight == {}
      ensures currentRow == old(currentRow) && currentCol == old(currentCol)
      ensures hasOpponent ==>
        gameMode == Online && chessType == (if proactive then BLACK else WHITE) && put == !proactive
      ensures !hasOpponent ==>
        && gameMode == old(gameMode) && !put
        && chessType == (if gameMode == HumanVsHuman then BLACK else old(chessType))
    {
      InitValue();
      if !hasOpponent {
        match gameMode
        case HumanVsPc =>
        case HumanVsHuman =>
          if chessType == WHITE {
            chessType := BLACK;
          }
        case Online =>
      } else {
        gameMode := Online;
        if proactive {
          chessType := BLACK;
        } else {
          chessType := WHITE;
          put := true;
        }
      }
    }

    /** The start button: the chosen mode name and stone code, then the set-up. */
    method StartGame(modeName: string, chosen: int, hasOpponent: bool, proactive: bool)
      requires chosen == BLACK || chosen == WHITE
      modifies this
      ensures Valid() && fresh(chessData)
      ensures grid == EmptyGrid() && currentChessTotal == 0 && status == 0 && chessHighlight == {}
      ensures currentRow == old(currentRow) && currentCol == old(currentCol)
      ensures hasOpponent ==>
        gameMode == Online && chessType == (if proactive then BLACK else WHITE) && put == !proactive
      ensures !hasOpponent ==>
        && ModeFor(modeName, gameMode) && !put
        && chessType == (if gameMode == HumanVsHuman then BLACK else chosen)
    {
      gameMode := GetMode(modeName);
      chessType := chosen;
      InitChessPanel(hasOpponent, proactive);
    }

    /** Sets the game-over flag from the status: over unless the status is 0. */
    method CheckStatus()
      modifies this`isGameOver
      ensures isGameOver == (status != 0)
    {
      var flag := true;
      match status {
        case 1 =>
        case 2 =>
        case 0 => flag := false;
        case _ =>
      }
      isGameOver := flag;
    }

    /**
     * A click on cell (row, col): ignored while the turn lock or the game
     * over flag is set; otherwise the local stone is placed and then, even
     * when the cell was already occupied, an online game locks the turn and
     * sends the last move, and a hot-seat game hands the turn to the other
     * colour.
     */
    method LocalMove(row: int, col: int) returns (sent: Option<GobangMove>)
      requires Valid()
      modifies this, chessData
      ensures Valid() && chessData == old(chessData) && gameMode == old(gameMode)
      ensures old(put || isGameOver) || !InBoard((row, col)) ==>
        unchanged(this) && unchanged(chessData) && sent == None
      ensures !old(put || isGameOver) && InBoard((row, col)) ==>
        && State() == Move(old(State()), (row, col), old(chessType))
        && (gameMode == Online ==>
              put && chessType == old(chessType) && sent == Some(GobangMove(currentRow, currentCol, chessType)))
        && (gameMode == HumanVsPc ==> put == old(put) && chessType == old(chessType) && sent == None)
        && (gameMode == HumanVsHuman ==> put == old(put) && chessType == 3 - old(chessType) && sent == None)
    {
      sent := None;
      if put || isGameOver {
        return;
      }
      var ok := PutChess(row, col, chessType);
      if ok {
        sent := EndLocalTurn();
      }
    }

    /**
     * The rest of a click after a placement: the status is re-read, then an
     * online game locks the turn and sends the last move, and a hot-seat
     * game hands the turn to the other colour.
     */
    method EndLocalTurn() returns (sent: Option<GobangMove>)
      requires chessType == BLACK || chessType == WHITE
      modifies this`isGameOver, this`put, this`chessType
      ensures isGameOver == (status != 0) && (chessType == BLACK || chessType == WHITE)
      ensures gameMode == Online ==>
        put && chessType == old(chessType) && sent == Some(GobangMove(currentRow, currentCol, chessType))
      ensures gameMode == HumanVsPc ==> put == old(put) && chessType == old(chessType) && sent == None
      ensures gameMode == HumanVsHuman ==> put == old(put) && chessType == 3 - old(chessType) && sent == None
    {
      CheckStatus();
      match gameMode {
        case Online =>
          put := true;
          sent := Some(Send(currentRow, currentCol));
        case HumanVsPc =>
          sent := None;
        case HumanVsHuman =>
          chessType := 3 - chessType;
          sent := None;
      }
    }

    /**
     * A move received from the opponent: placed without a game-over check,
     * then the status is re-read, and the turn lock is released unless the
     * game is now over.
     */
    method Handle(m: GobangMove)
      requires Valid() && InBoard((m.x, m.y)) && (m.stone == BLACK || m.stone == WHITE)
      modifies this, chessData
      ensures Valid() && chessData == old(chessData)
      ensures State() == Move(old(State()), (m.x, m.y), m.stone)
      ensures chessType == old(chessType) && gameMode == old(gameMode)
      ensures put == (if isGameOver then old(put) else false)
    {
      SetChess(m.x, m.y, m.stone);
      EndRemoteTurn();
    }

    /** The rest of a received move: the status is re-read and, unless the game is over, the lock released. */
    method EndRemoteTurn()
      modifies this`isGameOver, this`put
      ensures isGameOver == (status != 0)
      ensures put == (if isGameOver then old(put) else false)
    {
      CheckStatus();
      if isGameOver {
        return;
      }
      put := false;
    }

    /** Places stone t at an already resolved cell unless the game is over or the cell is off the board. */
    method PutChess(row: int, col: int, t: int) returns (ok: bool)
      requires Consistent() && (t == BLACK || t == WHITE)
      modifies chessData, this`grid, this`currentRow, this`currentCol, this`currentChessTotal
      modifies this`status, this`chessHighlight
      ensures Consistent()
      ensures ok == (!isGameOver && InBoard((row, col)))
      ensures ok ==> State() == Move(old(State()), (row, col), t)
      ensures !ok ==> unchanged(this) && unchanged(chessData)
    {
      if isGameOver {
        return false;
      }
      if row < 0 || col < 0 || row > ROWS - 1 || col > COLS - 1 {
        return false;
      }
      SetChess(row, col, t);
      return true;
    }

    /** The single writer of the board: places stone t at (x, y) unless that cell is occupied. */
    method SetChess(x: int, y: int, t: int)
      requires Consistent() && InBoard((x, y)) && (t == BLACK || t == WHITE)
      modifies chessData, this`grid, this`currentRow, this`currentCol, this`currentChessTotal
      modifies this`status, this`chessHighlight
      ensures Consistent()
      ensures State() == Move(old(State()), (x, y), t)
    {
      if chessData[x, y] != EMPTY {
        return;
      }
      ghost var b := State();
      WriteStone(x, y, t);
      CheckWinner(x, y, t);
      assert State() == Move(b, (x, y), t);
      MoveKeepsInvariant(b, (x, y), t);
    }

    /** The writes of a placement on an empty cell: the last move, the counter and the cell. */
    method WriteStone(x: int, y: int, t: int)
      requires BoardValid() && InBoard((x, y))
      modifies chessData, this`grid, this`currentRow, this`currentCol, this`currentChessTotal
      ensures BoardValid() && grid == Place(old(grid), (x, y), t)
      ensures currentChessTotal == old(currentChessTotal) + 1
      ensures currentRow == x && currentCol == y
    {
      currentRow := x;
      currentCol := y;
      currentChessTotal := currentChessTotal + 1;
      chessData[x, y] := t;
      grid := Place(grid, (x, y), t);
    }

    /** Sets the status to a draw when every cell holds a stone. */
    method CheckPeace()
      modifies this`status
      ensures status == if currentChessTotal == CHESS_TOTAL then 2 else old(status)
    {
      if currentChessTotal == CHESS_TOTAL {
        Peacemaker();
      }
    }

    /**
     * The win check for stone t just placed at (x, y): the four axes in
     * order, stopping at the first that reaches five; a draw check and an
     * empty highlight otherwise.
     */
    method CheckWinner(x: int, y: int, t: int)
      requires BoardValid() && InBoard((x, y))
      modifies this`chessHighlight, this`status
      ensures (status, chessHighlight) == Verdict(grid, (x, y), t, currentChessTotal, old(status))
    {
      var won := ScanAxis(x, y, Horizontal, t);
      if won {
        Winner();
        return;
      }
      won := ScanAxis(x, y, Vertical, t);
      if won {
        Winner();
        return;
      }
      won := ScanAxis(x, y, LeftDiagonal, t);
      if won {
        Winner();
        return;
      }
      won := ScanAxis(x, y, RightDiagonal, t);
      if won {
        Winner();
        return;
      }
      CheckPeace();
      chessHighlight := {};
    }

    /**
     * One axis of the win check: a fresh highlight, the count k starting at
     * 1 for the placed stone, the backward scan, then the forward scan if
     * the backward one did not already reach five.
     */
    method ScanAxis(x: int, y: int, a: Axis, t: int) returns (won: bool)
      requires BoardValid() && InBoard((x, y))
      modifies this`chessHighlight
      ensures won == AxisWins(grid, (x, y), a, t)
      ensures chessHighlight == AxisCells(grid, (x, y), a, t)
    {
      chessHighlight := {};
      var k := Scan(x, y, Backward(a), t, 1);
      ghost var k1, h1 := k, chessHighlight;
      if k == 5 {
        AxisFromScans(grid, (x, y), a, t, k1, h1, k1, h1);
        return true;
      }
      k := Scan(x, y, Forward(a), t, k);
      AxisFromScans(grid, (x, y), a, t, k1, h1, k, chessHighlight);
      won := k == 5;
    }

    /**
     * One scan loop: up to four steps from (x, y) in direction d, stopping
     * at the board's edge, at the first cell that does not hold t, or when
     * k reaches five; each matching cell is highlighted and counted.
     */
    method Scan(x: int, y: int, d: Dir, t: int, k0: int) returns (k: int)
      requires BoardValid() && InBoard((x, y)) && 1 <= k0 < 5
      modifies this`chessHighlight
      ensures k == Min(k0 + Run(grid, (x, y), d, t, 4), 5)
      ensures chessHighlight == old(chessHighlight) + Ray((x, y), d, k - k0)
    {
      k := k0;
      var i := 1;
      while i < 5
        invariant 1 <= i <= 5 && k == k0 + i - 1 && k < 5
        invariant AllMatch(grid, (x, y), d, t, i - 1)
        invariant chessHighlight == old(chessHighlight) + Ray((x, y), d, i - 1)
      {
        var c := At((x, y), d, i);
        if c.0 < 0 || c.1 < 0 || c.0 > ROWS - 1 || c.1 > COLS - 1 {
          RunStops(grid, (x, y), d, t, 4, i - 1);
          break;
        }
        if chessData[c.0, c.1] != t {
          RunStops(grid, (x, y), d, t, 4, i - 1);
          break;
        }
        assert Matches(grid, c, t);
        chessHighlight := chessHighlight + {c};
        k := k + 1;
        if k == 5 {
          RunAtLeast(grid, (x, y), d, t, 4, i);
          return;
        }
        i := i + 1;
      }
    }

    method Winner()
      modifies this`status
      ensures status == 1
    {
      status := 1;
    }

    method Peacemaker()
      modifies this`status
      ensures status == 2
    {
      status := 2;
    }

    /** The record sent for a move at (x, y): the local stone code, always black or white. */
    function Send(x: int, y: int): (m: GobangMove)
      reads this
      requires chessType == BLACK || chessType == WHITE
      ensures m.x == x && m.y == y && m.stone == chessType && (m.stone == BLACK || m.stone == WHITE)
    {
      GobangMove(x, y, chessType)
    }

    /** Whether (x, y) is drawn as part of the winning line; such a cell always holds a stone. */
    function IsHighlight(x: int, y: int): (r: bool)
      reads this, chessData
      requires Consistent()
      ensures r ==> InBoard((x, y)) && grid[x][y] != EMPTY
    {
      (x, y) in chessHighlight
    }
  }
}
