/** The engine's state apart from the board, as a value, and what makeMove,
    undo and reset do to it. The class in module Gomoku is proved to follow
    these functions; the properties of the game are proved about them here. */
module GameState {
  import opened GomokuTypes
  import opened MoveHistory
  import opened LineScan

  /** Every field of the engine except the board, which the history determines. */
  datatype GameData = GameData(
    currentPlayer: Player,
    gameStatus: GameStatus,
    lastMove: Option<Pos>,
    moveCount: int,
    history: seq<MoveRecord>,
    winningLine: Option<WinningLine>,
    config: GameConfig,
    moveStartTime: int,
    blackTotalTime: int,
    whiteTotalTime: int)

  /** The invariant of the state. The history plays distinct cells of the
      board, Black first and then in turn; the move count and last move follow
      the history; while the game is in progress it is the turn of the player
      after the last move, and once it is over the turn stays with the player
      who ended it; a draw is a full board; a winning line is stored exactly
      when a player has won, and that player made the last move. */
  ghost predicate Consistent(d: GameData)
  {
    && d.moveCount == |d.history| <= MaxMoves
    && OnBoard(d.history) && DistinctCells(d.history) && Alternates(d.history)
    && d.lastMove == LastPos(d.history)
    && (d.gameStatus == Playing ==> |d.history| < MaxMoves && d.currentPlayer == PlayerAt(|d.history|))
    && (d.gameStatus != Playing ==> |d.history| > 0 && d.currentPlayer == PlayerAt(|d.history| - 1))
    && (d.gameStatus == Draw ==> |d.history| == MaxMoves)
    && (d.winningLine.Some? <==> d.gameStatus == BlackWin || d.gameStatus == WhiteWin)
    && (d.winningLine.Some? ==> StatusWinner(d.gameStatus) == d.currentPlayer)
  }

  /** The board holds exactly the stones that replaying the history leaves. */
  ghost predicate BoardMatches(b: array2<Player>, h: seq<MoveRecord>)
    reads b
    requires WellFormed(b)
  {
    forall r, c {:trigger Occupant(h, r, c)} :: IsValidPosition(r, c) ==> b[r, c] == Occupant(h, r, c)
  }

  /** A stored winning line is at least five long, a maximal run of the
      winner's stones on the board, and passes through the last move. */
  ghost predicate LineHolds(b: array2<Player>, d: GameData)
    reads b
    requires WellFormed(b)
  {
    d.winningLine.Some? ==>
      var wl := d.winningLine.value;
      && |wl.positions| >= WinCount
      && IsMaximalRun(b, wl.positions, wl.direction.DR(), wl.direction.DC(), d.currentPlayer)
      && d.lastMove.Some? && d.lastMove.value in wl.positions
  }

  /** The invariant of the engine: a board of the right size, a consistent
      state, the board replaying the history and the winning line on it. */
  ghost predicate Inv(b: array2<Player>, d: GameData)
    reads b
  {
    WellFormed(b) && Consistent(d) && BoardMatches(b, d.history) && LineHolds(b, d)
  }

  /** A new game with configuration `config`, its clock started at `now`. */
  function InitialData(config: GameConfig, now: int): (d: GameData)
    ensures Consistent(d)
    ensures d.history == [] && d.currentPlayer == Black && d.gameStatus == Playing
  {
    GameData(Black, Playing, None, 0, [], None, config, now, 0, 0)
  }

  /** An empty board of the right size holds the state of a new game. */
  lemma EmptyBoardInv(b: array2<Player>, config: GameConfig, now: int)
    requires WellFormed(b)
    requires forall r, c :: 0 <= r < BoardSize && 0 <= c < BoardSize ==> b[r, c] == Nobody
    ensures Inv(b, InitialData(config, now))
  {
  }

  /** The accumulated time of `p`: Black's total for Black, White's for
      anyone else, as getPlayerStats reads it. */
  function TotalTime(d: GameData, p: Player): int
  {
    if p == Black then d.blackTotalTime else d.whiteTotalTime
  }

  /** A drawn game has a stone on every cell of the board. */
  lemma DrawFillsBoard(b: array2<Player>, d: GameData)
    requires Inv(b, d) && d.gameStatus == Draw
    ensures forall r, c :: IsValidPosition(r, c) ==> b[r, c] != Nobody
  {
    FullHistoryFillsBoard(d.history);
    forall r, c | IsValidPosition(r, c)
      ensures b[r, c] != Nobody
    {
      assert b[r, c] == Occupant(d.history, r, c);
    }
  }

  /** The occupied cells of the board. */
  ghost function OccupiedCells(b: array2<Player>): set<Pos>
    reads b
    requires WellFormed(b)
  {
    set r, c | 0 <= r < BoardSize && 0 <= c < BoardSize && b[r, c] != Nobody :: Pos(r, c)
  }

  /** The board holds one stone per move made: the occupied cells are the
      cells the history names. */
  lemma OccupiedCellsArePlayed(b: array2<Player>, d: GameData)
    requires Inv(b, d)
    ensures OccupiedCells(b) == Cells(d.history)
  {
    var h := d.history;
    forall q | q in OccupiedCells(b)
      ensures q in Cells(h)
    {
      var r, c :| 0 <= r < BoardSize && 0 <= c < BoardSize && b[r, c] != Nobody && q == Pos(r, c);
      assert b[r, c] == Occupant(h, r, c);
      OccupiedIffPlayed(h, r, c);
      CellsMembers(h, q);
    }
    forall q | q in Cells(h)
      ensures q in OccupiedCells(b)
    {
      CellsMembers(h, q);
      var i :| 0 <= i < |h| && Pos(h[i].row, h[i].col) == q;
      OccupantOf(h, i);
      assert b[q.row, q.col] == Occupant(h, q.row, q.col);
    }
  }

  /** The number of stones on the board is the move count. */
  lemma OccupiedCount(b: array2<Player>, d: GameData)
    requires Inv(b, d)
    ensures |OccupiedCells(b)| == d.moveCount
  {
    OccupiedCellsArePlayed(b, d);
    CellsCount(d.history);
  }

  /** A win check that fits the player who just moved: either no winner and
      no line, or that player with a line. */
  predicate WinFor(win: WinCheck, p: Player)
  {
    (win.winner == Nobody && win.line.None?) || (win.winner == p && win.line.Some?)
  }

  /** Why makeMove refuses a stone on (row, col), checking in this order: the
      game is over, the position is off the board, the cell is occupied. */
  function Rejection(d: GameData, row: int, col: int): Option<string>
  {
    if d.gameStatus != Playing then Some(GameOverMessage)
    else if !IsValidPosition(row, col) then Some(InvalidPositionMessage)
    else if Occupant(d.history, row, col) != Nobody then Some(OccupiedMessage)
    else None
  }

  /** The bookkeeping of an accepted stone at clock reading `now`: the time
      since the turn began goes to the mover, and the move is recorded. */
  function Place(d: GameData, row: int, col: int, now: int): GameData
  {
    var moveTime := now - d.moveStartTime;
    d.(
      blackTotalTime := if d.currentPlayer == Black then d.blackTotalTime + moveTime else d.blackTotalTime,
      whiteTotalTime := if d.currentPlayer == Black then d.whiteTotalTime else d.whiteTotalTime + moveTime,
      lastMove := Some(Pos(row, col)),
      moveCount := d.moveCount + 1,
      history := d.history + [MoveRecord(row, col, d.currentPlayer, now)])
  }

  /** makeMove on state `d`: the new state and the result, where `win` is the
      win check of the board with the new stone. A refused move changes
      nothing; an accepted one ends the game on a win or a full board and
      otherwise passes the turn and restarts the clock. */
  function Play(d: GameData, row: int, col: int, now: int, win: WinCheck): (GameData, MoveResult)
  {
    match Rejection(d, row, col)
    case Some(message) => (d, MoveResult(false, Some(message), None, d.gameStatus, None))
    case None =>
      var placed := Place(d, row, col, now);
      if win.winner != Nobody then
        var s := placed.(gameStatus := if win.winner == Black then BlackWin else WhiteWin, winningLine := win.line);
        (s, MoveResult(true, None, Some(win.winner), s.gameStatus, s.winningLine))
      else if placed.moveCount == MaxMoves then
        var s := placed.(gameStatus := Draw);
        (s, MoveResult(true, None, None, s.gameStatus, None))
      else
        var s := placed.(currentPlayer := if d.currentPlayer == Black then White else Black, moveStartTime := now);
        (s, MoveResult(true, None, None, s.gameStatus, None))
  }

  /** undo on state `d` at clock reading `now`: refused, changing nothing,
      when there is no move or the game is over; otherwise the last move is
      dropped, its player is to move again and the clock restarts. */
  function Unplay(d: GameData, now: int): (GameData, bool)
  {
    if |d.history| == 0 || d.gameStatus != Playing then (d, false)
    else
      var undone := d.history[|d.history| - 1];
      var h := d.history[..|d.history| - 1];
      (d.(history := h, moveCount := d.moveCount - 1, currentPlayer := undone.player,
          lastMove := LastPos(h), moveStartTime := now), true)
  }

  /** A move is accepted exactly when the game is in progress and the cell is
      on the board and empty; a refused move leaves the state as it was and
      reports the first failed check. */
  lemma PlayAccepts(d: GameData, row: int, col: int, now: int, win: WinCheck)
    ensures var (s, result) := Play(d, row, col, now, win);
      && (result.success <==>
            d.gameStatus == Playing && IsValidPosition(row, col) && Occupant(d.history, row, col) == Nobody)
      && (!result.success ==>
            s == d && result.gameStatus == d.gameStatus
            && result.winner.None? && result.winningLine.None?
            && result.message == Some(
                 if d.gameStatus != Playing then GameOverMessage
                 else if !IsValidPosition(row, col) then InvalidPositionMessage
                 else OccupiedMessage))
  {
  }

  /** An accepted move appends exactly one entry, by the player to move, and
      puts that player's stone on (row, col) and nowhere else. */
  lemma PlayPlaces(d: GameData, row: int, col: int, now: int, win: WinCheck)
    requires Play(d, row, col, now, win).1.success
    ensures var s := Play(d, row, col, now, win).0;
      && s.history == d.history + [MoveRecord(row, col, d.currentPlayer, now)]
      && s.moveCount == d.moveCount + 1
      && s.lastMove == Some(Pos(row, col))
      && forall r, c :: Occupant(s.history, r, c)
           == if r == row && c == col then d.currentPlayer else Occupant(d.history, r, c)
  {
    var s := Play(d, row, col, now, win).0;
    forall r, c
      ensures Occupant(s.history, r, c)
        == if r == row && c == col then d.currentPlayer else Occupant(d.history, r, c)
    {
      OccupantAppend(d.history, MoveRecord(row, col, d.currentPlayer, now), r, c);
    }
  }

  /** After an accepted move: a win for the mover ends the game with the
      mover's win status and line; otherwise a full board is a draw; in both
      cases the turn stays with the mover. Only a move that ends nothing
      passes the turn to the opponent and restarts the clock. */
  lemma PlayOutcome(d: GameData, row: int, col: int, now: int, win: WinCheck)
    requires Consistent(d) && WinFor(win, d.currentPlayer)
    requires Play(d, row, col, now, win).1.success
    ensures var (s, result) := Play(d, row, col, now, win);
      && (win.winner != Nobody ==>
            && s.gameStatus == WinStatus(d.currentPlayer) && s.winningLine == win.line
            && result.winner == Some(d.currentPlayer) && result.winningLine == win.line)
      && (win.winner == Nobody && |d.history| + 1 == MaxMoves ==>
            s.gameStatus == Draw && s.winningLine.None? && result.winner.None?)
      && (s.gameStatus != Playing ==> s.currentPlayer == d.currentPlayer && s.moveStartTime == d.moveStartTime)
      && (s.gameStatus == Playing ==>
            && win.winner == Nobody && |s.history| < MaxMoves
            && s.currentPlayer == Opponent(d.currentPlayer) && s.moveStartTime == now)
      && result.gameStatus == s.gameStatus
  {
  }

  /** The clock: an accepted move adds the time since the turn began to the
      mover's total and leaves the other total alone; a refused move adds
      nothing. */
  lemma PlayClock(d: GameData, row: int, col: int, now: int, win: WinCheck)
    requires Consistent(d)
    ensures var (s, result) := Play(d, row, col, now, win);
      && (result.success && d.currentPlayer == Black ==>
            s.blackTotalTime == d.blackTotalTime + (now - d.moveStartTime) && s.whiteTotalTime == d.whiteTotalTime)
      && (result.success && d.currentPlayer == White ==>
            s.whiteTotalTime == d.whiteTotalTime + (now - d.moveStartTime) && s.blackTotalTime == d.blackTotalTime)
      && (!result.success ==> s.blackTotalTime == d.blackTotalTime && s.whiteTotalTime == d.whiteTotalTime)
  {
  }

  /** makeMove keeps the invariant, given a win check that fits the mover. */
  lemma PlayConsistent(d: GameData, row: int, col: int, now: int, win: WinCheck)
    requires Consistent(d) && WinFor(win, d.currentPlayer)
    ensures Consistent(Play(d, row, col, now, win).0)
  {
    if Rejection(d, row, col).None? {
      var m := MoveRecord(row, col, d.currentPlayer, now);
      var h := d.history + [m];
      OccupiedIffPlayed(d.history, row, col);
      assert OnBoard(h);
      assert DistinctCells(h) by {
        forall i, j | 0 <= i < j < |h|
          ensures h[i].row != h[j].row || h[i].col != h[j].col
        {
          if j == |d.history| {
            assert h[i] == d.history[i];
          }
        }
      }
      assert Alternates(h);
      assert Consistent(Play(d, row, col, now, win).0);
    }
  }

  /** Once an accepted stone is recorded, on a board `b` that replays the new
      history, the win check of `b` fits the player who moved, and the state
      makeMove reaches keeps the invariant on `b`. */
  lemma PlaceKeepsInvariant(b: array2<Player>, d: GameData, row: int, col: int, now: int)
    requires WellFormed(b) && Consistent(d) && Rejection(d, row, col).None?
    requires BoardMatches(b, Place(d, row, col, now).history)
    ensures var win := WinScan(b, row, col);
      WinFor(win, d.currentPlayer) && Inv(b, Play(d, row, col, now, win).0)
  {
    OccupantAppend(d.history, MoveRecord(row, col, d.currentPlayer, now), row, col);
    assert b[row, col] == d.currentPlayer;
    var win := WinScan(b, row, col);
    WinScanSound(b, row, col);
    PlayConsistent(d, row, col, now, win);
  }

  /** undo is accepted exactly when there is a move and the game is in
      progress; a refused undo changes nothing. An accepted one drops the last
      entry, clears its cell and nothing else, hands the turn back to its
      player and restarts the clock; the accumulated times stay. */
  lemma UnplayEffect(d: GameData, now: int)
    requires Consistent(d)
    ensures var (s, ok) := Unplay(d, now);
      && (ok <==> |d.history| > 0 && d.gameStatus == Playing)
      && (!ok ==> s == d)
      && (ok ==>
            var undone := d.history[|d.history| - 1];
            && d.history == s.history + [undone]
            && s.moveCount == d.moveCount - 1
            && s.currentPlayer == undone.player
            && s.gameStatus == Playing && s.winningLine.None?
            && s.moveStartTime == now
            && s.blackTotalTime == d.blackTotalTime && s.whiteTotalTime == d.whiteTotalTime
            && Occupant(s.history, undone.row, undone.col) == Nobody
            && forall r, c :: (r != undone.row || c != undone.col) ==>
                 Occupant(s.history, r, c) == Occupant(d.history, r, c))
  {
    var (s, ok) := Unplay(d, now);
    if ok {
      var undone := d.history[|d.history| - 1];
      assert d.history == s.history + [undone];
      OccupantAbsent(s.history, undone.row, undone.col);
    }
  }

  /** undo keeps the invariant. */
  lemma UnplayConsistent(d: GameData, now: int)
    requires Consistent(d)
    ensures Consistent(Unplay(d, now).0)
  {
    var (s, ok) := Unplay(d, now);
    if ok {
      assert s.history == d.history[..|d.history| - 1];
      assert Consistent(s);
    }
  }

  /** Undoing a move that left the game in progress restores the history,
      move count, turn, last move and status the game had before it. */
  lemma PlayThenUnplay(d: GameData, row: int, col: int, t1: int, t2: int, win: WinCheck)
    requires Consistent(d) && WinFor(win, d.currentPlayer)
    requires Play(d, row, col, t1, win).1.success
    requires Play(d, row, col, t1, win).0.gameStatus == Playing
    ensures var (s, ok) := Unplay(Play(d, row, col, t1, win).0, t2);
      && ok
      && s.history == d.history && s.moveCount == d.moveCount
      && s.currentPlayer == d.currentPlayer && s.lastMove == d.lastMove
      && s.gameStatus == d.gameStatus && s.winningLine == d.winningLine
  {
    var m := Play(d, row, col, t1, win).0;
    assert m.history[..|m.history| - 1] == d.history;
    assert m.history[|m.history| - 1].player == d.currentPlayer;
  }

  /** A finished game is final: makeMove and undo leave it as it is. */
  lemma GameOverIsFinal(d: GameData, row: int, col: int, now: int, win: WinCheck)
    requires d.gameStatus != Playing
    ensures Play(d, row, col, now, win).0 == d && !Play(d, row, col, now, win).1.success
    ensures Unplay(d, now) == (d, false)
  {
  }
}
