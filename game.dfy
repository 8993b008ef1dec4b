/** The five-in-a-row engine: one game on a 15 x 15 board, its move history,
    its status and whose turn it is, updated in place by moves, undo and reset. */
module Gomoku {
  import opened GomokuTypes
  import opened LineScan
  import opened MoveHistory
  import opened GameState

  class GomokuGame {
    var board: array2<Player>
    var currentPlayer: Player
    var gameStatus: GameStatus
    var lastMove: Option<Pos>
    var moveCount: int
    var history: seq<MoveRecord>
    var winningLine: Option<WinningLine>
    var config: GameConfig
    // clock readings and accumulated thinking time, in milliseconds
    var moveStartTime: int
    var blackTotalTime: int
    var whiteTotalTime: int

    /** The fields other than the board, as one value. */
    ghost function Data(): GameData
      reads this
    {
      GameData(currentPlayer, gameStatus, lastMove, moveCount, history, winningLine,
               config, moveStartTime, blackTotalTime, whiteTotalTime)
    }

    /** The object invariant: the state is consistent, the board is what
        replaying the history gives, and a stored winning line lies on it. */
    ghost predicate Valid()
      reads this, board
    {
      Inv(board, Data())
    }

    constructor (options: ConfigUpdate, now: int)
      ensures Valid() && fresh(board)
      ensures Data() == InitialData(InitialConfig(options), now)
    {
      config := InitialConfig(options);
      board := new Player[BoardSize, BoardSize]((r, c) => Nobody);
      currentPlayer := Black;
      gameStatus := Playing;
      lastMove := None;
      moveCount := 0;
      history := [];
      winningLine := None;
      moveStartTime := now;
      blackTotalTime := 0;
      whiteTotalTime := 0;
    }

    /** Places the current player's stone on (row, col) at clock reading `now`,
        as Play describes: refusals change nothing; an accepted stone is
        recorded and timed, then the win check of the new board decides
        between a win, a draw and passing the turn. */
    method MakeMove(row: int, col: int, now: int) returns (result: MoveResult)
      requires Valid()
      modifies this, board
      ensures Valid() && board == old(board)
      ensures var win := if IsValidPosition(row, col) then WinScan(board, row, col) else WinCheck(Nobody, None);
        (Data(), result) == Play(old(Data()), row, col, now, win)
    {
      if gameStatus != Playing {
        return MoveResult(false, Some(GameOverMessage), None, gameStatus, None);
      }
      if !IsValidPosition(row, col) {
        return MoveResult(false, Some(InvalidPositionMessage), None, gameStatus, None);
      }
      if board[row, col] != Nobody {
        return MoveResult(false, Some(OccupiedMessage), None, gameStatus, None);
      }

      ghost var d := Data();
      RecordStone(row, col, now);
      var winResult := CheckWinWithLine(row, col);
      PlaceKeepsInvariant(board, d, row, col, now);
      result := Settle(d, row, col, now, winResult);
    }

    /** The outcome of an accepted stone, once it is recorded and the win
        check `win` has run: a win ends the game with its line, a full board
        ends it in a draw, otherwise the turn and the clock pass on. */
    method Settle(ghost d: GameData, row: int, col: int, now: int, win: WinCheck) returns (result: MoveResult)
      requires Rejection(d, row, col).None? && Data() == Place(d, row, col, now)
      requires Inv(board, Play(d, row, col, now, win).0)
      modifies this`gameStatus, this`winningLine, this`currentPlayer, this`moveStartTime
      ensures Valid()
      ensures (Data(), result) == Play(d, row, col, now, win)
    {
      if win.winner != Nobody {
        gameStatus := if win.winner == Black then BlackWin else WhiteWin;
        winningLine := win.line;
        return MoveResult(true, None, Some(win.winner), gameStatus, winningLine);
      }

      if moveCount == MaxMoves {
        gameStatus := Draw;
        return MoveResult(true, None, None, gameStatus, None);
      }

      currentPlayer := if currentPlayer == Black then White else Black;
      moveStartTime := now;
      return MoveResult(true, None, None, gameStatus, None);
    }

    /** The bookkeeping of an accepted stone: the time since the turn began
        goes to the mover, the stone goes on the board and the move into the
        history. */
    method RecordStone(row: int, col: int, now: int)
      requires Valid() && Rejection(Data(), row, col).None?
      modifies this, board
      ensures WellFormed(board) && board == old(board)
      ensures Data() == Place(old(Data()), row, col, now)
      ensures BoardMatches(board, history)
    {
      ghost var h := history;
      var moveTime := now - moveStartTime;
      if currentPlayer == Black {
        blackTotalTime := blackTotalTime + moveTime;
      } else {
        whiteTotalTime := whiteTotalTime + moveTime;
      }

      var move := MoveRecord(row, col, currentPlayer, now);
      board[row, col] := currentPlayer;
      lastMove := Some(Pos(row, col));
      moveCount := moveCount + 1;
      history := history + [move];

      forall r, c | IsValidPosition(r, c)
        ensures board[r, c] == Occupant(history, r, c)
      {
        OccupantAppend(h, move, r, c);
      }
    }

    /** Takes back the last move at clock reading `now`, as Unplay describes,
        and clears its cell. */
    method Undo(now: int) returns (ok: bool)
      requires Valid()
      modifies this, board
      ensures Valid() && board == old(board)
      ensures (Data(), ok) == Unplay(old(Data()), now)
    {
      if |history| == 0 || gameStatus != Playing {
        return false;
      }

      ghost var d := Data();
      UnplayEffect(d, now);
      UnplayConsistent(d, now);
      var undone := history[|history| - 1];
      history := history[..|history| - 1];
      board[undone.row, undone.col] := Nobody;
      moveCount := moveCount - 1;

      currentPlayer := undone.player;

      lastMove := if |history| > 0
        then Some(Pos(history[|history| - 1].row, history[|history| - 1].col))
        else None;

      moveStartTime := now;
      return true;
    }

    /** The win check after a stone on (row, col): the first axis, in the order
        horizontal, vertical, diagonal-right, diagonal-left, whose line through
        (row, col) holds at least five stones. */
    method CheckWinWithLine(row: int, col: int) returns (result: WinCheck)
      requires WellFormed(board) && IsValidPosition(row, col)
      ensures result == WinScan(board, row, col)
    {
      var player := board[row, col];
      if player == Nobody {
        return WinCheck(Nobody, None);
      }

      ghost var lines := AxisLines(board, row, col, player);
      for i := 0 to |Directions|
        invariant FirstLong(lines, player, i) == WinScan(board, row, col)
      {
        var d := Directions[i];
        var line := GetWinningLineInDirection(row, col, d.DR(), d.DC(), player);
        if |line| >= WinCount {
          return WinCheck(player, Some(WinningLine(line, d)));
        }
      }

      return WinCheck(Nobody, None);
    }

    /** The line through (row, col) along (dr, dc): (row, col) itself, the run
        of `player`'s stones ahead of it appended, then the run behind it
        prepended. */
    method GetWinningLineInDirection(row: int, col: int, dr: int, dc: int, player: Player)
      returns (positions: seq<Pos>)
      requires WellFormed(board) && IsStep(dr, dc)
      ensures positions == Line(board, row, col, dr, dc, player)
    {
      positions := [Pos(row, col)];
      positions := AppendAhead(row, col, dr, dc, player, positions);
      positions := PrependBehind(row, col, dr, dc, player, positions);
    }

    /** The first walk of getWinningLineInDirection: from the cell after
        (row, col), appends `player`'s stones to `positions` until a cell is
        off the board or not `player`'s. */
    method AppendAhead(row: int, col: int, dr: int, dc: int, player: Player, positions: seq<Pos>)
      returns (extended: seq<Pos>)
      requires WellFormed(board) && IsStep(dr, dc)
      ensures extended == positions + ForwardRay(board, row, col, dr, dc, player)
    {
      var b := board;
      extended := positions;
      var r, c := row + dr, col + dc;
      while IsValidPosition(r, c) && b[r, c] == player
        invariant extended + Ray(b, Pos(r, c), dr, dc, player)
          == positions + ForwardRay(b, row, col, dr, dc, player)
        decreases Budget(Pos(r, c), dr, dc)
      {
        WalkAhead(b, r, c, dr, dc, player, extended, positions + ForwardRay(b, row, col, dr, dc, player));
        extended := extended + [Pos(r, c)];
        r, c := r + dr, c + dc;
      }
      RayStops(b, r, c, dr, dc, player);
    }

    /** The second walk of getWinningLineInDirection: from the cell before
        (row, col), prepends `player`'s stones to `positions` until a cell is
        off the board or not `player`'s. */
    method PrependBehind(row: int, col: int, dr: int, dc: int, player: Player, positions: seq<Pos>)
      returns (extended: seq<Pos>)
      requires WellFormed(board) && IsStep(dr, dc)
      ensures extended == Reverse(BackRay(board, row, col, dr, dc, player)) + positions
    {
      var b := board;
      ghost var whole := Reverse(BackRay(b, row, col, dr, dc, player)) + positions;
      extended := positions;
      var r, c := row - dr, col - dc;
      BackRayStart(b, row, col, dr, dc, player);
      while IsValidPosition(r, c) && b[r, c] == player
        invariant ReversedRay(b, Pos(r, c), -dr, -dc, player) + extended == whole
        decreases Budget(Pos(r, c), -dr, -dc)
      {
        WalkBehind(b, r, c, dr, dc, player, extended, whole);
        extended := [Pos(r, c)] + extended;
        r, c := r - dr, c - dc;
      }
      WalkBehindStops(b, r, c, dr, dc, player, extended, whole);
    }

    /** The number of `player`'s stones in a row just past (row, col) along
        (dr, dc). Nothing in the engine calls it. */
    method CountDirection(row: int, col: int, dr: int, dc: int, player: Player) returns (count: int)
      requires WellFormed(board) && IsStep(dr, dc)
      ensures count == |ForwardRay(board, row, col, dr, dc, player)|
    {
      var b := board;
      count := 0;
      var r, c := row + dr, col + dc;
      while IsValidPosition(r, c) && b[r, c] == player
        invariant count + |Ray(b, Pos(r, c), dr, dc, player)| == |ForwardRay(b, row, col, dr, dc, player)|
        decreases Budget(Pos(r, c), dr, dc)
      {
        CountAhead(b, r, c, dr, dc, player);
        count := count + 1;
        r, c := r + dr, c + dc;
      }
      RayStops(b, r, c, dr, dc, player);
    }

    /** A copy of the board: the stones that replaying the history leaves. */
    function GetBoardState(): (cells: seq<seq<Player>>)
      reads this, board
      requires Valid()
      ensures |cells| == BoardSize
      ensures forall r :: 0 <= r < BoardSize ==> |cells[r]| == BoardSize
      ensures forall r, c :: IsValidPosition(r, c) ==> cells[r][c] == Occupant(history, r, c)
    {
      var b := board;
      seq(BoardSize, r requires 0 <= r < b.Length0 reads b =>
        seq(BoardSize, c requires 0 <= c < b.Length1 reads b => b[r, c]))
    }

    /** The player to move: after the last move while the game is on, the
        player who ended it once it is over. */
    function GetCurrentPlayer(): (p: Player)
      reads this, board
      requires Valid()
      ensures p != Nobody
      ensures gameStatus == Playing ==> p == PlayerAt(moveCount)
      ensures gameStatus != Playing ==> moveCount > 0 && p == PlayerAt(moveCount - 1)
    {
      currentPlayer
    }

    /** The status: a win exactly when a winning line is stored, and then
        the win of the player who made the last move; a draw only on a full
        board. */
    function GetGameStatus(): (st: GameStatus)
      reads this, board
      requires Valid()
      ensures st == BlackWin || st == WhiteWin <==> winningLine.Some?
      ensures st == BlackWin || st == WhiteWin ==> StatusWinner(st) == history[moveCount - 1].player
      ensures st == Draw ==> moveCount == MaxMoves
      ensures st == Playing ==> moveCount < MaxMoves
      ensures st == Draw ==> forall r, c :: IsValidPosition(r, c) ==> board[r, c] != Nobody
    {
      if gameStatus == Draw then DrawFillsBoard(board, Data()); gameStatus else gameStatus
    }

    /** The game is over exactly when someone has won (and a winning line is
        stored) or the board is full. */
    function IsGameOver(): (over: bool)
      reads this, board
      requires Valid()
      ensures over <==> winningLine.Some? || gameStatus == Draw
      ensures gameStatus == Draw ==> moveCount == MaxMoves
      ensures gameStatus == Draw ==> forall r, c :: IsValidPosition(r, c) ==> board[r, c] != Nobody
    {
      if gameStatus == Draw then DrawFillsBoard(board, Data()); gameStatus != Playing else gameStatus != Playing
    }

    /** The cell of the latest move, none before the first one. */
    function GetLastMove(): (m: Option<Pos>)
      reads this, board
      requires Valid()
      ensures m.None? <==> moveCount == 0
      ensures m.Some? ==> m.value == Pos(history[moveCount - 1].row, history[moveCount - 1].col)
    {
      lastMove
    }

    /** The winning line, present exactly after a win, and then a maximal
        run of the winner's stones through the last move. */
    function GetWinningLine(): (wl: Option<WinningLine>)
      reads this, board
      requires Valid()
      ensures wl.Some? <==> gameStatus == BlackWin || gameStatus == WhiteWin
      ensures wl.Some? ==>
        && |wl.value.positions| >= WinCount
        && IsMaximalRun(board, wl.value.positions, wl.value.direction.DR(), wl.value.direction.DC(), StatusWinner(gameStatus))
        && lastMove.Some? && lastMove.value in wl.value.positions
    {
      winningLine
    }

    /** The history: distinct cells on the board, Black first and
        then in turn, and it replays to the board. */
    function GetHistory(): (h: seq<MoveRecord>)
      reads this, board
      requires Valid()
      ensures |h| == moveCount
      ensures OnBoard(h) && DistinctCells(h) && Alternates(h)
      ensures forall r, c :: IsValidPosition(r, c) ==> Occupant(h, r, c) == board[r, c]
    {
      history
    }

    /** The moves of `player` in the history and its accumulated time (that of
        White for any player other than Black). Since turns alternate, Black
        has made half the moves rounded up and White the rest. */
    function GetPlayerStats(player: Player): (s: PlayerStats)
      reads this, board
      requires Valid()
      ensures s.totalMoves == CountBy(history, player)
      ensures s.totalMoves == if player == Black then (moveCount + 1) / 2
                              else if player == White then moveCount / 2
                              else 0
      ensures s.totalTime == if player == Black then blackTotalTime else whiteTotalTime
    {
      CountAlternating(history);
      PlayerStats(CountBy(history, player), if player == Black then blackTotalTime else whiteTotalTime)
    }

    /** Time since the current turn began at clock reading `now`; 0 once the
        game is over. It is the time a move accepted at `now` adds to the
        mover's total. */
    function GetCurrentMoveTime(now: int): (t: int)
      reads this
      ensures gameStatus != Playing ==> t == 0
      ensures forall row, col, win :: Play(Data(), row, col, now, win).1.success ==>
        TotalTime(Play(Data(), row, col, now, win).0, currentPlayer) == TotalTime(Data(), currentPlayer) + t
    {
      if gameStatus != Playing then 0 else now - moveStartTime
    }

    function GetConfig(): GameConfig
      reads this
    {
      config
    }

    /** The board dimension: the valid positions are the n * n cells whose
        coordinates lie below n, as many as the moves that fill the board. */
    function GetBoardSize(): (n: int)
      ensures n == BoardSize
      ensures |BoardCells()| == n * n == MaxMoves
      ensures forall q :: q in BoardCells() <==> 0 <= q.row < n && 0 <= q.col < n
    {
      BoardCellsShape();
      BoardSize
    }

    /** Overrides the configuration fields present in `update`; nothing else changes. */
    method UpdateConfig(update: ConfigUpdate)
      requires Valid()
      modifies this`config
      ensures Valid()
      ensures Data() == old(Data()).(config := MergeConfig(old(config), update))
    {
      config := MergeConfig(config, update);
    }

    /** Starts a new game on a fresh empty board at clock reading `now`,
        keeping the configuration. */
    method Reset(now: int)
      modifies this
      ensures Valid() && fresh(board)
      ensures Data() == InitialData(old(config), now)
    {
      var b := new Player[BoardSize, BoardSize]((r, c) => Nobody);
      EmptyBoardInv(b, config, now);
      board := b;
      currentPlayer := Black;
      gameStatus := Playing;
      lastMove := None;
      moveCount := 0;
      history := [];
      winningLine := None;
      moveStartTime := now;
      blackTotalTime := 0;
      whiteTotalTime := 0;
    }
  }
}
