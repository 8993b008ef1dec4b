/** Values of the five-in-a-row engine: players, statuses, positions, move
    records, directions, winning lines, move results and the configuration. */
module GomokuTypes {

  /** The board is always BoardSize x BoardSize; five in a row wins. */
  const BoardSize: int := 15
  const WinCount: int := 5
  /** Number of cells, i.e. the move count at which a non-winning move draws. */
  const MaxMoves: int := BoardSize * BoardSize

  datatype Option<+T> = None | Some(value: T)

  /** A cell value and a player at once: `Nobody` is the empty cell. */
  datatype Player = Nobody | Black | White

  /** The player who moves after `p`: White after Black, Black otherwise. */
  function Opponent(p: Player): Player
  {
    if p == Black then White else Black
  }

  /** The player who places the stone with index `i` (from 0) of a game:
      Black opens and the turns alternate. */
  function PlayerAt(i: nat): (p: Player)
    ensures p != Nobody
  {
    if i % 2 == 0 then Black else White
  }

  datatype GameStatus = Playing | BlackWin | WhiteWin | Draw

  /** The status a winning move of `p` produces. */
  function WinStatus(p: Player): GameStatus
  {
    if p == Black then BlackWin else WhiteWin
  }

  /** The winner a status names, `Nobody` for `Playing` and `Draw`. */
  function StatusWinner(s: GameStatus): Player
  {
    match s
    case BlackWin => Black
    case WhiteWin => White
    case _ => Nobody
  }

  datatype Pos = Pos(row: int, col: int)

  /** One entry of the move history; `timestamp` is the clock reading of the move. */
  datatype MoveRecord = MoveRecord(row: int, col: int, player: Player, timestamp: int)

  /** The four axes of the win scan, each with its unit step (dr, dc). */
  datatype Direction = Horizontal | Vertical | DiagonalRight | DiagonalLeft
  {
    function DR(): int
    {
      if this == Horizontal then 0 else 1
    }

    function DC(): int
    {
      match this
      case Horizontal => 1
      case Vertical => 0
      case DiagonalRight => 1
      case DiagonalLeft => -1
    }
  }

  /** The order in which the win scan tries the axes. */
  const Directions: seq<Direction> := [Horizontal, Vertical, DiagonalRight, DiagonalLeft]

  datatype WinningLine = WinningLine(positions: seq<Pos>, direction: Direction)

  /** What `makeMove` reports: `message` only on failure, `winner` and
      `winningLine` only on a winning move. */
  datatype MoveResult = MoveResult(
    success: bool,
    message: Option<string>,
    winner: Option<Player>,
    gameStatus: GameStatus,
    winningLine: Option<WinningLine>)

  const GameOverMessage: string := "Game is already over"
  const InvalidPositionMessage: string := "Invalid position"
  const OccupiedMessage: string := "Position already occupied"

  /** `timePerMove` is in seconds, 0 meaning unlimited; neither field affects play. */
  datatype GameConfig = GameConfig(timePerMove: int, enableSound: bool)

  /** A partial configuration: `None` is a field the caller left out. */
  datatype ConfigUpdate = ConfigUpdate(timePerMove: Option<int>, enableSound: Option<bool>)

  /** The configuration the constructor stores for the options it is given:
      a missing time limit becomes 0 (unlimited), sound is on unless it is
      explicitly switched off. */
  function InitialConfig(u: ConfigUpdate): GameConfig
  {
    GameConfig(
      match u.timePerMove { case Some(t) => t case None => 0 },
      match u.enableSound { case Some(false) => false case _ => true })
  }

  /** The configuration after merging the fields present in `u` over `c`. */
  function MergeConfig(c: GameConfig, u: ConfigUpdate): GameConfig
  {
    GameConfig(
      match u.timePerMove { case Some(t) => t case None => c.timePerMove },
      match u.enableSound { case Some(s) => s case None => c.enableSound })
  }

  /** The constructor's defaults are the merge of the options over a time
      limit of 0 and sound switched on. */
  lemma InitialConfigDefaults(u: ConfigUpdate)
    ensures InitialConfig(u) == MergeConfig(GameConfig(0, true), u)
  {
  }

  /** Merging an empty update changes nothing, and merging the same update
      twice is merging it once. */
  lemma MergeConfigLaws(c: GameConfig, u: ConfigUpdate)
    ensures MergeConfig(c, ConfigUpdate(None, None)) == c
    ensures MergeConfig(MergeConfig(c, u), u) == MergeConfig(c, u)
  {
  }

  /** Per-player statistics: the moves in the history and the accumulated time. */
  datatype PlayerStats = PlayerStats(totalMoves: nat, totalTime: int)

  /** True when (row, col) lies on the board. */
  predicate IsValidPosition(row: int, col: int)
  {
    0 <= row < BoardSize && 0 <= col < BoardSize
  }
}
