/** The move history and what it determines: the stone on each cell, the last
    move and the number of moves of each player. */
module MoveHistory {
  import opened GomokuTypes

  /** Every entry names a cell of the board. */
  predicate OnBoard(h: seq<MoveRecord>)
  {
    forall i :: 0 <= i < |h| ==> IsValidPosition(h[i].row, h[i].col)
  }

  /** No cell is played twice. */
  predicate DistinctCells(h: seq<MoveRecord>)
  {
    forall i, j :: 0 <= i < j < |h| ==> h[i].row != h[j].row || h[i].col != h[j].col
  }

  /** Black made the first move and the players took turns. */
  predicate Alternates(h: seq<MoveRecord>)
  {
    forall i :: 0 <= i < |h| ==> h[i].player == PlayerAt(i)
  }

  /** The stone that replaying `h` on an empty board leaves on (r, c). */
  function Occupant(h: seq<MoveRecord>, r: int, c: int): Player
  {
    if h == [] then Nobody
    else if h[|h| - 1].row == r && h[|h| - 1].col == c then h[|h| - 1].player
    else Occupant(h[..|h| - 1], r, c)
  }

  /** The cell of the last entry, if any: how the engine derives its last move. */
  function LastPos(h: seq<MoveRecord>): (r: Option<Pos>)
    ensures r.None? <==> |h| == 0
  {
    if h == [] then None else Some(Pos(h[|h| - 1].row, h[|h| - 1].col))
  }

  /** The number of entries made by `p` (the length of history.filter). */
  function CountBy(h: seq<MoveRecord>, p: Player): nat
  {
    if h == [] then 0
    else CountBy(h[..|h| - 1], p) + (if h[|h| - 1].player == p then 1 else 0)
  }

  /** Appending an entry changes the replayed stone of its own cell only. */
  lemma OccupantAppend(h: seq<MoveRecord>, m: MoveRecord, r: int, c: int)
    ensures Occupant(h + [m], r, c) == if m.row == r && m.col == c then m.player else Occupant(h, r, c)
  {
    assert (h + [m])[..|h|] == h;
  }

  /** A cell no entry names is empty after the replay. */
  lemma {:induction false} OccupantAbsent(h: seq<MoveRecord>, r: int, c: int)
    requires forall i :: 0 <= i < |h| ==> h[i].row != r || h[i].col != c
    ensures Occupant(h, r, c) == Nobody
  {
    if h != [] {
      OccupantAbsent(h[..|h| - 1], r, c);
    }
  }

  /** With distinct cells, the replay leaves each entry's stone on its cell. */
  lemma {:induction false} OccupantOf(h: seq<MoveRecord>, i: int)
    requires DistinctCells(h) && 0 <= i < |h|
    ensures Occupant(h, h[i].row, h[i].col) == h[i].player
  {
    if i < |h| - 1 {
      OccupantOf(h[..|h| - 1], i);
    }
  }

  /** In an alternating history of distinct cells, a cell is occupied exactly
      when some entry played it, and then by that entry's player. */
  lemma OccupiedIffPlayed(h: seq<MoveRecord>, r: int, c: int)
    requires DistinctCells(h) && Alternates(h)
    ensures Occupant(h, r, c) != Nobody <==> exists i :: 0 <= i < |h| && h[i].row == r && h[i].col == c
    ensures forall i :: 0 <= i < |h| && h[i].row == r && h[i].col == c ==> Occupant(h, r, c) == h[i].player
  {
    if exists i :: 0 <= i < |h| && h[i].row == r && h[i].col == c {
      var i :| 0 <= i < |h| && h[i].row == r && h[i].col == c;
      OccupantOf(h, i);
    } else {
      OccupantAbsent(h, r, c);
    }
    forall i | 0 <= i < |h| && h[i].row == r && h[i].col == c
      ensures Occupant(h, r, c) == h[i].player
    {
      OccupantOf(h, i);
    }
  }

  /** In an alternating history Black has made half the moves rounded up,
      White half rounded down, and nobody else any. */
  lemma {:induction false} CountAlternating(h: seq<MoveRecord>)
    requires Alternates(h)
    ensures CountBy(h, Black) == (|h| + 1) / 2
    ensures CountBy(h, White) == |h| / 2
    ensures CountBy(h, Nobody) == 0
  {
    if h != [] {
      CountAlternating(h[..|h| - 1]);
    }
  }

  /** The cells the entries of `h` name. */
  function Cells(h: seq<MoveRecord>): set<Pos>
  {
    if h == [] then {} else Cells(h[..|h| - 1]) + {Pos(h[|h| - 1].row, h[|h| - 1].col)}
  }

  /** A cell is in Cells(h) exactly when some entry names it. */
  lemma {:induction false} CellsMembers(h: seq<MoveRecord>, q: Pos)
    ensures q in Cells(h) <==> exists i :: 0 <= i < |h| && Pos(h[i].row, h[i].col) == q
  {
    if h != [] {
      var h' := h[..|h| - 1];
      CellsMembers(h', q);
      if q in Cells(h') {
        var i :| 0 <= i < |h'| && Pos(h'[i].row, h'[i].col) == q;
        assert h[i] == h'[i];
      }
      if exists i :: 0 <= i < |h| && Pos(h[i].row, h[i].col) == q {
        var i :| 0 <= i < |h| && Pos(h[i].row, h[i].col) == q;
        if i < |h'| {
          assert h'[i] == h[i];
        }
      }
    }
  }

  /** Distinct entries name as many cells as there are entries. */
  lemma {:induction false} CellsCount(h: seq<MoveRecord>)
    requires DistinctCells(h)
    ensures |Cells(h)| == |h|
  {
    if h != [] {
      var h' := h[..|h| - 1];
      var last := Pos(h[|h| - 1].row, h[|h| - 1].col);
      assert DistinctCells(h') by {
        forall i, j | 0 <= i < j < |h'|
          ensures h'[i].row != h'[j].row || h'[i].col != h'[j].col
        {
          assert h'[i] == h[i] && h'[j] == h[j];
        }
      }
      CellsCount(h');
      forall i | 0 <= i < |h'|
        ensures Pos(h'[i].row, h'[i].col) != last
      {
        assert h'[i] == h[i];
      }
      CellsMembers(h', last);
    }
  }

  /** The cells (r, 0) .. (r, m - 1). */
  function RowCells(r: int, m: nat): set<Pos>
  {
    if m == 0 then {} else RowCells(r, m - 1) + {Pos(r, m - 1)}
  }

  /** The cells of the first `n` rows of the board. */
  function Rows(n: nat): set<Pos>
  {
    if n == 0 then {} else Rows(n - 1) + RowCells(n - 1, BoardSize)
  }

  /** The cells of the first `n` rows of the board, as a comprehension. */
  function Grid(n: nat): set<Pos>
  {
    set r, c | 0 <= r < n && 0 <= c < BoardSize :: Pos(r, c)
  }

  /** Every cell of the board. */
  function BoardCells(): set<Pos>
  {
    Grid(BoardSize)
  }

  lemma {:induction false} RowCellsShape(r: int, m: nat)
    ensures |RowCells(r, m)| == m
    ensures forall q :: q in RowCells(r, m) <==> q.row == r && 0 <= q.col < m
  {
    if m > 0 {
      RowCellsShape(r, m - 1);
      assert Pos(r, m - 1) !in RowCells(r, m - 1);
    }
  }

  lemma {:induction false} RowsMembers(n: nat)
    ensures forall q :: q in Rows(n) <==> 0 <= q.row < n && 0 <= q.col < BoardSize
  {
    if n > 0 {
      RowsMembers(n - 1);
      RowCellsShape(n - 1, BoardSize);
    }
  }

  /** Each row adds BoardSize new cells. */
  lemma RowsGrow(n: nat)
    requires n > 0
    ensures |Rows(n)| == |Rows(n - 1)| + BoardSize
  {
    var above, row := Rows(n - 1), RowCells(n - 1, BoardSize);
    RowsMembers(n - 1);
    RowCellsShape(n - 1, BoardSize);
    assert above * row == {} by {
      forall q | q in above
        ensures q !in row
      {
      }
    }
  }

  lemma {:induction false} RowsCount(n: nat)
    ensures |Rows(n)| == n * BoardSize
  {
    if n > 0 {
      RowsCount(n - 1);
      RowsGrow(n);
    }
  }

  lemma RowsAreGrid(n: nat)
    ensures Rows(n) == Grid(n)
  {
    RowsMembers(n);
    forall q | q in Rows(n)
      ensures q in Grid(n)
    {
      assert q == Pos(q.row, q.col);
    }
    forall q | q in Grid(n)
      ensures q in Rows(n)
    {
      var r, c :| 0 <= r < n && 0 <= c < BoardSize && q == Pos(r, c);
    }
  }

  /** The first `n` rows hold n * BoardSize cells. */
  lemma GridShape(n: nat)
    ensures |Grid(n)| == n * BoardSize
    ensures forall q: Pos :: q in Grid(n) <==> 0 <= q.row < n && 0 <= q.col < BoardSize
  {
    RowsCount(n);
    RowsAreGrid(n);
    forall q: Pos | 0 <= q.row < n && 0 <= q.col < BoardSize
      ensures q in Grid(n)
    {
      assert q == Pos(q.row, q.col);
    }
  }

  /** The board has BoardSize * BoardSize cells, the valid positions. */
  lemma BoardCellsShape()
    ensures |BoardCells()| == MaxMoves
    ensures forall q :: q in BoardCells() <==> IsValidPosition(q.row, q.col)
  {
    GridShape(BoardSize);
  }

  /** A subset as large as its superset is the whole superset. */
  lemma SubsetOfSameSize<T>(a: set<T>, b: set<T>)
    requires a <= b && |a| == |b|
    ensures a == b
  {
    assert b == a + (b - a);
    assert a * (b - a) == {};
    assert |b - a| == 0;
  }

  /** Pigeonhole: distinct cells of the board, as many as the board has,
      are all of its cells. */
  lemma PlayedIsBoard(h: seq<MoveRecord>)
    requires OnBoard(h) && DistinctCells(h) && |h| == MaxMoves
    ensures Cells(h) == BoardCells()
  {
    BoardCellsShape();
    CellsCount(h);
    forall q | q in Cells(h)
      ensures q in BoardCells()
    {
      CellsMembers(h, q);
    }
    SubsetOfSameSize(Cells(h), BoardCells());
  }

  /** Once the history has played every cell, each cell holds a stone. */
  lemma CellFilled(h: seq<MoveRecord>, r: int, c: int)
    requires DistinctCells(h) && Alternates(h) && Cells(h) == BoardCells()
    requires IsValidPosition(r, c)
    ensures Occupant(h, r, c) != Nobody
  {
    BoardCellsShape();
    assert Pos(r, c) in Cells(h);
    CellsMembers(h, Pos(r, c));
    var i :| 0 <= i < |h| && Pos(h[i].row, h[i].col) == Pos(r, c);
    OccupantOf(h, i);
  }

  /** A history of distinct cells on the board with as many entries as the
      board has cells leaves a stone on every cell. */
  lemma FullHistoryFillsBoard(h: seq<MoveRecord>)
    requires OnBoard(h) && DistinctCells(h) && Alternates(h) && |h| == MaxMoves
    ensures forall r, c :: IsValidPosition(r, c) ==> Occupant(h, r, c) != Nobody
  {
    PlayedIsBoard(h);
    forall r, c | IsValidPosition(r, c)
      ensures Occupant(h, r, c) != Nobody
    {
      CellFilled(h, r, c);
    }
  }
}
