/** The win scan as functions over the board: the run of one player's stones
    through a cell along one axis, and the choice of the first axis whose run
    reaches five. The engine's loops are proved equal to these functions. */
module LineScan {
  import opened GomokuTypes

  predicate WellFormed(b: array2<Player>)
  {
    b.Length0 == BoardSize && b.Length1 == BoardSize
  }

  /** A unit step in one of the eight compass directions. */
  predicate IsStep(dr: int, dc: int)
  {
    -1 <= dr <= 1 && -1 <= dc <= 1 && (dr != 0 || dc != 0)
  }

  function Step(q: Pos, dr: int, dc: int): Pos
  {
    Pos(q.row + dr, q.col + dc)
  }

  /** `k` times a step component `d` of -1, 0 or 1, without multiplying. */
  function Scale(k: int, d: int): int
  {
    if d == 0 then 0 else if d > 0 then k else -k
  }

  /** The cell `k` steps of (dr, dc) away from `q`; `k` may be negative. */
  function At(q: Pos, dr: int, dc: int, k: int): Pos
  {
    Pos(q.row + Scale(k, dr), q.col + Scale(k, dc))
  }

  /** `q` is on the board and holds a stone of `p`. */
  predicate Owns(b: array2<Player>, q: Pos, p: Player)
    reads b
    requires WellFormed(b)
  {
    IsValidPosition(q.row, q.col) && b[q.row, q.col] == p
  }

  /** How many more steps of (dr, dc) can stay on the board from `q`. */
  function Budget(q: Pos, dr: int, dc: int): nat
  {
    if !IsValidPosition(q.row, q.col) then 0
    else if dr == 1 then BoardSize - q.row
    else if dr == -1 then q.row + 1
    else if dc == 1 then BoardSize - q.col
    else q.col + 1
  }

  /** The stones of `p` met by walking from `q` in steps of (dr, dc) until a
      cell is off the board or not `p`'s, in walking order. */
  function Ray(b: array2<Player>, q: Pos, dr: int, dc: int, p: Player): seq<Pos>
    reads b
    requires WellFormed(b) && IsStep(dr, dc)
    decreases Budget(q, dr, dc)
  {
    if Owns(b, q, p) then [q] + Ray(b, Step(q, dr, dc), dr, dc, p) else []
  }

  function Reverse<T>(s: seq<T>): seq<T>
  {
    if s == [] then [] else Reverse(s[1..]) + [s[0]]
  }

  /** One step of the walk: an owned cell heads the ray from it. */
  lemma RayUnfold(b: array2<Player>, q: Pos, dr: int, dc: int, p: Player)
    requires WellFormed(b) && IsStep(dr, dc) && Owns(b, q, p)
    ensures Ray(b, q, dr, dc, p) == [q] + Ray(b, Step(q, dr, dc), dr, dc, p)
  {
  }

  lemma ReverseCons<T>(x: T, s: seq<T>)
    ensures Reverse([x] + s) == Reverse(s) + [x]
  {
    assert ([x] + s)[1..] == s;
  }

  /** Each step along an axis from an owned cell uses up budget. */
  lemma BudgetShrinks(r: int, c: int, dr: int, dc: int)
    requires IsStep(dr, dc) && IsValidPosition(r, c)
    ensures Budget(Pos(r + dr, c + dc), dr, dc) < Budget(Pos(r, c), dr, dc)
  {
  }

  /** A walk that has collected `done` and still has the ray from (r, c)
      ahead of it takes one step: (r, c) moves into `done`. */
  lemma WalkAhead(b: array2<Player>, r: int, c: int, dr: int, dc: int, p: Player, done: seq<Pos>, whole: seq<Pos>)
    requires WellFormed(b) && IsStep(dr, dc) && Owns(b, Pos(r, c), p)
    requires done + Ray(b, Pos(r, c), dr, dc, p) == whole
    ensures (done + [Pos(r, c)]) + Ray(b, Pos(r + dr, c + dc), dr, dc, p) == whole
    ensures Budget(Pos(r + dr, c + dc), dr, dc) < Budget(Pos(r, c), dr, dc)
  {
    var q := Pos(r, c);
    RayUnfold(b, q, dr, dc, p);
    assert Step(q, dr, dc) == Pos(r + dr, c + dc);
    assert done + [q] + Ray(b, Step(q, dr, dc), dr, dc, p) == done + ([q] + Ray(b, Step(q, dr, dc), dr, dc, p));
    BudgetShrinks(r, c, dr, dc);
  }

  /** The count of the ray from an owned (r, c) is one more than that from
      the next cell. */
  lemma CountAhead(b: array2<Player>, r: int, c: int, dr: int, dc: int, p: Player)
    requires WellFormed(b) && IsStep(dr, dc) && Owns(b, Pos(r, c), p)
    ensures |Ray(b, Pos(r, c), dr, dc, p)| == 1 + |Ray(b, Pos(r + dr, c + dc), dr, dc, p)|
    ensures Budget(Pos(r + dr, c + dc), dr, dc) < Budget(Pos(r, c), dr, dc)
  {
    RayUnfold(b, Pos(r, c), dr, dc, p);
    assert Step(Pos(r, c), dr, dc) == Pos(r + dr, c + dc);
    BudgetShrinks(r, c, dr, dc);
  }

  /** The ray from a cell `p` does not own is empty. */
  lemma RayStops(b: array2<Player>, r: int, c: int, dr: int, dc: int, p: Player)
    requires WellFormed(b) && IsStep(dr, dc) && !Owns(b, Pos(r, c), p)
    ensures Ray(b, Pos(r, c), dr, dc, p) == []
  {
  }

  /** The same step for a walk backwards along (dr, dc) that prepends: the
      stones still ahead of the walk come, reversed, in front of `done`. */
  lemma WalkBehind(b: array2<Player>, r: int, c: int, dr: int, dc: int, p: Player, done: seq<Pos>, whole: seq<Pos>)
    requires WellFormed(b) && IsStep(dr, dc) && Owns(b, Pos(r, c), p)
    requires ReversedRay(b, Pos(r, c), -dr, -dc, p) + done == whole
    ensures ReversedRay(b, Pos(r - dr, c - dc), -dr, -dc, p) + ([Pos(r, c)] + done) == whole
    ensures Budget(Pos(r - dr, c - dc), -dr, -dc) < Budget(Pos(r, c), -dr, -dc)
  {
    var q := Pos(r, c);
    var rest := ReversedRay(b, Step(q, -dr, -dc), -dr, -dc, p);
    assert Step(q, -dr, -dc) == Pos(r - dr, c - dc);
    assert ReversedRay(b, q, -dr, -dc, p) == rest + [q];
    assert rest + ([q] + done) == rest + [q] + done;
    BudgetShrinks(r, c, -dr, -dc);
  }

  /** A backward walk that reaches a cell `p` does not own has collected
      everything. */
  lemma WalkBehindStops(b: array2<Player>, r: int, c: int, dr: int, dc: int, p: Player, done: seq<Pos>, whole: seq<Pos>)
    requires WellFormed(b) && IsStep(dr, dc) && !Owns(b, Pos(r, c), p)
    requires ReversedRay(b, Pos(r, c), -dr, -dc, p) + done == whole
    ensures done == whole
  {
    assert ReversedRay(b, Pos(r, c), -dr, -dc, p) == [];
  }

  /** The ray from `q` in reverse walking order, built by prepending. */
  function ReversedRay(b: array2<Player>, q: Pos, dr: int, dc: int, p: Player): seq<Pos>
    reads b
    requires WellFormed(b) && IsStep(dr, dc)
    decreases Budget(q, dr, dc)
  {
    if Owns(b, q, p) then ReversedRay(b, Step(q, dr, dc), dr, dc, p) + [q] else []
  }

  /** Prepending while walking yields the walk reversed. */
  lemma {:induction false} ReversedRayIsReverse(b: array2<Player>, q: Pos, dr: int, dc: int, p: Player)
    requires WellFormed(b) && IsStep(dr, dc)
    ensures ReversedRay(b, q, dr, dc, p) == Reverse(Ray(b, q, dr, dc, p))
    decreases Budget(q, dr, dc)
  {
    if Owns(b, q, p) {
      ReversedRayIsReverse(b, Step(q, dr, dc), dr, dc, p);
      ReverseCons(q, Ray(b, Step(q, dr, dc), dr, dc, p));
    }
  }

  /** The walk behind (row, col) starts one step back from it. */
  lemma BackRayStart(b: array2<Player>, row: int, col: int, dr: int, dc: int, p: Player)
    requires WellFormed(b) && IsStep(dr, dc)
    ensures Reverse(BackRay(b, row, col, dr, dc, p)) == ReversedRay(b, Pos(row - dr, col - dc), -dr, -dc, p)
  {
    assert Step(Pos(row, col), -dr, -dc) == Pos(row - dr, col - dc);
    ReversedRayIsReverse(b, Pos(row - dr, col - dc), -dr, -dc, p);
  }

  /** The run behind (row, col): walking in steps of (-dr, -dc). */
  function BackRay(b: array2<Player>, row: int, col: int, dr: int, dc: int, p: Player): seq<Pos>
    reads b
    requires WellFormed(b) && IsStep(dr, dc)
  {
    Ray(b, Step(Pos(row, col), -dr, -dc), -dr, -dc, p)
  }

  /** The run ahead of (row, col): walking in steps of (dr, dc). */
  function ForwardRay(b: array2<Player>, row: int, col: int, dr: int, dc: int, p: Player): seq<Pos>
    reads b
    requires WellFormed(b) && IsStep(dr, dc)
  {
    Ray(b, Step(Pos(row, col), dr, dc), dr, dc, p)
  }

  /** The line through (row, col) along (dr, dc), from its negative end to its
      positive end: what getWinningLineInDirection returns. */
  function Line(b: array2<Player>, row: int, col: int, dr: int, dc: int, p: Player): seq<Pos>
    reads b
    requires WellFormed(b) && IsStep(dr, dc)
  {
    Reverse(BackRay(b, row, col, dr, dc, p)) + [Pos(row, col)] + ForwardRay(b, row, col, dr, dc, p)
  }

  /** The positions are the cells at 0, 1, 2, ... steps of (dr, dc) from the first. */
  predicate Contiguous(ps: seq<Pos>, dr: int, dc: int)
  {
    forall i :: 0 <= i < |ps| ==> ps[i] == At(ps[0], dr, dc, i)
  }

  /** `ps` is a non-empty contiguous run of `p`'s stones along (dr, dc) that
      cannot be extended at either end. */
  predicate IsMaximalRun(b: array2<Player>, ps: seq<Pos>, dr: int, dc: int, p: Player)
    reads b
    requires WellFormed(b)
  {
    && |ps| > 0
    && (forall i :: 0 <= i < |ps| ==> Owns(b, ps[i], p))
    && Contiguous(ps, dr, dc)
    && !Owns(b, Step(ps[0], -dr, -dc), p)
    && !Owns(b, Step(ps[|ps| - 1], dr, dc), p)
  }

  /** Walking one more step along an axis, forwards or backwards. */
  lemma AtStep(q: Pos, dr: int, dc: int, k: int)
    requires IsStep(dr, dc)
    ensures At(Step(q, dr, dc), dr, dc, k) == At(q, dr, dc, k + 1)
    ensures At(Step(q, -dr, -dc), -dr, -dc, k) == At(q, dr, dc, -(k + 1))
    ensures Step(At(q, dr, dc, k), dr, dc) == At(q, dr, dc, k + 1)
    ensures Step(At(q, dr, dc, k), -dr, -dc) == At(q, dr, dc, k - 1)
  {
  }

  lemma {:induction false} ReverseAt<T>(s: seq<T>)
    ensures |Reverse(s)| == |s|
    ensures forall i :: 0 <= i < |s| ==> Reverse(s)[i] == s[|s| - 1 - i]
  {
    if s != [] {
      ReverseAt(s[1..]);
    }
  }

  /** The ray holds the stones of `p` at 0, 1, 2, ... steps from `q`. */
  lemma {:induction false} RayAt(b: array2<Player>, q: Pos, dr: int, dc: int, p: Player)
    requires WellFormed(b) && IsStep(dr, dc)
    ensures forall i :: 0 <= i < |Ray(b, q, dr, dc, p)| ==>
      Ray(b, q, dr, dc, p)[i] == At(q, dr, dc, i) && Owns(b, At(q, dr, dc, i), p)
    decreases Budget(q, dr, dc)
  {
    if Owns(b, q, p) {
      var q' := Step(q, dr, dc);
      RayAt(b, q', dr, dc, p);
      var rest := Ray(b, q', dr, dc, p);
      assert Ray(b, q, dr, dc, p) == [q] + rest;
      forall i | 0 <= i < |Ray(b, q, dr, dc, p)|
        ensures Ray(b, q, dr, dc, p)[i] == At(q, dr, dc, i) && Owns(b, At(q, dr, dc, i), p)
      {
        if i > 0 {
          assert Ray(b, q, dr, dc, p)[i] == rest[i - 1];
          AtStep(q, dr, dc, i - 1);
        } else {
          assert At(q, dr, dc, 0) == q;
        }
      }
    }
  }

  /** The cell just past the end of the ray is off the board or not `p`'s. */
  lemma {:induction false} RayEnd(b: array2<Player>, q: Pos, dr: int, dc: int, p: Player)
    requires WellFormed(b) && IsStep(dr, dc)
    ensures !Owns(b, At(q, dr, dc, |Ray(b, q, dr, dc, p)|), p)
    decreases Budget(q, dr, dc)
  {
    if Owns(b, q, p) {
      var q' := Step(q, dr, dc);
      var n := |Ray(b, q', dr, dc, p)|;
      RayEnd(b, q', dr, dc, p);
      assert |Ray(b, q, dr, dc, p)| == n + 1;
      AtStep(q, dr, dc, n);
      assert At(q', dr, dc, n) == At(q, dr, dc, n + 1);
    } else {
      assert At(q, dr, dc, 0) == q;
    }
  }

  /** A ray is at least as long as any run of `p`'s stones starting at `q`. */
  lemma RayCovers(b: array2<Player>, q: Pos, dr: int, dc: int, p: Player, k: nat)
    requires WellFormed(b) && IsStep(dr, dc)
    requires forall j :: 0 <= j < k ==> Owns(b, At(q, dr, dc, j), p)
    ensures |Ray(b, q, dr, dc, p)| >= k
  {
    RayAt(b, q, dr, dc, p); RayEnd(b, q, dr, dc, p);
  }

  /** The run behind (row, col) holds the stones at offsets -1, -2, ... */
  lemma BackRayAt(b: array2<Player>, row: int, col: int, dr: int, dc: int, p: Player)
    requires WellFormed(b) && IsStep(dr, dc)
    ensures var back := BackRay(b, row, col, dr, dc, p);
      forall j :: 0 <= j < |back| ==>
        back[j] == At(Pos(row, col), dr, dc, -(j + 1)) && Owns(b, back[j], p)
  {
    var center := Pos(row, col);
    var back := BackRay(b, row, col, dr, dc, p);
    RayAt(b, Step(center, -dr, -dc), -dr, -dc, p);
    forall j | 0 <= j < |back|
      ensures back[j] == At(center, dr, dc, -(j + 1))
    {
      AtStep(center, dr, dc, j);
    }
  }

  /** The run behind (row, col) stops before an offset that is off the board
      or not `p`'s. */
  lemma BackRayEnd(b: array2<Player>, row: int, col: int, dr: int, dc: int, p: Player)
    requires WellFormed(b) && IsStep(dr, dc)
    ensures !Owns(b, At(Pos(row, col), dr, dc, -(|BackRay(b, row, col, dr, dc, p)| + 1)), p)
  {
    var center := Pos(row, col);
    var start := Step(center, -dr, -dc);
    var n := |BackRay(b, row, col, dr, dc, p)|;
    assert n == |Ray(b, start, -dr, -dc, p)|;
    RayEnd(b, start, -dr, -dc, p);
    AtStep(center, dr, dc, n);
    assert At(start, -dr, -dc, n) == At(center, dr, dc, -(n + 1));
  }

  /** The run ahead of (row, col) holds the stones at offsets 1, 2, ... */
  lemma ForwardRayAt(b: array2<Player>, row: int, col: int, dr: int, dc: int, p: Player)
    requires WellFormed(b) && IsStep(dr, dc)
    ensures var fwd := ForwardRay(b, row, col, dr, dc, p);
      forall j :: 0 <= j < |fwd| ==>
        fwd[j] == At(Pos(row, col), dr, dc, j + 1) && Owns(b, fwd[j], p)
  {
    var center := Pos(row, col);
    var fwd := ForwardRay(b, row, col, dr, dc, p);
    RayAt(b, Step(center, dr, dc), dr, dc, p);
    forall j | 0 <= j < |fwd|
      ensures fwd[j] == At(center, dr, dc, j + 1)
    {
      AtStep(center, dr, dc, j);
    }
  }

  /** The run ahead of (row, col) stops before an offset that is off the
      board or not `p`'s. */
  lemma ForwardRayEnd(b: array2<Player>, row: int, col: int, dr: int, dc: int, p: Player)
    requires WellFormed(b) && IsStep(dr, dc)
    ensures !Owns(b, At(Pos(row, col), dr, dc, |ForwardRay(b, row, col, dr, dc, p)| + 1), p)
  {
    var center := Pos(row, col);
    var start := Step(center, dr, dc);
    var n := |ForwardRay(b, row, col, dr, dc, p)|;
    assert n == |Ray(b, start, dr, dc, p)|;
    RayEnd(b, start, dr, dc, p);
    AtStep(center, dr, dc, n);
    assert At(start, dr, dc, n) == At(center, dr, dc, n + 1);
  }

  /** The line is the cells at offsets -m .. |line| - m - 1 from (row, col),
      where m is the length of the run behind it, and all of them but
      (row, col) itself are `p`'s. */
  lemma LineShape(b: array2<Player>, row: int, col: int, dr: int, dc: int, p: Player)
    requires WellFormed(b) && IsStep(dr, dc)
    ensures var m := |BackRay(b, row, col, dr, dc, p)|;
      var line := Line(b, row, col, dr, dc, p);
      && |line| == m + 1 + |ForwardRay(b, row, col, dr, dc, p)|
      && (forall i :: 0 <= i < |line| ==> line[i] == At(Pos(row, col), dr, dc, i - m))
      && (forall i :: 0 <= i < |line| && i != m ==> Owns(b, line[i], p))
  {
    var center := Pos(row, col);
    var back := BackRay(b, row, col, dr, dc, p);
    var fwd := ForwardRay(b, row, col, dr, dc, p);
    var m := |back|;
    var line := Line(b, row, col, dr, dc, p);
    BackRayAt(b, row, col, dr, dc, p);
    ForwardRayAt(b, row, col, dr, dc, p);
    ReverseAt(back);
    assert line == Reverse(back) + [center] + fwd;
    forall i | 0 <= i < |line|
      ensures line[i] == At(center, dr, dc, i - m)
      ensures i != m ==> Owns(b, line[i], p)
    {
      if i < m {
        assert line[i] == back[m - 1 - i];
      } else if i == m {
        assert line[i] == center;
      } else {
        assert line[i] == fwd[i - m - 1];
      }
    }
  }

  /** Positions given by consecutive offsets along (dr, dc) are contiguous. */
  lemma OffsetsContiguous(ps: seq<Pos>, q: Pos, dr: int, dc: int, m: int)
    requires forall i :: 0 <= i < |ps| ==> ps[i] == At(q, dr, dc, i - m)
    ensures Contiguous(ps, dr, dc)
  {
    forall i | 0 <= i < |ps|
      ensures ps[i] == At(ps[0], dr, dc, i)
    {
      assert ps[0] == At(q, dr, dc, -m);
    }
  }

  /** In a contiguous sequence each position is exactly one step of (dr, dc)
      after the one before it. */
  lemma ContiguousSteps(ps: seq<Pos>, dr: int, dc: int)
    requires IsStep(dr, dc) && Contiguous(ps, dr, dc)
    ensures forall i :: 0 < i < |ps| ==> ps[i] == Step(ps[i - 1], dr, dc)
  {
    forall i | 0 < i < |ps|
      ensures ps[i] == Step(ps[i - 1], dr, dc)
    {
      AtStep(ps[0], dr, dc, i - 1);
    }
  }

  /** The line holds (row, col), and every other position in it is `p`'s. */
  lemma LineMembers(b: array2<Player>, row: int, col: int, dr: int, dc: int, p: Player)
    requires WellFormed(b) && IsStep(dr, dc)
    ensures var line := Line(b, row, col, dr, dc, p);
      && Pos(row, col) in line
      && forall q :: q in line && q != Pos(row, col) ==> Owns(b, q, p)
  {
    var center := Pos(row, col);
    var line := Line(b, row, col, dr, dc, p);
    var m := |BackRay(b, row, col, dr, dc, p)|;
    LineShape(b, row, col, dr, dc, p);
    assert line[m] == At(center, dr, dc, 0) == center;
    forall q | q in line && q != center
      ensures Owns(b, q, p)
    {
      var i :| 0 <= i < |line| && line[i] == q;
    }
  }

  /** The line runs from its negative end to its positive end in unit steps. */
  lemma LineContiguous(b: array2<Player>, row: int, col: int, dr: int, dc: int, p: Player)
    requires WellFormed(b) && IsStep(dr, dc)
    ensures Contiguous(Line(b, row, col, dr, dc, p), dr, dc)
  {
    LineShape(b, row, col, dr, dc, p);
    OffsetsContiguous(Line(b, row, col, dr, dc, p), Pos(row, col), dr, dc, |BackRay(b, row, col, dr, dc, p)|);
  }

  /** The cell before the first position of the line is not `p`'s. */
  lemma LineClosedBehind(b: array2<Player>, row: int, col: int, dr: int, dc: int, p: Player)
    requires WellFormed(b) && IsStep(dr, dc)
    ensures var line := Line(b, row, col, dr, dc, p);
      |line| > 0 && !Owns(b, Step(line[0], -dr, -dc), p)
  {
    var center := Pos(row, col);
    var line := Line(b, row, col, dr, dc, p);
    var m := |BackRay(b, row, col, dr, dc, p)|;
    LineShape(b, row, col, dr, dc, p);
    assert line[0] == At(center, dr, dc, -m);
    AtStep(center, dr, dc, -m);
    BackRayEnd(b, row, col, dr, dc, p);
    assert Step(line[0], -dr, -dc) == At(center, dr, dc, -(m + 1));
  }

  /** The cell after the last position of the line is not `p`'s. */
  lemma LineClosedAhead(b: array2<Player>, row: int, col: int, dr: int, dc: int, p: Player)
    requires WellFormed(b) && IsStep(dr, dc)
    ensures var line := Line(b, row, col, dr, dc, p);
      |line| > 0 && !Owns(b, Step(line[|line| - 1], dr, dc), p)
  {
    var center := Pos(row, col);
    var line := Line(b, row, col, dr, dc, p);
    var m := |BackRay(b, row, col, dr, dc, p)|;
    var n := |ForwardRay(b, row, col, dr, dc, p)|;
    LineShape(b, row, col, dr, dc, p);
    assert line[|line| - 1] == At(center, dr, dc, n);
    AtStep(center, dr, dc, n);
    ForwardRayEnd(b, row, col, dr, dc, p);
    assert Step(line[|line| - 1], dr, dc) == At(center, dr, dc, n + 1);
  }

  /** What getWinningLineInDirection promises: the line holds (row, col), runs
      from its negative end to its positive end in unit steps, every other
      position is `p`'s, and neither end can be extended. With (row, col)
      itself `p`'s, it is a maximal run. */
  lemma LineProperties(b: array2<Player>, row: int, col: int, dr: int, dc: int, p: Player)
    requires WellFormed(b) && IsStep(dr, dc)
    ensures var line := Line(b, row, col, dr, dc, p);
      && Pos(row, col) in line
      && (forall q :: q in line && q != Pos(row, col) ==> Owns(b, q, p))
      && Contiguous(line, dr, dc)
      && (forall i :: 0 < i < |line| ==> line[i] == Step(line[i - 1], dr, dc))
      && !Owns(b, Step(line[0], -dr, -dc), p)
      && !Owns(b, Step(line[|line| - 1], dr, dc), p)
      && (Owns(b, Pos(row, col), p) ==> IsMaximalRun(b, line, dr, dc, p))
  {
    var line := Line(b, row, col, dr, dc, p);
    LineMembers(b, row, col, dr, dc, p);
    LineContiguous(b, row, col, dr, dc, p);
    ContiguousSteps(line, dr, dc);
    LineClosedBehind(b, row, col, dr, dc, p);
    LineClosedAhead(b, row, col, dr, dc, p);
    assert forall i :: 0 <= i < |line| ==> line[i] in line;
  }

  /** Completeness of the scan along one axis: if the cells at offsets lo .. hi
      from (row, col), apart from (row, col) itself, are all `p`'s, the line
      is at least hi - lo + 1 long. */
  lemma LineCovers(b: array2<Player>, row: int, col: int, dr: int, dc: int, p: Player, lo: int, hi: int)
    requires WellFormed(b) && IsStep(dr, dc)
    requires lo <= 0 <= hi
    requires forall k :: lo <= k <= hi && k != 0 ==> Owns(b, At(Pos(row, col), dr, dc, k), p)
    ensures |Line(b, row, col, dr, dc, p)| >= hi - lo + 1
  {
    var center := Pos(row, col);
    var ahead := Step(center, dr, dc);
    var behind := Step(center, -dr, -dc);
    forall j | 0 <= j < hi
      ensures Owns(b, At(ahead, dr, dc, j), p)
    {
      AtStep(center, dr, dc, j);
    }
    RayCovers(b, ahead, dr, dc, p, hi);
    var bdr, bdc := -dr, -dc;
    forall j | 0 <= j < -lo
      ensures Owns(b, At(behind, bdr, bdc, j), p)
    {
      AtStep(center, dr, dc, j);
    }
    RayCovers(b, behind, bdr, bdc, p, -lo);
    LineShape(b, row, col, dr, dc, p);
  }

  /** The line `getWinningLineInDirection` returns for axis `d`. */
  function AxisLine(b: array2<Player>, row: int, col: int, d: Direction, p: Player): seq<Pos>
    reads b
    requires WellFormed(b)
  {
    Line(b, row, col, d.DR(), d.DC(), p)
  }

  /** The position of `d` in the scan order. */
  function DirectionIndex(d: Direction): (i: nat)
    ensures i < |Directions| && Directions[i] == d
  {
    match d
    case Horizontal => 0
    case Vertical => 1
    case DiagonalRight => 2
    case DiagonalLeft => 3
  }

  /** The outcome of checkWinWithLine: the winner (`Nobody` when none) and the
      winning line (`None` when none). */
  datatype WinCheck = WinCheck(winner: Player, line: Option<WinningLine>)

  /** The lines through (row, col) along the four axes, in scan order. */
  function AxisLines(b: array2<Player>, row: int, col: int, p: Player): (lines: seq<seq<Pos>>)
    reads b
    requires WellFormed(b)
    ensures |lines| == |Directions|
    ensures forall i :: 0 <= i < |Directions| ==> lines[i] == AxisLine(b, row, col, Directions[i], p)
  {
    [AxisLine(b, row, col, Horizontal, p), AxisLine(b, row, col, Vertical, p),
     AxisLine(b, row, col, DiagonalRight, p), AxisLine(b, row, col, DiagonalLeft, p)]
  }

  /** The scan over `lines` (one per axis, in scan order) from the `i`-th on:
      the first line with at least five positions wins for `p`. */
  function FirstLong(lines: seq<seq<Pos>>, p: Player, i: nat): WinCheck
    requires |lines| == |Directions|
    decreases |Directions| - i
  {
    if i >= |Directions| then WinCheck(Nobody, None)
    else if |lines[i]| >= WinCount then WinCheck(p, Some(WinningLine(lines[i], Directions[i])))
    else FirstLong(lines, p, i + 1)
  }

  /** The win check after a stone at (row, col): the first axis, in scan order,
      whose line through (row, col) has at least five stones. */
  function WinScan(b: array2<Player>, row: int, col: int): WinCheck
    reads b
    requires WellFormed(b) && IsValidPosition(row, col)
  {
    var p := b[row, col];
    if p == Nobody then WinCheck(Nobody, None) else FirstLong(AxisLines(b, row, col, p), p, 0)
  }

  /** A scan that finds nothing reports no winner, and every line it tried is
      shorter than five. */
  lemma {:induction false} FirstLongNone(lines: seq<seq<Pos>>, p: Player, i: nat)
    requires |lines| == |Directions|
    decreases |Directions| - i
    ensures FirstLong(lines, p, i).line.None? ==>
      FirstLong(lines, p, i).winner == Nobody
      && forall j :: i <= j < |Directions| ==> |lines[j]| < WinCount
  {
    if i < |Directions| {
      FirstLongNone(lines, p, i + 1);
    }
  }

  /** A scan that finds a line reports `p` with the first line, from the
      `i`-th on, that has at least five positions, and that line's axis. */
  lemma {:induction false} FirstLongSome(lines: seq<seq<Pos>>, p: Player, i: nat)
    requires |lines| == |Directions|
    decreases |Directions| - i
    ensures var r := FirstLong(lines, p, i);
      r.line.Some? ==>
        var k := DirectionIndex(r.line.value.direction);
        && r.winner == p
        && i <= k
        && r.line.value.positions == lines[k]
        && |lines[k]| >= WinCount
        && forall j :: i <= j < k ==> |lines[j]| < WinCount
  {
    if i < |Directions| && |lines[i]| < WinCount {
      FirstLongSome(lines, p, i + 1);
    }
  }

  /** What checkWinWithLine promises. A winner is always the owner of (row, col),
      and comes with the line of the first axis in scan order whose line
      reaches five; that line is a maximal run of the winner's stones through
      (row, col) along the reported axis. No winner means (row, col) is empty
      or every axis line is shorter than five. */
  lemma WinScanSound(b: array2<Player>, row: int, col: int)
    requires WellFormed(b) && IsValidPosition(row, col)
    ensures var r := WinScan(b, row, col);
      && (r.winner == Nobody <==> r.line.None?)
      && (r.line.None? ==>
            b[row, col] == Nobody
            || forall d: Direction :: |AxisLine(b, row, col, d, b[row, col])| < WinCount)
      && (r.line.Some? ==>
            var wl := r.line.value;
            var d := wl.direction;
            && r.winner == b[row, col]
            && wl.positions == AxisLine(b, row, col, d, r.winner)
            && |wl.positions| >= WinCount
            && IsMaximalRun(b, wl.positions, d.DR(), d.DC(), r.winner)
            && Pos(row, col) in wl.positions
            && forall j :: 0 <= j < DirectionIndex(d) ==>
                 |AxisLine(b, row, col, Directions[j], r.winner)| < WinCount)
  {
    var p := b[row, col];
    if p != Nobody {
      var lines := AxisLines(b, row, col, p);
      var r := FirstLong(lines, p, 0);
      FirstLongNone(lines, p, 0);
      FirstLongSome(lines, p, 0);
      if r.line.Some? {
        var d := r.line.value.direction;
        LineProperties(b, row, col, d.DR(), d.DC(), p);
      } else {
        forall d: Direction
          ensures |AxisLine(b, row, col, d, p)| < WinCount
        {
          assert lines[DirectionIndex(d)] == AxisLine(b, row, col, d, p);
        }
      }
    }
  }

  /** Completeness of checkWinWithLine: if (row, col) holds a stone and, along
      some axis, the cells at offsets lo .. hi (a span of at least five that
      includes (row, col)) are all that player's, the scan reports a win. */
  lemma WinScanComplete(b: array2<Player>, row: int, col: int, d: Direction, lo: int, hi: int)
    requires WellFormed(b) && IsValidPosition(row, col)
    requires b[row, col] != Nobody
    requires lo <= 0 <= hi && hi - lo + 1 >= WinCount
    requires forall k :: lo <= k <= hi ==> Owns(b, At(Pos(row, col), d.DR(), d.DC(), k), b[row, col])
    ensures WinScan(b, row, col).winner == b[row, col]
    ensures WinScan(b, row, col).line.Some?
  {
    var p := b[row, col];
    LineCovers(b, row, col, d.DR(), d.DC(), p, lo, hi);
    assert |AxisLine(b, row, col, d, p)| >= WinCount;
    WinScanSound(b, row, col);
  }
}
