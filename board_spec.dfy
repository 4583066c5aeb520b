/** Value-level model of the server's board engine (server/server.py):
    what a Ship and a Board hold, and what can_place, place_ship and shoot
    do to them. The classes in module Server are proved against these
    functions. */
module BoardSpec {
  import opened Grid

  /** The four strings shoot can return. */
  datatype Outcome = AlreadyShot | Hit | Sunk | Miss

  /** The fields of a Ship: size, orientation, positions and hits. */
  datatype ShipState = ShipState(size: int, orientation: int, positions: seq<Pos>, hits: seq<Pos>)

  /** Ship.is_sunk: compares the number of hits with size, never with
      the length of positions. */
  predicate ShipSunk(s: ShipState) {
    |s.hits| == s.size
  }

  /** The fields of a Board: grid, ships and shots. */
  datatype BoardState = BoardState(grid: seq<seq<int>>, fleet: seq<ShipState>, shots: seq<Pos>)

  datatype ShotResult = ShotResult(board: BoardState, outcome: Outcome)

  predicate GridShaped(g: seq<seq<int>>) {
    |g| == Rows && forall r :: 0 <= r < Rows ==> |g[r]| == Cols
  }

  /** The default Board: a grid of zeros, no ships, no shots. */
  function EmptyBoard(): (b: BoardState)
    ensures GridShaped(b.grid) && b.fleet == [] && b.shots == []
    ensures forall r, c :: 0 <= r < Rows && 0 <= c < Cols ==> b.grid[r][c] == 0
  {
    BoardState(seq(Rows, _ => seq(Cols, _ => 0)), [], [])
  }

  /** Some ship of the fleet lists p among its positions. */
  predicate Covered(fleet: seq<ShipState>, p: Pos) {
    exists k :: 0 <= k < |fleet| && p in fleet[k].positions
  }

  /** No two ships of the fleet share a cell. */
  predicate NoOverlap(fleet: seq<ShipState>) {
    forall i, j, p :: 0 <= i < j < |fleet| && p in fleet[i].positions ==> p !in fleet[j].positions
  }

  /** A ship's hits are distinct cells of its own that were shot at. */
  predicate HitsConsistent(s: ShipState, shots: seq<Pos>) {
    NoDuplicates(s.hits) && forall p :: p in s.hits ==> p in s.positions && p in shots
  }

  /** The invariant every board keeps under place_ship (with in-grid
      positions and no initial hits) and shoot. */
  predicate WellFormed(b: BoardState) {
    && GridShaped(b.grid)
    && (forall k, p :: 0 <= k < |b.fleet| && p in b.fleet[k].positions ==> InGrid(p))
    && (forall r, c :: 0 <= r < Rows && 0 <= c < Cols ==>
          b.grid[r][c] == if Covered(b.fleet, Pos(r, c)) then 1 else 0)
    && NoDuplicates(b.shots)
    && (forall k :: 0 <= k < |b.fleet| ==> HitsConsistent(b.fleet[k], b.shots))
  }

  /** Index of the first ship in list order whose positions contain pos,
      or |fleet| when there is none: the ship the scan in shoot stops at. */
  function FirstShipAt(fleet: seq<ShipState>, pos: Pos): (k: nat)
    ensures k <= |fleet|
    ensures k < |fleet| ==> pos in fleet[k].positions
    ensures forall j :: 0 <= j < k ==> pos !in fleet[j].positions
    ensures k == |fleet| <==> !Covered(fleet, pos)
  {
    if |fleet| == 0 then 0
    else if pos in fleet[0].positions then 0
    else
      var k := 1 + FirstShipAt(fleet[1..], pos);
      assert forall j :: 1 <= j < k ==> fleet[j] == fleet[1..][j - 1];
      assert k < |fleet| ==> fleet[k] == fleet[1..][k - 1];
      k
  }

  /** can_place with the bounds test it evidently means: every position
      lies inside the grid on a cell that is not 1. The code as written
      omits the lower bounds; see CanPlaceAsWritten. */
  predicate Placeable(b: BoardState, positions: seq<Pos>)
    requires GridShaped(b.grid)
  {
    forall p :: p in positions ==> 0 <= p.row < Rows && 0 <= p.col < Cols && b.grid[p.row][p.col] != 1
  }

  // ---------------------------------------------------------------------
  // can_place as written: only the upper bounds are compared, and Python
  // reads a negative index from the end of the list

  /** What can_place does as written: answers True or False, or raises
      IndexError (the endpoint then fails with a server error). */
  datatype Verdict = Accept | Refuse | Raise

  /** Python's index i into a list of length n: negative indices count
      from the end; below -n there is no element. */
  function PyIndex(i: int, n: nat): (k: Option<int>)
    ensures k.Some? <==> 0 <= i + n && i < n
    ensures k.Some? ==> 0 <= k.value < n && (k.value == i || k.value == i + n)
  {
    if 0 <= i < n then Some(i) else if 0 <= i + n && i < 0 then Some(i + n) else None
  }

  /** can_place as written: for each position in turn, False when row >= 10
      or col >= 10, otherwise grid[row][col] is read with Python indexing. */
  function CanPlaceAsWritten(b: BoardState, positions: seq<Pos>): (v: Verdict)
    requires GridShaped(b.grid)
    decreases |positions|
  {
    if positions == [] then Accept
    else
      var p := positions[0];
      if p.row >= Rows || p.col >= Cols then Refuse
      else match (PyIndex(p.row, Rows), PyIndex(p.col, Cols))
        case (Some(r), Some(c)) =>
          if b.grid[r][c] == 1 then Refuse else CanPlaceAsWritten(b, positions[1..])
        case _ => Raise
  }

  /** On positions with no negative coordinate the code as written and the
      corrected check agree, and nothing raises. */
  lemma {:induction false} AsWrittenAgreesOnNonNegative(b: BoardState, positions: seq<Pos>)
    requires GridShaped(b.grid)
    requires forall p :: p in positions ==> 0 <= p.row && 0 <= p.col
    ensures CanPlaceAsWritten(b, positions) != Raise
    ensures CanPlaceAsWritten(b, positions) == Accept <==> Placeable(b, positions)
    decreases |positions|
  {
    if positions != [] {
      assert forall p :: p in positions[1..] ==> p in positions;
      AsWrittenAgreesOnNonNegative(b, positions[1..]);
      assert forall p :: p in positions ==> p == positions[0] || p in positions[1..];
    }
  }

  /** A cell as place_ship's grid[pos[0]][pos[1]] = 1 writes it. */
  function Wrapped(p: Pos): Pos {
    Pos(if p.row < 0 then p.row + Rows else p.row, if p.col < 0 then p.col + Cols else p.col)
  }

  /** The counterexample: a one-cell ship at (-1, 0) passes can_place as
      written, although it is off the grid. place_ship then marks grid[9][0]
      while no ship lists (9, 0), so the board stops being well formed and
      a shot at the marked cell is a miss. */
  lemma NegativeCellSlipsPastCanPlace()
    ensures CanPlaceAsWritten(EmptyBoard(), [Pos(-1, 0)]) == Accept
    ensures !Placeable(EmptyBoard(), [Pos(-1, 0)])
    ensures var s := ShipState(1, 0, [Pos(-1, 0)], []);
            var b := BoardState(Mark(EmptyBoard().grid, [Wrapped(Pos(-1, 0))]), [s], []);
            && b.grid[9][0] == 1 && !Covered(b.fleet, Pos(9, 0))
            && !WellFormed(b) && ShotSpec(b, Pos(9, 0)).outcome == Miss
  {
    var s := ShipState(1, 0, [Pos(-1, 0)], []);
    var b := BoardState(Mark(EmptyBoard().grid, [Wrapped(Pos(-1, 0))]), [s], []);
    assert Wrapped(Pos(-1, 0)) == Pos(9, 0);
    assert b.grid[9][0] == 1;
    assert !Covered(b.fleet, Pos(9, 0)) by {
      assert b.fleet[0].positions == [Pos(-1, 0)];
    }
  }

  /** The grid after place_ship's loop sets grid[r][c] = 1 for each
      position in turn. */
  function Mark(g: seq<seq<int>>, positions: seq<Pos>): (m: seq<seq<int>>)
    requires GridShaped(g)
    requires forall p :: p in positions ==> InGrid(p)
    ensures GridShaped(m)
    ensures forall r, c :: 0 <= r < Rows && 0 <= c < Cols ==>
              m[r][c] == if Pos(r, c) in positions then 1 else g[r][c]
    decreases |positions|
  {
    if positions == [] then g
    else
      var p := positions[0];
      assert InGrid(p);
      var g' := g[p.row := g[p.row][p.col := 1]];
      assert forall q :: q in positions[1..] ==> q in positions;
      var m := Mark(g', positions[1..]);
      assert forall r, c :: 0 <= r < Rows && 0 <= c < Cols ==>
               (Pos(r, c) in positions <==> Pos(r, c) == p || Pos(r, c) in positions[1..]);
      m
  }

  /** Board.place_ship: marks the ship's cells and appends the ship. */
  function PlaceSpec(b: BoardState, s: ShipState): BoardState
    requires GridShaped(b.grid)
    requires forall p :: p in s.positions ==> InGrid(p)
  {
    BoardState(Mark(b.grid, s.positions), b.fleet + [s], b.shots)
  }

  /** Board.shoot: a repeated position is reported and changes nothing;
      a new one is logged, and the first ship holding it records the hit. */
  function ShotSpec(b: BoardState, pos: Pos): (r: ShotResult)
    ensures r.outcome == AlreadyShot <==> pos in b.shots
    ensures r.outcome == Miss <==> pos !in b.shots && !Covered(b.fleet, pos)
    ensures (r.outcome == Hit || r.outcome == Sunk) <==> pos !in b.shots && Covered(b.fleet, pos)
    ensures pos in b.shots ==> r.board == b
    ensures pos !in b.shots ==> r.board.shots == b.shots + [pos]
    ensures r.board.grid == b.grid
    ensures r.outcome == Miss ==> r.board.fleet == b.fleet
    ensures r.outcome == Hit || r.outcome == Sunk ==>
              var k := FirstShipAt(b.fleet, pos);
              && k < |b.fleet|
              && r.board.fleet == b.fleet[k := b.fleet[k].(hits := b.fleet[k].hits + [pos])]
              && (r.outcome == Sunk <==> ShipSunk(r.board.fleet[k]))
  {
    if pos in b.shots then ShotResult(b, AlreadyShot)
    else
      var shots := b.shots + [pos];
      var k := FirstShipAt(b.fleet, pos);
      if k == |b.fleet| then ShotResult(b.(shots := shots), Miss)
      else
        var hit := b.fleet[k].(hits := b.fleet[k].hits + [pos]);
        ShotResult(b.(fleet := b.fleet[k := hit], shots := shots), if ShipSunk(hit) then Sunk else Hit)
  }

  // ---------------------------------------------------------------------
  // Properties of the board engine

  /** Read through the grid-union invariant, can_place holds exactly when
      every position is inside the grid and no ship covers it yet. */
  lemma {:induction false} PlaceableIffFree(b: BoardState, positions: seq<Pos>)
    requires WellFormed(b)
    ensures Placeable(b, positions) <==> forall p :: p in positions ==> InGrid(p) && !Covered(b.fleet, p)
  {
    if Placeable(b, positions) {
      forall p | p in positions ensures InGrid(p) && !Covered(b.fleet, p) {
        assert b.grid[p.row][p.col] == if Covered(b.fleet, Pos(p.row, p.col)) then 1 else 0;
      }
    }
    if forall p :: p in positions ==> InGrid(p) && !Covered(b.fleet, p) {
      forall p | p in positions ensures InGrid(p) && b.grid[p.row][p.col] != 1 {
        assert b.grid[p.row][p.col] == if Covered(b.fleet, Pos(p.row, p.col)) then 1 else 0;
      }
    }
  }

  /** place_ship keeps the board well formed for any in-grid ship that
      has no hits yet, whether or not can_place was asked. */
  lemma {:induction false} PlacePreservesWellFormed(b: BoardState, s: ShipState)
    requires WellFormed(b)
    requires forall p :: p in s.positions ==> InGrid(p)
    requires s.hits == []
    ensures WellFormed(PlaceSpec(b, s))
    ensures |PlaceSpec(b, s).fleet| == |b.fleet| + 1 && PlaceSpec(b, s).fleet[|b.fleet|] == s
  {
    var b' := PlaceSpec(b, s);
    forall p ensures Covered(b'.fleet, p) <==> Covered(b.fleet, p) || p in s.positions {
      if Covered(b'.fleet, p) {
        var k :| 0 <= k < |b'.fleet| && p in b'.fleet[k].positions;
        if k < |b.fleet| {
          assert b.fleet[k] == b'.fleet[k];
        }
      }
      if Covered(b.fleet, p) {
        var k :| 0 <= k < |b.fleet| && p in b.fleet[k].positions;
        assert b'.fleet[k] == b.fleet[k];
      }
      if p in s.positions {
        assert b'.fleet[|b.fleet|] == s;
      }
    }
    forall k, p | 0 <= k < |b'.fleet| && p in b'.fleet[k].positions ensures InGrid(p) {
      if k < |b.fleet| {
        assert b'.fleet[k] == b.fleet[k];
      }
    }
    forall k | 0 <= k < |b'.fleet| ensures HitsConsistent(b'.fleet[k], b'.shots) {
      if k < |b.fleet| {
        assert b'.fleet[k] == b.fleet[k];
      }
    }
  }

  /** The place_ship endpoint only places what can_place accepts, so on a
      board whose ships are disjoint the new ship shares no cell with them. */
  lemma {:induction false} CheckedPlacementKeepsShipsApart(b: BoardState, s: ShipState)
    requires WellFormed(b) && NoOverlap(b.fleet)
    requires Placeable(b, s.positions)
    ensures forall p :: p in s.positions ==> InGrid(p)
    ensures NoOverlap(b.fleet + [s])
  {
    PlaceableIffFree(b, s.positions);
    var f := b.fleet + [s];
    forall i, j, p | 0 <= i < j < |f| && p in f[i].positions ensures p !in f[j].positions {
      assert f[i] == b.fleet[i];
      if j < |b.fleet| {
        assert f[j] == b.fleet[j];
      } else {
        assert f[j] == s;
        assert Covered(b.fleet, p);
      }
    }
  }

  /** shoot keeps the board well formed: the grid and the positions do not
      move, the shot log gains one new entry, and a hit is a fresh position
      of the ship that records it. */
  lemma {:induction false} ShootPreservesWellFormed(b: BoardState, pos: Pos)
    requires WellFormed(b)
    ensures WellFormed(ShotSpec(b, pos).board)
  {
    var r := ShotSpec(b, pos);
    if pos !in b.shots && Covered(b.fleet, pos) {
      var k := FirstShipAt(b.fleet, pos);
      var b' := r.board;
      assert forall j :: 0 <= j < |b.fleet| ==> b'.fleet[j].positions == b.fleet[j].positions;
      forall p ensures Covered(b'.fleet, p) <==> Covered(b.fleet, p) {
        if Covered(b'.fleet, p) {
          var j :| 0 <= j < |b'.fleet| && p in b'.fleet[j].positions;
          assert p in b.fleet[j].positions;
        }
        if Covered(b.fleet, p) {
          var j :| 0 <= j < |b.fleet| && p in b.fleet[j].positions;
          assert p in b'.fleet[j].positions;
        }
      }
      forall j | 0 <= j < |b'.fleet| ensures HitsConsistent(b'.fleet[j], b'.shots) {
        assert HitsConsistent(b.fleet[j], b.shots);
        if j == k {
          var h := b.fleet[k].hits;
          assert pos !in h;
          assert b'.fleet[k].hits == h + [pos];
          forall x, y | 0 <= x < y < |h + [pos]| ensures (h + [pos])[x] != (h + [pos])[y] {
            if y == |h| {
              assert (h + [pos])[x] == h[x];
            } else {
              assert (h + [pos])[x] == h[x] && (h + [pos])[y] == h[y];
            }
          }
        } else {
          assert b'.fleet[j] == b.fleet[j];
        }
      }
    }
  }

  /** shoot never makes two ships share a cell: positions do not change. */
  lemma {:induction false} ShootPreservesNoOverlap(b: BoardState, pos: Pos)
    requires NoOverlap(b.fleet)
    ensures NoOverlap(ShotSpec(b, pos).board.fleet)
  {
    var f := ShotSpec(b, pos).board.fleet;
    assert |f| == |b.fleet|;
    assert forall j :: 0 <= j < |f| ==> f[j].positions == b.fleet[j].positions;
  }

  /** Firing at the same position a second time returns already_shot and
      leaves the board exactly as the first shot left it. */
  lemma RepeatedShotChangesNothing(b: BoardState, pos: Pos)
    ensures var first := ShotSpec(b, pos).board;
            ShotSpec(first, pos) == ShotResult(first, AlreadyShot)
  {
  }

  /** When ships are disjoint, the first ship holding the shot cell is the
      only one: no other ship is touched and none other could be meant. */
  lemma {:induction false} HitShipIsUnique(b: BoardState, pos: Pos)
    requires NoOverlap(b.fleet)
    requires Covered(b.fleet, pos)
    ensures var k := FirstShipAt(b.fleet, pos);
            forall j :: 0 <= j < |b.fleet| && j != k ==> pos !in b.fleet[j].positions
  {
    var k := FirstShipAt(b.fleet, pos);
    forall j | 0 <= j < |b.fleet| && j != k ensures pos !in b.fleet[j].positions {
      if j > k {
        assert pos in b.fleet[k].positions;
      }
    }
  }

  /** A ship whose size is its number of distinct positions and whose hits
      are distinct cells of its own is sunk exactly when every one of its
      cells has been hit. */
  lemma {:induction false} SunkIffEveryCellHit(s: ShipState)
    requires NoDuplicates(s.hits) && forall p :: p in s.hits ==> p in s.positions
    requires NoDuplicates(s.positions) && s.size == |s.positions|
    ensures ShipSunk(s) <==> forall p :: p in s.positions ==> p in s.hits
  {
    DistinctCount(s.hits);
    DistinctCount(s.positions);
    var hs, ps := Elements(s.hits), Elements(s.positions);
    assert hs <= ps;
    assert ps == hs + (ps - hs);
    assert |ps| == |hs| + |ps - hs|;
    if ShipSunk(s) {
      assert ps - hs == {};
      forall p | p in s.positions ensures p in s.hits {
        assert p in ps;
      }
    }
    if forall p :: p in s.positions ==> p in s.hits {
      assert ps <= hs;
    }
  }

  /** On a well-formed board, a "sunk" answer for a ship with size distinct
      positions means every one of its cells has now been hit. */
  lemma {:induction false} SunkMeansEveryCellHit(b: BoardState, pos: Pos)
    requires WellFormed(b)
    requires ShotSpec(b, pos).outcome == Sunk
    requires var s := b.fleet[FirstShipAt(b.fleet, pos)];
             NoDuplicates(s.positions) && s.size == |s.positions|
    ensures var s := ShotSpec(b, pos).board.fleet[FirstShipAt(b.fleet, pos)];
            forall p :: p in s.positions ==> p in s.hits
  {
    var k := FirstShipAt(b.fleet, pos);
    ShootPreservesWellFormed(b, pos);
    var b' := ShotSpec(b, pos).board;
    assert HitsConsistent(b'.fleet[k], b'.shots);
    SunkIffEveryCellHit(b'.fleet[k]);
  }
}
