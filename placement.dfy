/** The client's placement rules (client/game.py): the cell convention for
    a ship given by size, orientation and start cell, is_valid_placement
    with its bounds, overlap and no-touching checks, and the fleet that the
    placement phase hands out. */
module Placement {
  import opened Grid

  /** A placed ship as the client records it: size, orientation, start_pos. */
  datatype PlacedShip = PlacedShip(size: int, orientation: int, start: Pos)

  /** The i-th cell of a ship as is_valid_placement computes it:
      orientation 0 runs along the row, every other value down the column. */
  function ShipCell(start: Pos, orientation: int, i: int): Pos {
    if orientation == 0 then Pos(start.row, start.col + i) else Pos(start.row + i, start.col)
  }

  function CellOf(s: PlacedShip, i: int): Pos {
    ShipCell(s.start, s.orientation, i)
  }

  /** The i-th cell as draw_ships (and client.py's place_ship) computes it:
      the row grows only for orientation 1, the column only for 0. */
  function DrawnCell(start: Pos, orientation: int, i: int): Pos {
    Pos(if orientation == 1 then start.row + i else start.row,
        if orientation == 0 then start.col + i else start.col)
  }

  /** The two conventions agree on the orientations the client produces. */
  lemma CellConventionsAgree(start: Pos, orientation: int, i: int)
    requires orientation == 0 || orientation == 1
    ensures ShipCell(start, orientation, i) == DrawnCell(start, orientation, i)
  {
  }

  /** Off the two axes they part: the validator reads a vertical ship,
      the drawing keeps every cell on the start cell. */
  lemma CellConventionsDifferOffAxis(start: Pos, orientation: int, i: int)
    requires orientation != 0 && orientation != 1 && i != 0
    ensures ShipCell(start, orientation, i) != DrawnCell(start, orientation, i)
    ensures DrawnCell(start, orientation, i) == start
  {
  }

  /** The bounds test of is_valid_placement: only the far end along the
      ship's direction is compared with the grid size. */
  predicate FitsGrid(size: int, orientation: int, start: Pos) {
    if orientation == 0 then start.col + size <= Cols else start.row + size <= Rows
  }

  /** Some placed ship has p among its cells. */
  predicate Occupied(placed: seq<PlacedShip>, p: Pos) {
    exists k, j :: 0 <= k < |placed| && 0 <= j < placed[k].size && CellOf(placed[k], j) == p
  }

  function Neighbour(p: Pos, dr: int, dc: int): Pos {
    Pos(p.row + dr, p.col + dc)
  }

  /** Some in-grid cell of the 3x3 block around p, p included, is occupied. */
  predicate NeighbourOccupied(placed: seq<PlacedShip>, p: Pos) {
    exists dr, dc :: -1 <= dr <= 1 && -1 <= dc <= 1
      && InGrid(Neighbour(p, dr, dc)) && Occupied(placed, Neighbour(p, dr, dc))
  }

  /** is_valid_placement: the bounds test, then for each of the ship's
      cells the overlap test and the no-touching test. */
  predicate IsValidPlacement(placed: seq<PlacedShip>, size: int, orientation: int, start: Pos) {
    && FitsGrid(size, orientation, start)
    && forall i :: 0 <= i < size ==>
         && !Occupied(placed, ShipCell(start, orientation, i))
         && !NeighbourOccupied(placed, ShipCell(start, orientation, i))
  }

  /** Two cells are equal or 8-adjacent. */
  predicate Touching(a: Pos, b: Pos) {
    -1 <= a.row - b.row <= 1 && -1 <= a.col - b.col <= 1
  }

  predicate AllInGrid(placed: seq<PlacedShip>) {
    forall k, j :: 0 <= k < |placed| && 0 <= j < placed[k].size ==> InGrid(CellOf(placed[k], j))
  }

  /** No cell of one placed ship touches a cell of another. */
  predicate Separated(placed: seq<PlacedShip>) {
    forall a, b, i, j :: 0 <= a < b < |placed| && 0 <= i < placed[a].size && 0 <= j < placed[b].size
      ==> !Touching(CellOf(placed[a], i), CellOf(placed[b], j))
  }

  /** While the placed ships lie inside the grid, is_valid_placement holds
      exactly when the ship fits and none of its cells equals or touches a
      placed cell. */
  lemma {:induction false} ValidPlacementMeansApart(placed: seq<PlacedShip>, size: int, orientation: int, start: Pos)
    requires AllInGrid(placed)
    ensures IsValidPlacement(placed, size, orientation, start) <==>
              && FitsGrid(size, orientation, start)
              && forall i, k, j :: 0 <= i < size && 0 <= k < |placed| && 0 <= j < placed[k].size
                   ==> !Touching(ShipCell(start, orientation, i), CellOf(placed[k], j))
  {
    if IsValidPlacement(placed, size, orientation, start) {
      forall i, k, j | 0 <= i < size && 0 <= k < |placed| && 0 <= j < placed[k].size
        ensures !Touching(ShipCell(start, orientation, i), CellOf(placed[k], j))
      {
        TouchingIsSeen(placed, ShipCell(start, orientation, i), k, j);
      }
    }
    if && FitsGrid(size, orientation, start)
       && forall i, k, j :: 0 <= i < size && 0 <= k < |placed| && 0 <= j < placed[k].size
            ==> !Touching(ShipCell(start, orientation, i), CellOf(placed[k], j))
    {
      forall i | 0 <= i < size
        ensures !Occupied(placed, ShipCell(start, orientation, i))
        ensures !NeighbourOccupied(placed, ShipCell(start, orientation, i))
      {
        RejectedCellTouches(placed, ShipCell(start, orientation, i));
      }
    }
  }

  /** A placed in-grid cell that touches c is found by the neighbour scan
      around c. */
  lemma TouchingIsSeen(placed: seq<PlacedShip>, c: Pos, k: int, j: int)
    requires AllInGrid(placed)
    requires 0 <= k < |placed| && 0 <= j < placed[k].size
    ensures Touching(c, CellOf(placed[k], j)) ==> NeighbourOccupied(placed, c)
  {
    var p := CellOf(placed[k], j);
    if Touching(c, p) {
      assert Neighbour(c, p.row - c.row, p.col - c.col) == p;
    }
  }

  /** A cell that the overlap or neighbour scan rejects touches a placed cell. */
  lemma RejectedCellTouches(placed: seq<PlacedShip>, c: Pos)
    ensures Occupied(placed, c) || NeighbourOccupied(placed, c) ==>
              exists k, j :: 0 <= k < |placed| && 0 <= j < placed[k].size && Touching(c, CellOf(placed[k], j))
  {
    if Occupied(placed, c) {
      var k, j :| 0 <= k < |placed| && 0 <= j < placed[k].size && CellOf(placed[k], j) == c;
      assert Touching(c, CellOf(placed[k], j));
    } else if NeighbourOccupied(placed, c) {
      var dr, dc :| -1 <= dr <= 1 && -1 <= dc <= 1
        && InGrid(Neighbour(c, dr, dc)) && Occupied(placed, Neighbour(c, dr, dc));
      var k, j :| 0 <= k < |placed| && 0 <= j < placed[k].size && CellOf(placed[k], j) == Neighbour(c, dr, dc);
      assert Touching(c, CellOf(placed[k], j));
    }
  }

  /** With no ship placed yet, every ship that passes the bounds test is
      accepted. */
  lemma EmptyBoardAcceptsEveryFit(size: int, orientation: int, start: Pos)
    ensures IsValidPlacement([], size, orientation, start) <==> FitsGrid(size, orientation, start)
  {
  }

  /** A ship dropped on a grid cell that passes the bounds test lies
      entirely inside the grid. */
  lemma FittingShipInGrid(size: int, orientation: int, start: Pos)
    requires InGrid(start) && FitsGrid(size, orientation, start)
    ensures forall i :: 0 <= i < size ==> InGrid(ShipCell(start, orientation, i))
  {
  }

  /** Accepting a ship keeps the placed ships inside the grid and pairwise
      apart (neither sharing nor touching a cell). */
  lemma {:induction false} AcceptedShipKeepsFleetApart(placed: seq<PlacedShip>, size: int, orientation: int, start: Pos)
    requires AllInGrid(placed) && Separated(placed)
    requires InGrid(start) && IsValidPlacement(placed, size, orientation, start)
    ensures AllInGrid(placed + [PlacedShip(size, orientation, start)])
    ensures Separated(placed + [PlacedShip(size, orientation, start)])
  {
    var s := PlacedShip(size, orientation, start);
    var all := placed + [s];
    ValidPlacementMeansApart(placed, size, orientation, start);
    FittingShipInGrid(size, orientation, start);
    forall k, j | 0 <= k < |all| && 0 <= j < all[k].size ensures InGrid(CellOf(all[k], j)) {
      if k < |placed| {
        assert all[k] == placed[k];
      }
    }
    forall a, b, i, j | 0 <= a < b < |all| && 0 <= i < all[a].size && 0 <= j < all[b].size
      ensures !Touching(CellOf(all[a], i), CellOf(all[b], j))
    {
      assert all[a] == placed[a];
      if b < |placed| {
        assert all[b] == placed[b];
      } else {
        assert all[b] == s;
        assert !Touching(ShipCell(start, orientation, j), CellOf(placed[a], i));
      }
    }
  }

  // ---------------------------------------------------------------------
  // The fleet

  /** The sizes in ships_to_place, in list order. */
  const FleetSizes: seq<int> := [4, 3, 3, 2, 2, 2, 1, 1, 1, 1]

  function Sum(s: seq<int>): int {
    if s == [] then 0 else s[0] + Sum(s[1..])
  }

  lemma {:induction false} SumConcat(a: seq<int>, b: seq<int>)
    ensures Sum(a + b) == Sum(a) + Sum(b)
  {
    if a == [] {
      assert a + b == b;
    } else {
      assert (a + b)[0] == a[0] && (a + b)[1..] == a[1..] + b;
      SumConcat(a[1..], b);
    }
  }

  /** The number of cells does not depend on the order of the ships. */
  lemma {:induction false} SumOfPermutation(a: seq<int>, b: seq<int>)
    requires multiset(a) == multiset(b)
    ensures Sum(a) == Sum(b)
    decreases |a|
  {
    if a == [] {
      assert |b| == |multiset(b)| == 0;
    } else {
      var x := a[0];
      assert x in multiset(b);
      var i :| 0 <= i < |b| && b[i] == x;
      var rest := b[..i] + b[i + 1..];
      assert b == b[..i] + ([x] + b[i + 1..]);
      SumConcat(b[..i], [x] + b[i + 1..]);
      SumConcat([x], b[i + 1..]);
      SumConcat(b[..i], b[i + 1..]);
      assert Sum([x]) == x by {
        assert [x][1..] == [];
      }
      assert multiset(b) == multiset(b[..i]) + multiset{x} + multiset(b[i + 1..]);
      assert multiset(rest) == multiset(b[..i]) + multiset(b[i + 1..]);
      assert a == [x] + a[1..];
      assert multiset(a) == multiset{x} + multiset(a[1..]);
      assert multiset(a[1..]) == multiset(a) - multiset{x};
      assert multiset(rest) == multiset(b) - multiset{x};
      SumOfPermutation(a[1..], rest);
    }
  }

  /** One 4-cell, two 3-cell, three 2-cell and four 1-cell ships. */
  lemma FleetComposition()
    ensures |FleetSizes| == 10 && Sum(FleetSizes) == 20
    ensures multiset(FleetSizes) == multiset{4, 3, 3, 2, 2, 2, 1, 1, 1, 1}
  {
  }

  /** Any arrangement of the whole fleet has ten ships and twenty cells. */
  lemma {:induction false} CompleteFleet(sizes: seq<int>)
    requires multiset(sizes) == multiset(FleetSizes)
    ensures |sizes| == 10 && Sum(sizes) == 20
    ensures multiset(sizes) == multiset{4, 3, 3, 2, 2, 2, 1, 1, 1, 1}
  {
    FleetComposition();
    assert |sizes| == |multiset(sizes)| == |multiset(FleetSizes)|;
    SumOfPermutation(sizes, FleetSizes);
  }
}
