/** The server's objects (server/server.py): Ship, Board with its 10x10
    grid, and the Game that the place_ship and shoot endpoints route to.
    Each Board method is proved against its function in BoardSpec. */
module Server {
  import opened Grid
  import opened BoardSpec

  /** A ship as the endpoint receives it. Only hits is ever changed. */
  class Ship {
    const size: int
    const orientation: int
    const positions: seq<Pos>
    var hits: seq<Pos>

    /** A freshly parsed ship: hits takes its default, the empty list. */
    constructor (size: int, orientation: int, positions: seq<Pos>)
      ensures Value() == ShipState(size, orientation, positions, [])
    {
      this.size := size;
      this.orientation := orientation;
      this.positions := positions;
      this.hits := [];
    }

    function Value(): ShipState
      reads this
    {
      ShipState(size, orientation, positions, hits)
    }
  }

  class Board {
    const grid: array2<int>
    var ships: seq<Ship>
    var shots: seq<Pos>
    /** The objects this board is made of: itself, its grid, its ships. */
    ghost var Repr: set<object>

    ghost predicate Valid()
      reads this, Repr
    {
      && Owned()
      && (forall i, j :: 0 <= i < j < |ships| ==> ships[i] != ships[j])
      && WellFormed(State())
    }

    /** Repr holds the board, its grid and its ships, and the grid is 10x10. */
    ghost predicate Owned()
      reads this, Repr
    {
      && this in Repr && grid in Repr
      && (forall k :: 0 <= k < |ships| ==> ships[k] in Repr)
      && grid.Length0 == Rows && grid.Length1 == Cols
    }

    ghost function GridValue(): (g: seq<seq<int>>)
      reads grid
      requires grid.Length0 == Rows && grid.Length1 == Cols
      ensures GridShaped(g)
      ensures forall r, c :: 0 <= r < Rows && 0 <= c < Cols ==> g[r][c] == grid[r, c]
    {
      seq(Rows, r requires 0 <= r < Rows reads grid =>
        seq(Cols, c requires 0 <= c < Cols reads grid => grid[r, c]))
    }

    ghost function FleetValue(): (f: seq<ShipState>)
      reads this, ships
      ensures |f| == |ships|
      ensures forall k :: 0 <= k < |ships| ==> f[k] == ships[k].Value()
    {
      var ss := ships;
      seq(|ss|, k requires 0 <= k < |ss| reads ss => ss[k].Value())
    }

    /** The board as a value. */
    ghost function State(): BoardState
      reads this, Repr
      requires Owned()
    {
      BoardState(GridValue(), FleetValue(), shots)
    }

    constructor ()
      ensures Valid() && fresh(Repr)
      ensures ships == [] && State() == EmptyBoard()
    {
      grid := new int[Rows, Cols]((r, c) => 0);
      ships := [];
      shots := [];
      Repr := {this, grid};
      new;
      GridEquality(GridValue(), EmptyBoard().grid);
    }

    /** can_place: scans the positions and answers False at the first one
        outside the grid or on a marked cell. The lower bounds are the
        correction of CanPlaceAsWritten. */
    method CanPlace(ship: Ship) returns (ok: bool)
      requires Valid()
      ensures ok == Placeable(State(), ship.positions)
    {
      var i := 0;
      while i < |ship.positions|
        invariant 0 <= i <= |ship.positions|
        invariant forall j :: 0 <= j < i ==>
                    var p := ship.positions[j];
                    0 <= p.row < Rows && 0 <= p.col < Cols && grid[p.row, p.col] != 1
      {
        var pos := ship.positions[i];
        assert pos in ship.positions;
        if pos.row < 0 || pos.row >= Rows || pos.col < 0 || pos.col >= Cols || grid[pos.row, pos.col] == 1 {
          return false;
        }
        i := i + 1;
      }
      return true;
    }

    /** place_ship: sets every position's grid cell to 1, then appends the
        ship. It does not check can_place itself. */
    method PlaceShip(ship: Ship)
      requires Valid()
      requires ship !in Repr && ship.hits == []
      requires forall p :: p in ship.positions ==> InGrid(p)
      modifies Repr
      ensures Valid() && Repr == old(Repr) + {ship}
      ensures ships == old(ships) + [ship]
      ensures State() == PlaceSpec(old(State()), ship.Value())
    {
      var i := 0;
      while i < |ship.positions|
        invariant 0 <= i <= |ship.positions|
        invariant ships == old(ships) && shots == old(shots) && Repr == old(Repr)
        invariant forall k :: 0 <= k < |ships| ==> ships[k].hits == old(ships[k].hits)
        invariant forall r, c :: 0 <= r < Rows && 0 <= c < Cols ==>
                    grid[r, c] == if Pos(r, c) in ship.positions[..i] then 1 else old(grid[r, c])
      {
        var pos := ship.positions[i];
        assert InGrid(pos);
        grid[pos.row, pos.col] := 1;
        assert ship.positions[..i + 1] == ship.positions[..i] + [pos];
        i := i + 1;
      }
      assert ship.positions[..i] == ship.positions;
      ships := ships + [ship];
      Repr := Repr + {ship};
      ghost var before := old(State());
      GridEquality(GridValue(), Mark(before.grid, ship.positions));
      assert FleetValue() == before.fleet + [ship.Value()];
      PlacePreservesWellFormed(before, ship.Value());
    }

    /** shoot: a logged position is answered already_shot; otherwise it is
        logged and the ships are scanned in order, the first one holding it
        records the hit and answers sunk or hit; no holder means miss. */
    method Shoot(pos: Pos) returns (r: Outcome)
      requires Valid()
      modifies Repr
      ensures Valid() && Repr == old(Repr)
      ensures ships == old(ships)
      ensures State() == ShotSpec(old(State()), pos).board
      ensures r == ShotSpec(old(State()), pos).outcome
    {
      ghost var before := State();
      ShootPreservesWellFormed(before, pos);
      if pos in shots {
        return AlreadyShot;
      }
      shots := shots + [pos];
      var i := 0;
      while i < |ships|
        invariant 0 <= i <= |ships|
        invariant ships == old(ships) && shots == old(shots) + [pos] && Repr == old(Repr)
        invariant forall k :: 0 <= k < |ships| ==> ships[k].hits == old(ships[k].hits)
        invariant forall j :: 0 <= j < i ==> pos !in ships[j].positions
      {
        var ship := ships[i];
        if pos in ship.positions {
          assert FirstShipAt(before.fleet, pos) == i by {
            assert before.fleet[i] == ship.Value();
            assert forall j :: 0 <= j < i ==> pos !in before.fleet[j].positions;
          }
          ship.hits := ship.hits + [pos];
          assert FleetValue() == before.fleet[i := ship.Value()];
          if ShipSunk(ship.Value()) {
            return Sunk;
          }
          return Hit;
        }
        i := i + 1;
      }
      assert !Covered(before.fleet, pos);
      assert FleetValue() == before.fleet;
      return Miss;
    }
  }

  /** Two grids of the board's shape with the same cells are equal. */
  lemma GridEquality(g: seq<seq<int>>, h: seq<seq<int>>)
    requires GridShaped(g) && GridShaped(h)
    requires forall r, c :: 0 <= r < Rows && 0 <= c < Cols ==> g[r][c] == h[r][c]
    ensures g == h
  {
    forall r | 0 <= r < Rows ensures g[r] == h[r] {
      assert forall c :: 0 <= c < Cols ==> g[r][c] == h[r][c];
    }
  }

  /** A board as the endpoints keep it: valid, and no two ships share a
      cell. */
  ghost predicate Ready(board: Board)
    reads board, board.Repr
  {
    board.Valid() && NoOverlap(board.State().fleet)
  }

  /** The body of the place_ship endpoint once the board is chosen: place
      only what can_place accepts. */
  method PlaceOn(board: Board, ship: Ship) returns (reply: PlaceReply)
    requires Ready(board)
    requires ship !in board.Repr && ship.hits == []
    modifies board.Repr
    ensures Ready(board)
    ensures board.Repr == old(board.Repr) + if reply == ShipPlaced then {ship} else {}
    ensures reply == ShipPlaced <==> Placeable(old(board.State()), ship.positions)
    ensures board.State() ==
              if reply == ShipPlaced then PlaceSpec(old(board.State()), ship.Value())
              else old(board.State())
  {
    var ok := board.CanPlace(ship);
    if ok {
      CheckedPlacementKeepsShipsApart(board.State(), ship.Value());
      board.PlaceShip(ship);
      reply := ShipPlaced;
    } else {
      reply := CannotPlaceHere;
    }
  }

  /** Answer of the place_ship endpoint. */
  datatype PlaceReply = ShipPlaced | CannotPlaceHere

  /** The module-level game: one board per side. */
  class Game {
    const playerBoard: Board
    const computerBoard: Board

    ghost predicate Valid()
      reads playerBoard, playerBoard.Repr, computerBoard, computerBoard.Repr
    {
      && playerBoard.Repr !! computerBoard.Repr
      && Ready(playerBoard) && Ready(computerBoard)
    }

    /** The board a place_ship call for player goes to. */
    function PlacementBoard(player: string): Board {
      if player == "player" then playerBoard else computerBoard
    }

    /** The board a shoot call by player fires at: the opponent's. */
    function TargetBoard(player: string): Board {
      if player == "player" then computerBoard else playerBoard
    }

    constructor ()
      ensures Valid() && fresh(playerBoard.Repr) && fresh(computerBoard.Repr)
      ensures playerBoard.State() == EmptyBoard() && computerBoard.State() == EmptyBoard()
    {
      playerBoard := new Board();
      computerBoard := new Board();
    }

    /** The place_ship endpoint: "player" places on the player's board, any
        other name on the computer's; the ship is placed only when can_place
        accepts it, and otherwise the call fails with nothing changed. */
    method PlaceShip(size: int, orientation: int, positions: seq<Pos>, player: string)
      returns (reply: PlaceReply)
      requires Valid()
      modifies playerBoard.Repr, computerBoard.Repr
      ensures Valid()
      ensures fresh(playerBoard.Repr - old(playerBoard.Repr))
      ensures fresh(computerBoard.Repr - old(computerBoard.Repr))
      ensures var b := old(PlacementBoard(player).State());
              reply == ShipPlaced <==> Placeable(b, positions)
      ensures var b := old(PlacementBoard(player).State());
              PlacementBoard(player).State() ==
                if reply == ShipPlaced then PlaceSpec(b, ShipState(size, orientation, positions, []))
                else b
      ensures TargetBoard(player).State() == old(TargetBoard(player).State())
    {
      var ship := new Ship(size, orientation, positions);
      if player == "player" {
        reply := PlaceOn(playerBoard, ship);
      } else {
        reply := PlaceOn(computerBoard, ship);
      }
    }

    /** The shoot endpoint: "player" fires at the computer's board, any
        other name at the player's. */
    method Shoot(pos: Pos, player: string) returns (r: Outcome)
      requires Valid()
      modifies playerBoard.Repr, computerBoard.Repr
      ensures Valid()
      ensures playerBoard.Repr == old(playerBoard.Repr) && computerBoard.Repr == old(computerBoard.Repr)
      ensures var shot := ShotSpec(old(TargetBoard(player).State()), pos);
              TargetBoard(player).State() == shot.board && r == shot.outcome
      ensures PlacementBoard(player).State() == old(PlacementBoard(player).State())
    {
      if player == "player" {
        ShootPreservesNoOverlap(computerBoard.State(), pos);
        r := computerBoard.Shoot(pos);
      } else {
        ShootPreservesNoOverlap(playerBoard.State(), pos);
        r := playerBoard.Shoot(pos);
      }
    }
  }
}
