/** The single-screen client (client/client.py): the cell list that
    place_ship sends for a ship, and the player_turn exchange of game_loop
    driving the server's Game. */
module Client {
  import opened Grid
  import opened BoardSpec
  import opened Placement
  import opened Turns
  import Server

  /** The positions list place_ship builds from size, orientation and
      start_pos: range(size) is empty for a size below one. */
  function ShipPositions(size: int, orientation: int, start: Pos): (ps: seq<Pos>)
    ensures |ps| == if size < 0 then 0 else size
    ensures size > 0 ==> ps[0] == start
    ensures orientation == 1 ==> forall i :: 0 <= i < |ps| ==> ps[i] == Pos(start.row + i, start.col)
    ensures orientation == 0 ==> forall i :: 0 <= i < |ps| ==> ps[i] == Pos(start.row, start.col + i)
    ensures orientation != 0 && orientation != 1 ==> forall i :: 0 <= i < |ps| ==> ps[i] == start
  {
    if size <= 0 then [] else seq(size, i requires 0 <= i < size => DrawnCell(start, orientation, i))
  }

  /** For the two orientations the client produces, the cells sent to the
      server are the cells is_valid_placement checked, and they are
      distinct. */
  lemma {:induction false} ShipPositionsAreValidatedCells(size: int, orientation: int, start: Pos)
    requires orientation == 0 || orientation == 1
    ensures var ps := ShipPositions(size, orientation, start);
            && (forall i :: 0 <= i < |ps| ==> ps[i] == ShipCell(start, orientation, i))
            && NoDuplicates(ps)
  {
    var ps := ShipPositions(size, orientation, start);
    forall i | 0 <= i < |ps| ensures ps[i] == ShipCell(start, orientation, i) {
      CellConventionsAgree(start, orientation, i);
    }
  }

  /** With any other orientation the list is size copies of start_pos, so
      a ship of two or more cells repeats a position. */
  lemma OffAxisShipRepeatsStart(size: int, orientation: int, start: Pos)
    requires orientation != 0 && orientation != 1 && size >= 2
    ensures !NoDuplicates(ShipPositions(size, orientation, start))
  {
    var ps := ShipPositions(size, orientation, start);
    assert ps[0] == ps[1];
  }

  /** On the server's empty board, can_place accepts a client ship dropped
      on a grid cell exactly when is_valid_placement's bounds test does. */
  lemma ClientShipOnEmptyServerBoard(size: int, orientation: int, start: Pos)
    requires InGrid(start) && size >= 1 && (orientation == 0 || orientation == 1)
    ensures var ps := ShipPositions(size, orientation, start);
            Placeable(EmptyBoard(), ps) <==> FitsGrid(size, orientation, start)
  {
    var ps := ShipPositions(size, orientation, start);
    if Placeable(EmptyBoard(), ps) {
      assert ps[size - 1] in ps;
    }
  }

  /** A placed ship as the server receives it from place_ship. */
  function ServerShip(s: PlacedShip): (ship: ShipState)
    ensures ship.size == s.size && ship.orientation == s.orientation && ship.hits == []
    ensures ship.positions == ShipPositions(s.size, s.orientation, s.start)
  {
    ShipState(s.size, s.orientation, ShipPositions(s.size, s.orientation, s.start), [])
  }

  /** What the place_ship endpoint answered to each ship and the board it
      left behind. */
  datatype Sent = Sent(replies: seq<Server.PlaceReply>, board: BoardState)

  /** Ships sent one by one, in order, to the place_ship endpoint: each is
      placed when can_place accepts it and refused otherwise. */
  function SendFleet(b: BoardState, placed: seq<PlacedShip>): (r: Sent)
    requires GridShaped(b.grid)
    ensures |r.replies| == |placed| && GridShaped(r.board.grid)
    decreases |placed|
  {
    if placed == [] then Sent([], b)
    else
      var ship := ServerShip(placed[0]);
      assert forall k :: 0 <= k < |placed[1..]| ==> placed[1..][k] == placed[k + 1];
      if Placeable(b, ship.positions) then
        var rest := SendFleet(PlaceSpec(b, ship), placed[1..]);
        Sent([Server.ShipPlaced] + rest.replies, rest.board)
      else
        var rest := SendFleet(b, placed[1..]);
        Sent([Server.CannotPlaceHere] + rest.replies, rest.board)
  }

  /** A fleet the placement screen accepted (inside the grid, no two ships
      touching) is accepted ship by ship by the server's can_place on an
      empty board: the client's rule is the stricter one. */
  lemma ClientFleetAcceptedByServer(placed: seq<PlacedShip>)
    requires AllInGrid(placed) && Separated(placed)
    requires forall k :: 0 <= k < |placed| ==> placed[k].orientation == 0 || placed[k].orientation == 1
    ensures var sent := SendFleet(EmptyBoard(), placed);
            forall k :: 0 <= k < |placed| ==> sent.replies[k] == Server.ShipPlaced
  {
    PlacedCellsInGrid(placed);
    FleetFitsFreeBoard(EmptyBoard(), placed);
  }

  /** The cells sent for the placed ships are the validated cells, hence
      in the grid. */
  lemma PlacedCellsInGrid(placed: seq<PlacedShip>)
    requires AllInGrid(placed)
    requires forall k :: 0 <= k < |placed| ==> placed[k].orientation == 0 || placed[k].orientation == 1
    ensures forall k, p :: 0 <= k < |placed| && p in ServerShip(placed[k]).positions ==> InGrid(p)
  {
    forall k, p | 0 <= k < |placed| && p in ServerShip(placed[k]).positions ensures InGrid(p) {
      var s := placed[k];
      ShipPositionsAreValidatedCells(s.size, s.orientation, s.start);
      var ps := ServerShip(s).positions;
      var i :| 0 <= i < |ps| && ps[i] == p;
      assert p == CellOf(s, i);
    }
  }

  /** Induction step of ClientFleetAcceptedByServer: on a well-formed board
      where no ship covers any cell of the fleet still to send, every ship
      of a separated fleet is placed. */
  lemma {:induction false} FleetFitsFreeBoard(b: BoardState, placed: seq<PlacedShip>)
    requires WellFormed(b) && Separated(placed)
    requires forall k :: 0 <= k < |placed| ==> placed[k].orientation == 0 || placed[k].orientation == 1
    requires forall k, p :: 0 <= k < |placed| && p in ServerShip(placed[k]).positions ==> InGrid(p)
    requires forall k, p :: 0 <= k < |placed| && p in ServerShip(placed[k]).positions ==> !Covered(b.fleet, p)
    ensures var sent := SendFleet(b, placed);
            forall k :: 0 <= k < |placed| ==> sent.replies[k] == Server.ShipPlaced
    decreases |placed|
  {
    if placed != [] {
      var ship := ServerShip(placed[0]);
      var rest := placed[1..];
      assert forall k :: 0 <= k < |rest| ==> rest[k] == placed[k + 1];
      assert forall p :: p in ship.positions ==> InGrid(p);
      PlaceableIffFree(b, ship.positions);
      assert Placeable(b, ship.positions);
      var b' := PlaceSpec(b, ship);
      PlacePreservesWellFormed(b, ship);
      forall k, p | 0 <= k < |rest| && p in ServerShip(rest[k]).positions ensures !Covered(b'.fleet, p) {
        CoveredAfterPlace(b.fleet, ship, p);
        SeparatedShipsShareNoCell(placed, 0, k + 1, p);
      }
      assert forall k, i :: 0 <= k < |rest| && 0 <= i < rest[k].size ==>
               CellOf(rest[k], i) == CellOf(placed[k + 1], i);
      FleetFitsFreeBoard(b', rest);
      var sent := SendFleet(b, placed);
      assert sent.replies == [Server.ShipPlaced] + SendFleet(b', rest).replies;
    }
  }

  /** After a ship is appended, a cell is covered when it was before or
      the new ship lists it. */
  lemma CoveredAfterPlace(fleet: seq<ShipState>, s: ShipState, p: Pos)
    ensures Covered(fleet + [s], p) <==> Covered(fleet, p) || p in s.positions
  {
    var f := fleet + [s];
    if Covered(f, p) {
      var k :| 0 <= k < |f| && p in f[k].positions;
      if k < |fleet| {
        assert f[k] == fleet[k];
      }
    }
    if Covered(fleet, p) {
      var k :| 0 <= k < |fleet| && p in fleet[k].positions;
      assert f[k] == fleet[k];
    }
    if p in s.positions {
      assert f[|fleet|] == s;
    }
  }

  /** Two ships of a separated fleet send no common cell. */
  lemma SeparatedShipsShareNoCell(placed: seq<PlacedShip>, a: int, b: int, p: Pos)
    requires Separated(placed) && 0 <= a < b < |placed|
    requires placed[a].orientation == 0 || placed[a].orientation == 1
    requires placed[b].orientation == 0 || placed[b].orientation == 1
    ensures p in ServerShip(placed[b]).positions ==> p !in ServerShip(placed[a]).positions
  {
    var sa, sb := placed[a], placed[b];
    ShipPositionsAreValidatedCells(sa.size, sa.orientation, sa.start);
    ShipPositionsAreValidatedCells(sb.size, sb.orientation, sb.start);
    var pa, pb := ServerShip(sa).positions, ServerShip(sb).positions;
    if p in pb {
      var j :| 0 <= j < |pb| && pb[j] == p;
      forall i | 0 <= i < |pa| ensures pa[i] != p {
        assert !Touching(CellOf(sa, i), CellOf(sb, j));
      }
    }
  }

  /** game_loop's state: the server's game and the player_turn flag. */
  class Match {
    const game: Server.Game
    var playerTurn: bool

    ghost predicate Valid()
      reads game.playerBoard, game.playerBoard.Repr, game.computerBoard, game.computerBoard.Repr
    {
      && game.Valid()
      && this !in game.playerBoard.Repr && this !in game.computerBoard.Repr
    }

    /** game_loop starts with the player to move. */
    constructor (game: Server.Game)
      requires game.Valid()
      ensures Valid() && this.game == game && playerTurn
    {
      this.game := game;
      playerTurn := true;
    }

    /** A click on a cell of the computer's grid: it fires as "player" only
        on the player's turn, and the turn passes on a miss. */
    method PlayerClick(cell: Pos) returns (r: Option<Outcome>)
      requires Valid()
      modifies this, game.playerBoard.Repr, game.computerBoard.Repr
      ensures Valid()
      ensures game.playerBoard.State() == old(game.playerBoard.State())
      ensures old(playerTurn) ==>
                var shot := ShotSpec(old(game.computerBoard.State()), cell);
                && r == Some(shot.outcome)
                && game.computerBoard.State() == shot.board
                && playerTurn == (shot.outcome != Miss)
      ensures !old(playerTurn) ==>
                r == None && !playerTurn && game.computerBoard.State() == old(game.computerBoard.State())
    {
      r := None;
      if playerTurn {
        var outcome := game.Shoot(cell, "player");
        r := Some(outcome);
        playerTurn := PassOnMiss(playerTurn, outcome);
      }
    }

    /** The end of a frame: when it is not the player's turn the computer
        fires as "computer" at cell, drawn by randint(0, 9) twice, and
        hands the turn back on a miss. */
    method ComputerTurn(cell: Pos) returns (r: Option<Outcome>)
      requires Valid() && InGrid(cell)
      modifies this, game.playerBoard.Repr, game.computerBoard.Repr
      ensures Valid()
      ensures game.computerBoard.State() == old(game.computerBoard.State())
      ensures !old(playerTurn) ==>
                var shot := ShotSpec(old(game.playerBoard.State()), cell);
                && r == Some(shot.outcome)
                && game.playerBoard.State() == shot.board
                && playerTurn == (shot.outcome == Miss)
      ensures old(playerTurn) ==>
                r == None && playerTurn && game.playerBoard.State() == old(game.playerBoard.State())
    {
      r := None;
      if !playerTurn {
        var outcome := game.Shoot(cell, "computer");
        r := Some(outcome);
        playerTurn := PassOnMiss(playerTurn, outcome);
      }
    }
  }

  /** A one-cell ship at (0, 0) on the computer's board: the player's shot
      there sinks it, the same shot again is already_shot, and (5, 5) is a
      miss that hands the turn to the computer. */
  lemma OneCellShipExchange()
    ensures var b0 := PlaceSpec(EmptyBoard(), ShipState(1, 0, [Pos(0, 0)], []));
            var s1 := ShotSpec(b0, Pos(0, 0));
            var s2 := ShotSpec(s1.board, Pos(0, 0));
            var s3 := ShotSpec(s2.board, Pos(5, 5));
            && s1.outcome == Sunk && s2.outcome == AlreadyShot && s3.outcome == Miss
            && TurnAfter(true, [s1.outcome, s2.outcome, s3.outcome]) == false
  {
    var b0 := PlaceSpec(EmptyBoard(), ShipState(1, 0, [Pos(0, 0)], []));
    assert FirstShipAt(b0.fleet, Pos(0, 0)) == 0;
    var s1 := ShotSpec(b0, Pos(0, 0));
    var s2 := ShotSpec(s1.board, Pos(0, 0));
    assert !Covered(s2.board.fleet, Pos(5, 5)) by {
      assert |s2.board.fleet| == 1 && s2.board.fleet[0].positions == [Pos(0, 0)];
    }
    NoMissKeepsTurn(true, [s1.outcome, s2.outcome]);
    FirstMissPassesTurn(true, [s1.outcome, s2.outcome]);
  }
}
