/** The state the client's placement and game screens keep between events
    (client/game.py placement_phase and game_phase), without drawing,
    messages or network calls. */
module GameClient {
  import opened Grid
  import opened BoardSpec
  import opened Placement
  import opened Turns

  /** The sizes of the placed ships, in placement order. */
  function SizesOf(placed: seq<PlacedShip>): (sizes: seq<int>)
    ensures |sizes| == |placed|
    ensures forall k :: 0 <= k < |placed| ==> sizes[k] == placed[k].size
  {
    seq(|placed|, k requires 0 <= k < |placed| => placed[k].size)
  }

  /** The placement screen: the ships still to place, the ships placed,
      the ship being dragged and the finish button. */
  class PlacementPhase {
    var orientation: int
    var shipsToPlace: seq<int>
    var currentShipIndex: int
    var currentShipSize: int
    var dragging: bool
    var placedShips: seq<PlacedShip>
    var finishButtonActive: bool
    /** The sizes handed out when the screen opened. */
    ghost const fleet: seq<int>

    ghost predicate Valid()
      reads this
    {
      && (orientation == 0 || orientation == 1)
      && (dragging ==> 0 <= currentShipIndex < |shipsToPlace| && currentShipSize == shipsToPlace[currentShipIndex])
      && multiset(shipsToPlace) + multiset(SizesOf(placedShips)) == multiset(fleet)
      && (finishButtonActive <==> shipsToPlace == [])
      && AllInGrid(placedShips)
      && Separated(placedShips)
    }

    /** The screen as it opens: the whole fleet to place, horizontal, the
        finish button inactive. */
    constructor ()
      ensures Valid()
      ensures fleet == FleetSizes && shipsToPlace == FleetSizes && placedShips == []
      ensures orientation == 0 && !dragging && !finishButtonActive
    {
      orientation := 0;
      shipsToPlace := FleetSizes;
      currentShipIndex := 0;
      currentShipSize := FleetSizes[0];
      dragging := false;
      placedShips := [];
      finishButtonActive := false;
      fleet := FleetSizes;
    }

    /** The R key turns the ship being placed. */
    method Rotate()
      requires Valid()
      modifies this
      ensures Valid()
      ensures orientation == (old(orientation) + 1) % 2
      ensures shipsToPlace == old(shipsToPlace) && placedShips == old(placedShips)
      ensures dragging == old(dragging) && finishButtonActive == old(finishButtonActive)
      ensures currentShipIndex == old(currentShipIndex) && currentShipSize == old(currentShipSize)
    {
      orientation := (orientation + 1) % 2;
    }

    /** A press on row shipIndex of the fleet panel picks that entry of
        ships_to_place up, when there is one. */
    method PickShip(shipIndex: int)
      requires Valid()
      modifies this
      ensures Valid()
      ensures if 0 <= shipIndex < |shipsToPlace|
              then dragging && currentShipIndex == shipIndex && currentShipSize == shipsToPlace[shipIndex]
              else dragging == old(dragging) && currentShipIndex == old(currentShipIndex)
                   && currentShipSize == old(currentShipSize)
      ensures shipsToPlace == old(shipsToPlace) && placedShips == old(placedShips)
      ensures orientation == old(orientation) && finishButtonActive == old(finishButtonActive)
    {
      if 0 <= shipIndex < |shipsToPlace| {
        dragging := true;
        currentShipIndex := shipIndex;
        currentShipSize := shipsToPlace[shipIndex];
      }
    }

    /** Releasing the mouse ends a drag. Over the grid (cell is the cell
        under the cursor) a valid placement appends the ship to
        placed_ships and pops it from ships_to_place; the finish button
        lights up once nothing is left to place. */
    method Drop(cell: Option<Pos>)
      requires Valid()
      requires cell.Some? ==> InGrid(cell.value)
      modifies this
      ensures Valid()
      ensures !dragging && orientation == old(orientation)
      ensures if old(dragging) && cell.Some?
                 && IsValidPlacement(old(placedShips), old(currentShipSize), orientation, cell.value)
              then
                && placedShips == old(placedShips) + [PlacedShip(old(currentShipSize), orientation, cell.value)]
                && shipsToPlace == old(shipsToPlace[..currentShipIndex] + shipsToPlace[currentShipIndex + 1..])
              else
                placedShips == old(placedShips) && shipsToPlace == old(shipsToPlace)
                && finishButtonActive == old(finishButtonActive)
      ensures finishButtonActive <==> shipsToPlace == []
    {
      if dragging && cell.Some? && IsValidPlacement(placedShips, currentShipSize, orientation, cell.value) {
        Place(cell.value);
      }
      dragging := false;
    }

    /** The accepting branch of Drop: the dragged ship goes down at start. */
    method Place(start: Pos)
      requires Valid() && dragging && InGrid(start)
      requires IsValidPlacement(placedShips, currentShipSize, orientation, start)
      modifies this
      ensures Valid() && !dragging && orientation == old(orientation)
      ensures placedShips == old(placedShips) + [PlacedShip(old(currentShipSize), orientation, start)]
      ensures shipsToPlace == old(shipsToPlace[..currentShipIndex] + shipsToPlace[currentShipIndex + 1..])
    {
      var ship := PlacedShip(currentShipSize, orientation, start);
      AcceptedShipKeepsFleetApart(placedShips, currentShipSize, orientation, start);
      TakingShipKeepsFleet(fleet, shipsToPlace, currentShipIndex, placedShips, ship);
      placedShips := placedShips + [ship];
      shipsToPlace := shipsToPlace[..currentShipIndex] + shipsToPlace[currentShipIndex + 1..];
      finishButtonActive := shipsToPlace == [];
      dragging := false;
    }
  }

  /** Moving entry i of ships_to_place, as a ship of that size, to the
      placed ships keeps the two together equal to the fleet. */
  lemma TakingShipKeepsFleet(fleet: seq<int>, pending: seq<int>, i: int, placed: seq<PlacedShip>, ship: PlacedShip)
    requires 0 <= i < |pending| && ship.size == pending[i]
    requires multiset(pending) + multiset(SizesOf(placed)) == multiset(fleet)
    ensures multiset(pending[..i] + pending[i + 1..]) + multiset(SizesOf(placed + [ship]))
            == multiset(fleet)
  {
    assert pending == pending[..i] + [pending[i]] + pending[i + 1..];
    assert SizesOf(placed + [ship]) == SizesOf(placed) + [ship.size];
  }

  /** Once the finish button is active the placed ships are the whole
      fleet: ten ships, twenty cells, inside the grid and pairwise apart. */
  lemma FinishedPlacementIsWholeFleet(phase: PlacementPhase)
    requires phase.Valid() && phase.finishButtonActive && phase.fleet == FleetSizes
    ensures |phase.placedShips| == 10 && Sum(SizesOf(phase.placedShips)) == 20
    ensures AllInGrid(phase.placedShips) && Separated(phase.placedShips)
  {
    CompleteFleet(SizesOf(phase.placedShips));
  }

  /** The game screen of game.py: it only tracks whose turn it is. */
  class GamePhase {
    var playerTurn: bool

    constructor ()
      ensures playerTurn
    {
      playerTurn := true;
    }

    /** A click on the opponent's grid. The shot is sent only on the
        player's turn, and reply is the server's answer to it. */
    method Click(reply: Outcome)
      modifies this
      ensures playerTurn == (old(playerTurn) && reply != Miss)
      ensures old(playerTurn) ==> playerTurn == PassOnMiss(old(playerTurn), reply)
    {
      if playerTurn {
        if reply == Miss {
          playerTurn := false;
        }
      }
    }
  }
}
