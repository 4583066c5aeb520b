# Sea-Battle in Dafny

A model of the game engine of a two-player Battleship game, and of the client
rules that go with it, with proofs of what the engine and the rules promise.

- **Server board engine** (`server/server.py`, modules `BoardSpec` and `Server`).
  A `Ship` has a size, an orientation, a list of positions and a list of hits.
  A `Board` has a 10x10 grid of 0/1 marks, a list of ships and a log of shots.
  It offers `can_place`, `place_ship` and `shoot`; `shoot` answers
  `already_shot`, `hit`, `sunk` or `miss`. A `Game` holds one board per side.
  The `place_ship` endpoint places a ship only when `can_place` accepts it.
  The `shoot` endpoint always fires at the opponent's board.
  - `BoardSpec` states all of this on values. Its central invariant,
    `WellFormed`, says that the grid marks are exactly the cells the ships
    list, that every ship's hits are distinct cells of its own that were shot
    at, and that the shot log has no duplicates.
  - `Server` has the same objects as classes, updated in place: an `array2`
    grid, and ships whose `hits` the board appends to. Each method is proved
    against its function in `BoardSpec`.
- **Client placement rules** (`client/game.py`, modules `Placement` and `GameClient`).
  - `is_valid_placement` checks the bounds, then overlap with the placed ships,
    then the no-touching rule over the 8-neighbourhood.
  - The cell convention it shares with `draw_ships`.
  - The fixed fleet 4, 3, 3, 2, 2, 2, 1, 1, 1, 1.
  - The placement screen's bookkeeping: `ships_to_place`, `placed_ships`, the
    dragged ship and the finish button.
  - The game screen's `player_turn` flag.
- **The single-screen client** (`client/client.py`, modules `Client` and `Turns`).
  - The position list `place_ship` builds from size, orientation and start.
  - `game_loop`'s turn exchange, which drives the server's `Game`. Either side
    keeps shooting until it misses.

The cross-component lemmas:
- `Client.ClientFleetAcceptedByServer`: a fleet accepted by the client's
  placement rules is accepted ship by ship by the server's `can_place`, so the
  client's rule is the stricter one.
- `Turns.PlayerOnlyTurnEndsAtFirstMiss`: in `game.py`'s game screen the player
  loses the turn at the first miss and never gets it back, since nothing in
  that screen sets `player_turn` to True again.

## Model

| member | source | states |
|---|---|---|
| `BoardSpec.EmptyBoard` | server/server.py:21-23 | A default board has a 10x10 grid of zeros, no ships and no shots. |
| `BoardSpec.FirstShipAt` | server/server.py:40-41 | The ship the scan in shoot stops at: the first in list order that lists the position, or none exactly when no ship lists it. |
| `BoardSpec.Mark` | server/server.py:26-27 | After place_ship's loop every listed cell is 1 and every other cell keeps its value. |
| `BoardSpec.ShotSpec` | server/server.py:36-46 | already_shot exactly for a logged position, with the board unchanged. A new position is appended to shots. Miss exactly when no ship lists it, with the ships unchanged. Hit or sunk exactly when some ship lists it: only the first such ship gains the position in its hits, and the answer is sunk exactly when that ship's hits reach its size. The grid never changes. |
| `BoardSpec.PyIndex` | server/server.py:32 | Python's list index: a negative index counts from the end, and one below -n has no element. |
| `BoardSpec.AsWrittenAgreesOnNonNegative` | server/server.py:30-34 | On positions without negative coordinates, can_place as written never raises and accepts exactly when the bounds-checked version does. |
| `BoardSpec.NegativeCellSlipsPastCanPlace` | server/server.py:25-34 | Counterexample: can_place as written accepts a ship at (-1, 0), and place_ship then marks grid[9][0], which no ship lists. The board is no longer well formed, and a shot at (9, 0) misses. |
| `BoardSpec.PlaceableIffFree` | server/server.py:30-34 | On a well-formed board, can_place holds exactly when every position lies inside the grid and no ship lists it yet. |
| `BoardSpec.PlacePreservesWellFormed` | server/server.py:25-28 | place_ship keeps the grid equal to the union of the ship cells, keeps hits consistent and the shot log duplicate-free, and appends the ship last. It holds whether or not can_place was asked. |
| `BoardSpec.CheckedPlacementKeepsShipsApart` | server/server.py:60-61 | A ship that can_place accepts lies inside the grid and shares no cell with the ships already placed. |
| `BoardSpec.ShootPreservesWellFormed` | server/server.py:36-46 | shoot keeps every ship's hits inside its positions, duplicate-free and among the shots, and keeps the shot log duplicate-free. |
| `BoardSpec.ShootPreservesNoOverlap` | server/server.py:36-46 | shoot never makes two ships share a cell. |
| `BoardSpec.RepeatedShotChangesNothing` | server/server.py:37-38 | The same shot fired a second time answers already_shot and leaves the board as the first shot left it. |
| `BoardSpec.HitShipIsUnique` | server/server.py:40-45 | When no two ships share a cell, the first ship holding the shot cell is the only one that holds it. |
| `BoardSpec.SunkIffEveryCellHit` | server/server.py:16-17 | is_sunk compares the hit count with size. For a ship whose size is its number of distinct positions, that means every one of its cells has been hit. |
| `BoardSpec.SunkMeansEveryCellHit` | server/server.py:42-44 | On a well-formed board, a sunk answer means every cell of the hit ship is now in its hits. |
| `Server.Ship.constructor` | server/server.py:10-14 | A ship built from size, orientation and positions starts with no hits. |
| `Server.Board.constructor` | server/server.py:20-23 | A new board is valid and equals the empty board. Its objects are fresh, so two boards never share a grid. |
| `Server.Board.CanPlace` | server/server.py:30-34 | Read-only scan with an early return: the answer is exactly the bounds-checked can_place on the current board. |
| `Server.Board.PlaceShip` | server/server.py:25-28 | Writes 1 into the array grid at each position and appends the ship. The new board is place_ship's function of the old one, and the board stays valid. |
| `Server.Board.Shoot` | server/server.py:36-46 | Logs the shot and appends the hit to the first holding ship, in place. The new board and the answer are shoot's function of the old board, and the board stays valid. |
| `Server.PlaceOn` | server/server.py:59-64 | The endpoint body once a board is chosen: the ship is placed exactly when can_place accepts it, and otherwise nothing changes. Ships never come to share a cell. |
| `Server.Game.constructor` | server/server.py:49-54 | The game starts with two separate empty boards. |
| `Server.Game.PlaceShip` | server/server.py:57-64 | "player" places on the player's board, and any other name on the computer's. The reply is ShipPlaced exactly when can_place accepts the ship, and the board changes only then. The other board never changes. |
| `Server.Game.Shoot` | server/server.py:67-71 | "player" fires at the computer's board, and any other name at the player's. The target changes as shoot says, and the shooter's own board never changes. |
| `Placement.CellConventionsAgree` | client/game.py:42-43 | For orientations 0 and 1, draw_ships computes the same cells as is_valid_placement. |
| `Placement.CellConventionsDifferOffAxis` | client/game.py:60-64 | For any other orientation, is_valid_placement checks a vertical ship while draw_ships draws every cell on the start cell. |
| `Placement.ValidPlacementMeansApart` | client/game.py:48-98 | While the placed ships are in the grid, is_valid_placement holds exactly when the ship passes the bounds test and none of its cells equals or touches a placed cell. |
| `Placement.EmptyBoardAcceptsEveryFit` | client/game.py:51-57 | With no ship placed, every ship that passes the bounds test is accepted. |
| `Placement.FittingShipInGrid` | client/game.py:51-64 | A ship dropped on a grid cell that passes the bounds test lies entirely inside the grid. |
| `Placement.AcceptedShipKeepsFleetApart` | client/game.py:200-202 | Appending an accepted ship keeps the placed ships inside the grid and pairwise non-touching. |
| `Placement.FleetComposition` | client/game.py:129-131 | The fleet is one 4-cell, two 3-cell, three 2-cell and four 1-cell ships: ten ships, 20 cells. |
| `Placement.CompleteFleet` | client/game.py:129-131 | Any list of sizes that is a permutation of the fleet has ten ships and 20 cells. |
| `GameClient.PlacementPhase.constructor` | client/game.py:128-140 | The screen opens with the whole fleet to place, orientation 0, nothing placed and the finish button inactive. |
| `GameClient.PlacementPhase.Rotate` | client/game.py:168-170 | The R key switches the orientation between 0 and 1 and changes nothing else. |
| `GameClient.PlacementPhase.PickShip` | client/game.py:187-193 | A press on an existing entry of ships_to_place starts dragging it with its size. Any other index changes nothing. |
| `GameClient.PlacementPhase.Drop` | client/game.py:194-214 | Releasing ends the drag. A valid drop appends the ship to placed_ships and removes exactly the dragged entry from ships_to_place. Any other release changes neither list. The finish button is active exactly when nothing is left to place. The invariant is kept: the two lists together are the fleet, and the placed ships are in the grid and apart. |
| `GameClient.PlacementPhase.Place` | client/game.py:200-210 | The accepting branch: append, pop, end the drag and set the finish button, keeping the invariant. |
| `GameClient.TakingShipKeepsFleet` | client/game.py:201-203 | Moving one entry from ships_to_place to placed_ships keeps the two together equal to the fleet. |
| `GameClient.FinishedPlacementIsWholeFleet` | client/game.py:207-208 | Once the finish button is active, the placed ships are the whole fleet: ten ships, 20 cells, inside the grid and pairwise apart. |
| `GameClient.GamePhase.constructor` | client/game.py:234 | The game screen starts with the player to move. |
| `GameClient.GamePhase.Click` | client/game.py:251-271 | player_turn becomes False only on a miss. Hit, sunk and already_shot leave it unchanged, and a click off turn changes nothing. |
| `Turns.PlayerOnlyTurnEndsAtFirstMiss` | client/game.py:259-271 | Over a run of replies, the game screen's player keeps the turn exactly while no reply was a miss. |
| `Turns.TurnFollowsMissParity` | client/client.py:138-157 | In game_loop the turn has changed hands exactly when an odd number of shots missed. |
| `Turns.NoMissKeepsTurn` | client/client.py:144-145 | A run of hits, sinks and repeated shots never changes whose turn it is. |
| `Turns.FirstMissPassesTurn` | client/client.py:146-148 | The first miss after such a run hands the turn over. |
| `Client.ShipPositions` | client/client.py:36-37 | The list has size entries (none for a size below one) and starts at start_pos. Orientation 1 walks down the column, 0 along the row, and any other value repeats start_pos. |
| `Client.ShipPositionsAreValidatedCells` | client/client.py:36-37 | For orientations 0 and 1 the cells sent are those is_valid_placement checked, and they are distinct. |
| `Client.OffAxisShipRepeatsStart` | client/client.py:36-37 | With another orientation, a ship of two or more cells sends a repeated position. |
| `Client.ClientShipOnEmptyServerBoard` | client/client.py:33-39 | On the server's empty board, can_place accepts a ship dropped on a grid cell exactly when is_valid_placement's bounds test does. |
| `Client.ClientFleetAcceptedByServer` | client/client.py:32-40 | A fleet that passed is_valid_placement, sent ship by ship to the place_ship endpoint on an empty board, is placed ship by ship. |
| `Client.Match.constructor` | client/client.py:122-125 | game_loop starts with the player to move. |
| `Client.Match.PlayerClick` | client/client.py:138-148 | Only on the player's turn does a click fire as "player" at the computer's board. The turn passes exactly on a miss, and the player's own board never changes. |
| `Client.Match.ComputerTurn` | client/client.py:150-157 | Only off the player's turn does the computer fire as "computer" at the player's board. The turn comes back exactly on a computer miss. |
| `Client.OneCellShipExchange` | client/client.py:143-157 | Worked exchange: a one-cell ship is sunk by the first shot, the repeat is already_shot and keeps the turn, and the next miss hands the turn over. |

## Findings

| source | as written | input that shows it | evidently intended | confidence | as-written member | corrected member |
|---|---|---|---|---|---|---|
| server/server.py:30-34 | can_place compares only `row >= 10` and `col >= 10`. A negative coordinate then indexes the grid from the end of the list, and one below -10 raises IndexError. | A ship with positions `[(-1, 0)]` on an empty board passes can_place. place_ship marks `grid[9][0]`, which no ship lists, and a shot at `(9, 0)` answers miss. | Positions outside 0..9 are refused, like those above 9. | high (not executed) | `BoardSpec.NegativeCellSlipsPastCanPlace` | `Server.Board.CanPlace` |

The rest of the model uses the corrected check, `BoardSpec.Placeable`. With it,
the endpoint keeps every board well formed (`Server.PlaceOn`,
`BoardSpec.PlacePreservesWellFormed`), and ships never share a cell
(`BoardSpec.CheckedPlacementKeepsShipsApart`). `BoardSpec.CanPlaceAsWritten`
keeps the original behaviour. It agrees with the corrected check on every
position without a negative coordinate (`BoardSpec.AsWrittenAgreesOnNonNegative`).
Every client in the repository sends only such positions.

## Left out

- Drawing, fonts, the frame loops and the mouse-to-cell pixel arithmetic of both clients are user interface. `Drop`, `PlayerClick` and `ComputerTurn` take the grid cell the arithmetic yields.
- `Drop` requires an in-grid cell. The pixel test at client/game.py:197 only lets in-grid cells through.
- `PickShip` takes the list index that client/game.py:188 computes. The panel is drawn from `set(ships_to_place)`, and how its rows line up with list indices is drawing, not modelled.
- `draw_messages`, the message lists and every `print`: text output only.
- HTTP, FastAPI routing and Pydantic parsing. The endpoints are methods on `Game`, and `HTTPException(400)` is the reply `CannotPlaceHere`.
- `Server.Game.PlaceShip` builds the ship from size, orientation and positions with no hits. A request that posts its own `hits` list is not modelled, because no client sends one.
- `Server.Board.PlaceShip` requires in-grid positions and no hits. The endpoint only calls it after `can_place`, on a freshly built ship. The as-written wrap-around on negative indices is captured only by `BoardSpec.NegativeCellSlipsPastCanPlace`.
- The IndexError for coordinates below -10 appears only in `BoardSpec.CanPlaceAsWritten`. The corrected check refuses those positions instead.
- `Client.Match.ComputerTurn` requires an in-grid target. That is the range `randint(0, 9)` draws from; the random draw itself is a parameter.
- game.py's network calls are not modelled: `get_game_info`, `send_ships_to_server` and its `game_id`/`"player1"` shoot request. They belong to a server protocol that server/server.py does not implement. `GameClient.GamePhase.Click` takes the reply string as a parameter.
- Leaving a screen (`run = False`, the finish button, `pygame.quit`) is control flow of the user interface.
- The module-global `game` is one `Game` object; concurrent requests on it are not modelled.
- server/database.py, client/utils.py, client/main.py and client/menu.py: storage, drawing and start-up only; none of them is part of this model.
- Python integers are unbounded, and so are Dafny's, so there is no width to model.
