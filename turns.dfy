/** The turn rule of both clients (client/game.py game_phase and
    client/client.py game_loop): the side to move keeps firing after hit,
    sunk or already_shot, and loses the move only on a miss. */
module Turns {
  import opened BoardSpec

  /** player_turn after a shot fired by the side to move. */
  function PassOnMiss(playerTurn: bool, r: Outcome): bool {
    if r == Miss then !playerTurn else playerTurn
  }

  /** player_turn after a run of shots, each fired by the side to move. */
  function TurnAfter(playerTurn: bool, results: seq<Outcome>): bool
    decreases |results|
  {
    if results == [] then playerTurn else TurnAfter(PassOnMiss(playerTurn, results[0]), results[1..])
  }

  function Misses(results: seq<Outcome>): nat {
    if results == [] then 0 else (if results[0] == Miss then 1 else 0) + Misses(results[1..])
  }

  /** The turn has changed hands exactly when an odd number of the shots
      missed. */
  lemma {:induction false} TurnFollowsMissParity(playerTurn: bool, results: seq<Outcome>)
    ensures TurnAfter(playerTurn, results) == if Misses(results) % 2 == 0 then playerTurn else !playerTurn
    decreases |results|
  {
    if results != [] {
      TurnFollowsMissParity(PassOnMiss(playerTurn, results[0]), results[1..]);
    }
  }

  lemma {:induction false} NoMissesCounted(results: seq<Outcome>)
    requires forall i :: 0 <= i < |results| ==> results[i] != Miss
    ensures Misses(results) == 0
  {
    if results != [] {
      assert forall i :: 0 <= i < |results[1..]| ==> results[1..][i] == results[i + 1];
      NoMissesCounted(results[1..]);
    }
  }

  lemma {:induction false} MissesAppend(a: seq<Outcome>, b: seq<Outcome>)
    ensures Misses(a + b) == Misses(a) + Misses(b)
  {
    if a == [] {
      assert a + b == b;
    } else {
      assert (a + b)[0] == a[0] && (a + b)[1..] == a[1..] + b;
      MissesAppend(a[1..], b);
    }
  }

  /** A run of hits, sinks and repeated shots never changes whose turn it is. */
  lemma NoMissKeepsTurn(playerTurn: bool, results: seq<Outcome>)
    requires forall i :: 0 <= i < |results| ==> results[i] != Miss
    ensures TurnAfter(playerTurn, results) == playerTurn
  {
    NoMissesCounted(results);
    TurnFollowsMissParity(playerTurn, results);
  }

  /** The first miss after such a run hands the turn over, exactly once. */
  lemma FirstMissPassesTurn(playerTurn: bool, results: seq<Outcome>)
    requires forall i :: 0 <= i < |results| ==> results[i] != Miss
    ensures TurnAfter(playerTurn, results + [Miss]) == !playerTurn
  {
    NoMissesCounted(results);
    MissesAppend(results, [Miss]);
    assert Misses([Miss]) == 1 by {
      assert [Miss][1..] == [];
    }
    TurnFollowsMissParity(playerTurn, results + [Miss]);
  }

  /** player_turn in game_phase after a run of shot replies: the flag only
      ever goes from True to False, and replies arrive only while it is True. */
  function PlayerOnlyTurnAfter(playerTurn: bool, results: seq<Outcome>): bool
    decreases |results|
  {
    if results == [] then playerTurn
    else PlayerOnlyTurnAfter(playerTurn && results[0] != Miss, results[1..])
  }

  /** In game_phase the player keeps the turn exactly until the first miss
      and never gets it back. */
  lemma {:induction false} PlayerOnlyTurnEndsAtFirstMiss(playerTurn: bool, results: seq<Outcome>)
    ensures PlayerOnlyTurnAfter(playerTurn, results) == (playerTurn && Misses(results) == 0)
    decreases |results|
  {
    if results != [] {
      PlayerOnlyTurnEndsAtFirstMiss(playerTurn && results[0] != Miss, results[1..]);
    }
  }
}
