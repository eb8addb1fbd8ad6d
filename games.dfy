/** The game engine and the game-state store, as the web layer sees them.
    The engine (`Game`, `play_tick`, `execute`, `action_from_json`,
    `get_state_index`) is not modelled: it is handed in as a record of
    function values, so every property below holds for any engine. The
    store keeps, per game id, the list of saved states, newest last. */
module Games {
  import opened Common

  /** The engine operations the backend calls, over an abstract game state `G`
      and an abstract parsed action `A`. `execute` fails with the engine's
      `ValueError` message. `newGame` receives the id that `Game` would draw
      from uuid4. */
  datatype Engine<!G, !A> = Engine(
    newGame: (seq<Color>, string) -> G,
    gameId: G -> string,
    stateIndex: G -> int,
    currentColor: G -> Color,
    currentIsBot: G -> bool,
    winner: G -> Option<Color>,
    playTick: G -> G,
    execute: (G, A) -> Result<G, string>,
    actionFromJson: Json -> A)

  /** Saved game states: `upsert_game_state` appends, `get_game_state`
      reads the newest or a given index, `delete_game` drops a game. */
  class GameDb<G> {
    var states: map<string, seq<G>>

    ghost predicate Valid()
      reads this
    {
      forall id :: id in states ==> states[id] != []
    }

    constructor ()
      ensures Valid() && states == map[]
    {
      states := map[];
    }

    /** `get_game_state(game_id)`: the newest saved state, if any. */
    function Latest(id: string): Option<G>
      reads this
    {
      if id in states && states[id] != [] then Some(states[id][|states[id]| - 1]) else None
    }

    /** `get_game_state(game_id, state_index)`. */
    function At(id: string, index: Option<int>): Option<G>
      reads this
    {
      match index
      case None => Latest(id)
      case Some(i) =>
        if id in states && 0 <= i < |states[id]| then Some(states[id][i]) else None
    }

    /** `upsert_game_state(game)`: saves a new newest state for the game. */
    method Upsert(id: string, g: G)
      requires Valid()
      modifies this
      ensures Valid()
      ensures states == old(states)[id := (if id in old(states) then old(states)[id] else []) + [g]]
      ensures Latest(id) == Some(g)
    {
      var previous := if id in states then states[id] else [];
      states := states[id := previous + [g]];
    }

    /** `delete_game(game_id)`: drops every saved state of the game and tells
        whether there was any. */
    method Delete(id: string) returns (deleted: bool)
      requires Valid()
      modifies this
      ensures Valid()
      ensures deleted == (id in old(states))
      ensures states == old(states) - {id}
      ensures Latest(id) == None
    {
      deleted := id in states;
      states := states - {id};
    }
  }
}
