/** The decision logic of the single-player game endpoints: how a state
    index is read from the URL, which player a key creates, what posting an
    action does to a stored game and what deleting a game answers. Flask's
    request and response objects are reduced to the values these decisions
    look at. */
module Api {
  import opened Common
  import opened Text
  import opened Games

  // ----- _parse_state_index -----

  /** `_parse_state_index`: `"latest"` asks for the newest state, anything
      `int()` accepts is an index, and everything else aborts with 400. */
  function ParseStateIndex(s: string): (r: Result<Option<int>, Status>)
    ensures r == Ok(None) <==> s == "latest"
    ensures r.Err? ==> r.error == BadRequest
    ensures r.Err? <==> s != "latest" && ParseInt(s).None?
    ensures s != "latest" && ParseInt(s).Some? ==> r == Ok(ParseInt(s))
  {
    if s == "latest" then Ok(None)
    else
      match ParseInt(s)
      case Some(i) => Ok(Some(i))
      case None => Err(BadRequest)
  }

  /** Every index the frontend prints is read back as itself. */
  lemma ParseStateIndexRoundTrip(i: int)
    ensures ParseStateIndex(IntToString(i)) == Ok(Some(i))
  {
    ParseIntRoundTrip(i);
    var s := IntToString(i);
    if i < 0 {
      assert s[0] == '-';
    } else {
      assert IsDigit(s[0]);
    }
  }

  // ----- get_game_endpoint -----

  /** `get_game_endpoint`: the index is parsed before the store is consulted,
      so a malformed index gives 400 even for a game that does not exist. */
  function GetGame<G>(db: GameDb<G>, id: string, index: string): (r: Result<G, Status>)
    reads db
    ensures ParseStateIndex(index).Err? ==> r == Err(BadRequest)
    ensures ParseStateIndex(index).Ok? && db.At(id, ParseStateIndex(index).value).None? ==> r == Err(NotFound)
    ensures r.Ok? <==> ParseStateIndex(index).Ok? && db.At(id, ParseStateIndex(index).value).Some?
    ensures r.Ok? ==> db.At(id, ParseStateIndex(index).value) == Some(r.value)
  {
    match ParseStateIndex(index)
    case Err(e) => Err(e)
    case Ok(at) =>
      match db.At(id, at)
      case None => Err(NotFound)
      case Some(g) => Ok(g)
  }

  /** `"latest"` serves the state `post_action_endpoint` works on. */
  lemma LatestServesNewest<G>(db: GameDb<G>, id: string)
    ensures GetGame(db, id, "latest") == (if db.Latest(id).Some? then Ok(db.Latest(id).value) else Err(NotFound))
  {
  }

  // ----- player_factory -----

  /** The three kinds of player the endpoint can seat. */
  datatype Strategy =
    | AlphaBeta(depth: nat, prunning: bool)
    | RandomMoves
    | ValueFunction

  datatype Player = Player(strategy: Strategy, color: Color, isBot: bool)

  /** `player_factory((key, color))`: CATANATRON is a depth-2 alpha-beta
      bot with pruning, RANDOM a random bot, HUMAN a value-function player
      marked as not a bot; any other key raises `ValueError`. The key comes
      from the request body, so it may be any JSON value. */
  function PlayerFactory(key: Json, color: Color): (r: Result<Player, string>)
    ensures r.Ok? <==> key in {Str("CATANATRON"), Str("RANDOM"), Str("HUMAN")}
    ensures r.Ok? ==> r.value.color == color
    ensures r.Ok? ==> (r.value.isBot <==> key != Str("HUMAN"))
    ensures key == Str("CATANATRON") ==> r == Ok(Player(AlphaBeta(2, true), color, true))
    ensures key == Str("RANDOM") ==> r == Ok(Player(RandomMoves, color, true))
    ensures key == Str("HUMAN") ==> r == Ok(Player(ValueFunction, color, false))
    ensures r.Err? ==> r.error == "Invalid player key"
  {
    if key == Str("CATANATRON") then Ok(Player(AlphaBeta(2, true), color, true))
    else if key == Str("RANDOM") then Ok(Player(RandomMoves, color, true))
    else if key == Str("HUMAN") then Ok(Player(ValueFunction, color, false))
    else Err("Invalid player key")
  }

  /** Only the HUMAN key yields a player that waits for requests. */
  lemma OnlyHumanWaits(key: Json, color: Color)
    requires PlayerFactory(key, color).Ok? && !PlayerFactory(key, color).value.isBot
    ensures key == Str("HUMAN") && PlayerFactory(key, color).value.strategy == ValueFunction
  {
  }

  // ----- post_action_endpoint -----

  /** The request body as the endpoint sees it: no bytes at all, or the
      decoded JSON document (`null` decodes to `Null`). */
  datatype RequestBody = NoData | Decoded(json: Json)

  /** `body_is_empty`: no data, a JSON `null` or an empty object. */
  predicate BodyIsEmpty(body: RequestBody)
  {
    body.NoData? || body.json == Null || body.json == Obj([])
  }

  /** What the endpoint answers and which state, if any, it saves. */
  datatype Outcome<G> = Outcome(response: Result<G, Status>, saved: Option<G>)

  /** The decision `post_action_endpoint` takes for the newest stored state
      `game` of the requested id. */
  function ActionOutcome<G, A>(engine: Engine<G, A>, game: Option<G>, body: RequestBody): (o: Outcome<G>)
    ensures game.None? ==> o == Outcome(Err(NotFound), None)
    ensures game.Some? && engine.winner(game.value).Some? ==> o == Outcome(Ok(game.value), None)
    ensures o.saved.Some? ==> o.response == Ok(o.saved.value)
    ensures o.response.Err? ==> o.saved.None?
    ensures o.response.Err? ==> o.response.error in {NotFound, BadRequest}
    ensures game.Some? && engine.winner(game.value).None? && (engine.currentIsBot(game.value) || BodyIsEmpty(body)) ==>
              o.saved == Some(engine.playTick(game.value))
    ensures o.response == Err(BadRequest) <==>
              game.Some? && engine.winner(game.value).None? && !engine.currentIsBot(game.value) && !BodyIsEmpty(body)
              && engine.execute(game.value, engine.actionFromJson(body.json)).Err?
  {
    match game
    case None => Outcome(Err(NotFound), None)
    case Some(g) =>
      if engine.winner(g).Some? then Outcome(Ok(g), None)
      else if engine.currentIsBot(g) || BodyIsEmpty(body) then
        var next := engine.playTick(g);
        Outcome(Ok(next), Some(next))
      else
        match engine.execute(g, engine.actionFromJson(body.json))
        case Err(_) => Outcome(Err(BadRequest), None)
        case Ok(next) => Outcome(Ok(next), Some(next))
  }

  /** On a bot's turn the body is ignored: every request advances the game
      by the same tick. */
  lemma BotTurnIgnoresBody<G, A>(engine: Engine<G, A>, game: G, body: RequestBody, other: RequestBody)
    requires engine.currentIsBot(game)
    ensures ActionOutcome(engine, Some(game), body) == ActionOutcome(engine, Some(game), other)
  {
  }

  /** A finished game is never changed again, whatever is posted. */
  lemma FinishedGameIsFrozen<G, A>(engine: Engine<G, A>, game: G, body: RequestBody)
    requires engine.winner(game).Some?
    ensures ActionOutcome(engine, Some(game), body).saved.None?
    ensures ActionOutcome(engine, Some(game), body).response == Ok(game)
  {
  }

  /** An empty POST on a human's turn advances the game by one tick rather
      than being refused. */
  lemma EmptyPostOnHumanTurnTicks<G, A>(engine: Engine<G, A>, game: G)
    requires engine.winner(game).None? && !engine.currentIsBot(game)
    ensures ActionOutcome(engine, Some(game), NoData) == Outcome(Ok(engine.playTick(game)), Some(engine.playTick(game)))
  {
  }

  /** A human's non-empty action is saved exactly when the engine accepts it,
      and what is saved is the engine's result. */
  lemma HumanActionSavedIffAccepted<G, A>(engine: Engine<G, A>, game: G, json: Json)
    requires engine.winner(game).None? && !engine.currentIsBot(game) && !BodyIsEmpty(Decoded(json))
    ensures ActionOutcome(engine, Some(game), Decoded(json)).saved.Some? <==>
              engine.execute(game, engine.actionFromJson(json)).Ok?
    ensures engine.execute(game, engine.actionFromJson(json)).Ok? ==>
              ActionOutcome(engine, Some(game), Decoded(json)).saved == Some(engine.execute(game, engine.actionFromJson(json)).value)
  {
  }

  /** `post_action_endpoint(game_id)`: reads the newest state, decides, and
      saves the new state when the decision says so. */
  method PostAction<G, A>(db: GameDb<G>, engine: Engine<G, A>, id: string, body: RequestBody)
      returns (r: Result<G, Status>)
    requires db.Valid()
    modifies db
    ensures db.Valid()
    ensures r == ActionOutcome(engine, old(db.Latest(id)), body).response
    ensures ActionOutcome(engine, old(db.Latest(id)), body).saved.None? ==> db.states == old(db.states)
    ensures ActionOutcome(engine, old(db.Latest(id)), body).saved.Some? ==>
              db.states == old(db.states)[id := old(db.states[id]) + [ActionOutcome(engine, old(db.Latest(id)), body).saved.value]]
  {
    var game := db.Latest(id);
    var outcome := ActionOutcome(engine, game, body);
    if outcome.saved.Some? {
      db.Upsert(id, outcome.saved.value);
    }
    r := outcome.response;
  }

  // ----- delete_game_endpoint -----

  /** The body of a successful deletion. */
  function DeletedReply(id: string): (j: Json)
    ensures j.Obj? && GetOr(j.entries, "deleted", Null) == Bool(true) && GetOr(j.entries, "game_id", Null) == Str(id)
  {
    Obj([("deleted", Bool(true)), ("game_id", Str(id))])
  }

  /** `delete_game_endpoint(game_id)`: 404 when nothing was stored under the
      id, otherwise the confirmation; either way nothing is left under it. */
  method DeleteGame<G>(db: GameDb<G>, id: string) returns (r: Result<Json, Status>)
    requires db.Valid()
    modifies db
    ensures db.Valid()
    ensures r == (if id in old(db.states) then Ok(DeletedReply(id)) else Err(NotFound))
    ensures db.states == old(db.states) - {id}
  {
    var deleted := db.Delete(id);
    if !deleted {
      r := Err(NotFound);
    } else {
      r := Ok(DeletedReply(id));
    }
  }
}
