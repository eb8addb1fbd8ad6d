/** Player-versus-player rooms: four seats in a fixed colour order, joined
    and left by user name before the host starts the game, and a store of
    session tokens that authenticates each seated user afterwards. The
    database rows become `Room` objects looked up in a map by room id, the
    `abort(code)` calls become `Err(status)` results, and the uuid4 tokens
    and game ids are parameters. */
module PvpRoom {
  import opened Common
  import opened Text
  import opened Games

  /** Seat colours, in the order seats are handed out. */
  const SEAT_ORDER: seq<Color> := [RED, BLUE, WHITE, ORANGE]
  const MIN_PLAYERS_TO_START: nat := 2

  /** Position of a colour's seat. */
  function SeatIndex(c: Color): (i: nat)
    ensures i < |SEAT_ORDER| && SEAT_ORDER[i] == c
  {
    match c
    case RED => 0
    case BLUE => 1
    case WHITE => 2
    case ORANGE => 3
  }

  datatype Seat = Seat(color: Color, userName: Option<string>)

  predicate Filled(s: Seat)
  {
    s.userName.Some?
  }

  function SeatColors(seats: seq<Seat>): seq<Color>
  {
    seq(|seats|, j requires 0 <= j < |seats| => seats[j].color)
  }

  /** No user name sits in two seats. */
  predicate UniqueNames(seats: seq<Seat>)
  {
    forall i, j :: 0 <= i < j < |seats| && Filled(seats[i]) ==> seats[i].userName != seats[j].userName
  }

  /** The seat invariant of a room: the four colours in seat order, and every
      seated name seated once. */
  predicate WellFormed(seats: seq<Seat>)
  {
    SeatColors(seats) == SEAT_ORDER && UniqueNames(seats)
  }

  /** `_default_seats`: one free seat per colour, in seat order. */
  function DefaultSeats(): (seats: seq<Seat>)
    ensures WellFormed(seats)
    ensures forall j :: 0 <= j < |seats| ==> !Filled(seats[j])
  {
    seq(|SEAT_ORDER|, j requires 0 <= j < |SEAT_ORDER| => Seat(SEAT_ORDER[j], None))
  }

  /** The name `create_room` gives a room: the requested name without
      surrounding white space, or "Room" when none or a blank one was given. */
  function RoomName(requested: Option<string>): (name: string)
    ensures name != []
    ensures !IsSpace(name[0]) && !IsSpace(name[|name| - 1])
    ensures requested.Some? && !AllSpace(requested.value) ==> name == Strip(requested.value)
    ensures requested.None? || AllSpace(requested.value) ==> name == "Room"
  {
    var stripped := if requested.Some? then Strip(requested.value) else "";
    if requested.Some? then
      StripEmptyIffBlank(requested.value);
      StripIsTrimmedSlice(requested.value);
      if stripped == "" then "Room" else stripped
    else "Room"
  }

  // ----- seats as values -----

  /** Index of the first seat held by `name`, as the first loop of
      `join_room` finds it. */
  function FindSeat(seats: seq<Seat>, name: string): (r: Option<nat>)
    ensures r.Some? ==> r.value < |seats| && seats[r.value].userName == Some(name)
    ensures r.Some? ==> forall j :: 0 <= j < r.value ==> seats[j].userName != Some(name)
    ensures r.None? <==> forall j :: 0 <= j < |seats| ==> seats[j].userName != Some(name)
  {
    if seats == [] then None
    else if seats[0].userName == Some(name) then Some(0)
    else match FindSeat(seats[1..], name)
      case None => None
      case Some(k) => Some(k + 1)
  }

  /** Index of the first free seat, as the second loop of `join_room` finds it. */
  function FirstEmpty(seats: seq<Seat>): (r: Option<nat>)
    ensures r.Some? ==> r.value < |seats| && !Filled(seats[r.value])
    ensures r.Some? ==> forall j :: 0 <= j < r.value ==> Filled(seats[j])
    ensures r.None? <==> forall j :: 0 <= j < |seats| ==> Filled(seats[j])
  {
    if seats == [] then None
    else if !Filled(seats[0]) then Some(0)
    else match FirstEmpty(seats[1..])
      case None => None
      case Some(k) => Some(k + 1)
  }

  /** What joining does to the seats: the seat index the user ends up in and the
      new seats, or `Conflict` (409) when the room is full. */
  function JoinSeats(seats: seq<Seat>, name: string): (r: Result<(nat, seq<Seat>), Status>)
    ensures r.Err? <==> FindSeat(seats, name).None? && FirstEmpty(seats).None?
    ensures r.Err? ==> r.error == Conflict
    ensures FindSeat(seats, name).Some? ==> r == Ok((FindSeat(seats, name).value, seats))
    ensures FindSeat(seats, name).None? && r.Ok? ==> r.value.0 == FirstEmpty(seats).value
    ensures r.Ok? ==>
              && r.value.0 < |r.value.1| == |seats|
              && r.value.1[r.value.0] == Seat(seats[r.value.0].color, Some(name))
              && forall j :: 0 <= j < |seats| && j != r.value.0 ==> r.value.1[j] == seats[j]
  {
    match FindSeat(seats, name)
    case Some(i) => Ok((i, seats))
    case None =>
      match FirstEmpty(seats)
      case Some(i) => Ok((i, seats[i := Seat(seats[i].color, Some(name))]))
      case None => Err(Conflict)
  }

  /** What leaving does to the seats: every seat of the given colour is freed. */
  function Vacate(seats: seq<Seat>, color: Color): (after: seq<Seat>)
    ensures |after| == |seats|
    ensures forall j :: 0 <= j < |seats| && seats[j].color == color ==> after[j] == Seat(color, None)
    ensures forall j :: 0 <= j < |seats| && seats[j].color != color ==> after[j] == seats[j]
  {
    seq(|seats|, j requires 0 <= j < |seats| =>
      if seats[j].color == color then Seat(seats[j].color, None) else seats[j])
  }

  /** Colours of the occupied seats, in seat order: the players `start_room`
      creates. */
  function FilledColors(seats: seq<Seat>): (cs: seq<Color>)
    ensures |cs| <= |seats|
    ensures forall c :: c in cs <==> exists j :: 0 <= j < |seats| && seats[j].color == c && Filled(seats[j])
  {
    if seats == [] then []
    else
      var rest := FilledColors(seats[1..]);
      assert forall j :: 1 <= j < |seats| ==> seats[1..][j - 1] == seats[j];
      if Filled(seats[0]) then [seats[0].color] + rest else rest
  }

  // ----- properties of joining and leaving -----

  /** A join on a well-formed room either reports the room full, exactly when
      the user holds no seat and every seat is taken, or seats the user and
      changes no other seat; the seat invariant is kept. */
  lemma JoinSeatsSpec(seats: seq<Seat>, name: string)
    requires WellFormed(seats)
    ensures JoinSeats(seats, name).Err? <==>
              FindSeat(seats, name).None? && forall j :: 0 <= j < |seats| ==> Filled(seats[j])
    ensures JoinSeats(seats, name).Err? ==> JoinSeats(seats, name).error == Conflict
    ensures JoinSeats(seats, name).Ok? ==>
              var (i, after) := JoinSeats(seats, name).value;
              && i < |after| == |seats|
              && after[i].userName == Some(name)
              && (forall j :: 0 <= j < |seats| && j != i ==> after[j] == seats[j])
              && WellFormed(after)
  {
    match JoinSeats(seats, name)
    case Err(_) =>
    case Ok((i, after)) =>
      if FindSeat(seats, name).None? {
        assert SeatColors(after) == SeatColors(seats);
        forall a, b | 0 <= a < b < |after| && Filled(after[a])
          ensures after[a].userName != after[b].userName
        {
          if a != i && b != i {
            assert after[a] == seats[a] && after[b] == seats[b];
          }
        }
      }
  }

  /** The user already seated is given the same seat back and nothing moves. */
  lemma RejoinKeepsSeat(seats: seq<Seat>, name: string, i: nat)
    requires WellFormed(seats)
    requires i < |seats| && seats[i].userName == Some(name)
    ensures JoinSeats(seats, name) == Ok((i, seats))
  {
  }

  /** Joining twice under the same name is the same as joining once. */
  lemma JoinIdempotent(seats: seq<Seat>, name: string)
    requires WellFormed(seats)
    requires JoinSeats(seats, name).Ok?
    ensures JoinSeats(JoinSeats(seats, name).value.1, name) == JoinSeats(seats, name)
  {
    JoinSeatsSpec(seats, name);
    var (i, after) := JoinSeats(seats, name).value;
    RejoinKeepsSeat(after, name, i);
    if FindSeat(seats, name).Some? {
      RejoinKeepsSeat(seats, name, i);
    }
  }

  /** The first user to join an empty room gets the host's seat, RED. */
  lemma FirstJoinerIsHost(name: string)
    ensures JoinSeats(DefaultSeats(), name).Ok?
    ensures JoinSeats(DefaultSeats(), name).value.0 == 0
    ensures SEAT_ORDER[JoinSeats(DefaultSeats(), name).value.0] == RED
  {
    var seats := DefaultSeats();
    assert !Filled(seats[0]);
    assert FindSeat(seats, name) == None;
  }

  /** The seats after the given users asked to join an empty room one after
      another, or the refusal of the first request that failed. */
  function JoinAll(names: seq<string>): Result<seq<Seat>, Status>
  {
    if names == [] then Ok(DefaultSeats())
    else match JoinAll(names[..|names| - 1])
      case Err(e) => Err(e)
      case Ok(seats) =>
        match JoinSeats(seats, names[|names| - 1])
        case Err(e) => Err(e)
        case Ok((_, after)) => Ok(after)
  }

  /** Seats holding the given users in seat order, the rest free. */
  function SeatedInOrder(names: seq<string>): seq<Seat>
    requires |names| <= |SEAT_ORDER|
  {
    seq(|SEAT_ORDER|, j requires 0 <= j < |SEAT_ORDER| =>
      Seat(SEAT_ORDER[j], if j < |names| then Some(names[j]) else None))
  }

  /** Up to four different users joining one after another get RED, BLUE,
      WHITE and ORANGE in that order. */
  lemma {:induction false} DistinctJoinersFillSeatsInOrder(names: seq<string>)
    requires |names| <= |SEAT_ORDER|
    requires forall a, b :: 0 <= a < b < |names| ==> names[a] != names[b]
    ensures JoinAll(names) == Ok(SeatedInOrder(names))
  {
    if names == [] {
      assert DefaultSeats() == SeatedInOrder(names);
    } else {
      var k := |names| - 1;
      DistinctJoinersFillSeatsInOrder(names[..k]);
      NextJoinerTakesNextSeat(names);
    }
  }

  /** The step: a new name joining the first k seated names takes seat k. */
  lemma NextJoinerTakesNextSeat(names: seq<string>)
    requires 0 < |names| <= |SEAT_ORDER|
    requires forall a, b :: 0 <= a < b < |names| ==> names[a] != names[b]
    ensures var k := |names| - 1;
            JoinSeats(SeatedInOrder(names[..k]), names[k]) == Ok((k, SeatedInOrder(names)))
  {
    var k := |names| - 1;
    var seats := SeatedInOrder(names[..k]);
    var n := names[k];
    forall j | 0 <= j < |seats|
      ensures seats[j].userName != Some(n)
    {
      if j < k {
        assert seats[j].userName == Some(names[j]);
      }
    }
    assert FindSeat(seats, n) == None;
    assert !Filled(seats[k]);
    assert FirstEmpty(seats) == Some(k);
    assert seats[k := Seat(seats[k].color, Some(n))] == SeatedInOrder(names);
  }

  /** Once four different users sit, a fifth different user is refused with 409. */
  lemma FifthJoinerIsRefused(names: seq<string>, late: string)
    requires |names| == |SEAT_ORDER|
    requires forall a, b :: 0 <= a < b < |names| ==> names[a] != names[b]
    requires late !in names
    ensures JoinAll(names + [late]) == Err(Conflict)
  {
    var all := names + [late];
    assert all[..|all| - 1] == names;
    DistinctJoinersFillSeatsInOrder(names);
    var seats := SeatedInOrder(names);
    forall j | 0 <= j < |seats|
      ensures Filled(seats[j]) && seats[j].userName != Some(late)
    {
      assert seats[j].userName == Some(names[j]);
    }
    assert FindSeat(seats, late) == None;
    assert FirstEmpty(seats) == None;
  }

  /** In a well-formed room leaving frees exactly the leaver's seat and keeps
      the seat invariant. */
  lemma VacateSpec(seats: seq<Seat>, color: Color)
    requires WellFormed(seats)
    ensures |Vacate(seats, color)| == |seats|
    ensures Vacate(seats, color)[SeatIndex(color)] == Seat(color, None)
    ensures forall j :: 0 <= j < |seats| && j != SeatIndex(color) ==> Vacate(seats, color)[j] == seats[j]
    ensures WellFormed(Vacate(seats, color))
  {
    var after := Vacate(seats, color);
    assert SeatColors(after) == SeatColors(seats);
    forall j | 0 <= j < |seats| && j != SeatIndex(color)
      ensures after[j] == seats[j]
    {
      assert seats[j].color == SEAT_ORDER[j];
    }
  }

  /** Leaving undoes a join that took a free seat. */
  lemma LeaveUndoesJoin(seats: seq<Seat>, name: string)
    requires WellFormed(seats)
    requires FindSeat(seats, name).None? && JoinSeats(seats, name).Ok?
    ensures
      var (i, after) := JoinSeats(seats, name).value;
      Vacate(after, SEAT_ORDER[i]) == seats
  {
    var (i, after) := JoinSeats(seats, name).value;
    JoinSeatsSpec(seats, name);
    VacateSpec(after, SEAT_ORDER[i]);
    assert SeatIndex(SEAT_ORDER[i]) == i;
    assert seats[i] == Seat(SEAT_ORDER[i], None);
  }

  /** Colours listed strictly in seat order, none before seat `from`. */
  predicate InSeatOrder(cs: seq<Color>, from: nat)
  {
    && (forall a, b :: 0 <= a < b < |cs| ==> SeatIndex(cs[a]) < SeatIndex(cs[b]))
    && (forall a :: 0 <= a < |cs| ==> from <= SeatIndex(cs[a]))
  }

  lemma ConsInSeatOrder(c: Color, rest: seq<Color>, from: nat)
    requires SeatIndex(c) == from && InSeatOrder(rest, from + 1)
    ensures InSeatOrder([c] + rest, from)
  {
    var cs := [c] + rest;
    forall a, b | 0 <= a < b < |cs|
      ensures SeatIndex(cs[a]) < SeatIndex(cs[b])
    {
      assert cs[b] == rest[b - 1];
      if a > 0 {
        assert cs[a] == rest[a - 1];
      }
    }
    forall a | 0 <= a < |cs|
      ensures from <= SeatIndex(cs[a])
    {
      if a > 0 {
        assert cs[a] == rest[a - 1];
      }
    }
  }

  /** `start_room` creates players in seat order: in a well-formed room the
      occupied colours come out in the order of SEAT_ORDER, each once. */
  lemma {:induction false} FilledColorsInSeatOrder(seats: seq<Seat>, from: nat)
    requires from + |seats| <= |SEAT_ORDER|
    requires forall j :: 0 <= j < |seats| ==> seats[j].color == SEAT_ORDER[from + j]
    ensures InSeatOrder(FilledColors(seats), from)
  {
    if seats != [] {
      FilledColorsInSeatOrder(seats[1..], from + 1);
      assert SeatIndex(seats[0].color) == from;
      if Filled(seats[0]) {
        ConsInSeatOrder(seats[0].color, FilledColors(seats[1..]), from);
      }
    }
  }

  // ----- rendering a room -----

  datatype SeatView = SeatView(color: Color, userName: Option<string>, isYou: bool)

  datatype RoomView = RoomView(
    roomId: string,
    roomName: string,
    seats: seq<SeatView>,
    started: bool,
    gameId: Option<string>,
    stateIndex: Option<int>)

  /** A session: the token issued to one user for one seat of one room. */
  datatype SessionInfo = SessionInfo(token: string, userName: string, roomId: string, seatColor: Color)

  /** The seats as `_serialize_room` lists them, flagging the caller's seat. */
  function SeatViews(roomId: string, seats: seq<Seat>, session: Option<SessionInfo>): (views: seq<SeatView>)
    ensures |views| == |seats|
    ensures forall j :: 0 <= j < |seats| ==> views[j].color == seats[j].color && views[j].userName == seats[j].userName
    ensures forall j :: 0 <= j < |seats| ==>
              (views[j].isYou <==> session.Some? && session.value.roomId == roomId && seats[j].color == session.value.seatColor)
  {
    seq(|seats|, j requires 0 <= j < |seats| =>
      SeatView(seats[j].color, seats[j].userName,
               session.Some? && session.value.roomId == roomId && seats[j].color == session.value.seatColor))
  }

  /** `is_you` marks exactly the seat of the caller's session when the session
      belongs to this room, and no seat otherwise. */
  lemma IsYouMarksOwnSeat(roomId: string, seats: seq<Seat>, session: Option<SessionInfo>)
    requires WellFormed(seats)
    ensures |SeatViews(roomId, seats, session)| == |seats|
    ensures forall j :: 0 <= j < |seats| ==>
              SeatViews(roomId, seats, session)[j].color == SEAT_ORDER[j] &&
              SeatViews(roomId, seats, session)[j].userName == seats[j].userName
    ensures session.Some? && session.value.roomId == roomId ==>
              forall j :: 0 <= j < |seats| ==>
                (SeatViews(roomId, seats, session)[j].isYou <==> j == SeatIndex(session.value.seatColor))
    ensures session.None? || session.value.roomId != roomId ==>
              forall j :: 0 <= j < |seats| ==> !SeatViews(roomId, seats, session)[j].isYou
  {
    forall j | 0 <= j < |seats|
      ensures seats[j].color == SEAT_ORDER[j]
    {
      assert SeatColors(seats)[j] == seats[j].color;
    }
  }

  // ----- sessions -----

  /** `_SessionStore`: token to session. */
  class SessionStore {
    var sessions: map<string, SessionInfo>

    constructor ()
      ensures sessions == map[]
    {
      sessions := map[];
    }

    /** `issue`: records a session under the freshly drawn token. */
    method Issue(userName: string, roomId: string, seatColor: Color, token: string) returns (info: SessionInfo)
      modifies this
      ensures info == SessionInfo(token, userName, roomId, seatColor)
      ensures sessions == old(sessions)[token := info]
    {
      info := SessionInfo(token, userName, roomId, seatColor);
      sessions := sessions[token := info];
    }

    /** `get`. */
    function Get(token: string): (r: Option<SessionInfo>)
      reads this
      ensures r.Some? <==> token in sessions
      ensures r.Some? ==> r.value == sessions[token]
    {
      if token in sessions then Some(sessions[token]) else None
    }

    /** `revoke`: forgets the token, if it was known. */
    method Revoke(token: string)
      modifies this
      ensures sessions == old(sessions) - {token}
      ensures Get(token) == None
    {
      sessions := sessions - {token};
    }
  }

  /** `require_session`: 401 without a token or with an unknown one, 403 for a
      token of another room, else the stored session. */
  function RequireSession(sessions: map<string, SessionInfo>, token: Option<string>, roomId: Option<string>)
    : (r: Result<SessionInfo, Status>)
    ensures r == Err(Unauthorized) <==> token.None? || token.value == "" || token.value !in sessions
    ensures r == Err(Forbidden) <==>
              && token.Some? && token.value != "" && token.value in sessions
              && roomId.Some? && roomId.value != "" && sessions[token.value].roomId != roomId.value
    ensures r.Ok? ==> token.Some? && token.value in sessions && r.value == sessions[token.value]
    ensures r.Ok? && roomId.Some? && roomId.value != "" ==> r.value.roomId == roomId.value
  {
    if token.None? || token.value == "" then Err(Unauthorized)
    else if token.value !in sessions then Err(Unauthorized)
    else if roomId.Some? && roomId.value != "" && sessions[token.value].roomId != roomId.value then Err(Forbidden)
    else Ok(sessions[token.value])
  }

  /** `peek_session`: the same checks, answering None instead of aborting. */
  function PeekSession(sessions: map<string, SessionInfo>, token: Option<string>, roomId: Option<string>)
    : (r: Option<SessionInfo>)
    ensures r.Some? <==>
              && token.Some? && token.value != "" && token.value in sessions
              && (roomId.None? || roomId.value == "" || sessions[token.value].roomId == roomId.value)
    ensures r.Some? ==> r.value == sessions[token.value]
  {
    if token.None? || token.value == "" then None
    else if token.value !in sessions then None
    else if roomId.Some? && roomId.value != "" && sessions[token.value].roomId != roomId.value then None
    else Some(sessions[token.value])
  }

  /** The two lookups agree: peeking finds a session exactly when requiring it
      succeeds, and both find the same one; a failed requirement is 401 when
      the token is missing or unknown and 403 when it is for another room. */
  lemma PeekAgreesWithRequire(sessions: map<string, SessionInfo>, token: Option<string>, roomId: Option<string>)
    ensures PeekSession(sessions, token, roomId).Some? <==> RequireSession(sessions, token, roomId).Ok?
    ensures PeekSession(sessions, token, roomId).Some? ==>
              PeekSession(sessions, token, roomId).value == RequireSession(sessions, token, roomId).value
    ensures RequireSession(sessions, token, roomId).Ok? ==>
              token.Some? && token.value in sessions &&
              RequireSession(sessions, token, roomId).value == sessions[token.value]
    ensures RequireSession(sessions, token, roomId) == Err(Unauthorized) <==>
              token.None? || token.value == "" || token.value !in sessions
    ensures RequireSession(sessions, token, roomId) == Err(Forbidden) <==>
              && token.Some? && token.value != "" && token.value in sessions
              && roomId.Some? && roomId.value != "" && sessions[token.value].roomId != roomId.value
    ensures RequireSession(sessions, token, roomId) == Err(Forbidden) ==> PeekSession(sessions, token, roomId) == None
  {
  }

  /** A session that was issued is found again under its token, for its room. */
  lemma IssuedSessionIsAccepted(sessions: map<string, SessionInfo>, info: SessionInfo)
    requires info.token != ""
    ensures RequireSession(sessions[info.token := info], Some(info.token), Some(info.roomId)) == Ok(info)
    ensures RequireSession(sessions[info.token := info], Some(info.token), None) == Ok(info)
    ensures PeekSession(sessions[info.token := info], Some(info.token), Some(info.roomId)) == Some(info)
  {
  }

  /** A revoked token is refused with 401, whatever room it names. */
  lemma RevokedSessionIsRefused(sessions: map<string, SessionInfo>, token: string, roomId: Option<string>)
    ensures RequireSession(sessions - {token}, Some(token), roomId) == Err(Unauthorized)
    ensures PeekSession(sessions - {token}, Some(token), roomId) == None
  {
  }

  // ----- the checks of submit_action -----

  /** `int(expected_state_index)` on the JSON value sent: absent or null means
      "no expectation", a boolean counts as 1 or 0, and a value `int()`
      refuses gives 400. */
  function ExpectedIndex(expected: Json): (r: Result<Option<int>, Status>)
    ensures expected == Null ==> r == Ok(None)
    ensures expected.Int? ==> r == Ok(Some(expected.i))
    ensures expected == Bool(true) ==> r == Ok(Some(1))
    ensures expected == Bool(false) ==> r == Ok(Some(0))
    ensures expected.Str? && ParseInt(expected.s).Some? ==> r == Ok(ParseInt(expected.s))
    ensures r.Err? <==> expected.Arr? || expected.Obj? || (expected.Str? && ParseInt(expected.s).None?)
    ensures r.Err? ==> r.error == BadRequest
  {
    match expected
    case Null => Ok(None)
    case Int(i) => Ok(Some(i))
    case Bool(b) => Ok(Some(if b then 1 else 0))
    case Str(s) => (match ParseInt(s) case Some(i) => Ok(Some(i)) case None => Err(BadRequest))
    case Arr(_) => Err(BadRequest)
    case Obj(_) => Err(BadRequest)
  }

  /** The checks `submit_action` makes after finding the room, in its order:
      a started room with a game (else 400), a saved game (else 500), the
      caller's turn (else 403), a well-formed expected index (else 400) that
      is not stale (else 409). On success, the game to play on. */
  function SubmitCheck<G, A>(engine: Engine<G, A>, started: bool, gameId: Option<string>,
                              states: map<string, seq<G>>, seatColor: Color, expected: Json)
    : (r: Result<G, Status>)
    ensures !started || gameId.None? ==> r == Err(BadRequest)
    ensures started && gameId.Some? && (gameId.value !in states || states[gameId.value] == []) ==> r == Err(ServerError)
    ensures r.Ok? <==>
              && started && gameId.Some? && gameId.value in states && states[gameId.value] != []
              && var game := states[gameId.value][|states[gameId.value]| - 1];
                 && engine.currentColor(game) == seatColor
                 && ExpectedIndex(expected).Ok?
                 && (ExpectedIndex(expected).value.Some? ==> ExpectedIndex(expected).value.value == engine.stateIndex(game))
    ensures r.Ok? ==> r.value == states[gameId.value][|states[gameId.value]| - 1]
  {
    if !started || gameId.None? then Err(BadRequest)
    else if gameId.value !in states || states[gameId.value] == [] then Err(ServerError)
    else
      var game := states[gameId.value][|states[gameId.value]| - 1];
      if engine.currentColor(game) != seatColor then Err(Forbidden)
      else match ExpectedIndex(expected)
        case Err(e) => Err(e)
        case Ok(None) => Ok(game)
        case Ok(Some(i)) => if i != engine.stateIndex(game) then Err(Conflict) else Ok(game)
  }

  /** The turn check comes before the expected-index checks: a caller whose
      turn it is not gets 403 whatever index it sends. */
  lemma TurnCheckedBeforeIndex<G, A>(engine: Engine<G, A>, gameId: string, states: map<string, seq<G>>,
                                     seatColor: Color, expected: Json)
    requires gameId in states && states[gameId] != []
    requires engine.currentColor(states[gameId][|states[gameId]| - 1]) != seatColor
    ensures SubmitCheck(engine, true, Some(gameId), states, seatColor, expected) == Err(Forbidden)
  {
  }

  /** For the player whose turn it is, the expected index decides: none or the
      current index passes, another index is stale (409) whether it was sent
      as an integer, a numeric string or a boolean, and a list, an object or
      a string `int()` refuses is 400. */
  lemma ExpectedIndexDecides<G, A>(engine: Engine<G, A>, gameId: string, states: map<string, seq<G>>,
                                   seatColor: Color, expected: Json)
    requires gameId in states && states[gameId] != []
    requires engine.currentColor(states[gameId][|states[gameId]| - 1]) == seatColor
    ensures
      var game := states[gameId][|states[gameId]| - 1];
      var r := SubmitCheck(engine, true, Some(gameId), states, seatColor, expected);
      && (expected == Null ==> r == Ok(game))
      && (expected == Int(engine.stateIndex(game)) ==> r == Ok(game))
      && (forall i :: expected == Int(i) && i != engine.stateIndex(game) ==> r == Err(Conflict))
      && (expected.Arr? || expected.Obj? ==> r == Err(BadRequest))
      && (expected.Str? ==> (r == Err(BadRequest) <==> ParseInt(expected.s).None?))
      && (expected.Str? && ParseInt(expected.s) == Some(engine.stateIndex(game)) ==> r == Ok(game))
      && (expected.Str? && ParseInt(expected.s).Some? && ParseInt(expected.s).value != engine.stateIndex(game) ==>
            r == Err(Conflict))
      && (expected.Bool? ==> (r == Ok(game) <==> engine.stateIndex(game) == if expected.b then 1 else 0))
      && (expected.Bool? && engine.stateIndex(game) != (if expected.b then 1 else 0) ==> r == Err(Conflict))
  {
  }

  // ----- rooms -----

  datatype JoinReply = JoinReply(token: string, seatColor: Color, userName: string, room: RoomView)

  /** A row of the room table. */
  class Room {
    const roomId: string
    const roomName: string
    var seats: seq<Seat>
    var started: bool
    var gameId: Option<string>
    var stateIndex: Option<int>

    ghost predicate Valid()
      reads this
    {
      WellFormed(seats)
    }

    /** `create_room`: a new room under a fresh id, named from the request,
        every seat free, not started. */
    constructor (roomId: string, requestedName: Option<string>)
      ensures Valid()
      ensures this.roomId == roomId && roomName == RoomName(requestedName)
      ensures seats == DefaultSeats() && forall j :: 0 <= j < |seats| ==> !Filled(seats[j])
      ensures !started && gameId == None && stateIndex == None
    {
      this.roomId := roomId;
      roomName := RoomName(requestedName);
      seats := DefaultSeats();
      started := false;
      gameId := None;
      stateIndex := None;
    }

    /** `_serialize_room`. */
    function Serialize(session: Option<SessionInfo>): (v: RoomView)
      reads this
      ensures v.roomId == roomId && v.roomName == roomName
      ensures v.started == started && v.gameId == gameId && v.stateIndex == stateIndex
      ensures |v.seats| == |seats|
      ensures forall j :: 0 <= j < |seats| ==> v.seats[j].color == seats[j].color && v.seats[j].userName == seats[j].userName
      ensures forall j :: 0 <= j < |seats| ==>
                (v.seats[j].isYou <==> session.Some? && session.value.roomId == roomId && seats[j].color == session.value.seatColor)
    {
      RoomView(roomId, roomName, SeatViews(roomId, seats, session), started, gameId, stateIndex)
    }

    /** The part of `join_room` after the name check and the room lookup:
        400 once started; otherwise the seat found by `JoinSeats`, with a new
        session issued for it, or 409 when the room is full. */
    method Join(name: string, store: SessionStore, token: string) returns (r: Result<JoinReply, Status>)
      requires Valid()
      modifies this, store
      ensures Valid()
      ensures started == old(started) && gameId == old(gameId) && stateIndex == old(stateIndex)
      ensures old(started) ==> r == Err(BadRequest) && seats == old(seats) && store.sessions == old(store.sessions)
      ensures !old(started) && JoinSeats(old(seats), name).Err? ==>
                r == Err(Conflict) && seats == old(seats) && store.sessions == old(store.sessions)
      ensures !old(started) && JoinSeats(old(seats), name).Ok? ==>
                var (i, after) := JoinSeats(old(seats), name).value;
                var info := SessionInfo(token, name, roomId, SEAT_ORDER[i]);
                && seats == after
                && store.sessions == old(store.sessions)[token := info]
                && r == Ok(JoinReply(token, SEAT_ORDER[i], name, Serialize(Some(info))))
    {
      if started {
        return Err(BadRequest);
      }
      JoinSeatsSpec(seats, name);
      var copy := seats;
      var i := 0;
      while i < |copy|
        invariant 0 <= i <= |copy|
        invariant forall j :: 0 <= j < i ==> copy[j].userName != Some(name)
      {
        if copy[i].userName == Some(name) {
          assert SeatColors(copy)[i] == copy[i].color;
          var info := store.Issue(name, roomId, copy[i].color, token);
          return Ok(JoinReply(info.token, info.seatColor, info.userName, Serialize(Some(info))));
        }
        i := i + 1;
      }
      i := 0;
      while i < |copy|
        invariant 0 <= i <= |copy|
        invariant forall j :: 0 <= j < i ==> Filled(copy[j])
      {
        if copy[i].userName.None? {
          assert SeatColors(copy)[i] == copy[i].color;
          copy := copy[i := Seat(copy[i].color, Some(name))];
          seats := copy;
          var info := store.Issue(name, roomId, copy[i].color, token);
          return Ok(JoinReply(info.token, info.seatColor, info.userName, Serialize(Some(info))));
        }
        i := i + 1;
      }
      return Err(Conflict);
    }

    /** The part of `leave_room` after the room lookup: 400 once started;
        otherwise the caller's seat is freed and its token revoked. */
    method Leave(session: SessionInfo, store: SessionStore) returns (r: Result<RoomView, Status>)
      requires Valid()
      modifies this, store
      ensures Valid()
      ensures started == old(started) && gameId == old(gameId) && stateIndex == old(stateIndex)
      ensures old(started) ==> r == Err(BadRequest) && seats == old(seats) && store.sessions == old(store.sessions)
      ensures !old(started) ==>
                && seats == Vacate(old(seats), session.seatColor)
                && store.sessions == old(store.sessions) - {session.token}
                && r == Ok(Serialize(None))
    {
      if started {
        return Err(BadRequest);
      }
      VacateSpec(seats, session.seatColor);
      var copy := seats;
      var i := 0;
      while i < |copy|
        invariant 0 <= i <= |copy| == |seats|
        invariant forall j :: 0 <= j < |copy| ==>
                    copy[j] == if j < i && seats[j].color == session.seatColor then Seat(seats[j].color, None) else seats[j]
      {
        if copy[i].color == session.seatColor {
          copy := copy[i := Seat(copy[i].color, None)];
        }
        i := i + 1;
      }
      assert copy == Vacate(seats, session.seatColor);
      seats := copy;
      store.Revoke(session.token);
      return Ok(Serialize(None));
    }

    /** The part of `start_room` after the room lookup: only the host (RED) may
        start (403); a started room answers its game id and changes nothing;
        fewer than two seated users is 400; otherwise a game is created under
        the fresh id `newId` for the seated colours in seat order, saved, and
        the room marked started. */
    method Start<G, A>(session: SessionInfo, db: GameDb<G>, engine: Engine<G, A>, newId: string)
      returns (r: Result<string, Status>)
      requires Valid() && db.Valid()
      modifies this, db
      ensures Valid() && db.Valid()
      ensures seats == old(seats)
      ensures session.seatColor != SEAT_ORDER[0] ==>
                r == Err(Forbidden) && unchanged(this) && db.states == old(db.states)
      ensures session.seatColor == SEAT_ORDER[0] && old(started) && old(gameId).Some? && old(gameId).value != "" ==>
                r == Ok(old(gameId).value) && unchanged(this) && db.states == old(db.states)
      ensures session.seatColor == SEAT_ORDER[0] && !(old(started) && old(gameId).Some? && old(gameId).value != "")
              && |FilledColors(old(seats))| < MIN_PLAYERS_TO_START ==>
                r == Err(BadRequest) && unchanged(this) && db.states == old(db.states)
      ensures session.seatColor == SEAT_ORDER[0] && !(old(started) && old(gameId).Some? && old(gameId).value != "")
              && |FilledColors(old(seats))| >= MIN_PLAYERS_TO_START ==>
                var game := engine.newGame(FilledColors(old(seats)), newId);
                && r == Ok(engine.gameId(game))
                && started && gameId == Some(engine.gameId(game)) && stateIndex == Some(engine.stateIndex(game))
                && db.Latest(engine.gameId(game)) == Some(game)
                && db.states == old(db.states)[engine.gameId(game) :=
                     (if engine.gameId(game) in old(db.states) then old(db.states)[engine.gameId(game)] else []) + [game]]
    {
      if session.seatColor != SEAT_ORDER[0] {
        return Err(Forbidden);
      }
      if started && gameId.Some? && gameId.value != "" {
        return Ok(gameId.value);
      }
      var players := FilledColors(seats);
      if |players| < MIN_PLAYERS_TO_START {
        return Err(BadRequest);
      }
      var game := engine.newGame(players, newId);
      db.Upsert(engine.gameId(game), game);
      gameId := Some(engine.gameId(game));
      started := true;
      stateIndex := Some(engine.stateIndex(game));
      return Ok(engine.gameId(game));
    }

    /** The part of `submit_action` after the payload check and the room
        lookup: the checks of `SubmitCheck`, then the action is executed; an
        engine `ValueError` is 400, otherwise the new state is saved and
        becomes the room's state index. */
    method Submit<G, A>(session: SessionInfo, actionPayload: Json, expected: Json,
                        db: GameDb<G>, engine: Engine<G, A>) returns (r: Result<G, Status>)
      requires db.Valid()
      modifies this, db
      ensures db.Valid()
      ensures seats == old(seats) && started == old(started) && gameId == old(gameId)
      ensures
        var check := SubmitCheck(engine, old(started), old(gameId), old(db.states), session.seatColor, expected);
        && (check.Err? ==> r == Err(check.error) && unchanged(this) && db.states == old(db.states))
        && (check.Ok? ==>
              match engine.execute(check.value, engine.actionFromJson(actionPayload))
              case Err(_) => r == Err(BadRequest) && unchanged(this) && db.states == old(db.states)
              case Ok(next) =>
                && r == Ok(next)
                && stateIndex == Some(engine.stateIndex(next))
                && db.states == old(db.states)[engine.gameId(next) :=
                     (if engine.gameId(next) in old(db.states) then old(db.states)[engine.gameId(next)] else []) + [next]])
    {
      var check := SubmitCheck(engine, started, gameId, db.states, session.seatColor, expected);
      if check.Err? {
        return Err(check.error);
      }
      var game := check.value;
      var outcome := engine.execute(game, engine.actionFromJson(actionPayload));
      if outcome.Err? {
        return Err(BadRequest);
      }
      var next := outcome.value;
      db.Upsert(engine.gameId(next), next);
      stateIndex := Some(engine.stateIndex(next));
      return Ok(next);
    }
  }

  // ----- the module-level operations, with their room lookup -----

  /** The rooms a request may touch: the one stored under `roomId`, if any. */
  function Target(rooms: map<string, Room>, roomId: string): set<Room>
  {
    if roomId in rooms then {rooms[roomId]} else {}
  }

  /** `join_room`: a blank user name is 400 before anything is looked up, an
      unknown room 404; the name is joined without its surrounding white space. */
  method JoinRoom(rooms: map<string, Room>, store: SessionStore, roomId: string, userName: string, token: string)
    returns (r: Result<JoinReply, Status>)
    requires roomId in rooms ==> rooms[roomId].Valid() && rooms[roomId].roomId == roomId
    modifies Target(rooms, roomId), store
    ensures roomId in rooms ==> rooms[roomId].Valid()
    ensures roomId in rooms ==>
              && rooms[roomId].started == old(rooms[roomId].started)
              && rooms[roomId].gameId == old(rooms[roomId].gameId)
              && rooms[roomId].stateIndex == old(rooms[roomId].stateIndex)
    ensures AllSpace(userName) ==>
              && r == Err(BadRequest)
              && store.sessions == old(store.sessions)
              && (roomId in rooms ==> unchanged(rooms[roomId]))
    ensures !AllSpace(userName) && roomId !in rooms ==> r == Err(NotFound) && store.sessions == old(store.sessions)
    ensures !AllSpace(userName) && roomId in rooms && old(rooms[roomId].started) ==>
              && r == Err(BadRequest)
              && rooms[roomId].seats == old(rooms[roomId].seats)
              && store.sessions == old(store.sessions)
    ensures !AllSpace(userName) && roomId in rooms && !old(rooms[roomId].started) ==>
              var name := Strip(userName);
              match JoinSeats(old(rooms[roomId].seats), name)
              case Err(e) =>
                && r == Err(e)
                && rooms[roomId].seats == old(rooms[roomId].seats)
                && store.sessions == old(store.sessions)
              case Ok((i, after)) =>
                var info := SessionInfo(token, name, roomId, SEAT_ORDER[i]);
                && rooms[roomId].seats == after
                && store.sessions == old(store.sessions)[token := info]
                && r == Ok(JoinReply(token, SEAT_ORDER[i], name, rooms[roomId].Serialize(Some(info))))
  {
    StripEmptyIffBlank(userName);
    if Strip(userName) == "" {
      return Err(BadRequest);
    }
    var name := Strip(userName);
    if roomId !in rooms {
      return Err(NotFound);
    }
    r := rooms[roomId].Join(name, store, token);
  }

  /** `leave_room`: the session's room must exist (404). */
  method LeaveRoom(rooms: map<string, Room>, store: SessionStore, session: SessionInfo)
    returns (r: Result<RoomView, Status>)
    requires session.roomId in rooms ==> rooms[session.roomId].Valid()
    modifies Target(rooms, session.roomId), store
    ensures session.roomId in rooms ==> rooms[session.roomId].Valid()
    ensures session.roomId in rooms ==>
              && rooms[session.roomId].started == old(rooms[session.roomId].started)
              && rooms[session.roomId].gameId == old(rooms[session.roomId].gameId)
              && rooms[session.roomId].stateIndex == old(rooms[session.roomId].stateIndex)
    ensures session.roomId !in rooms ==> r == Err(NotFound) && store.sessions == old(store.sessions)
    ensures session.roomId in rooms && old(rooms[session.roomId].started) ==>
              && r == Err(BadRequest)
              && rooms[session.roomId].seats == old(rooms[session.roomId].seats)
              && store.sessions == old(store.sessions)
    ensures session.roomId in rooms && !old(rooms[session.roomId].started) ==>
              && rooms[session.roomId].seats == Vacate(old(rooms[session.roomId].seats), session.seatColor)
              && store.sessions == old(store.sessions) - {session.token}
              && r == Ok(rooms[session.roomId].Serialize(None))
  {
    if session.roomId !in rooms {
      return Err(NotFound);
    }
    r := rooms[session.roomId].Leave(session, store);
  }

  /** `start_room`: the session's room must exist (404), before the host check. */
  method StartRoom<G, A>(rooms: map<string, Room>, db: GameDb<G>, engine: Engine<G, A>, session: SessionInfo,
                         newId: string)
    returns (r: Result<string, Status>)
    requires session.roomId in rooms ==> rooms[session.roomId].Valid()
    requires db.Valid()
    modifies Target(rooms, session.roomId), db
    ensures db.Valid()
    ensures session.roomId in rooms ==> rooms[session.roomId].Valid()
    ensures session.roomId !in rooms ==> r == Err(NotFound) && db.states == old(db.states)
    ensures session.roomId in rooms && session.seatColor != SEAT_ORDER[0] ==>
              r == Err(Forbidden) && db.states == old(db.states)
  {
    if session.roomId !in rooms {
      return Err(NotFound);
    }
    r := rooms[session.roomId].Start(session, db, engine, newId);
  }

  /** `submit_action`: a null action is 400 before the room is looked up, an
      unknown room 404. */
  method SubmitAction<G, A>(rooms: map<string, Room>, db: GameDb<G>, engine: Engine<G, A>,
                            session: SessionInfo, actionPayload: Json, expected: Json)
    returns (r: Result<G, Status>)
    requires db.Valid()
    modifies Target(rooms, session.roomId), db
    ensures db.Valid()
    ensures actionPayload == Null ==>
              && r == Err(BadRequest)
              && db.states == old(db.states)
              && (session.roomId in rooms ==> unchanged(rooms[session.roomId]))
    ensures actionPayload != Null && session.roomId !in rooms ==> r == Err(NotFound) && db.states == old(db.states)
    ensures actionPayload != Null && session.roomId in rooms ==>
              var room := rooms[session.roomId];
              var check := SubmitCheck(engine, old(room.started), old(room.gameId), old(db.states),
                                       session.seatColor, expected);
              check.Err? ==> r == Err(check.error) && db.states == old(db.states) && unchanged(room)
  {
    if actionPayload == Null {
      return Err(BadRequest);
    }
    if session.roomId !in rooms {
      return Err(NotFound);
    }
    r := rooms[session.roomId].Submit(session, actionPayload, expected, db, engine);
  }
}
