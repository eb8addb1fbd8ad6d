# Catanatron web backend: a Dafny model

This project models the core of the Catanatron web backend. That is the
Flask service that hosts single-player games against bots, two-to-four
player rooms ("PvP rooms") and an advice prompt built from a game state,
plus the small graph library the backend ships instead of `networkx`.
It covers five parts.

- **PvP rooms** (`pvp_room.dfy`, module `PvpRoom`):
  - the four seats in the fixed order red, blue, white, orange;
  - creating a room, and joining it by user name: the same name gets its
    old seat back, a new name takes the first free seat, and a full room
    is 409;
  - leaving a room;
  - the token sessions issued on joining;
  - starting a game, which only the host (the red seat) may do and which
    needs at least two players;
  - submitting an action, with its checks in the source's order.
- **Graph** (`graph.dfy`, module `Graph`): the undirected `Graph` class.
  It is an adjacency map kept symmetric, plus the insertion order of its
  nodes. Its operations are adding nodes and edges, listing edges (each
  undirected edge once as `(min, max)`, or per node for a node bunch),
  taking induced subgraphs, and queries.
- **Floyd–Warshall** (`floyd_warshall.dfy`, module `ShortestPaths`): the
  all-pairs hop-distance computation over a `Graph`, on a square array.
  The method follows the code, start matrix included, and is proved equal
  to the standard pivot recurrence. From a start matrix that keeps the
  diagonal at 0, that recurrence is proved to give the length of a
  shortest walk. The relaxed entries from the two start matrices agree
  everywhere except on the diagonal of a node that is its own neighbour,
  so every other entry the method returns is a hop distance (see
  "## Findings").
- **Negotiation prompt** (`negotiation.dfy`, module `Negotiation`): the
  summaries that go into the advice prompt.
  - the action log, trimmed to the last `max_items` records and numbered;
  - per-seat player summaries read from `P{index}_…` keys;
  - the board snapshot, holding the coloured nodes and edges;
  - the sorted list of human colours;
  - the log-limit setting.
- **Game endpoints** (`api.dfy`, module `Api`):
  - parsing the `state_index` path segment;
  - `player_factory`;
  - the branch logic of posting an action to a game;
  - deleting a game.

The game engine is not modelled. `Games.Engine` (`games.dfy`) is a record
of function values standing for `Game(...)`, `play_tick`, `execute`,
`action_from_json`, `get_state_index`, the current colour and the winner,
so every property holds for any engine. `Games.GameDb` stands for the
saved-state store. For each game id it keeps the list of saved states,
newest last. Identifiers that the source draws from `uuid4` are
parameters. `common.dfy` holds the shared values: `Option`, `Result`, the
HTTP statuses, colours and decoded JSON. `text.dfy` models Python's
`str.strip()`, decimal formatting and the part of `int()` that the
backend relies on.

## Model

| member | source | states |
|---|---|---|
| PvpRoom.DefaultSeats | catanatron/catanatron/web/pvp_room.py:37-38 | four seats, one per colour in SEAT_ORDER, all empty |
| PvpRoom.RoomName | catanatron/catanatron/web/pvp_room.py:90 | the requested name without surrounding white space, or "Room" when it is absent or blank; never empty and never padded |
| PvpRoom.Room.constructor | catanatron/catanatron/web/pvp_room.py:89-100 | a new room has the given id, the normalised name, the default seats, is not started and has no game |
| PvpRoom.SeatViews | catanatron/catanatron/web/pvp_room.py:57-66 | one view per seat, copying its colour and name; `is_you` holds exactly when the session belongs to this room and the seat has the session's colour |
| PvpRoom.Room.Serialize | catanatron/catanatron/web/pvp_room.py:56-76 | the room's id, name, started flag, game id and state index, and one view per seat with its colour, name and `is_you` flag |
| PvpRoom.IsYouMarksOwnSeat | catanatron/catanatron/web/pvp_room.py:56-66 | the serialised seats copy colours and names; `is_you` is set on exactly the caller's seat when the session belongs to this room, and on none otherwise |
| PvpRoom.SessionStore.Issue | catanatron/catanatron/web/pvp_room.py:116-123 | the issued session carries the given token, name, room and seat and is stored under the token |
| PvpRoom.SessionStore.Get | catanatron/catanatron/web/pvp_room.py:125-127 | a session is found exactly when the token is stored, and it is the stored one |
| PvpRoom.SessionStore.Revoke | catanatron/catanatron/web/pvp_room.py:129-131 | the token is removed and nothing else changes; revoking an unknown token is harmless |
| PvpRoom.FindSeat | catanatron/catanatron/web/pvp_room.py:148-149 | the first seat held by the name, or none when no seat holds it |
| PvpRoom.FirstEmpty | catanatron/catanatron/web/pvp_room.py:159-160 | the first free seat, or none when every seat is taken |
| PvpRoom.JoinSeats | catanatron/catanatron/web/pvp_room.py:146-173 | 409 exactly when the name holds no seat and no seat is free; a name that holds a seat gets that seat and the seats are unchanged; otherwise the first free seat, and only that seat changes, to the name |
| PvpRoom.JoinSeatsSpec | catanatron/catanatron/web/pvp_room.py:146-173 | joining fails (409) exactly when the name holds no seat and no seat is free; otherwise exactly one seat gets the name, the rest are unchanged and names stay unique |
| PvpRoom.RejoinKeepsSeat | catanatron/catanatron/web/pvp_room.py:148-157 | a name that already holds a seat gets that same seat back and the seats do not change |
| PvpRoom.JoinIdempotent | catanatron/catanatron/web/pvp_room.py:146-171 | joining twice under one name gives the same seat and seats as joining once |
| PvpRoom.FirstJoinerIsHost | catanatron/catanatron/web/pvp_room.py:159-171 | the first to join an empty room takes seat 0, which is RED, the host seat |
| PvpRoom.DistinctJoinersFillSeatsInOrder | catanatron/catanatron/web/pvp_room.py:159-171 | up to four distinct names joining in turn take the seats in SEAT_ORDER order |
| PvpRoom.NextJoinerTakesNextSeat | catanatron/catanatron/web/pvp_room.py:159-171 | a new name joining after k distinct names takes seat k and no other seat changes |
| PvpRoom.FifthJoinerIsRefused | catanatron/catanatron/web/pvp_room.py:173 | after four distinct names have joined, a fifth new name gets 409 |
| PvpRoom.Vacate | catanatron/catanatron/web/pvp_room.py:181-185 | the seat of the given colour becomes free; every other seat is unchanged |
| PvpRoom.Room.Join | catanatron/catanatron/web/pvp_room.py:143-173 | 400 once the room is started; otherwise 409 or the seat `JoinSeats` picks, with the new seats stored, a session issued for that seat and the room serialised for it; the game fields never change |
| PvpRoom.JoinRoom | catanatron/catanatron/web/pvp_room.py:137-173 | a blank name is 400 before the room lookup, with the room untouched, an unknown room 404; the room's game fields never change; a started room is 400 with seats and sessions unchanged; a full room is 409 with seats and sessions unchanged; otherwise the stripped name gets the seat `JoinSeats` picks, a session is issued for it and the reply carries the token, colour, name and the room serialised for that session |
| PvpRoom.VacateSpec | catanatron/catanatron/web/pvp_room.py:181-185 | leaving empties exactly the seat of the session's colour and keeps the seats well formed |
| PvpRoom.LeaveUndoesJoin | catanatron/catanatron/web/pvp_room.py:181-185 | vacating the seat a new name just took gives back the seats from before the join |
| PvpRoom.Room.Leave | catanatron/catanatron/web/pvp_room.py:178-189 | 400 once the room is started; otherwise the seat is vacated, the session is revoked and the room is serialised without a session |
| PvpRoom.LeaveRoom | catanatron/catanatron/web/pvp_room.py:176-189 | an unknown room is 404; the room's game fields never change; a started room is 400 with seats and sessions unchanged; otherwise the caller's seat is vacated, the token revoked and the room serialised without a session |
| PvpRoom.RequireSession | catanatron/catanatron/web/pvp_room.py:198-206 | 401 exactly for a missing, empty or unknown token; 403 exactly for a known token of another room when a room is named; otherwise the stored session, which belongs to the named room |
| PvpRoom.PeekSession | catanatron/catanatron/web/pvp_room.py:209-217 | a session is found exactly when the token is non-empty and known and, when a room is named, belongs to it; it is the stored session |
| PvpRoom.PeekAgreesWithRequire | catanatron/catanatron/web/pvp_room.py:198-217 | `peek_session` finds a session exactly when `require_session` accepts, and finds the same one; 401 exactly for a missing, empty or unknown token; 403 exactly for a known token of another room, and then peeking finds nothing |
| PvpRoom.IssuedSessionIsAccepted | catanatron/catanatron/web/pvp_room.py:198-206 | a freshly issued session is accepted for its own room and when no room is named |
| PvpRoom.RevokedSessionIsRefused | catanatron/catanatron/web/pvp_room.py:198-217 | after revoking, the token gets 401 and peeking finds nothing |
| PvpRoom.FilledColors | catanatron/catanatron/web/pvp_room.py:228 | exactly the colours of occupied seats, no more entries than seats |
| PvpRoom.FilledColorsInSeatOrder | catanatron/catanatron/web/pvp_room.py:228-235 | players are created in seat order: each occupied colour once, in the order of SEAT_ORDER |
| PvpRoom.Room.Start | catanatron/catanatron/web/pvp_room.py:220-243 | non-host 403; an already started room returns its game id unchanged; fewer than two players 400; otherwise a game for the occupied colours is created under the fresh game id, saved as the newest state and recorded in the room with its state index |
| PvpRoom.StartRoom | catanatron/catanatron/web/pvp_room.py:220-223 | an unknown room is 404 before the host check; a non-host is 403 and nothing is saved |
| PvpRoom.ExpectedIndex | catanatron/catanatron/web/pvp_room.py:271-275 | no expectation for null; an integer is itself; `true` is 1 and `false` is 0; a string is what `int()` reads from it; a list, an object or a string `int()` rejects is 400 |
| PvpRoom.SubmitCheck | catanatron/catanatron/web/pvp_room.py:262-278 | a room not started or without a game is 400; a missing saved game is 500; otherwise the check passes exactly when it is the caller's turn on the newest state and the expected index is absent or equal to its state index, and then it yields that newest state |
| PvpRoom.TurnCheckedBeforeIndex | catanatron/catanatron/web/pvp_room.py:265-268 | a caller whose turn it is not gets 403 whatever expected index it sends |
| PvpRoom.ExpectedIndexDecides | catanatron/catanatron/web/pvp_room.py:270-278 | for the player to move, no expected index or the current one passes, another index is 409 whether sent as an integer, a numeric string or a boolean, and a value that `int()` rejects is 400 |
| PvpRoom.Room.Submit | catanatron/catanatron/web/pvp_room.py:261-289 | any failed check is its status with nothing saved; an action the engine rejects is 400 with nothing saved; an accepted one is saved as the newest state and its state index recorded in the room |
| PvpRoom.SubmitAction | catanatron/catanatron/web/pvp_room.py:253-263 | a null action is 400 before the room lookup, an unknown room 404, and a failed check its status, with nothing saved and the room untouched in each case |
| Graph.Graph.constructor | networkx/__init__.py:9-10 | a new graph is empty |
| Graph.AddNodeSpec | networkx/__init__.py:12-13 | adding a node adds it with no neighbours if new, keeps every existing adjacency, is idempotent and keeps the adjacency symmetric |
| Graph.Graph.AddNode | networkx/__init__.py:12-13 | the adjacency becomes `WithNode` of the old one and a new node is appended to the node order |
| Graph.Graph.AddNodesFrom | networkx/__init__.py:15-17 | every listed node becomes a node, existing adjacencies are kept, new nodes have none, and the node order is the old one with each new node appended in list order (`Appended`) |
| Graph.AddEdgeSpec | networkx/__init__.py:19-23 | adding an edge makes both ends nodes and each a neighbour of the other, touches no other adjacency and keeps it symmetric |
| Graph.Graph.AddEdge | networkx/__init__.py:19-23 | the adjacency becomes `WithEdge` of the old one; the node order gains u if it was new and then v if it was new and differs from u |
| Graph.AddEdgesSpec | networkx/__init__.py:25-27 | after adding a list of edges, each listed pair is adjacent both ways, old adjacencies only grow and symmetry holds |
| Graph.Graph.AddEdgesFrom | networkx/__init__.py:25-27 | the adjacency becomes the old one with the edges added in turn; the node order is the old one with the new end points appended, u before v, pair by pair |
| Graph.AppendedSpec | networkx/__init__.py:12-13 | after inserting nodes into the key order, it holds exactly the old keys and the inserted nodes, each once |
| Graph.Graph.Neighbors | networkx/__init__.py:29-30 | a known node's neighbours are exactly its adjacency set; an unknown node has none; every neighbour is a node adjacent back |
| Graph.Graph.Contains | networkx/__init__.py:63-64 | a node is contained exactly when it is listed by `nodes()` |
| Graph.Graph.Nodes | networkx/__init__.py:66-67 | the node list holds exactly the nodes, each once |
| Graph.Graph.Edges | networkx/__init__.py:33-42 | the listed pairs are exactly the adjacent pairs `(a, b)` with `a <= b`, each listed once |
| Graph.Graph.EdgesOf | networkx/__init__.py:44-51 | the listed pairs are exactly `(u, v)` with u in the bunch and v a neighbour of u; each such pair is listed once per mention of u in the bunch, and their number is the sum of the bunch's degrees |
| Graph.InducedSpec | networkx/__init__.py:53-61 | the induced adjacency has exactly the chosen nodes, and u, v are adjacent in it iff both are chosen and adjacent in the graph; it is symmetric |
| Graph.Graph.Subgraph | networkx/__init__.py:53-61 | the result is a new, valid graph whose adjacency is the graph induced by the given nodes |
| ShortestPaths.FloydWarshall | networkx/__init__.py:70-89 | returns the node list and a fresh matrix whose entry (i, j) is the pivot recurrence over all nodes, started from the matrix the first loop fills |
| ShortestPaths.FillInitial | networkx/__init__.py:72-78 | each row gets 0 on the diagonal first and then 1 for each neighbour, so an entry is 1 between neighbours (a self-loop included), otherwise 0 on the diagonal and infinity elsewhere |
| ShortestPaths.RelaxThrough | networkx/__init__.py:80-88 | one round of the outer loop turns the matrix for pivots below k into the matrix for pivots up to k |
| ShortestPaths.RelaxRow | networkx/__init__.py:81-88 | relaxing one row through pivot k gives that row's next-round entries and leaves the other rows alone |
| ShortestPaths.NeverIncreases | networkx/__init__.py:86-88 | relaxation never increases an entry |
| ShortestPaths.HopDistance | networkx/__init__.py:70-89 | from the start matrix that keeps the diagonal at 0, a final entry is finite iff a walk joins the two nodes; it equals the length of some walk and is at most the length of every walk, so unreachable pairs stay infinite |
| ShortestPaths.HopDistanceAsWritten | networkx/__init__.py:70-89 | every entry the method returns, except the diagonal entry of a node that is its own neighbour, is a hop distance: finite iff a walk joins the nodes, and then the length of a shortest walk |
| ShortestPaths.AsWrittenAgreesOffSelfLoops | networkx/__init__.py:75-89 | the relaxed entries from the start matrix as written and from the zero-diagonal one agree everywhere except on a self-loop node's diagonal |
| ShortestPaths.LoopFreeDiagonalStaysZero | networkx/__init__.py:75-89 | as written, a node that is not its own neighbour stays at distance 0 from itself through every pivot |
| ShortestPaths.DiagonalStaysZero | networkx/__init__.py:76 | with the corrected initial matrix, every node stays at distance 0 from itself |
| ShortestPaths.OffDiagonalAtLeastOne | networkx/__init__.py:80-88 | relaxation never makes the distance between two different nodes 0 |
| ShortestPaths.SelfLoopStaysAtOne | networkx/__init__.py:75-78 | as written, a node with a self-loop ends at distance 1 from itself although the one-node walk has length 0 |
| ShortestPaths.SelfLoopCounterexample | networkx/__init__.py:75-78 | on the one-node graph with a self-loop the code as written gives 1 where the corrected start gives 0 |
| ShortestPaths.AsWrittenAgreesWithoutSelfLoops | networkx/__init__.py:75-78 | without self-loops the initialisation as written and the corrected one coincide |
| Negotiation.Trim | catanatron/catanatron/web/negotiation.py:127 | a suffix of the records: all of them when max_items is 0, the last max_items when it is positive, all but the first -max_items when it is negative |
| Negotiation.EntryOf | catanatron/catanatron/web/negotiation.py:133-141 | carries the sequence number and the result; colour, action and value are null for an empty action and its first three items otherwise; fewer than three items is an error |
| Negotiation.EntriesIncreasing | catanatron/catanatron/web/negotiation.py:130-142 | the sequence numbers of the formatted entries strictly increase |
| Negotiation.EntriesMatchRecords | catanatron/catanatron/web/negotiation.py:130-142 | each entry comes from a two-item record at position `sequence - offset - 1` and is the entry `EntryOf` builds from that record: colour, action and value from its action, result its second item |
| Negotiation.EntriesComplete | catanatron/catanatron/web/negotiation.py:130-133 | every two-item record in the trimmed log yields an entry numbered `offset + idx + 1`; other records are skipped |
| Negotiation.EntriesErrPropagates | catanatron/catanatron/web/negotiation.py:130-142 | a record that raises aborts the whole summary |
| Negotiation.SummarizeActions | catanatron/catanatron/web/negotiation.py:124-143 | the loop computes `ActionSummary`: the formatted entries and the offset |
| Negotiation.ActionSummaryInLog | catanatron/catanatron/web/negotiation.py:124-143 | the offset is `len(records) - len(trimmed)`, so `records[offset..]` is the trimmed log; it is `len - max_items` or 0 for a positive limit and 0 when the limit is 0; every entry is built from a two-item record of the full log, numbered from 1 |
| Negotiation.SeatKeysDistinct | catanatron/catanatron/web/negotiation.py:62-64 | keys `P{index}_{name}` are unambiguous: equal keys have equal index and name |
| Negotiation.SeatKeysDiffer | catanatron/catanatron/web/negotiation.py:62-64 | keys of different seats never coincide |
| Negotiation.InHand | catanatron/catanatron/web/negotiation.py:63-70 | one count per name, in order, keyed by the name; each count is the value stored under the seat's `P{index}_{name}_IN_HAND` key, or 0 when the key is absent |
| Negotiation.SeatSummaryReadsOwnKeys | catanatron/catanatron/web/negotiation.py:62-90 | a seat's digest carries its colour, and every field is the value stored under that seat's own `P{index}_…` key, or the default (0 for counts in hand, None otherwise) when the key is absent |
| Negotiation.PrefixPicksSeat | catanatron/catanatron/web/negotiation.py:62-74 | with only `P1_VICTORY_POINTS` stored, seat 1's lookup finds it and seat 0's finds nothing |
| Negotiation.InHandOwnSeat | catanatron/catanatron/web/negotiation.py:63-70 | a seat's card counts ignore every key of another seat |
| Negotiation.SummaryReadsOwnSeat | catanatron/catanatron/web/negotiation.py:58-92 | a seat's summary is unchanged by any entry that belongs to another seat |
| Negotiation.PlayerSummaries | catanatron/catanatron/web/negotiation.py:58-92 | succeeds exactly when `colors` can be iterated and, unless it is empty, `player_state` is a dict; then one summary per listed colour, in order, the i-th being seat i's digest of `player_state`; any failure is a 500 |
| Negotiation.SummarizePlayerState | catanatron/catanatron/web/negotiation.py:58-92 | the loop computes `PlayerSummaries` |
| Negotiation.KeepColored | catanatron/catanatron/web/negotiation.py:101-115 | the filter succeeds exactly when every item is a dict (else 500), and keeps at most as many items as it is given |
| Negotiation.KeepColoredAppend | catanatron/catanatron/web/negotiation.py:101-115 | filtering keeps the input order: filtering a concatenation concatenates the filtered parts |
| Negotiation.KeepColoredMembers | catanatron/catanatron/web/negotiation.py:101-115 | a view is kept exactly when some item with a truthy colour has it |
| Common.GetOrFirst | catanatron/catanatron/web/negotiation.py:64 | `dict.get` gives the value stored under the key, or the default when the key is absent |
| Negotiation.NodeValues | catanatron/catanatron/web/negotiation.py:96-100 | nodes given as a dict contribute their values in order, and nodes given as a list contribute the list |
| Negotiation.SummarizeBoard | catanatron/catanatron/web/negotiation.py:95-121 | succeeds exactly when nodes and edges can be iterated and every node and edge is a dict (else 500); the tiles and the robber coordinate are copied, the structures are the coloured nodes and the roads the coloured edges, each in input order |
| Negotiation.Insert | catanatron/catanatron/web/negotiation.py:157-159 | inserting into a strictly sorted list keeps it strictly sorted and adds exactly the element |
| Negotiation.HumanColors | catanatron/catanatron/web/negotiation.py:157-159 | the result is strictly sorted, so it has no duplicates, and holds exactly the colours that are not bot colours |
| Negotiation.SortedUnique | catanatron/catanatron/web/negotiation.py:157-159 | a strictly sorted list is determined by its elements |
| Negotiation.HumanColorsIgnoresOrder | catanatron/catanatron/web/negotiation.py:157-159 | the human colours depend only on which colours are listed, not on their order or repetition |
| Negotiation.HumanColorsOf | catanatron/catanatron/web/negotiation.py:157-159 | succeeds exactly when `colors` and `bot_colors` iterate to strings; the result is `HumanColors` of the two, so strictly sorted and holding exactly the colours that are not bots |
| Negotiation.LogLimit | catanatron/catanatron/web/negotiation.py:150 | 32 when the setting is absent; otherwise accepted exactly when `int()` accepts it |
| Negotiation.LogLimitOfFormatted | catanatron/catanatron/web/negotiation.py:150 | a limit written in decimal is read back as itself |
| Text.StripIsTrimmedSlice | catanatron/catanatron/web/pvp_room.py:90 | `strip()` returns a contiguous slice with only white space cut off either side, and neither end of the result is white space |
| Text.StripEmptyIffBlank | catanatron/catanatron/web/pvp_room.py:138 | a string strips to nothing exactly when it is all white space |
| Text.StripIdempotent | catanatron/catanatron/web/pvp_room.py:140 | stripping twice is stripping once |
| Text.ParseIntRoundTrip | catanatron/catanatron/web/api.py:345 | `int(str(i)) == i` for every integer |
| Api.ParseStateIndex | catanatron/catanatron/web/api.py:340-350 | "latest" and only "latest" means the newest state; an integer string is that index; anything else is 400 |
| Api.ParseStateIndexRoundTrip | catanatron/catanatron/web/api.py:340-350 | every printed integer index is read back as itself |
| Api.GetGame | catanatron/catanatron/web/api.py:126-132 | a malformed index is 400 before any lookup, even for an unknown game; a missing game or state is 404; otherwise the stored state at that index |
| Api.LatestServesNewest | catanatron/catanatron/web/api.py:126-132 | "latest" serves the newest saved state, or 404 |
| Api.PlayerFactory | catanatron/catanatron/web/api.py:45-53 | CATANATRON gives a depth-2 alpha-beta bot with pruning, RANDOM a random bot, HUMAN a value-function player that is not a bot; the colour is kept; any other key is the error "Invalid player key" |
| Api.OnlyHumanWaits | catanatron/catanatron/web/api.py:45-53 | the only non-bot player comes from the HUMAN key, as a value-function player |
| Api.ActionOutcome | catanatron/catanatron/web/api.py:141-172 | unknown game 404 with nothing saved; a game with a winner is returned unchanged and not saved; a bot turn or an empty body saves one tick; otherwise 400 exactly when the engine rejects the action; whatever is saved is what is returned |
| Api.BotTurnIgnoresBody | catanatron/catanatron/web/api.py:153-156 | on a bot's turn, every body gives the same outcome |
| Api.FinishedGameIsFrozen | catanatron/catanatron/web/api.py:146-151 | a game with a winner is returned unchanged and never saved again |
| Api.EmptyPostOnHumanTurnTicks | catanatron/catanatron/web/api.py:153-156 | an empty POST on a human's turn saves and returns one tick |
| Api.HumanActionSavedIffAccepted | catanatron/catanatron/web/api.py:157-163 | a human's non-empty action is saved exactly when the engine accepts it, and the engine's result is what is saved |
| Api.PostAction | catanatron/catanatron/web/api.py:141-172 | answers `ActionOutcome` for the newest stored state; the store gains that outcome's state as the game's newest state when there is one, and is unchanged otherwise |
| Api.DeletedReply | catanatron/catanatron/web/api.py:73 | the confirmation says `deleted: true` and names the game |
| Api.DeleteGame | catanatron/catanatron/web/api.py:68-73 | 404 when the game had no saved state, otherwise the confirmation; afterwards nothing is stored under the id |

## Left out

- Flask routing, request parsing and JSON responses are left out. Bodies
  that are not JSON are left out too: Flask answers those with 400 or 415
  before any of this logic runs. Error descriptions are dropped and only
  the status is kept.
- The database, sessions, commits and row locking are replaced by `GameDb`
  and by `Room` objects held in a map. `catanatron/web/models.py` is not
  part of this model, and neither are the `created_at`/`updated_at`
  timestamps.
- The session store's lock is left out because the model is sequential.
  Concurrent joins and submissions are not modelled.
- `uuid4()` tokens, room ids and game ids are parameters, so the model
  does not state that they are fresh. The game id is handed to the
  engine's `newGame`, which stands for `Game(players=...)`.
- Games.GameDb.At: selects a saved state by its position in the game's
  history. `get_game_state` selects by the stored `state_index` column, so
  the two agree only when every saved state's index equals its position.
  The store that would guarantee this is in `catanatron/web/models.py`,
  which is not part of this model.
- The game engine (`Game`, `play_tick`, `execute`, `action_from_json`,
  `get_state_index`, `winning_color`, `GameEncoder`) is an uninterpreted
  `Engine` record. An engine exception other than `ValueError` is not
  modelled. In `post_action_endpoint`, `action_from_json` runs before the
  `try` block, so any exception it raises, a `ValueError` included, would
  be a 500. The model's `actionFromJson` is total, so this 500 path is not
  modelled.
- `catanatron/models/enums.py` is not part of this model. The resource and
  development-card names are parameters of the player summary.
- The OpenAI client, the advice request and the text of the prompt are
  left out, because they are network I/O and formatting only.
- Floating point is left out: `inf` is the constructor `Inf`, and JSON
  numbers are integers.
- Graph nodes are integers, and `floyd_warshall` returns a square matrix
  indexed by position in `nodes()` instead of a dict of dicts. Python's
  set iteration order inside `edges()` is unspecified, so the model states
  the edge lists by membership, count and uniqueness rather than by order.
- Request fields are typed by what the code does with them once they
  are valid:
  - `PvpRoom.JoinRoom` takes `user_name` as a string, so a JSON `null`
    user name (400 through `not user_name`) and a non-string one (a 500
    from `.strip()`) are not among its inputs.
  - `PvpRoom.RoomName` takes an optional string, so a missing or `null`
    room name is covered, but a non-string one (a 500 from `.strip()`) is
    not.
  - The `action_records` of the negotiation summary are a sequence, so a
    value that is not a list is not modelled.
- `int()` is modelled as white space, an optional sign and ASCII digits.
  Underscores between digits and non-ASCII digits, which Python also
  accepts, are left out.
- `post_game_endpoint` and the room listing are left out. They depend on
  the `Color` enum order and on database queries.
- Negotiation.HumanColorsOf: colour lists with a non-string entry are not
  handled. Python would compare the mixed values and may raise.
- PvpRoom.StartRoom: states the room lookup and host checks only. The
  other outcomes are those of Room.Start, which it calls.
- PvpRoom.SubmitAction: states the null-action, lookup and check failures
  only. The other outcomes are those of Room.Submit, which it calls.
- The tests and the code disagree in three places, and the model follows
  the code:
  - `tests/web/test_api.py:106-133` expects 400 for an empty POST on a
    human's turn, but the code advances the game by one tick
    (`Api.EmptyPostOnHumanTurnTicks`).
  - `tests/web/test_api.py:136-177` posts a human's cancel while a bot is
    to move and expects the cancel to be applied. The code plays a bot
    tick whenever the current player is a bot and ignores the body
    (`Api.BotTurnIgnoresBody`).
  - `tests/web/test_api.py:209-235` reads an events endpoint that the API
    does not define.

## Findings

| source | as written | input that shows it | evidently intended | confidence | as-written member | corrected member |
|---|---|---|---|---|---|---|
| networkx/__init__.py:75-78 | each node's diagonal entry is set to 0 first, then its neighbours' entries to 1, so a self-loop overwrites the diagonal with 1 and no relaxation brings it back to 0; `ShortestPaths.FloydWarshall` computes this as written | `G.add_edge(0, 0)`: `floyd_warshall(G)[0][0]` is 1 | every node is at distance 0 from itself | not executed | ShortestPaths.SelfLoopStaysAtOne | ShortestPaths.DiagonalStaysZero |
