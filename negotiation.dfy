/** The summaries the negotiation-advice endpoint builds from a game's JSON
    payload before prompting a language model: the recent action log, a
    per-player state digest, the coloured part of the board and the sorted
    list of human colours. The model call itself is not modelled. */
module Negotiation {
  import opened Common
  import opened Text

  // ----- Python semantics on decoded JSON -----

  /** `for x in j`: a list yields its items, a dict its keys, a string its
      characters; anything else raises TypeError. */
  function Iterate(j: Json): (r: Result<seq<Json>, Status>)
    ensures j.Arr? ==> r == Ok(j.items)
    ensures r.Ok? <==> j.Arr? || j.Obj? || j.Str?
    ensures r.Ok? && j.Obj? ==> |r.value| == |j.entries|
    ensures r.Ok? && j.Str? ==> |r.value| == |j.s|
  {
    match j
    case Arr(items) => Ok(items)
    case Obj(entries) => Ok(seq(|entries|, k requires 0 <= k < |entries| => Str(entries[k].0)))
    case Str(s) => Ok(seq(|s|, k requires 0 <= k < |s| => Str([s[k]])))
    case _ => Err(ServerError)
  }

  /** `j[i]` for a small non-negative i: a list or string element, otherwise
      IndexError, KeyError (JSON keys are strings) or TypeError. */
  function Index(j: Json, i: nat): (r: Result<Json, Status>)
    ensures r.Ok? <==> (j.Arr? && i < |j.items|) || (j.Str? && i < |j.s|)
    ensures j.Arr? && i < |j.items| ==> r == Ok(j.items[i])
    ensures r.Err? ==> r.error == ServerError
  {
    match j
    case Arr(items) => if i < |items| then Ok(items[i]) else Err(ServerError)
    case Str(s) => if i < |s| then Ok(Str([s[i]])) else Err(ServerError)
    case _ => Err(ServerError)
  }

  // ----- _summarize_actions -----

  /** `records[-max_items:] if max_items else records`, with Python's
      slicing: a negative `max_items` drops that many leading records. */
  function Trim(records: seq<Json>, maxItems: int): (trimmed: seq<Json>)
    ensures |trimmed| <= |records| && trimmed == records[|records| - |trimmed|..]
    ensures maxItems == 0 ==> trimmed == records
    ensures maxItems > 0 ==> |trimmed| == if maxItems < |records| then maxItems else |records|
    ensures maxItems < 0 ==> |records| - |trimmed| == if -maxItems < |records| then -maxItems else |records|
  {
    if maxItems == 0 then records
    else if maxItems > 0 then (if maxItems < |records| then records[|records| - maxItems..] else records)
    else (if -maxItems < |records| then records[-maxItems..] else [])
  }

  /** One line of the recent action log. */
  datatype ActionEntry = ActionEntry(sequence: nat, color: Json, action: Json, value: Json, result: Json)

  /** A record the log keeps: a list of exactly two items, action and result. */
  predicate IsPair(record: Json)
  {
    record.Arr? && |record.items| == 2
  }

  /** The entry for one kept record; an empty action gives three `None`s,
      a non-empty one too short to index fails as Python would. */
  function EntryOf(action: Json, result: Json, sequence: nat): (r: Result<ActionEntry, Status>)
    ensures r.Ok? ==> r.value.sequence == sequence && r.value.result == result
    ensures r.Err? ==> r.error == ServerError
    ensures !Truthy(action) ==> r == Ok(ActionEntry(sequence, Null, Null, Null, result))
    ensures Truthy(action) && action.Arr? ==> (r.Ok? <==> |action.items| >= 3)
    ensures r.Ok? && action.Arr? && Truthy(action) ==>
              r.value.color == action.items[0] && r.value.action == action.items[1] && r.value.value == action.items[2]
  {
    if !Truthy(action) then Ok(ActionEntry(sequence, Null, Null, Null, result))
    else
      match Index(action, 0)
      case Err(e) => Err(e)
      case Ok(color) =>
        match Index(action, 1)
        case Err(e) => Err(e)
        case Ok(name) =>
          match Index(action, 2)
          case Err(e) => Err(e)
          case Ok(value) => Ok(ActionEntry(sequence, color, name, value, result))
  }

  /** The entries for the kept window `trimmed`, which starts after `offset`
      dropped records: every entry is numbered by a position inside the
      window, counted 1-based in the whole log. */
  function EntriesOf(trimmed: seq<Json>, offset: nat): (r: Result<seq<ActionEntry>, Status>)
    ensures r.Ok? ==> |r.value| <= |trimmed|
    ensures r.Ok? ==> forall k :: 0 <= k < |r.value| ==> offset < r.value[k].sequence <= offset + |trimmed|
    ensures r.Err? ==> r.error == ServerError
    decreases |trimmed|
  {
    if trimmed == [] then Ok([])
    else
      var record := trimmed[|trimmed| - 1];
      match EntriesOf(trimmed[..|trimmed| - 1], offset)
      case Err(e) => Err(e)
      case Ok(es) =>
        if !IsPair(record) then Ok(es)
        else
          match EntryOf(record.items[0], record.items[1], offset + |trimmed|)
          case Err(e) => Err(e)
          case Ok(entry) => Ok(es + [entry])
  }

  /** One more record: the window's entries are those of the shorter window,
      plus one entry when the record is a pair. */
  lemma EntriesStep(trimmed: seq<Json>, offset: nat)
    requires trimmed != [] && EntriesOf(trimmed, offset).Ok?
    ensures EntriesOf(trimmed[..|trimmed| - 1], offset).Ok?
    ensures var es := EntriesOf(trimmed[..|trimmed| - 1], offset).value;
            var record := trimmed[|trimmed| - 1];
            EntriesOf(trimmed, offset).value ==
              if IsPair(record) then es + [EntryOf(record.items[0], record.items[1], offset + |trimmed|).value] else es
  {
  }

  /** Entry numbers strictly increase. */
  lemma {:induction false} EntriesIncreasing(trimmed: seq<Json>, offset: nat)
    requires EntriesOf(trimmed, offset).Ok?
    ensures var es := EntriesOf(trimmed, offset).value;
            forall k, l :: 0 <= k < l < |es| ==> es[k].sequence < es[l].sequence
    decreases |trimmed|
  {
    if trimmed != [] {
      EntriesStep(trimmed, offset);
      EntriesIncreasing(trimmed[..|trimmed| - 1], offset);
    }
  }

  /** Each entry stands for a two-item record of the window and carries its
      result. */
  lemma {:induction false} EntriesMatchRecords(trimmed: seq<Json>, offset: nat)
    requires EntriesOf(trimmed, offset).Ok?
    ensures var es := EntriesOf(trimmed, offset).value;
            forall k :: 0 <= k < |es| ==>
              IsPair(trimmed[es[k].sequence - offset - 1])
              && es[k].result == trimmed[es[k].sequence - offset - 1].items[1]
              && EntryOf(trimmed[es[k].sequence - offset - 1].items[0], trimmed[es[k].sequence - offset - 1].items[1],
                         es[k].sequence) == Ok(es[k])
    decreases |trimmed|
  {
    if trimmed != [] {
      var front := trimmed[..|trimmed| - 1];
      EntriesStep(trimmed, offset);
      EntriesMatchRecords(front, offset);
      var es := EntriesOf(front, offset).value;
      forall k | 0 <= k < |es|
        ensures front[es[k].sequence - offset - 1] == trimmed[es[k].sequence - offset - 1]
      {
      }
    }
  }

  /** Every two-item record of the window has its entry: none is skipped
      except the malformed ones. */
  lemma {:induction false} EntriesComplete(trimmed: seq<Json>, offset: nat)
    requires EntriesOf(trimmed, offset).Ok?
    ensures var es := EntriesOf(trimmed, offset).value;
            forall idx :: 0 <= idx < |trimmed| && IsPair(trimmed[idx]) ==>
              exists k :: 0 <= k < |es| && es[k].sequence == offset + idx + 1
    decreases |trimmed|
  {
    if trimmed != [] {
      var front := trimmed[..|trimmed| - 1];
      EntriesStep(trimmed, offset);
      EntriesComplete(front, offset);
      var es := EntriesOf(trimmed, offset).value;
      var es' := EntriesOf(front, offset).value;
      forall idx | 0 <= idx < |trimmed| && IsPair(trimmed[idx])
        ensures exists k :: 0 <= k < |es| && es[k].sequence == offset + idx + 1
      {
        if idx < |front| {
          assert front[idx] == trimmed[idx];
          var k :| 0 <= k < |es'| && es'[k].sequence == offset + idx + 1;
          assert es[k] == es'[k];
        } else {
          assert es[|es'|].sequence == offset + idx + 1;
        }
      }
    }
  }

  /** What `_summarize_actions(records, max_items)` returns: the entries of
      the kept window and the number of records dropped before it. */
  function ActionSummary(records: seq<Json>, maxItems: int): Result<(seq<ActionEntry>, nat), Status>
  {
    var trimmed := Trim(records, maxItems);
    var offset := |records| - |trimmed|;
    match EntriesOf(trimmed, offset)
    case Err(e) => Err(e)
    case Ok(es) => Ok((es, offset))
  }

  /** `_summarize_actions`: the loop over the kept window. */
  method SummarizeActions(records: seq<Json>, maxItems: int) returns (r: Result<(seq<ActionEntry>, nat), Status>)
    ensures r == ActionSummary(records, maxItems)
  {
    var trimmed := Trim(records, maxItems);
    var startingIndex := |records| - |trimmed|;
    var formatted: seq<ActionEntry> := [];
    var idx := 0;
    while idx < |trimmed|
      invariant 0 <= idx <= |trimmed|
      invariant EntriesOf(trimmed[..idx], startingIndex) == Ok(formatted)
    {
      var record := trimmed[idx];
      assert trimmed[..idx + 1][..idx] == trimmed[..idx];
      assert trimmed[..idx + 1][idx] == record;
      if IsPair(record) {
        var entry := EntryOf(record.items[0], record.items[1], startingIndex + idx + 1);
        if entry.Err? {
          assert EntriesOf(trimmed[..idx + 1], startingIndex).Err?;
          EntriesErrPropagates(trimmed, idx + 1, startingIndex);
          return Err(entry.error);
        }
        formatted := formatted + [entry.value];
      }
      idx := idx + 1;
    }
    assert trimmed[..idx] == trimmed;
    r := Ok((formatted, startingIndex));
  }

  /** A failing record makes the whole window fail. */
  lemma {:induction false} EntriesErrPropagates(trimmed: seq<Json>, n: nat, offset: nat)
    requires n <= |trimmed| && EntriesOf(trimmed[..n], offset).Err?
    ensures EntriesOf(trimmed, offset).Err?
    decreases |trimmed| - n
  {
    if n < |trimmed| {
      assert trimmed[..n + 1][..n] == trimmed[..n];
      EntriesErrPropagates(trimmed, n + 1, offset);
    } else {
      assert trimmed[..n] == trimmed;
    }
  }

  /** The summary's offset counts the dropped leading records, and every
      entry's number is the 1-based position in the whole log of a two-item
      record whose result it carries. */
  lemma ActionSummaryInLog(records: seq<Json>, maxItems: int)
    requires ActionSummary(records, maxItems).Ok?
    ensures var (es, offset) := ActionSummary(records, maxItems).value;
            && records[offset..] == Trim(records, maxItems)
            && (maxItems > 0 ==> offset == if maxItems < |records| then |records| - maxItems else 0)
            && (maxItems == 0 ==> offset == 0)
            && forall k :: 0 <= k < |es| ==>
                 1 <= es[k].sequence <= |records|
                 && IsPair(records[es[k].sequence - 1])
                 && es[k].result == records[es[k].sequence - 1].items[1]
                 && EntryOf(records[es[k].sequence - 1].items[0], records[es[k].sequence - 1].items[1],
                            es[k].sequence) == Ok(es[k])
  {
    var trimmed := Trim(records, maxItems);
    var offset := |records| - |trimmed|;
    EntriesMatchRecords(trimmed, offset);
    var es := EntriesOf(trimmed, offset).value;
    forall k | 0 <= k < |es|
      ensures records[es[k].sequence - 1] == trimmed[es[k].sequence - offset - 1]
    {
    }
  }

  // ----- _summarize_player_state -----

  /** The key a seat's value is stored under: `f"P{index}_{name}"`. */
  function SeatKey(index: nat, name: string): (key: string)
    ensures |key| > |name| + 1 && key[0] == 'P'
  {
    "P" + Decimal(index) + "_" + name
  }

  /** Index of the first c in s, or |s| when there is none. */
  function Find(s: string, c: char): (i: nat)
    ensures i <= |s|
    ensures i < |s| ==> s[i] == c
    ensures forall t :: 0 <= t < i ==> s[t] != c
  {
    if s == [] || s[0] == c then 0 else 1 + Find(s[1..], c)
  }

  /** In a seat key the first `_` comes right after the seat's digits. */
  lemma SeatKeyUnderscore(index: nat, name: string)
    ensures SeatKey(index, name)[1..] == Decimal(index) + "_" + name
    ensures Find(SeatKey(index, name)[1..], '_') == |Decimal(index)|
  {
    var d := Decimal(index);
    var t := SeatKey(index, name)[1..];
    assert t == d + "_" + name;
    assert t[|d|] == '_';
    assert forall k :: 0 <= k < |d| ==> t[k] == d[k] && IsDigit(d[k]);
  }

  /** Two seats never share a key: the digits before the first `_` name the
      seat. */
  lemma SeatKeysDistinct(i: nat, a: string, j: nat, b: string)
    requires SeatKey(i, a) == SeatKey(j, b)
    ensures i == j && a == b
  {
    var di, dj := Decimal(i), Decimal(j);
    SeatKeyUnderscore(i, a);
    SeatKeyUnderscore(j, b);
    var t := SeatKey(i, a)[1..];
    assert |di| == |dj|;
    assert di == t[..|di|] == dj;
    DecimalInjective(i, j);
    assert a == t[|di| + 1..] == b;
  }

  /** One seat's digest. Counts in hand default to 0, every other missing
      value to `None`. */
  datatype PlayerSummary = PlayerSummary(
    color: Json,
    victoryPoints: Json,
    actualVictoryPoints: Json,
    resourcesInHand: seq<(string, Json)>,
    developmentCardsInHand: seq<(string, Json)>,
    hasLongestRoad: Json,
    hasLargestArmy: Json,
    knightsPlayed: Json,
    monopolyPlayed: Json,
    yearOfPlentyPlayed: Json,
    roadBuildingPlayed: Json)

  /** `{name: player_state.get(f"P{index}_{name}_IN_HAND", 0) for name in names}`. */
  function InHand(state: seq<(string, Json)>, index: nat, names: seq<string>): (counts: seq<(string, Json)>)
    ensures |counts| == |names|
    ensures forall k :: 0 <= k < |names| ==> counts[k].0 == names[k]
    ensures forall k :: 0 <= k < |names| ==> Holds(state, SeatKey(index, names[k] + "_IN_HAND"), Int(0), counts[k].1)
  {
    var counts := seq(|names|, k requires 0 <= k < |names| =>
                    (names[k], GetOr(state, SeatKey(index, names[k] + "_IN_HAND"), Int(0))));
    assert forall k :: 0 <= k < |names| ==> Holds(state, SeatKey(index, names[k] + "_IN_HAND"), Int(0), counts[k].1) by {
      forall k | 0 <= k < |names| {
        GetOrFirst(state, SeatKey(index, names[k] + "_IN_HAND"), Int(0));
      }
    }
    counts
  }

  /** The digest of seat `index` playing `color`; `resources` and `cards`
      are the engine's resource and development-card names. */
  function SeatSummary(state: seq<(string, Json)>, index: nat, color: Json,
                       resources: seq<string>, cards: seq<string>): PlayerSummary
  {
    PlayerSummary(
      color,
      GetOr(state, SeatKey(index, "VICTORY_POINTS"), Null),
      GetOr(state, SeatKey(index, "ACTUAL_VICTORY_POINTS"), Null),
      InHand(state, index, resources),
      InHand(state, index, cards),
      GetOr(state, SeatKey(index, "HAS_ROAD"), Null),
      GetOr(state, SeatKey(index, "HAS_ARMY"), Null),
      GetOr(state, SeatKey(index, "PLAYED_KNIGHT"), Null),
      GetOr(state, SeatKey(index, "PLAYED_MONOPOLY"), Null),
      GetOr(state, SeatKey(index, "PLAYED_YEAR_OF_PLENTY"), Null),
      GetOr(state, SeatKey(index, "PLAYED_ROAD_BUILDING"), Null))
  }

  /** Every field of seat `index`'s digest is the value stored under that
      seat's own `P{index}_…` key, or the default when the key is absent;
      the counts in hand are read the same way, name by name. */
  lemma SeatSummaryReadsOwnKeys(state: seq<(string, Json)>, index: nat, color: Json,
                                resources: seq<string>, cards: seq<string>)
    ensures var r := SeatSummary(state, index, color, resources, cards);
            && r.color == color
            && Holds(state, SeatKey(index, "VICTORY_POINTS"), Null, r.victoryPoints)
            && Holds(state, SeatKey(index, "ACTUAL_VICTORY_POINTS"), Null, r.actualVictoryPoints)
            && |r.resourcesInHand| == |resources|
            && (forall k :: 0 <= k < |resources| ==>
                  r.resourcesInHand[k].0 == resources[k] &&
                  Holds(state, SeatKey(index, resources[k] + "_IN_HAND"), Int(0), r.resourcesInHand[k].1))
            && |r.developmentCardsInHand| == |cards|
            && (forall k :: 0 <= k < |cards| ==>
                  r.developmentCardsInHand[k].0 == cards[k] &&
                  Holds(state, SeatKey(index, cards[k] + "_IN_HAND"), Int(0), r.developmentCardsInHand[k].1))
            && Holds(state, SeatKey(index, "HAS_ROAD"), Null, r.hasLongestRoad)
            && Holds(state, SeatKey(index, "HAS_ARMY"), Null, r.hasLargestArmy)
            && Holds(state, SeatKey(index, "PLAYED_KNIGHT"), Null, r.knightsPlayed)
            && Holds(state, SeatKey(index, "PLAYED_MONOPOLY"), Null, r.monopolyPlayed)
            && Holds(state, SeatKey(index, "PLAYED_YEAR_OF_PLENTY"), Null, r.yearOfPlentyPlayed)
            && Holds(state, SeatKey(index, "PLAYED_ROAD_BUILDING"), Null, r.roadBuildingPlayed)
  {
    GetOrFirst(state, SeatKey(index, "VICTORY_POINTS"), Null);
    GetOrFirst(state, SeatKey(index, "ACTUAL_VICTORY_POINTS"), Null);
    GetOrFirst(state, SeatKey(index, "HAS_ROAD"), Null);
    GetOrFirst(state, SeatKey(index, "HAS_ARMY"), Null);
    GetOrFirst(state, SeatKey(index, "PLAYED_KNIGHT"), Null);
    GetOrFirst(state, SeatKey(index, "PLAYED_MONOPOLY"), Null);
    GetOrFirst(state, SeatKey(index, "PLAYED_YEAR_OF_PLENTY"), Null);
    GetOrFirst(state, SeatKey(index, "PLAYED_ROAD_BUILDING"), Null);
  }

  /** What `_summarize_player_state(payload)` returns: one digest per entry
      of `colors`, in order. `player_state` that is not a dict fails as soon
      as a seat is looked up; `colors` that cannot be iterated fails. */
  function PlayerSummaries(payload: seq<(string, Json)>, resources: seq<string>, cards: seq<string>)
    : (r: Result<seq<PlayerSummary>, Status>)
    ensures r.Ok? ==> Iterate(GetOr(payload, "colors", Arr([]))).Ok?
    ensures r.Ok? ==> |r.value| == |Iterate(GetOr(payload, "colors", Arr([]))).value|
    ensures r.Ok? ==> forall i :: 0 <= i < |r.value| ==> r.value[i].color == Iterate(GetOr(payload, "colors", Arr([]))).value[i]
    ensures r.Ok? <==>
              && Iterate(GetOr(payload, "colors", Arr([]))).Ok?
              && (Iterate(GetOr(payload, "colors", Arr([]))).value == [] || GetOr(payload, "player_state", Obj([])).Obj?)
    ensures r.Err? ==> r.error == ServerError
    ensures r.Ok? && r.value != [] ==>
              && GetOr(payload, "player_state", Obj([])).Obj?
              && forall i :: 0 <= i < |r.value| ==>
                   r.value[i] == SeatSummary(GetOr(payload, "player_state", Obj([])).entries, i,
                                             Iterate(GetOr(payload, "colors", Arr([]))).value[i], resources, cards)
  {
    var stateJson := GetOr(payload, "player_state", Obj([]));
    match Iterate(GetOr(payload, "colors", Arr([])))
    case Err(e) => Err(e)
    case Ok(colors) =>
      if colors == [] then Ok([])
      else if !stateJson.Obj? then Err(ServerError)
      else Ok(seq(|colors|, i requires 0 <= i < |colors| =>
                SeatSummary(stateJson.entries, i, colors[i], resources, cards)))
  }

  /** `_summarize_player_state`: the loop over the colours. */
  method SummarizePlayerState(payload: seq<(string, Json)>, resources: seq<string>, cards: seq<string>)
    returns (r: Result<seq<PlayerSummary>, Status>)
    ensures r == PlayerSummaries(payload, resources, cards)
  {
    var stateJson := GetOr(payload, "player_state", Obj([]));
    var colorsOrError := Iterate(GetOr(payload, "colors", Arr([])));
    if colorsOrError.Err? {
      return Err(colorsOrError.error);
    }
    var colors := colorsOrError.value;
    var summaries: seq<PlayerSummary> := [];
    for index := 0 to |colors|
      invariant |summaries| == index
      invariant stateJson.Obj? ==> forall i :: 0 <= i < index ==>
                  summaries[i] == SeatSummary(stateJson.entries, i, colors[i], resources, cards)
      invariant index > 0 ==> stateJson.Obj?
    {
      if !stateJson.Obj? {
        return Err(ServerError);
      }
      summaries := summaries + [SeatSummary(stateJson.entries, index, colors[index], resources, cards)];
    }
    if colors != [] {
      assert summaries == seq(|colors|, i requires 0 <= i < |colors| =>
                                SeatSummary(stateJson.entries, i, colors[i], resources, cards));
    }
    r := Ok(summaries);
  }

  /** The `P{index}_` prefix picks the seat: with only `P1_VICTORY_POINTS`
      stored, seat 1's lookup finds it and seat 0's finds nothing. */
  lemma PrefixPicksSeat(v: Json)
    ensures GetOr([("P1_VICTORY_POINTS", v)], SeatKey(1, "VICTORY_POINTS"), Null) == v
    ensures GetOr([("P1_VICTORY_POINTS", v)], SeatKey(0, "VICTORY_POINTS"), Null) == Null
  {
    assert SeatKey(1, "VICTORY_POINTS") == "P1_VICTORY_POINTS";
    assert SeatKey(0, "VICTORY_POINTS")[1] == '0';
  }

  /** Seat i's digest reads only seat i's keys: a value stored for another
      seat never shows up in it. */
  lemma SummaryReadsOwnSeat(state: seq<(string, Json)>, i: nat, j: nat, name: string, v: Json,
                            color: Json, resources: seq<string>, cards: seq<string>)
    requires i != j
    ensures SeatSummary(state + [(SeatKey(j, name), v)], i, color, resources, cards)
            == SeatSummary(state, i, color, resources, cards)
  {
    var more := state + [(SeatKey(j, name), v)];
    OtherSeatInvisible(state, i, "VICTORY_POINTS", j, name, v, Null);
    OtherSeatInvisible(state, i, "ACTUAL_VICTORY_POINTS", j, name, v, Null);
    OtherSeatInvisible(state, i, "HAS_ROAD", j, name, v, Null);
    OtherSeatInvisible(state, i, "HAS_ARMY", j, name, v, Null);
    OtherSeatInvisible(state, i, "PLAYED_KNIGHT", j, name, v, Null);
    OtherSeatInvisible(state, i, "PLAYED_MONOPOLY", j, name, v, Null);
    OtherSeatInvisible(state, i, "PLAYED_YEAR_OF_PLENTY", j, name, v, Null);
    OtherSeatInvisible(state, i, "PLAYED_ROAD_BUILDING", j, name, v, Null);
    InHandOwnSeat(state, i, j, name, v, resources);
    InHandOwnSeat(state, i, j, name, v, cards);
  }

  lemma InHandOwnSeat(state: seq<(string, Json)>, i: nat, j: nat, name: string, v: Json, names: seq<string>)
    requires i != j
    ensures InHand(state + [(SeatKey(j, name), v)], i, names) == InHand(state, i, names)
  {
    forall k | 0 <= k < |names|
      ensures InHand(state + [(SeatKey(j, name), v)], i, names)[k] == InHand(state, i, names)[k]
    {
      OtherSeatInvisible(state, i, names[k] + "_IN_HAND", j, name, v, Int(0));
    }
  }

  /** A lookup of one of seat i's keys ignores an entry stored for seat j. */
  lemma OtherSeatInvisible(state: seq<(string, Json)>, i: nat, n: string, j: nat, name: string, v: Json, d: Json)
    requires i != j
    ensures GetOr(state + [(SeatKey(j, name), v)], SeatKey(i, n), d) == GetOr(state, SeatKey(i, n), d)
  {
    SeatKeysDiffer(i, n, j, name);
    GetOrIgnoresOtherKey(state, (SeatKey(j, name), v), SeatKey(i, n), d);
  }

  lemma SeatKeysDiffer(i: nat, a: string, j: nat, b: string)
    requires i != j
    ensures SeatKey(i, a) != SeatKey(j, b)
  {
    SeatKeyUnderscore(i, a);
    SeatKeyUnderscore(j, b);
    DecimalValue(i);
    DecimalValue(j);
    assert SeatKey(i, a)[1..][..|Decimal(i)|] == Decimal(i);
    assert SeatKey(j, b)[1..][..|Decimal(j)|] == Decimal(j);
  }

  /** Appending an entry under another key does not change a lookup. */
  lemma {:induction false} GetOrIgnoresOtherKey(entries: seq<(string, Json)>, extra: (string, Json), key: string, d: Json)
    requires extra.0 != key
    ensures GetOr(entries + [extra], key, d) == GetOr(entries, key, d)
  {
    if entries != [] {
      assert (entries + [extra])[1..] == entries[1..] + [extra];
      GetOrIgnoresOtherKey(entries[1..], extra, key, d);
    }
  }

  // ----- _summarize_board -----

  /** A built settlement or city. */
  datatype Structure = Structure(nodeId: Json, color: Json, building: Json, tileCoordinate: Json)

  /** A claimed road. */
  datatype Road = Road(edgeId: Json, color: Json)

  function StructureOf(node: seq<(string, Json)>): Structure
  {
    Structure(GetOr(node, "id", Null), GetOr(node, "color", Null), GetOr(node, "building", Null),
              GetOr(node, "tile_coordinate", Null))
  }

  function RoadOf(edge: seq<(string, Json)>): Road
  {
    Road(GetOr(edge, "id", Null), GetOr(edge, "color", Null))
  }

  /** `x.get("color")` is truthy. */
  predicate Colored(entries: seq<(string, Json)>)
  {
    Truthy(GetOr(entries, "color", Null))
  }

  /** `[view(x) for x in items if x.get("color")]`; an item that is not a
      dict fails (`.get` raises AttributeError). */
  function KeepColored<T>(items: seq<Json>, view: seq<(string, Json)> -> T): (r: Result<seq<T>, Status>)
    ensures r.Ok? <==> forall k :: 0 <= k < |items| ==> items[k].Obj?
    ensures r.Ok? ==> |r.value| <= |items|
    ensures r.Err? ==> r.error == ServerError
    decreases |items|
  {
    if items == [] then Ok([])
    else
      match KeepColored(items[..|items| - 1], view)
      case Err(e) => Err(e)
      case Ok(kept) =>
        var last := items[|items| - 1];
        if !last.Obj? then Err(ServerError)
        else if Colored(last.entries) then Ok(kept + [view(last.entries)])
        else Ok(kept)
  }

  /** Filtering a concatenation filters each part and keeps their order. */
  lemma {:induction false} KeepColoredAppend<T>(a: seq<Json>, b: seq<Json>, view: seq<(string, Json)> -> T)
    requires KeepColored(a + b, view).Ok?
    ensures KeepColored(a, view).Ok? && KeepColored(b, view).Ok?
    ensures KeepColored(a + b, view).value == KeepColored(a, view).value + KeepColored(b, view).value
    decreases |b|
  {
    if b == [] {
      assert a + b == a;
    } else {
      var b' := b[..|b| - 1];
      assert (a + b)[..|a + b| - 1] == a + b';
      assert (a + b)[|a + b| - 1] == b[|b| - 1];
      KeepColoredAppend(a, b', view);
    }
  }

  /** An item with a truthy colour whose view is `x`. */
  predicate ColoredWithView<T(==)>(items: seq<Json>, k: int, view: seq<(string, Json)> -> T, x: T)
    requires 0 <= k < |items| && items[k].Obj?
  {
    Colored(items[k].entries) && view(items[k].entries) == x
  }

  /** Exactly the coloured items are kept: an item's view is kept iff some
      item with a truthy colour has that view. */
  lemma {:induction false} KeepColoredMembers<T>(items: seq<Json>, view: seq<(string, Json)> -> T, x: T)
    requires KeepColored(items, view).Ok?
    ensures x in KeepColored(items, view).value <==>
              exists k :: 0 <= k < |items| && ColoredWithView(items, k, view, x)
    decreases |items|
  {
    if items != [] {
      var front := items[..|items| - 1];
      var n := |items| - 1;
      KeepColoredMembers(front, view, x);
      var last := items[n].entries;
      var added := if Colored(last) then [view(last)] else [];
      assert KeepColored(items, view).value == KeepColored(front, view).value + added;
      assert x in added <==> ColoredWithView(items, n, view, x);
      ColoredSplit(items, front, view, x);
    }
  }

  lemma ColoredSplit<T>(items: seq<Json>, front: seq<Json>, view: seq<(string, Json)> -> T, x: T)
    requires items != [] && front == items[..|items| - 1]
    requires forall k :: 0 <= k < |items| ==> items[k].Obj?
    ensures (exists k :: 0 <= k < |items| && ColoredWithView(items, k, view, x)) <==>
            (exists k :: 0 <= k < |front| && ColoredWithView(front, k, view, x))
            || ColoredWithView(items, |items| - 1, view, x)
  {
    if exists k :: 0 <= k < |items| && ColoredWithView(items, k, view, x) {
      var k :| 0 <= k < |items| && ColoredWithView(items, k, view, x);
      if k < |front| {
        assert ColoredWithView(front, k, view, x);
      }
    }
    if exists k :: 0 <= k < |front| && ColoredWithView(front, k, view, x) {
      var k :| 0 <= k < |front| && ColoredWithView(front, k, view, x);
      assert ColoredWithView(items, k, view, x);
    }
  }

  /** The board snapshot handed to the model. */
  datatype Board = Board(tiles: Json, robberCoordinate: Json, builtStructures: seq<Structure>, claimedRoads: seq<Road>)

  /** `nodes` as a dict gives its values, anything else is iterated. */
  function NodeValues(nodes: Json): (r: Result<seq<Json>, Status>)
    ensures nodes.Obj? ==> r == Ok(Values(nodes.entries))
    ensures nodes.Arr? ==> r == Ok(nodes.items)
  {
    if nodes.Obj? then Ok(Values(nodes.entries)) else Iterate(nodes)
  }

  /** `_summarize_board(payload)`. */
  function SummarizeBoard(payload: seq<(string, Json)>): (r: Result<Board, Status>)
    ensures r.Ok? <==>
              && NodeValues(GetOr(payload, "nodes", Obj([]))).Ok?
              && (forall k :: 0 <= k < |NodeValues(GetOr(payload, "nodes", Obj([]))).value| ==>
                    NodeValues(GetOr(payload, "nodes", Obj([]))).value[k].Obj?)
              && Iterate(GetOr(payload, "edges", Arr([]))).Ok?
              && (forall k :: 0 <= k < |Iterate(GetOr(payload, "edges", Arr([]))).value| ==>
                    Iterate(GetOr(payload, "edges", Arr([]))).value[k].Obj?)
    ensures r.Err? ==> r.error == ServerError
    ensures r.Ok? ==> r.value.tiles == GetOr(payload, "tiles", Null)
    ensures r.Ok? ==> r.value.robberCoordinate == GetOr(payload, "robber_coordinate", Null)
    ensures r.Ok? ==> NodeValues(GetOr(payload, "nodes", Obj([]))).Ok?
                      && KeepColored(NodeValues(GetOr(payload, "nodes", Obj([]))).value, StructureOf) == Ok(r.value.builtStructures)
    ensures r.Ok? ==> Iterate(GetOr(payload, "edges", Arr([]))).Ok?
                      && KeepColored(Iterate(GetOr(payload, "edges", Arr([]))).value, RoadOf) == Ok(r.value.claimedRoads)
  {
    match NodeValues(GetOr(payload, "nodes", Obj([])))
    case Err(e) => Err(e)
    case Ok(nodeValues) =>
      match KeepColored(nodeValues, StructureOf)
      case Err(e) => Err(e)
      case Ok(built) =>
        match Iterate(GetOr(payload, "edges", Arr([])))
        case Err(e) => Err(e)
        case Ok(edges) =>
          match KeepColored(edges, RoadOf)
          case Err(e) => Err(e)
          case Ok(roads) =>
            Ok(Board(GetOr(payload, "tiles", Null), GetOr(payload, "robber_coordinate", Null), built, roads))
  }

  // ----- human_colors in _build_prompt -----

  /** Python's `<` on strings: code point by code point, a proper prefix first. */
  predicate StrLess(a: string, b: string)
  {
    if a == [] then b != []
    else if b == [] then false
    else if a[0] != b[0] then a[0] < b[0]
    else StrLess(a[1..], b[1..])
  }

  lemma {:induction false} StrLessIrreflexive(a: string)
    ensures !StrLess(a, a)
  {
    if a != [] {
      StrLessIrreflexive(a[1..]);
    }
  }

  lemma {:induction false} StrLessTransitive(a: string, b: string, c: string)
    requires StrLess(a, b) && StrLess(b, c)
    ensures StrLess(a, c)
  {
    if a != [] && b != [] && c != [] && a[0] == b[0] && b[0] == c[0] {
      StrLessTransitive(a[1..], b[1..], c[1..]);
    }
  }

  lemma {:induction false} StrLessTotal(a: string, b: string)
    requires a != b
    ensures StrLess(a, b) || StrLess(b, a)
  {
    if a != [] && b != [] && a[0] == b[0] {
      assert a == [a[0]] + a[1..] && b == [b[0]] + b[1..];
      StrLessTotal(a[1..], b[1..]);
    }
  }

  predicate StrictlySorted(s: seq<string>)
  {
    forall i, j :: 0 <= i < j < |s| ==> StrLess(s[i], s[j])
  }

  /** Adds x to a strictly sorted list unless it is already there. */
  function Insert(s: seq<string>, x: string): (r: seq<string>)
    requires StrictlySorted(s)
    ensures StrictlySorted(r)
    ensures forall y :: y in r <==> y in s || y == x
  {
    if s == [] then [x]
    else if x == s[0] then s
    else if StrLess(x, s[0]) then
      assert forall j :: 0 <= j < |s| ==> StrLess(x, s[j]) by {
        forall j | 0 <= j < |s| ensures StrLess(x, s[j]) {
          if j > 0 { StrLessTransitive(x, s[0], s[j]); }
        }
      }
      [x] + s
    else
      StrLessTotal(x, s[0]);
      var rest := Insert(s[1..], x);
      assert forall y :: y in rest ==> StrLess(s[0], y) by {
        forall y | y in rest ensures StrLess(s[0], y) {
          if y in s[1..] {
            var j :| 0 <= j < |s[1..]| && s[1..][j] == y;
            assert s[j + 1] == y;
          }
        }
      }
      assert s == [s[0]] + s[1..];
      [s[0]] + rest
  }

  /** `sorted(set(colors) - set(bot_colors))`: strictly sorted, so without
      duplicates, and holding exactly the colours that are not bots. */
  function HumanColors(colors: seq<string>, bots: seq<string>): (r: seq<string>)
    ensures StrictlySorted(r)
    ensures forall c :: c in r <==> c in colors && c !in bots
    decreases |colors|
  {
    if colors == [] then []
    else
      var front := HumanColors(colors[..|colors| - 1], bots);
      var c := colors[|colors| - 1];
      assert colors == colors[..|colors| - 1] + [c];
      if c in bots then front else Insert(front, c)
  }

  /** `<` on strings is asymmetric. */
  lemma {:induction false} StrLessAsymmetric(a: string, b: string)
    requires StrLess(a, b)
    ensures !StrLess(b, a)
  {
    if a != [] && b != [] && a[0] == b[0] {
      StrLessAsymmetric(a[1..], b[1..]);
    }
  }

  /** The head of a strictly sorted list is below every other element. */
  lemma HeadLeast(s: seq<string>, x: string)
    requires StrictlySorted(s) && x in s
    ensures x == s[0] || StrLess(s[0], x)
  {
    var i :| 0 <= i < |s| && s[i] == x;
  }

  lemma SameElementsBothEmpty(a: seq<string>, b: seq<string>)
    requires forall x :: x in a <==> x in b
    ensures a == [] <==> b == []
  {
    assert a != [] ==> a[0] in a;
    assert b != [] ==> b[0] in b;
  }

  /** Past the head of a strictly sorted list come exactly the other elements. */
  lemma TailHoldsTheRest(s: seq<string>)
    requires StrictlySorted(s) && s != []
    ensures forall x :: x in s[1..] <==> x in s && x != s[0]
  {
    assert s == [s[0]] + s[1..];
    forall x | x in s[1..]
      ensures x != s[0]
    {
      var i :| 0 <= i < |s[1..]| && s[1..][i] == x;
      assert StrLess(s[0], s[i + 1]);
      StrLessIrreflexive(x);
    }
  }

  /** A strictly sorted list is determined by its elements, so the result
      is the one `sorted` gives whatever the order of `colors`. */
  lemma {:induction false} SortedUnique(a: seq<string>, b: seq<string>)
    requires StrictlySorted(a) && StrictlySorted(b)
    requires forall x :: x in a <==> x in b
    ensures a == b
  {
    SameElementsBothEmpty(a, b);
    if a != [] {
      HeadLeast(a, b[0]);
      HeadLeast(b, a[0]);
      if StrLess(a[0], b[0]) {
        StrLessAsymmetric(a[0], b[0]);
      }
      assert a[0] == b[0];
      TailHoldsTheRest(a);
      TailHoldsTheRest(b);
      SortedUnique(a[1..], b[1..]);
      assert a == [a[0]] + a[1..] && b == [b[0]] + b[1..];
    }
  }

  /** Listing the same colours in another order, or twice, gives the same
      human colours. */
  lemma HumanColorsIgnoresOrder(colors: seq<string>, others: seq<string>, bots: seq<string>)
    requires forall c :: c in colors <==> c in others
    ensures HumanColors(colors, bots) == HumanColors(others, bots)
  {
    SortedUnique(HumanColors(colors, bots), HumanColors(others, bots));
  }

  /** The colour names from the payload; a non-string entry is not a colour
      this model handles. */
  function Strings(items: seq<Json>): (r: Option<seq<string>>)
    ensures r.Some? ==> |r.value| == |items| && forall k :: 0 <= k < |items| ==> items[k] == Str(r.value[k])
    ensures r.None? ==> exists k :: 0 <= k < |items| && !items[k].Str?
  {
    if items == [] then Some([])
    else if !items[0].Str? then None
    else match Strings(items[1..])
      case None => None
      case Some(rest) => Some([items[0].s] + rest)
  }

  /** The `human_colors` of `_build_prompt`, read from the payload. */
  function HumanColorsOf(payload: seq<(string, Json)>): (r: Result<seq<string>, Status>)
    ensures r.Ok? ==> StrictlySorted(r.value)
    ensures r.Ok? <==>
              && Iterate(GetOr(payload, "colors", Arr([]))).Ok?
              && Iterate(GetOr(payload, "bot_colors", Arr([]))).Ok?
              && Strings(Iterate(GetOr(payload, "colors", Arr([]))).value).Some?
              && Strings(Iterate(GetOr(payload, "bot_colors", Arr([]))).value).Some?
    ensures r.Ok? ==>
              r.value == HumanColors(Strings(Iterate(GetOr(payload, "colors", Arr([]))).value).value,
                                     Strings(Iterate(GetOr(payload, "bot_colors", Arr([]))).value).value)
  {
    match Iterate(GetOr(payload, "colors", Arr([])))
    case Err(e) => Err(e)
    case Ok(colors) =>
      match Iterate(GetOr(payload, "bot_colors", Arr([])))
      case Err(e) => Err(e)
      case Ok(bots) =>
        match (Strings(colors), Strings(bots))
        case (Some(cs), Some(bs)) => Ok(HumanColors(cs, bs))
        case _ => Err(ServerError)
  }

  /** `int(os.environ.get("NEGOTIATION_LOG_LIMIT", "32"))`: the window size,
      32 when unset; a value `int` rejects raises ValueError. */
  function LogLimit(setting: Option<string>): (r: Result<int, Status>)
    ensures setting.None? ==> r == Ok(32)
    ensures setting.Some? ==> (r.Ok? <==> ParseInt(setting.value).Some?)
  {
    match setting
    case None => Ok(32)
    case Some(s) =>
      match ParseInt(s)
      case Some(n) => Ok(n)
      case None => Err(ServerError)
  }

  /** A limit written as `str(i)` is read back as i. */
  lemma LogLimitOfFormatted(i: int)
    ensures LogLimit(Some(IntToString(i))) == Ok(i)
  {
    ParseIntRoundTrip(i);
  }
}
