/** The tournament record (models/tournament.py): its registrants, its rounds, where it
    stands, and its dictionary encoding. Dates are day numbers; "today" is a parameter. */
module Tournaments {
  import opened Wrappers
  import opened Registrants
  import opened Matches
  import opened Rounds
  import opened Scores

  class Tournament {
    var name: string
    var startDate: int
    var endDate: int
    var venue: Option<string>
    var players: seq<Registrant>
    var rounds: seq<Round>
    var currentRoundIndex: int
    var numRounds: int
    var filepath: Option<string>
    var isComplete: bool

    /** The dataclass constructor, every field given. */
    constructor (name: string, startDate: int, endDate: int, venue: Option<string>,
                 players: seq<Registrant>, rounds: seq<Round>, currentRoundIndex: int,
                 numRounds: int, filepath: Option<string>, isComplete: bool)
      ensures this.name == name && this.startDate == startDate && this.endDate == endDate
      ensures this.venue == venue && this.players == players && this.rounds == rounds
      ensures this.currentRoundIndex == currentRoundIndex && this.numRounds == numRounds
      ensures this.filepath == filepath && this.isComplete == isComplete
    {
      this.name := name;
      this.startDate := startDate;
      this.endDate := endDate;
      this.venue := venue;
      this.players := players;
      this.rounds := rounds;
      this.currentRoundIndex := currentRoundIndex;
      this.numRounds := numRounds;
      this.filepath := filepath;
      this.isComplete := isComplete;
    }

    /** `player_scores`: a table with one zero entry per registered id, then every round's
        matches add each player's points to that player's entry. A player whose id has no
        entry stops the loop with a `KeyError` (`None` here). The tournament is only read. */
    method PlayerScores() returns (scores: Option<map<string, nat>>)
      ensures scores == ScoreTable(players, rounds)
    {
      var ids := IdSet(players);
      var table: map<string, nat> := map id | id in ids :: 0;
      var i := 0;
      while i < |rounds|
        invariant 0 <= i <= |rounds|
        invariant Scorable(ids, AllMatches(rounds[..i]))
        invariant Tallies(table, ids, AllMatches(rounds[..i]))
      {
        AllMatchesNext(rounds, i);
        var next := AddRound(table, ids, AllMatches(rounds[..i]), rounds[i].matches);
        if next.None? {
          AllMatchesGrow(rounds, i + 1);
          return None;
        }
        table := next.value;
        i := i + 1;
      }
      assert rounds[..i] == rounds;
      assert table == map id | id in ids :: Total(AllMatches(rounds), id);
      scores := Some(table);
    }

    /** `is_overdue`. */
    predicate IsOverdue(today: int)
      reads this
    {
      today > endDate && !isComplete
    }

    /** `status_label`: completion decides first, then whether the start is still ahead,
        then whether the end has passed. */
    function StatusLabel(today: int): (status: string)
      reads this
      ensures status in {"[Completed]", "[Upcoming]", "[Overdue]", "[Active]"}
      ensures status == "[Completed]" <==> isComplete
      ensures status == "[Upcoming]" <==> !isComplete && today < startDate
      ensures status == "[Overdue]" <==> !isComplete && startDate <= today && endDate < today
      ensures status == "[Active]" <==> !isComplete && startDate <= today <= endDate
    {
      if isComplete then "[Completed]"
      else if today < startDate then "[Upcoming]"
      else if IsOverdue(today) then "[Overdue]"
      else "[Active]"
    }

    /** `to_dict`: every field but the file path; rounds serialized in order. */
    function ToDict(): (doc: TournamentDoc)
      reads this
      ensures doc.name == Present(name) && doc.startDate == Present(startDate) && doc.endDate == Present(endDate)
      ensures doc.venue == Present(venue) && doc.players == Present(players)
      ensures doc.rounds.Present? && |doc.rounds.value| == |rounds|
      ensures forall i :: 0 <= i < |rounds| ==> doc.rounds.value[i] == SerializeRound(rounds[i])
      ensures doc.currentRoundIndex == Present(currentRoundIndex) && doc.numRounds == Present(numRounds)
      ensures doc.isComplete == Present(isComplete)
    {
      TournamentDoc(Present(name), Present(startDate), Present(endDate), Present(venue),
                    Present(players), Present(SerializeRounds(rounds)),
                    Present(currentRoundIndex), Present(numRounds), Present(isComplete))
    }

    /** Every player of every match is found again by id among the registrants. */
    predicate MatchesResolve()
      reads this
    {
      forall r | r in rounds :: AllResolve(ById(players), r.matches)
    }

    /** `from_dict`: decode the rounds against the registrants (first failure wins), then
        read the required keys `name`, `start_date`, `end_date` and `venue` in that order;
        `current_round_index` defaults to -1, `num_rounds` to 4, `is_complete` to false. */
    static method FromDict(data: TournamentDoc, filepath: Option<string>) returns (r: Result<Tournament, DecodeError>)
      ensures r.Ok? <==> CheckDoc(data).Ok?
      ensures r.Err? ==> r.error == CheckDoc(data).error
      ensures r.Ok? ==> fresh(r.value)
      ensures r.Ok? ==>
                r.value.name == data.name.value && r.value.startDate == data.startDate.value
                && r.value.endDate == data.endDate.value && r.value.venue == data.venue.value
                && r.value.players == data.players.GetOr([]) && r.value.rounds == CheckDoc(data).value
                && r.value.currentRoundIndex == data.currentRoundIndex.GetOr(-1)
                && r.value.numRounds == data.numRounds.GetOr(4)
                && r.value.filepath == filepath && r.value.isComplete == data.isComplete.GetOr(false)
    {
      var players := data.players.GetOr([]);
      var playersById := ById(players);
      var docs := data.rounds.GetOr([]);
      var rounds: seq<Round> := [];
      var k := 0;
      while k < |docs|
        invariant 0 <= k <= |docs|
        invariant DecodeRounds(docs[..k], playersById) == Ok(rounds)
      {
        assert docs[..k + 1][..k] == docs[..k];
        var round := DecodeRound(docs[k], playersById);
        if round.Err? {
          RoundsPrefixError(docs, playersById, k + 1);
          return Err(round.error);
        }
        rounds := rounds + [round.value];
        k := k + 1;
      }
      assert docs[..k] == docs;
      if data.name.Absent? {
        return Err(MissingKey("name"));
      } else if data.startDate.Absent? {
        return Err(MissingKey("start_date"));
      } else if data.endDate.Absent? {
        return Err(MissingKey("end_date"));
      } else if data.venue.Absent? {
        return Err(MissingKey("venue"));
      }
      var t := new Tournament(data.name.value, data.startDate.value, data.endDate.value, data.venue.value,
                              players, rounds, data.currentRoundIndex.GetOr(-1), data.numRounds.GetOr(4),
                              filepath, data.isComplete.GetOr(false));
      return Ok(t);
    }
  }

  /** `table` holds exactly the ids in `ids`, each with the points it collects over `ms`. */
  ghost predicate Tallies(table: map<string, nat>, ids: set<string>, ms: seq<Match>) {
    (forall id :: id in table <==> id in ids) && forall id | id in table :: table[id] == Total(ms, id)
  }

  /** Adding both players' points of `m` to a tally over `ms` gives the tally over `ms + [m]`,
      and `ms + [m]` stays scorable. */
  lemma TallyMatch(table: map<string, nat>, ids: set<string>, ms: seq<Match>, m: Match)
    requires Tallies(table, ids, ms) && Scorable(ids, ms)
    requires m.player1.chessId in table && m.player2.chessId in table
    ensures var t1 := table[m.player1.chessId := table[m.player1.chessId] + GetPoints(m, m.player1)];
            Tallies(t1[m.player2.chessId := t1[m.player2.chessId] + GetPoints(m, m.player2)], ids, ms + [m])
    ensures Scorable(ids, ms + [m])
  {
    assert (ms + [m])[..|ms|] == ms;
  }

  /** A match naming an id outside `ids` makes every list holding it unscorable. */
  lemma UnregisteredUnscorable(ids: set<string>, done: seq<Match>, ms: seq<Match>, j: nat)
    requires j < |ms| && (ms[j].player1.chessId !in ids || ms[j].player2.chessId !in ids)
    ensures !Scorable(ids, done + ms)
  {
    assert (done + ms)[|done| + j] == ms[j];
  }

  /** The inner loops of `player_scores` over one round's matches: each player's points are
      added to that player's entry; a player without an entry stops with `None`. */
  method AddRound(table: map<string, nat>, ghost ids: set<string>, ghost done: seq<Match>, ms: seq<Match>)
    returns (next: Option<map<string, nat>>)
    requires Scorable(ids, done) && Tallies(table, ids, done)
    ensures next.Some? <==> Scorable(ids, done + ms)
    ensures next.Some? ==> Tallies(next.value, ids, done + ms)
  {
    var t: map<string, nat> := table;
    var j := 0;
    assert done + ms[..j] == done;
    while j < |ms|
      invariant 0 <= j <= |ms|
      invariant Scorable(ids, done + ms[..j])
      invariant Tallies(t, ids, done + ms[..j])
    {
      var m := ms[j];
      if m.player1.chessId !in t {
        UnregisteredUnscorable(ids, done, ms, j);
        return None;
      }
      var before := t;
      t := t[m.player1.chessId := t[m.player1.chessId] + GetPoints(m, m.player1)];
      if m.player2.chessId !in t {
        UnregisteredUnscorable(ids, done, ms, j);
        return None;
      }
      t := t[m.player2.chessId := t[m.player2.chessId] + GetPoints(m, m.player2)];
      TallyMatch(before, ids, done + ms[..j], m);
      assert done + ms[..j + 1] == (done + ms[..j]) + [m];
      j := j + 1;
    }
    assert ms[..j] == ms;
    return Some(t);
  }

  /** Every match of the first `n` rounds is a match of all the rounds. */
  lemma {:induction false} AllMatchesGrow(rounds: seq<Round>, n: nat)
    requires n <= |rounds|
    ensures forall m | m in AllMatches(rounds[..n]) :: m in AllMatches(rounds)
    decreases |rounds| - n
  {
    if n == |rounds| {
      assert rounds[..n] == rounds;
    } else {
      AllMatchesNext(rounds, n);
      AllMatchesGrow(rounds, n + 1);
    }
  }

  /** The matches of the first `i + 1` rounds are those of the first `i` followed by round `i`'s. */
  lemma AllMatchesNext(rounds: seq<Round>, i: nat)
    requires i < |rounds|
    ensures AllMatches(rounds[..i + 1]) == AllMatches(rounds[..i]) + rounds[i].matches
  {
    assert rounds[..i + 1][..i] == rounds[..i];
  }

  /** Between the two states only `rounds` and `current_round_index` may differ. */
  twostate predicate OnlyProgressChanged(t: Tournament)
    reads t
  {
    t.name == old(t.name) && t.startDate == old(t.startDate) && t.endDate == old(t.endDate)
    && t.venue == old(t.venue) && t.players == old(t.players) && t.numRounds == old(t.numRounds)
    && t.filepath == old(t.filepath) && t.isComplete == old(t.isComplete)
  }

  /** Between the two states only `rounds` may differ. */
  twostate predicate OnlyRoundsChanged(t: Tournament)
    reads t
  {
    OnlyProgressChanged(t) && t.currentRoundIndex == old(t.currentRoundIndex)
  }

  /** Between the two states only `players` may differ. */
  twostate predicate OnlyPlayersChanged(t: Tournament)
    reads t
  {
    t.name == old(t.name) && t.startDate == old(t.startDate) && t.endDate == old(t.endDate)
    && t.venue == old(t.venue) && t.rounds == old(t.rounds) && t.numRounds == old(t.numRounds)
    && t.filepath == old(t.filepath) && t.isComplete == old(t.isComplete)
    && t.currentRoundIndex == old(t.currentRoundIndex)
  }

  /** `is_overdue` against the label: a tournament is labelled overdue exactly when it is
      overdue and its start is not ahead. */
  lemma OverdueLabel(t: Tournament, today: int)
    ensures t.StatusLabel(today) == "[Overdue]" <==> t.IsOverdue(today) && t.startDate <= today
  {
  }

  /** A serialized tournament: one field per key of the dictionary. */
  datatype TournamentDoc = TournamentDoc(
    name: Field<string>, startDate: Field<int>, endDate: Field<int>, venue: Field<Option<string>>,
    players: Field<seq<Registrant>>, rounds: Field<seq<RoundDoc>>,
    currentRoundIndex: Field<int>, numRounds: Field<int>, isComplete: Field<bool>)

  /** `[rnd.serialize() for rnd in rounds]`. */
  function SerializeRounds(rs: seq<Round>): (docs: seq<RoundDoc>)
    ensures |docs| == |rs|
    ensures forall i :: 0 <= i < |rs| ==> docs[i] == SerializeRound(rs[i])
  {
    if rs == [] then [] else [SerializeRound(rs[0])] + SerializeRounds(rs[1..])
  }

  /** How `from_dict` rebuilds one round: its matches decoded against the registrants,
      `round_number` defaulting to 1, `matches` to none and `is_complete` to false. */
  function DecodeRound(d: RoundDoc, byId: map<string, Registrant>): (r: Result<Round, DecodeError>)
    ensures r.Ok? <==> DecodeMatches(d.matches.GetOr([]), byId).Ok?
    ensures r.Ok? ==> r.value.roundNumber == d.roundNumber.GetOr(1)
                      && r.value.isComplete == d.isComplete.GetOr(false)
                      && r.value.matches == DecodeMatches(d.matches.GetOr([]), byId).value
  {
    match DecodeMatches(d.matches.GetOr([]), byId)
    case Err(e) => Err(e)
    case Ok(ms) => Ok(Round(d.roundNumber.GetOr(1), ms, d.isComplete.GetOr(false)))
  }

  /** A round dictionary without its optional keys decodes to round 1, with no matches,
      not complete. */
  lemma DecodeRoundDefaults(byId: map<string, Registrant>)
    ensures DecodeRound(RoundDoc(Absent, Absent, Absent), byId) == Ok(Round(1, [], false))
  {
  }

  /** A serialized round whose players are all found again decodes to the same round. */
  lemma DecodeSerializedRound(r: Round, byId: map<string, Registrant>)
    requires AllResolve(byId, r.matches)
    ensures DecodeRound(SerializeRound(r), byId) == Ok(r)
  {
    DecodeSerializedMatches(r.matches, byId);
  }

  /** The rounds decoded in order; the first round that fails decides the error. */
  function DecodeRounds(docs: seq<RoundDoc>, byId: map<string, Registrant>): (r: Result<seq<Round>, DecodeError>)
    ensures r.Ok? <==> forall i :: 0 <= i < |docs| ==> DecodeRound(docs[i], byId).Ok?
    ensures r.Ok? ==> |r.value| == |docs| && forall i :: 0 <= i < |docs| ==> DecodeRound(docs[i], byId) == Ok(r.value[i])
  {
    if docs == [] then Ok([])
    else
      var init := docs[..|docs| - 1];
      assert forall i :: 0 <= i < |init| ==> init[i] == docs[i];
      match DecodeRounds(init, byId)
      case Err(e) => Err(e)
      case Ok(rs) =>
        match DecodeRound(docs[|docs| - 1], byId)
        case Err(e) => Err(e)
        case Ok(r) => Ok(rs + [r])
  }

  /** Once a prefix of the rounds fails to decode, all of them fail with the same error. */
  lemma {:induction false} RoundsPrefixError(docs: seq<RoundDoc>, byId: map<string, Registrant>, k: nat)
    requires k <= |docs| && DecodeRounds(docs[..k], byId).Err?
    ensures DecodeRounds(docs, byId) == DecodeRounds(docs[..k], byId)
    decreases |docs| - k
  {
    if k < |docs| {
      assert docs[..k + 1][..k] == docs[..k];
      RoundsPrefixError(docs, byId, k + 1);
    } else {
      assert docs[..k] == docs;
    }
  }

  /** Serialized rounds whose players are all found again decode to the same rounds. */
  lemma DecodeSerializedRounds(rs: seq<Round>, byId: map<string, Registrant>)
    requires forall r | r in rs :: AllResolve(byId, r.matches)
    ensures DecodeRounds(SerializeRounds(rs), byId) == Ok(rs)
  {
    var docs := SerializeRounds(rs);
    forall i | 0 <= i < |rs| ensures DecodeRound(docs[i], byId) == Ok(rs[i]) {
      assert rs[i] in rs;
      DecodeSerializedRound(rs[i], byId);
    }
    var r := DecodeRounds(docs, byId);
    assert r.Ok?;
    assert |r.value| == |rs|;
    assert forall i :: 0 <= i < |rs| ==> r.value[i] == rs[i];
    assert r.value == rs;
  }

  /** What `from_dict` makes of a dictionary: the decoded rounds, or the first error it
      meets (a round, then `name`, `start_date`, `end_date`, `venue`). */
  function CheckDoc(data: TournamentDoc): (r: Result<seq<Round>, DecodeError>)
    ensures r.Ok? <==> DecodeRounds(data.rounds.GetOr([]), ById(data.players.GetOr([]))).Ok?
                       && data.name.Present? && data.startDate.Present? && data.endDate.Present?
                       && data.venue.Present?
    ensures r.Ok? ==> r == DecodeRounds(data.rounds.GetOr([]), ById(data.players.GetOr([])))
  {
    var rounds := DecodeRounds(data.rounds.GetOr([]), ById(data.players.GetOr([])));
    if rounds.Err? then rounds
    else if data.name.Absent? then Err(MissingKey("name"))
    else if data.startDate.Absent? then Err(MissingKey("start_date"))
    else if data.endDate.Absent? then Err(MissingKey("end_date"))
    else if data.venue.Absent? then Err(MissingKey("venue"))
    else rounds
  }

  /** A dictionary holding only the required keys decodes with the documented defaults:
      no registrants, no rounds, round index -1, 4 rounds planned, not complete. */
  method FromDictDefaults(name: string, startDate: int, endDate: int, venue: Option<string>,
                          filepath: Option<string>)
    returns (r: Result<Tournament, DecodeError>)
    ensures r.Ok?
    ensures r.value.name == name && r.value.startDate == startDate && r.value.endDate == endDate
    ensures r.value.venue == venue && r.value.filepath == filepath
    ensures r.value.players == [] && r.value.rounds == [] && r.value.currentRoundIndex == -1
    ensures r.value.numRounds == 4 && !r.value.isComplete
  {
    var data := TournamentDoc(Present(name), Present(startDate), Present(endDate), Present(venue),
                              Absent, Absent, Absent, Absent, Absent);
    r := Tournament.FromDict(data, filepath);
  }

  /** `from_dict(t.to_dict(), t.filepath)` rebuilds `t`: the same registrants, the same
      rounds (numbers, flags and matches), the same index, count, flag, name, dates and
      venue, provided every match's players are found again among the registrants. */
  method Reload(t: Tournament) returns (r: Result<Tournament, DecodeError>)
    requires t.MatchesResolve()
    ensures r.Ok?
    ensures r.value.name == t.name && r.value.startDate == t.startDate && r.value.endDate == t.endDate
    ensures r.value.venue == t.venue && r.value.players == t.players && r.value.rounds == t.rounds
    ensures r.value.currentRoundIndex == t.currentRoundIndex && r.value.numRounds == t.numRounds
    ensures r.value.isComplete == t.isComplete && r.value.filepath == t.filepath
  {
    DecodeSerializedRounds(t.rounds, ById(t.players));
    r := Tournament.FromDict(t.ToDict(), t.filepath);
  }

  /** With unique chess ids, a match between registered players resolves. */
  lemma RegisteredMatchesResolve(players: seq<Registrant>, rounds: seq<Round>)
    requires UniqueIds(players)
    requires forall r, m | r in rounds && m in r.matches :: m.player1 in players && m.player2 in players
    ensures forall r | r in rounds :: AllResolve(ById(players), r.matches)
  {
    forall p | p in players ensures Resolves(ById(players), p) {
      var i :| 0 <= i < |players| && players[i] == p;
      ByIdResolvesRegistrant(players, i);
    }
  }

  /** `player_scores` leaves the tournament as it was and gives the same table each time. */
  method ScoresTwice(t: Tournament) returns (first: Option<map<string, nat>>, second: Option<map<string, nat>>)
    ensures first == second == ScoreTable(t.players, t.rounds)
  {
    first := t.PlayerScores();
    second := t.PlayerScores();
  }
}
