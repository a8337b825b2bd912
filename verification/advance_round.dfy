/** Advancing a tournament by one round (commands/advance_round.py). Before any round the
    pairing is random (the `shuffled` parameter, a permutation of the registrants); after
    that the registrants are ranked by score, highest first and ties in registration
    order, and paired rank 1 against rank 2, rank 3 against rank 4, and so on. */
module AdvanceRound {
  import opened Wrappers
  import opened Registrants
  import opened Matches
  import opened Rounds
  import opened Scores
  import opened Ranking
  import opened Pairing
  import opened Tournaments
  import StartTournament
  import opened Text

  /** Why no match list could be made: an odd number of entries runs the pairing loop off
      the end of the list (`IndexError`), and a match naming an unregistered id stops
      `player_scores` (`KeyError`). */
  datatype PairingError = OddPlayerCount | UnregisteredPlayer

  /** The pairing loop's outcome on `ps`: consecutive pairs, or an odd count. */
  function ConsecutivePairs(ps: seq<Registrant>): (r: Result<seq<Match>, PairingError>)
    ensures r.Ok? <==> |ps| % 2 == 0
    ensures r.Ok? ==> Seats(r.value) == ps
    ensures r.Err? ==> r.error == OddPlayerCount
  {
    if |ps| % 2 == 0 then
      SeatsOfPairUp(ps);
      Ok(PairUp(ps))
    else Err(OddPlayerCount)
  }

  /** The loop both assignment helpers run: entries `i` and `i + 1` make a new match, for
      `i` stepping by two; with an odd count the last step finds no `i + 1`. */
  method PairConsecutive(ps: seq<Registrant>) returns (r: Result<seq<Match>, PairingError>)
    ensures r == ConsecutivePairs(ps)
  {
    var matches: seq<Match> := [];
    var i := 0;
    while i < |ps|
      invariant 0 <= i <= |ps| && i % 2 == 0
      invariant |matches| == i / 2
      invariant forall k :: 0 <= k < |matches| ==> matches[k] == NewMatch(ps[2 * k], ps[2 * k + 1])
    {
      if i + 1 >= |ps| {
        return Err(OddPlayerCount);
      }
      matches := matches + [NewMatch(ps[i], ps[i + 1])];
      i := i + 2;
    }
    assert |ps| % 2 == 0;
    assert matches == PairUp(ps);
    return Ok(matches);
  }

  /** `random_match_assignment`: the shuffled copy paired consecutively. */
  method RandomMatchAssignment(t: Tournament, shuffled: seq<Registrant>) returns (r: Result<seq<Match>, PairingError>)
    requires multiset(shuffled) == multiset(t.players)
    ensures r == ConsecutivePairs(shuffled)
  {
    r := PairConsecutive(shuffled);
  }

  /** Each registrant's score, in registration order. */
  function ScoresOf(players: seq<Registrant>, table: map<string, nat>): (keys: seq<int>)
    requires forall i :: 0 <= i < |players| ==> players[i].chessId in table
    ensures |keys| == |players|
    ensures forall i :: 0 <= i < |players| ==> keys[i] == table[players[i].chessId]
  {
    if players == [] then []
    else ScoresOf(players[..|players| - 1], table) + [table[players[|players| - 1].chessId]]
  }

  /** The registrants in the order `sorted(..., reverse=True)` puts their scores in. */
  function Ranked(players: seq<Registrant>, table: map<string, nat>): (ranked: seq<Registrant>)
    requires forall i :: 0 <= i < |players| ==> players[i].chessId in table
    ensures |ranked| == |players|
  {
    Arrange(players, Rank(ScoresOf(players, table)))
  }

  /** The ranking is a permutation of the registrants whose scores never increase; two
      registrants with equal scores keep their registration order. */
  lemma RankedByScore(players: seq<Registrant>, table: map<string, nat>)
    requires forall i :: 0 <= i < |players| ==> players[i].chessId in table
    ensures multiset(Ranked(players, table)) == multiset(players)
    ensures forall a :: 0 <= a < |players| ==>
              Ranked(players, table)[a] == players[Rank(ScoresOf(players, table))[a]]
    ensures forall a, b :: 0 <= a < b < |players| ==>
              table[Ranked(players, table)[a].chessId] >= table[Ranked(players, table)[b].chessId]
    ensures forall a, b :: 0 <= a < b < |players|
              && table[Ranked(players, table)[a].chessId] == table[Ranked(players, table)[b].chessId]
              ==> Rank(ScoresOf(players, table))[a] < Rank(ScoresOf(players, table))[b]
  {
    var keys := ScoresOf(players, table);
    var order := Rank(keys);
    var ranked := Ranked(players, table);
    ArrangeByRankIsPermutation(players, keys);
    RankProperties(keys);
    forall a | 0 <= a < |players| ensures ranked[a] == players[order[a]] {
      ArrangeAt(players, order, a);
    }
  }

  /** What `calc_match_assignment` computes: the score table, the registrants ranked by
      it, the ranking paired consecutively. */
  function ScorePairing(players: seq<Registrant>, rounds: seq<Round>): (r: Result<seq<Match>, PairingError>)
    ensures ScoreTable(players, rounds).None? ==> r == Err(UnregisteredPlayer)
    ensures ScoreTable(players, rounds).Some? ==>
              (r.Ok? <==> |players| % 2 == 0)
              && (r.Err? ==> r.error == OddPlayerCount)
  {
    match ScoreTable(players, rounds)
    case None => Err(UnregisteredPlayer)
    case Some(table) => ConsecutivePairs(Ranked(players, table))
  }

  /** Score pairing with unique ids and an even count: match `k` pits rank `2k + 1` against
      rank `2k + 2`, every registrant plays exactly once, never against its own id, and
      higher seats never hold a lower score. */
  lemma ScorePairingProperties(players: seq<Registrant>, rounds: seq<Round>)
    requires UniqueIds(players) && |players| % 2 == 0
    requires ScoreTable(players, rounds).Some?
    ensures var table := ScoreTable(players, rounds).value;
            var ranked := Ranked(players, table);
            var ms := ScorePairing(players, rounds);
            ms.Ok? && |ms.value| == |players| / 2
            && (forall k :: 0 <= k < |ms.value| ==> ms.value[k] == NewMatch(ranked[2 * k], ranked[2 * k + 1]))
            && (forall i :: 0 <= i < |players| ==> Seated(ms.value, players[i]))
            && (forall i, k1, k2 ::
                  (0 <= i < |players| && 0 <= k1 < |ms.value| && 0 <= k2 < |ms.value|
                   && Plays(ms.value[k1], players[i]) && Plays(ms.value[k2], players[i])) ==> k1 == k2)
            && (forall k :: 0 <= k < |ms.value| ==> ms.value[k].player1.chessId != ms.value[k].player2.chessId)
            && (forall a :: 0 <= a < |players| ==> ranked[a].chessId in table)
            && (forall a, b :: 0 <= a < b < |players| ==> table[ranked[a].chessId] >= table[ranked[b].chessId])
  {
    var table := ScoreTable(players, rounds).value;
    var ranked := Ranked(players, table);
    RankedByScore(players, table);
    EveryRegistrantPlaysOnce(players, ranked);
  }

  /** `calc_match_assignment`, pairing registrants (the source sorts the table's ids and
      calls a score method under another name; this is the evident intent). */
  method CalcMatchAssignment(t: Tournament) returns (r: Result<seq<Match>, PairingError>)
    ensures r == ScorePairing(t.players, t.rounds)
  {
    var scores := t.PlayerScores();
    if scores.None? {
      return Err(UnregisteredPlayer);
    }
    var sortedPlayers := Ranked(t.players, scores.value);
    r := PairConsecutive(sortedPlayers);
  }

  /** The match list for the next round: random while no round exists, by score after. */
  function NextMatches(players: seq<Registrant>, rounds: seq<Round>, currentRoundIndex: int,
                       shuffled: seq<Registrant>): Result<seq<Match>, PairingError>
  {
    if currentRoundIndex == -1 then ConsecutivePairs(shuffled) else ScorePairing(players, rounds)
  }

  /** `match_list`. */
  method MatchList(t: Tournament, shuffled: seq<Registrant>) returns (r: Result<seq<Match>, PairingError>)
    requires multiset(shuffled) == multiset(t.players)
    ensures r == NextMatches(t.players, t.rounds, t.currentRoundIndex, shuffled)
    ensures t.currentRoundIndex == -1 ==> r == ConsecutivePairs(shuffled)
    ensures t.currentRoundIndex != -1 ==> r == ScorePairing(t.players, t.rounds)
  {
    if t.currentRoundIndex == -1 {
      r := RandomMatchAssignment(t, shuffled);
    } else {
      r := CalcMatchAssignment(t);
    }
  }

  /** A started tournament is paired by score on its next advance, never at random. */
  lemma StartedPairsByScore(t: Tournament, shuffled: seq<Registrant>)
    requires StartTournament.TournamentAlreadyStarted(t)
    ensures NextMatches(t.players, t.rounds, t.currentRoundIndex, shuffled) == ScorePairing(t.players, t.rounds)
  {
  }

  datatype AdvanceOutcome = Declined | Failed(error: PairingError) | Advanced

  /** `execute`, the confirmation prompt's answer given as `confirmed`. A declined or
      failed advance changes nothing; otherwise exactly one unfinished round is appended,
      numbered with the index as it was before plus one, and the index goes up by one.
      Registrants, earlier rounds and the completion flag are untouched. */
  method Execute(t: Tournament, confirmed: bool, shuffled: seq<Registrant>) returns (outcome: AdvanceOutcome)
    requires multiset(shuffled) == multiset(t.players)
    modifies t
    ensures OnlyProgressChanged(t)
    ensures !confirmed ==> outcome == Declined && unchanged(t)
    ensures var next := NextMatches(old(t.players), old(t.rounds), old(t.currentRoundIndex), shuffled);
            confirmed && next.Err? ==> outcome == Failed(next.error) && unchanged(t)
    ensures var next := NextMatches(old(t.players), old(t.rounds), old(t.currentRoundIndex), shuffled);
            confirmed && next.Ok? ==>
              outcome == Advanced
              && t.rounds == old(t.rounds) + [Round(old(t.currentRoundIndex) + 1, next.value, false)]
              && t.currentRoundIndex == old(t.currentRoundIndex) + 1
  {
    if !confirmed {
      return Declined;
    }
    var matches := MatchList(t, shuffled);
    if matches.Err? {
      return Failed(matches.error);
    }
    var newRound := Round(t.currentRoundIndex + 1, matches.value, false);
    t.rounds := t.rounds + [newRound];
    t.currentRoundIndex := t.currentRoundIndex + 1;
    outcome := Advanced;
  }

  /** The round a start creates pairs registered players only, so the next score table
      exists. */
  lemma FirstRoundScorable(players: seq<Registrant>, shuffled: seq<Registrant>)
    requires multiset(shuffled) == multiset(players) && |players| % 2 == 0
    ensures |shuffled| % 2 == 0
    ensures ScoreTable(players, [Round(1, PairUp(shuffled), false)]).Some?
  {
    SameMembers(players, shuffled);
    var rounds := [Round(1, PairUp(shuffled), false)];
    assert rounds[..0] == [];
    assert AllMatches(rounds) == PairUp(shuffled);
    ShuffledPairsScorable(players, shuffled);
  }

  lemma ShuffledPairsScorable(players: seq<Registrant>, shuffled: seq<Registrant>)
    requires |shuffled| % 2 == 0 && forall y | y in shuffled :: y in players
    ensures Scorable(IdSet(players), PairUp(shuffled))
  {
    forall m | m in PairUp(shuffled) ensures m.player1.chessId in IdSet(players) && m.player2.chessId in IdSet(players) {
      var k :| 0 <= k < |PairUp(shuffled)| && PairUp(shuffled)[k] == m;
      assert shuffled[2 * k] in shuffled && shuffled[2 * k + 1] in shuffled;
    }
  }

  /** Round numbering as written: a start numbers its round 1, and the advance after it
      numbers the next round with the pre-increment index plus one, which is again 1. The
      two rounds then share the number and the name "Round 1". */
  method StartThenAdvance(t: Tournament, first: seq<Registrant>, second: seq<Registrant>)
    returns (started: StartTournament.StartOutcome, advanced: AdvanceOutcome)
    requires t.currentRoundIndex == -1 && t.rounds == [] && |t.players| % 2 == 0
    requires multiset(first) == multiset(t.players) && multiset(second) == multiset(t.players)
    modifies t
    ensures started == StartTournament.Started && advanced == Advanced
    ensures |t.rounds| == 2 && t.currentRoundIndex == 1
    ensures t.rounds[0].roundNumber == 1 && t.rounds[1].roundNumber == 1
    ensures Name(t.rounds[0]) == Name(t.rounds[1]) == "Round 1"
  {
    FirstRoundScorable(t.players, first);
    started := StartTournament.Execute(t, first);
    advanced := Execute(t, true, second);
    assert NatToDecimal(1) == "1";
  }
}
