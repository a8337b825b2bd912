/** Starting a tournament (commands/start_tournament.py): refuse when a round already
    exists, refuse an odd number of registrants, otherwise create round 1 from a shuffled
    copy of the registrants paired two by two. The shuffle is the `shuffled` parameter:
    any permutation of the registrants. */
module StartTournament {
  import opened Wrappers
  import opened Registrants
  import opened Matches
  import opened Rounds
  import opened Pairing
  import opened Tournaments

  /** `tournament_already_started`. */
  predicate TournamentAlreadyStarted(t: Tournament)
    reads t
  {
    t.currentRoundIndex >= 0
  }

  /** `random_match_assignment`: a `ValueError` for an odd number of registrants, otherwise
      the shuffled copy paired seat by seat, every match unplayed. */
  function RandomMatchAssignment(players: seq<Registrant>, shuffled: seq<Registrant>): (r: Result<seq<Match>, string>)
    requires multiset(shuffled) == multiset(players)
    ensures r.Err? <==> |players| % 2 != 0
    ensures r.Ok? ==> |r.value| == |players| / 2 && Seats(r.value) == shuffled
    ensures r.Ok? ==> forall m | m in r.value :: m.winner == None && !m.completed
  {
    SameMembers(players, shuffled);
    if |players| % 2 != 0 then Err("Tournament must have an even number of players.")
    else
      SeatsOfPairUp(shuffled);
      Ok(PairUp(shuffled))
  }

  datatype StartOutcome = AlreadyStarted | OddPlayerCount | Started

  /** `execute`. On success exactly one round, number 1, is appended and the round index
      becomes 0; otherwise nothing changes. The registrants keep their order either way. */
  method Execute(t: Tournament, shuffled: seq<Registrant>) returns (outcome: StartOutcome)
    requires multiset(shuffled) == multiset(t.players)
    modifies t
    ensures OnlyProgressChanged(t)
    ensures old(t.currentRoundIndex) >= 0 ==> outcome == AlreadyStarted && unchanged(t)
    ensures old(t.currentRoundIndex) < 0 && |t.players| % 2 != 0 ==> outcome == OddPlayerCount && unchanged(t)
    ensures old(t.currentRoundIndex) < 0 && |t.players| % 2 == 0 ==>
              outcome == Started && t.currentRoundIndex == 0
              && t.rounds == old(t.rounds) + [Round(1, RandomMatchAssignment(t.players, shuffled).value, false)]
  {
    if TournamentAlreadyStarted(t) {
      return AlreadyStarted;
    }
    var matches := RandomMatchAssignment(t.players, shuffled);
    if matches.Err? {
      return OddPlayerCount;
    }
    SameMembers(t.players, shuffled);
    var firstRound := Round(1, matches.value, false);
    t.rounds := t.rounds + [firstRound];
    t.currentRoundIndex := 0;
    outcome := Started;
  }

  /** Starting twice: the first start appends round 1, and the second finds the tournament
      started and changes nothing more. */
  method StartTwice(t: Tournament, first: seq<Registrant>, second: seq<Registrant>)
    returns (o1: StartOutcome, o2: StartOutcome)
    requires !TournamentAlreadyStarted(t) && |t.players| % 2 == 0
    requires multiset(first) == multiset(t.players) && multiset(second) == multiset(t.players)
    modifies t
    ensures o1 == Started && o2 == AlreadyStarted && TournamentAlreadyStarted(t)
    ensures t.players == old(t.players) && t.currentRoundIndex == 0
    ensures t.rounds == old(t.rounds) + [Round(1, RandomMatchAssignment(old(t.players), first).value, false)]
  {
    o1 := Execute(t, first);
    o2 := Execute(t, second);
  }

  /** The round a successful start creates has half as many matches as there are
      registrants, and (ids being unique) every registrant plays in exactly one of them,
      never against a registrant with the same id. */
  lemma FirstRoundCoversRegistrants(players: seq<Registrant>, shuffled: seq<Registrant>)
    requires UniqueIds(players) && multiset(shuffled) == multiset(players)
    requires RandomMatchAssignment(players, shuffled).Ok?
    ensures var ms := RandomMatchAssignment(players, shuffled).value;
            |ms| == |players| / 2
            && (forall i :: 0 <= i < |players| ==> Seated(ms, players[i]))
            && (forall i, k1, k2 ::
                  (0 <= i < |players| && 0 <= k1 < |ms| && 0 <= k2 < |ms|
                   && Plays(ms[k1], players[i]) && Plays(ms[k2], players[i])) ==> k1 == k2)
            && (forall k :: 0 <= k < |ms| ==>
                  (ms[k].player1 in players && ms[k].player2 in players
                   && ms[k].player1.chessId != ms[k].player2.chessId))
  {
    EveryRegistrantPlaysOnce(players, shuffled);
  }
}
