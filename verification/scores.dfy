/** The score table `Tournament.player_scores` computes (models/tournament.py), stated as
    functions of the registrants and the rounds. All points are half-points. */
module Scores {
  import opened Wrappers
  import opened Registrants
  import opened Matches
  import opened Rounds

  /** Every match of every round, rounds in order and matches in order. */
  function AllMatches(rounds: seq<Round>): seq<Match> {
    if rounds == [] then [] else AllMatches(rounds[..|rounds| - 1]) + rounds[|rounds| - 1].matches
  }

  /** What the loop over `[match.player1, match.player2]` adds to `scores[id]` for one match. */
  function Points(m: Match, id: string): nat {
    (if m.player1.chessId == id then GetPoints(m, m.player1) else 0)
    + (if m.player2.chessId == id then GetPoints(m, m.player2) else 0)
  }

  /** The points `id` collects over `ms`. */
  function Total(ms: seq<Match>, id: string): nat {
    if ms == [] then 0 else Total(ms[..|ms| - 1], id) + Points(ms[|ms| - 1], id)
  }

  /** Every player of every match has an entry in the table (otherwise `scores[cid]`
      raises `KeyError`). */
  predicate Scorable(ids: set<string>, ms: seq<Match>) {
    forall m | m in ms :: m.player1.chessId in ids && m.player2.chessId in ids
  }

  /** The table `player_scores` returns: one entry per registered id, holding the points of
      that id over all rounds; `None` when some match names an unregistered id. */
  function ScoreTable(players: seq<Registrant>, rounds: seq<Round>): (table: Option<map<string, nat>>)
    ensures table.Some? ==> forall i :: 0 <= i < |players| ==> players[i].chessId in table.value
  {
    var ids := IdSet(players);
    assert forall i :: 0 <= i < |players| ==> players[i] in players;
    if Scorable(ids, AllMatches(rounds)) then Some(map id | id in ids :: Total(AllMatches(rounds), id))
    else None
  }

  /** A registrant who appears in no match has a score of 0. */
  lemma {:induction false} UnplayedScoresZero(ms: seq<Match>, id: string)
    requires forall m | m in ms :: m.player1.chessId != id && m.player2.chessId != id
    ensures Total(ms, id) == 0
  {
    if ms != [] {
      assert forall m | m in ms[..|ms| - 1] :: m in ms;
      UnplayedScoresZero(ms[..|ms| - 1], id);
    }
  }

  /** The table has exactly one entry per registered id, and a registrant who has played
      no game has 0. */
  lemma ScoreTableEntries(players: seq<Registrant>, rounds: seq<Round>, id: string)
    requires ScoreTable(players, rounds).Some?
    ensures id in ScoreTable(players, rounds).value <==> IsRegisteredId(players, id)
    ensures IsRegisteredId(players, id)
            && (forall m | m in AllMatches(rounds) :: m.player1.chessId != id && m.player2.chessId != id)
            ==> ScoreTable(players, rounds).value[id] == 0
  {
    if IsRegisteredId(players, id) {
      var i :| 0 <= i < |players| && players[i].chessId == id;
      assert players[i] in players;
      if forall m | m in AllMatches(rounds) :: m.player1.chessId != id && m.player2.chessId != id {
        UnplayedScoresZero(AllMatches(rounds), id);
      }
    }
    if id in IdSet(players) {
      var p :| p in players && p.chessId == id;
      var i :| 0 <= i < |players| && players[i] == p;
    }
  }

  /** Number of completed matches whose result is one `update_result` accepts. */
  function Decided(ms: seq<Match>): nat {
    if ms == [] then 0
    else
      var m := ms[|ms| - 1];
      Decided(ms[..|ms| - 1]) + if m.completed && m.winner.Some? && IsResult(m.winner.value) then 1 else 0
  }

  /** `table[id]` summed over `ids`. */
  function SumScores(ids: seq<string>, table: map<string, nat>): nat
    requires forall i :: 0 <= i < |ids| ==> ids[i] in table
  {
    if ids == [] then 0 else SumScores(ids[..|ids| - 1], table) + table[ids[|ids| - 1]]
  }

  /** `Total(ms, id)` summed over `ids`. */
  function SumTotals(ids: seq<string>, ms: seq<Match>): nat {
    if ids == [] then 0 else SumTotals(ids[..|ids| - 1], ms) + Total(ms, ids[|ids| - 1])
  }

  /** `Points(m, id)` summed over `ids`. */
  function SumPoints(ids: seq<string>, m: Match): nat {
    if ids == [] then 0 else SumPoints(ids[..|ids| - 1], m) + Points(m, ids[|ids| - 1])
  }

  predicate Distinct(ids: seq<string>) {
    forall i, j :: 0 <= i < j < |ids| ==> ids[i] != ids[j]
  }

  lemma {:induction false} SumTotalsSnoc(ids: seq<string>, ms: seq<Match>, m: Match)
    ensures SumTotals(ids, ms + [m]) == SumTotals(ids, ms) + SumPoints(ids, m)
  {
    assert (ms + [m])[..|ms + [m]| - 1] == ms;
    if ids != [] {
      SumTotalsSnoc(ids[..|ids| - 1], ms, m);
    }
  }

  /** Over a list of distinct ids that holds both players' ids, one match contributes the
      points of its two players. */
  lemma {:induction false} SumPointsOfMatch(ids: seq<string>, m: Match)
    requires Distinct(ids) && m.player1.chessId != m.player2.chessId
    ensures SumPoints(ids, m) ==
              (if m.player1.chessId in ids then GetPoints(m, m.player1) else 0)
              + (if m.player2.chessId in ids then GetPoints(m, m.player2) else 0)
  {
    if ids != [] {
      var init, last := ids[..|ids| - 1], ids[|ids| - 1];
      assert ids == init + [last];
      assert last !in init by {
        forall k | 0 <= k < |init| ensures init[k] != last {
          assert ids[k] != ids[|ids| - 1];
        }
      }
      SumPointsOfMatch(init, m);
    }
  }

  lemma {:induction false} SumTotalsIsTwiceDecided(ids: seq<string>, ms: seq<Match>)
    requires Distinct(ids)
    requires forall m | m in ms :: m.player1.chessId in ids && m.player2.chessId in ids
                                   && m.player1.chessId != m.player2.chessId
    ensures SumTotals(ids, ms) == 2 * Decided(ms)
  {
    if ms == [] {
      SumTotalsOfNothing(ids);
    } else {
      var init, m := ms[..|ms| - 1], ms[|ms| - 1];
      assert ms == init + [m];
      assert forall x | x in init :: x in ms;
      SumTotalsIsTwiceDecided(ids, init);
      SumTotalsSnoc(ids, init, m);
      SumPointsOfMatch(ids, m);
      MatchPoints(m);
    }
  }

  lemma {:induction false} SumTotalsOfNothing(ids: seq<string>)
    ensures SumTotals(ids, []) == 0
  {
    if ids != [] {
      SumTotalsOfNothing(ids[..|ids| - 1]);
    }
  }

  lemma {:induction false} SumScoresIsSumTotals(ids: seq<string>, table: map<string, nat>, ms: seq<Match>)
    requires forall i :: 0 <= i < |ids| ==> ids[i] in table && table[ids[i]] == Total(ms, ids[i])
    ensures SumScores(ids, table) == SumTotals(ids, ms)
  {
    if ids != [] {
      SumScoresIsSumTotals(ids[..|ids| - 1], table, ms);
    }
  }

  /** With unique chess ids and no match pairing a registrant with itself, the scores of
      all registrants add up to one point per completed match. */
  lemma ScoresSumToDecidedMatches(players: seq<Registrant>, rounds: seq<Round>)
    requires UniqueIds(players)
    requires ScoreTable(players, rounds).Some?
    requires forall m | m in AllMatches(rounds) :: m.player1.chessId != m.player2.chessId
    ensures SumScores(Ids(players), ScoreTable(players, rounds).value) == 2 * Decided(AllMatches(rounds))
  {
    var ids, ms := Ids(players), AllMatches(rounds);
    var table := ScoreTable(players, rounds).value;
    forall i | 0 <= i < |ids| ensures ids[i] in table && table[ids[i]] == Total(ms, ids[i]) {
      assert players[i] in players;
    }
    forall id | id in IdSet(players) ensures id in ids {
      var p :| p in players && p.chessId == id;
      var i :| 0 <= i < |players| && players[i] == p;
      assert ids[i] == id;
    }
    SumScoresIsSumTotals(ids, table, ms);
    SumTotalsIsTwiceDecided(ids, ms);
  }
}
