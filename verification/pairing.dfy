/** Consecutive pairing, shared by the start and advance commands
    (commands/start_tournament.py, commands/advance_round.py): entries 0 and 1 play the
    first match, entries 2 and 3 the second, and so on. */
module Pairing {
  import opened Wrappers
  import opened Registrants
  import opened Matches

  /** A new, unplayed match between `a` and `b`. */
  function NewMatch(a: Registrant, b: Registrant): Match {
    Match(a, b, None, false)
  }

  /** The matches `[Match(order[i], order[i + 1]) for i in range(0, len(order), 2)]`. */
  function PairUp(order: seq<Registrant>): (ms: seq<Match>)
    requires |order| % 2 == 0
    ensures |ms| == |order| / 2
    ensures forall k :: 0 <= k < |ms| ==> ms[k] == NewMatch(order[2 * k], order[2 * k + 1])
  {
    if order == [] then [] else [NewMatch(order[0], order[1])] + PairUp(order[2..])
  }

  /** The players of `ms`, seat by seat: first and second player of the first match, then
      of the second, and so on. */
  function Seats(ms: seq<Match>): (s: seq<Registrant>)
    ensures |s| == 2 * |ms|
  {
    if ms == [] then [] else [ms[0].player1, ms[0].player2] + Seats(ms[1..])
  }

  /** Reading the seats of the pairing back gives the order it was built from: nobody is
      dropped, added or moved. */
  lemma {:induction false} SeatsOfPairUp(order: seq<Registrant>)
    requires |order| % 2 == 0
    ensures Seats(PairUp(order)) == order
  {
    if order != [] {
      SeatsOfPairUp(order[2..]);
      assert PairUp(order)[1..] == PairUp(order[2..]);
      assert order == [order[0], order[1]] + order[2..];
    }
  }

  /** Registrant `p` plays in match `m`. */
  predicate Plays(m: Match, p: Registrant) {
    m.player1 == p || m.player2 == p
  }

  lemma RepeatedEntryCountsTwice<T>(s: seq<T>, a: nat, b: nat)
    requires a < b < |s| && s[a] == s[b]
    ensures multiset(s)[s[a]] >= 2
  {
    assert s == s[..b] + [s[b]] + s[b + 1..];
    assert s[a] in s[..b];
  }

  /** Registrant `p` plays in some match of `ms`. */
  predicate Seated(ms: seq<Match>, p: Registrant) {
    exists k :: 0 <= k < |ms| && Plays(ms[k], p)
  }

  /** A permutation of registrants with unique chess ids has unique chess ids. */
  lemma PermutationKeepsUniqueIds(players: seq<Registrant>, order: seq<Registrant>)
    requires UniqueIds(players) && multiset(order) == multiset(players)
    ensures UniqueIds(order)
  {
    forall a, b | 0 <= a < b < |order| ensures order[a].chessId != order[b].chessId {
      assert order[a] in multiset(players) && order[b] in multiset(players);
      var i :| 0 <= i < |players| && players[i] == order[a];
      var j :| 0 <= j < |players| && players[j] == order[b];
      if order[a] == order[b] {
        UniqueIdsOccurOnce(players, i);
        RepeatedEntryCountsTwice(order, a, b);
        assert false;
      } else if i != j {
        assert players[i].chessId != players[j].chessId;
      }
    }
  }

  /** In a pairing of registrants with unique ids, seat `a` of the order plays in match
      `a / 2` and in no other match, and nobody is paired with themselves. */
  lemma PairUpSeatsEachOnce(order: seq<Registrant>)
    requires |order| % 2 == 0 && UniqueIds(order)
    ensures forall k :: 0 <= k < |PairUp(order)| ==>
              PairUp(order)[k].player1.chessId != PairUp(order)[k].player2.chessId
    ensures forall a, k :: 0 <= a < |order| && 0 <= k < |PairUp(order)| ==>
              (Plays(PairUp(order)[k], order[a]) <==> k == a / 2)
  {
    var ms := PairUp(order);
    forall k | 0 <= k < |ms| ensures ms[k].player1.chessId != ms[k].player2.chessId {
      assert ms[k] == NewMatch(order[2 * k], order[2 * k + 1]);
    }
    forall a, k | 0 <= a < |order| && 0 <= k < |ms| ensures Plays(ms[k], order[a]) <==> k == a / 2 {
      assert ms[k] == NewMatch(order[2 * k], order[2 * k + 1]);
      if a != 2 * k {
        assert order[a].chessId != order[2 * k].chessId;
      }
      if a != 2 * k + 1 {
        assert order[a].chessId != order[2 * k + 1].chessId;
      }
    }
  }

  /** Pairing a permutation of the registrants (an even number of them, with unique chess
      ids) seats every registrant in exactly one match, against an opponent with another
      id, and seats nobody else. */
  lemma EveryRegistrantPlaysOnce(players: seq<Registrant>, order: seq<Registrant>)
    requires UniqueIds(players) && multiset(order) == multiset(players) && |players| % 2 == 0
    ensures |order| % 2 == 0 && |PairUp(order)| == |players| / 2
    ensures forall i :: 0 <= i < |players| ==> Seated(PairUp(order), players[i])
    ensures forall i, k1, k2 ::
              0 <= i < |players| && 0 <= k1 < |PairUp(order)| && 0 <= k2 < |PairUp(order)|
              && Plays(PairUp(order)[k1], players[i]) && Plays(PairUp(order)[k2], players[i])
              ==> k1 == k2
    ensures forall k :: 0 <= k < |PairUp(order)| ==>
              PairUp(order)[k].player1 in players && PairUp(order)[k].player2 in players
              && PairUp(order)[k].player1.chessId != PairUp(order)[k].player2.chessId
  {
    PermutationFacts(players, order);
    SeatedOnce(order, players);
  }

  /** What pairing needs of a permutation of registrants with unique ids. */
  lemma PermutationFacts(players: seq<Registrant>, order: seq<Registrant>)
    requires UniqueIds(players) && multiset(order) == multiset(players)
    ensures |order| == |players| && UniqueIds(order)
    ensures forall i :: 0 <= i < |players| ==> players[i] in order
    ensures forall p | p in order :: p in players
  {
    SameMembers(players, order);
    PermutationKeepsUniqueIds(players, order);
  }

  /** A permutation has the same length and the same members. */
  lemma SameMembers<T>(xs: seq<T>, ys: seq<T>)
    requires multiset(ys) == multiset(xs)
    ensures |ys| == |xs|
    ensures forall i :: 0 <= i < |xs| ==> xs[i] in ys
    ensures forall y | y in ys :: y in xs
  {
    assert |ys| == |multiset(ys)| == |multiset(xs)| == |xs|;
    forall i | 0 <= i < |xs| ensures xs[i] in ys {
      assert xs[i] in multiset(ys);
    }
    forall y | y in ys ensures y in xs {
      assert y in multiset(xs);
    }
  }

  lemma SeatedOnce(order: seq<Registrant>, players: seq<Registrant>)
    requires |order| % 2 == 0 && UniqueIds(order)
    requires forall i :: 0 <= i < |players| ==> players[i] in order
    requires forall p | p in order :: p in players
    ensures forall i :: 0 <= i < |players| ==> Seated(PairUp(order), players[i])
    ensures forall i, k1, k2 ::
              0 <= i < |players| && 0 <= k1 < |PairUp(order)| && 0 <= k2 < |PairUp(order)|
              && Plays(PairUp(order)[k1], players[i]) && Plays(PairUp(order)[k2], players[i])
              ==> k1 == k2
    ensures forall k :: 0 <= k < |PairUp(order)| ==>
              PairUp(order)[k].player1 in players && PairUp(order)[k].player2 in players
              && PairUp(order)[k].player1.chessId != PairUp(order)[k].player2.chessId
  {
    PairUpSeatsEachOnce(order);
    var ms := PairUp(order);
    forall i | 0 <= i < |players| ensures Seated(ms, players[i]) {
      var a :| 0 <= a < |order| && order[a] == players[i];
      var k := a / 2;
      assert 0 <= k < |ms|;
      assert Plays(ms[k], players[i]);
    }
    forall i, k1, k2 | 0 <= i < |players| && 0 <= k1 < |ms| && 0 <= k2 < |ms|
      && Plays(ms[k1], players[i]) && Plays(ms[k2], players[i])
      ensures k1 == k2
    {
      var a :| 0 <= a < |order| && order[a] == players[i];
    }
    forall k | 0 <= k < |ms| ensures ms[k].player1 in players && ms[k].player2 in players {
      assert ms[k] == NewMatch(order[2 * k], order[2 * k + 1]);
      assert order[2 * k] in order && order[2 * k + 1] in order;
    }
  }

  /** Every match of a pairing is unplayed. */
  lemma PairUpUnplayed(order: seq<Registrant>)
    requires |order| % 2 == 0
    ensures forall m | m in PairUp(order) :: m.winner == None && !m.completed
  {
  }
}
