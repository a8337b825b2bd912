/** Registrants: a player's identity inside one tournament, and the lookups keyed on it
    (models/tournament.py). A registrant is the `{"name", "chess_id", "club_name"}`
    dictionary the tournament keeps in `players`. */
module Registrants {

  datatype Registrant = Registrant(name: string, chessId: string, clubName: string)

  /** A club directory entry, as far as the tournament reads it. */
  datatype Player = Player(name: string, email: string, chessId: string, birthday: string, clubName: string)

  /** `Tournament.tournament_registrant`: the three fields a tournament keeps of a player. */
  function TournamentRegistrant(p: Player): (r: Registrant)
    ensures r.name == p.name && r.chessId == p.chessId && r.clubName == p.clubName
  {
    Registrant(p.name, p.chessId, p.clubName)
  }

  /** `Tournament.tournament_players`: one registrant per player, in the same order. */
  function TournamentPlayers(ps: seq<Player>): (rs: seq<Registrant>)
    ensures |rs| == |ps|
    ensures forall i :: 0 <= i < |ps| ==>
              rs[i].name == ps[i].name && rs[i].chessId == ps[i].chessId && rs[i].clubName == ps[i].clubName
  {
    if ps == [] then [] else [TournamentRegistrant(ps[0])] + TournamentPlayers(ps[1..])
  }

  /** Some registrant in `ps` carries `id`: `any(p["chess_id"] == id for p in players)`. */
  predicate IsRegisteredId(ps: seq<Registrant>, id: string) {
    exists i :: 0 <= i < |ps| && ps[i].chessId == id
  }

  /** No chess id occurs twice among the registrants. */
  predicate UniqueIds(ps: seq<Registrant>) {
    forall i, j :: 0 <= i < j < |ps| ==> ps[i].chessId != ps[j].chessId
  }

  /** The set of registered chess ids: the keys of the score table. */
  function IdSet(ps: seq<Registrant>): set<string> {
    set p | p in ps :: p.chessId
  }

  /** The chess ids in registration order. */
  function Ids(ps: seq<Registrant>): (ids: seq<string>)
    ensures |ids| == |ps|
    ensures forall i :: 0 <= i < |ps| ==> ids[i] == ps[i].chessId
  {
    if ps == [] then [] else Ids(ps[..|ps| - 1]) + [ps[|ps| - 1].chessId]
  }

  /** `{p["chess_id"]: p for p in players}`: a later registrant with the same id
      replaces an earlier one. */
  function ById(ps: seq<Registrant>): (byId: map<string, Registrant>)
    ensures forall id :: id in byId <==> IsRegisteredId(ps, id)
    ensures forall id :: id in byId ==> byId[id].chessId == id && byId[id] in ps
  {
    if ps == [] then map[]
    else
      var init, last := ps[..|ps| - 1], ps[|ps| - 1];
      assert forall id :: IsRegisteredId(ps, id) <==> IsRegisteredId(init, id) || id == last.chessId by {
        forall id | IsRegisteredId(ps, id) && id != last.chessId ensures IsRegisteredId(init, id) {
          var i :| 0 <= i < |ps| && ps[i].chessId == id;
          assert init[i] == ps[i];
        }
        forall id | IsRegisteredId(init, id) ensures IsRegisteredId(ps, id) {
          var i :| 0 <= i < |init| && init[i].chessId == id;
          assert ps[i] == init[i];
        }
        assert ps[|ps| - 1] == last;
      }
      ById(init)[last.chessId := last]
  }

  /** Looking up `p`'s chess id in `byId` gives back `p` itself. */
  predicate Resolves(byId: map<string, Registrant>, p: Registrant) {
    p.chessId in byId && byId[p.chessId] == p
  }

  /** With unique ids, the id map finds every registrant. */
  lemma {:induction false} ByIdResolvesRegistrant(ps: seq<Registrant>, i: nat)
    requires UniqueIds(ps) && i < |ps|
    ensures Resolves(ById(ps), ps[i])
  {
    var init := ps[..|ps| - 1];
    if i < |ps| - 1 {
      assert init[i] == ps[i];
      ByIdResolvesRegistrant(init, i);
    }
  }

  /** Registrants with unique ids are pairwise different values, so each occurs once. */
  lemma {:induction false} UniqueIdsOccurOnce(ps: seq<Registrant>, i: nat)
    requires UniqueIds(ps) && i < |ps|
    ensures multiset(ps)[ps[i]] == 1
  {
    if i == |ps| - 1 {
      assert ps == ps[..i] + [ps[i]];
      assert ps[i] !in ps[..i] by {
        forall j | 0 <= j < i ensures ps[..i][j] != ps[i] {
          assert ps[j].chessId != ps[i].chessId;
        }
      }
    } else {
      var init := ps[..|ps| - 1];
      assert ps == init + [ps[|ps| - 1]];
      assert init[i] == ps[i];
      UniqueIdsOccurOnce(init, i);
      assert ps[|ps| - 1].chessId != ps[i].chessId;
    }
  }
}
