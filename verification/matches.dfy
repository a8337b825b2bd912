/** One game between two registrants and its dictionary encoding (models/match.py).
    Points are counted in half-points: a win is 2, a draw 1, a loss or an unplayed game 0. */
module Matches {
  import opened Wrappers
  import opened Registrants

  /** The result values `update_result` accepts. */
  predicate IsResult(w: string) {
    w == "player1" || w == "player2" || w == "draw"
  }

  /** `winner` is any string a document held, or `None`; only `update_result` checks it. */
  datatype Match = Match(player1: Registrant, player2: Registrant, winner: Option<string>, completed: bool)

  /** Why decoding a dictionary fails: a missing key (`KeyError`), a `players` entry that
      does not unpack into two ids (`ValueError`), an id missing from the registrant map
      (`KeyError`), or a round without a number (`ValueError("Invalid round format")`). */
  datatype DecodeError =
    | MissingKey(key: string)
    | WrongPlayerCount(count: nat)
    | UnknownId(id: string)
    | InvalidRoundFormat

  /** `is_draw`: exactly the matches that give each side half a point. */
  predicate IsDraw(m: Match): (draw: bool)
    ensures draw <==> m.completed && GetPoints(m, m.player1) == 1 && GetPoints(m, m.player2) == 1
  {
    m.completed && m.winner == Some("draw")
  }

  /** `get_points`, in half-points. `p` is compared with the match's players by value,
      as the source compares registrant dictionaries. */
  function GetPoints(m: Match, p: Registrant): (halves: nat)
    ensures halves <= 2
    ensures halves > 0 ==> m.completed
  {
    if !m.completed then 0
    else if m.winner == Some("draw") then 1
    else if m.winner == Some("player1") && p == m.player1 then 2
    else if m.winner == Some("player2") && p == m.player2 then 2
    else 0
  }

  /** What one game is worth: nothing until it is completed; a draw gives each side a half;
      a decisive result gives the named side a whole point and the other nothing, so a
      completed game with an accepted result hands out exactly one point in all. */
  lemma MatchPoints(m: Match)
    requires m.player1 != m.player2
    ensures !m.completed ==> GetPoints(m, m.player1) == 0 && GetPoints(m, m.player2) == 0
    ensures IsDraw(m) ==> GetPoints(m, m.player1) == 1 && GetPoints(m, m.player2) == 1
    ensures m.completed && m.winner == Some("player1") ==>
              GetPoints(m, m.player1) == 2 && GetPoints(m, m.player2) == 0
    ensures m.completed && m.winner == Some("player2") ==>
              GetPoints(m, m.player1) == 0 && GetPoints(m, m.player2) == 2
    ensures GetPoints(m, m.player1) + GetPoints(m, m.player2) ==
              if m.completed && m.winner.Some? && IsResult(m.winner.value) then 2 else 0
  {
  }

  /** `update_result`: an accepted value overwrites whatever result the match had and marks
      it completed; any other value raises and leaves the match as it was. */
  function UpdateResult(m: Match, w: string): (r: Result<Match, string>)
    ensures r.Ok? <==> IsResult(w)
    ensures r.Ok? ==> r.value.winner == Some(w) && r.value.completed
    ensures r.Ok? ==> r.value.player1 == m.player1 && r.value.player2 == m.player2
    ensures r.Err? ==> r.error == w
  {
    if IsResult(w) then Ok(m.(winner := Some(w), completed := true)) else Err(w)
  }

  /** The last accepted result wins: setting a result after another is the same as setting
      it on the original match, whatever result (or none) the match had before. */
  lemma UpdateResultOverwrites(m: Match, first: string, second: string)
    requires IsResult(first) && IsResult(second)
    ensures UpdateResult(UpdateResult(m, first).value, second) == UpdateResult(m, second)
    ensures UpdateResult(UpdateResult(m, second).value, second) == UpdateResult(m, second)
  {
  }

  /** A serialized match: `{"players": [id1, id2], "winner": ..., "completed": ...}`. */
  datatype MatchDoc = MatchDoc(players: Field<seq<string>>, winner: Field<Option<string>>, completed: Field<bool>)

  /** `serialize`: the players by chess id, the winner and the completion flag. */
  function Serialize(m: Match): (doc: MatchDoc)
    ensures doc.players.Present? && |doc.players.value| == 2
    ensures doc.players.value[0] == m.player1.chessId && doc.players.value[1] == m.player2.chessId
    ensures doc.winner == Present(m.winner) && doc.completed == Present(m.completed)
  {
    MatchDoc(Present([m.player1.chessId, m.player2.chessId]), Present(m.winner), Present(m.completed))
  }

  /** `from_dict`: unpack the two ids, look each up in `byId`, default `winner` to `None`
      and `completed` to false. */
  function FromDict(d: MatchDoc, byId: map<string, Registrant>): (r: Result<Match, DecodeError>)
    ensures r.Ok? <==> d.players.Present? && |d.players.value| == 2
                       && d.players.value[0] in byId && d.players.value[1] in byId
    ensures r.Ok? ==> r.value.player1 == byId[d.players.value[0]] && r.value.player2 == byId[d.players.value[1]]
    ensures r.Ok? ==> r.value.winner == d.winner.GetOr(None) && r.value.completed == d.completed.GetOr(false)
    ensures d.players.Absent? ==> r == Err(MissingKey("players"))
  {
    if d.players.Absent? then Err(MissingKey("players"))
    else if |d.players.value| != 2 then Err(WrongPlayerCount(|d.players.value|))
    else if d.players.value[0] !in byId then Err(UnknownId(d.players.value[0]))
    else if d.players.value[1] !in byId then Err(UnknownId(d.players.value[1]))
    else Ok(Match(byId[d.players.value[0]], byId[d.players.value[1]], d.winner.GetOr(None), d.completed.GetOr(false)))
  }

  /** Both players of `m` are found again by their ids. */
  predicate PlayersResolve(byId: map<string, Registrant>, m: Match) {
    Resolves(byId, m.player1) && Resolves(byId, m.player2)
  }

  /** Decoding a serialized match with a map that finds both players gives the match back. */
  lemma FromDictSerialize(m: Match, byId: map<string, Registrant>)
    requires PlayersResolve(byId, m)
    ensures FromDict(Serialize(m), byId) == Ok(m)
  {
  }
}
