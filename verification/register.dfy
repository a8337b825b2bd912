/** Registering a player for a tournament (screens/register_player/register.py): the
    registrant is appended unless some registrant already carries its chess id. */
module Register {
  import opened Registrants
  import opened Tournaments

  /** `run`; `registered` tells which branch was taken. */
  method Run(t: Tournament, player: Registrant) returns (registered: bool)
    modifies t
    ensures OnlyPlayersChanged(t)
    ensures registered <==> !IsRegisteredId(old(t.players), player.chessId)
    ensures registered ==> t.players == old(t.players) + [player]
    ensures !registered ==> t.players == old(t.players)
    ensures IsRegisteredId(t.players, player.chessId)
    ensures UniqueIds(old(t.players)) ==> UniqueIds(t.players)
  {
    if IsRegisteredId(t.players, player.chessId) {
      return false;
    }
    t.players := t.players + [player];
    assert t.players[|t.players| - 1] == player;
    registered := true;
  }
}
