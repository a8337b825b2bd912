/** One round of a tournament and its dictionary encoding (models/round.py). */
module Rounds {
  import opened Wrappers
  import opened Text
  import opened Registrants
  import opened Matches

  datatype Round = Round(roundNumber: int, matches: seq<Match>, isComplete: bool)

  /** The `name` property: "Round " followed by the round number. */
  function Name(r: Round): (s: string)
    ensures |s| > 6 && s[..6] == "Round "
  {
    "Round " + IntToDecimal(r.roundNumber)
  }

  /** Two rounds have the same name exactly when they have the same number. */
  lemma NameIdentifiesNumber(a: Round, b: Round)
    ensures Name(a) == Name(b) <==> a.roundNumber == b.roundNumber
  {
    IntToDecimalInjective(a.roundNumber, b.roundNumber);
    if Name(a) == Name(b) {
      assert IntToDecimal(a.roundNumber) == Name(a)[6..] == Name(b)[6..] == IntToDecimal(b.roundNumber);
    }
  }

  /** A serialized round: `{"round_number": ..., "matches": [...], "is_complete": ...}`. */
  datatype RoundDoc = RoundDoc(roundNumber: Field<int>, matches: Field<seq<MatchDoc>>, isComplete: Field<bool>)

  /** `[match.serialize() for match in self.matches]`. */
  function SerializeMatches(ms: seq<Match>): (docs: seq<MatchDoc>)
    ensures |docs| == |ms|
    ensures forall i :: 0 <= i < |ms| ==> docs[i] == Serialize(ms[i])
  {
    if ms == [] then [] else [Serialize(ms[0])] + SerializeMatches(ms[1..])
  }

  /** `Round.serialize`. */
  function SerializeRound(r: Round): (d: RoundDoc)
    ensures d.roundNumber == Present(r.roundNumber) && d.isComplete == Present(r.isComplete)
    ensures d.matches.Present? && |d.matches.value| == |r.matches|
    ensures forall i :: 0 <= i < |r.matches| ==> d.matches.value[i] == Serialize(r.matches[i])
  {
    RoundDoc(Present(r.roundNumber), Present(SerializeMatches(r.matches)), Present(r.isComplete))
  }

  /** What `Round.deserialize` builds: its `matches` are the match dictionaries as they
      were read, not decoded into matches. */
  datatype RawRound = RawRound(roundNumber: int, matches: seq<MatchDoc>, isComplete: bool)

  /** `Round.deserialize`: a missing round number is an invalid format, a missing
      `matches` key a `KeyError`; `is_complete` defaults to false. */
  function Deserialize(d: RoundDoc): (r: Result<RawRound, DecodeError>)
    ensures r.Ok? <==> d.roundNumber.Present? && d.matches.Present?
    ensures d.roundNumber.Absent? ==> r == Err(InvalidRoundFormat)
    ensures r.Ok? ==> r.value.roundNumber == d.roundNumber.value && r.value.matches == d.matches.value
    ensures r.Ok? ==> r.value.isComplete == d.isComplete.GetOr(false)
  {
    if d.roundNumber.Absent? then Err(InvalidRoundFormat)
    else if d.matches.Absent? then Err(MissingKey("matches"))
    else Ok(RawRound(d.roundNumber.value, d.matches.value, d.isComplete.GetOr(false)))
  }

  /** Deserializing a serialized round keeps its number and flag and hands back the match
      dictionaries undecoded. */
  lemma DeserializeSerializedRound(r: Round)
    ensures Deserialize(SerializeRound(r)) == Ok(RawRound(r.roundNumber, SerializeMatches(r.matches), r.isComplete))
  {
  }

  /** Decodes the match dictionaries in order; the first one that fails decides the error. */
  function DecodeMatches(docs: seq<MatchDoc>, byId: map<string, Registrant>): (r: Result<seq<Match>, DecodeError>)
    ensures r.Ok? <==> forall i :: 0 <= i < |docs| ==> FromDict(docs[i], byId).Ok?
    ensures r.Ok? ==> |r.value| == |docs| && forall i :: 0 <= i < |docs| ==> FromDict(docs[i], byId) == Ok(r.value[i])
  {
    if docs == [] then Ok([])
    else
      var init := docs[..|docs| - 1];
      assert forall i :: 0 <= i < |init| ==> init[i] == docs[i];
      match DecodeMatches(init, byId)
      case Err(e) => Err(e)
      case Ok(ms) =>
        match FromDict(docs[|docs| - 1], byId)
        case Err(e) => Err(e)
        case Ok(m) => Ok(ms + [m])
  }

  /** Every player of every match is found again by its id. */
  predicate AllResolve(byId: map<string, Registrant>, ms: seq<Match>) {
    forall m | m in ms :: PlayersResolve(byId, m)
  }

  /** Decoding serialized matches with a map that finds their players gives them back. */
  lemma {:induction false} DecodeSerializedMatches(ms: seq<Match>, byId: map<string, Registrant>)
    requires AllResolve(byId, ms)
    ensures DecodeMatches(SerializeMatches(ms), byId) == Ok(ms)
  {
    var docs := SerializeMatches(ms);
    forall i | 0 <= i < |ms| ensures FromDict(docs[i], byId) == Ok(ms[i]) {
      FromDictSerialize(ms[i], byId);
    }
    var r := DecodeMatches(docs, byId);
    assert r.Ok?;
    assert |r.value| == |ms|;
    assert forall i :: 0 <= i < |ms| ==> r.value[i] == ms[i];
    assert r.value == ms;
  }

  /** `Round.from_list`: one match per dictionary, in order, players looked up in
      `registrantsById`; the round gets `roundNumber` and is not complete. */
  method FromList(docs: seq<MatchDoc>, registrantsById: map<string, Registrant>, roundNumber: int)
    returns (r: Result<Round, DecodeError>)
    ensures r.Ok? <==> forall i :: 0 <= i < |docs| ==> FromDict(docs[i], registrantsById).Ok?
    ensures r.Ok? ==> r.value.roundNumber == roundNumber && !r.value.isComplete
    ensures r.Ok? ==> |r.value.matches| == |docs|
    ensures r.Ok? ==> forall i :: 0 <= i < |docs| ==> FromDict(docs[i], registrantsById) == Ok(r.value.matches[i])
    ensures r.Err? ==> DecodeMatches(docs, registrantsById) == Err(r.error)
  {
    var matches: seq<Match> := [];
    var k := 0;
    while k < |docs|
      invariant 0 <= k <= |docs|
      invariant DecodeMatches(docs[..k], registrantsById) == Ok(matches)
    {
      assert docs[..k + 1][..k] == docs[..k];
      var m := FromDict(docs[k], registrantsById);
      if m.Err? {
        PrefixError(docs, registrantsById, k + 1);
        return Err(m.error);
      }
      matches := matches + [m.value];
      k := k + 1;
    }
    assert docs[..k] == docs;
    return Ok(Round(roundNumber, matches, false));
  }

  /** Once a prefix fails to decode, the whole list fails with the same error. */
  lemma {:induction false} PrefixError(docs: seq<MatchDoc>, byId: map<string, Registrant>, k: nat)
    requires k <= |docs| && DecodeMatches(docs[..k], byId).Err?
    ensures DecodeMatches(docs, byId) == DecodeMatches(docs[..k], byId)
    decreases |docs| - k
  {
    if k < |docs| {
      assert docs[..k + 1][..k] == docs[..k];
      PrefixError(docs, byId, k + 1);
    } else {
      assert docs[..k] == docs;
    }
  }

  /** `from_list` on a serialized round's match list, with a map that finds every player,
      rebuilds the round's matches in order. */
  lemma FromListOfSerialized(r: Round, byId: map<string, Registrant>)
    requires AllResolve(byId, r.matches)
    ensures DecodeMatches(SerializeRound(r).matches.value, byId) == Ok(r.matches)
  {
    DecodeSerializedMatches(r.matches, byId);
  }
}
