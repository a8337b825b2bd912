/** Entering the results of the current round (commands/match_results.py). The answers
    typed at the prompt are the `choices` parameter, read one after another: `1`, `2` and
    `d` (after trimming whitespace and lowering case) record a result for the match being
    asked about; anything else is refused and the same match is asked about again. */
module MatchResults {
  import opened Wrappers
  import opened Text
  import opened Matches
  import opened Rounds
  import opened Tournaments

  /** The characters Python's `str.strip()` removes: those `str.isspace()` accepts. */
  predicate IsSpace(c: char) {
    ('\t' <= c <= '\r') || ('\U{1C}' <= c <= ' ') || c == '\U{85}' || c == '\U{A0}'
    || c == '\U{1680}' || ('\U{2000}' <= c <= '\U{200A}') || c == '\U{2028}' || c == '\U{2029}'
    || c == '\U{202F}' || c == '\U{205F}' || c == '\U{3000}'
  }

  /** `s` without its leading whitespace. */
  function StripStart(s: string): (r: string)
    ensures |r| <= |s| && r == s[|s| - |r|..]
    ensures forall k :: 0 <= k < |s| - |r| ==> IsSpace(s[k])
    ensures r == [] || !IsSpace(r[0])
  {
    if s != [] && IsSpace(s[0]) then StripStart(s[1..]) else s
  }

  /** `s` without its trailing whitespace. */
  function StripEnd(s: string): (r: string)
    ensures |r| <= |s| && r == s[..|r|]
    ensures forall k :: |r| <= k < |s| ==> IsSpace(s[k])
    ensures r == [] || !IsSpace(r[|r| - 1])
  {
    if s != [] && IsSpace(s[|s| - 1]) then StripEnd(s[..|s| - 1]) else s
  }

  /** `str.strip()`: the part of `s` between its leading and its trailing whitespace. */
  function Strip(s: string): (r: string)
    ensures exists i, j :: 0 <= i <= j <= |s| && r == s[i..j]
                           && (forall k :: 0 <= k < i ==> IsSpace(s[k]))
                           && (forall k :: j <= k < |s| ==> IsSpace(s[k]))
    ensures r == [] || (!IsSpace(r[0]) && !IsSpace(r[|r| - 1]))
  {
    var head := StripStart(s);
    var r := StripEnd(head);
    assert r == s[|s| - |head|..|s| - |head| + |r|];
    r
  }

  /** The result one typed answer records, if it is accepted. */
  function Answer(choice: string): (w: Option<string>)
    ensures w.Some? ==> IsResult(w.value)
  {
    var a := Lower(Strip(choice));
    if a == "1" then Some("player1")
    else if a == "2" then Some("player2")
    else if a == "d" then Some("draw")
    else None
  }

  /** An answer is accepted exactly when, trimmed, it is `1`, `2`, `d` or `D`, and each
      of those records its own result. */
  lemma AnswerAccepts(choice: string)
    ensures Answer(choice) == Some("player1") <==> Strip(choice) == "1"
    ensures Answer(choice) == Some("player2") <==> Strip(choice) == "2"
    ensures Answer(choice) == Some("draw") <==> Strip(choice) == "d" || Strip(choice) == "D"
    ensures Answer(choice).None? <==> Strip(choice) !in {"1", "2", "d", "D"}
  {
    var s := Strip(choice);
    var l := Lower(s);
    if |s| == 1 {
      assert l == [LowerChar(s[0])];
      assert s == [s[0]];
    } else {
      assert |l| != 1;
    }
  }

  lemma {:induction false} StripStartSpaces(pre: string, s: string)
    requires forall k :: 0 <= k < |pre| ==> IsSpace(pre[k])
    ensures StripStart(pre + s) == StripStart(s)
  {
    if pre == [] {
      assert pre + s == s;
    } else {
      assert (pre + s)[0] == pre[0] && (pre + s)[1..] == pre[1..] + s;
      StripStartSpaces(pre[1..], s);
    }
  }

  lemma {:induction false} StripEndSpaces(s: string, post: string)
    requires forall k :: 0 <= k < |post| ==> IsSpace(post[k])
    ensures StripEnd(s + post) == StripEnd(s)
  {
    if post == [] {
      assert s + post == s;
    } else {
      var init := post[..|post| - 1];
      assert (s + post)[|s + post| - 1] == post[|post| - 1] && (s + post)[..|s + post| - 1] == s + init;
      StripEndSpaces(s, init);
    }
  }

  /** A word without whitespace has no leading whitespace to lose, whatever follows it. */
  lemma StripStartWord(choice: string, post: string)
    requires forall k :: 0 <= k < |choice| ==> !IsSpace(choice[k])
    requires forall k :: 0 <= k < |post| ==> IsSpace(post[k])
    ensures StripStart(choice + post) == if choice == [] then [] else choice + post
  {
    if choice == [] {
      assert choice + post == post + [];
      StripStartSpaces(post, []);
    } else {
      assert (choice + post)[0] == choice[0];
    }
  }

  /** A word without whitespace has no trailing whitespace to lose. */
  lemma StripEndWord(choice: string)
    requires forall k :: 0 <= k < |choice| ==> !IsSpace(choice[k])
    ensures StripEnd(choice) == choice
  {
  }

  /** Trimming removes exactly the whitespace around a word without whitespace. */
  lemma StripPadded(pre: string, choice: string, post: string)
    requires forall k :: 0 <= k < |pre| ==> IsSpace(pre[k])
    requires forall k :: 0 <= k < |post| ==> IsSpace(post[k])
    requires forall k :: 0 <= k < |choice| ==> !IsSpace(choice[k])
    ensures Strip(pre + choice + post) == choice
  {
    var rest := choice + post;
    assert pre + choice + post == pre + rest;
    StripStartSpaces(pre, rest);
    StripStartWord(choice, post);
    StripEndSpaces(choice, post);
    StripEndWord(choice);
  }

  /** Whitespace around an answer is ignored. */
  lemma AnswerIgnoresPadding(pre: string, choice: string, post: string)
    requires forall k :: 0 <= k < |pre| ==> IsSpace(pre[k])
    requires forall k :: 0 <= k < |post| ==> IsSpace(post[k])
    requires forall k :: 0 <= k < |choice| ==> !IsSpace(choice[k])
    ensures Answer(pre + choice + post) == Answer(choice)
  {
    StripPadded(pre, choice, post);
    assert StripStart(choice) == choice;
    assert StripEnd(choice) == choice;
    assert Strip(pre + choice + post) == Strip(choice);
  }

  /** The results recorded from `choices`, in order: every accepted answer, refused ones
      skipped. */
  function Accepted(choices: seq<string>): (ws: seq<string>)
    ensures |ws| <= |choices|
    ensures forall k :: 0 <= k < |ws| ==> IsResult(ws[k])
  {
    if choices == [] then []
    else
      var w := Answer(choices[|choices| - 1]);
      Accepted(choices[..|choices| - 1]) + if w.Some? then [w.value] else []
  }

  /** Reading one more answer adds its result when it is accepted. */
  lemma AcceptedNext(choices: seq<string>, n: nat)
    requires n < |choices|
    ensures Accepted(choices[..n + 1]) ==
              Accepted(choices[..n]) + if Answer(choices[n]).Some? then [Answer(choices[n]).value] else []
  {
    assert choices[..n + 1][..n] == choices[..n];
  }

  /** Reading fewer answers never changes the results already recorded. */
  lemma {:induction false} AcceptedPrefix(choices: seq<string>, c: nat)
    requires c <= |choices|
    ensures Accepted(choices[..c]) <= Accepted(choices)
  {
    if c < |choices| {
      var init := choices[..|choices| - 1];
      assert init[..c] == choices[..c];
      AcceptedPrefix(init, c);
    } else {
      assert choices[..c] == choices;
    }
  }

  /** The matches after recording `answers` in order: match `k` takes answer `k`, and
      matches beyond the last answer stay as they were. */
  function ApplyAnswers(ms: seq<Match>, answers: seq<string>): (r: seq<Match>)
    requires forall k :: 0 <= k < |answers| ==> IsResult(answers[k])
    ensures |r| == |ms|
    ensures forall k :: 0 <= k < |ms| && k < |answers| ==> r[k] == UpdateResult(ms[k], answers[k]).value
    ensures forall k :: |answers| <= k < |ms| ==> r[k] == ms[k]
  {
    if ms == [] || answers == [] then ms
    else [UpdateResult(ms[0], answers[0]).value] + ApplyAnswers(ms[1..], answers[1..])
  }

  /** Recording one more answer changes exactly the next match. */
  lemma {:induction false} ApplyAnswersNext(ms: seq<Match>, answers: seq<string>, w: string)
    requires forall k :: 0 <= k < |answers| ==> IsResult(answers[k])
    requires IsResult(w) && |answers| < |ms|
    ensures ApplyAnswers(ms, answers + [w]) ==
              ApplyAnswers(ms, answers)[|answers| := UpdateResult(ms[|answers|], w).value]
  {
    var more := answers + [w];
    if answers == [] {
      assert more == [w];
      assert ApplyAnswers(ms[1..], []) == ms[1..];
    } else {
      var rest := answers[1..];
      assert more[0] == answers[0] && more[1..] == rest + [w];
      assert forall k :: 0 <= k < |rest| ==> rest[k] == answers[k + 1];
      assert ms[1..][|rest|] == ms[|answers|];
      ApplyAnswersNext(ms[1..], rest, w);
      UpdateAfterHead(UpdateResult(ms[0], answers[0]).value, ApplyAnswers(ms[1..], rest), |answers|,
                      UpdateResult(ms[|answers|], w).value);
    }
  }

  lemma UpdateAfterHead<T>(h: T, s: seq<T>, i: nat, v: T)
    requires 0 < i <= |s|
    ensures [h] + s[i - 1 := v] == ([h] + s)[i := v]
  {
  }

  /** Once every match has an answer, further answers change nothing. */
  lemma ApplyAnswersEnough(ms: seq<Match>, answers: seq<string>, more: seq<string>)
    requires forall k :: 0 <= k < |more| ==> IsResult(more[k])
    requires answers <= more && |answers| >= |ms|
    ensures ApplyAnswers(ms, answers) == ApplyAnswers(ms, more)
  {
  }

  /** The prompt loop for one match: answers are read from position `c` on until one is
      accepted; `next` is the position after it. `None` means the answers ran out. */
  method Prompt(choices: seq<string>, c: nat) returns (answer: Option<string>, next: nat)
    requires c <= |choices|
    ensures answer.Some? ==> c < next <= |choices| && IsResult(answer.value)
                             && Accepted(choices[..next]) == Accepted(choices[..c]) + [answer.value]
    ensures answer.None? ==> Accepted(choices) == Accepted(choices[..c])
  {
    next := c;
    answer := None;
    while answer.None?
      invariant c <= next <= |choices|
      invariant answer.None? ==> Accepted(choices[..next]) == Accepted(choices[..c])
      invariant answer.Some? ==> c < next && IsResult(answer.value) && Accepted(choices[..next]) == Accepted(choices[..c]) + [answer.value]
      decreases |choices| - next
    {
      if next == |choices| {
        assert choices[..next] == choices;
        return None, next;
      }
      answer := Answer(choices[next]);
      AcceptedNext(choices, next);
      next := next + 1;
    }
  }

  /** With an answer for every match, every match is completed. */
  lemma AllAnsweredCompleted(ms: seq<Match>, answers: seq<string>)
    requires forall k :: 0 <= k < |answers| ==> IsResult(answers[k])
    requires |answers| >= |ms|
    ensures forall m | m in ApplyAnswers(ms, answers) :: m.completed
  {
  }

  /** `match.update_result(w)` on the next unanswered match of round `ci`, in place. */
  method RecordNext(t: Tournament, ci: nat, idx: nat, ghost rounds0: seq<Round>, ghost ms0: seq<Match>,
                    ghost before: seq<string>, w: string)
    requires idx == |before|
    requires forall k :: 0 <= k < |before| ==> IsResult(before[k])
    requires IsResult(w) && ci < |rounds0| && rounds0[ci].matches == ms0 && |before| < |ms0|
    requires t.rounds == rounds0[ci := rounds0[ci].(matches := ApplyAnswers(ms0, before))]
    modifies t
    ensures OnlyRoundsChanged(t)
    ensures t.rounds == rounds0[ci := rounds0[ci].(matches := ApplyAnswers(ms0, before + [w]))]
  {
    var m := t.rounds[ci].matches[idx];
    var updated := UpdateResult(m, w).value;
    ApplyAnswersNext(ms0, before, w);
    t.rounds := t.rounds[ci := t.rounds[ci].(matches := t.rounds[ci].matches[idx := updated])];
  }

  datatype ResultsOutcome = NoActiveRound | Recorded | InputExhausted

  /** `execute`. With no round in progress nothing changes. Otherwise the matches of the
      current round, in order, take the accepted answers in order; when the answers run
      out first (`input` raises at end of input) the matches already answered keep their
      new results. Other rounds, the match order and count, and every other field stay. */
  method Execute(t: Tournament, choices: seq<string>) returns (outcome: ResultsOutcome)
    modifies t
    ensures OnlyRoundsChanged(t)
    ensures var i := old(t.currentRoundIndex);
            !(0 <= i < |old(t.rounds)|) ==> outcome == NoActiveRound && unchanged(t)
    ensures var i := old(t.currentRoundIndex);
            0 <= i < |old(t.rounds)| ==>
              var ms := old(t.rounds)[i].matches;
              t.rounds == old(t.rounds)[i := old(t.rounds)[i].(matches := ApplyAnswers(ms, Accepted(choices)))]
              && outcome == (if |Accepted(choices)| >= |ms| then Recorded else InputExhausted)
    ensures outcome == Recorded ==>
              0 <= t.currentRoundIndex < |t.rounds|
              && forall m | m in t.rounds[t.currentRoundIndex].matches :: m.completed
  {
    var ci := t.currentRoundIndex;
    if ci < 0 || ci >= |t.rounds| {
      return NoActiveRound;
    }
    ghost var rounds0 := t.rounds;
    ghost var ms0 := t.rounds[ci].matches;
    var idx := 0;
    var c := 0;
    assert choices[..c] == [];
    while idx < |t.rounds[ci].matches|
      invariant 0 <= c <= |choices|
      invariant |Accepted(choices[..c])| == idx <= |ms0|
      invariant OnlyRoundsChanged(t)
      invariant t.rounds == rounds0[ci := rounds0[ci].(matches := ApplyAnswers(ms0, Accepted(choices[..c])))]
    {
      ghost var before := Accepted(choices[..c]);
      var answer, next := Prompt(choices, c);
      if answer.None? {
        return InputExhausted;
      }
      c := next;
      RecordNext(t, ci, idx, rounds0, ms0, before, answer.value);
      idx := idx + 1;
    }
    AcceptedPrefix(choices, c);
    ApplyAnswersEnough(ms0, Accepted(choices[..c]), Accepted(choices));
    AllAnsweredCompleted(ms0, Accepted(choices));
    outcome := Recorded;
  }
}
