# Chess tournament engine, modelled in Dafny

This project models the engine under the menus of a chess tournament manager. It covers:

- **Matches.** A match is two registrants, a winner (`player1`, `player2`, `draw` or none) and a completion flag. It earns points: a win is worth 1, a draw ½ each, a loss or an unplayed game 0.
- **Rounds.** A round is a number, its matches and a completion flag, and has a display name.
- **Tournaments.** A tournament holds registrants, rounds, a current-round index, the number of rounds planned, a file path and a completion flag. It can compute a score table and a status label.
- **Dictionary encodings.** Matches, rounds and tournaments are stored as JSON-shaped dictionaries. On decoding, chess ids are looked up again among the registrants.
- **Round progression.** Starting a tournament creates round 1 from a shuffled pairing. Advancing creates the next round, paired at random while no round exists and by score afterwards.
- **Result entry.** The results of the current round are entered from typed answers `1`, `2` or `d`.
- **Registration.** A player is registered at most once per chess id.
- **Tournament store.** The store gives each tournament a safe file name and creates tournaments in memory.
- **Tournament list.** Tournaments are listed newest start date first, labelled by status, and selected by number.

Conventions of the model:

- Points are counted in half-points, so a win is 2, a draw 1 and a loss 0.
- Dates are day numbers, and "today" is a parameter.
- The shuffle is a parameter: any permutation of the registrants.
- The answers typed at the result prompt are a sequence parameter.
- A registrant is the `{name, chess_id, club_name}` record the tournament keeps.
- A dictionary key that may be missing is a `Field` (`Absent` or `Present`).
- Each command's observable outcome is an enumerated result: which branch ran, or which error the source raises.

Modules:

- `Wrappers` and `Text` hold shared helpers.
- `Registrants`, `Matches`, `Rounds`, `Scores` and `Tournaments` hold the records and their encodings (models/).
- `Ranking` is the stable descending sort used for score ranking and for the tournament list.
- `Pairing` is the consecutive pairing shared by both commands.
- `StartTournament`, `AdvanceRound`, `MatchResults`, `Register`, `Manager` and `TournamentListing` hold the commands and the store.

Notes on the source:

- **Score ranking.** commands/advance_round.py:37 calls `get_player_scores`, but the tournament method is `player_scores` (models/tournament.py:73). Lines 38-40 then pair the bare chess-id keys of the table rather than registrants. models/tournament.py:78 calls `match._get_chess_id`, which models/match.py does not define. The model follows the evident intent:
  - the score table comes from `player_scores`;
  - a player's id is its `chess_id`;
  - the ranking orders the registrants themselves, in registration order before the stable sort by descending score.
- **Round numbering, modelled as written.** A start numbers its round 1 and sets the index to 0. The next advance numbers its round with the index before the increment plus one, so it is again 1. `AdvanceRound.StartThenAdvance` proves that the first two rounds are then both named "Round 1". An advance taken with no round yet numbers its round 0. The tournament view displays the index plus one (screens/manage_tournament/view.py:78).
- **Player records.** models/player.py has no `club_name`, while `tournament_registrant` reads one. `Registrants.Player` carries it.
- **Match serialization.** `Match.serialize` uses attribute access on registrant dictionaries. The model reads the chess id.
- **Result prompt.** commands/match_results.py:43 prints `match.player1.name` and `match.player2.name` with attribute access. Match players are registrant dictionaries: the start command pairs the records of `tournament.players` (commands/start_tournament.py:46-56), and `from_dict` resolves ids to those same dictionaries. As written, the `print` raises `AttributeError` before the first prompt, so the command records nothing for a round that has matches. `MatchResults.Execute` models the evident intent: the answers are read and recorded in order.
- **Safe file names beyond ASCII.** `_safe_filename` (models/tournament_manager.py:45-46) filters with Python's Unicode `\w` and lower-cases with `str.lower()`, and neither works character by character on all of Unicode. The model keeps and lower-cases ASCII only, so the properties it proves about the stem hold for ASCII names and are false for the program on some other names:
  - `"İ".lower()` is two characters (`i` followed by U+0307). The file name for `"İ"` is then 7 characters, more than the name's length plus 5, and the stem holds U+0307, which is not a letter, a digit, `_` or `-`;
  - filtering that stem again drops U+0307 and gives `"i"`, so the stem is not idempotent;
  - Greek final sigma makes lower-casing depend on the neighbouring letters: the stem of `"ΑΣΑ"` is `"ασα"`, but the stem of `"ΑΣ"` followed by the stem of `"Α"` is `"αςα"`.

## Model

| member | source | states |
|---|---|---|
| Registrants.TournamentRegistrant | models/tournament.py:43-58 | the registrant keeps exactly the player's name, chess id and club name |
| Registrants.TournamentPlayers | models/tournament.py:54-71 | one registrant per player, same length and order, each with exactly the player's name, chess id and club name |
| Registrants.ById | models/tournament.py:129 | the id map has a key exactly for each registered id; each entry carries that id and is one of the registrants |
| Registrants.ByIdResolvesRegistrant | models/tournament.py:129 | with unique ids, looking up a registrant's id finds that registrant |
| Matches.IsDraw | models/match.py:24-30 | a match is a draw exactly when it is completed and gives each side half a point |
| Matches.GetPoints | models/match.py:42-50 | at most a whole point; points only from a completed match |
| Matches.MatchPoints | models/match.py:30-50 | unplayed match: 0 each; draw: ½ each; decisive: 1 to the named winner, 0 to the other; a completed match with an accepted result hands out exactly 1 point in all |
| Matches.UpdateResult | models/match.py:62-65 | accepted exactly for `player1`/`player2`/`draw`; then winner is that value, completed is true, players unchanged; otherwise an error and no new match |
| Matches.UpdateResultOverwrites | models/match.py:64-65 | a later result overwrites an earlier one unconditionally; setting the same result twice is the same as once |
| Matches.Serialize | models/match.py:67-76 | two ids, player 1's then player 2's, and the winner and completion flag as they are; decoding it gives the match back (`Matches.FromDictSerialize`) |
| Matches.FromDict | models/match.py:90-95 | succeeds exactly when `players` holds two ids that are both registered; players are the looked-up registrants; winner and completed are copied when present and default to none and false; a missing `players` key is a missing-key error |
| Matches.FromDictSerialize | models/match.py:72-95 | decoding a serialized match, with a map that finds both players, gives the match back |
| Rounds.Name | models/round.py:30 | the name starts with "Round " |
| Rounds.NameIdentifiesNumber | models/round.py:30 | two rounds have the same name exactly when they have the same number |
| Rounds.SerializeMatches | models/round.py:41 | one encoded match per match, in order |
| Rounds.SerializeRound | models/round.py:39-43 | keeps the number and completion flag and encodes every match in order |
| Rounds.Deserialize | models/round.py:56-61 | fails with an invalid-format error when the number is missing, needs `matches`, keeps the number and the raw match list, and copies the completion flag, false when absent |
| Rounds.DeserializeSerializedRound | models/round.py:39-61 | deserializing a serialized round gives its number, flag and undecoded match list |
| Rounds.DecodeMatches | models/round.py:83-91 | succeeds exactly when every match decodes; then one match per entry, in order |
| Rounds.DecodeSerializedMatches | models/round.py:83-91 | decoding serialized matches with a map that finds their players gives them back |
| Rounds.FromList | models/round.py:82-93 | succeeds exactly when every entry decodes; then one match per entry in order, the given number, not complete; a failure is the first entry's error |
| Rounds.FromListOfSerialized | models/round.py:41-91 | rebuilding a serialized round's match list reproduces its matches |
| Scores.ScoreTable | models/tournament.py:73-80 | when the table exists, every registrant's id has an entry |
| Scores.UnplayedScoresZero | models/tournament.py:74-79 | an id that appears in no match collects 0 |
| Scores.ScoreTableEntries | models/tournament.py:74 | keys are exactly the registered ids; a registrant with no game scores 0 |
| Scores.SumTotalsIsTwiceDecided | models/tournament.py:75-79 | over distinct ids covering all players, the points of all matches sum to one whole point per decided match |
| Scores.ScoresSumToDecidedMatches | models/tournament.py:73-80 | with unique ids and no self-pairing, the scores in the table sum to the number of completed matches with an accepted result |
| Tournaments.Tournament.constructor | models/tournament.py:32-41 | every field takes the given value |
| Tournaments.Tournament.PlayerScores | models/tournament.py:73-80 | the zero-initialised table updated over every match of every round equals the score table, or fails exactly when a match names an unregistered id |
| Tournaments.AddRound | models/tournament.py:76-79 | adding one round's points to a table of the earlier matches gives the table of all of them, or fails when a player has no entry |
| Tournaments.Tournament.StatusLabel | models/tournament.py:90-108 | one of four labels: Completed iff complete; Upcoming iff not complete and today is before the start; Overdue iff not complete, started and past the end; Active otherwise |
| Tournaments.OverdueLabel | models/tournament.py:82-108 | the label is Overdue exactly when `is_overdue` holds and the start is not ahead |
| Tournaments.Tournament.FromDict | models/tournament.py:127-155 | fails exactly as the rounds, `name`, `start_date`, `end_date`, `venue` checks say (first failure wins); otherwise a fresh tournament with the given values and defaults -1, 4 and false |
| Tournaments.SerializeRounds | models/tournament.py:120 | one encoded round per round, in order |
| Tournaments.DecodeRound | models/tournament.py:134-141 | succeeds exactly when its matches decode; number defaults to 1, matches to none, completion to false |
| Tournaments.DecodeRoundDefaults | models/tournament.py:138-140 | an empty round dictionary decodes to round 1 with no matches, not complete |
| Tournaments.DecodeSerializedRound | models/tournament.py:120-141 | a serialized round whose players resolve decodes to the same round |
| Tournaments.DecodeRounds | models/tournament.py:133-142 | succeeds exactly when every round decodes; then one round per entry, in order |
| Tournaments.DecodeSerializedRounds | models/tournament.py:120-142 | serialized rounds whose players resolve decode to the same rounds |
| Tournaments.CheckDoc | models/tournament.py:128-148 | a dictionary decodes exactly when its rounds decode and name, dates and venue are present; then the decoded rounds |
| Tournaments.FromDictDefaults | models/tournament.py:151-154 | `from_dict` on a dictionary with only the required keys succeeds, with the given name, dates, venue and file path, no registrants, no rounds, index -1, 4 rounds, not complete |
| Tournaments.Reload | models/tournament.py:114-155 | decoding the encoding of a tournament whose match players resolve succeeds and gives back every field |
| Tournaments.Tournament.ToDict | models/tournament.py:110-124 | every key present: the fields as they are and each round serialized, in order; `Tournaments.Reload` decodes it back |
| Tournaments.RegisteredMatchesResolve | models/tournament.py:129 | with unique ids, matches between registrants resolve through the id map |
| Tournaments.ScoresTwice | models/tournament.py:73-80 | computing scores twice gives equal tables, both the score table |
| Pairing.PairUp | commands/start_tournament.py:53-56 | half as many matches as entries; match k pits entry 2k against entry 2k+1 |
| Pairing.SeatsOfPairUp | commands/start_tournament.py:53-56 | reading the seats of the pairing back gives the order it was built from |
| Pairing.EveryRegistrantPlaysOnce | commands/advance_round.py:42-46 | pairing a permutation of registrants with unique ids seats each exactly once, only registrants, never two with the same id |
| Pairing.PairUpUnplayed | commands/start_tournament.py:53-56 | every new match has no winner and is not completed |
| Ranking.RankProperties | commands/advance_round.py:38-40 | the stable descending sort is a permutation of positions; keys never increase along it; equal keys keep their original order |
| Ranking.ArrangeByRankIsPermutation | commands/advance_round.py:38-40 | reading a list in ranking order neither loses nor duplicates an entry: a permutation of the list |
| StartTournament.RandomMatchAssignment | commands/start_tournament.py:46-57 | an error exactly for an odd count; otherwise half as many matches as registrants, seated in the shuffled order, all unplayed |
| StartTournament.Execute | commands/start_tournament.py:59-82 | already started: nothing changes; odd count: nothing changes; otherwise exactly one round numbered 1 is appended and the index becomes 0; registrants and other fields untouched |
| StartTournament.StartTwice | commands/start_tournament.py:27-34 | `tournament_already_started` guards a second start: the first start appends round 1 and marks the tournament started; the second changes nothing more |
| StartTournament.FirstRoundCoversRegistrants | commands/start_tournament.py:46-57 | with unique ids, the first round seats every registrant in exactly one match, against a different id |
| AdvanceRound.ConsecutivePairs | commands/advance_round.py:27-33 | succeeds exactly for an even count, and its seats read back the input order; otherwise an odd-count error |
| AdvanceRound.PairConsecutive | commands/advance_round.py:42-48 | the pairing loop computes the consecutive pairing, or fails on an odd count |
| AdvanceRound.RandomMatchAssignment | commands/advance_round.py:22-33 | the shuffled copy paired consecutively |
| AdvanceRound.RankedByScore | commands/advance_round.py:37-40 | the ranking is a permutation of the registrants, scores never increase along it, and equal scores keep registration order |
| AdvanceRound.ScorePairing | commands/advance_round.py:35-48 | an unregistered player in a match is an error; otherwise success exactly for an even count |
| AdvanceRound.ScorePairingProperties | commands/advance_round.py:35-48 | with unique ids and an even count, match k pits rank 2k+1 against rank 2k+2, everyone plays exactly once, never against the same id, and scores never increase from one seat to the next |
| AdvanceRound.CalcMatchAssignment | commands/advance_round.py:35-48 | the method computes the score pairing |
| AdvanceRound.MatchList | commands/advance_round.py:50-54 | random pairing when the index is -1, score pairing otherwise |
| AdvanceRound.StartedPairsByScore | commands/advance_round.py:50-54 | once `tournament_already_started` holds, the next advance pairs by score, never at random |
| AdvanceRound.Execute | commands/advance_round.py:60-74 | declined or failed: nothing changes; otherwise exactly one unfinished round of the next matches, numbered old index + 1, is appended and the index grows by 1; registrants, earlier rounds and flags untouched |
| AdvanceRound.FirstRoundScorable | models/tournament.py:74-79 | after a start, every match player is registered, so the next score table exists |
| AdvanceRound.StartThenAdvance | commands/advance_round.py:66-71 | start then advance gives two rounds both numbered 1 and both named "Round 1", index 1 |
| MatchResults.Strip | commands/match_results.py:45 | the result is a slice with only whitespace removed around it and no whitespace at its ends |
| MatchResults.StripPadded | commands/match_results.py:45 | trimming a word without whitespace padded by whitespace gives the word |
| MatchResults.Answer | commands/match_results.py:45-56 | an accepted answer records one of the three results |
| MatchResults.AnswerAccepts | commands/match_results.py:45-56 | trimmed `1` gives player1, `2` player2, `d` or `D` draw, anything else is refused |
| MatchResults.AnswerIgnoresPadding | commands/match_results.py:45 | whitespace around an answer does not change what it records |
| MatchResults.Accepted | commands/match_results.py:44-56 | the recorded results are accepted values, at most one per answer |
| MatchResults.ApplyAnswers | commands/match_results.py:41-56 | match k takes answer k; matches beyond the answers stay as they were; the match count stays |
| MatchResults.Prompt | commands/match_results.py:44-56 | answers are read until one is accepted, adding exactly that result; when they run out nothing more is accepted |
| MatchResults.AllAnsweredCompleted | commands/match_results.py:41-56 | with an answer for every match, every match is completed |
| MatchResults.RecordNext | commands/match_results.py:46-54 | updating the next match in place adds exactly one answer to the round |
| MatchResults.Execute | commands/match_results.py:31-59 | no active round: nothing changes; otherwise only the current round's matches change, taking the accepted answers in order; recorded means every match of the round is completed |
| Register.Run | screens/register_player/register.py:17-22 | registered exactly when the id was new; then appended at the end, otherwise unchanged; afterwards the id is registered; unique ids stay unique; other fields untouched |
| Manager.Keep | models/tournament_manager.py:45 | only letters, digits, `_` and `-` remain, never more characters than the name had |
| Manager.Stem | models/tournament_manager.py:45-46 | for the ASCII model: only lower-case letters, digits, `_` and `-`, never longer than the name |
| Manager.StemAppend | models/tournament_manager.py:45-46 | for the ASCII model, the stem is built character by character in order: a kept character contributes itself lower-cased, any other nothing |
| Manager.StemIdempotent | models/tournament_manager.py:45-46 | for the ASCII model, filtering an already filtered stem gives it back |
| Manager.TournamentManager.SafeFilename | models/tournament_manager.py:39-46 | ends with `.json` and is the stem before it; for the ASCII model, at most 5 characters longer than the name |
| Manager.TournamentManager.constructor | models/tournament_manager.py:24-35 | the data folder and the loaded tournaments |
| Manager.TournamentManager.Create | models/tournament_manager.py:69-82 | a fresh tournament with the given values, no registrants or rounds, index -1, not complete, path data folder / safe file name, appended last |
| TournamentListing.SortedByStartDateProperties | commands/tournament_list.py:15-23 | a permutation of the loaded tournaments, start dates never increase, same-day tournaments keep loaded order |
| TournamentListing.GetStatusLabel | commands/tournament_list.py:51-56 | Upcoming iff start after today; Completed iff started and end before today; Active iff today is within the dates |
| TournamentListing.ListLabelMatchesTournamentLabel | models/tournament.py:100-108 | for a tournament not marked complete, the list's labels agree with the tournament's own, the list's Completed being its Overdue |
| TournamentListing.SelectTournamentByIndex | commands/tournament_list.py:71-73 | the tournament at 1-based `index` exactly when 1 ≤ index ≤ count, nothing otherwise |

## Left out

- `save` and all file and JSON I/O are not modelled. This covers writing a tournament, reading the data folder at start-up, and the error `save` raises without a file path. A command's state change is what would be saved.
- Manager.TournamentManager.constructor: it does not scan the data folder or report invalid files. It receives the tournaments loaded from it.
- `get_all` is left out. It returns the managed list, which the list functions take as their argument.
- Console input and output are not modelled:
  - the confirmation prompt is a boolean;
  - result answers are a sequence;
  - printed messages are not modelled;
  - the `Context` values the commands return are left out.
- Randomness is left out: `shuffle` is any permutation given as a parameter.
- The clock is left out: "today" is a parameter.
- Dates are day numbers. ISO parsing and formatting, their errors, and the mixing of `date` and `datetime` values are not modelled. Python refuses to order a `datetime` against a `date`, which `get_status_label` would meet on a loaded tournament.
- Floating-point scores become half-point integers.
- Manager.Keep: it keeps ASCII letters, digits, `_` and `-` only. Python's `\w` also keeps non-ASCII letters and digits, which the model drops.
- Manager.Stem: its bounds hold for the ASCII model only. The length bound and the `[a-z0-9_-]` alphabet fail for the program on `"İ"` (see the notes on the source).
- Manager.StemAppend: character-by-character building holds for the ASCII model only. Python's `lower()` maps a final sigma differently, so the program's stem of `"ΑΣΑ"` is not the stem of `"ΑΣ"` followed by the stem of `"Α"`.
- Manager.StemIdempotent: holds for the ASCII model only. For the program, re-filtering the stem of `"İ"` drops the combining dot U+0307.
- Manager.TournamentManager.SafeFilename: the bound of the name's length plus 5 holds for the ASCII model only. For the program, `"İ"` gives a 7-character file name.
- Text.Lower: it lower-cases ASCII letters only. This does not change which answers are accepted, since no other character lower-cases to `1`, `2` or `d`.
- Match objects are values. `update_result` is modelled as replacing the match inside its round. Aliasing of one match object from several places is not captured.
- AdvanceRound.Execute: the odd-count and unregistered-player errors end the command with an exception in the source. The model returns a failure and leaves the tournament as it was.
- Scores.ScoreTable: with duplicate chess ids the table keeps one entry per id, as the dictionary does. The ranking still lists every registrant; the source would rank ids.
- Registrant dictionaries lacking `chess_id` are not modelled. Registrants always carry their three fields.
- The completeness guard before advancing, the cap on the number of rounds, and setting the completion flag are described for the program but absent from its code. They are not modelled.
