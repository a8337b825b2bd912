/** The in-memory side of the tournament store (models/tournament_manager.py): the file
    name a tournament is saved under, and creating a tournament. Loading the files of the
    data folder is replaced by the `loaded` list the constructor receives. */
module Manager {
  import opened Wrappers
  import opened Text
  import opened Tournaments

  /** A character `[\w\-]` keeps: an ASCII letter or digit, `_` or `-`. */
  predicate IsFilenameChar(c: char) {
    IsDigit(c) || IsUpper(c) || IsLower(c) || c == '_' || c == '-'
  }

  /** `re.sub(r"[^\w\-]", "", s)`: `s` with every other character removed. */
  function Keep(s: string): (r: string)
    ensures |r| <= |s|
    ensures forall i :: 0 <= i < |r| ==> IsFilenameChar(r[i])
  {
    if s == [] then [] else (if IsFilenameChar(s[0]) then [s[0]] else []) + Keep(s[1..])
  }

  /** The part of the file name before `.json`: the kept characters, lower-cased. */
  function Stem(name: string): (stem: string)
    ensures |stem| <= |name|
    ensures forall i :: 0 <= i < |stem| ==> IsFilenameChar(stem[i]) && !IsUpper(stem[i])
  {
    Lower(Keep(name))
  }

  lemma {:induction false} KeepAppend(a: string, b: string)
    ensures Keep(a + b) == Keep(a) + Keep(b)
  {
    if a == [] {
      assert a + b == b;
    } else {
      assert (a + b)[0] == a[0] && (a + b)[1..] == a[1..] + b;
      KeepAppend(a[1..], b);
    }
  }

  lemma LowerAppend(a: string, b: string)
    ensures Lower(a + b) == Lower(a) + Lower(b)
  {
    assert forall i :: 0 <= i < |a + b| ==> Lower(a + b)[i] == (Lower(a) + Lower(b))[i];
  }

  /** The stem is built character by character, in order: the stem of a concatenation is
      the concatenation of the stems, and one character contributes itself lower-cased if
      it is kept and nothing otherwise. */
  lemma StemAppend(a: string, b: string)
    ensures Stem(a + b) == Stem(a) + Stem(b)
    ensures |a| == 1 ==> Stem(a) == if IsFilenameChar(a[0]) then [LowerChar(a[0])] else []
  {
    KeepAppend(a, b);
    LowerAppend(Keep(a), Keep(b));
    if |a| == 1 {
      assert a[1..] == [];
    }
  }

  /** A string of kept characters is kept whole. */
  lemma {:induction false} KeepAll(s: string)
    requires forall i :: 0 <= i < |s| ==> IsFilenameChar(s[i])
    ensures Keep(s) == s
  {
    if s != [] {
      KeepAll(s[1..]);
    }
  }

  /** Filtering an already filtered stem gives it back. */
  lemma StemIdempotent(name: string)
    ensures Stem(Stem(name)) == Stem(name)
  {
    var stem := Stem(name);
    KeepAll(stem);
    assert Lower(stem) == stem;
  }

  class TournamentManager {
    var dataFolder: string
    var tournaments: seq<Tournament>

    /** The manager over `dataFolder`, holding the tournaments read from it. */
    constructor (dataFolder: string, loaded: seq<Tournament>)
      ensures this.dataFolder == dataFolder && tournaments == loaded
    {
      this.dataFolder := dataFolder;
      tournaments := loaded;
    }

    /** `_safe_filename`: the stem followed by `.json`. */
    static function SafeFilename(name: string): (filename: string)
      ensures 5 <= |filename| <= |name| + 5
      ensures filename[|filename| - 5..] == ".json"
      ensures filename[..|filename| - 5] == Stem(name)
    {
      Stem(name) + ".json"
    }

    /** `create`: a new tournament with the given name, dates, venue and number of rounds,
        no registrants and no rounds, round index -1, not complete, saved under the data
        folder and the safe file name, appended as the last managed tournament. */
    method Create(name: string, startDate: int, endDate: int, venue: Option<string>, numRounds: int)
      returns (t: Tournament)
      modifies this
      ensures fresh(t)
      ensures tournaments == old(tournaments) + [t] && dataFolder == old(dataFolder)
      ensures t.name == name && t.startDate == startDate && t.endDate == endDate && t.venue == venue
      ensures t.players == [] && t.rounds == [] && t.currentRoundIndex == -1
      ensures t.numRounds == numRounds && !t.isComplete
      ensures t.filepath == Some(dataFolder + "/" + SafeFilename(name))
    {
      var filepath := dataFolder + "/" + SafeFilename(name);
      t := new Tournament(name, startDate, endDate, venue, [], [], -1, numRounds, Some(filepath), false);
      tournaments := tournaments + [t];
    }
  }
}
