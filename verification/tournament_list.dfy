/** Listing the stored tournaments and picking one (commands/tournament_list.py): newest
    start date first, a status label per tournament, selection by 1-based number. */
module TournamentListing {
  import opened Wrappers
  import opened Ranking
  import opened Tournaments

  /** The start dates of `ts`, in list order. */
  function StartDates(ts: seq<Tournament>): (dates: seq<int>)
    reads ts
    ensures |dates| == |ts|
    ensures forall i :: 0 <= i < |ts| ==> dates[i] == ts[i].startDate
  {
    if ts == [] then [] else StartDates(ts[..|ts| - 1]) + [ts[|ts| - 1].startDate]
  }

  /** `get_all_tournaments_sorted` on the loaded tournaments: `sorted` by start date with
      `reverse=True`. */
  function SortedByStartDate(ts: seq<Tournament>): (sorted: seq<Tournament>)
    reads ts
    ensures |sorted| == |ts|
  {
    Arrange(ts, Rank(StartDates(ts)))
  }

  /** The sorted list holds exactly the loaded tournaments, start dates never increase
      along it, and tournaments starting the same day keep their loaded order. */
  lemma SortedByStartDateProperties(ts: seq<Tournament>)
    ensures multiset(SortedByStartDate(ts)) == multiset(ts)
    ensures forall a :: 0 <= a < |ts| ==> SortedByStartDate(ts)[a] == ts[Rank(StartDates(ts))[a]]
    ensures forall a, b :: 0 <= a < b < |ts| ==>
              SortedByStartDate(ts)[a].startDate >= SortedByStartDate(ts)[b].startDate
    ensures forall a, b :: 0 <= a < b < |ts|
              && SortedByStartDate(ts)[a].startDate == SortedByStartDate(ts)[b].startDate
              ==> Rank(StartDates(ts))[a] < Rank(StartDates(ts))[b]
  {
    var keys := StartDates(ts);
    var order := Rank(keys);
    ArrangeByRankIsPermutation(ts, keys);
    RankProperties(keys);
    forall a | 0 <= a < |ts| ensures SortedByStartDate(ts)[a] == ts[order[a]] {
      ArrangeAt(ts, order, a);
    }
  }

  /** `get_status_label`: upcoming while the start is ahead, completed once the end has
      passed, active otherwise. The completion flag plays no part. */
  function GetStatusLabel(t: Tournament, today: int): (status: string)
    reads t
    ensures status == "[Upcoming]" <==> today < t.startDate
    ensures status == "[Completed]" <==> t.startDate <= today && t.endDate < today
    ensures status == "[Active]" <==> t.startDate <= today <= t.endDate
  {
    if t.startDate > today then "[Upcoming]"
    else if t.endDate < today then "[Completed]"
    else "[Active]"
  }

  /** For a tournament not marked complete, the list's label and the tournament's own
      label agree, except that the list calls an overdue tournament completed. */
  lemma ListLabelMatchesTournamentLabel(t: Tournament, today: int)
    requires !t.isComplete
    ensures GetStatusLabel(t, today) == "[Upcoming]" <==> t.StatusLabel(today) == "[Upcoming]"
    ensures GetStatusLabel(t, today) == "[Active]" <==> t.StatusLabel(today) == "[Active]"
    ensures GetStatusLabel(t, today) == "[Completed]" <==> t.StatusLabel(today) == "[Overdue]"
  {
  }

  /** `select_tournament_by_index`: the `index`-th tournament counting from 1, or nothing
      when `index` is out of range. */
  function SelectTournamentByIndex(index: int, ts: seq<Tournament>): (selected: Option<Tournament>)
    ensures selected.Some? <==> 1 <= index <= |ts|
    ensures selected.Some? ==> selected.value == ts[index - 1] && selected.value in ts
  {
    if 1 <= index <= |ts| then Some(ts[index - 1]) else None
  }
}
