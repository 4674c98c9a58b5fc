/** The scoreboard page (src/app/scoreboard/page.tsx): the top 100 of the
    summary in the table, with the score history of the top 10 merged in
    for the chart. */
module Scoreboard {
  import opened Base
  import opened Strings
  import opened Sequences
  import Sorting
  import CS = ChallengeStore

  /** A `LeaderboardEntry` as the table and chart receive it. */
  datatype Entry = Entry(id: string, username: string, score: int, rank: int, progress: seq<CS.Point>)

  const TABLE_SIZE: nat := 100
  const CHART_SIZE: nat := 10

  function ScoreOf(r: CS.SummaryRow): int { r.score }

  /** `summary.sort((a, b) => b.score - a.score)`: the same rows, highest
      score first. */
  function ByScore(summary: seq<CS.SummaryRow>): (r: seq<CS.SummaryRow>)
    ensures multiset(r) == multiset(summary) && |r| == |summary|
    ensures forall i, j :: 0 <= i < j < |r| ==> r[i].score >= r[j].score
  {
    var le := Sorting.ByKeyDesc(ScoreOf);
    var r := Sorting.Sort(summary, le);
    Sorting.SortedAllPairs(r, le);
    r
  }

  /** The entry for position `i`: rank and id `i + 1`, no history yet. */
  function BaseEntry(row: CS.SummaryRow, i: nat): (e: Entry)
    ensures e.rank == i + 1 && e.progress == [] && e.username == row.username && e.score == row.score
    ensures (forall k :: 0 <= k < |e.id| ==> IsDigit(e.id[k])) && DigitsValue(e.id) == i + 1
  {
    NatToStringValue(i + 1);
    Entry(NatToString(i + 1), row.username, row.score, i + 1, [])
  }

  /** The history the progress map holds for a name, `[]` when none. */
  function HistoryFor(progressMap: map<string, CS.Progress>, name: string): seq<CS.Point> {
    if name in progressMap then progressMap[name].history else []
  }

  /** A top-10 entry with its history: the score becomes the history's last
      score when there is one; rank and id stay. */
  function WithHistory(e: Entry, progressMap: map<string, CS.Progress>): (r: Entry)
    ensures r.id == e.id && r.rank == e.rank && r.username == e.username
    ensures r.progress == HistoryFor(progressMap, e.username)
    ensures r.progress != [] ==> r.score == r.progress[|r.progress| - 1].score
    ensures r.progress == [] ==> r.score == e.score
  {
    var h := HistoryFor(progressMap, e.username);
    e.(progress := h, score := if h != [] then h[|h| - 1].score else e.score)
  }

  /** The entry `fetchData` leaves at position `i` of the top rows: ranked
      and numbered by position; the first ten carry their history and show
      its last score; the rest keep the summary's score and no history. */
  function FinalEntry(top: seq<CS.SummaryRow>, i: nat, progressMap: map<string, CS.Progress>): (e: Entry)
    requires i < |top|
    ensures e.rank == i + 1 && e.username == top[i].username
    ensures (forall k :: 0 <= k < |e.id| ==> IsDigit(e.id[k])) && DigitsValue(e.id) == i + 1
    ensures i < CHART_SIZE ==> e.progress == HistoryFor(progressMap, e.username)
    ensures i < CHART_SIZE && e.progress != [] ==> e.score == e.progress[|e.progress| - 1].score
    ensures i >= CHART_SIZE || e.progress == [] ==> e.score == top[i].score
    ensures i >= CHART_SIZE ==> e.progress == []
  {
    if i < CHART_SIZE then WithHistory(BaseEntry(top[i], i), progressMap) else BaseEntry(top[i], i)
  }

  /** What the table shows: the first 100 rows by score. */
  function TopRows(summary: seq<CS.SummaryRow>): (top: seq<CS.SummaryRow>)
    ensures |top| <= TABLE_SIZE && top <= ByScore(summary)
    ensures |top| == if |summary| < TABLE_SIZE then |summary| else TABLE_SIZE
  {
    Take(ByScore(summary), TABLE_SIZE)
  }

  /** Properties of the finished board: ranks and ids are the positions,
      the table follows the summary's score order, and only the first ten
      entries carry a history. */
  lemma BoardShape(summary: seq<CS.SummaryRow>, progressMap: map<string, CS.Progress>, i: nat)
    requires i < |TopRows(summary)|
    ensures var e := FinalEntry(TopRows(summary), i, progressMap);
      e.rank == i + 1 && DigitsValue(e.id) == i + 1 && e.username == ByScore(summary)[i].username
      && (i >= CHART_SIZE ==> e.progress == [] && e.score == ByScore(summary)[i].score)
      && (i < CHART_SIZE ==> e.progress == HistoryFor(progressMap, e.username))
  {
  }

  /** `isEmpty`: no entries, or none with both a history and a score. */
  predicate IsEmpty(board: seq<Entry>) {
    |board| == 0 || forall e :: e in board ==> |e.progress| == 0 || e.score == 0
  }

  /** Entries past the tenth never have a history, so only the first ten
      decide whether the chart's empty state shows. */
  lemma EmptyDecidedByTopTen(summary: seq<CS.SummaryRow>, progressMap: map<string, CS.Progress>, board: seq<Entry>)
    requires |board| == |TopRows(summary)|
    requires forall i :: 0 <= i < |board| ==> board[i] == FinalEntry(TopRows(summary), i, progressMap)
    ensures IsEmpty(board) <==>
      forall i :: 0 <= i < |board| && i < CHART_SIZE ==> |board[i].progress| == 0 || board[i].score == 0
  {
    if forall i :: 0 <= i < |board| && i < CHART_SIZE ==> |board[i].progress| == 0 || board[i].score == 0 {
      forall e | e in board ensures |e.progress| == 0 || e.score == 0 {
        var i :| 0 <= i < |board| && board[i] == e;
        if i >= CHART_SIZE {
          BoardShape(summary, progressMap, i);
        }
      }
    }
  }

  /** The merge loop over the top ten, writing each entry in place. */
  method MergeHistories(board: array<Entry>, progressMap: map<string, CS.Progress>)
    modifies board
    ensures forall i :: 0 <= i < board.Length ==>
      board[i] == if i < CHART_SIZE then WithHistory(old(board[i]), progressMap) else old(board[i])
  {
    var n := if board.Length < CHART_SIZE then board.Length else CHART_SIZE;
    for i := 0 to n
      invariant forall k :: 0 <= k < board.Length ==>
        board[k] == if k < i then WithHistory(old(board[k]), progressMap) else old(board[k])
    {
      board[i] := WithHistory(board[i], progressMap);
    }
  }

  /** The page's state. */
  class ScoreboardPage {
    var leaderboard: seq<Entry>
    var loading: bool

    constructor()
      ensures leaderboard == [] && loading
    {
      leaderboard := [];
      loading := true;
    }

    /** `fetchData`: without a user only loading ends. Otherwise the summary
        is sorted, its first 100 rows become entries and the first ten get
        their history. `summary` is None when `getLeaderboard` throws on an
        RPC error and `progressMap` is None when its request throws; either
        leaves the page loading with its old board. */
    method FetchData(signedIn: bool, summary: Option<seq<CS.SummaryRow>>, progressMap: Option<map<string, CS.Progress>>)
      modifies this
      ensures !signedIn ==> leaderboard == old(leaderboard) && !loading
      ensures signedIn && (summary.None? || progressMap.None?) ==> leaderboard == old(leaderboard) && loading == old(loading)
      ensures signedIn && summary.Some? && progressMap.Some? ==> (!loading &&
        |leaderboard| == |TopRows(summary.value)| &&
        forall i :: 0 <= i < |leaderboard| ==> leaderboard[i] == FinalEntry(TopRows(summary.value), i, progressMap.value))
    {
      if !signedIn {
        loading := false;
        return;
      }
      if summary.None? || progressMap.None? {
        return;
      }
      var top := TopRows(summary.value);
      var board := new Entry[|top|];
      forall i | 0 <= i < |top| {
        board[i] := BaseEntry(top[i], i);
      }
      MergeHistories(board, progressMap.value);
      leaderboard := board[..];
      loading := false;
    }
  }
}
