/** The full scoreboard (src/app/scoreboard/all/page.tsx): up to 1000
    summary rows, sorted by score and numbered. */
module ScoreboardAll {
  import opened Base
  import opened Strings
  import opened Sequences
  import CS = ChallengeStore
  import SB = Scoreboard

  /** The entries for rows already in score order, numbered from 1. */
  function Numbered(rows: seq<CS.SummaryRow>): (r: seq<SB.Entry>)
    ensures |r| == |rows|
    ensures forall i :: 0 <= i < |r| ==> r[i] == SB.BaseEntry(rows[i], i)
  {
    seq(|rows|, i requires 0 <= i < |rows| => SB.BaseEntry(rows[i], i))
  }

  /** `fetchData`'s board: one entry per summary row, best score first,
      ranks 1 to n, no history. */
  function AllBoard(summary: seq<CS.SummaryRow>): (r: seq<SB.Entry>)
    ensures |r| == |summary|
    ensures forall i :: 0 <= i < |r| ==> r[i].rank == i + 1 && r[i].progress == []
    ensures forall i, j :: 0 <= i < j < |r| ==> r[i].score >= r[j].score
    ensures forall i :: 0 <= i < |r| ==>
      r[i].username == SB.ByScore(summary)[i].username && r[i].score == SB.ByScore(summary)[i].score
  {
    Numbered(SB.ByScore(summary))
  }

  /** The ids are distinct, so they can serve as row keys. */
  lemma IdsDistinct(summary: seq<CS.SummaryRow>, i: nat, j: nat)
    requires i < j < |AllBoard(summary)|
    ensures AllBoard(summary)[i].id != AllBoard(summary)[j].id
  {
    var r := AllBoard(summary);
    assert DigitsValue(r[i].id) == i + 1;
    assert DigitsValue(r[j].id) == j + 1;
  }

  /** Every summary row appears, with its score, as often as it occurs. */
  lemma EveryRowListed(summary: seq<CS.SummaryRow>, row: CS.SummaryRow)
    requires row in summary
    ensures exists i :: (0 <= i < |AllBoard(summary)| &&
      AllBoard(summary)[i].username == row.username && AllBoard(summary)[i].score == row.score)
  {
    var sorted := SB.ByScore(summary);
    assert row in multiset(summary);
    assert row in sorted;
    var i :| 0 <= i < |sorted| && sorted[i] == row;
    assert AllBoard(summary)[i].username == row.username;
  }
}
