/** Daily activity statistics for the admin graph (src/lib/activityStats.ts):
    the solves of the last 7, 30 or 90 days are fetched page by page and
    counted per day. Days are numbered; a solve carries the day its
    timestamp falls on. */
module ActivityStats {

  datatype Range = Week | Month | Quarter

  datatype Solve = Solve(day: int, userId: string)

  datatype DailyStats = DailyStats(date: int, solves: nat, activeUsers: nat)

  const BATCH_SIZE: nat := 1000

  /** How many days before today the window starts. */
  function StartOffset(range: Range): (n: nat)
    ensures n + 1 == (match range case Week => 7 case Month => 30 case Quarter => 90)
  {
    if range == Week then 6 else if range == Month then 29 else 89
  }

  /** The solves the paginated query collects from offset `from` on. The
      server holds `rows` (already restricted to the window and ordered by
      time); `fails(f)` says the request for offset `f` returns an error.
      Each request asks for `BATCH_SIZE` rows; the loop stops on an error,
      an empty page or a short page. */
  /** The rows `.range(from, from + BATCH_SIZE - 1)` returns. */
  function Page(rows: seq<Solve>, from: nat): (r: seq<Solve>)
    requires from <= |rows|
    ensures |r| <= BATCH_SIZE
    ensures |r| < BATCH_SIZE ==> from + |r| == |rows|
  {
    rows[from..if from + BATCH_SIZE <= |rows| then from + BATCH_SIZE else |rows|]
  }

  function FetchFrom(rows: seq<Solve>, fails: nat -> bool, from: nat): (r: seq<Solve>)
    requires from <= |rows|
    ensures from + |r| <= |rows| && r == rows[from..from + |r|]
    ensures from + |r| == |rows| || (fails(from + |r|) && |r| % BATCH_SIZE == 0)
    decreases |rows| - from
  {
    if fails(from) then []
    else
      var batch := Page(rows, from);
      if batch == [] then []
      else if |batch| < BATCH_SIZE then batch
      else
        var more := FetchFrom(rows, fails, from + BATCH_SIZE);
        assert rows[from..from + BATCH_SIZE + |more|] == batch + more;
        batch + more
  }

  /** Everything the window holds arrives when no page request fails. */
  lemma FetchAllWithoutErrors(rows: seq<Solve>, fails: nat -> bool)
    requires forall f: nat :: f <= |rows| ==> !fails(f)
    ensures FetchFrom(rows, fails, 0) == rows
  {
  }

  /** The pagination loop: offsets 0, 1000, 2000, ... concatenated. */
  method FetchAll(rows: seq<Solve>, fails: nat -> bool) returns (all: seq<Solve>)
    ensures all == FetchFrom(rows, fails, 0)
  {
    ghost var target := FetchFrom(rows, fails, 0);
    var from: nat := 0;
    all := [];
    while true
      invariant from <= |rows|
      invariant target == all + FetchFrom(rows, fails, from)
      decreases |rows| - from
    {
      if fails(from) {
        FetchFailed(rows, fails, from);
        break;
      }
      var data := Page(rows, from);
      if |data| == 0 {
        FetchLastPage(rows, fails, from);
        break;
      }
      if |data| < BATCH_SIZE {
        FetchLastPage(rows, fails, from);
        all := all + data;
        break;
      }
      FetchFullPage(rows, fails, from);
      ghost var later := FetchFrom(rows, fails, from + BATCH_SIZE);
      assert target == all + (data + later);
      assert all + (data + later) == (all + data) + later;
      all := all + data;
      from := from + BATCH_SIZE;
    }
  }

  /** A failed page ends the fetch. */
  lemma FetchFailed(rows: seq<Solve>, fails: nat -> bool, from: nat)
    requires from <= |rows| && fails(from)
    ensures FetchFrom(rows, fails, from) == []
  {
  }

  /** A short page that did not fail is the last one fetched. */
  lemma FetchLastPage(rows: seq<Solve>, fails: nat -> bool, from: nat)
    requires from <= |rows| && !fails(from) && |Page(rows, from)| < BATCH_SIZE
    ensures FetchFrom(rows, fails, from) == Page(rows, from)
  {
  }

  /** A full page that did not fail: it heads the rest of the fetch. */
  lemma FetchFullPage(rows: seq<Solve>, fails: nat -> bool, from: nat)
    requires from <= |rows| && !fails(from) && |Page(rows, from)| == BATCH_SIZE
    ensures from + BATCH_SIZE <= |rows|
    ensures FetchFrom(rows, fails, from) == Page(rows, from) + FetchFrom(rows, fails, from + BATCH_SIZE)
  {
  }

  /** A day's running totals: the number of solves and the set of users. */
  datatype DayAcc = DayAcc(solves: nat, users: set<string>)

  /** Every day from `start` through `today`, with nothing counted yet. */
  method InitDays(start: int, today: int) returns (days: map<int, DayAcc>)
    ensures forall d :: d in days <==> start <= d <= today
    ensures forall d :: d in days ==> days[d] == DayAcc(0, {})
  {
    days := map[];
    var current := start;
    while current <= today
      invariant start <= current || today < start
      invariant today < start ==> current == start
      invariant current <= today + 1 || today < start
      invariant forall d :: d in days <==> start <= d < current
      invariant forall d :: d in days ==> days[d] == DayAcc(0, {})
      decreases today - current
    {
      days := days[current := DayAcc(0, {})];
      current := current + 1;
    }
  }

  /** The number of solves on day `d`. */
  function SolvesOn(solves: seq<Solve>, d: int): nat {
    if solves == [] then 0
    else SolvesOn(solves[..|solves| - 1], d) + (if solves[|solves| - 1].day == d then 1 else 0)
  }

  /** The users who solved something on day `d`. */
  function UsersOn(solves: seq<Solve>, d: int): set<string> {
    if solves == [] then {}
    else UsersOn(solves[..|solves| - 1], d) + (if solves[|solves| - 1].day == d then {solves[|solves| - 1].userId} else {})
  }

  /** A user counts at most once per solve, so a day never has more active
      users than solves. */
  lemma {:induction false} ActiveAtMostSolves(solves: seq<Solve>, d: int)
    ensures |UsersOn(solves, d)| <= SolvesOn(solves, d)
    decreases |solves|
  {
    if solves != [] {
      var init := solves[..|solves| - 1];
      ActiveAtMostSolves(init, d);
      var last := solves[|solves| - 1];
      if last.day == d {
        assert |UsersOn(init, d) + {last.userId}| <= |UsersOn(init, d)| + 1;
      }
    }
  }

  /** Someone is active on a day exactly when one of their solves is on it. */
  lemma {:induction false} UsersOnMeans(solves: seq<Solve>, d: int, u: string)
    ensures u in UsersOn(solves, d) <==> Solve(d, u) in solves
    decreases |solves|
  {
    if solves != [] {
      var init := solves[..|solves| - 1];
      UsersOnMeans(init, d, u);
      assert solves == init + [solves[|solves| - 1]];
    }
  }

  /** The `forEach`: each solve on a known day adds one solve and its user
      to that day; solves on other days are ignored. */
  method Populate(days: map<int, DayAcc>, solves: seq<Solve>) returns (stats: map<int, DayAcc>)
    ensures stats.Keys == days.Keys
    ensures forall d :: d in stats ==>
      stats[d].solves == days[d].solves + SolvesOn(solves, d) &&
      stats[d].users == days[d].users + UsersOn(solves, d)
  {
    stats := days;
    for i := 0 to |solves|
      invariant stats.Keys == days.Keys
      invariant forall d :: d in stats ==>
        stats[d].solves == days[d].solves + SolvesOn(solves[..i], d) &&
        stats[d].users == days[d].users + UsersOn(solves[..i], d)
    {
      assert solves[..i + 1][..i] == solves[..i];
      var solve := solves[i];
      if solve.day in stats {
        var acc := stats[solve.day];
        stats := stats[solve.day := DayAcc(acc.solves + 1, acc.users + {solve.userId})];
      }
    }
    assert solves[..|solves|] == solves;
  }

  /** The day map after initialisation and aggregation. */
  method CountDays(start: int, today: int, solves: seq<Solve>) returns (stats: map<int, DayAcc>)
    ensures forall d :: d in stats <==> start <= d <= today
    ensures forall d :: d in stats ==> stats[d] == DayAcc(SolvesOn(solves, d), UsersOn(solves, d))
  {
    var days := InitDays(start, today);
    stats := Populate(days, solves);
  }

  /** The entries as rows, by ascending date. */
  function Table(stats: map<int, DayAcc>, start: int, count: nat): (r: seq<DailyStats>)
    requires forall d :: start <= d < start + count ==> d in stats
    ensures |r| == count
    ensures forall k :: 0 <= k < count ==> r[k].date == start + k
    ensures forall k :: 0 <= k < count ==>
      r[k].solves == stats[start + k].solves && r[k].activeUsers == |stats[start + k].users|
    decreases count
  {
    if count == 0 then []
    else
      Table(stats, start, count - 1)
        + [DailyStats(start + count - 1, stats[start + count - 1].solves, |stats[start + count - 1].users|)]
  }

  /** `getStatsByRange`: one row per day of the window, oldest first, with
      that day's solve count and number of distinct solvers among the
      fetched solves. */
  method GetStatsByRange(range: Range, today: int, rows: seq<Solve>, fails: nat -> bool)
    returns (report: seq<DailyStats>)
    ensures |report| == StartOffset(range) + 1
    ensures forall k :: 0 <= k < |report| ==> report[k].date == today - StartOffset(range) + k
    ensures forall i, j :: 0 <= i < j < |report| ==> report[i].date < report[j].date
    ensures forall k :: 0 <= k < |report| ==>
      report[k].solves == SolvesOn(FetchFrom(rows, fails, 0), report[k].date) &&
      report[k].activeUsers == |UsersOn(FetchFrom(rows, fails, 0), report[k].date)|
    ensures forall k :: 0 <= k < |report| ==> report[k].activeUsers <= report[k].solves
  {
    var solves := FetchAll(rows, fails);
    report := DailyReport(today - StartOffset(range), today, solves);
  }

  /** The rows for the days `start` through `today` of the fetched solves. */
  method DailyReport(start: int, today: int, solves: seq<Solve>) returns (report: seq<DailyStats>)
    requires start <= today
    ensures |report| == today - start + 1
    ensures forall k :: 0 <= k < |report| ==> report[k].date == start + k
    ensures forall i, j :: 0 <= i < j < |report| ==> report[i].date < report[j].date
    ensures forall k :: 0 <= k < |report| ==>
      report[k].solves == SolvesOn(solves, report[k].date) &&
      report[k].activeUsers == |UsersOn(solves, report[k].date)|
    ensures forall k :: 0 <= k < |report| ==> report[k].activeUsers <= report[k].solves
  {
    var stats := CountDays(start, today, solves);
    report := Table(stats, start, today - start + 1);
    forall k | 0 <= k < |report|
      ensures report[k].solves == SolvesOn(solves, report[k].date)
      ensures report[k].activeUsers == |UsersOn(solves, report[k].date)|
      ensures report[k].activeUsers <= report[k].solves
    {
      var d := start + k;
      assert report[k].date == d && d in stats;
      assert stats[d].users == UsersOn(solves, d);
      assert report[k].activeUsers == |stats[d].users|;
      ActiveAtMostSolves(solves, d);
    }
  }
}
