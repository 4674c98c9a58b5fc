/** The challenge and scoreboard data layer (src/lib/challenges.ts): rank
    lookup, the player-facing challenge mapping, hint serialisation for the
    add and update calls, the leaderboard summary, progress curves and the
    active-switch result. Database and RPC answers are parameters. */
module ChallengeStore {
  import opened Base
  import opened Strings
  import opened Sequences
  import Sorting
  import CL = ChallengeList
  import CF = ChallengeForm
  import D = Difficulty

  // ---------------------------------------------------------------------
  // getUserRank
  // ---------------------------------------------------------------------

  /** A leaderboard row as `getUserRank` reads it: the name and the scores
      of its progress points, in order. */
  datatype Standing = Standing(username: string, progress: seq<int>)

  /** The last progress score, or 0 without progress. */
  function FinalScore(e: Standing): int {
    if |e.progress| > 0 then e.progress[|e.progress| - 1] else 0
  }

  /** The leaderboard after the in-place sort by final score, highest first. */
  function Ranked(board: seq<Standing>): (r: seq<Standing>)
    ensures multiset(r) == multiset(board) && |r| == |board|
    ensures Sorting.SortedAll(r, Sorting.ByKeyDesc(FinalScore))
  {
    var le := Sorting.ByKeyDesc(FinalScore);
    var r := Sorting.Sort(board, le);
    Sorting.SortedAllPairs(r, le);
    r
  }

  /** `findIndex` of the first row with that name, -1 when there is none. */
  function IndexOf(s: seq<Standing>, name: string): (k: int)
    ensures -1 <= k < |s|
    ensures k >= 0 ==> s[k].username == name && forall j :: 0 <= j < k ==> s[j].username != name
    ensures k == -1 <==> forall j :: 0 <= j < |s| ==> s[j].username != name
  {
    if s == [] then -1
    else if s[0].username == name then 0
    else
      var k := IndexOf(s[1..], name);
      if k == -1 then -1 else k + 1
  }

  /** The 1-based position of the name in the ranked board, or None. */
  function UserRank(board: seq<Standing>, name: string): (r: Option<int>)
    ensures r.None? <==> forall e :: e in board ==> e.username != name
    ensures r.Some? ==> 1 <= r.value <= |board| && Ranked(board)[r.value - 1].username == name
    ensures r.Some? ==> forall j :: 0 <= j < r.value - 1 ==> Ranked(board)[j].username != name
  {
    var ranked := Ranked(board);
    var k := IndexOf(ranked, name);
    SameMembers(board, ranked);
    if k != -1 then Some(k + 1) else None
  }

  /** Everyone placed above the user has at least their final score, and
      everyone below has at most that. */
  lemma RankRespectsScores(board: seq<Standing>, name: string)
    requires UserRank(board, name).Some?
    ensures var k := UserRank(board, name).value; var ranked := Ranked(board);
      forall j :: 0 <= j < |ranked| ==>
        (j < k - 1 ==> FinalScore(ranked[j]) >= FinalScore(ranked[k - 1])) &&
        (j > k - 1 ==> FinalScore(ranked[j]) <= FinalScore(ranked[k - 1]))
  {
    var ranked := Ranked(board);
    var le := Sorting.ByKeyDesc(FinalScore);
    assert forall a, b :: le(a, b) <==> FinalScore(a) >= FinalScore(b);
  }

  // ---------------------------------------------------------------------
  // getChallenges
  // ---------------------------------------------------------------------

  /** Milliseconds in 24 hours. */
  const DAY_MS: int := 24 * 60 * 60 * 1000

  /** The columns of a challenge row that the mapping reads. */
  datatype ChallengeRow = ChallengeRow(id: string, createdAt: Option<int>, totalSolves: Option<int>)

  /** A row of `get_notifications`. */
  datatype Notification = Notification(notifType: string, challengeId: string)

  /** A challenge with the fields `getChallenges` adds. */
  datatype ChallengeView = ChallengeView(
    id: string, isSolved: bool, hasFirstBlood: bool, isRecentlyCreated: bool,
    isNew: bool, totalSolves: int)

  /** Some first-blood notification names the challenge. */
  predicate FirstBlooded(notifs: seq<Notification>, id: string) {
    exists n :: n in notifs && n.notifType == "first_blood" && n.challengeId == id
  }

  /** The ids of first-blood notifications (`fbIds`). */
  function FirstBloodIds(notifs: seq<Notification>): (r: set<string>)
    ensures forall id :: id in r <==> FirstBlooded(notifs, id)
  {
    set n | n in notifs && n.notifType == "first_blood" :: n.challengeId
  }

  /** One mapped challenge; a creation time that does not parse is never
      recent, and a challenge is new while it is recent or unblooded. */
  function View(ch: ChallengeRow, fb: set<string>, solved: set<string>, now: int): (r: ChallengeView)
    ensures r.id == ch.id && (r.isSolved <==> ch.id in solved) && (r.hasFirstBlood <==> ch.id in fb)
    ensures r.isNew <==> r.isRecentlyCreated || !r.hasFirstBlood
    ensures ch.createdAt.None? ==> !r.isRecentlyCreated
    ensures ch.totalSolves.None? ==> r.totalSolves == 0
  {
    var recent := ch.createdAt.Some? && now - ch.createdAt.value < DAY_MS;
    var blooded := ch.id in fb;
    ChallengeView(ch.id, ch.id in solved, blooded, recent, recent || !blooded, ch.totalSolves.GetOr(0))
  }

  function Views(rows: seq<ChallengeRow>, fb: set<string>, solved: set<string>, now: int): (r: seq<ChallengeView>)
    ensures |r| == |rows|
    ensures forall k :: 0 <= k < |rows| ==> r[k] == View(rows[k], fb, solved, now)
  {
    if rows == [] then [] else [View(rows[0], fb, solved, now)] + Views(rows[1..], fb, solved, now)
  }

  /** `getChallenges`: `rows` is None when the query fails or returns null;
      `solved` holds the challenge ids of the user's solves (empty without a
      user); `now` is `Date.now()`. */
  function GetChallenges(rows: Option<seq<ChallengeRow>>, notifs: seq<Notification>, solved: seq<string>, now: int)
    : (r: seq<ChallengeView>)
    ensures rows.None? ==> r == []
    ensures rows.Some? ==> |r| == |rows.value|
    ensures rows.Some? ==> forall k :: 0 <= k < |r| ==>
      var ch := rows.value[k];
      r[k].id == ch.id &&
      (r[k].isSolved <==> ch.id in solved) &&
      (r[k].hasFirstBlood <==> FirstBlooded(notifs, ch.id)) &&
      (r[k].isRecentlyCreated <==> ch.createdAt.Some? && now - ch.createdAt.value < DAY_MS) &&
      (r[k].isNew <==> r[k].isRecentlyCreated || !r[k].hasFirstBlood) &&
      r[k].totalSolves == (if ch.totalSolves.Some? then ch.totalSolves.value else 0)
  {
    if rows.None? then []
    else Views(rows.value, FirstBloodIds(notifs), (set s | s in solved), now)
  }

  /** The card's ribbon for a mapped challenge: the blood ribbon exactly
      when nobody has solved it first, "NEW CHALL" exactly when it has a
      first blood and was created in the last 24 hours. */
  lemma RibbonOfView(v: ChallengeView, fb: set<string>, solved: set<string>, now: int, ch: ChallengeRow)
    requires v == View(ch, fb, solved, now)
    ensures D.Ribbon(v.hasFirstBlood, v.isNew) == Some(D.BLOOD_RIBBON) <==> ch.id !in fb
    ensures D.Ribbon(v.hasFirstBlood, v.isNew) == Some(D.NEW_RIBBON) <==> ch.id in fb && v.isRecentlyCreated
    ensures D.Ribbon(v.hasFirstBlood, v.isNew).None? <==> ch.id in fb && !v.isRecentlyCreated
  {
  }

  // ---------------------------------------------------------------------
  // Hint serialisation in addChallenge / updateChallenge
  // ---------------------------------------------------------------------

  /** The `hint` argument: a list, a single text, or null/absent. */
  datatype HintValue = HintList(items: seq<string>) | HintText(text: string) | NoHint

  /** `hintValue`: a non-empty list as its JSON text, a non-blank text as the
      JSON text of a one-element list, anything else null. `stringify` is
      `JSON.stringify`. */
  function SerializeHint(h: HintValue, stringify: seq<string> -> string): (r: Option<string>)
    ensures r.None? <==> h.NoHint? || (h.HintList? && h.items == []) || (h.HintText? && IsBlank(h.text))
  {
    match h
    case HintList(items) => if |items| > 0 then Some(stringify(items)) else None
    case HintText(text) => if Trim(text) != "" then Some(stringify([text])) else None
    case NoHint => None
  }

  /** The stored hint, read back by the challenge list, is the list that was
      saved (a single text as a one-hint list); a null hint reads back as no
      hint. The requires says that `JSON.parse` undoes `JSON.stringify` on
      the list concerned. */
  lemma StoredHintReadsBack(h: HintValue, stringify: seq<string> -> string, parse: string -> Option<Json>)
    requires h.HintList? ==> parse(stringify(h.items)) == Some(CL.JsonList(h.items))
    requires h.HintText? ==> parse(stringify([h.text])) == Some(CL.JsonList([h.text]))
    ensures var r := SerializeHint(h, stringify);
      (r.None? ==> CL.NormalizeHint(JNull, parse) == []) &&
      (r.Some? && h.HintList? ==> CL.NormalizeHint(JStr(r.value), parse) == h.items) &&
      (r.Some? && h.HintText? ==> CL.NormalizeHint(JStr(r.value), parse) == [h.text])
  {
    var r := SerializeHint(h, stringify);
    if r.Some? {
      if h.HintList? {
        CL.HintListReadsBack(h.items, r.value, parse);
      } else if h.HintText? {
        CL.HintListReadsBack([h.text], r.value, parse);
      }
    }
  }

  /** The challenge data the admin page passes to the add and update calls;
      None stands for a field that is absent. */
  datatype ChallengeData = ChallengeData(
    title: string, description: string, category: string, points: int,
    maxPoints: Option<int>, flag: Option<string>, hint: HintValue,
    attachments: Option<seq<CF.FormAttachment>>, difficulty: string,
    isActive: Option<bool>, isDynamic: Option<bool>, minPoints: Option<int>,
    decayPerSolve: Option<int>)

  /** The RPC arguments of `add_challenge` / `update_challenge`; `isActive`
      None is an argument left undefined. */
  datatype RpcArgs = RpcArgs(
    title: string, description: string, category: string, points: int,
    maxPoints: Option<int>, flag: Option<string>, difficulty: string,
    hint: Option<string>, attachments: seq<CF.FormAttachment>,
    isActive: Option<bool>, isDynamic: bool, minPoints: int, decayPerSolve: int)

  /** The arguments both calls share: `?? null` for the maximum, `?? false`
      and `?? 0` for the dynamic settings, `|| []` for the attachments. */
  function CommonArgs(d: ChallengeData, stringify: seq<string> -> string, flag: Option<string>, isActive: Option<bool>)
    : (a: RpcArgs)
    ensures a.hint == SerializeHint(d.hint, stringify)
    ensures a.maxPoints == d.maxPoints && a.flag == flag && a.isActive == isActive
    ensures a.isDynamic <==> d.isDynamic == Some(true)
    ensures d.minPoints.None? ==> a.minPoints == 0
    ensures d.decayPerSolve.None? ==> a.decayPerSolve == 0
    ensures d.attachments.None? ==> a.attachments == []
  {
    RpcArgs(d.title, d.description, d.category, d.points, d.maxPoints, flag, d.difficulty,
      SerializeHint(d.hint, stringify), d.attachments.GetOr([]), isActive,
      d.isDynamic.GetOr(false), d.minPoints.GetOr(0), d.decayPerSolve.GetOr(0))
  }

  /** `addChallenge`: the flag is passed as given and `p_is_active` is not
      sent. */
  function AddArgs(d: ChallengeData, stringify: seq<string> -> string): (a: RpcArgs)
    ensures a.flag == d.flag && a.isActive.None?
  {
    CommonArgs(d, stringify, d.flag, None)
  }

  /** `updateChallenge`: an empty or absent flag is sent as null, so the
      call never carries an empty flag; the active state is passed through. */
  function UpdateArgs(d: ChallengeData, stringify: seq<string> -> string): (a: RpcArgs)
    ensures a.flag.None? <==> d.flag.None? || d.flag.value == ""
    ensures a.flag.Some? ==> a.flag == d.flag && a.flag.value != ""
    ensures a.isActive == d.isActive
  {
    CommonArgs(d, stringify, if d.flag.Some? && d.flag.value != "" then d.flag else None, d.isActive)
  }

  // ---------------------------------------------------------------------
  // getLeaderboardSummary
  // ---------------------------------------------------------------------

  /** A `get_leaderboard` row: `score` may be missing or not a number, and
      `progress` may be null. */
  datatype LeaderRow = LeaderRow(id: string, username: string, score: Json, progress: Option<seq<int>>, rank: Json)

  datatype SummaryRow = SummaryRow(id: string, username: string, score: int, rank: Json)

  /** The summary score of a row. */
  function SummaryScore(d: LeaderRow): (s: int)
    ensures d.score.JNum? ==> s == d.score.n
    ensures !d.score.JNum? ==> s == FinalScore(Standing(d.username, d.progress.GetOr([])))
  {
    if d.score.JNum? then d.score.n
    else if d.progress.Some? && |d.progress.value| > 0 then d.progress.value[|d.progress.value| - 1]
    else 0
  }

  /** `getLeaderboardSummary`: one summary per row, in order (`data || []`). */
  function Summary(data: Option<seq<LeaderRow>>): (r: seq<SummaryRow>)
    ensures data.None? ==> r == []
    ensures data.Some? ==> |r| == |data.value| && forall k :: 0 <= k < |r| ==>
      r[k] == SummaryRow(data.value[k].id, data.value[k].username, SummaryScore(data.value[k]), data.value[k].rank)
  {
    if data.None? then [] else SummaryRows(data.value)
  }

  function SummaryRows(rows: seq<LeaderRow>): (r: seq<SummaryRow>)
    ensures |r| == |rows|
    ensures forall k :: 0 <= k < |r| ==> r[k] == SummaryRow(rows[k].id, rows[k].username, SummaryScore(rows[k]), rows[k].rank)
  {
    if rows == [] then []
    else [SummaryRow(rows[0].id, rows[0].username, SummaryScore(rows[0]), rows[0].rank)] + SummaryRows(rows[1..])
  }

  // ---------------------------------------------------------------------
  // setChallengeActive
  // ---------------------------------------------------------------------

  /** How the `set_challenge_active` call ends: an error result, a thrown
      exception, or data whose `success` member (None when the data is null
      or has no such member) is given. */
  datatype ActiveReply = ActiveError | ActiveThrew | ActiveData(success: Option<Json>)

  function SetChallengeActive(reply: ActiveReply): (ok: bool)
    ensures ok <==> reply == ActiveData(Some(JBool(true)))
  {
    reply.ActiveData? && reply.success == Some(JBool(true))
  }

  // ---------------------------------------------------------------------
  // getTopProgress
  // ---------------------------------------------------------------------

  datatype User = User(id: string, username: string)

  /** A solve row with its challenge's points (None when null) and its user
      (None when the join found none). */
  datatype SolveRow = SolveRow(createdAt: string, points: Option<int>, user: Option<User>)

  datatype Point = Point(date: string, score: int)

  datatype Progress = Progress(username: string, history: seq<Point>)

  /** `row.challenges?.points || 0`. */
  function Gain(row: SolveRow): int {
    row.points.GetOr(0)
  }

  /** `history.at(-1)?.score || 0`. */
  function Top(history: seq<Point>): int {
    if history == [] then 0 else history[|history| - 1].score
  }

  /** The rows of one user, in row order. */
  function UserRows(rows: seq<SolveRow>, id: string): seq<SolveRow> {
    Filter(rows, (x: SolveRow) => x.user.Some? && x.user.value.id == id)
  }

  /** The cumulative curve of a user's rows: one point per row, dated by the
      row, each score the previous one plus the row's points. */
  function Curve(rs: seq<SolveRow>): (c: seq<Point>)
    ensures |c| == |rs|
  {
    if rs == [] then []
    else
      var prev := Curve(rs[..|rs| - 1]);
      prev + [Point(rs[|rs| - 1].createdAt, Top(prev) + Gain(rs[|rs| - 1]))]
  }

  /** The sum of the points of some rows. */
  function Total(rs: seq<SolveRow>): int {
    if rs == [] then 0 else Total(rs[..|rs| - 1]) + Gain(rs[|rs| - 1])
  }

  /** Each score of the curve is the total of the points solved so far. */
  lemma {:induction false} CurveTotals(rs: seq<SolveRow>)
    ensures forall k :: 0 <= k < |rs| ==> Curve(rs)[k].score == Total(rs[..k + 1])
    decreases |rs|
  {
    if rs != [] {
      var init := rs[..|rs| - 1];
      CurveTotals(init);
      forall k | 0 <= k < |rs| ensures Curve(rs)[k].score == Total(rs[..k + 1]) {
        if k < |rs| - 1 {
          assert Curve(rs)[k] == Curve(init)[k];
          assert init[..k + 1] == rs[..k + 1];
        } else {
          assert rs[..k + 1] == rs;
          assert rs[..k + 1][..k] == init;
          if init != [] {
            assert Top(Curve(init)) == Total(init[..|init|]);
            assert init[..|init|] == init;
          }
        }
      }
    }
  }

  /** With no negative points the curve never goes down. */
  lemma {:induction false} CurveNonDecreasing(rs: seq<SolveRow>)
    requires forall x :: x in rs ==> Gain(x) >= 0
    ensures forall i, j :: 0 <= i <= j < |rs| ==> Curve(rs)[i].score <= Curve(rs)[j].score
    decreases |rs|
  {
    if rs != [] {
      var init := rs[..|rs| - 1];
      CurveNonDecreasing(init);
      var c := Curve(rs);
      assert c[..|init|] == Curve(init);
      assert Gain(rs[|rs| - 1]) >= 0;
      forall i, j | 0 <= i <= j < |rs| ensures c[i].score <= c[j].score {
        if j == |rs| - 1 && i < j {
          assert c[i].score <= Top(Curve(init));
        }
      }
    }
  }

  /** What `progress[id]` holds after the loop, for a user with rows. */
  function ProgressOf(rows: seq<SolveRow>, id: string): (p: Progress)
    requires UserRows(rows, id) != []
  {
    var mine := UserRows(rows, id);
    assert mine[0] in mine;
    Progress(mine[0].user.value.username, Curve(mine))
  }

  /** The progress built from a prefix of the rows. */
  ghost predicate Built(rows: seq<SolveRow>, keys: seq<string>, progress: map<string, Progress>) {
    NoDups(keys) &&
    (forall id :: id in progress <==> id in keys) &&
    (forall id :: id in progress <==> UserRows(rows, id) != []) &&
    (forall id :: id in progress ==> progress[id] == ProgressOf(rows, id))
  }

  lemma UserRowsSnoc(rows: seq<SolveRow>, row: SolveRow, id: string)
    ensures UserRows(rows + [row], id) ==
      UserRows(rows, id) + (if row.user.Some? && row.user.value.id == id then [row] else [])
  {
    FilterAppend(rows, [row], (x: SolveRow) => x.user.Some? && x.user.value.id == id);
  }

  lemma CurveSnoc(rs: seq<SolveRow>, row: SolveRow)
    ensures Curve(rs + [row]) == Curve(rs) + [Point(row.createdAt, Top(Curve(rs)) + Gain(row))]
  {
    assert (rs + [row])[..|rs|] == rs;
  }

  /** The entry after one row of user `u`: the existing entry, or a fresh
      one named by the row, with the row's point appended. */
  function Extended(progress: map<string, Progress>, row: SolveRow): Progress
    requires row.user.Some?
  {
    var id := row.user.value.id;
    var entry := if id in progress then progress[id] else Progress(row.user.value.username, []);
    Progress(entry.username, entry.history + [Point(row.createdAt, Top(entry.history) + Gain(row))])
  }

  /** A row without a user changes nothing. */
  lemma BuiltSkip(rows: seq<SolveRow>, row: SolveRow, keys: seq<string>, progress: map<string, Progress>)
    requires Built(rows, keys, progress) && row.user.None?
    ensures Built(rows + [row], keys, progress)
  {
    forall id ensures UserRows(rows + [row], id) == UserRows(rows, id) {
      UserRowsSnoc(rows, row, id);
    }
  }

  /** The entry of the row's user after the row. */
  lemma ExtendedIsProgress(rows: seq<SolveRow>, row: SolveRow, progress: map<string, Progress>)
    requires row.user.Some?
    requires row.user.value.id in progress <==> UserRows(rows, row.user.value.id) != []
    requires row.user.value.id in progress ==> progress[row.user.value.id] == ProgressOf(rows, row.user.value.id)
    ensures UserRows(rows + [row], row.user.value.id) != []
    ensures Extended(progress, row) == ProgressOf(rows + [row], row.user.value.id)
  {
    var u := row.user.value.id;
    UserRowsSnoc(rows, row, u);
    var before := UserRows(rows, u);
    CurveSnoc(before, row);
    if u !in progress {
      FirstRow(before, row, Extended(progress, row));
    } else {
      var entry := progress[u];
      assert before[0] in before;
      assert entry == Progress(before[0].user.value.username, Curve(before));
      LaterRow(before, row, entry, Extended(progress, row));
    }
  }

  /** The first row of a user starts their entry. */
  lemma FirstRow(before: seq<SolveRow>, row: SolveRow, e: Progress)
    requires row.user.Some? && before == []
    requires e == Progress(row.user.value.username, [] + [Point(row.createdAt, Top([]) + Gain(row))])
    ensures var after := before + [row]; e == Progress(after[0].user.value.username, Curve(after))
  {
    assert before + [row] == [row];
    assert Curve([row]) == Curve([]) + [Point(row.createdAt, Top(Curve([])) + Gain(row))] by {
      assert [row][..0] == [];
    }
  }

  /** A later row appends one point to the existing entry. */
  lemma LaterRow(before: seq<SolveRow>, row: SolveRow, entry: Progress, e: Progress)
    requires before != [] && before[0].user.Some?
    requires entry == Progress(before[0].user.value.username, Curve(before))
    requires e == Progress(entry.username, entry.history + [Point(row.createdAt, Top(entry.history) + Gain(row))])
    requires Curve(before + [row]) == Curve(before) + [Point(row.createdAt, Top(Curve(before)) + Gain(row))]
    ensures var after := before + [row]; after[0].user.Some? && e == Progress(after[0].user.value.username, Curve(after))
  {
    assert (before + [row])[0] == before[0];
  }

  /** A row with a user extends that user's entry and no other. */
  lemma BuiltExtend(rows: seq<SolveRow>, row: SolveRow, keys: seq<string>, progress: map<string, Progress>)
    requires Built(rows, keys, progress) && row.user.Some?
    ensures var u := row.user.value.id;
      Built(rows + [row], if u in progress then keys else keys + [u], progress[u := Extended(progress, row)])
  {
    var u := row.user.value.id;
    var keys' := if u in progress then keys else keys + [u];
    var progress' := progress[u := Extended(progress, row)];
    ExtendedIsProgress(rows, row, progress);
    if u !in progress {
      assert u !in keys;
      assert NoDups(keys') by {
        forall i, j | 0 <= i < j < |keys'| ensures keys'[i] != keys'[j] {
          if j == |keys| { assert keys'[i] in keys; }
        }
      }
    }
    forall id ensures id in progress' <==> UserRows(rows + [row], id) != [] {
      if id != u {
        UserRowsSnoc(rows, row, id);
      }
    }
    forall id | id in progress' ensures progress'[id] == ProgressOf(rows + [row], id) {
      if id != u {
        UserRowsSnoc(rows, row, id);
        assert id in progress && progress'[id] == progress[id];
        assert UserRows(rows + [row], id) == UserRows(rows, id);
      }
    }
  }

  /** One row's effect on the entry order and the entries. */
  function Step(keys: seq<string>, progress: map<string, Progress>, row: SolveRow): (seq<string>, map<string, Progress>) {
    if row.user.None? then (keys, progress)
    else
      var id := row.user.value.id;
      (if id in progress then keys else keys + [id], progress[id := Extended(progress, row)])
  }

  /** The entry order and entries after the given rows, row by row. */
  function Replay(rows: seq<SolveRow>): (seq<string>, map<string, Progress>) {
    if rows == [] then ([], map[])
    else
      var st := Replay(rows[..|rows| - 1]);
      Step(st.0, st.1, rows[|rows| - 1])
  }

  /** Replaying the rows builds, for each user with rows, their first name
      and their cumulative curve, and lists each such user once. */
  lemma {:induction false} ReplayBuilds(rows: seq<SolveRow>)
    ensures Built(rows, Replay(rows).0, Replay(rows).1)
    decreases |rows|
  {
    if rows != [] {
      var init := rows[..|rows| - 1];
      var row := rows[|rows| - 1];
      ReplayBuilds(init);
      var st := Replay(init);
      assert init + [row] == rows;
      if row.user.None? {
        BuiltSkip(init, row, st.0, st.1);
      } else {
        BuiltExtend(init, row, st.0, st.1);
      }
    }
  }

  /** `getTopProgress` after its query: one entry per user with rows, named
      by the user's first row, holding that user's cumulative curve. `keys`
      is the insertion order of the entries. */
  method TopProgress(rows: seq<SolveRow>) returns (keys: seq<string>, progress: map<string, Progress>)
    ensures (keys, progress) == Replay(rows)
    ensures NoDups(keys) && forall id :: id in progress <==> id in keys
    ensures forall id :: id in progress <==> UserRows(rows, id) != []
    ensures forall id :: id in progress ==> progress[id] == ProgressOf(rows, id)
  {
    keys, progress := [], map[];
    var i := 0;
    while i < |rows|
      invariant 0 <= i <= |rows|
      invariant (keys, progress) == Replay(rows[..i])
    {
      var row := rows[i];
      assert rows[..i + 1][..i] == rows[..i];
      if row.user.Some? {
        var id := row.user.value.id;
        var entry := if id in progress then progress[id] else Progress(row.user.value.username, []);
        if id !in progress {
          keys := keys + [id];
        }
        var prev := Top(entry.history);
        progress := progress[id := Progress(entry.username, entry.history + [Point(row.createdAt, prev + Gain(row))])];
      }
      i := i + 1;
    }
    assert rows[..i] == rows;
    ReplayBuilds(rows);
  }

  /** A user has an entry exactly when some row belongs to them. */
  lemma HasRows(rows: seq<SolveRow>, id: string)
    ensures UserRows(rows, id) != [] <==> exists x :: x in rows && x.user.Some? && x.user.value.id == id
  {
    if UserRows(rows, id) != [] {
      assert UserRows(rows, id)[0] in UserRows(rows, id);
    }
  }

  /** A user's history lists every one of their rows, and with no negative
      points its scores never decrease. */
  lemma ProgressShape(rows: seq<SolveRow>, id: string)
    requires UserRows(rows, id) != []
    requires forall x :: x in rows ==> Gain(x) >= 0
    ensures |ProgressOf(rows, id).history| == |UserRows(rows, id)|
    ensures var h := ProgressOf(rows, id).history;
      forall i, j :: 0 <= i <= j < |h| ==> h[i].score <= h[j].score
  {
    CurveNonDecreasing(UserRows(rows, id));
  }

  // ---------------------------------------------------------------------
  // getTopProgressByUsernames
  // ---------------------------------------------------------------------

  /** `idToUsername` as the `.map` callback fills it: a later user with the
      same id overwrites an earlier one. */
  function NameMap(users: seq<User>): (m: map<string, string>)
    ensures forall id :: id in m <==> exists u :: u in users && u.id == id
  {
    if users == [] then map[]
    else
      var m := NameMap(users[..|users| - 1]);
      assert forall u :: u in users <==> u in users[..|users| - 1] || u == users[|users| - 1];
      m[users[|users| - 1].id := users[|users| - 1].username]
  }

  /** The user ids `ids` resolve to, by their first user: `uname` is a
      non-empty name of a progress entry the result lists under it. */
  ghost predicate Rekeyed(keys: seq<string>, names: map<string, string>, progress: map<string, Progress>,
                          result: map<string, Progress>) {
    (forall id :: id in keys && id in names && names[id] != "" && id in progress ==> names[id] in result) &&
    (forall uname :: uname in result ==>
       exists id :: (id in keys && id in names && names[id] == uname && uname != "" &&
                     id in progress && result[uname] == progress[id]))
  }

  /** `getTopProgressByUsernames`: None when an error is thrown. `users` is
      the user lookup's rows, None when it fails; `solves` is what
      `getTopProgress` reads for the resolved ids, None when that query
      fails. */
  method TopProgressByUsernames(usernames: seq<string>, users: Option<seq<User>>, solves: Option<seq<SolveRow>>)
    returns (r: Option<map<string, Progress>>)
    ensures usernames == [] ==> r == Some(map[])
    ensures usernames != [] && users.None? ==> r.None?
    ensures usernames != [] && users == Some([]) ==> r == Some(map[])
    // the solves query is made only for a non-empty lookup, and its error is thrown
    ensures r.None? <==> usernames != [] && (users.None? || (users.value != [] && solves.None?))
    ensures r.Some? && usernames != [] && users.Some? && users.value != [] ==>
      var names := NameMap(users.value);
      var rows := solves.value;
      (forall id :: id in names && names[id] != "" && UserRows(rows, id) != [] ==> names[id] in r.value) &&
      (forall uname :: uname in r.value ==>
         exists id :: (id in names && names[id] == uname && uname != "" &&
                       UserRows(rows, id) != [] && r.value[uname] == ProgressOf(rows, id)))
  {
    if |usernames| == 0 {
      return Some(map[]);
    }
    if users.None? {
      return None;
    }
    var us := users.value;
    var names: map<string, string> := map[];
    var ids: seq<string> := [];
    var i := 0;
    while i < |us|
      invariant 0 <= i <= |us|
      invariant names == NameMap(us[..i])
      invariant |ids| == i
    {
      assert us[..i + 1][..i] == us[..i];
      names := names[us[i].id := us[i].username];
      ids := ids + [us[i].id];
      i := i + 1;
    }
    assert us[..i] == us;
    if |ids| == 0 {
      return Some(map[]);
    }
    if solves.None? {
      return None;
    }
    var rows := solves.value;
    var keys, progress := TopProgress(rows);
    var result: map<string, Progress> := map[];
    var j := 0;
    while j < |keys|
      invariant 0 <= j <= |keys|
      invariant Rekeyed(keys[..j], names, progress, result)
    {
      var id := keys[j];
      assert keys[..j + 1] == keys[..j] + [id];
      var result0 := result;
      if id in names && names[id] != "" {
        var entry := progress[id];
        result := result[names[id] := Progress(entry.username, entry.history)];
      }
      RekeyStep(keys[..j], id, names, progress, result0, result);
      j := j + 1;
    }
    assert keys[..j] == keys;
    RekeyedMeans(keys, names, progress, result, rows);
    return Some(result);
  }

  lemma RekeyStep(keys: seq<string>, id: string, names: map<string, string>, progress: map<string, Progress>,
                  result: map<string, Progress>, result': map<string, Progress>)
    requires Rekeyed(keys, names, progress, result) && id in progress
    requires result' == if id in names && names[id] != "" then result[names[id] := progress[id]] else result
    ensures Rekeyed(keys + [id], names, progress, result')
  {
    forall uname | uname in result'
      ensures exists id' :: (id' in keys + [id] && id' in names && names[id'] == uname && uname != "" &&
                             id' in progress && result'[uname] == progress[id'])
    {
      if id in names && names[id] != "" && uname == names[id] {
        assert id in keys + [id];
      } else {
        var id' :| id' in keys && id' in names && names[id'] == uname && uname != "" &&
                   id' in progress && result[uname] == progress[id'];
        assert id' in keys + [id];
      }
    }
  }

  lemma RekeyedMeans(keys: seq<string>, names: map<string, string>, progress: map<string, Progress>,
                     result: map<string, Progress>, rows: seq<SolveRow>)
    requires Rekeyed(keys, names, progress, result)
    requires forall id :: id in progress <==> id in keys
    requires forall id :: id in progress <==> UserRows(rows, id) != []
    requires forall id :: id in progress ==> progress[id] == ProgressOf(rows, id)
    ensures forall id :: id in names && names[id] != "" && UserRows(rows, id) != [] ==> names[id] in result
    ensures forall uname :: uname in result ==>
      exists id :: (id in names && names[id] == uname && uname != "" &&
                    UserRows(rows, id) != [] && result[uname] == ProgressOf(rows, id))
  {
    forall uname | uname in result
      ensures exists id :: (id in names && names[id] == uname && uname != "" &&
                            UserRows(rows, id) != [] && result[uname] == ProgressOf(rows, id))
    {
      var id :| id in keys && id in names && names[id] == uname && uname != "" &&
                id in progress && result[uname] == progress[id];
    }
  }
}
