/** The first-blood relay bot (discord-bot/bot.py), part one: turning the
    notification feed into solve records and reconciling them with the
    ledger file that survives restarts. */
module BotFeed {
  import opened Base
  import opened Strings
  import opened Sequences
  import Sorting

  /** One item of the `get_notifications` response; a missing or null field is None. */
  datatype Notification = Notification(
    notifType: Option<string>,
    username: Option<string>,
    challengeTitle: Option<string>,
    category: Option<string>,
    notifCreatedAt: Option<string>,
    createdAt: Option<string>)

  /** A first-blood solve as stored in the ledger file. */
  datatype Solve = Solve(id: string, user: string, challenge: string, category: string, time: string)

  /** What the bot takes from outside: ISO-8601 parsing to an instant in
      microseconds (None when the text is rejected) and SHA-256 as hex text.
      The one parser stands for both `datetime.fromisoformat` and
      `dateutil.parser.isoparse`, and an instant carries no offset kind. */
  datatype Env = Env(parseIso: string -> Option<int>, sha256: string -> string)

  const FIRST_BLOOD_TYPES: seq<string> := ["first_blood", "firstblood", "first-blood", "first"]
  const UNKNOWN: string := "<unknown>"
  /** The ledger keeps this many solves. */
  const LEDGER_SIZE: nat := 100

  /** Python's `value or fallback` on an optional string. */
  function OrElse(v: Option<string>, fallback: string): (r: string)
    ensures r == fallback || (v.Some? && r == v.value && r != "")
  {
    if v.Some? && v.value != "" then v.value else fallback
  }

  /** Python's f-string rendering of an optional string: `None` prints as "None". */
  function Rendered(v: Option<string>): string {
    if v.Some? then v.value else "None"
  }

  /** `notif_created_at or created_at or ""`. */
  function TimeText(n: Notification): string {
    OrElse(n.notifCreatedAt, OrElse(n.createdAt, ""))
  }

  predicate IsFirstBloodType(n: Notification) {
    Lower(OrElse(n.notifType, "")) in FIRST_BLOOD_TYPES
  }

  /** The notifications the fetch keeps: first-blood types with a time the parser accepts. */
  predicate Accepted(env: Env, n: Notification) {
    IsFirstBloodType(n) && TimeText(n) != "" && env.parseIso(TimeText(n)).Some?
  }

  /** The hashed key of a notification, built from its raw fields. */
  function RawKey(n: Notification): string {
    Rendered(n.username) + "|" + Rendered(n.challengeTitle) + "|" + TimeText(n)
  }

  function ToSolve(env: Env, n: Notification): Solve {
    Solve(env.sha256(RawKey(n)),
          OrElse(n.username, UNKNOWN),
          OrElse(n.challengeTitle, UNKNOWN),
          OrElse(n.category, UNKNOWN),
          TimeText(n))
  }

  function FetchItems(env: Env, items: seq<Notification>): (r: seq<Solve>)
    ensures |r| <= |items|
    ensures forall s :: s in r ==> exists n :: n in items && Accepted(env, n) && s == ToSolve(env, n)
    ensures forall n :: n in items && Accepted(env, n) ==> ToSolve(env, n) in r
  {
    if items == [] then []
    else
      var rest := FetchItems(env, items[1..]);
      assert forall n :: n in items ==> n == items[0] || n in items[1..];
      if Accepted(env, items[0]) then [ToSolve(env, items[0])] + rest else rest
  }

  /** `fetch_firstbloods`: `response` is None when the request or its
      decoding failed, in which case the result is empty. */
  function Fetch(env: Env, response: Option<seq<Notification>>): (r: seq<Solve>)
    ensures response.None? ==> r == []
    ensures forall s :: s in r ==>
      s.user != "" && s.challenge != "" && s.category != "" && s.time != "" && env.parseIso(s.time).Some?
    ensures forall s :: s in r ==> exists n :: n in response.value && Accepted(env, n) && s == ToSolve(env, n)
    ensures response.Some? ==> forall n :: n in response.value && Accepted(env, n) ==> ToSolve(env, n) in r
  {
    if response.None? then [] else FetchItems(env, response.value)
  }

  /** The text `post_latest` hashes to recognise an announced solve: the
      normalised fields, where the ledger id hashes the raw ones. */
  function MarkerKey(s: Solve): string {
    s.user + "|" + s.challenge + "|" + s.time
  }

  function Marker(env: Env, s: Solve): string {
    env.sha256(MarkerKey(s))
  }

  /** When the user name and the challenge title are present and non-empty,
      the marker of a fetched solve is its ledger id. */
  lemma MarkerIsIdWhenNamed(env: Env, n: Notification)
    requires n.username.Some? && n.username.value != ""
    requires n.challengeTitle.Some? && n.challengeTitle.value != ""
    ensures Marker(env, ToSolve(env, n)) == ToSolve(env, n).id
  {
    assert MarkerKey(ToSolve(env, n)) == RawKey(n);
  }

  /** Without a user name the two hashed texts differ ("None" or "" against
      "<unknown>"), so for a collision-free hash the marker is not the id. */
  lemma MarkerKeyDiffersWhenUnnamed(env: Env, n: Notification)
    requires n.username.None? || n.username == Some("")
    ensures MarkerKey(ToSolve(env, n)) != RawKey(n)
  {
    var m := MarkerKey(ToSolve(env, n));
    var k := RawKey(n);
    assert m[0] == '<';
    if n.username.None? {
      assert k[0] == 'N';
    } else {
      assert k[0] == '|';
    }
  }

  // ---------------------------------------------------------------------
  // Reconciling the ledger
  // ---------------------------------------------------------------------

  function Ids(s: seq<Solve>): (r: seq<string>)
    ensures |r| == |s|
    ensures forall i :: 0 <= i < |s| ==> r[i] == s[i].id
  {
    if s == [] then [] else [s[0].id] + Ids(s[1..])
  }

  lemma IdsAppend(a: seq<Solve>, b: seq<Solve>)
    ensures Ids(a + b) == Ids(a) + Ids(b)
  {
  }

  lemma IdIn(s: seq<Solve>, x: Solve)
    requires x in s
    ensures x.id in Ids(s)
  {
    var i :| 0 <= i < |s| && s[i] == x;
    assert Ids(s)[i] == x.id;
  }

  /** The last element of `s` with the given id. */
  function LastWith(s: seq<Solve>, id: string): (r: Option<Solve>)
    ensures r.Some? <==> id in Ids(s)
    ensures r.Some? ==> r.value in s && r.value.id == id
  {
    if s == [] then None
    else if s[|s| - 1].id == id then Some(s[|s| - 1])
    else
      assert s == s[..|s| - 1] + [s[|s| - 1]];
      IdsAppend(s[..|s| - 1], [s[|s| - 1]]);
      LastWith(s[..|s| - 1], id)
  }

  lemma LastWithSnoc(s: seq<Solve>, x: Solve, id: string)
    ensures LastWith(s + [x], id) == if x.id == id then Some(x) else LastWith(s, id)
  {
    assert (s + [x])[..|s|] == s;
  }

  lemma {:induction false} LastWithAppend(a: seq<Solve>, b: seq<Solve>, id: string)
    ensures LastWith(a + b, id) == if id in Ids(b) then LastWith(b, id) else LastWith(a, id)
    decreases |b|
  {
    if b == [] {
      assert a + b == a;
    } else {
      var init, last := b[..|b| - 1], b[|b| - 1];
      assert b == init + [last];
      assert a + b == (a + init) + [last];
      LastWithSnoc(a + init, last, id);
      LastWithSnoc(init, last, id);
      IdsAppend(init, [last]);
      if last.id != id {
        LastWithAppend(a, init, id);
      }
    }
  }

  lemma {:induction false} LastWithUnique(s: seq<Solve>, x: Solve)
    requires NoDups(Ids(s))
    requires x in s
    ensures LastWith(s, x.id) == Some(x)
    decreases |s|
  {
    var last := s[|s| - 1];
    var init := s[..|s| - 1];
    if last != x {
      assert x in init;
      assert Ids(init) == Ids(s)[..|s| - 1];
      LastWithUnique(init, x);
    }
  }

  /** Puts `s` in the place of the entry with the same id, or appends it:
      `s` is then held and the list grows by at most one. */
  function Upsert(acc: seq<Solve>, s: Solve): (r: seq<Solve>)
    ensures s in r
    ensures |r| == |acc| || |r| == |acc| + 1
  {
    if acc == [] then [s]
    else if acc[0].id == s.id then [s] + acc[1..]
    else [acc[0]] + Upsert(acc[1..], s)
  }

  lemma {:induction false} UpsertIds(acc: seq<Solve>, s: Solve)
    ensures Ids(Upsert(acc, s)) == if s.id in Ids(acc) then Ids(acc) else Ids(acc) + [s.id]
  {
    if acc != [] {
      var tail := acc[1..];
      assert Ids(acc) == [acc[0].id] + Ids(tail);
      if acc[0].id == s.id {
        assert ([s] + tail)[1..] == tail;
        assert Ids(Upsert(acc, s)) == [s.id] + Ids(tail);
      } else {
        var u := Upsert(tail, s);
        assert ([acc[0]] + u)[1..] == u;
        assert Ids(Upsert(acc, s)) == [acc[0].id] + Ids(u);
        assert s.id in Ids(acc) <==> s.id in Ids(tail);
        UpsertIds(tail, s);
        if s.id !in Ids(tail) {
          assert [acc[0].id] + (Ids(tail) + [s.id]) == Ids(acc) + [s.id];
        }
      }
    }
  }

  lemma {:induction false} UpsertMembers(acc: seq<Solve>, s: Solve, x: Solve)
    requires NoDups(Ids(acc))
    ensures x in Upsert(acc, s) <==> x == s || (x in acc && x.id != s.id)
  {
    if acc != [] {
      var tail := acc[1..];
      assert Ids(tail) == Ids(acc)[1..];
      assert x in acc <==> x == acc[0] || x in tail;
      if acc[0].id == s.id {
        if x in tail {
          var i :| 0 <= i < |tail| && tail[i] == x;
          assert Ids(acc)[i + 1] == x.id;
        }
      } else {
        UpsertMembers(tail, s, x);
      }
    }
  }

  /** `{s["id"]: s for s in solves}` read back in insertion order: one entry
      per id, at the place the id first appeared, holding its last value. */
  function Merge(xs: seq<Solve>): (r: seq<Solve>)
    ensures NoDups(Ids(r))
  {
    if xs == [] then []
    else
      var acc := Merge(xs[..|xs| - 1]);
      UpsertIds(acc, xs[|xs| - 1]);
      Upsert(acc, xs[|xs| - 1])
  }

  /** The merged ledger has exactly the ids of its input, and for each the
      value that came last, so a fetched copy replaces a stored one. */
  lemma {:induction false} MergeContents(xs: seq<Solve>)
    ensures forall id :: id in Ids(Merge(xs)) <==> id in Ids(xs)
    ensures forall x :: x in Merge(xs) <==> LastWith(xs, x.id) == Some(x)
    decreases |xs|
  {
    if xs != [] {
      var init := xs[..|xs| - 1];
      var s := xs[|xs| - 1];
      assert xs == init + [s];
      assert Merge(xs) == Upsert(Merge(init), s);
      MergeContents(init);
      MergeStep(init, s, Merge(init), Merge(xs), xs);
    } else {
      MergeEmpty(xs);
    }
  }

  /** Nothing merged: no solves, no ids. */
  lemma MergeEmpty(xs: seq<Solve>)
    requires xs == []
    ensures forall id :: id in Ids(Merge(xs)) <==> id in Ids(xs)
    ensures forall x :: x in Merge(xs) <==> LastWith(xs, x.id) == Some(x)
  {
    assert Merge(xs) == [] && Ids(xs) == [];
  }

  /** One more solve merged: the merge invariant carries over. */
  lemma MergeStep(init: seq<Solve>, s: Solve, acc: seq<Solve>, m: seq<Solve>, xs: seq<Solve>)
    requires NoDups(Ids(acc))
    requires forall id :: id in Ids(acc) <==> id in Ids(init)
    requires forall y :: y in acc <==> LastWith(init, y.id) == Some(y)
    requires xs == init + [s] && m == Upsert(acc, s)
    ensures forall id :: id in Ids(m) <==> id in Ids(xs)
    ensures forall x :: x in m <==> LastWith(xs, x.id) == Some(x)
  {
    UpsertIds(acc, s);
    IdsAppend(init, [s]);
    forall x ensures x in m <==> LastWith(xs, x.id) == Some(x) {
      MergeMemberStep(init, s, acc, x);
    }
  }

  lemma MergeMemberStep(init: seq<Solve>, s: Solve, acc: seq<Solve>, x: Solve)
    requires NoDups(Ids(acc))
    requires forall y :: y in acc <==> LastWith(init, y.id) == Some(y)
    ensures x in Upsert(acc, s) <==> LastWith(init + [s], x.id) == Some(x)
  {
    LastWithAppend(init, [s], x.id);
    UpsertMembers(acc, s, x);
  }

  function TimeOf(env: Env, s: Solve): int {
    env.parseIso(s.time).GetOr(0)
  }

  /** Ascending by parsed time: the `key=` of the ledger's sort. */
  function ByTime(env: Env): (le: (Solve, Solve) -> bool)
    ensures Sorting.Total(le) && Sorting.Transitive(le)
    ensures forall a, b :: le(a, b) <==> TimeOf(env, a) <= TimeOf(env, b)
  {
    Sorting.ByKey((s: Solve) => TimeOf(env, s))
  }

  predicate AllParse(env: Env, s: seq<Solve>) {
    forall x :: x in s ==> env.parseIso(x.time).Some?
  }

  datatype Reconciled = Reconciled(ledger: seq<Solve>, reported: seq<Solve>)

  /** One cycle's bookkeeping in `poll_loop`: merge the stored ledger with the
      fetched solves, sort by time, keep the latest 100, and report the kept
      solves whose id the stored ledger did not have. None when the parser
      rejects some time, where the Python sort raises; the sort's error on
      mixed offset-naive and offset-aware times is not modelled. */
  function Reconcile(env: Env, stored: seq<Solve>, fetched: seq<Solve>): (r: Option<Reconciled>)
    ensures r.None? <==> !AllParse(env, Merge(stored + fetched))
  {
    var merged := Merge(stored + fetched);
    if AllParse(env, merged) then
      var ledger := Last(Sorting.Sort(merged, ByTime(env)), LEDGER_SIZE);
      var storedIds := IdSet(stored);
      Some(Reconciled(ledger, Filter(ledger, (s: Solve) => s.id !in storedIds)))
    else None
  }

  /** Python's `{s["id"] for s in solves}`. */
  function IdSet(s: seq<Solve>): (r: set<string>)
    ensures forall id :: id in r <==> id in Ids(s)
  {
    forall id | id in Ids(s) ensures id in set x | x in s :: x.id {
      var i :| 0 <= i < |s| && Ids(s)[i] == id;
      assert s[i] in s;
    }
    set x | x in s :: x.id
  }

  predicate OneValuePerId(s: seq<Solve>) {
    forall x, y :: x in s && y in s && x.id == y.id ==> x == y
  }

  lemma DistinctIds(s: seq<Solve>)
    ensures NoDups(Ids(s)) <==> NoDups(s) && OneValuePerId(s)
  {
    if NoDups(Ids(s)) {
      DistinctIdsForward(s);
    }
    if NoDups(s) && OneValuePerId(s) {
      DistinctIdsBackward(s);
    }
  }

  lemma DistinctIdsForward(s: seq<Solve>)
    requires NoDups(Ids(s))
    ensures NoDups(s) && OneValuePerId(s)
  {
    var ids := Ids(s);
    forall x, y | x in s && y in s && x.id == y.id ensures x == y {
      var i :| 0 <= i < |s| && s[i] == x;
      var j :| 0 <= j < |s| && s[j] == y;
      assert ids[i] == ids[j];
    }
    forall i, j | 0 <= i < j < |s| ensures s[i] != s[j] {
      assert ids[i] != ids[j];
    }
  }

  lemma DistinctIdsBackward(s: seq<Solve>)
    requires NoDups(s) && OneValuePerId(s)
    ensures NoDups(Ids(s))
  {
    var ids := Ids(s);
    forall i, j | 0 <= i < j < |ids| ensures ids[i] != ids[j] {
      assert s[i] in s && s[j] in s && s[i] != s[j];
    }
  }

  /** Time order between every pair of positions. */
  predicate Chronological(env: Env, s: seq<Solve>) {
    forall i, j :: 0 <= i < j < |s| ==> TimeOf(env, s[i]) <= TimeOf(env, s[j])
  }

  lemma ChronologicalSort(env: Env, merged: seq<Solve>)
    ensures Chronological(env, Sorting.Sort(merged, ByTime(env)))
  {
    var le := ByTime(env);
    var sorted := Sorting.Sort(merged, le);
    Sorting.SortedAllPairs(sorted, le);
    forall i, j | 0 <= i < j < |sorted| ensures TimeOf(env, sorted[i]) <= TimeOf(env, sorted[j]) {
      assert le(sorted[i], sorted[j]);
    }
  }

  lemma SortedByTime(env: Env, merged: seq<Solve>) returns (sorted: seq<Solve>)
    requires NoDups(Ids(merged))
    ensures sorted == Sorting.Sort(merged, ByTime(env))
    ensures Chronological(env, sorted)
    ensures NoDups(Ids(sorted))
    ensures forall x :: x in sorted <==> x in merged
  {
    sorted := Sorting.Sort(merged, ByTime(env));
    ChronologicalSort(env, merged);
    DistinctIds(merged);
    NoDupsPermutation(merged, sorted);
    SameMembers(merged, sorted);
    assert OneValuePerId(sorted) by {
      forall x, y | x in sorted && y in sorted && x.id == y.id ensures x == y {
        assert x in merged && y in merged;
      }
    }
    DistinctIds(sorted);
  }

  lemma SuffixFacts(env: Env, sorted: seq<Solve>, k: nat)
    requires k <= |sorted|
    requires Chronological(env, sorted) && NoDups(Ids(sorted))
    ensures Chronological(env, sorted[k..]) && NoDups(Ids(sorted[k..]))
  {
    SuffixChronological(env, sorted, k);
    SuffixDistinct(sorted, k);
  }

  lemma SuffixChronological(env: Env, sorted: seq<Solve>, k: nat)
    requires k <= |sorted|
    requires Chronological(env, sorted)
    ensures Chronological(env, sorted[k..])
  {
    var l := sorted[k..];
    forall i, j | 0 <= i < j < |l| ensures TimeOf(env, l[i]) <= TimeOf(env, l[j]) {
      assert l[i] == sorted[k + i] && l[j] == sorted[k + j];
    }
  }

  lemma SuffixDistinct(sorted: seq<Solve>, k: nat)
    requires k <= |sorted|
    requires NoDups(Ids(sorted))
    ensures NoDups(Ids(sorted[k..]))
  {
    IdsDrop(sorted, k);
    NoDupsDrop(Ids(sorted), k);
  }

  lemma IdsDrop(s: seq<Solve>, k: nat)
    requires k <= |s|
    ensures Ids(s[k..]) == Ids(s)[k..]
  {
    var a, b := Ids(s[k..]), Ids(s)[k..];
    forall i | 0 <= i < |a| ensures a[i] == b[i] {
      assert a[i] == s[k + i].id;
    }
  }

  lemma DroppedBeforeKept(env: Env, sorted: seq<Solve>, k: nat, x: Solve, y: Solve)
    requires k <= |sorted|
    requires Chronological(env, sorted)
    requires x in sorted && x !in sorted[k..] && y in sorted[k..]
    ensures TimeOf(env, x) <= TimeOf(env, y)
  {
    var l := sorted[k..];
    var i :| 0 <= i < |sorted| && sorted[i] == x;
    var j :| 0 <= j < |l| && l[j] == y;
    assert sorted[k + j] == y;
    forall m | k <= m < |sorted| ensures sorted[m] in l {
      assert l[m - k] == sorted[m];
    }
    assert i < k;
  }

  /** The ledger is the latest 100 of the time-sorted merge. */
  lemma LedgerIsLatest(env: Env, stored: seq<Solve>, fetched: seq<Solve>) returns (sorted: seq<Solve>)
    requires Reconcile(env, stored, fetched).Some?
    ensures Reconcile(env, stored, fetched).value.ledger == Last(sorted, LEDGER_SIZE)
    ensures Chronological(env, sorted) && NoDups(Ids(sorted))
    ensures forall x :: x in sorted <==> x in Merge(stored + fetched)
    ensures |sorted| == |Merge(stored + fetched)|
  {
    sorted := SortedByTime(env, Merge(stored + fetched));
  }

  /** The ledger a cycle saves: at most 100 solves, one per id, oldest first,
      each the last copy seen of its id, and no solve it drops later than one
      it keeps. */
  lemma {:induction false} LedgerShape(env: Env, stored: seq<Solve>, fetched: seq<Solve>)
    requires Reconcile(env, stored, fetched).Some?
    ensures var l := Reconcile(env, stored, fetched).value.ledger;
      var merged := Merge(stored + fetched);
      && |l| == (if |merged| < LEDGER_SIZE then |merged| else LEDGER_SIZE)
      && NoDups(Ids(l))
      && Chronological(env, l)
      && (forall x :: x in l ==> LastWith(stored + fetched, x.id) == Some(x))
      && (forall x, y :: x in merged && x !in l && y in l ==> TimeOf(env, x) <= TimeOf(env, y))
  {
    var sorted := LedgerIsLatest(env, stored, fetched);
    var l := Last(sorted, LEDGER_SIZE);
    var k := |sorted| - |l|;
    assert l == sorted[k..];
    SuffixFacts(env, sorted, k);
    MergeContents(stored + fetched);
    forall x, y | x in Merge(stored + fetched) && x !in l && y in l ensures TimeOf(env, x) <= TimeOf(env, y) {
      DroppedBeforeKept(env, sorted, k, x, y);
    }
  }

  /** The solves a cycle reports are the kept solves whose id the stored
      ledger lacked; they come from the fetch, in ledger order. */
  lemma ReportedSolves(env: Env, stored: seq<Solve>, fetched: seq<Solve>)
    requires Reconcile(env, stored, fetched).Some?
    ensures var r := Reconcile(env, stored, fetched).value;
      && (forall x :: x in r.reported <==> x in r.ledger && x.id !in Ids(stored))
      && (forall x :: x in r.reported ==> x.id in Ids(fetched) && x in fetched)
      && IsSubseq(r.reported, r.ledger)
  {
    var r := Reconcile(env, stored, fetched).value;
    var sorted := LedgerIsLatest(env, stored, fetched);
    MergeContents(stored + fetched);
    IdsAppend(stored, fetched);
    var storedIds := IdSet(stored);
    FilterSubseq(r.ledger, (s: Solve) => s.id !in storedIds);
    forall x | x in r.reported ensures x.id in Ids(fetched) && x in fetched {
      assert x in sorted;
      LastWithAppend(stored, fetched, x.id);
    }
  }

  /** No two solves with different ids share a parsed time. */
  predicate DistinctTimes(env: Env, s: seq<Solve>) {
    forall x, y :: x in s && y in s && x.id != y.id ==> TimeOf(env, x) != TimeOf(env, y)
  }

  function LedgerOf(env: Env, stored: seq<Solve>, fetched: seq<Solve>): seq<Solve>
    requires Reconcile(env, stored, fetched).Some?
  {
    Reconcile(env, stored, fetched).value.ledger
  }

  /** Merging the new ledger with the same batch yields no solve the first
      merge did not have. */
  lemma SecondMergeWithinFirst(env: Env, stored: seq<Solve>, fetched: seq<Solve>, x: Solve)
    requires Reconcile(env, stored, fetched).Some?
    requires x in Merge(LedgerOf(env, stored, fetched) + fetched)
    ensures x in Merge(stored + fetched)
  {
    var l1 := LedgerOf(env, stored, fetched);
    var sorted := LedgerIsLatest(env, stored, fetched);
    MergeContents(l1 + fetched);
    MergeContents(stored + fetched);
    LastWithAppend(l1, fetched, x.id);
    LastWithAppend(stored, fetched, x.id);
  }

  /** Every solve of the new ledger survives the second merge unchanged. */
  lemma LedgerInSecondMerge(env: Env, stored: seq<Solve>, fetched: seq<Solve>, y: Solve)
    requires Reconcile(env, stored, fetched).Some?
    requires y in LedgerOf(env, stored, fetched)
    ensures y in Merge(LedgerOf(env, stored, fetched) + fetched)
  {
    var l1 := LedgerOf(env, stored, fetched);
    LedgerShape(env, stored, fetched);
    MergeContents(l1 + fetched);
    LastWithAppend(l1, fetched, y.id);
    LastWithAppend(stored, fetched, y.id);
    if y.id !in Ids(fetched) {
      LastWithUnique(l1, y);
    }
  }

  /** A solve the first cycle cut means the ledger was full: it then holds
      100 distinct solves. */
  lemma CutMeansFull(env: Env, stored: seq<Solve>, fetched: seq<Solve>, e: Solve)
    requires Reconcile(env, stored, fetched).Some?
    requires e in Merge(stored + fetched) && e.id !in Ids(LedgerOf(env, stored, fetched))
    ensures e !in LedgerOf(env, stored, fetched)
    ensures |set y | y in LedgerOf(env, stored, fetched)| == LEDGER_SIZE
  {
    var l1 := LedgerOf(env, stored, fetched);
    var sorted1 := LedgerIsLatest(env, stored, fetched);
    LedgerShape(env, stored, fetched);
    if e in l1 {
      IdIn(l1, e);
    }
    assert |sorted1| > LEDGER_SIZE;
    DistinctIds(l1);
    CardSeqSetNoDups(l1);
  }

  /** With distinct times, every kept solve is strictly later than a cut one. */
  lemma KeptLaterThanCut(env: Env, stored: seq<Solve>, fetched: seq<Solve>, e: Solve, y: Solve)
    requires Reconcile(env, stored, fetched).Some?
    requires DistinctTimes(env, Merge(stored + fetched))
    requires e in Merge(stored + fetched) && e.id !in Ids(LedgerOf(env, stored, fetched))
    requires y in LedgerOf(env, stored, fetched)
    ensures TimeOf(env, y) > TimeOf(env, e)
  {
    var l1 := LedgerOf(env, stored, fetched);
    var sorted1 := LedgerIsLatest(env, stored, fetched);
    LedgerShape(env, stored, fetched);
    IdIn(l1, y);
    if e in l1 {
      IdIn(l1, e);
    }
    assert y in sorted1;
  }

  /** A solve the first cycle cut, with a time unlike every kept solve,
      is cut again in a second cycle over the same batch. */
  lemma CutAgain(env: Env, stored: seq<Solve>, fetched: seq<Solve>, e: Solve)
    requires Reconcile(env, stored, fetched).Some?
    requires DistinctTimes(env, Merge(stored + fetched))
    requires Reconcile(env, LedgerOf(env, stored, fetched), fetched).Some?
    requires e in Merge(stored + fetched) && e.id !in Ids(LedgerOf(env, stored, fetched))
    ensures e !in LedgerOf(env, LedgerOf(env, stored, fetched), fetched)
  {
    var l1 := LedgerOf(env, stored, fetched);
    CutMeansFull(env, stored, fetched, e);
    var later := set y | y in l1;
    var sorted2 := LedgerIsLatest(env, l1, fetched);
    forall y | y in later ensures y in sorted2 && TimeOf(env, y) > TimeOf(env, e) {
      LedgerInSecondMerge(env, stored, fetched, y);
      KeptLaterThanCut(env, stored, fetched, e, y);
    }
    Sorting.CutByLater(sorted2, (s: Solve) => TimeOf(env, s), e, later, LEDGER_SIZE);
  }

  /** With distinct times, a second cycle over the same batch reports nothing:
      a solve cut by the truncation is never announced later. */
  lemma {:induction false} SecondCycleReportsNothing(env: Env, stored: seq<Solve>, fetched: seq<Solve>)
    requires Reconcile(env, stored, fetched).Some?
    requires DistinctTimes(env, Merge(stored + fetched))
    ensures Reconcile(env, LedgerOf(env, stored, fetched), fetched).Some?
    ensures Reconcile(env, LedgerOf(env, stored, fetched), fetched).value.reported == []
  {
    var l1 := LedgerOf(env, stored, fetched);
    forall x | x in Merge(l1 + fetched) ensures env.parseIso(x.time).Some? {
      SecondMergeWithinFirst(env, stored, fetched, x);
    }
    SecondLedgerWithinFirst(env, stored, fetched);
    ReportedSolves(env, l1, fetched);
  }

  /** The second cycle keeps only solves already in the first ledger. */
  lemma SecondLedgerWithinFirst(env: Env, stored: seq<Solve>, fetched: seq<Solve>)
    requires Reconcile(env, stored, fetched).Some?
    requires DistinctTimes(env, Merge(stored + fetched))
    requires Reconcile(env, LedgerOf(env, stored, fetched), fetched).Some?
    ensures var l1 := LedgerOf(env, stored, fetched);
      forall e | e in Reconcile(env, l1, fetched).value.ledger :: e.id in Ids(l1)
  {
    var l1 := LedgerOf(env, stored, fetched);
    var r2 := Reconcile(env, l1, fetched).value;
    var sorted2 := LedgerIsLatest(env, l1, fetched);
    forall e | e in r2.ledger ensures e.id in Ids(l1) {
      assert e in Merge(l1 + fetched);
      SecondMergeWithinFirst(env, stored, fetched, e);
      if e.id !in Ids(l1) {
        CutAgain(env, stored, fetched, e);
      }
    }
  }
}
