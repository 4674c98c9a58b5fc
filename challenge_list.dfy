/** The player's challenge list (src/app/challenges/page.tsx): hint
    normalisation, the filter, the category ordering, grouping by category
    and the flag-submit guard. */
module ChallengeList {
  import opened Base
  import opened Strings
  import opened Sequences
  import Sorting
  import DD = DetailDialog

  /** The categories of the site configuration, in display order. */
  const CHALLENGE_CATEGORIES: seq<string> :=
    ["Intro", "Misc", "Osint", "Crypto", "Forensics", "Web", "Reverse", "Network", "Blockchain"]

  /** One challenge as the list shows it. */
  datatype Challenge = Challenge(
    id: string, title: string, description: string,
    category: string, difficulty: string, isSolved: bool)

  // ---------------------------------------------------------------------
  // Hint normalisation
  // ---------------------------------------------------------------------

  /** `String(raw)` for the scalars that reach it. */
  function JsonText(v: Json): string {
    match v
    case JBool(b) => if b then "true" else "false"
    case JNum(n) => IntToString(n)
    case JStr(s) => s
    case _ => ""
  }

  /** The stored `hint` as the list reads it: an array keeps its strings; a
      text is decoded (`parse` is `JSON.parse`, None where it throws) and an
      array keeps its strings, a string becomes a one-hint list and any other
      value no hint; text that does not decode is kept whole unless it is
      blank; another truthy scalar becomes its text; anything else gives no
      hint. */
  function NormalizeHint(raw: Json, parse: string -> Option<Json>): (r: seq<string>)
    ensures raw.JArr? ==> r == Base.Strings(raw.items)
    ensures !raw.JArr? && !raw.JStr? && !Truthy(raw) ==> r == []
    ensures raw.JObj? ==> r == []
    ensures raw.JStr? && parse(raw.s).None? ==> (r == [] <==> IsBlank(raw.s))
    ensures |r| > 1 ==> raw.JArr? || (raw.JStr? && parse(raw.s).Some? && parse(raw.s).value.JArr?)
  {
    match raw
    case JArr(items) => Base.Strings(items)
    case JStr(text) =>
      (match parse(text)
       case Some(JArr(items)) => Base.Strings(items)
       case Some(JStr(s)) => [s]
       case Some(_) => []
       case None => if Trim(text) != "" then [text] else [])
    case JObj(_) => []
    case _ => if Truthy(raw) then [JsonText(raw)] else []
  }

  /** A JSON array of the given strings. */
  function JsonList(hints: seq<string>): (v: Json)
    ensures v.JArr? && |v.items| == |hints|
  {
    JArr(seq(|hints|, i requires 0 <= i < |hints| => JStr(hints[i])))
  }

  lemma {:induction false} StringsOfList(hints: seq<string>)
    ensures Base.Strings(JsonList(hints).items) == hints
    decreases |hints|
  {
    if hints != [] {
      StringsOfList(hints[1..]);
      assert JsonList(hints).items[1..] == JsonList(hints[1..]).items;
    }
  }

  /** A list stored as the JSON text of an array of strings reads back as the
      same list. */
  lemma HintListReadsBack(hints: seq<string>, text: string, parse: string -> Option<Json>)
    requires parse(text) == Some(JsonList(hints))
    ensures NormalizeHint(JStr(text), parse) == hints
  {
    StringsOfList(hints);
  }

  // ---------------------------------------------------------------------
  // Filter
  // ---------------------------------------------------------------------

  datatype StatusFilter = AllStatus | SolvedOnly | UnsolvedOnly

  /** The filter bar's state; "all" switches the category or difficulty
      test off and an empty search matches everything. */
  datatype Filters = Filters(status: StatusFilter, category: string, difficulty: string, search: string)

  const ALL: string := "all"

  predicate SearchMatches(ch: Challenge, search: string) {
    var k := Lower(search);
    Contains(Lower(ch.title), k) || Contains(Lower(ch.description), k)
  }

  /** The test `filteredChallenges` applies to one challenge. */
  predicate Shown(f: Filters, ch: Challenge) {
    if f.status == SolvedOnly && !ch.isSolved then false
    else if f.status == UnsolvedOnly && ch.isSolved then false
    else if f.category != ALL && ch.category != f.category then false
    else if f.difficulty != ALL && ch.difficulty != f.difficulty then false
    else if f.search != "" then SearchMatches(ch, f.search)
    else true
  }

  function FilteredChallenges(f: Filters, list: seq<Challenge>): (r: seq<Challenge>)
    ensures forall ch :: ch in r <==> ch in list && Shown(f, ch)
  {
    Filter(list, (ch: Challenge) => Shown(f, ch))
  }

  /** A challenge is shown exactly when every criterion holds; the search
      looks at the title and the description, ignoring case. */
  lemma ShownIff(f: Filters, ch: Challenge)
    ensures Shown(f, ch) <==>
      && (f.status == SolvedOnly ==> ch.isSolved)
      && (f.status == UnsolvedOnly ==> !ch.isSolved)
      && (f.category == ALL || ch.category == f.category)
      && (f.difficulty == ALL || ch.difficulty == f.difficulty)
      && (f.search == "" || Contains(Lower(ch.title), Lower(f.search))
                         || Contains(Lower(ch.description), Lower(f.search)))
  {
  }

  /** Clearing the search, or widening a criterion to "all", never hides a
      challenge that was shown. */
  lemma {:induction false} WideningKeepsShown(f: Filters, list: seq<Challenge>)
    ensures var wide := Filters(AllStatus, ALL, ALL, "");
      FilteredChallenges(wide, list) == list
    ensures forall ch :: ch in FilteredChallenges(f, list) ==>
      ch in FilteredChallenges(f.(search := ""), list) && ch in FilteredChallenges(f.(category := ALL), list)
    decreases |list|
  {
    if list != [] {
      WideningKeepsShown(f, list[1..]);
    }
  }

  // ---------------------------------------------------------------------
  // Category ordering
  // ---------------------------------------------------------------------

  function CategoriesOf(list: seq<Challenge>): (r: seq<string>)
    ensures |r| == |list|
    ensures forall i :: 0 <= i < |list| ==> r[i] == list[i].category
  {
    Keys(list, (ch: Challenge) => ch.category)
  }

  /** `Array.from(new Set(categories)).filter(Boolean)`. */
  function AllCategories(list: seq<Challenge>): (r: seq<string>)
    ensures NoDups(r)
    ensures forall c :: c in r <==> c != "" && exists i | 0 <= i < |list| :: list[i].category == c
  {
    var cats := CategoriesOf(list);
    var r := Filter(Distinct(cats), (c: string) => c != "");
    FilterNoDups(Distinct(cats), (c: string) => c != "");
    forall c ensures c in r <==> c != "" && exists i | 0 <= i < |list| :: list[i].category == c {
      if c in cats {
        var i :| 0 <= i < |cats| && cats[i] == c;
        assert list[i].category == c;
      }
    }
    r
  }

  /** A configured name and a category are related when either contains
      the other, ignoring case. */
  predicate Related(c: string, p: string) {
    Contains(Lower(c), Lower(p)) || Contains(Lower(p), Lower(c))
  }

  /** `all.find(...)`: the first entry related to `p`. */
  function FirstRelated(all: seq<string>, p: string): (r: Option<string>)
    ensures r.None? <==> forall i | 0 <= i < |all| :: !Related(all[i], p)
    ensures r.Some? ==> exists i | 0 <= i < |all| ::
      (all[i] == r.value && Related(all[i], p) && forall j | 0 <= j < i :: !Related(all[j], p))
  {
    if all == [] then None
    else if Related(all[0], p) then Some(all[0])
    else
      var r := FirstRelated(all[1..], p);
      assert forall i | 0 < i < |all| :: all[i] == all[1..][i - 1];
      r
  }

  /** The configured names in order, each replaced by its first related
      entry when that entry is non-empty (the `found &&` test) and not yet
      taken. */
  function Matched(prefs: seq<string>, all: seq<string>): (r: seq<string>)
    ensures NoDups(r)
    ensures forall c :: c in r ==> c in all && c != ""
    decreases |prefs|
  {
    if prefs == [] then []
    else
      var m := Matched(prefs[..|prefs| - 1], all);
      match FirstRelated(all, prefs[|prefs| - 1])
      case Some(c) => if c != "" && c !in m then m + [c] else m
      case None => m
  }

  /** Every configured name whose first related entry is non-empty gets
      that entry placed among the matched ones. */
  lemma {:induction false} MatchedCoversConfig(prefs: seq<string>, all: seq<string>, j: nat)
    requires j < |prefs|
    requires FirstRelated(all, prefs[j]).Some? && FirstRelated(all, prefs[j]).value != ""
    ensures FirstRelated(all, prefs[j]).value in Matched(prefs, all)
    decreases |prefs|
  {
    var init := prefs[..|prefs| - 1];
    if j < |prefs| - 1 {
      assert init[j] == prefs[j];
      MatchedCoversConfig(init, all, j);
    }
  }

  function Unmatched(all: seq<string>, matched: seq<string>): (r: seq<string>)
    ensures forall c :: c in r <==> c in all && c !in matched
  {
    Filter(all, (c: string) => c !in matched)
  }

  /** The display order: the matched entries in configuration order, then
      the others in code-point order. */
  function ConfigOrder(prefs: seq<string>, all: seq<string>): seq<string> {
    var m := Matched(prefs, all);
    m + Sorting.Sort(Unmatched(all, m), Sorting.ByText())
  }

  /** The `flatMap` over the configuration with the `matched` set, then the
      sorted rest; used for both `categories` and `orderedKeys`. */
  method OrderByConfig(prefs: seq<string>, all: seq<string>) returns (r: seq<string>)
    ensures r == ConfigOrder(prefs, all)
  {
    var taken: set<string> := {};
    var matched: seq<string> := [];
    for i := 0 to |prefs|
      invariant matched == Matched(prefs[..i], all)
      invariant forall c :: c in taken <==> c in matched
    {
      var found := FirstRelated(all, prefs[i]);
      MatchedStep(prefs, all, i);
      if found.Some? && found.value != "" && found.value !in taken {
        taken := taken + {found.value};
        matched := matched + [found.value];
      }
    }
    assert prefs[..|prefs|] == prefs;
    r := matched + Sorting.Sort(Unmatched(all, matched), Sorting.ByText());
  }

  lemma MatchedStep(prefs: seq<string>, all: seq<string>, i: nat)
    requires i < |prefs|
    ensures var m := Matched(prefs[..i], all); var found := FirstRelated(all, prefs[i]);
      Matched(prefs[..i + 1], all) ==
        if found.Some? && found.value != "" && found.value !in m then m + [found.value] else m
  {
    assert prefs[..i + 1][..i] == prefs[..i];
  }

  /** Over a list without repeats the display order is a rearrangement:
      no repeats, and the same entries. */
  lemma ConfigOrderPermutes(prefs: seq<string>, all: seq<string>)
    requires NoDups(all)
    ensures var r := ConfigOrder(prefs, all);
      NoDups(r) && (forall c :: c in r <==> c in all) && |r| == |all|
  {
    var m := Matched(prefs, all);
    var u := Unmatched(all, m);
    FilterNoDups(all, (c: string) => c !in m);
    SortedText(u);
    var r := ConfigOrder(prefs, all);
    NoDupsConcat(m, Sorting.Sort(u, Sorting.ByText()));
    SameMembersSameLength(r, all);
  }

  /** Sorting a list without repeats keeps it so, with the same entries. */
  lemma SortedText(u: seq<string>)
    requires NoDups(u)
    ensures var s := Sorting.Sort(u, Sorting.ByText());
      NoDups(s) && forall c :: c in s <==> c in u
  {
    var s := Sorting.Sort(u, Sorting.ByText());
    NoDupsPermutation(u, s);
    SameMembers(u, s);
  }

  lemma SameMembersSameLength(a: seq<string>, b: seq<string>)
    requires NoDups(a) && NoDups(b)
    requires forall c :: c in a <==> c in b
    ensures |a| == |b|
  {
    CardSeqSetNoDups(a);
    CardSeqSetNoDups(b);
    assert (set c | c in a) == (set c | c in b);
  }

  /** The sorted part is in code-point order. */
  lemma ConfigOrderTail(prefs: seq<string>, all: seq<string>)
    ensures var m := Matched(prefs, all);
      var r := ConfigOrder(prefs, all);
      r[..|m|] == m && forall i | |m| < i < |r| :: LexLe(r[i - 1], r[i])
  {
  }

  /** `categories`: the configured categories found among the challenges,
      then the rest sorted; a rearrangement of the distinct non-empty
      categories. */
  method Categories(list: seq<Challenge>) returns (r: seq<string>)
    ensures r == ConfigOrder(CHALLENGE_CATEGORIES, AllCategories(list))
    ensures NoDups(r)
    ensures forall c :: c in r <==> c != "" && exists i | 0 <= i < |list| :: list[i].category == c
  {
    r := OrderByConfig(CHALLENGE_CATEGORIES, AllCategories(list));
    ConfigOrderPermutes(CHALLENGE_CATEGORIES, AllCategories(list));
  }

  /** `difficulties`: the distinct difficulties in code-point order. */
  function Difficulties(list: seq<Challenge>): (r: seq<string>)
    ensures NoDups(r)
    ensures forall d :: d in r <==> exists i | 0 <= i < |list| :: list[i].difficulty == d
    ensures forall i | 0 < i < |r| :: LexLe(r[i - 1], r[i])
  {
    var ds := Keys(list, (ch: Challenge) => ch.difficulty);
    var u := Distinct(ds);
    SortedText(u);
    KeysMembers(list, ds);
    Sorting.Sort(u, Sorting.ByText())
  }

  lemma KeysMembers(list: seq<Challenge>, ds: seq<string>)
    requires ds == Keys(list, (ch: Challenge) => ch.difficulty)
    ensures forall d :: d in ds <==> exists i | 0 <= i < |list| :: list[i].difficulty == d
  {
    forall d | d in ds ensures exists i | 0 <= i < |list| :: list[i].difficulty == d {
      var i :| 0 <= i < |ds| && ds[i] == d;
      assert list[i].difficulty == d;
    }
  }

  // ---------------------------------------------------------------------
  // Grouping
  // ---------------------------------------------------------------------

  /** The challenges of category `c`, in list order. */
  function InCategory(list: seq<Challenge>, c: string): (r: seq<Challenge>)
    ensures forall ch :: ch in r <==> ch in list && ch.category == c
  {
    Filter(list, (ch: Challenge) => ch.category == c)
  }

  lemma InCategorySnoc(list: seq<Challenge>, x: Challenge, c: string)
    ensures InCategory(list + [x], c) == InCategory(list, c) + (if x.category == c then [x] else [])
  {
    FilterAppend(list, [x], (ch: Challenge) => ch.category == c);
    assert [x][1..] == [];
  }

  /** `keys` and `groups` are the grouping of `prefix`: keys in order of
      first appearance, each holding its challenges in list order. The
      keys then name each group once. */
  ghost predicate Grouped(prefix: seq<Challenge>, keys: seq<string>, groups: map<string, seq<Challenge>>)
    ensures Grouped(prefix, keys, groups) ==> NoDups(keys) && forall c :: c in keys <==> c in groups
  {
    && keys == Distinct(CategoriesOf(prefix))
    && (forall c :: c in groups <==> c in CategoriesOf(prefix))
    && GroupsHold(prefix, groups)
  }

  ghost predicate GroupsHold(prefix: seq<Challenge>, groups: map<string, seq<Challenge>>) {
    forall c | c in groups :: groups[c] == InCategory(prefix, c)
  }

  lemma GroupStep(prefix: seq<Challenge>, x: Challenge, keys: seq<string>, groups: map<string, seq<Challenge>>,
                  keys': seq<string>, withKey: map<string, seq<Challenge>>, groups': map<string, seq<Challenge>>)
    requires Grouped(prefix, keys, groups)
    requires keys' == if x.category in groups then keys else keys + [x.category]
    requires withKey == if x.category in groups then groups else groups[x.category := []]
    requires groups' == withKey[x.category := withKey[x.category] + [x]]
    ensures Grouped(prefix + [x], keys', groups')
  {
    var c, cats := x.category, CategoriesOf(prefix);
    CategoriesSnoc(prefix, x);
    assert c in groups <==> c in cats;
    KeysStep(cats, c, keys, keys');
    DomainStep(prefix, x, groups, withKey, groups');
    GroupsStep(prefix, x, groups, withKey, groups');
  }

  lemma DomainStep(prefix: seq<Challenge>, x: Challenge, groups: map<string, seq<Challenge>>,
                   withKey: map<string, seq<Challenge>>, groups': map<string, seq<Challenge>>)
    requires forall c :: c in groups <==> c in CategoriesOf(prefix)
    requires withKey == if x.category in groups then groups else groups[x.category := []]
    requires groups' == withKey[x.category := withKey[x.category] + [x]]
    ensures forall c :: c in groups' <==> c in CategoriesOf(prefix + [x])
  {
    CategoriesSnoc(prefix, x);
  }

  lemma CategoriesSnoc(list: seq<Challenge>, x: Challenge)
    ensures CategoriesOf(list + [x]) == CategoriesOf(list) + [x.category]
  {
    assert CategoriesOf(list + [x]) == CategoriesOf(list) + [x.category];
  }

  lemma KeysStep(cats: seq<string>, c: string, keys: seq<string>, keys': seq<string>)
    requires keys == Distinct(cats)
    requires keys' == if c in cats then keys else keys + [c]
    ensures keys' == Distinct(cats + [c])
  {
    DistinctSnoc(cats, c);
  }

  lemma GroupsStep(prefix: seq<Challenge>, x: Challenge, groups: map<string, seq<Challenge>>,
                   withKey: map<string, seq<Challenge>>, groups': map<string, seq<Challenge>>)
    requires forall c :: c in groups <==> c in CategoriesOf(prefix)
    requires GroupsHold(prefix, groups)
    requires withKey == if x.category in groups then groups else groups[x.category := []]
    requires groups' == withKey[x.category := withKey[x.category] + [x]]
    ensures GroupsHold(prefix + [x], groups')
  {
    forall d | d in groups' ensures groups'[d] == InCategory(prefix + [x], d) {
      InCategorySnoc(prefix, x, d);
      if d == x.category && d !in groups {
        NoneInCategory(prefix, d);
      }
    }
  }

  lemma {:induction false} AbsentCategory(list: seq<Challenge>, c: string)
    requires forall ch :: ch in list ==> ch.category != c
    ensures InCategory(list, c) == []
    decreases |list|
  {
    if list != [] {
      AbsentCategory(list[1..], c);
    }
  }

  lemma NoneInCategory(list: seq<Challenge>, c: string)
    requires c !in CategoriesOf(list)
    ensures InCategory(list, c) == []
  {
    NewCategory(list, c);
    AbsentCategory(list, c);
  }

  /** The `reduce` into `grouped`: the key order is first appearance, which
      is the order `Object.keys` returns keys that are not array indices in,
      and each category holds its challenges in list order. */
  method GroupByCategory(list: seq<Challenge>) returns (keys: seq<string>, groups: map<string, seq<Challenge>>)
    ensures keys == Distinct(CategoriesOf(list))
    ensures groups.Keys == set c | c in keys
    ensures forall c | c in groups :: groups[c] == InCategory(list, c)
  {
    keys := [];
    groups := map[];
    ghost var seen: seq<Challenge> := [];
    GroupedEmpty();
    for i := 0 to |list|
      invariant seen == list[..i]
      invariant Grouped(seen, keys, groups)
    {
      var ch := list[i];
      var keys' := keys;
      var withKey := groups;
      if ch.category !in withKey {
        withKey := withKey[ch.category := []];
        keys' := keys' + [ch.category];
      }
      var groups' := withKey[ch.category := withKey[ch.category] + [ch]];
      GroupStep(seen, ch, keys, groups, keys', withKey, groups');
      TakeSnoc(list, i);
      seen := seen + [ch];
      keys, groups := keys', groups';
    }
    assert list[..|list|] == list;
    GroupedMeans(list, keys, groups);
  }

  lemma GroupedEmpty()
    ensures Grouped([], [], map[])
  {
    assert Distinct(CategoriesOf([])) == [];
  }

  lemma GroupedMeans(list: seq<Challenge>, keys: seq<string>, groups: map<string, seq<Challenge>>)
    requires Grouped(list, keys, groups)
    ensures keys == Distinct(CategoriesOf(list))
    ensures groups.Keys == set c | c in keys
    ensures forall c | c in groups :: groups[c] == InCategory(list, c)
  {
    assert forall c :: c in keys <==> c in CategoriesOf(list);
  }

  lemma DistinctSnoc(s: seq<string>, x: string)
    ensures Distinct(s + [x]) == if x in s then Distinct(s) else Distinct(s) + [x]
  {
    var id := (y: string) => y;
    var t := s + [x];
    assert t[..|t| - 1] == s;
    assert Keys(Distinct(s), id) == Distinct(s);
    assert DistinctBy(t, id) == KeepFirst(DistinctBy(s, id), x, id);
  }

  /** The groups listed in the order of `keys`, one after the other. */
  function Flatten(keys: seq<string>, list: seq<Challenge>): seq<Challenge> {
    if keys == [] then [] else InCategory(list, keys[0]) + Flatten(keys[1..], list)
  }

  lemma {:induction false} FlattenSnoc(keys: seq<string>, list: seq<Challenge>, x: Challenge)
    requires NoDups(keys)
    ensures multiset(Flatten(keys, list + [x])) ==
      multiset(Flatten(keys, list)) + (if x.category in keys then multiset{x} else multiset{})
    decreases |keys|
  {
    if keys != [] {
      var k := keys[0];
      var extra := if x.category == k then [x] else [];
      NoDupsDrop(keys, 1);
      FlattenSnoc(keys[1..], list, x);
      InCategorySnoc(list, x, k);
      assert Flatten(keys, list + [x]) == (InCategory(list, k) + extra) + Flatten(keys[1..], list + [x]);
      assert multiset(Flatten(keys, list + [x])) ==
        multiset(InCategory(list, k)) + multiset(extra) + multiset(Flatten(keys[1..], list + [x]));
      assert x.category in keys <==> x.category == k || x.category in keys[1..];
      assert k !in keys[1..];
    }
  }

  lemma {:induction false} FlattenNewKey(keys: seq<string>, list: seq<Challenge>, c: string)
    requires forall ch :: ch in list ==> ch.category != c
    ensures Flatten(keys + [c], list) == Flatten(keys, list)
    decreases |keys|
  {
    if keys == [] {
      AbsentCategory(list, c);
      assert Flatten([c], list) == InCategory(list, c) + Flatten([], list);
    } else {
      assert (keys + [c])[1..] == keys[1..] + [c];
      FlattenNewKey(keys[1..], list, c);
    }
  }

  /** Grouping places every filtered challenge exactly once: listing the
      groups in key order gives back the same challenges, counted with
      multiplicity. */
  lemma {:induction false} GroupingPlacesEachOnce(list: seq<Challenge>)
    ensures multiset(Flatten(Distinct(CategoriesOf(list)), list)) == multiset(list)
    decreases |list|
  {
    if list != [] {
      var init := list[..|list| - 1];
      var x := list[|list| - 1];
      assert list == init + [x];
      GroupingPlacesEachOnce(init);
      PlaceLast(init, x);
    }
  }

  lemma PlaceLast(init: seq<Challenge>, x: Challenge)
    requires multiset(Flatten(Distinct(CategoriesOf(init)), init)) == multiset(init)
    ensures multiset(Flatten(Distinct(CategoriesOf(init + [x])), init + [x])) == multiset(init + [x])
  {
    var keys := Distinct(CategoriesOf(init));
    CategoriesSnoc(init, x);
    DistinctSnoc(CategoriesOf(init), x.category);
    if x.category in CategoriesOf(init) {
      FlattenSnoc(keys, init, x);
    } else {
      NewCategory(init, x.category);
      FlattenNewKey(keys, init, x.category);
      NoDupsAppendFresh(keys, x.category);
      FlattenSnoc(keys + [x.category], init, x);
    }
  }

  lemma NewCategory(list: seq<Challenge>, c: string)
    requires c !in CategoriesOf(list)
    ensures forall ch :: ch in list ==> ch.category != c
  {
    forall ch | ch in list ensures ch.category != c {
      var i :| 0 <= i < |list| && list[i] == ch;
      assert CategoriesOf(list)[i] == ch.category;
    }
  }

  lemma NoDupsAppendFresh(s: seq<string>, x: string)
    requires NoDups(s) && x !in s
    ensures NoDups(s + [x])
  {
  }

  /** `orderedKeys`: the configured categories among the group keys, then
      the rest sorted; a rearrangement of the group keys. */
  method OrderedKeys(keys: seq<string>) returns (r: seq<string>)
    requires NoDups(keys)
    ensures r == ConfigOrder(CHALLENGE_CATEGORIES, keys)
    ensures NoDups(r) && forall c :: c in r <==> c in keys
  {
    r := OrderByConfig(CHALLENGE_CATEGORIES, keys);
    ConfigOrderPermutes(CHALLENGE_CATEGORIES, keys);
  }

  /** A group key that is empty is related to every configured name but is
      never taken (`found &&` is false for ""), so a configured name whose
      first related key is "" contributes nothing. */
  lemma EmptyKeyShadows(prefs: seq<string>, rest: seq<string>)
    ensures Matched(prefs, [""] + rest) == []
    decreases |prefs|
  {
    if prefs != [] {
      var all := [""] + rest;
      assert Related(all[0], prefs[|prefs| - 1]) by {
        assert OccursAt(Lower(prefs[|prefs| - 1]), Lower(""), 0);
      }
      EmptyKeyShadows(prefs[..|prefs| - 1], rest);
    }
  }

  // ---------------------------------------------------------------------
  // Flag submission
  // ---------------------------------------------------------------------

  /** A challenge as the page holds it, with its `hint` field as stored in
      the page's state. */
  datatype Held = Held(challenge: Challenge, hint: Json)

  /** The first load (page.tsx:63-95): every challenge's hint is replaced by
      its normalised list. The stored hint is then a JSON array of strings,
      and normalising it again gives the same list. */
  function FirstLoad(rows: seq<Held>, parse: string -> Option<Json>): (r: seq<Held>)
    ensures |r| == |rows|
    ensures forall k :: 0 <= k < |r| ==> r[k].challenge == rows[k].challenge
    ensures forall k :: 0 <= k < |r| ==>
      r[k].hint.JArr? && NormalizeHint(r[k].hint, parse) == NormalizeHint(rows[k].hint, parse)
  {
    if rows == [] then []
    else
      var hints := NormalizeHint(rows[0].hint, parse);
      StringsOfList(hints);
      [Held(rows[0].challenge, JsonList(hints))] + FirstLoad(rows[1..], parse)
  }

  /** What `submitFlag` gives back: the RPC's reply, a null reply (the RPC
      returned no data, so reading `result.success` throws after the
      reload), or a thrown error (no reload happens). An RPC error is a
      reply `{ success: false, message: "Failed to submit flag" }`. */
  datatype SubmitReply = Replied(success: bool, message: string) | NullReply | Threw

  datatype Feedback = Feedback(success: bool, message: string)

  /** The outcome of `handleFlagSubmit`: the text sent (None when the guard
      returns early), the feedback shown, the input box and the challenge
      list afterwards. */
  datatype FlagSubmit = FlagSubmit(sent: Option<string>, feedback: Option<Feedback>, inputAfter: Option<string>,
                                   listAfter: seq<Held>)

  /** `getChallenges(user.id)` as the reload sees it: the challenges with
      their hints as stored, or [] when it hits an error (it catches every
      error and never throws). */
  function Reloaded(reloaded: Option<seq<Held>>): (r: seq<Held>)
    ensures reloaded.None? ==> r == []
    ensures reloaded.Some? ==> r == reloaded.value
  {
    if reloaded.Some? then reloaded.value else []
  }

  /** `handleFlagSubmit`. `submit` is `submitFlag`; `reloaded` is what the
      `getChallenges` call made after `submitFlag` returns gives, None where
      it fails; `list` is the challenge list before. The reload stores the
      hints as `getChallenges` returns them, without the first load's
      normalisation. */
  function HandleFlagSubmit(signedIn: bool, input: Option<string>, submit: string -> SubmitReply,
                            reloaded: Option<seq<Held>>, list: seq<Held>): (r: FlagSubmit)
    ensures r.sent.None? <==> !signedIn || input.None? || IsBlank(input.value)
    ensures r.sent.Some? ==> r.sent.value == Trim(input.value) && r.sent.value != ""
    ensures r.sent.None? ==> r.feedback.None? && r.inputAfter == input && r.listAfter == list
    ensures r.sent.Some? ==> r.feedback.Some?
    ensures r.inputAfter != input ==> r.inputAfter == Some("") && r.feedback.Some? && r.feedback.value.success
    // a reply is shown as it is, and a successful one clears the input
    ensures r.sent.Some? && submit(r.sent.value).Replied? ==>
      var reply := submit(r.sent.value);
      r.feedback == Some(Feedback(reply.success, reply.message))
      && r.inputAfter == (if reply.success then Some("") else input)
    // a thrown submission or a null reply shows the generic failure and keeps the input
    ensures r.sent.Some? && !submit(r.sent.value).Replied? ==>
      r.feedback == Some(Feedback(false, "Failed to submit flag")) && r.inputAfter == input
    // the list is reloaded exactly when `submitFlag` returned, a failed reload emptying it
    ensures r.sent.Some? && !submit(r.sent.value).Threw? ==> r.listAfter == Reloaded(reloaded)
    ensures r.sent.Some? && submit(r.sent.value).Threw? ==> r.listAfter == list
  {
    if !signedIn || input.None? || Trim(input.value) == "" then FlagSubmit(None, None, input, list)
    else
      var text := Trim(input.value);
      match submit(text)
      case Threw => FlagSubmit(Some(text), Some(Feedback(false, "Failed to submit flag")), input, list)
      case NullReply =>
        FlagSubmit(Some(text), Some(Feedback(false, "Failed to submit flag")), input, Reloaded(reloaded))
      case Replied(ok, message) =>
        FlagSubmit(Some(text), Some(Feedback(ok, message)), if ok then Some("") else input, Reloaded(reloaded))
  }

  /** A hint stored as the JSON text of a list shows its hint buttons after
      the first load, but none once a flag submission has reloaded the list
      with the stored text. */
  lemma ReloadDropsHintButtons(ch: Challenge, text: string, hints: seq<string>, parse: string -> Option<Json>,
                               signedIn: bool, flag: string, submit: string -> SubmitReply)
    requires parse(text) == Some(JsonList(hints)) && |hints| > 0
    requires signedIn && !IsBlank(flag) && !submit(Trim(flag)).Threw?
    ensures var before := FirstLoad([Held(ch, JStr(text))], parse);
      |DD.HintButtons(before[0].hint)| == |hints|
    ensures var before := FirstLoad([Held(ch, JStr(text))], parse);
      var after := HandleFlagSubmit(signedIn, Some(flag), submit, Some([Held(ch, JStr(text))]), before).listAfter;
      |after| == 1 && after[0].challenge == ch && DD.HintButtons(after[0].hint) == []
  {
    HintListReadsBack(hints, text, parse);
  }
}
