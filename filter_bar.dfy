/** The filter bar (src/components/challenges/ChallengeFilterBar.tsx): the
    order of the category and difficulty options and the four controls. */
module FilterBar {
  import opened Sequences
  import opened Strings
  import CL = ChallengeList
  import D = Difficulty

  /** The configured entries present in `items`, in configured order, then
      the other items in their given order (`sortedCategories` and
      `sortedDifficulties`). */
  function ConfiguredFirst(order: seq<string>, items: seq<string>): (r: seq<string>)
    ensures forall x :: x in r <==> x in items
    // no configured entry comes after an unconfigured one
    ensures forall p, q :: 0 <= p < q < |r| && r[q] in order ==> r[p] in order
  {
    var front := Filter(order, (x: string) => x in items);
    var back := Filter(items, (x: string) => x !in order);
    var r := front + back;
    forall k | |front| <= k < |r| ensures r[k] !in order {
      assert r[k] == back[k - |front|];
      assert r[k] in back;
    }
    forall p, q | 0 <= p < q < |r| && r[q] in order ensures r[p] in order {
      assert q < |front|;
      assert r[p] == front[p];
      assert r[p] in front;
    }
    r
  }

  /** Two unconfigured items keep their given order. */
  lemma UnconfiguredKeepOrder(order: seq<string>, items: seq<string>, i: nat, j: nat)
    requires i < j < |items| && items[i] !in order && items[j] !in order
    ensures var r := ConfiguredFirst(order, items);
      exists p, q :: 0 <= p < q < |r| && r[p] == items[i] && r[q] == items[j]
  {
    var front := Filter(order, (x: string) => x in items);
    var back := Filter(items, (x: string) => x !in order);
    FilterKeepsOrder(items, (x: string) => x !in order, i, j);
    var p, q :| 0 <= p < q < |back| && back[p] == items[i] && back[q] == items[j];
    var r := ConfiguredFirst(order, items);
    assert r == front + back;
    assert r[|front| + p] == items[i] && r[|front| + q] == items[j];
  }

  /** Without repeats on either side, the options are a rearrangement of
      the items: nothing is lost, added or shown twice. */
  lemma ConfiguredFirstPermutes(order: seq<string>, items: seq<string>)
    requires NoDups(order) && NoDups(items)
    ensures NoDups(ConfiguredFirst(order, items))
    ensures multiset(ConfiguredFirst(order, items)) == multiset(items)
  {
    var front := Filter(order, (x: string) => x in items);
    var back := Filter(items, (x: string) => x !in order);
    FilterNoDups(order, (x: string) => x in items);
    FilterNoDups(items, (x: string) => x !in order);
    NoDupsConcat(front, back);
    NoDupsSameMultiset(front + back, items);
  }

  /** The configured entries come first, in configured order. */
  lemma ConfiguredPrefix(order: seq<string>, items: seq<string>, i: nat, j: nat)
    requires NoDups(order)
    requires i < j < |order| && order[i] in items && order[j] in items
    ensures var r := ConfiguredFirst(order, items);
      exists p, q :: 0 <= p < q < |r| && r[p] == order[i] && r[q] == order[j]
  {
    var front := Filter(order, (x: string) => x in items);
    FilterKeepsOrder(order, (x: string) => x in items, i, j);
    var p, q :| 0 <= p < q < |front| && front[p] == order[i] && front[q] == order[j];
    var r := ConfiguredFirst(order, items);
    assert r[p] == front[p] && r[q] == front[q];
  }

  /** Two elements that pass a filter keep their relative order. */
  lemma {:induction false} FilterKeepsOrder(s: seq<string>, f: string -> bool, i: nat, j: nat)
    requires i < j < |s| && f(s[i]) && f(s[j])
    ensures exists p, q :: 0 <= p < q < |Filter(s, f)| && Filter(s, f)[p] == s[i] && Filter(s, f)[q] == s[j]
    decreases |s|
  {
    var r := Filter(s, f);
    if i == 0 {
      assert s[j] == s[1..][j - 1];
      assert s[j] in Filter(s[1..], f);
      var q :| 0 <= q < |Filter(s[1..], f)| && Filter(s[1..], f)[q] == s[j];
      assert r[0] == s[0] && r[q + 1] == s[j];
    } else {
      assert s[i] == s[1..][i - 1] && s[j] == s[1..][j - 1];
      FilterKeepsOrder(s[1..], f, i - 1, j - 1);
      var p, q :| 0 <= p < q < |Filter(s[1..], f)| && Filter(s[1..], f)[p] == s[i] && Filter(s[1..], f)[q] == s[j];
      if f(s[0]) {
        assert r[p + 1] == s[i] && r[q + 1] == s[j];
      } else {
        assert r[p] == s[i] && r[q] == s[j];
      }
    }
  }

  function SortedCategories(categories: seq<string>): (r: seq<string>)
    ensures forall x :: x in r <==> x in categories
    ensures forall p, q :: 0 <= p < q < |r| && r[q] in CL.CHALLENGE_CATEGORIES ==> r[p] in CL.CHALLENGE_CATEGORIES
  {
    ConfiguredFirst(CL.CHALLENGE_CATEGORIES, categories)
  }

  /** `Array.from(new Set(difficulties.map(capitalize)))`. */
  function NormalizedDifficulties(difficulties: seq<string>): (r: seq<string>)
    ensures NoDups(r)
    ensures forall x :: x in r <==> exists i | 0 <= i < |difficulties| :: D.Capitalize(difficulties[i]) == x
  {
    var caps := Keys(difficulties, D.Capitalize);
    var r := Distinct(caps);
    forall x ensures x in r <==> exists i | 0 <= i < |difficulties| :: D.Capitalize(difficulties[i]) == x {
      if x in caps {
        var i :| 0 <= i < |caps| && caps[i] == x;
        assert D.Capitalize(difficulties[i]) == x;
      }
    }
    r
  }

  /** The options are listed in order of first appearance: one more
      difficulty adds its capitalised form at the end when it is new and
      changes nothing otherwise. */
  lemma NormalizedAppend(difficulties: seq<string>, x: string)
    ensures var n := NormalizedDifficulties(difficulties);
      NormalizedDifficulties(difficulties + [x]) == if D.Capitalize(x) in n then n else n + [D.Capitalize(x)]
  {
    var caps := Keys(difficulties, D.Capitalize);
    var more := Keys(difficulties + [x], D.Capitalize);
    assert more == caps + [D.Capitalize(x)] by {
      forall i | 0 <= i < |more| ensures more[i] == (caps + [D.Capitalize(x)])[i] {
        if i < |caps| {
          assert (difficulties + [x])[i] == difficulties[i];
        }
      }
    }
    assert NormalizedDifficulties(difficulties) == Distinct(caps);
    assert NormalizedDifficulties(difficulties + [x]) == Distinct(more);
    DistinctAppend(caps, D.Capitalize(x));
  }

  /** Options that differ only in letter case are the same option: "EASY"
      and "easy" both become "Easy", listed once. */
  lemma NoCaseDuplicates(difficulties: seq<string>, x: string, y: string)
    requires x in NormalizedDifficulties(difficulties) && y in NormalizedDifficulties(difficulties)
    requires Lower(x) == Lower(y)
    ensures x == y
  {
    var a :| 0 <= a < |difficulties| && D.Capitalize(difficulties[a]) == x;
    var b :| 0 <= b < |difficulties| && D.Capitalize(difficulties[b]) == y;
    D.CapitalizeIdempotent(difficulties[a]);
    D.CapitalizeIdempotent(difficulties[b]);
    D.CapitalizeIgnoresCase(x, y);
  }

  function SortedDifficulties(difficulties: seq<string>): (r: seq<string>)
    ensures NoDups(r)
    ensures multiset(r) == multiset(NormalizedDifficulties(difficulties))
    ensures forall p, q :: 0 <= p < q < |r| && r[q] in D.DIFFICULTY_ORDER ==> r[p] in D.DIFFICULTY_ORDER
  {
    D.OrderNoDups();
    ConfiguredFirstPermutes(D.DIFFICULTY_ORDER, NormalizedDifficulties(difficulties));
    ConfiguredFirst(D.DIFFICULTY_ORDER, NormalizedDifficulties(difficulties))
  }

  /** The four controls of the bar. */
  datatype Control = SearchBox | StatusBox | CategoryBox | DifficultyBox

  /** The status select's values. */
  function StatusOf(v: string): (r: CL.StatusFilter)
    ensures r == CL.SolvedOnly <==> v == "solved"
    ensures r == CL.UnsolvedOnly <==> v == "unsolved"
  {
    if v == "solved" then CL.SolvedOnly else if v == "unsolved" then CL.UnsolvedOnly else CL.AllStatus
  }

  /** `onFilterChange({ ...filters, [field]: value })`: each control sets
      its own field and leaves the others. */
  function OnControl(f: CL.Filters, control: Control, v: string): (r: CL.Filters)
    ensures control == SearchBox ==> r == f.(search := v)
    ensures control == StatusBox ==> r.(status := f.status) == f
    ensures control == CategoryBox ==> r == f.(category := v)
    ensures control == DifficultyBox ==> r == f.(difficulty := v)
  {
    match control
    case SearchBox => f.(search := v)
    case StatusBox => f.(status := StatusOf(v))
    case CategoryBox => f.(category := v)
    case DifficultyBox => f.(difficulty := v)
  }

  /** Choosing an option and then "all" in the same select shows at least
      what was shown before the option was chosen. */
  lemma AllRestoresCategory(f: CL.Filters, v: string, list: seq<CL.Challenge>)
    ensures var g := OnControl(OnControl(f, CategoryBox, v), CategoryBox, CL.ALL);
      forall ch :: ch in CL.FilteredChallenges(f, list) ==> ch in CL.FilteredChallenges(g, list)
  {
    CL.WideningKeepsShown(f, list);
  }
}
