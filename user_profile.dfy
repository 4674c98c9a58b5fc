/** The profile page's rules (src/components/UserProfile.tsx): the badge
    tiers, the first bloods shown, the "Pernah Top" badge, the rank text and
    the recent-solves list. */
module UserProfile {
  import opened Base
  import opened Strings
  import opened Sequences

  datatype Badge = Badge(caption: string, color: string, icon: string)

  const TOP_1: Badge := Badge("Top 1", "bg-yellow-400 text-yellow-900 border-yellow-500", "\U{1F947}")
  const TOP_3: Badge := Badge("Top 3", "bg-yellow-300 text-yellow-900 border-yellow-400", "\U{1F948}")
  const TOP_10: Badge := Badge("Top 10", "bg-yellow-200 text-yellow-900 border-yellow-300", "\U{1F949}")
  const TOP_25: Badge := Badge("Top 25", "bg-yellow-100 text-yellow-900 border-yellow-200", "\U{1F3C5}")
  const TOP_50: Badge := Badge("Top 50", "bg-yellow-50 text-yellow-900 border-yellow-100", "\U{1F396}\U{FE0F}")

  const KING: Badge := Badge("King of First Bloods", "bg-pink-200 text-pink-900 border-pink-400", "\U{1F451}")
  const BLOODS_5: Badge := Badge("5+ First Bloods", "bg-red-200 text-red-800 border-red-400", "\U{1FA78}")
  const BLOOD_1: Badge := Badge("First Blood", "bg-red-100 text-red-700 border-red-200", "⚡")

  const SOLVES_100: Badge := Badge("100+ Solves", "bg-green-700 text-white border-green-800", "\U{1F4AF}")
  const SOLVES_50: Badge := Badge("50+ Solves", "bg-green-600 text-white border-green-700", "\U{1F3C6}")
  const SOLVES_25: Badge := Badge("25+ Solves", "bg-green-500 text-white border-green-600", "\U{1F3AF}")
  const SOLVES_10: Badge := Badge("10+ Solves", "bg-green-400 text-white border-green-500", "\U{1F525}")

  // ---------------------------------------------------------------------
  // Tier tables
  // ---------------------------------------------------------------------

  /** A threshold and the badge it earns. */
  datatype Tier = Tier(bound: int, badge: Badge)

  /** Rank tiers: the first whose bound the rank does not exceed. */
  const RANK_TIERS: seq<Tier> :=
    [Tier(1, TOP_1), Tier(3, TOP_3), Tier(10, TOP_10), Tier(25, TOP_25), Tier(50, TOP_50)]

  /** First-blood tiers: the first whose bound the count reaches. */
  const BLOOD_TIERS: seq<Tier> := [Tier(10, KING), Tier(5, BLOODS_5), Tier(1, BLOOD_1)]

  /** Solve-count tiers: the first whose bound the count reaches. */
  const SOLVE_TIERS: seq<Tier> :=
    [Tier(100, SOLVES_100), Tier(50, SOLVES_50), Tier(25, SOLVES_25), Tier(10, SOLVES_10)]

  /** The position of the first tier whose bound is at most `n`, or the
      table's length when there is none. */
  function FirstReached(tiers: seq<Tier>, n: int): (k: nat)
    ensures k <= |tiers|
    ensures k < |tiers| ==> tiers[k].bound <= n
    ensures forall j :: 0 <= j < k ==> tiers[j].bound > n
  {
    if tiers == [] then 0
    else if tiers[0].bound <= n then 0
    else 1 + FirstReached(tiers[1..], n)
  }

  /** The position of the first tier whose bound is at least `n`, or the
      table's length when there is none. */
  function FirstWithin(tiers: seq<Tier>, n: int): (k: nat)
    ensures k <= |tiers|
    ensures k < |tiers| ==> n <= tiers[k].bound
    ensures forall j :: 0 <= j < k ==> n > tiers[j].bound
  {
    if tiers == [] then 0
    else if n <= tiers[0].bound then 0
    else 1 + FirstWithin(tiers[1..], n)
  }

  function BadgeAt(tiers: seq<Tier>, k: nat): Option<Badge> {
    if k < |tiers| then Some(tiers[k].badge) else None
  }

  /** A larger count never lands in a lower tier. */
  lemma {:induction false} ReachedMonotone(tiers: seq<Tier>, n1: int, n2: int)
    requires n1 <= n2
    ensures FirstReached(tiers, n2) <= FirstReached(tiers, n1)
    decreases |tiers|
  {
    if tiers != [] && tiers[0].bound > n2 {
      ReachedMonotone(tiers[1..], n1, n2);
    }
  }

  /** A better (smaller) rank never lands in a lower tier. */
  lemma {:induction false} WithinMonotone(tiers: seq<Tier>, r1: int, r2: int)
    requires r1 <= r2
    ensures FirstWithin(tiers, r1) <= FirstWithin(tiers, r2)
    decreases |tiers|
  {
    if tiers != [] && r2 > tiers[0].bound {
      WithinMonotone(tiers[1..], r1, r2);
    }
  }

  /** Where each rank falls in the rank table. */
  lemma RankTier(r: int)
    requires r >= 1
    ensures FirstWithin(RANK_TIERS, r) ==
      if r <= 1 then 0 else if r <= 3 then 1 else if r <= 10 then 2 else if r <= 25 then 3 else if r <= 50 then 4 else 5
  {
    var t0 := RANK_TIERS;
    var t1 := [Tier(3, TOP_3), Tier(10, TOP_10), Tier(25, TOP_25), Tier(50, TOP_50)];
    var t2 := [Tier(10, TOP_10), Tier(25, TOP_25), Tier(50, TOP_50)];
    var t3 := [Tier(25, TOP_25), Tier(50, TOP_50)];
    var t4 := [Tier(50, TOP_50)];
    assert t0[1..] == t1 && t1[1..] == t2 && t2[1..] == t3 && t3[1..] == t4 && t4[1..] == [];
    if r > 1 {
      assert FirstWithin(t0, r) == 1 + FirstWithin(t1, r);
      if r > 3 {
        assert FirstWithin(t1, r) == 1 + FirstWithin(t2, r);
        if r > 10 {
          assert FirstWithin(t2, r) == 1 + FirstWithin(t3, r);
          if r > 25 {
            assert FirstWithin(t3, r) == 1 + FirstWithin(t4, r);
          }
        }
      }
    }
  }

  /** Where each first-blood count falls in its table. */
  lemma BloodTier(n: int)
    ensures FirstReached(BLOOD_TIERS, n) == if n >= 10 then 0 else if n >= 5 then 1 else if n >= 1 then 2 else 3
  {
    var t0 := BLOOD_TIERS;
    var t1 := [Tier(5, BLOODS_5), Tier(1, BLOOD_1)];
    var t2 := [Tier(1, BLOOD_1)];
    assert t0[1..] == t1 && t1[1..] == t2 && t2[1..] == [];
    if n < 10 {
      assert FirstReached(t0, n) == 1 + FirstReached(t1, n);
      if n < 5 {
        assert FirstReached(t1, n) == 1 + FirstReached(t2, n);
      }
    }
  }

  /** Where each solve count falls in its table. */
  lemma SolveTier(n: int)
    ensures FirstReached(SOLVE_TIERS, n) ==
      if n >= 100 then 0 else if n >= 50 then 1 else if n >= 25 then 2 else if n >= 10 then 3 else 4
  {
    var t0 := SOLVE_TIERS;
    var t1 := [Tier(50, SOLVES_50), Tier(25, SOLVES_25), Tier(10, SOLVES_10)];
    var t2 := [Tier(25, SOLVES_25), Tier(10, SOLVES_10)];
    var t3 := [Tier(10, SOLVES_10)];
    assert t0[1..] == t1 && t1[1..] == t2 && t2[1..] == t3 && t3[1..] == [];
    if n < 100 {
      assert FirstReached(t0, n) == 1 + FirstReached(t1, n);
      if n < 50 {
        assert FirstReached(t1, n) == 1 + FirstReached(t2, n);
      }
    }
  }

  // ---------------------------------------------------------------------
  // getUserBadges
  // ---------------------------------------------------------------------

  /** The rank badge the tiers give: none for a null or zero rank; `rank &&
      rank <= 3` also lets a negative rank through as "Top 3". A positive
      rank earns a badge exactly up to 50, and "Top 1" exactly at 1. */
  function RankBadge(rank: Option<int>): (r: Option<Badge>)
    ensures r.None? <==> rank.None? || rank.value == 0 || rank.value > 50
    ensures r == Some(TOP_1) <==> rank == Some(1)
  {
    if rank.None? || rank.value == 0 then None
    else if rank.value < 0 then Some(TOP_3)
    else
      RankTier(rank.value);
      BadgeAt(RANK_TIERS, FirstWithin(RANK_TIERS, rank.value))
  }

  function AsList(b: Option<Badge>): seq<Badge> {
    if b.Some? then [b.value] else []
  }

  /** `getUserBadges`: three if-chains push at most one rank badge, one
      first-blood badge and one solves badge, in that order, as the tier
      tables say. */
  method UserBadges(rank: Option<int>, firstBloodCount: int, solvedCount: int) returns (badges: seq<Badge>)
    ensures badges == AsList(RankBadge(rank)) +
                      AsList(BadgeAt(BLOOD_TIERS, FirstReached(BLOOD_TIERS, firstBloodCount))) +
                      AsList(BadgeAt(SOLVE_TIERS, FirstReached(SOLVE_TIERS, solvedCount)))
    ensures |badges| <= 3
  {
    badges := [];
    badges := PushRankBadge(badges, rank);
    badges := PushBloodBadge(badges, firstBloodCount);
    badges := PushSolvesBadge(badges, solvedCount);
  }

  /** The rank chain; it pushes without returning early. */
  method PushRankBadge(badges: seq<Badge>, rank: Option<int>) returns (r: seq<Badge>)
    ensures r == badges + AsList(RankBadge(rank))
  {
    r := badges;
    var truthy := rank.Some? && rank.value != 0;
    if rank.Some? && rank.value >= 1 {
      RankTier(rank.value);
    }
    if rank == Some(1) {
      r := r + [TOP_1];
    } else if truthy && rank.value <= 3 {
      r := r + [TOP_3];
    } else if truthy && rank.value <= 10 {
      r := r + [TOP_10];
    } else if truthy && rank.value <= 25 {
      r := r + [TOP_25];
    } else if truthy && rank.value <= 50 {
      r := r + [TOP_50];
    } else {
      assert r == badges + [];
    }
  }

  /** The first-blood chain: only the highest tier reached. */
  method PushBloodBadge(badges: seq<Badge>, firstBloodCount: int) returns (r: seq<Badge>)
    ensures r == badges + AsList(BadgeAt(BLOOD_TIERS, FirstReached(BLOOD_TIERS, firstBloodCount)))
  {
    r := badges;
    BloodTier(firstBloodCount);
    if firstBloodCount >= 10 {
      r := r + [KING];
    } else if firstBloodCount >= 5 {
      r := r + [BLOODS_5];
    } else if firstBloodCount >= 1 {
      r := r + [BLOOD_1];
    } else {
      assert r == badges + [];
    }
  }

  /** The solves chain. */
  method PushSolvesBadge(badges: seq<Badge>, solvedCount: int) returns (r: seq<Badge>)
    ensures r == badges + AsList(BadgeAt(SOLVE_TIERS, FirstReached(SOLVE_TIERS, solvedCount)))
  {
    r := badges;
    SolveTier(solvedCount);
    if solvedCount >= 100 {
      r := r + [SOLVES_100];
    } else if solvedCount >= 50 {
      r := r + [SOLVES_50];
    } else if solvedCount >= 25 {
      r := r + [SOLVES_25];
    } else if solvedCount >= 10 {
      r := r + [SOLVES_10];
    } else {
      assert r == badges + [];
    }
  }

  /** Which counts earn a badge at all: one first blood, ten solves (the
      ranks are stated on `RankBadge`). */
  lemma BadgeThresholds(firstBloodCount: int, solvedCount: int)
    ensures BadgeAt(BLOOD_TIERS, FirstReached(BLOOD_TIERS, firstBloodCount)).Some? <==> firstBloodCount >= 1
    ensures BadgeAt(SOLVE_TIERS, FirstReached(SOLVE_TIERS, solvedCount)).Some? <==> solvedCount >= 10
  {
    BloodTier(firstBloodCount);
    SolveTier(solvedCount);
  }

  // ---------------------------------------------------------------------
  // The rest of the profile
  // ---------------------------------------------------------------------

  /** The first bloods shown: the fetched challenge ids that are also among
      the solved ones, in fetched order. */
  function ShownFirstBloods(fetched: seq<string>, solved: seq<string>): (r: seq<string>)
    ensures forall id :: id in r <==> id in fetched && id in solved
    ensures IsSubseq(r, fetched)
  {
    FilterSubseq(fetched, (id: string) => id in solved);
    Filter(fetched, (id: string) => id in solved)
  }

  /** The extra badge for a best-ever rank: its caption and border colours,
      shown when `highest_rank && highest_rank <= 3`. */
  function PernahTop(highest: Option<int>): (r: Option<(string, string)>)
    ensures r.Some? <==> highest.Some? && highest.value != 0 && highest.value <= 3
    ensures r.Some? ==> r.value.0 == "Pernah Top " + IntToString(highest.value)
  {
    if highest.None? || highest.value == 0 || highest.value > 3 then None
    else
      var style :=
        if highest.value == 1 then "border-yellow-400 bg-yellow-100 text-yellow-900"
        else if highest.value == 2 then "border-gray-400 bg-gray-100 text-gray-900"
        else "border-orange-400 bg-orange-100 text-orange-900";
      Some(("Pernah Top " + IntToString(highest.value), style))
  }

  /** The rank card: "0" for rank 0, otherwise "#" and the rank as a
      template literal prints it ("#null" for a null rank). */
  function RankText(rank: Option<int>): (r: string)
    ensures r == "0" <==> rank == Some(0)
    ensures rank != Some(0) ==> |r| > 1 && r[0] == '#'
    ensures rank.None? ==> r == "#null"
    ensures rank.Some? && rank.value > 0 ==> forall i :: 1 <= i < |r| ==> IsDigit(r[i])
    ensures rank.Some? && rank.value < 0 ==> |r| > 2 && r[1] == '-' && forall i :: 2 <= i < |r| ==> IsDigit(r[i])
  {
    if rank == Some(0) then "0"
    else "#" + (if rank.Some? then IntToString(rank.value) else "null")
  }

  /** The text after '#' reads back as the rank: the decimal digits of a
      positive rank, and a minus sign before the digits of a negative one. */
  lemma RankTextReadsBack(rank: int)
    requires rank != 0
    ensures var r := RankText(Some(rank));
      (rank > 0 ==> DigitsValue(r[1..]) == rank) &&
      (rank < 0 ==> DigitsValue(r[2..]) == -rank)
  {
    var r := RankText(Some(rank));
    if rank > 0 {
      var digits := NatToString(rank);
      assert r == "#" + digits;
      assert r[1..] == digits;
      NatToStringValue(rank);
    } else {
      var digits := NatToString(-rank);
      assert r == "#" + ("-" + digits);
      assert r[2..] == digits;
      NatToStringValue(-rank);
    }
  }

  /** The recent list: the first ten solves, with "Show All" offered exactly
      when some are left out. */
  function RecentSolves<T>(solved: seq<T>): (r: (seq<T>, bool))
    ensures r.0 <= solved && |r.0| <= 10
    ensures r.1 <==> |solved| > 10
    ensures r.1 <==> r.0 != solved
  {
    (Take(solved, 10), |solved| > 10)
  }
}
