/** Generic list operations behind `filter`, `new Set(...)` and
    de-duplication by key. */
module Sequences {

  predicate NoDups<T(==)>(s: seq<T>) {
    forall i, j :: 0 <= i < j < |s| ==> s[i] != s[j]
  }

  /** Taking one more element of a sequence. */
  lemma TakeSnoc<T>(s: seq<T>, i: nat)
    requires i < |s|
    ensures s[..i + 1] == s[..i] + [s[i]]
  {
  }

  lemma NoDupsDrop<T>(s: seq<T>, k: nat)
    requires k <= |s|
    requires NoDups(s)
    ensures NoDups(s[k..])
  {
    forall i, j | 0 <= i < j < |s| - k ensures s[k..][i] != s[k..][j] {
      assert s[k..][i] == s[k + i] && s[k..][j] == s[k + j];
    }
  }

  /** `r` keeps some of the elements of `s`, in their original order. */
  predicate IsSubseq<T(==)>(r: seq<T>, s: seq<T>)
    decreases |s|
  {
    r == [] || (s != [] && ((r[0] == s[0] && IsSubseq(r[1..], s[1..])) || IsSubseq(r, s[1..])))
  }

  lemma {:induction false} SubseqSelf<T>(s: seq<T>)
    ensures IsSubseq(s, s)
    decreases |s|
  {
    if s != [] { SubseqSelf(s[1..]); }
  }

  lemma {:induction false} PrefixSubseq<T>(p: seq<T>, s: seq<T>)
    requires p <= s
    ensures IsSubseq(p, s)
    decreases |s|
  {
    if p != [] {
      assert p[1..] <= s[1..];
      PrefixSubseq(p[1..], s[1..]);
    }
  }

  lemma {:induction false} SubseqTrans<T>(a: seq<T>, b: seq<T>, c: seq<T>)
    requires IsSubseq(a, b) && IsSubseq(b, c)
    ensures IsSubseq(a, c)
    decreases |c|
  {
    if a != [] {
      assert b != [] && c != [];
      if IsSubseq(b, c[1..]) {
        SubseqTrans(a, b, c[1..]);
      } else if a[0] == b[0] && IsSubseq(a[1..], b[1..]) {
        SubseqTrans(a[1..], b[1..], c[1..]);
      } else {
        SubseqTrans(a, b[1..], c[1..]);
      }
    }
  }

  lemma {:induction false} SubseqMembers<T>(r: seq<T>, s: seq<T>)
    requires IsSubseq(r, s)
    ensures forall x :: x in r ==> x in s
    decreases |s|
  {
    if r != [] {
      if r[0] == s[0] && IsSubseq(r[1..], s[1..]) {
        SubseqMembers(r[1..], s[1..]);
        assert forall x :: x in r ==> x == r[0] || x in r[1..];
      } else {
        SubseqMembers(r, s[1..]);
      }
    }
  }

  /** `s.filter(f)`. */
  function Filter<T(!new)>(s: seq<T>, f: T -> bool): (r: seq<T>)
    ensures |r| <= |s|
    ensures forall x :: x in r <==> x in s && f(x)
  {
    if s == [] then []
    else
      var rest := Filter(s[1..], f);
      if f(s[0]) then [s[0]] + rest else rest
  }

  /** A filter that every element passes keeps the whole list. */
  lemma {:induction false} FilterAll<T(!new)>(s: seq<T>, f: T -> bool)
    requires forall x :: x in s ==> f(x)
    ensures Filter(s, f) == s
  {
    if s != [] {
      FilterAll(s[1..], f);
    }
  }

  /** A filter that no element passes leaves nothing. */
  lemma {:induction false} FilterNone<T(!new)>(s: seq<T>, f: T -> bool)
    requires forall x :: x in s ==> !f(x)
    ensures Filter(s, f) == []
  {
    if s != [] {
      FilterNone(s[1..], f);
    }
  }

  /** A filtered list keeps its elements in their original order. */
  lemma {:induction false} FilterSubseq<T(!new)>(s: seq<T>, f: T -> bool)
    ensures IsSubseq(Filter(s, f), s)
    decreases |s|
  {
    if s != [] {
      FilterSubseq(s[1..], f);
      var rest := Filter(s[1..], f);
      if f(s[0]) {
        assert ([s[0]] + rest)[1..] == rest;
      }
    }
  }

  lemma {:induction false} FilterAppend<T(!new)>(a: seq<T>, b: seq<T>, f: T -> bool)
    ensures Filter(a + b, f) == Filter(a, f) + Filter(b, f)
    decreases |a|
  {
    if a == [] {
      assert a + b == b;
    } else {
      var ab := a + b;
      assert ab[0] == a[0] && ab[1..] == a[1..] + b;
      FilterAppend(a[1..], b, f);
      if f(a[0]) {
        assert Filter(ab, f) == [a[0]] + Filter(a[1..] + b, f);
        assert Filter(a, f) == [a[0]] + Filter(a[1..], f);
      } else {
        assert Filter(ab, f) == Filter(a[1..] + b, f);
        assert Filter(a, f) == Filter(a[1..], f);
      }
    }
  }

  lemma {:induction false} FilterNoDups<T(!new)>(s: seq<T>, f: T -> bool)
    requires NoDups(s)
    ensures NoDups(Filter(s, f))
    decreases |s|
  {
    if s != [] {
      NoDupsDrop(s, 1);
      FilterNoDups(s[1..], f);
      assert s[0] !in s[1..];
    }
  }

  /** How many elements of `s` satisfy `f`. */
  function CountIf<T(!new)>(s: seq<T>, f: T -> bool): (n: nat)
    ensures n <= |s|
  {
    if s == [] then 0 else (if f(s[0]) then 1 else 0) + CountIf(s[1..], f)
  }

  lemma {:induction false} CountIfAppend<T(!new)>(a: seq<T>, b: seq<T>, f: T -> bool)
    ensures CountIf(a + b, f) == CountIf(a, f) + CountIf(b, f)
    decreases |a|
  {
    if a == [] {
      assert a + b == b;
    } else {
      CountIfAppend(a[1..], b, f);
      assert (a + b)[1..] == a[1..] + b;
    }
  }

  function Keys<T, K>(s: seq<T>, key: T -> K): (r: seq<K>)
    ensures |r| == |s|
    ensures forall i :: 0 <= i < |s| ==> r[i] == key(s[i])
  {
    if s == [] then [] else [key(s[0])] + Keys(s[1..], key)
  }

  /** Appends `x` unless an element with the same key is already kept. */
  function KeepFirst<T, K(==)>(r: seq<T>, x: T, key: T -> K): (r': seq<T>)
    ensures r <= r'
    ensures r' == r || r' == r + [x]
  {
    if key(x) in Keys(r, key) then r else r + [x]
  }

  /** The first element of `s` for every key, in order of first
      appearance (a `Map` or `Set` filled from the left and read back). */
  function DistinctBy<T, K(==)>(s: seq<T>, key: T -> K): (r: seq<T>)
    ensures NoDups(Keys(r, key))
    ensures forall x :: x in r ==> x in s
    ensures forall x :: x in s ==> key(x) in Keys(r, key)
    ensures |r| <= |s|
    decreases |s|
  {
    if s == [] then []
    else
      var r := DistinctBy(s[..|s| - 1], key);
      var x := s[|s| - 1];
      assert forall y :: y in s ==> y in s[..|s| - 1] || y == x;
      assert Keys(r + [x], key) == Keys(r, key) + [key(x)];
      KeepFirst(r, x, key)
  }

  /** `Array.from(new Set(s))`. */
  function Distinct<T(==,!new)>(s: seq<T>): (r: seq<T>)
    ensures NoDups(r)
    ensures forall x :: x in r <==> x in s
    ensures |r| <= |s|
  {
    var r := DistinctBy(s, Itself);
    assert Keys(r, Itself) == r;
    r
  }

  function Itself<T>(x: T): T { x }

  /** A list without repetitions, de-duplicated together with more
      elements, stays in front. */
  lemma DistinctKeepsPrefix<T(!new)>(a: seq<T>, b: seq<T>)
    requires NoDups(a)
    ensures a <= Distinct(a + b)
  {
    var s := a + b;
    assert s[..|a|] == a;
    DistinctByPrefix(s, |a|, Itself);
    assert Keys(a, Itself) == a;
    DistinctByNoDups(a, Itself);
  }

  /** De-duplicating a longer list keeps the result for its prefix in front. */
  lemma {:induction false} DistinctByPrefix<T, K>(s: seq<T>, k: nat, key: T -> K)
    requires k <= |s|
    ensures DistinctBy(s[..k], key) <= DistinctBy(s, key)
    decreases |s|
  {
    if k == |s| {
      assert s[..k] == s;
    } else {
      var init := s[..|s| - 1];
      assert s[..k] == init[..k];
      DistinctByPrefix(init, k, key);
      assert DistinctBy(s, key) == KeepFirst(DistinctBy(init, key), s[|s| - 1], key);
    }
  }

  /** `Distinct` lists values in order of first appearance: one more
      element is appended when it is new and changes nothing otherwise,
      as adding to a `Set` does. */
  lemma DistinctAppend<T(!new)>(s: seq<T>, x: T)
    ensures Distinct(s + [x]) == if x in s then Distinct(s) else Distinct(s) + [x]
  {
    var t := s + [x];
    assert t[..|t| - 1] == s;
    var d := Distinct(s);
    assert Keys(d, Itself) == d;
  }

  /** A list without repeated keys is its own de-duplication. */
  lemma {:induction false} DistinctByNoDups<T, K>(s: seq<T>, key: T -> K)
    requires NoDups(Keys(s, key))
    ensures DistinctBy(s, key) == s
    decreases |s|
  {
    if s != [] {
      var init := s[..|s| - 1];
      assert Keys(init, key) == Keys(s, key)[..|s| - 1];
      DistinctByNoDups(init, key);
      assert key(s[|s| - 1]) !in Keys(init, key);
    }
  }
  /** JavaScript `s.slice(0, n)` and Python `s[:n]` for `n >= 0`. */
  function Take<T>(s: seq<T>, n: nat): (r: seq<T>)
    ensures |r| == if |s| < n then |s| else n
    ensures r <= s
  {
    if |s| <= n then s else s[..n]
  }

  /** Python `s[-n:]` for `n >= 1`. */
  function Last<T>(s: seq<T>, n: nat): (r: seq<T>)
    ensures |r| == if |s| < n then |s| else n
    ensures r == s[|s| - |r|..]
  {
    if |s| <= n then s else s[|s| - n..]
  }

  lemma {:induction false} CardSeqSet<T>(s: seq<T>)
    ensures |set x | x in s| <= |s|
  {
    if s != [] {
      var init := s[..|s| - 1];
      CardSeqSet(init);
      assert (set x | x in s) == (set x | x in init) + {s[|s| - 1]};
    }
  }

  lemma {:induction false} CardSeqSetNoDups<T>(s: seq<T>)
    requires NoDups(s)
    ensures |set x | x in s| == |s|
  {
    if s != [] {
      var init := s[..|s| - 1];
      CardSeqSetNoDups(init);
      assert s[|s| - 1] !in init;
      assert (set x | x in s) == (set x | x in init) + {s[|s| - 1]};
    }
  }

  lemma {:induction false} MultisetCount<T>(s: seq<T>, i: nat, j: nat)
    requires i < j < |s| && s[i] == s[j]
    ensures multiset(s)[s[i]] >= 2
  {
    assert s == s[..j] + s[j..];
    assert s[i] in s[..j];
    assert s[j] in s[j..];
    assert multiset(s) == multiset(s[..j]) + multiset(s[j..]);
  }

  lemma {:induction false} NoDupsCount<T>(s: seq<T>, x: T)
    requires NoDups(s)
    ensures multiset(s)[x] <= 1
  {
    if s != [] {
      var init := s[..|s| - 1];
      NoDupsCount(init, x);
      assert s == init + [s[|s| - 1]];
      assert s[|s| - 1] !in init;
    }
  }

  lemma NoDupsConcat<T>(a: seq<T>, b: seq<T>)
    requires NoDups(a) && NoDups(b)
    requires forall x :: x in a ==> x !in b
    ensures NoDups(a + b)
  {
    forall i, j | 0 <= i < j < |a + b| ensures (a + b)[i] != (a + b)[j] {
      if j < |a| {
      } else if i >= |a| {
        assert (a + b)[i] == b[i - |a|] && (a + b)[j] == b[j - |a|];
      } else {
        assert (a + b)[i] in a && (a + b)[j] == b[j - |a|];
      }
    }
  }

  /** A rearrangement of a list without repeats has none either. */
  lemma NoDupsPermutation<T>(a: seq<T>, b: seq<T>)
    requires multiset(a) == multiset(b)
    requires NoDups(a)
    ensures NoDups(b)
  {
    forall i, j | 0 <= i < j < |b| ensures b[i] != b[j] {
      if b[i] == b[j] {
        MultisetCount(b, i, j);
        NoDupsCount(a, b[i]);
      }
    }
  }

  /** Two lists without repeats and with the same members are
      rearrangements of each other. */
  lemma NoDupsSameMultiset<T>(a: seq<T>, b: seq<T>)
    requires NoDups(a) && NoDups(b)
    requires forall x :: x in a <==> x in b
    ensures multiset(a) == multiset(b)
  {
    forall x ensures multiset(a)[x] == multiset(b)[x] {
      NoDupsCount(a, x);
      NoDupsCount(b, x);
      if x in a {
        assert x in multiset(a) && x in multiset(b);
      } else {
        assert x !in multiset(a) && x !in multiset(b);
      }
    }
  }

  /** Permutations have the same members. */
  lemma SameMembers<T>(a: seq<T>, b: seq<T>)
    requires multiset(a) == multiset(b)
    ensures forall x :: x in a <==> x in b
  {
    forall x ensures x in a <==> x in b {
      assert x in a <==> x in multiset(a);
      assert x in b <==> x in multiset(b);
    }
  }
}
