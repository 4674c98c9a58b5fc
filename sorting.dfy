/** Insertion sort by a comparison, the model of JavaScript's
    `Array.prototype.sort` with a comparator and of Python's `sorted`. */
module Sorting {
  import opened Sequences
  import opened Strings

  ghost predicate Total<T(!new)>(le: (T, T) -> bool) {
    forall a, b :: le(a, b) || le(b, a)
  }

  ghost predicate Transitive<T(!new)>(le: (T, T) -> bool) {
    forall a, b, c :: le(a, b) && le(b, c) ==> le(a, c)
  }

  /** Each element is ordered before its successor. */
  predicate Sorted<T>(s: seq<T>, le: (T, T) -> bool) {
    forall i :: 0 < i < |s| ==> le(s[i - 1], s[i])
  }

  /** Every earlier element is ordered before every later one. */
  predicate SortedAll<T>(s: seq<T>, le: (T, T) -> bool) {
    forall i, j :: 0 <= i < j < |s| ==> le(s[i], s[j])
  }

  /** Places `x` in front of the first element it may precede, so that it
      stays ahead of the equal elements that came after it in the input. */
  function Insert<T(!new)>(x: T, s: seq<T>, le: (T, T) -> bool): (r: seq<T>)
    requires Total(le)
    requires Sorted(s, le)
    ensures Sorted(r, le)
    ensures multiset(r) == multiset(s) + multiset{x}
    ensures |r| == |s| + 1
    ensures r != [] && (r[0] == x || (s != [] && r[0] == s[0]))
  {
    if s == [] then [x]
    else if le(x, s[0]) then [x] + s
    else
      var rest := Insert(x, s[1..], le);
      assert s == [s[0]] + s[1..];
      [s[0]] + rest
  }

  function Sort<T(!new)>(s: seq<T>, le: (T, T) -> bool): (r: seq<T>)
    requires Total(le)
    ensures Sorted(r, le)
    ensures multiset(r) == multiset(s)
    ensures |r| == |s|
  {
    if s == [] then []
    else
      assert s == [s[0]] + s[1..];
      Insert(s[0], Sort(s[1..], le), le)
  }

  /** With a transitive order, neighbour order is order between all pairs. */
  lemma {:induction false} SortedAllPairs<T(!new)>(s: seq<T>, le: (T, T) -> bool)
    requires Transitive(le)
    requires Sorted(s, le)
    ensures SortedAll(s, le)
  {
    forall i, j | 0 <= i < j < |s| ensures le(s[i], s[j]) {
      var k := i + 1;
      while k < j
        invariant i < k <= j
        invariant le(s[i], s[k])
      {
        k := k + 1;
      }
    }
  }

  /** Integer keys compared ascending. */
  function ByKey<T(!new)>(key: T -> int): (le: (T, T) -> bool)
    ensures Total(le) && Transitive(le)
    ensures forall a, b :: le(a, b) <==> key(a) <= key(b)
  {
    (a: T, b: T) => key(a) <= key(b)
  }

  /** Integer keys compared descending (`(a, b) => key(b) - key(a)`). */
  function ByKeyDesc<T(!new)>(key: T -> int): (le: (T, T) -> bool)
    ensures Total(le) && Transitive(le)
    ensures forall a, b :: le(a, b) <==> key(a) >= key(b)
  {
    (a: T, b: T) => key(a) >= key(b)
  }

  /** Code-point order of strings, the comparison of JavaScript's `sort()`
      without a comparator. */
  function ByText(): (le: (string, string) -> bool)
    ensures Total(le) && Transitive(le)
    ensures forall a, b :: le(a, b) <==> LexLe(a, b)
  {
    forall a, b ensures LexLe(a, b) || LexLe(b, a) { LexLeTotal(a, b); }
    forall a, b, c | LexLe(a, b) && LexLe(b, c) ensures LexLe(a, c) { LexLeTrans(a, b, c); }
    (a: string, b: string) => LexLe(a, b)
  }

  /** In a list ordered by `key`, an element with at least `n` distinct
      strictly later elements is not among the last `n`. */
  lemma PickOutside<T>(a: set<T>, b: set<T>) returns (x: T)
    requires |a| > |b|
    ensures x in a && x !in b
  {
    var both := a * b;
    assert a == both + (a - b);
    assert b == both + (b - a);
    assert |a - b| > 0;
    x :| x in a - b;
  }

  /** The set of elements from index `p` on has at most `|s| - p` members. */
  lemma TailSet<T>(s: seq<T>, p: nat) returns (tail: set<T>)
    requires p <= |s|
    ensures |tail| <= |s| - p
    ensures forall j :: p <= j < |s| ==> s[j] in tail
  {
    var after := s[p..];
    tail := set x | x in after;
    CardSeqSet(after);
    forall j | p <= j < |s| ensures s[j] in tail {
      assert after[j - p] == s[j];
    }
  }

  lemma CutAt<T>(s: seq<T>, key: T -> int, e: T, later: set<T>, p: nat)
    requires forall i, j :: 0 <= i < j < |s| ==> key(s[i]) <= key(s[j])
    requires forall x :: x in later ==> x in s && key(x) > key(e)
    requires p < |s| && |later| > |s| - p - 1
    ensures s[p] != e
  {
    var tail := TailSet(s, p + 1);
    var x := PickOutside(later, tail);
    var q :| 0 <= q < |s| && s[q] == x;
    assert q <= p;
    assert key(x) <= key(s[p]);
  }

  lemma CutByLater<T>(s: seq<T>, key: T -> int, e: T, later: set<T>, n: nat)
    requires forall i, j :: 0 <= i < j < |s| ==> key(s[i]) <= key(s[j])
    requires forall x :: x in later ==> x in s && key(x) > key(e)
    requires |later| >= n
    ensures e !in Last(s, n)
  {
    var t := Last(s, n);
    var d := |s| - |t|;
    forall k | 0 <= k < |t| ensures t[k] != e {
      CutAt(s, key, e, later, d + k);
    }
  }
}
