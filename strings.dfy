/** String helpers shared by the Python bot and the TypeScript front end.
    Case mapping and whitespace are ASCII only. */
module Strings {

  /** The six ASCII whitespace characters that `str.strip`,
      `String.prototype.trim` and the regular expression class `\s` all
      treat as whitespace. Python's `str.strip` also strips the ASCII
      separators U+001C to U+001F, which this model does not. */
  predicate IsSpace(c: char) {
    c == ' ' || c == '\t' || c == '\n' || c == '\r' || c == '\U{000B}' || c == '\U{000C}'
  }

  predicate IsDigit(c: char) { '0' <= c <= '9' }
  predicate IsUpper(c: char) { 'A' <= c <= 'Z' }
  predicate IsLower(c: char) { 'a' <= c <= 'z' }
  predicate IsAsciiLetter(c: char) { IsUpper(c) || IsLower(c) }

  function LowerChar(c: char): (r: char)
    ensures !IsUpper(r)
    ensures IsUpper(c) || r == c
  {
    if IsUpper(c) then (c as int + 32) as char else c
  }

  function UpperChar(c: char): (r: char)
    ensures !IsLower(r)
    ensures IsLower(c) || r == c
  {
    if IsLower(c) then (c as int - 32) as char else c
  }

  /** `toLowerCase()` / `str.lower()` restricted to ASCII letters. */
  function Lower(s: string): (r: string)
    ensures |r| == |s|
    ensures forall i :: 0 <= i < |s| ==> r[i] == LowerChar(s[i])
  {
    if s == [] then [] else [LowerChar(s[0])] + Lower(s[1..])
  }

  function Upper(s: string): (r: string)
    ensures |r| == |s|
    ensures forall i :: 0 <= i < |s| ==> r[i] == UpperChar(s[i])
  {
    if s == [] then [] else [UpperChar(s[0])] + Upper(s[1..])
  }

  predicate IsBlank(s: string) {
    forall i :: 0 <= i < |s| ==> IsSpace(s[i])
  }

  /** The number of leading whitespace characters. */
  function LeadingSpaces(s: string): (k: nat)
    ensures k <= |s| && IsBlank(s[..k])
    ensures k < |s| ==> !IsSpace(s[k])
  {
    if s != [] && IsSpace(s[0]) then
      var k := LeadingSpaces(s[1..]);
      assert s[..k + 1] == [s[0]] + s[1..][..k];
      k + 1
    else 0
  }

  /** The index where trailing whitespace starts. */
  function TrailingStart(s: string): (k: nat)
    ensures k <= |s| && IsBlank(s[k..])
    ensures k > 0 ==> !IsSpace(s[k - 1])
  {
    if s != [] && IsSpace(s[|s| - 1]) then
      var k := TrailingStart(s[..|s| - 1]);
      assert s[k..] == s[..|s| - 1][k..] + [s[|s| - 1]];
      k
    else |s|
  }

  /** `trim()` / `strip()`: the input without leading and trailing whitespace. */
  function Trim(s: string): (r: string)
    ensures r == s[LeadingSpaces(s)..][..TrailingStart(s[LeadingSpaces(s)..])]
    ensures r != [] ==> !IsSpace(r[0]) && !IsSpace(r[|r| - 1])
    ensures r == [] <==> IsBlank(s)
  {
    var i := LeadingSpaces(s);
    var t := s[i..];
    var j := TrailingStart(t);
    var r := t[..j];
    assert r == [] ==> i == |s|;
    assert IsBlank(s) ==> i == |s|;
    assert r == [] ==> IsBlank(s) by {
      if r == [] {
        forall m | 0 <= m < |s| ensures IsSpace(s[m]) { assert s[m] == s[..i][m]; }
      }
    }
    r
  }

  predicate StartsWith(s: string, prefix: string) {
    |prefix| <= |s| && s[..|prefix|] == prefix
  }

  predicate EndsWith(s: string, suffix: string) {
    |suffix| <= |s| && s[|s| - |suffix|..] == suffix
  }

  predicate OccursAt(s: string, p: string, i: int) {
    0 <= i <= |s| - |p| && s[i..i + |p|] == p
  }

  /** `s.includes(p)` / Python's `p in s`: some position of `s` starts `p`. */
  predicate Contains(s: string, p: string) {
    exists i | 0 <= i <= |s| - |p| :: OccursAt(s, p, i)
  }

  lemma ContainsEmpty(s: string)
    ensures Contains(s, "")
  {
    assert OccursAt(s, "", 0);
  }

  lemma ContainsSelf(s: string)
    ensures Contains(s, s)
  {
    assert OccursAt(s, s, 0);
  }

  function CountChar(s: string, c: char): nat {
    if s == [] then 0 else (if s[0] == c then 1 else 0) + CountChar(s[1..], c)
  }

  /** `s.split(sep)` for a one-character separator (JavaScript and Python
      agree on it): the maximal pieces between separators. */
  function Split(s: string, sep: char): (r: seq<string>)
    ensures |r| == CountChar(s, sep) + 1
    ensures forall k :: 0 <= k < |r| ==> sep !in r[k]
    decreases |s|
  {
    if s == [] then [""]
    else
      var rest := Split(s[1..], sep);
      if s[0] == sep then [""] + rest
      else [[s[0]] + rest[0]] + rest[1..]
  }

  /** `parts.join(sep)`. */
  function Join(parts: seq<string>, sep: string): (r: string)
    ensures parts == [] ==> r == ""
  {
    if parts == [] then ""
    else if |parts| == 1 then parts[0]
    else parts[0] + sep + Join(parts[1..], sep)
  }

  /** A joined text opens with the first part and closes with the last. */
  lemma {:induction false} JoinEnds(parts: seq<string>, sep: string)
    requires parts != []
    ensures var r := Join(parts, sep); |parts[0]| <= |r| && r[..|parts[0]|] == parts[0]
    ensures var r, l := Join(parts, sep), parts[|parts| - 1]; |l| <= |r| && r[|r| - |l|..] == l
    decreases |parts|
  {
    if |parts| > 1 {
      JoinEnds(parts[1..], sep);
      assert parts[1..][|parts[1..]| - 1] == parts[|parts| - 1];
    }
  }

  /** Splitting and joining again on the same separator gives back the text. */
  lemma {:induction false} JoinSplit(s: string, sep: char)
    ensures Join(Split(s, sep), [sep]) == s
    decreases |s|
  {
    if s != [] {
      var rest := Split(s[1..], sep);
      JoinSplit(s[1..], sep);
      if s[0] == sep {
        assert Split(s, sep) == [""] + rest;
        assert s == [sep] + s[1..];
      } else {
        var r := Split(s, sep);
        assert r == [[s[0]] + rest[0]] + rest[1..];
        if |rest| == 1 {
          assert Join(rest, [sep]) == rest[0];
        } else {
          assert Join(rest, [sep]) == rest[0] + [sep] + Join(rest[1..], [sep]);
          assert r[1..] == rest[1..];
        }
      }
    }
  }

  /** The last piece of `s.split(sep)`, i.e. `split(sep).pop()`. */
  function LastPiece(s: string, sep: char): (r: string)
    ensures sep !in r
    ensures EndsWith(s, r)
  {
    var parts := Split(s, sep);
    LastPieceSuffix(s, sep);
    parts[|parts| - 1]
  }

  lemma {:induction false} CountCharMember(s: string, c: char)
    ensures CountChar(s, c) > 0 <==> c in s
  {
    if s != [] {
      CountCharMember(s[1..], c);
      assert s == [s[0]] + s[1..];
    }
  }

  /** A text without the separator is a single piece. */
  lemma {:induction false} SplitWithoutSep(s: string, sep: char)
    requires sep !in s
    ensures Split(s, sep) == [s]
    decreases |s|
  {
    if s != [] {
      assert sep !in s[1..];
      SplitWithoutSep(s[1..], sep);
      assert s == [s[0]] + s[1..];
    }
  }

  lemma LastPieceWithoutSep(s: string, sep: char)
    requires sep !in s
    ensures LastPiece(s, sep) == s
  {
    SplitWithoutSep(s, sep);
  }

  function LastOf(parts: seq<string>): string
    requires parts != []
  {
    parts[|parts| - 1]
  }

  /** The last piece is the whole text or follows the last separator. */
  lemma LastPieceMaximal(s: string, sep: char)
    ensures var p := LastPiece(s, sep);
      p == s || (|p| < |s| && s[|s| - |p| - 1] == sep)
  {
    SplitLastMaximal(s, sep);
  }

  lemma {:induction false} SplitLastMaximal(s: string, sep: char)
    ensures var p := LastOf(Split(s, sep));
      p == s || (|p| < |s| && s[|s| - |p| - 1] == sep)
    decreases |s|
  {
    if s != [] {
      SplitLastMaximal(s[1..], sep);
      var rest := Split(s[1..], sep);
      if s[0] == sep {
        SplitLastSep(s, sep);
      } else if |rest| == 1 {
        SplitLastWhole(s, sep);
      } else {
        SplitLastInner(s, sep);
      }
    }
  }

  lemma SplitLastSep(s: string, sep: char)
    requires s != [] && s[0] == sep
    requires var q := LastOf(Split(s[1..], sep)); q == s[1..] || (|q| < |s[1..]| && s[1..][|s[1..]| - |q| - 1] == sep)
    ensures var p := LastOf(Split(s, sep)); |p| < |s| && s[|s| - |p| - 1] == sep
  {
    var rest := Split(s[1..], sep);
    assert Split(s, sep) == [""] + rest;
    assert LastOf(Split(s, sep)) == LastOf(rest);
  }

  lemma SplitLastWhole(s: string, sep: char)
    requires s != [] && s[0] != sep && |Split(s[1..], sep)| == 1
    ensures LastOf(Split(s, sep)) == s
  {
    var rest := Split(s[1..], sep);
    JoinSplit(s[1..], sep);
    assert Split(s, sep) == [[s[0]] + rest[0]];
    assert s == [s[0]] + s[1..];
  }

  lemma SplitLastInner(s: string, sep: char)
    requires s != [] && s[0] != sep && |Split(s[1..], sep)| > 1
    requires var q := LastOf(Split(s[1..], sep)); q == s[1..] || (|q| < |s[1..]| && s[1..][|s[1..]| - |q| - 1] == sep)
    ensures var p := LastOf(Split(s, sep)); |p| < |s| && s[|s| - |p| - 1] == sep
  {
    var rest := Split(s[1..], sep);
    assert Split(s, sep) == [[s[0]] + rest[0]] + rest[1..];
    assert LastOf(Split(s, sep)) == LastOf(rest);
    CountCharMember(s[1..], sep);
    assert sep !in LastOf(rest);
  }

  lemma {:induction false} LastPieceSuffix(s: string, sep: char)
    ensures EndsWith(s, Split(s, sep)[|Split(s, sep)| - 1])
    decreases |s|
  {
    if s != [] {
      LastPieceSuffix(s[1..], sep);
      var rest := Split(s[1..], sep);
      var last := rest[|rest| - 1];
      if s[0] != sep && |rest| == 1 {
        assert Split(s, sep) == [[s[0]] + rest[0]];
        JoinSplit(s[1..], sep);
        assert s[1..] == rest[0];
        assert s == [s[0]] + rest[0];
      } else {
        assert Split(s, sep)[|Split(s, sep)| - 1] == last;
        assert s[|s| - |last|..] == s[1..][|s[1..]| - |last|..];
      }
    }
  }

  function DigitChar(d: nat): (c: char)
    requires d < 10
    ensures IsDigit(c)
  {
    ('0' as int + d) as char
  }

  /** `String(n)` / `str(n)` for a non-negative integer. */
  function NatToString(n: nat): (r: string)
    ensures r != []
    ensures forall i :: 0 <= i < |r| ==> IsDigit(r[i])
  {
    if n < 10 then [DigitChar(n)] else NatToString(n / 10) + [DigitChar(n % 10)]
  }

  /** The value of a string of decimal digits. */
  function DigitsValue(s: string): nat
    requires forall i :: 0 <= i < |s| ==> IsDigit(s[i])
  {
    if s == [] then 0 else assert IsDigit(s[|s| - 1]); 10 * DigitsValue(s[..|s| - 1]) + (s[|s| - 1] as int - '0' as int)
  }

  lemma {:induction false} NatToStringValue(n: nat)
    ensures DigitsValue(NatToString(n)) == n
  {
    if n >= 10 {
      NatToStringValue(n / 10);
      var r := NatToString(n);
      assert r[..|r| - 1] == NatToString(n / 10);
    }
  }

  /** `String(n)` for any integer. */
  function IntToString(n: int): (r: string)
    ensures r != []
  {
    if n < 0 then "-" + NatToString(-n) else NatToString(n)
  }

  /** Code-point order of strings: the order of JavaScript's default
      `sort()` and Python's string comparison on the characters modelled. */
  predicate LexLe(a: string, b: string) {
    a == [] || (b != [] && (a[0] < b[0] || (a[0] == b[0] && LexLe(a[1..], b[1..]))))
  }

  lemma {:induction false} LexLeTotal(a: string, b: string)
    ensures LexLe(a, b) || LexLe(b, a)
  {
    if a != [] && b != [] && a[0] == b[0] {
      LexLeTotal(a[1..], b[1..]);
    }
  }

  lemma {:induction false} LexLeTrans(a: string, b: string, c: string)
    requires LexLe(a, b) && LexLe(b, c)
    ensures LexLe(a, c)
  {
    if a != [] && b != [] && c != [] && a[0] == b[0] && b[0] == c[0] {
      LexLeTrans(a[1..], b[1..], c[1..]);
    }
  }

  lemma {:induction false} LexLeAntisym(a: string, b: string)
    requires LexLe(a, b) && LexLe(b, a)
    ensures a == b
  {
    if a != [] && b != [] {
      LexLeAntisym(a[1..], b[1..]);
      assert a == [a[0]] + a[1..] && b == [b[0]] + b[1..];
    }
  }

  /** Two different strings are ordered one way only. */
  lemma {:induction false} LexLeStrict(a: string, b: string)
    requires a != b && LexLe(a, b)
    ensures !LexLe(b, a)
  {
    if a != [] && b != [] && a[0] == b[0] {
      assert a == [a[0]] + a[1..] && b == [b[0]] + b[1..];
      LexLeStrict(a[1..], b[1..]);
    }
  }

  /** A text without the separator, then the separator, splits off as the
      first piece. */
  lemma {:induction false} SplitAround(a: string, b: string, sep: char)
    requires sep !in a
    ensures Split(a + [sep] + b, sep) == [a] + Split(b, sep)
    decreases |a|
  {
    var s := a + [sep] + b;
    if a == [] {
      assert s == [sep] + b;
      assert s[1..] == b;
    } else {
      assert s[1..] == a[1..] + [sep] + b;
      assert sep !in a[1..];
      SplitAround(a[1..], b, sep);
      assert a == [a[0]] + a[1..];
    }
  }

  /** The first piece of a split is the text up to the first separator. */
  lemma {:induction false} SplitHead(s: string, sep: char)
    ensures Split(s, sep)[0] <= s
    ensures |Split(s, sep)[0]| < |s| ==> s[|Split(s, sep)[0]|] == sep
    decreases |s|
  {
    if s != [] && s[0] != sep {
      SplitHead(s[1..], sep);
      var h := Split(s[1..], sep)[0];
      assert Split(s, sep)[0] == [s[0]] + h;
      assert s == [s[0]] + s[1..];
    }
  }
}
