/** The flag decoder of the sample challenge (soal/solve.py): every
    non-blank line of the file is an address block "a.b.c.d/n", and the
    flag is the characters whose code points are the first octets. The
    file is given as its lines; the result is the flag's code points (a
    Python string may hold any code point). */
module SolveScript {
  import opened Base
  import opened Strings
  import opened Sequences

  /** The exceptions the script can raise. */
  datatype SolveError =
    | Unpack      // the line does not split into exactly two parts at '/'
    | NotAnInt    // `int()` refuses the first octet
    | OutOfRange  // `chr()` refuses the value

  const MAX_CODE_POINT: int := 0x10FFFF

  predicate Blank(line: string) { Trim(line) == "" }

  /** `int(s)` for decimal text: surrounding whitespace, an optional sign,
      then one or more ASCII digits. */
  function ParseInt(s: string): (r: Option<int>)
    ensures r.Some? ==> Trim(s) != ""
  {
    var t := Trim(s);
    if t == "" then None
    else
      var sign := if t[0] == '-' then -1 else 1;
      var digits := if t[0] == '-' || t[0] == '+' then t[1..] else t;
      if digits != [] && forall i :: 0 <= i < |digits| ==> IsDigit(digits[i]) then Some(sign * DigitsValue(digits))
      else None
  }

  /** The code point a non-blank line contributes, or the exception. */
  function LineCode(line: string): (r: Result<int, SolveError>)
    ensures r.Ok? ==> 0 <= r.value <= MAX_CODE_POINT
    ensures r.Ok? ==> CountChar(Trim(line), '/') == 1
  {
    var parts := Split(Trim(line), '/');
    if |parts| != 2 then Err(Unpack)
    else match ParseInt(Split(parts[0], '.')[0])
      case None => Err(NotAnInt)
      case Some(a) => if 0 <= a <= MAX_CODE_POINT then Ok(a) else Err(OutOfRange)
  }

  /** One line of the loop: an earlier exception stands, a blank line adds
      nothing, any other line adds its code point or raises. */
  function Step(acc: Result<seq<int>, SolveError>, line: string): (r: Result<seq<int>, SolveError>)
    ensures acc.Err? ==> r == acc
    ensures acc.Ok? && Blank(line) ==> r == acc
    ensures acc.Ok? && !Blank(line) && LineCode(line).Ok? ==> r == Ok(acc.value + [LineCode(line).value])
    ensures acc.Ok? && !Blank(line) && LineCode(line).Err? ==> r == Err(LineCode(line).error)
  {
    if acc.Err? || Blank(line) then acc
    else match LineCode(line)
      case Err(e) => Err(e)
      case Ok(a) => Ok(acc.value + [a])
  }

  /** The decoding of a whole file, line by line from the top: the first
      failing non-blank line decides the exception. A decoded file has at
      most one code point per line, each a valid one for `chr`. */
  function Codes(lines: seq<string>): (r: Result<seq<int>, SolveError>)
    ensures r.Ok? ==> |r.value| <= |lines|
    ensures r.Ok? ==> forall k :: 0 <= k < |r.value| ==> 0 <= r.value[k] <= MAX_CODE_POINT
    decreases |lines|
  {
    if lines == [] then Ok([]) else Step(Codes(lines[..|lines| - 1]), lines[|lines| - 1])
  }

  lemma {:induction false} ErrorSticks(lines: seq<string>, j: nat, e: SolveError)
    requires j <= |lines| && Codes(lines[..j]) == Err(e)
    ensures Codes(lines) == Err(e)
    decreases |lines| - j
  {
    if j < |lines| {
      assert lines[..j + 1][..j] == lines[..j];
      ErrorSticks(lines, j + 1, e);
    } else {
      assert lines[..j] == lines;
    }
  }

  predicate NonBlank(line: string) { !Blank(line) }

  /** A decoded file has one code point per non-blank line, in order, each
      the line's own. */
  lemma {:induction false} DecodedLines(lines: seq<string>)
    requires Codes(lines).Ok?
    ensures var kept := Filter(lines, NonBlank);
      |Codes(lines).value| == |kept| &&
      forall k :: 0 <= k < |kept| ==> LineCode(kept[k]) == Ok(Codes(lines).value[k])
    decreases |lines|
  {
    if lines != [] {
      var init := lines[..|lines| - 1];
      var last := lines[|lines| - 1];
      assert lines == init + [last];
      FilterAppend(init, [last], NonBlank);
      DecodedLines(init);
      DecodedStep(Codes(init).value, Filter(init, NonBlank), last);
    }
  }

  lemma DecodedStep(cs: seq<int>, kept: seq<string>, last: string)
    requires Step(Ok(cs), last).Ok?
    requires |cs| == |kept| && forall k :: 0 <= k < |kept| ==> LineCode(kept[k]) == Ok(cs[k])
    ensures var kept' := kept + Filter([last], NonBlank);
      var cs' := Step(Ok(cs), last).value;
      |cs'| == |kept'| && forall k :: 0 <= k < |kept'| ==> LineCode(kept'[k]) == Ok(cs'[k])
  {
    if Blank(last) {
      assert Filter([last], NonBlank) == [];
      assert kept + [] == kept;
    } else {
      assert Filter([last], NonBlank) == [last];
    }
  }

  /** A failure comes from a non-blank line that fails on its own. */
  lemma {:induction false} FailingLine(lines: seq<string>)
    requires Codes(lines).Err?
    ensures exists line :: line in lines && !Blank(line) && LineCode(line) == Err(Codes(lines).error)
    decreases |lines|
  {
    var init := lines[..|lines| - 1];
    var last := lines[|lines| - 1];
    if Codes(init).Err? {
      FailingLine(init);
      assert forall line :: line in init ==> line in lines;
    } else {
      assert last in lines;
    }
  }

  /** `solve`: strips each line, skips blank ones and appends the decoded
      character of the others; the first exception ends the run. */
  method Solve(lines: seq<string>) returns (r: Result<seq<int>, SolveError>)
    ensures r == Codes(lines)
  {
    var chars: seq<int> := [];
    for i := 0 to |lines|
      invariant Codes(lines[..i]) == Ok(chars)
    {
      assert lines[..i + 1][..i] == lines[..i];
      var line := lines[i];
      if Blank(line) {
        continue;
      }
      match LineCode(line)
      case Err(e) =>
        ErrorSticks(lines, i + 1, e);
        return Err(e);
      case Ok(a) =>
        chars := chars + [a];
    }
    assert lines[..|lines|] == lines;
    return Ok(chars);
  }

  /** The text `String(n)` reads back as `n`. */
  lemma ParseNat(n: nat)
    ensures ParseInt(NatToString(n)) == Some(n)
  {
    var s := NatToString(n);
    TrimUnspaced(s);
    NatToStringValue(n);
  }

  lemma TrimUnspaced(s: string)
    requires s != [] && !IsSpace(s[0]) && !IsSpace(s[|s| - 1])
    ensures Trim(s) == s
  {
    assert LeadingSpaces(s) == 0;
    assert s[0..] == s;
    assert TrailingStart(s) == |s|;
  }

  /** The line a challenge author writes for a code point, "a.0.0.0/8",
      decodes back to it. */
  lemma BlockLineDecodes(a: nat)
    requires a <= MAX_CODE_POINT
    ensures LineCode(NatToString(a) + ".0.0.0/8") == Ok(a)
  {
    var digits := NatToString(a);
    var line := digits + ".0.0.0/8";
    BlockParts(digits);
    ParseNat(a);
    assert ParseInt(Split(Split(Trim(line), '/')[0], '.')[0]) == Some(a);
  }

  /** How "d.0.0.0/8" splits, for a run of digits `d`. */
  lemma BlockParts(digits: string)
    requires digits != [] && forall i :: 0 <= i < |digits| ==> IsDigit(digits[i])
    ensures var line := digits + ".0.0.0/8";
      Trim(line) == line && |Split(line, '/')| == 2 && Split(Split(line, '/')[0], '.')[0] == digits
  {
    var head := digits + ".0.0.0";
    var line := digits + ".0.0.0/8";
    assert line == head + ['/'] + "8";
    TrimUnspaced(line);
    assert '/' !in digits && '.' !in digits by {
      forall i | 0 <= i < |digits| ensures digits[i] != '/' && digits[i] != '.' {
        assert IsDigit(digits[i]);
      }
    }
    SplitAround(head, "8", '/');
    SplitWithoutSep("8", '/');
    assert head == digits + ['.'] + "0.0.0";
    SplitAround(digits, "0.0.0", '.');
  }
}
