/** The admin's challenge form (src/components/admin/ChallengeFormDialog.tsx):
    the dynamic-scoring switch and the numeric fields, each handler giving
    the new form that it passes to `onChange`. */
module ChallengeForm {
  import opened Strings

  /** A numeric field of the form: a number, or '' after the box is cleared. */
  datatype Field = Num(n: int) | Blank

  datatype FormAttachment = FormAttachment(name: string, url: string, kind: string)

  datatype Form = Form(
    title: string, description: string, category: string,
    points: Field, maxPoints: Field, flag: string, hint: seq<string>,
    difficulty: string, attachments: seq<FormAttachment>,
    isDynamic: bool, minPoints: Field, decayPerSolve: Field)

  /** The static points and the dynamic maximum hold the same value. */
  predicate Synced(f: Form) {
    f.points == f.maxPoints
  }

  /** What a number box can hold: decimal digits, or nothing. */
  predicate AllDigits(s: string) {
    forall i | 0 <= i < |s| :: IsDigit(s[i])
  }

  /** `replace(/^0+(?=\d)/, '')`: the leading zeros that a digit follows. */
  function StripLeadingZeros(s: string): (r: string)
    ensures |r| <= |s|
    ensures (r == "") <==> (s == "")
  {
    if |s| >= 2 && s[0] == '0' && IsDigit(s[1]) then StripLeadingZeros(s[1..]) else s
  }

  /** Stripping only removes a prefix. */
  lemma {:induction false} StripSuffix(s: string)
    ensures var r := StripLeadingZeros(s); s[|s| - |r|..] == r
    decreases |s|
  {
    if |s| >= 2 && s[0] == '0' && IsDigit(s[1]) {
      StripSuffix(s[1..]);
      var r := StripLeadingZeros(s);
      assert s[1..][|s| - 1 - |r|..] == s[|s| - |r|..];
    }
  }

  /** Of a string of digits, stripping leaves the last digit and never a
      leading zero in front of another digit. */
  lemma {:induction false} StripShape(s: string)
    requires AllDigits(s)
    ensures var r := StripLeadingZeros(s);
      AllDigits(r) && (|r| >= 2 ==> r[0] != '0')
    decreases |s|
  {
    if |s| >= 2 && s[0] == '0' && IsDigit(s[1]) {
      StripShape(s[1..]);
    }
  }

  /** Stripping does not change the number the digits denote. */
  lemma {:induction false} StripKeepsValue(s: string)
    requires AllDigits(s)
    ensures AllDigits(StripLeadingZeros(s))
    ensures DigitsValue(StripLeadingZeros(s)) == DigitsValue(s)
    decreases |s|
  {
    if |s| >= 2 && s[0] == '0' && IsDigit(s[1]) {
      StripKeepsValue(s[1..]);
      DropZeroValue(s);
    }
  }

  /** A leading zero adds nothing to the value. */
  lemma {:induction false} DropZeroValue(s: string)
    requires AllDigits(s) && s != [] && s[0] == '0'
    ensures DigitsValue(s) == DigitsValue(s[1..])
    decreases |s|
  {
    if |s| > 1 {
      var init := s[..|s| - 1];
      assert init[0] == '0';
      DropZeroValue(init);
      assert s[1..][..|s[1..]| - 1] == init[1..];
    }
  }

  lemma StripExamples()
    ensures StripLeadingZeros("007") == "7"
    ensures StripLeadingZeros("000") == "0"
    ensures StripLeadingZeros("") == ""
  {
    var a := "007";
    assert a[1..] == "07";
    var b := "07";
    assert b[1..] == "7";
    assert StripLeadingZeros(b) == StripLeadingZeros("7");
    var c := "000";
    assert c[1..] == "00";
    var d := "00";
    assert d[1..] == "0";
    assert StripLeadingZeros(d) == StripLeadingZeros("0");
  }

  /** `Number(val)` of a box's digits ('' stays ''). */
  function FieldOf(val: string): (r: Field)
    requires AllDigits(val)
    ensures r.Blank? <==> val == ""
  {
    if val == "" then Blank else Num(DigitsValue(val))
  }

  /** The value a box holds after typing `raw`: the stripped text's number,
      which is the number `raw` denotes. */
  function Typed(raw: string): (r: Field)
    requires AllDigits(raw)
    ensures r == FieldOf(raw)
  {
    StripKeepsValue(raw);
    FieldOf(StripLeadingZeros(raw))
  }

  /** The switch: turning dynamic scoring on copies `points` into
      `max_points`, turning it off copies `max_points` into `points`. */
  function ToggleDynamic(f: Form, on: bool): (r: Form)
    ensures Synced(r) && r.isDynamic == on
    ensures on ==> r.points == f.points
    ensures !on ==> r.maxPoints == f.maxPoints
    ensures r.(points := f.points, maxPoints := f.maxPoints, isDynamic := f.isDynamic) == f
  {
    if on then f.(isDynamic := true, maxPoints := f.points)
    else f.(isDynamic := false, points := f.maxPoints)
  }

  /** The static points box: both `points` and `max_points` take the typed
      number, or both become ''. */
  function OnPointsInput(f: Form, raw: string): (r: Form)
    requires AllDigits(raw)
    ensures Synced(r) && r.points == FieldOf(raw)
    ensures r.(points := f.points, maxPoints := f.maxPoints) == f
  {
    var v := Typed(raw);
    f.(points := v, maxPoints := v)
  }

  /** The dynamic maximum box: the same pair of fields as the static box. */
  function OnMaxPointsInput(f: Form, raw: string): (r: Form)
    requires AllDigits(raw)
    ensures Synced(r) && r.maxPoints == FieldOf(raw)
    ensures r == OnPointsInput(f, raw)
  {
    var v := Typed(raw);
    f.(maxPoints := v, points := v)
  }

  /** The maximum the minimum is clamped to; an empty maximum counts as 0. */
  function MaxOrZero(f: Form): int {
    if f.maxPoints.Blank? then 0 else f.maxPoints.n
  }

  /** The minimum box: cleared gives '', otherwise the typed number clamped
      to at most the maximum. */
  function OnMinPointsInput(f: Form, raw: string): (r: Form)
    requires AllDigits(raw)
    ensures r.minPoints.Blank? <==> raw == ""
    ensures r.minPoints.Num? ==> r.minPoints.n <= MaxOrZero(f)
    ensures r.minPoints.Num? ==>
      (r.minPoints.n == DigitsValue(raw) || (r.minPoints.n == MaxOrZero(f) && DigitsValue(raw) > MaxOrZero(f)))
    ensures r.(minPoints := f.minPoints) == f
  {
    match Typed(raw)
    case Blank => f.(minPoints := Blank)
    case Num(v) =>
      var maxVal := MaxOrZero(f);
      f.(minPoints := Num(if v > maxVal then maxVal else v))
  }

  /** The decay box: '' when cleared, otherwise the typed number. */
  function OnDecayInput(f: Form, raw: string): (r: Form)
    requires AllDigits(raw)
    ensures r.decayPerSolve == FieldOf(raw)
    ensures r.(decayPerSolve := f.decayPerSolve) == f
  {
    f.(decayPerSolve := Typed(raw))
  }

  /** A field as JavaScript's `>` compares it ('' counts as 0). */
  function Compared(v: Field): int {
    if v.Blank? then 0 else v.n
  }

  /** The "Min Points tidak boleh lebih dari Max Points" warning. */
  predicate MinWarning(f: Form) {
    f.maxPoints != Blank && Compared(f.minPoints) > Compared(f.maxPoints)
  }

  /** Typing a minimum never leaves the warning on: the clamp keeps it at
      most the maximum. */
  lemma MinInputClearsWarning(f: Form, raw: string)
    requires AllDigits(raw) && raw != ""
    ensures !MinWarning(OnMinPointsInput(f, raw))
  {
  }

  /** Every numeric handler and the switch keep `points` and `max_points`
      equal once they are; the points boxes and the switch make them so. */
  lemma SyncKept(f: Form, raw: string, on: bool)
    requires AllDigits(raw)
    ensures Synced(OnPointsInput(f, raw)) && Synced(OnMaxPointsInput(f, raw)) && Synced(ToggleDynamic(f, on))
    ensures Synced(f) ==> Synced(OnMinPointsInput(f, raw)) && Synced(OnDecayInput(f, raw))
  {
  }

  /** Switching dynamic scoring on and back off restores the form, apart
      from the maximum now matching the points and the switch being off. */
  lemma ToggleOnOff(f: Form)
    ensures ToggleDynamic(ToggleDynamic(f, true), false) == f.(maxPoints := f.points, isDynamic := false)
  {
  }

  /** The show-flag button is disabled while the flag loads, or when a new
      challenge has no flag typed. */
  function FlagButtonDisabled(loading: bool, editing: bool, flag: string): (r: bool)
    ensures !r <==> !loading && (editing || flag != "")
  {
    loading || (!editing && flag == "")
  }
}
