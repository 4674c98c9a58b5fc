/** The shared web helpers (src/lib/utils.ts): the username rule and the
    "time ago" text of the web pages. */
module Utils {
  import opened Base
  import opened Strings
  import opened Elapsed

  /** A JavaScript string is a sequence of UTF-16 code units. */
  type CodeUnit = x: int | 0 <= x < 0x1_0000

  /** The UTF-16 encoding of one Unicode scalar value. */
  function EncodeChar(c: char): (r: seq<CodeUnit>)
    ensures |r| == (if c as int < 0x1_0000 then 1 else 2)
  {
    var v := c as int;
    if v < 0x1_0000 then [v]
    else
      var w := v - 0x1_0000;
      [0xD800 + w / 0x400, 0xDC00 + w % 0x400]
  }

  function Utf16(s: string): (r: seq<CodeUnit>)
    ensures |r| >= |s|
  {
    if s == [] then [] else EncodeChar(s[0]) + Utf16(s[1..])
  }

  /** The ways a user name can be refused, in the order they are checked. */
  datatype UsernameError = TooLong | TooShort | BadCharacter | Emoji | NotAllowed

  /** The message shown for each refusal: a sentence about the user name. */
  function UsernameMessage(e: UsernameError): (r: string)
    ensures |r| > 9 && r[..9] == "Username " && r[|r| - 1] == '.'
  {
    "Username " +
      match e
      case TooLong => "must be at most 30 characters."
      case TooShort => "must be at least 3 characters."
      case BadCharacter => "contains invalid characters."
      case Emoji => "cannot contain emoji."
      case NotAllowed => "can only contain letters, numbers, \".\", \"_\", and \"-\"."
  }

  const MAX_USERNAME: nat := 30
  const MIN_USERNAME: nat := 3

  /** The class `[><\/?"'\\]`. */
  predicate IsBadUnit(u: CodeUnit) {
    u in {'>' as int, '<' as int, '/' as int, '?' as int, '"' as int, '\'' as int, '\\' as int}
  }

  predicate IsHighSurrogateFrom(u: CodeUnit) { 0xD83C <= u <= 0xDBFF }
  predicate IsLowSurrogate(u: CodeUnit) { 0xDC00 <= u <= 0xDFFF }
  /** Miscellaneous symbols and dingbats, U+2600 to U+27BF. */
  predicate IsSymbolUnit(u: CodeUnit) { 0x2600 <= u <= 0x27BF }

  /** `[A-Za-z0-9_.-]`. */
  predicate IsNameUnit(u: CodeUnit) {
    ('a' as int <= u <= 'z' as int) || ('A' as int <= u <= 'Z' as int) || ('0' as int <= u <= '9' as int)
      || u == '_' as int || u == '.' as int || u == '-' as int
  }

  predicate HasBadUnit(name: seq<CodeUnit>) {
    exists i :: 0 <= i < |name| && IsBadUnit(name[i])
  }

  /** The emoji pattern without the `u` flag: a surrogate pair whose high
      half is at least U+D83C, or a single unit in U+2600 to U+27BF. */
  predicate HasEmoji(name: seq<CodeUnit>) {
    (exists i :: 0 <= i < |name| - 1 && IsHighSurrogateFrom(name[i]) && IsLowSurrogate(name[i + 1]))
    || (exists i :: 0 <= i < |name| && IsSymbolUnit(name[i]))
  }

  predicate AllNameUnits(name: seq<CodeUnit>) {
    forall i :: 0 <= i < |name| ==> IsNameUnit(name[i])
  }

  /** `isValidUsername`: None when the name is accepted, otherwise the first
      check that fails. */
  function CheckUsername(name: seq<CodeUnit>): (r: Option<UsernameError>)
    ensures r == Some(TooLong) <==> |name| > MAX_USERNAME
    ensures r == Some(TooShort) <==> |name| < MIN_USERNAME
    ensures r == Some(BadCharacter) <==> MIN_USERNAME <= |name| <= MAX_USERNAME && HasBadUnit(name)
    ensures r == Some(Emoji) <==>
      MIN_USERNAME <= |name| <= MAX_USERNAME && !HasBadUnit(name) && HasEmoji(name)
    ensures r == Some(NotAllowed) <==>
      MIN_USERNAME <= |name| <= MAX_USERNAME && !HasBadUnit(name) && !HasEmoji(name) && !AllNameUnits(name)
  {
    if |name| > MAX_USERNAME then Some(TooLong)
    else if |name| < MIN_USERNAME then Some(TooShort)
    else if HasBadUnit(name) then Some(BadCharacter)
    else if HasEmoji(name) then Some(Emoji)
    else if !(|name| > 0 && AllNameUnits(name)) then Some(NotAllowed)
    else None
  }

  /** Only the length and the allowlist decide whether a name is accepted;
      the character and emoji checks only choose the message. */
  lemma UsernameValidIff(name: seq<CodeUnit>)
    ensures CheckUsername(name).None? <==> MIN_USERNAME <= |name| <= MAX_USERNAME && AllNameUnits(name)
  {
    if AllNameUnits(name) {
      assert !HasBadUnit(name);
      assert !HasEmoji(name);
    }
  }

  /** A character outside the Basic Multilingual Plane counts twice toward
      the length limits. */
  lemma AstralCountsTwice(prefix: string, c: char, suffix: string)
    requires c as int >= 0x1_0000
    ensures |Utf16(prefix + [c] + suffix)| == |Utf16(prefix)| + 2 + |Utf16(suffix)|
  {
    Utf16Append(prefix, [c] + suffix);
    assert ([c] + suffix)[1..] == suffix;
    assert prefix + [c] + suffix == prefix + ([c] + suffix);
  }

  lemma {:induction false} Utf16Append(a: string, b: string)
    ensures Utf16(a + b) == Utf16(a) + Utf16(b)
  {
    if a != [] {
      assert (a + b)[1..] == a[1..] + b;
      Utf16Append(a[1..], b);
    } else {
      assert a + b == b;
    }
  }

  /** Every emoji the pattern catches lies outside the allowlist, so the
      emoji message is only a more specific refusal. */
  lemma EmojiNeverAllowed(c: char)
    requires 0x1_F300 <= c as int <= 0x1_FAFF || 0x2600 <= c as int <= 0x27BF
    ensures HasEmoji(Utf16([c]))
    ensures !AllNameUnits(Utf16([c]))
  {
    var u := Utf16([c]);
    assert [c][1..] == [] && Utf16([]) == [];
    assert u == EncodeChar(c) + [];
    if c as int >= 0x1_0000 {
      assert IsHighSurrogateFrom(u[0]) && IsLowSurrogate(u[1]);
    } else {
      assert IsSymbolUnit(u[0]);
    }
    assert !IsNameUnit(u[0]);
  }

  // ---------------------------------------------------------------------
  // formatRelativeDate
  // ---------------------------------------------------------------------

  /** `Date` as the page sees it: parsing to milliseconds (None for an
      invalid date), the current time, and the locale renderings. */
  datatype DateEnv = DateEnv(
    parse: string -> Option<int>,
    now: int,
    timeText: int -> string,
    dateText: int -> string)

  /** The separator as it is stored in the file: the UTF-8 bytes of a bullet
      read back as Windows-1252 text. */
  const DAY_SEPARATOR: string := " \U{00E2}\U{20AC}\U{00A2} "

  /** `Math.floor(diffMs / 1000)`. */
  function FloorSeconds(ms: int): (r: int)
    ensures r * 1000 <= ms < r * 1000 + 1000
  {
    ms / 1000
  }

  function FormatRelativeDate(env: DateEnv, iso: string): (r: string)
    ensures env.parse(iso).None? ==> r == iso
  {
    match env.parse(iso)
    case None => iso
    case Some(at) =>
      var diffSeconds := FloorSeconds(env.now - at);
      match Classify(diffSeconds)
      case Within(n, Day) =>
        if n == 0 then "0 days ago"
        else Phrase(n, Day) + DAY_SEPARATOR + env.timeText(at)
      case Within(n, u) => Phrase(n, u)
      case Older => env.dateText(at)
  }

  /** The buckets: seconds below one minute (future dates included), then
      whole minutes, hours and days, then the locale date from thirty days on;
      the `diffDays === 0` branch is never taken. */
  lemma FormatRelativeDateBuckets(env: DateEnv, iso: string)
    requires env.parse(iso).Some?
    ensures var at := env.parse(iso).value;
      var s := FloorSeconds(env.now - at);
      var r := FormatRelativeDate(env, iso);
      && (s < 60 ==> r == Phrase(s, Second))
      && (60 <= s < 3600 ==> r == Phrase(s / 60, Minute))
      && (3600 <= s < 86400 ==> r == Phrase(s / 3600, Hour))
      && (86400 <= s < 30 * 86400 ==> r == Phrase(s / 86400, Day) + DAY_SEPARATOR + env.timeText(at) && s / 86400 >= 1)
      && (s >= 30 * 86400 ==> r == env.dateText(at))
  {
  }

  /** A date in the future always reads as a (negative or zero) number of seconds. */
  lemma FutureReadsAsSeconds(env: DateEnv, iso: string)
    requires env.parse(iso).Some? && env.parse(iso).value > env.now
    ensures FormatRelativeDate(env, iso) == Phrase(FloorSeconds(env.now - env.parse(iso).value), Second)
    ensures FloorSeconds(env.now - env.parse(iso).value) < 0
  {
  }
}
