/** Difficulty display shared by the challenge card
    (src/components/challenges/ChallengeCard.tsx) and the difficulty badge
    (src/components/custom/DifficultyBadge.tsx): normalising the stored
    text, the colour lookup with its grey fallback, the badge label and
    width, and the card's ribbon. */
module Difficulty {
  import opened Base
  import opened Strings

  /** `difficultyStyles` of the site configuration. */
  const DIFFICULTY_STYLES: map<string, string> :=
    map["Baby" := "cyan", "Easy" := "green", "Medium" := "yellow", "Hard" := "red", "Impossible" := "purple"]

  /** `Object.keys(difficultyStyles)`: the keys in the order written. */
  const DIFFICULTY_ORDER: seq<string> := ["Baby", "Easy", "Medium", "Hard", "Impossible"]

  lemma OrderListsStyles()
    ensures forall k :: k in DIFFICULTY_ORDER <==> k in DIFFICULTY_STYLES
  {
  }

  lemma OrderNoDups()
    ensures forall i, j | 0 <= i < j < |DIFFICULTY_ORDER| :: DIFFICULTY_ORDER[i] != DIFFICULTY_ORDER[j]
  {
  }

  /** `s.charAt(0).toUpperCase() + s.slice(1).toLowerCase()`. */
  function Capitalize(s: string): (r: string)
    ensures |r| == |s|
    ensures s != [] ==> !IsLower(r[0])
    ensures forall i | 0 < i < |r| :: !IsUpper(r[i])
    // only letter case changes
    ensures Lower(r) == Lower(s)
  {
    if s == [] then []
    else
      var r := [UpperChar(s[0])] + Lower(s[1..]);
      assert Lower(r)[0] == LowerChar(UpperChar(s[0])) == LowerChar(s[0]);
      assert forall i | 0 < i < |r| :: Lower(r)[i] == LowerChar(LowerChar(s[i])) == LowerChar(s[i]);
      r
  }

  lemma UpperIgnoresCase(c: char)
    ensures UpperChar(LowerChar(c)) == UpperChar(c)
  {
  }

  /** Texts that differ only in letter case capitalise alike. */
  lemma CapitalizeIgnoresCase(a: string, b: string)
    requires Lower(a) == Lower(b)
    ensures Capitalize(a) == Capitalize(b)
  {
    if a != [] {
      assert LowerChar(a[0]) == LowerChar(b[0]);
      UpperIgnoresCase(a[0]);
      UpperIgnoresCase(b[0]);
      assert Lower(a[1..]) == Lower(a)[1..] && Lower(b[1..]) == Lower(b)[1..];
    }
  }

  /** Capitalising twice is capitalising once. */
  lemma CapitalizeIdempotent(s: string)
    ensures Capitalize(Capitalize(s)) == Capitalize(s)
  {
    if s != [] {
      var r := Capitalize(s);
      assert r[1..] == Lower(s[1..]);
      assert Lower(r[1..]) == r[1..];
    }
  }

  /** The key the card and the badge look up: the trimmed text, with the
      misspelling "imposible" corrected and every other text capitalised. */
  function Normalize(difficulty: string): (r: string)
    ensures Trim(difficulty) == "imposible" ==> r == "Impossible"
    ensures Trim(difficulty) != "imposible" ==> r == Capitalize(Trim(difficulty))
  {
    var raw := Trim(difficulty);
    if raw == "imposible" then "Impossible" else Capitalize(raw)
  }

  lemma LowerKeepsLower(s: string)
    requires forall i | 0 <= i < |s| :: !IsUpper(s[i])
    ensures Lower(s) == s
  {
  }

  /** The configured difficulties are already capitalised. */
  lemma KeyCapitalized(k: string)
    requires k in DIFFICULTY_ORDER
    ensures Capitalize(k) == k
  {
    if k == "Baby" {
      CapitalizedStays("Baby");
    } else if k == "Easy" {
      CapitalizedStays("Easy");
    } else if k == "Medium" {
      CapitalizedStays("Medium");
    } else if k == "Hard" {
      CapitalizedStays("Hard");
    } else {
      CapitalizedStays("Impossible");
    }
  }

  lemma CapitalizedStays(s: string)
    requires s != [] && !IsLower(s[0])
    requires forall i | 0 < i < |s| :: !IsUpper(s[i])
    ensures Capitalize(s) == s
  {
    LowerKeepsLower(s[1..]);
    assert s == [s[0]] + s[1..];
  }

  /** A configured difficulty is found whatever its case and surrounding
      spaces. */
  lemma NormalizeFindsKey(difficulty: string, k: string)
    requires k in DIFFICULTY_ORDER
    requires Lower(Trim(difficulty)) == Lower(k)
    ensures Normalize(difficulty) == k
  {
    var raw := Trim(difficulty);
    assert |raw| == |k| && |k| != 9;
    CapitalizeIgnoresCase(raw, k);
    KeyCapitalized(k);
  }

  const CARD_CLASSES: map<string, string> := map[
    "cyan" := "bg-cyan-500", "green" := "bg-green-500", "yellow" := "bg-yellow-400",
    "red" := "bg-red-500", "purple" := "bg-purple-500"]

  const CARD_DEFAULT: string := "bg-gray-300"

  const BADGE_CLASSES: map<string, string> := map[
    "cyan" := "bg-cyan-600 text-white dark:bg-cyan-600 dark:text-white",
    "green" := "bg-green-600 text-white dark:bg-green-600 dark:text-white",
    "yellow" := "bg-yellow-500 text-white dark:bg-yellow-600 dark:text-white",
    "red" := "bg-red-600 text-white dark:bg-red-600 dark:text-white",
    "purple" := "bg-purple-600 text-white dark:bg-purple-600 dark:text-white"]

  const BADGE_DEFAULT: string := "bg-gray-100 text-gray-800 dark:bg-gray-700 dark:text-white"

  /** `colorMap[difficultyStyles[key]] || fallback`: one of the classes, or
      the fallback, which an unconfigured key always gets. */
  function ColorOf(key: string, classes: map<string, string>, fallback: string): (r: string)
    ensures r == fallback || r in classes.Values
    ensures key !in DIFFICULTY_STYLES ==> r == fallback
  {
    if key in DIFFICULTY_STYLES && DIFFICULTY_STYLES[key] in classes then classes[DIFFICULTY_STYLES[key]]
    else fallback
  }

  /** With a class for every configured colour, none of them the fallback,
      the lookup falls back exactly for keys that are not configured. */
  lemma ColorFallback(key: string, classes: map<string, string>, fallback: string)
    requires forall k | k in DIFFICULTY_STYLES :: DIFFICULTY_STYLES[k] in classes
    requires forall c | c in classes :: classes[c] != fallback
    ensures ColorOf(key, classes, fallback) == fallback <==> key !in DIFFICULTY_STYLES
  {
  }

  /** The card's difficulty dot: grey exactly when the normalised text is
      not a configured difficulty. */
  function CardColor(difficulty: string): (r: string)
    ensures r == CARD_DEFAULT <==> Normalize(difficulty) !in DIFFICULTY_STYLES
  {
    ColorFallback(Normalize(difficulty), CARD_CLASSES, CARD_DEFAULT);
    ColorOf(Normalize(difficulty), CARD_CLASSES, CARD_DEFAULT)
  }

  datatype BadgeView = BadgeView(caption: string, color: string, width: int)

  /** The badge: the caption is the raw text (not the normalised one), or
      "N/A" when there is none; the colour falls back to grey exactly when
      the normalised text is not configured; the width defaults to 62. */
  function Badge(difficulty: Option<string>, width: Option<int>): (r: BadgeView)
    ensures difficulty.Some? && difficulty.value != "" ==> r.caption == difficulty.value
    ensures difficulty.None? || difficulty.value == "" ==> r.caption == "N/A"
    ensures r.color == BADGE_DEFAULT <==> Normalize(difficulty.GetOr("")) !in DIFFICULTY_STYLES
    ensures r.width == width.GetOr(62)
  {
    var text := difficulty.GetOr("");
    ColorFallback(Normalize(text), BADGE_CLASSES, BADGE_DEFAULT);
    BadgeView(
      if text != "" then text else "N/A",
      ColorOf(Normalize(text), BADGE_CLASSES, BADGE_DEFAULT),
      width.GetOr(62))
  }

  /** The card and the badge fall back to grey for the same texts. */
  lemma CardAgreesWithBadge(a: string)
    ensures CardColor(a) == CARD_DEFAULT <==> Badge(Some(a), None).color == BADGE_DEFAULT
  {
  }

  /** Texts that differ only in case and surrounding spaces get the same
      colour, except for the misspelling: only the lower-case "imposible" is
      corrected, and any other casing of it is grey. */
  lemma ColorIgnoresCase(a: string, b: string)
    requires Lower(Trim(a)) == Lower(Trim(b))
    ensures Trim(a) != "imposible" && Trim(b) != "imposible" ==> CardColor(a) == CardColor(b)
    ensures Trim(a) == "imposible" && Trim(b) != "imposible" ==>
      CardColor(a) == CARD_CLASSES["purple"] && CardColor(b) == CARD_DEFAULT
  {
    CapitalizeIgnoresCase(Trim(a), Trim(b));
    assert |Trim(a)| == |Trim(b)|;
  }

  const BLOOD_RIBBON: string := "\U{1FA78}NEW CHALL\U{1FA78}"
  const NEW_RIBBON: string := "NEW CHALL"

  /** The card's ribbon: the blood ribbon for a challenge nobody has solved
      first yet, whatever its age; the plain ribbon for a recent one that
      has a first blood; none otherwise. */
  function Ribbon(hasFirstBlood: bool, isNew: bool): (r: Option<string>)
    ensures r == Some(BLOOD_RIBBON) <==> !hasFirstBlood
    ensures r == Some(NEW_RIBBON) <==> hasFirstBlood && isNew
    ensures r.None? <==> hasFirstBlood && !isNew
  {
    if !hasFirstBlood then Some(BLOOD_RIBBON)
    else if isNew then Some(NEW_RIBBON)
    else None
  }
}
