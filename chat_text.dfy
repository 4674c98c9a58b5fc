/** The text helpers of the live-chat widget
    (src/components/livechat/LiveChatWidget.tsx): HTML escaping, the
    sanitising of outgoing text, preview truncation and mention suggestions. */
module ChatText {
  import opened Base
  import opened Strings
  import opened Sequences
  import Utils

  // ---------------------------------------------------------------------
  // escapeHtml
  // ---------------------------------------------------------------------

  /** `s.replace(/c/g, t)` for a single character `c`. */
  function ReplaceAll(s: string, c: char, t: string): string {
    if s == [] then []
    else (if s[0] == c then t else [s[0]]) + ReplaceAll(s[1..], c, t)
  }

  lemma {:induction false} ReplaceAllAppend(a: string, b: string, c: char, t: string)
    ensures ReplaceAll(a + b, c, t) == ReplaceAll(a, c, t) + ReplaceAll(b, c, t)
  {
    if a == [] {
      assert a + b == b;
    } else {
      assert (a + b)[1..] == a[1..] + b;
      ReplaceAllAppend(a[1..], b, c, t);
    }
  }

  lemma {:induction false} ReplaceAllAbsent(s: string, c: char, t: string)
    requires c !in s
    ensures ReplaceAll(s, c, t) == s
  {
    if s != [] {
      ReplaceAllAbsent(s[1..], c, t);
    }
  }

  /** `escapeHtml`: the five global replacements, ampersand first. */
  function EscapeHtml(s: string): (r: string)
    ensures r == EscapeEach(s)
    ensures forall i :: 0 <= i < |r| ==> !IsMarkup(r[i])
  {
    var r := ReplaceAll(ReplaceAll(ReplaceAll(ReplaceAll(ReplaceAll(
      s, '&', "&amp;"), '<', "&lt;"), '>', "&gt;"), '"', "&quot;"), '\'', "&#039;");
    ChainIsEachChar(s);
    EscapeEachClean(s);
    r
  }

  /** The characters that end up in no escaped text. */
  predicate IsMarkup(c: char) {
    c == '<' || c == '>' || c == '"' || c == '\''
  }

  /** The entity each character becomes when escaped on its own. */
  function EscapeChar(c: char): string {
    if c == '&' then "&amp;"
    else if c == '<' then "&lt;"
    else if c == '>' then "&gt;"
    else if c == '"' then "&quot;"
    else if c == '\'' then "&#039;"
    else [c]
  }

  /** Escaping character by character: the reference the replacement chain
      is measured against. */
  function EscapeEach(s: string): (r: string)
    ensures |r| >= |s|
  {
    if s == [] then [] else EscapeChar(s[0]) + EscapeEach(s[1..])
  }

  function Chain(s: string): string {
    ReplaceAll(ReplaceAll(ReplaceAll(ReplaceAll(ReplaceAll(
      s, '&', "&amp;"), '<', "&lt;"), '>', "&gt;"), '"', "&quot;"), '\'', "&#039;")
  }

  lemma ChainAppend(a: string, b: string)
    ensures Chain(a + b) == Chain(a) + Chain(b)
  {
    var a1, b1 := ReplaceAll(a, '&', "&amp;"), ReplaceAll(b, '&', "&amp;");
    ReplaceAllAppend(a, b, '&', "&amp;");
    var a2, b2 := ReplaceAll(a1, '<', "&lt;"), ReplaceAll(b1, '<', "&lt;");
    ReplaceAllAppend(a1, b1, '<', "&lt;");
    var a3, b3 := ReplaceAll(a2, '>', "&gt;"), ReplaceAll(b2, '>', "&gt;");
    ReplaceAllAppend(a2, b2, '>', "&gt;");
    var a4, b4 := ReplaceAll(a3, '"', "&quot;"), ReplaceAll(b3, '"', "&quot;");
    ReplaceAllAppend(a3, b3, '"', "&quot;");
    ReplaceAllAppend(a4, b4, '\'', "&#039;");
  }

  lemma ReplaceOne(c: char, d: char, t: string)
    ensures ReplaceAll([c], d, t) == if c == d then t else [c]
  {
    assert [c][1..] == [];
  }

  lemma ChainAmpersand(c: char)
    requires c == '&'
    ensures Chain([c]) == "&amp;"
  {
    var x1 := ReplaceAll([c], '&', "&amp;");
    ReplaceOne(c, '&', "&amp;");
    assert x1 == "&amp;";
    var x2 := ReplaceAll(x1, '<', "&lt;");
    ReplaceAllAbsent("&amp;", '<', "&lt;");
    assert x2 == "&amp;";
    var x3 := ReplaceAll(x2, '>', "&gt;");
    ReplaceAllAbsent("&amp;", '>', "&gt;");
    assert x3 == "&amp;";
    var x4 := ReplaceAll(x3, '"', "&quot;");
    ReplaceAllAbsent("&amp;", '"', "&quot;");
    assert x4 == "&amp;";
    var x5 := ReplaceAll(x4, '\'', "&#039;");
    ReplaceAllAbsent("&amp;", '\'', "&#039;");
    assert x5 == "&amp;";
  }

  lemma ChainLess(c: char)
    requires c == '<'
    ensures Chain([c]) == "&lt;"
  {
    var x1 := ReplaceAll([c], '&', "&amp;");
    ReplaceOne(c, '&', "&amp;");
    assert x1 == [c];
    var x2 := ReplaceAll(x1, '<', "&lt;");
    ReplaceOne(c, '<', "&lt;");
    assert x2 == "&lt;";
    var x3 := ReplaceAll(x2, '>', "&gt;");
    ReplaceAllAbsent("&lt;", '>', "&gt;");
    assert x3 == "&lt;";
    var x4 := ReplaceAll(x3, '"', "&quot;");
    ReplaceAllAbsent("&lt;", '"', "&quot;");
    assert x4 == "&lt;";
    var x5 := ReplaceAll(x4, '\'', "&#039;");
    ReplaceAllAbsent("&lt;", '\'', "&#039;");
    assert x5 == "&lt;";
  }

  lemma ChainGreater(c: char)
    requires c == '>'
    ensures Chain([c]) == "&gt;"
  {
    var x1 := ReplaceAll([c], '&', "&amp;");
    ReplaceOne(c, '&', "&amp;");
    assert x1 == [c];
    var x2 := ReplaceAll(x1, '<', "&lt;");
    ReplaceOne(c, '<', "&lt;");
    assert x2 == [c];
    var x3 := ReplaceAll(x2, '>', "&gt;");
    ReplaceOne(c, '>', "&gt;");
    assert x3 == "&gt;";
    var x4 := ReplaceAll(x3, '"', "&quot;");
    ReplaceAllAbsent("&gt;", '"', "&quot;");
    assert x4 == "&gt;";
    var x5 := ReplaceAll(x4, '\'', "&#039;");
    ReplaceAllAbsent("&gt;", '\'', "&#039;");
    assert x5 == "&gt;";
  }

  lemma ChainQuote(c: char)
    requires c == '"'
    ensures Chain([c]) == "&quot;"
  {
    var x1 := ReplaceAll([c], '&', "&amp;");
    ReplaceOne(c, '&', "&amp;");
    assert x1 == [c];
    var x2 := ReplaceAll(x1, '<', "&lt;");
    ReplaceOne(c, '<', "&lt;");
    assert x2 == [c];
    var x3 := ReplaceAll(x2, '>', "&gt;");
    ReplaceOne(c, '>', "&gt;");
    assert x3 == [c];
    var x4 := ReplaceAll(x3, '"', "&quot;");
    ReplaceOne(c, '"', "&quot;");
    assert x4 == "&quot;";
    var x5 := ReplaceAll(x4, '\'', "&#039;");
    ReplaceAllAbsent("&quot;", '\'', "&#039;");
    assert x5 == "&quot;";
  }

  lemma ChainApostrophe(c: char)
    requires c == '\''
    ensures Chain([c]) == "&#039;"
  {
    var x1 := ReplaceAll([c], '&', "&amp;");
    ReplaceOne(c, '&', "&amp;");
    assert x1 == [c];
    var x2 := ReplaceAll(x1, '<', "&lt;");
    ReplaceOne(c, '<', "&lt;");
    assert x2 == [c];
    var x3 := ReplaceAll(x2, '>', "&gt;");
    ReplaceOne(c, '>', "&gt;");
    assert x3 == [c];
    var x4 := ReplaceAll(x3, '"', "&quot;");
    ReplaceOne(c, '"', "&quot;");
    assert x4 == [c];
    var x5 := ReplaceAll(x4, '\'', "&#039;");
    ReplaceOne(c, '\'', "&#039;");
    assert x5 == "&#039;";
  }

  lemma ChainPlain(c: char)
    requires c !in "&<>\"'"
    ensures Chain([c]) == [c]
  {
    var x1 := ReplaceAll([c], '&', "&amp;");
    ReplaceOne(c, '&', "&amp;");
    assert x1 == [c];
    var x2 := ReplaceAll(x1, '<', "&lt;");
    ReplaceOne(c, '<', "&lt;");
    assert x2 == [c];
    var x3 := ReplaceAll(x2, '>', "&gt;");
    ReplaceOne(c, '>', "&gt;");
    assert x3 == [c];
    var x4 := ReplaceAll(x3, '"', "&quot;");
    ReplaceOne(c, '"', "&quot;");
    assert x4 == [c];
    var x5 := ReplaceAll(x4, '\'', "&#039;");
    ReplaceOne(c, '\'', "&#039;");
    assert x5 == [c];
  }

  /** The chain turns one character into exactly its entity: no entity
      inserted by a replacement is touched by a later one. */
  lemma ChainChar(c: char)
    ensures Chain([c]) == EscapeChar(c)
  {
    if c == '&' {
      ChainAmpersand(c);
    } else if c == '<' {
      ChainLess(c);
    } else if c == '>' {
      ChainGreater(c);
    } else if c == '"' {
      ChainQuote(c);
    } else if c == '\'' {
      ChainApostrophe(c);
    } else {
      ChainPlain(c);
    }
  }

  lemma {:induction false} ChainIsEachChar(s: string)
    ensures Chain(s) == EscapeEach(s)
  {
    if s != [] {
      assert s == [s[0]] + s[1..];
      ChainAppend([s[0]], s[1..]);
      ChainChar(s[0]);
      ChainIsEachChar(s[1..]);
    }
  }

  lemma {:induction false} EscapeEachClean(s: string)
    ensures forall i :: 0 <= i < |EscapeEach(s)| ==> !IsMarkup(EscapeEach(s)[i])
  {
    if s != [] {
      EscapeEachClean(s[1..]);
      var e, rest := EscapeChar(s[0]), EscapeEach(s[1..]);
      assert forall i :: 0 <= i < |e| ==> !IsMarkup(e[i]);
      forall i | 0 <= i < |e + rest| ensures !IsMarkup((e + rest)[i]) {
        if i >= |e| {
          assert (e + rest)[i] == rest[i - |e|];
        }
      }
    }
  }

  /** Decoding the five entities; every other character stands for itself. */
  function Unescape(s: string): string {
    if s == [] then []
    else if StartsWith(s, "&amp;") then ['&'] + Unescape(s[5..])
    else if StartsWith(s, "&lt;") then ['<'] + Unescape(s[4..])
    else if StartsWith(s, "&gt;") then ['>'] + Unescape(s[4..])
    else if StartsWith(s, "&quot;") then ['"'] + Unescape(s[6..])
    else if StartsWith(s, "&#039;") then ['\''] + Unescape(s[6..])
    else [s[0]] + Unescape(s[1..])
  }

  lemma UnescapeEntity(e: string, c: char, rest: string)
    requires e in ["&amp;", "&lt;", "&gt;", "&quot;", "&#039;"]
    requires c == (if e == "&amp;" then '&' else if e == "&lt;" then '<' else if e == "&gt;" then '>'
                   else if e == "&quot;" then '"' else '\'')
    ensures Unescape(e + rest) == [c] + Unescape(rest)
  {
    var s := e + rest;
    assert s[..|e|] == e && s[|e|..] == rest;
    assert s[1] == e[1];
    if e == "&lt;" {
      DiffersAt(s, "&amp;", 1);
    } else if e == "&gt;" {
      DiffersAt(s, "&amp;", 1);
      DiffersAt(s, "&lt;", 1);
    } else if e == "&quot;" {
      DiffersAt(s, "&amp;", 1);
      DiffersAt(s, "&lt;", 1);
      DiffersAt(s, "&gt;", 1);
    } else if e == "&#039;" {
      DiffersAt(s, "&amp;", 1);
      DiffersAt(s, "&lt;", 1);
      DiffersAt(s, "&gt;", 1);
      DiffersAt(s, "&quot;", 1);
    }
  }

  lemma DiffersAt(s: string, p: string, i: nat)
    requires i < |s| && i < |p| && s[i] != p[i]
    ensures !StartsWith(s, p)
  {
    if |p| <= |s| {
      assert s[..|p|][i] == s[i];
    }
  }

  lemma UnescapePlain(c: char, rest: string)
    requires c != '&'
    ensures Unescape([c] + rest) == [c] + Unescape(rest)
  {
    var s := [c] + rest;
    assert s[0] == c && s[1..] == rest;
    DiffersAt(s, "&amp;", 0);
    DiffersAt(s, "&lt;", 0);
    DiffersAt(s, "&gt;", 0);
    DiffersAt(s, "&quot;", 0);
    DiffersAt(s, "&#039;", 0);
  }

  lemma UnescapeStep(c: char, rest: string)
    ensures Unescape(EscapeChar(c) + rest) == [c] + Unescape(rest)
  {
    if c == '&' || IsMarkup(c) {
      UnescapeEntity(EscapeChar(c), c, rest);
    } else {
      UnescapePlain(c, rest);
    }
  }

  /** Escaped text decodes back to the original: escaping loses nothing and
      is never applied twice to the same character. */
  lemma {:induction false} UnescapeEscape(s: string)
    ensures Unescape(EscapeHtml(s)) == s
  {
    EscapeRoundTrip(s);
  }

  lemma {:induction false} EscapeRoundTrip(s: string)
    ensures Unescape(EscapeEach(s)) == s
  {
    if s != [] {
      UnescapeStep(s[0], EscapeEach(s[1..]));
      EscapeRoundTrip(s[1..]);
    }
  }

  // ---------------------------------------------------------------------
  // sanitize
  // ---------------------------------------------------------------------

  /** `MAX_LEN`: the characters of a message kept before escaping. */
  const MAX_LEN: nat := 500

  /** `sanitize`: trim, keep the first 500 characters, escape. */
  function Sanitize(t: string): (r: string)
    ensures Unescape(r) == Take(Trim(t), MAX_LEN)
    ensures forall i :: 0 <= i < |r| ==> !IsMarkup(r[i])
    ensures r == "" <==> IsBlank(t)
  {
    var kept := Take(Trim(t), MAX_LEN);
    UnescapeEscape(kept);
    EscapeHtml(kept)
  }

  /** A text of ampersands. */
  function Ampersands(n: nat): (r: string)
    ensures |r| == n && forall i :: 0 <= i < n ==> r[i] == '&'
  {
    if n == 0 then [] else Ampersands(n - 1) + ['&']
  }

  lemma {:induction false} EscapeAmpersands(s: string)
    requires forall i :: 0 <= i < |s| ==> s[i] == '&'
    ensures |EscapeEach(s)| == 5 * |s|
  {
    if s != [] {
      EscapeAmpersands(s[1..]);
    }
  }

  /** The 500-character limit applies before escaping, so a sanitised
      message can be five times as long. */
  lemma SanitizeCanExceedLimit()
    ensures |Sanitize(Ampersands(MAX_LEN))| == 5 * MAX_LEN
  {
    var s := Ampersands(MAX_LEN);
    assert !IsSpace(s[0]) && !IsSpace(s[|s| - 1]);
    assert LeadingSpaces(s) == 0;
    assert TrailingStart(s) == |s|;
    assert Trim(s) == s;
    EscapeAmpersands(s);
  }

  // ---------------------------------------------------------------------
  // truncate
  // ---------------------------------------------------------------------

  /** `s.replace(/\s+/g, " ")`: every run of whitespace becomes one space. */
  function Collapse(s: string): (r: string)
    ensures r == [] <==> s == []
    ensures s != [] ==> (r[0] == ' ' <==> IsSpace(s[0]))
    ensures s != [] && !IsSpace(s[0]) ==> r[0] == s[0]
    ensures forall i :: 0 <= i < |r| ==> r[i] == ' ' || !IsSpace(r[i])
    ensures forall i :: 0 <= i < |r| - 1 ==> !(r[i] == ' ' && r[i + 1] == ' ')
  {
    if s == [] then []
    else
      var rest := Collapse(s[1..]);
      if IsSpace(s[0]) then
        if rest != [] && rest[0] == ' ' then rest else [' '] + rest
      else [s[0]] + rest
  }

  /** Text that is already collapsed. */
  predicate Collapsed(s: string) {
    && (forall i :: 0 <= i < |s| ==> s[i] == ' ' || !IsSpace(s[i]))
    && (forall i :: 0 <= i < |s| - 1 ==> !(s[i] == ' ' && s[i + 1] == ' '))
  }

  /** Collapsing is idempotent. */
  lemma {:induction false} CollapseCollapsed(s: string)
    requires Collapsed(s)
    ensures Collapse(s) == s
  {
    if s != [] {
      CollapseCollapsed(s[1..]);
      if IsSpace(s[0]) {
        assert |s| > 1 ==> s[1] != ' ';
      }
    }
  }

  const ELLIPSIS: char := '\U{2026}'

  /** `truncate(s, n)` with `s || ""` already applied: collapse, trim, and
      cut to `n` characters followed by an ellipsis when longer. */
  function Truncate(s: string, n: nat): (r: string)
    ensures |r| <= n + 1
    ensures |Trim(Collapse(s))| <= n ==> r == Trim(Collapse(s))
    ensures |Trim(Collapse(s))| > n ==>
      |r| == n + 1 && r[n] == ELLIPSIS && r[..n] == Trim(Collapse(s))[..n]
  {
    var t := Trim(Collapse(s));
    if |t| > n then t[..n] + [ELLIPSIS] else t
  }

  /** `slice(0, n)` cuts after `n` UTF-16 code units, while `Take`,
      `Sanitize` and `Truncate` count characters. The two agree on text
      without characters beyond U+FFFF. */
  lemma {:induction false} BmpTakeAgrees(s: string, n: nat)
    requires forall c :: c in s ==> c as int < 0x1_0000
    ensures Utils.Utf16(Take(s, n)) == Take(Utils.Utf16(s), n)
    decreases |s|
  {
    if s != [] && n > 0 {
      assert s[0] in s;
      assert forall c :: c in s[1..] ==> c in s;
      BmpTakeAgrees(s[1..], n - 1);
      assert Take(s, n) == [s[0]] + Take(s[1..], n - 1);
      Utils.Utf16Append([s[0]], Take(s[1..], n - 1));
      Utils.Utf16Append([s[0]], s[1..]);
      assert [s[0]] + s[1..] == s;
      assert Utils.Utf16([s[0]]) == [s[0] as int];
    }
  }

  /** A text that is already collapsed, trimmed and short enough comes back
      unchanged. */
  lemma TruncateKeepsClean(s: string, n: nat)
    requires Collapsed(s) && |s| <= n
    requires s != [] ==> !IsSpace(s[0]) && !IsSpace(s[|s| - 1])
    ensures Truncate(s, n) == s
  {
    CollapseCollapsed(s);
    if s != [] {
      assert LeadingSpaces(s) == 0;
      assert TrailingStart(s) == |s|;
      assert s[0..] == s && s[..|s|] == s;
    }
  }

  /** The result of truncation never shows a whitespace run: it is
      collapsed, and begins and ends with a non-space. */
  lemma TruncateIsClean(s: string, n: nat)
    ensures var r := Truncate(s, n);
      Collapsed(r) && (r != [] ==> !IsSpace(r[0]))
  {
    var c := Collapse(s);
    var k := LeadingSpaces(c);
    var m := TrailingStart(c[k..]);
    var t := Trim(c);
    assert t == c[k..k + m];
    CollapsedSlice(c, k, k + m);
    if |t| > n {
      CollapsedSlice(t, 0, n);
      CollapsedEllipsis(t[0..n]);
      assert Truncate(s, n) == t[0..n] + [ELLIPSIS];
    }
  }

  lemma CollapsedSlice(c: string, i: nat, j: nat)
    requires Collapsed(c) && i <= j <= |c|
    ensures Collapsed(c[i..j])
  {
    var d := c[i..j];
    forall m | 0 <= m < |d| ensures d[m] == ' ' || !IsSpace(d[m]) {
      assert d[m] == c[i + m];
    }
    forall m | 0 <= m < |d| - 1 ensures !(d[m] == ' ' && d[m + 1] == ' ') {
      assert d[m] == c[i + m] && d[m + 1] == c[i + m + 1];
    }
  }

  lemma CollapsedEllipsis(t: string)
    requires Collapsed(t)
    ensures Collapsed(t + [ELLIPSIS])
  {
    var r := t + [ELLIPSIS];
    forall m | 0 <= m < |r| ensures r[m] == ' ' || !IsSpace(r[m]) {
      if m < |t| {
        assert r[m] == t[m];
      }
    }
    forall m | 0 <= m < |r| - 1 ensures !(r[m] == ' ' && r[m + 1] == ' ') {
      assert r[m] == t[m];
      if m + 1 < |t| {
        assert r[m + 1] == t[m + 1];
      }
    }
  }

  // ---------------------------------------------------------------------
  // Mention suggestions
  // ---------------------------------------------------------------------

  datatype MentionUser = MentionUser(id: string, username: string, role: Option<string>, isAdmin: bool)

  /** An entry of the presence map: `name` is the user name, possibly empty. */
  datatype Presence = Presence(id: string, name: string, role: string)

  const MENTION_LIMIT: nat := 8

  function PresenceUser(p: Presence): (u: MentionUser)
    ensures u.username != ""
  {
    MentionUser(p.id, if p.name != "" then p.name else "user", Some(p.role), p.role == "admin")
  }

  function MapPresence(online: seq<Presence>): (r: seq<MentionUser>)
    ensures |r| == |online|
    ensures forall i :: 0 <= i < |online| ==> r[i] == PresenceUser(online[i])
  {
    if online == [] then [] else [PresenceUser(online[0])] + MapPresence(online[1..])
  }

  const ALL: MentionUser := MentionUser("all", "all", Some("admin"), true)

  function LowerName(u: MentionUser): string {
    Lower(u.username)
  }

  /** The presence fallback: the online users, "all" in front for an
      admin, keeping the first of every case-insensitive user name: no name
      twice, and no more entries than online users (and "all"). */
  function PresenceFallback(online: seq<Presence>, isAdmin: bool): (r: seq<MentionUser>)
    ensures NoDups(Keys(r, LowerName))
    ensures |r| <= |online| + (if isAdmin then 1 else 0)
  {
    var users := MapPresence(online);
    DistinctBy(if isAdmin then [ALL] + users else users, LowerName)
  }

  /** `mentionSource`: the fetched users when there are any, otherwise the
      presence fallback. */
  function MentionSource(fetched: seq<MentionUser>, online: seq<Presence>, isAdmin: bool): (r: seq<MentionUser>)
    ensures fetched != [] ==> r == fetched
    ensures fetched == [] ==> NoDups(Keys(r, LowerName))
  {
    if fetched != [] then fetched else PresenceFallback(online, isAdmin)
  }

  /** The fallback invents no one but "all", and "all" only for an admin. */
  lemma FallbackFromOnline(online: seq<Presence>, isAdmin: bool)
    ensures forall u :: u in PresenceFallback(online, isAdmin) ==>
      (isAdmin && u == ALL) || exists p :: p in online && u == PresenceUser(p)
  {
    var users := MapPresence(online);
    var list := if isAdmin then [ALL] + users else users;
    PresenceUsersFromOnline(online);
    forall u | u in PresenceFallback(online, isAdmin)
      ensures (isAdmin && u == ALL) || exists p :: p in online && u == PresenceUser(p)
    {
      assert u in list;
      if !(isAdmin && u == ALL) {
        assert u in users;
      }
    }
  }

  /** Every online user's name is offered once, ignoring case. */
  lemma FallbackCoversOnline(online: seq<Presence>, isAdmin: bool)
    ensures var r := PresenceFallback(online, isAdmin);
      && NoDups(Keys(r, LowerName))
      && forall p :: p in online ==> Lower(PresenceUser(p).username) in Keys(r, LowerName)
  {
    PresenceUsersCoverOnline(online);
    var users := MapPresence(online);
    var list := if isAdmin then [ALL] + users else users;
    assert forall p :: p in online ==> PresenceUser(p) in list;
  }

  /** For an admin, "all" heads the list. */
  lemma FallbackAllFirst(online: seq<Presence>)
    ensures var r := PresenceFallback(online, true); r != [] && r[0] == ALL
  {
    AllStaysFirst(MapPresence(online));
  }

  lemma PresenceUsersFromOnline(online: seq<Presence>)
    ensures forall u :: u in MapPresence(online) ==> exists p :: p in online && u == PresenceUser(p)
  {
    var users := MapPresence(online);
    forall u | u in users ensures exists p :: p in online && u == PresenceUser(p) {
      var i :| 0 <= i < |users| && users[i] == u;
      assert online[i] in online;
    }
  }

  lemma PresenceUsersCoverOnline(online: seq<Presence>)
    ensures forall p :: p in online ==> PresenceUser(p) in MapPresence(online)
  {
    var users := MapPresence(online);
    forall p | p in online ensures PresenceUser(p) in users {
      var i :| 0 <= i < |online| && online[i] == p;
      assert users[i] == PresenceUser(p);
    }
  }

  lemma AllStaysFirst(users: seq<MentionUser>)
    ensures var r := DistinctBy([ALL] + users, LowerName); r != [] && r[0] == ALL
  {
    var list := [ALL] + users;
    DistinctByPrefix(list, 1, LowerName);
    assert list[..1] == [ALL];
    assert [ALL][..0] == [];
    assert DistinctBy([ALL], LowerName) == [ALL];
  }

  predicate MatchesQuery(u: MentionUser, query: string) {
    Contains(Lower(u.username), Lower(query))
  }

  /** `filteredMentionUsers`: the first eight users whose name contains the
      query, ignoring case. */
  function FilteredMentionUsers(source: seq<MentionUser>, query: string): (r: seq<MentionUser>)
    ensures |r| <= MENTION_LIMIT
    ensures forall u :: u in r ==> u in source && MatchesQuery(u, query)
    ensures IsSubseq(r, source)
    ensures |r| < MENTION_LIMIT ==> forall u :: u in source && MatchesQuery(u, query) ==> u in r
  {
    var matching := Filter(source, (u: MentionUser) => MatchesQuery(u, query));
    var r := Take(matching, MENTION_LIMIT);
    FilterSubseq(source, (u: MentionUser) => MatchesQuery(u, query));
    PrefixSubseq(r, matching);
    SubseqTrans(r, matching, source);
    r
  }

  /** The suggestions are the first eight matches in source order: one more
      source user is added at the end exactly when it matches and fewer
      than eight are listed, and changes nothing otherwise. */
  lemma MentionsGrow(source: seq<MentionUser>, u: MentionUser, query: string)
    ensures var r := FilteredMentionUsers(source, query);
      FilteredMentionUsers(source + [u], query) ==
        if MatchesQuery(u, query) && |r| < MENTION_LIMIT then r + [u] else r
  {
    var f := (v: MentionUser) => MatchesQuery(v, query);
    FilterAppend(source, [u], f);
    assert Filter([u], f) == if f(u) then [u] else [];
    var m := Filter(source, f);
    if |m| >= MENTION_LIMIT {
      assert (m + Filter([u], f))[..MENTION_LIMIT] == m[..MENTION_LIMIT];
    }
  }
}
