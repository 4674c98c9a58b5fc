/** The admin audit-log list (src/components/admin/AuditLogList.tsx): action
    styles and labels, the action filter chips and the filtered list. */
module AuditLog {
  import opened Base
  import opened Strings
  import opened Sequences

  datatype ActionStyle = ActionStyle(color: string, icon: string)

  /** The five actions the filter chips offer, in their order. */
  const ACTION_OPTIONS: seq<string> := ["login", "logout", "user_signedup", "user_deleted", "token_refreshed"]

  const DEFAULT_STYLE := ActionStyle("text-gray-600 dark:text-gray-400", "\U{2022}")

  /** `getActionStyle`: a colour and icon per known action, grey otherwise. */
  function StyleOf(action: string): (r: ActionStyle)
    ensures r == DEFAULT_STYLE <==> action !in ACTION_OPTIONS
  {
    match action
    case "login" => ActionStyle("text-green-600 dark:text-green-400", "\U{2192}")
    case "logout" => ActionStyle("text-yellow-600 dark:text-yellow-400", "\U{2190}")
    case "user_signedup" => ActionStyle("text-blue-600 dark:text-blue-400", "+")
    case "user_deleted" => ActionStyle("text-red-600 dark:text-red-400", "\U{00D7}")
    case "token_refreshed" => ActionStyle("text-purple-600 dark:text-purple-400", "\U{27F2}")
    case _ => DEFAULT_STYLE
  }

  /** Each chip action has a style of its own. */
  lemma StylesDistinct(a: string, b: string)
    requires a in ACTION_OPTIONS && b in ACTION_OPTIONS && a != b
    ensures StyleOf(a) != StyleOf(b)
  {
  }

  /** `word.charAt(0).toUpperCase() + word.slice(1)`. */
  function Capitalize(word: string): (r: string)
    ensures |r| == |word|
    ensures word != [] ==> r[0] == UpperChar(word[0]) && r[1..] == word[1..]
  {
    if word == [] then [] else [UpperChar(word[0])] + word[1..]
  }

  /** `formatAction`: "token_refreshed" reads "Session Renewed"; any other
      action is split on '_', each word capitalised, joined with spaces, which
      is the reference reading `Titled` and keeps the length. */
  function FormatAction(action: string): (r: string)
    ensures action == "token_refreshed" ==> r == "Session Renewed"
    ensures action != "token_refreshed" ==> r == Titled(action, true) && |r| == |action|
  {
    if action == "token_refreshed" then "Session Renewed"
    else
      var parts := Split(action, '_');
      var caps := Keys(parts, Capitalize);
      JoinAsTail(caps);
      assert caps[1..] == Keys(parts[1..], Capitalize);
      TitledSplit(action, true);
      Join(caps, " ")
  }

  /** A reference reading of the same label, character by character: an
      underscore becomes a space, and a letter that opens a word (at the
      start, or after an underscore) is upper-cased. */
  function Titled(s: string, opensWord: bool): (r: string)
    ensures |r| == |s|
  {
    if s == [] then []
    else if s[0] == '_' then [' '] + Titled(s[1..], true)
    else [if opensWord then UpperChar(s[0]) else s[0]] + Titled(s[1..], false)
  }

  lemma {:induction false} TitledChars(s: string, opensWord: bool)
    ensures forall i :: 0 <= i < |s| ==>
      Titled(s, opensWord)[i] == (if s[i] == '_' then ' '
                                  else if (if i == 0 then opensWord else s[i - 1] == '_') then UpperChar(s[i])
                                  else s[i])
    decreases |s|
  {
    if s != [] {
      TitledChars(s[1..], s[0] == '_');
      var r := Titled(s, opensWord);
      var t := s[1..];
      forall i | 0 <= i < |s|
        ensures r[i] == (if s[i] == '_' then ' '
                         else if (if i == 0 then opensWord else s[i - 1] == '_') then UpperChar(s[i])
                         else s[i])
      {
        if i == 0 {
          assert r[0] == (if s[0] == '_' then ' ' else if opensWord then UpperChar(s[0]) else s[0]);
        } else {
          assert r[i] == Titled(t, s[0] == '_')[i - 1];
          assert t[i - 1] == s[i];
          if i > 1 {
            assert t[i - 2] == s[i - 1];
          }
        }
      }
    }
  }

  /** `" " + x` in front of every word, concatenated. */
  function SpacedTail(words: seq<string>): string {
    if words == [] then "" else " " + words[0] + SpacedTail(words[1..])
  }

  lemma {:induction false} JoinAsTail(words: seq<string>)
    requires words != []
    ensures Join(words, " ") == words[0] + SpacedTail(words[1..])
    decreases |words|
  {
    if |words| > 1 {
      JoinAsTail(words[1..]);
      assert words[1..][1..] == words[2..];
    }
  }

  /** The first word is capitalised exactly when it opens the label. */
  function Lead(word: string, opensWord: bool): string {
    if opensWord then Capitalize(word) else word
  }

  lemma {:induction false} TitledSplit(s: string, opensWord: bool)
    ensures TitledAsSplit(s, opensWord)
    decreases |s|
  {
    if s == [] {
      var parts := Split(s, '_');
      assert parts == [""] && parts[1..] == [];
      assert Lead(parts[0], opensWord) == "" && Keys(parts[1..], Capitalize) == [];
    } else {
      TitledSplit(s[1..], s[0] == '_');
      if s[0] == '_' {
        TitledSplitGap(s, opensWord);
      } else {
        TitledSplitLetter(s, opensWord);
      }
    }
  }

  /** The title case of `s` is its first '_'-separated word led as the
      flag says, then every other word capitalised after a space. */
  ghost predicate TitledAsSplit(s: string, opensWord: bool) {
    var parts := Split(s, '_');
    Titled(s, opensWord) == Lead(parts[0], opensWord) + SpacedTail(Keys(parts[1..], Capitalize))
  }

  lemma TitledSplitGap(s: string, opensWord: bool)
    requires s != [] && s[0] == '_' && TitledAsSplit(s[1..], true)
    ensures TitledAsSplit(s, opensWord)
  {
    var parts, rest := Split(s, '_'), Split(s[1..], '_');
    var tail := SpacedTail(Keys(rest[1..], Capitalize));
    assert parts == [""] + rest;
    assert parts[1..] == rest;
    SpacedCapitals(rest);
    calc {
      Titled(s, opensWord);
      " " + Titled(s[1..], true);
      " " + (Capitalize(rest[0]) + tail);
      " " + Capitalize(rest[0]) + tail;
      SpacedTail(Keys(parts[1..], Capitalize));
      Lead(parts[0], opensWord) + SpacedTail(Keys(parts[1..], Capitalize));
    }
  }

  lemma TitledSplitLetter(s: string, opensWord: bool)
    requires s != [] && s[0] != '_' && TitledAsSplit(s[1..], false)
    ensures TitledAsSplit(s, opensWord)
  {
    var parts, rest := Split(s, '_'), Split(s[1..], '_');
    var tail := SpacedTail(Keys(rest[1..], Capitalize));
    assert parts == [[s[0]] + rest[0]] + rest[1..];
    assert parts[1..] == rest[1..];
    var c := if opensWord then UpperChar(s[0]) else s[0];
    calc {
      Titled(s, opensWord);
      [c] + Titled(s[1..], false);
      [c] + (rest[0] + tail);
      ([c] + rest[0]) + tail;
      Lead(parts[0], opensWord) + SpacedTail(Keys(parts[1..], Capitalize));
    }
  }

  lemma SpacedCapitals(words: seq<string>)
    requires words != []
    ensures SpacedTail(Keys(words, Capitalize)) ==
      " " + Capitalize(words[0]) + SpacedTail(Keys(words[1..], Capitalize))
  {
    var caps := Keys(words, Capitalize);
    assert caps[1..] == Keys(words[1..], Capitalize);
  }

  /** `toggleAction`: a selected action is removed, any other appended. */
  function Toggle(selected: seq<string>, action: string): (r: seq<string>)
    ensures action in r <==> action !in selected
    ensures forall a :: a != action ==> (a in r <==> a in selected)
    ensures NoDups(selected) ==> NoDups(r)
  {
    if action in selected then
      var kept := Filter(selected, (a: string) => a != action);
      assert NoDups(selected) ==> NoDups(kept) by {
        if NoDups(selected) {
          FilterNoDups(selected, (a: string) => a != action);
        }
      }
      kept
    else selected + [action]
  }

  /** Toggling twice gives back the same selection: the very list when the
      action was off, and the same actions when it was on (it moves to the
      end). */
  lemma ToggleTwice(selected: seq<string>, action: string)
    ensures action !in selected ==> Toggle(Toggle(selected, action), action) == selected
    ensures forall a :: a in Toggle(Toggle(selected, action), action) <==> a in selected
  {
    if action !in selected {
      FilterAll(selected, (a: string) => a != action);
      assert Filter(selected + [action], (a: string) => a != action)
          == Filter(selected, (a: string) => a != action) + Filter([action], (a: string) => a != action) by {
        FilterAppend(selected, [action], (a: string) => a != action);
      }
      assert Filter([action], (a: string) => a != action) == [];
    }
  }

  /** The fields of an audit entry the list looks at. */
  datatype LogEntry = LogEntry(action: string, userEmail: Option<string>, actorUsername: Option<string>)

  /** The searched text: the deleted user's e-mail for "user_deleted", the
      actor's name otherwise. */
  function SearchField(log: LogEntry): Option<string> {
    if log.action == "user_deleted" then log.userEmail else log.actorUsername
  }

  /** The filter callback of `filteredLogs`. */
  predicate Shown(log: LogEntry, selected: seq<string>, query: string)
    ensures Shown(log, selected, query) ==> log.action != "token_revoked"
    ensures Shown(log, selected, query) && selected != [] ==> log.action in selected
    ensures query != "" && SearchField(log).None? ==> !Shown(log, selected, query)
    ensures selected == [] && query == "" ==> (Shown(log, selected, query) <==> log.action != "token_revoked")
  {
    log.action != "token_revoked"
    && (selected == [] || log.action in selected)
    && (query == "" || (SearchField(log).Some? && Contains(Lower(SearchField(log).value), Lower(query))))
  }

  function FilteredLogs(logs: seq<LogEntry>, selected: seq<string>, query: string): (r: seq<LogEntry>)
    ensures forall l :: l in r <==> l in logs && Shown(l, selected, query)
    ensures forall l :: l in r ==> l.action != "token_revoked"
  {
    Filter(logs, (l: LogEntry) => Shown(l, selected, query))
  }

  /** The list keeps the entries it shows in their original order. */
  lemma FilteredInOrder(logs: seq<LogEntry>, selected: seq<string>, query: string)
    ensures IsSubseq(FilteredLogs(logs, selected, query), logs)
  {
    FilterSubseq(logs, (l: LogEntry) => Shown(l, selected, query));
  }

  /** With no chip selected and no search text, everything except revoked
      tokens is listed. */
  lemma UnfilteredShowsAll(logs: seq<LogEntry>)
    ensures FilteredLogs(logs, [], "") == Filter(logs, (l: LogEntry) => l.action != "token_revoked")
  {
    var f := (l: LogEntry) => Shown(l, [], "");
    var g := (l: LogEntry) => l.action != "token_revoked";
    assert forall l :: f(l) == g(l);
    SameFilter(logs, f, g);
  }

  lemma {:induction false} SameFilter<T(!new)>(s: seq<T>, f: T -> bool, g: T -> bool)
    requires forall x :: f(x) == g(x)
    ensures Filter(s, f) == Filter(s, g)
    decreases |s|
  {
    if s != [] {
      SameFilter(s[1..], f, g);
    }
  }

  /** An entry without the searched field never matches a non-empty search,
      and an entry whose field holds the query (ignoring case) always does
      when its action passes the chips. */
  lemma SearchMatches(log: LogEntry, selected: seq<string>, query: string)
    requires log.action != "token_revoked" && (selected == [] || log.action in selected)
    ensures SearchField(log).None? && query != "" ==> !Shown(log, selected, query)
    ensures SearchField(log).Some? && Contains(Lower(SearchField(log).value), Lower(query)) ==> Shown(log, selected, query)
  {
  }
}
