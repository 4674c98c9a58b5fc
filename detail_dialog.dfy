/** The challenge detail dialog
    (src/components/challenges/ChallengeDetailDialog.tsx): the "copy wget"
    command line, the attachment labels and partition, the solve-count tab
    label, the hint buttons and the submit gate.

    The command line is checked against a reader of shell words that follows
    section 2.2 (Quoting) of the POSIX Shell Command Language: inside single
    quotes every character stands for itself up to the next single quote
    (2.2.2), and outside quotes a backslash makes the next character literal
    (2.2.1). Unquoted spaces separate words. */
module DetailDialog {
  import opened Base
  import opened Strings
  import opened Sequences

  /** An attachment; a missing name or url is the empty text. */
  datatype Attachment = Attachment(name: string, url: string, kind: string)

  // ---------------------------------------------------------------------
  // Reading a command line back
  // ---------------------------------------------------------------------

  /** `[w] + ws` once the rest has been read. */
  function Emit(w: string, rest: Option<seq<string>>): Option<seq<string>> {
    if rest.Some? then Some([w] + rest.value) else None
  }

  /** The word in progress, started (possibly empty) once any quote or
      character of it has been read. */
  function Grow(cur: Option<string>, s: string): Option<string> {
    Some(cur.GetOr("") + s)
  }

  /** The words of a command line: `quoted` says whether a single quote is
      open and `cur` holds the word being read. None for an unterminated
      quote or a trailing backslash. */
  function Words(w: string, quoted: bool, cur: Option<string>): Option<seq<string>>
    decreases |w|
  {
    if w == [] then
      if quoted then None else if cur.Some? then Some([cur.value]) else Some([])
    else if quoted then
      if w[0] == '\'' then Words(w[1..], false, cur)
      else Words(w[1..], true, Grow(cur, [w[0]]))
    else if w[0] == ' ' then
      if cur.Some? then Emit(cur.value, Words(w[1..], false, None)) else Words(w[1..], false, None)
    else if w[0] == '\'' then Words(w[1..], true, Grow(cur, ""))
    else if w[0] == '\\' then
      if |w| < 2 then None else Words(w[2..], false, Grow(cur, [w[1]]))
    else Words(w[1..], false, Grow(cur, [w[0]]))
  }

  /** `s.replace(/'/g, "'\\''")`: each single quote closes the quoted text,
      adds a backslash-escaped quote and reopens. */
  function EscapeQuotes(s: string): (r: string)
    ensures |r| >= |s|
    decreases |s|
  {
    if s == [] then ""
    else if s[0] == '\'' then "'\\''" + EscapeQuotes(s[1..])
    else [s[0]] + EscapeQuotes(s[1..])
  }

  /** `'${escaped}'`. */
  function Quote(s: string): string {
    "'" + EscapeQuotes(s) + "'"
  }

  /** Inside an open quote, an escaped text reads as the text itself and
      leaves the quote open. */
  lemma {:induction false} EscapedReadsBack(s: string, rest: string, cur: string)
    ensures Words(EscapeQuotes(s) + rest, true, Some(cur)) == Words(rest, true, Some(cur + s))
    decreases |s|
  {
    if s == [] {
      assert EscapeQuotes(s) + rest == rest && cur + s == cur;
    } else {
      EscapedHead(s, rest, cur);
      EscapedReadsBack(s[1..], rest, cur + [s[0]]);
      assert cur + [s[0]] + s[1..] == cur + s;
    }
  }

  /** The first character of an escaped text, inside an open quote. */
  lemma EscapedHead(s: string, rest: string, cur: string)
    requires s != []
    ensures Words(EscapeQuotes(s) + rest, true, Some(cur)) ==
      Words(EscapeQuotes(s[1..]) + rest, true, Some(cur + [s[0]]))
  {
    var tail := EscapeQuotes(s[1..]) + rest;
    if s[0] == '\'' {
      assert EscapeQuotes(s) + rest == "'\\''" + tail;
      EscapedQuote(tail, cur);
    } else {
      assert EscapeQuotes(s) + rest == [s[0]] + tail;
      QuotedChar(s[0], tail, cur);
    }
  }

  /** Any other character inside an open quote is taken as it is. */
  lemma QuotedChar(c: char, tail: string, cur: string)
    requires c != '\''
    ensures Words([c] + tail, true, Some(cur)) == Words(tail, true, Some(cur + [c]))
  {
    assert ([c] + tail)[1..] == tail;
  }

  /** `'\''` inside an open quote reads as one quote character. */
  lemma EscapedQuote(tail: string, cur: string)
    ensures Words("'\\''" + tail, true, Some(cur)) == Words(tail, true, Some(cur + "'"))
  {
    var w := "'\\''" + tail;
    assert w[1..] == "\\'" + ("'" + tail);
    assert w[1..][2..] == "'" + tail;
    assert ("'" + tail)[1..] == tail;
    var c1 := Grow(Some(cur), [w[1..][1]]);
    assert c1 == Some(cur + "'");
    assert Words(w, true, Some(cur)) == Words(w[1..], false, Some(cur));
    assert Words(w[1..], false, Some(cur)) == Words("'" + tail, false, c1);
    assert cur + "'" + "" == cur + "'";
    assert Grow(c1, "") == Some(cur + "'");
  }

  /** A quoted text, read outside quotes, adds the text to the word. */
  lemma QuotedReadsBack(s: string, rest: string, cur: Option<string>)
    ensures Words(Quote(s) + rest, false, cur) == Words(rest, false, Grow(cur, s))
  {
    var c0 := cur.GetOr("");
    var w := Quote(s) + rest;
    assert w == "'" + (EscapeQuotes(s) + ("'" + rest));
    assert w[1..] == EscapeQuotes(s) + ("'" + rest);
    assert c0 + "" == c0;
    EscapedReadsBack(s, "'" + rest, c0);
    assert ("'" + rest)[1..] == rest;
  }

  /** A character that the reader treats specially outside quotes. */
  predicate Special(c: char) {
    c == ' ' || c == '\'' || c == '\\'
  }

  /** Plain characters are copied into the word. */
  lemma {:induction false} PlainReadsBack(p: string, rest: string, cur: Option<string>)
    requires p != [] && forall i | 0 <= i < |p| :: !Special(p[i])
    ensures Words(p + rest, false, cur) == Words(rest, false, Grow(cur, p))
    decreases |p|
  {
    var w := p + rest;
    assert w[1..] == p[1..] + rest;
    if |p| == 1 {
      assert p[1..] + rest == rest && p == [p[0]];
    } else {
      PlainReadsBack(p[1..], rest, Grow(cur, [p[0]]));
      assert cur.GetOr("") + [p[0]] + p[1..] == cur.GetOr("") + p;
    }
  }

  lemma SpaceEnds(rest: string, c: string)
    ensures Words(" " + rest, false, Some(c)) == Emit(c, Words(rest, false, None))
  {
    assert (" " + rest)[1..] == rest;
  }

  /** `wget '${escUrl}' -O '${escName}'`. */
  function Command(url: string, filename: string): string {
    "wget " + Quote(url) + " -O " + Quote(filename)
  }

  /** A command reads as `wget`, the url, `-O` and the file name, whatever
      quotes, spaces or backslashes the url and the name hold; the name is
      still the word in progress when the command ends. */
  lemma CommandReadsBack(url: string, filename: string, rest: string)
    ensures Words(Command(url, filename) + rest, false, None) ==
      Emit("wget", Emit(url, Emit("-O", Words(rest, false, Some(filename)))))
  {
    var b := "-O " + Quote(filename) + rest;
    var d := Quote(url) + " " + b;
    assert Command(url, filename) + rest == "wget " + d == "wget" + " " + d;
    WordReadsBack("wget", d);
    UrlReadsBack(url, b);
    NameReadsBack(filename, rest);
  }

  /** A plain word and a space, then whatever follows. */
  lemma WordReadsBack(word: string, d: string)
    requires word != [] && forall i | 0 <= i < |word| :: !Special(word[i])
    ensures Words(word + " " + d, false, None) == Emit(word, Words(d, false, None))
  {
    var e := " " + d;
    assert word + " " + d == word + e;
    PlainReadsBack(word, e, None);
    assert "" + word == word;
    SpaceEnds(d, word);
  }

  /** A quoted url and a space, then whatever follows. */
  lemma UrlReadsBack(url: string, b: string)
    ensures Words(Quote(url) + " " + b, false, None) == Emit(url, Words(b, false, None))
  {
    var c := " " + b;
    assert Quote(url) + " " + b == Quote(url) + c;
    QuotedReadsBack(url, c, None);
    assert "" + url == url;
    SpaceEnds(b, url);
  }

  /** `-O`, a space and the quoted name, still in progress at the end. */
  lemma NameReadsBack(filename: string, rest: string)
    ensures Words("-O " + Quote(filename) + rest, false, None) ==
      Emit("-O", Words(rest, false, Some(filename)))
  {
    var qn := Quote(filename) + rest;
    assert "-O " + Quote(filename) + rest == "-O" + " " + qn;
    WordReadsBack("-O", qn);
    QuotedReadsBack(filename, rest, None);
    assert "" + filename == filename;
  }

  /** One command per (url, file name) pair. */
  function Commands(pairs: seq<(string, string)>): (r: seq<string>)
    ensures |r| == |pairs|
  {
    if pairs == [] then [] else [Command(pairs[0].0, pairs[0].1)] + Commands(pairs[1..])
  }

  /** The words a list of commands joined by " && " should read as. */
  function Expected(pairs: seq<(string, string)>): seq<string>
    requires pairs != []
  {
    var here := ["wget", pairs[0].0, "-O", pairs[0].1];
    if |pairs| == 1 then here else here + ["&&"] + Expected(pairs[1..])
  }

  /** The joined command line reads back as the wget invocations, in order,
      separated by `&&`, each with its own url and file name. */
  lemma {:induction false} JoinedReadsBack(pairs: seq<(string, string)>)
    requires pairs != []
    ensures Words(Join(Commands(pairs), " && "), false, None) == Some(Expected(pairs))
    decreases |pairs|
  {
    var cmds := Commands(pairs);
    var (u, n) := pairs[0];
    if |pairs| == 1 {
      assert Join(cmds, " && ") == Command(u, n) + "";
      LastCommand(u, n);
    } else {
      var j := Join(cmds[1..], " && ");
      assert cmds[1..] == Commands(pairs[1..]);
      JoinedReadsBack(pairs[1..]);
      assert Join(cmds, " && ") == Command(u, n) + (" && " + j);
      NextCommand(u, n, j, Expected(pairs[1..]));
    }
  }

  /** The last command of the line reads back as its four words. */
  lemma LastCommand(u: string, n: string)
    ensures Words(Command(u, n) + "", false, None) == Some(["wget", u, "-O", n])
  {
    CommandReadsBack(u, n, "");
    assert Words("", false, Some(n)) == Some([n]);
    assert [n] + [] == [n];
    EmitCommand(u, n, []);
    assert ["wget", u, "-O", n] + [] == ["wget", u, "-O", n];
  }

  /** A command followed by " && " and a line that reads back. */
  lemma NextCommand(u: string, n: string, j: string, rest: seq<string>)
    requires Words(j, false, None) == Some(rest)
    ensures Words(Command(u, n) + (" && " + j), false, None) == Some(["wget", u, "-O", n] + ["&&"] + rest)
  {
    CommandReadsBack(u, n, " && " + j);
    SeparatorReadsBack(n, j);
    assert [n] + (["&&"] + rest) == [n] + ["&&"] + rest;
    EmitCommand(u, n, ["&&"] + rest);
    assert ["wget", u, "-O", n] + (["&&"] + rest) == ["wget", u, "-O", n] + ["&&"] + rest;
  }

  lemma EmitCommand(u: string, n: string, tail: seq<string>)
    ensures Emit("wget", Emit(u, Emit("-O", Some([n] + tail)))) == Some(["wget", u, "-O", n] + tail)
  {
    assert ["wget"] + ([u] + (["-O"] + ([n] + tail))) == ["wget", u, "-O", n] + tail;
  }

  /** " && " ends the word in progress and reads as the word `&&`. */
  lemma SeparatorReadsBack(n: string, j: string)
    ensures Words(" && " + j, false, Some(n)) == Emit(n, Emit("&&", Words(j, false, None)))
  {
    var tail := " " + j;
    var amp := "&&" + tail;
    assert " && " + j == " " + amp;
    SpaceEnds(amp, n);
    PlainReadsBack("&&", tail, None);
    assert "" + "&&" == "&&";
    SpaceEnds(j, "&&");
  }

  // ---------------------------------------------------------------------
  // The copied text
  // ---------------------------------------------------------------------

  predicate IsFile(a: Attachment) {
    a.kind == "file"
  }

  /** A file attachment the copy button makes a command for. */
  predicate Copyable(a: Attachment) {
    IsFile(a) && (a.url != "" || a.name != "")
  }

  /** The trimmed name, else the last '/' piece of the url, else
      `file-<idx>`. */
  function FileName(a: Attachment, idx: nat): (r: string)
    ensures r != []
    ensures !IsBlank(a.name) ==> r == Trim(a.name)
    ensures IsBlank(a.name) && LastPiece(a.url, '/') != "" ==> r == LastPiece(a.url, '/') && EndsWith(a.url, r)
    ensures IsBlank(a.name) && LastPiece(a.url, '/') == "" ==> r == "file-" + NatToString(idx)
  {
    var trimmed := if a.name != "" then Trim(a.name) else "";
    if trimmed != "" then trimmed
    else if LastPiece(a.url, '/') != "" then LastPiece(a.url, '/')
    else "file-" + NatToString(idx)
  }

  /** The (url, file name) of each copyable attachment, numbered in the
      filtered list. */
  function Pairs(files: seq<Attachment>): (r: seq<(string, string)>)
    ensures |r| == |files|
    ensures forall i | 0 <= i < |files| :: r[i] == (files[i].url, FileName(files[i], i))
  {
    seq(|files|, i requires 0 <= i < |files| => (files[i].url, FileName(files[i], i)))
  }

  /** What the copy button puts on the clipboard: nothing when no file
      attachment has a url or a name, otherwise the commands joined by
      " && ". */
  function CopyText(attachments: seq<Attachment>): (r: Option<string>)
    ensures r.None? <==> forall a :: a in attachments ==> !Copyable(a)
  {
    var files := Filter(attachments, Copyable);
    if forall a :: a in attachments ==> !Copyable(a) then
      FilterNone(attachments, Copyable);
      None
    else Some(Join(Commands(Pairs(files)), " && "))
  }

  /** The copied text reads back, word for word, as one wget per copyable
      file attachment in list order, fetching its own url into its own file
      name. */
  lemma CopyTextReadsBack(attachments: seq<Attachment>)
    requires CopyText(attachments).Some?
    ensures var files := Filter(attachments, Copyable);
      Words(CopyText(attachments).value, false, None) == Some(Expected(Pairs(files)))
  {
    JoinedReadsBack(Pairs(Filter(attachments, Copyable)));
  }

  // ---------------------------------------------------------------------
  // Labels, partition and gates
  // ---------------------------------------------------------------------

  /** A file button's label: a name longer than 40 is cut to 37 characters
      and "...", an empty name reads "file". */
  function FileLabel(name: string): (r: string)
    ensures |r| <= 40
    ensures |name| > 40 ==> r == name[..37] + "..."
    ensures 0 < |name| <= 40 ==> r == name
    ensures name == "" ==> r == "file"
  {
    if |name| > 40 then name[..37] + "..." else if name != "" then name else "file"
  }

  /** A link's label: as a file's, except that a link without a name shows
      the first 40 characters of its url and "...", or "link". */
  function LinkLabel(name: string, url: string): (r: string)
    ensures |r| <= 43
    ensures name != "" ==> r == FileLabel(name)
    ensures name == "" && url != "" ==> r == (if |url| > 40 then url[..40] else url) + "..."
    ensures name == "" && url == "" ==> r == "link"
  {
    if |name| > 40 then name[..37] + "..."
    else if name != "" then name
    else if url != "" then (if |url| > 40 then url[..40] else url) + "..."
    else "link"
  }

  function Files(attachments: seq<Attachment>): seq<Attachment> {
    Filter(attachments, IsFile)
  }

  function Links(attachments: seq<Attachment>): seq<Attachment> {
    Filter(attachments, (a: Attachment) => !IsFile(a))
  }

  /** Every attachment is listed once, as a file or as a link. */
  lemma {:induction false} Partition(attachments: seq<Attachment>)
    ensures |Files(attachments)| + |Links(attachments)| == |attachments|
    ensures forall a :: a in attachments ==> (a in Files(attachments) <==> a !in Links(attachments))
    decreases |attachments|
  {
    if attachments != [] {
      Partition(attachments[1..]);
    }
  }

  /** The solvers tab: "0 solves", "1 solve", "n solves". The zero case is
      the general rule: the count and a word that is singular exactly at
      one. */
  function SolveLabel(n: nat): (r: string)
    ensures r == NatToString(n) + (if n == 1 then " solve" else " solves")
  {
    if n != 0 then NatToString(n) + (if n == 1 then " solve" else " solves")
    else
      assert NatToString(0) == "0";
      "0 solves"
  }

  const HINT_LABEL: string := "\U{1F4A1} Hint "

  /** The hint buttons of a stored hint: one per array element, numbered
      only when there is more than one; none unless the hint is a non-empty
      array. */
  function HintButtons(hint: Json): (r: seq<string>)
    ensures |r| == (if hint.JArr? then |hint.items| else 0)
    ensures |r| == 1 ==> r[0] == HINT_LABEL
    ensures |r| > 1 ==> forall i | 0 <= i < |r| :: r[i] == HINT_LABEL + NatToString(i + 1)
  {
    if hint.JArr? && |hint.items| > 0 then
      var n := |hint.items|;
      seq(n, i requires 0 <= i < n => HINT_LABEL + (if n > 1 then NatToString(i + 1) else ""))
    else []
  }

  /** The flag submit button is enabled exactly when nothing is being
      submitted and the typed flag is not blank. */
  function SubmitDisabled(submitting: bool, input: Option<string>): (r: bool)
    ensures !r <==> !submitting && input.Some? && !IsBlank(input.value)
  {
    submitting || input.None? || Trim(input.value) == ""
  }
}
