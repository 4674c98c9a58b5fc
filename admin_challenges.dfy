/** The admin's challenge page (src/app/admin/page.tsx): opening a stored
    challenge in the form, building the save payload, the admin filter and
    sort order, the hint and attachment list helpers, the active switch and
    the delete confirmation. */
module AdminChallenges {
  import opened Base
  import opened Strings
  import opened Sequences
  import Sorting
  import CL = ChallengeList
  import CF = ChallengeForm
  import CS = ChallengeStore

  /** A challenge as the admin page receives it. Missing numbers are 0 and
      missing texts are empty: `||` treats both alike. The three dynamic
      scoring fields go through `??` and keep their absence. */
  datatype Record = Record(
    id: string, title: string, description: string, category: string,
    points: int, maxPoints: int, flag: string, hint: Json, difficulty: string,
    attachments: seq<CF.FormAttachment>, isDynamic: Option<bool>,
    minPoints: Option<int>, decayPerSolve: Option<int>, isActive: bool)

  /** `APP.challengeCategories?.[0] || 'Web'`: the first configured category. */
  const DEFAULT_CATEGORY: string := CL.CHALLENGE_CATEGORIES[0]

  /** The form of a new challenge. */
  const EMPTY_FORM: CF.Form := CF.Form(
    "", "", DEFAULT_CATEGORY, CF.Num(100), CF.Num(100), "", [], "Easy", [],
    false, CF.Num(0), CF.Num(0))

  lemma EmptyFormSynced()
    ensures CF.Synced(EMPTY_FORM) && DEFAULT_CATEGORY == "Intro"
    ensures !CF.MinWarning(EMPTY_FORM)
  {
  }

  // ---------------------------------------------------------------------
  // Opening a challenge for editing
  // ---------------------------------------------------------------------

  /** The hint list `openEdit` puts in the form: an array keeps its strings;
      a non-blank text that decodes to an array keeps that array's strings;
      any other non-blank text, decoded or not, is kept whole; everything
      else gives no hint. */
  function EditHint(raw: Json, parse: string -> Option<Json>): (r: seq<string>)
    ensures raw.JArr? ==> r == Base.Strings(raw.items)
    ensures raw.JStr? && !IsBlank(raw.s) && !(parse(raw.s).Some? && parse(raw.s).value.JArr?) ==> r == [raw.s]
    ensures !raw.JArr? && !(raw.JStr? && !IsBlank(raw.s)) ==> r == []
  {
    match raw
    case JArr(items) => Base.Strings(items)
    case JStr(text) =>
      if Trim(text) == "" then []
      else
        (match parse(text)
         case Some(JArr(items)) => Base.Strings(items)
         case _ => [text])
    case _ => []
  }

  /** The admin form and the player's list read a stored hint alike when it
      is an array, the text of an array, or text that does not decode; they
      differ on text that decodes to a string (the admin keeps the quotes)
      and on a number (the admin drops it). */
  lemma EditHintAgainstList(raw: Json, parse: string -> Option<Json>)
    ensures raw.JArr? ==> EditHint(raw, parse) == CL.NormalizeHint(raw, parse)
    ensures raw.JStr? && parse(raw.s).Some? && parse(raw.s).value.JArr? && !IsBlank(raw.s) ==>
      EditHint(raw, parse) == CL.NormalizeHint(raw, parse)
    ensures raw.JStr? && parse(raw.s).None? ==> EditHint(raw, parse) == CL.NormalizeHint(raw, parse)
    ensures raw.JStr? && !IsBlank(raw.s) && parse(raw.s).Some? && parse(raw.s).value.JStr? ==>
      EditHint(raw, parse) == [raw.s] && CL.NormalizeHint(raw, parse) == [parse(raw.s).value.s]
    ensures raw.JNum? && raw.n != 0 ==>
      EditHint(raw, parse) == [] && CL.NormalizeHint(raw, parse) == [CL.JsonText(raw)]
  {
  }

  /** `x || d` for a stored number. */
  function OrElse(x: int, d: int): int {
    if x != 0 then x else d
  }

  /** The form `openEdit` fills from a stored challenge. */
  function OpenEdit(c: Record, parse: string -> Option<Json>): (r: CF.Form)
    ensures r.points.Num? && r.points.n != 0 && r.maxPoints.Num? && r.maxPoints.n != 0
    ensures c.points != 0 ==> r.points.n == c.points
    ensures c.maxPoints != 0 ==> r.maxPoints.n == c.maxPoints
    ensures c.maxPoints == 0 ==> CF.Synced(r)
    ensures r.category != "" && (c.category != "" ==> r.category == c.category)
    ensures r.difficulty != "" && (c.difficulty != "" ==> r.difficulty == c.difficulty)
    ensures r.isDynamic <==> c.isDynamic == Some(true)
    ensures r.hint == EditHint(c.hint, parse)
  {
    var points := OrElse(c.points, 100);
    CF.Form(
      c.title, c.description,
      if c.category != "" then c.category else DEFAULT_CATEGORY,
      CF.Num(points),
      CF.Num(OrElse(c.maxPoints, points)),
      c.flag, EditHint(c.hint, parse),
      if c.difficulty != "" then c.difficulty else "Easy",
      c.attachments,
      c.isDynamic.GetOr(false),
      CF.Num(c.minPoints.GetOr(0)),
      CF.Num(c.decayPerSolve.GetOr(0)))
  }

  // ---------------------------------------------------------------------
  // The save payload
  // ---------------------------------------------------------------------

  /** What `handleSubmit` sends. `hint` is null (None) or a list; `flag` and
      `max_points` are absent (None) unless set. */
  datatype Payload = Payload(
    title: string, description: string, category: string, points: int,
    hint: Option<seq<string>>, difficulty: string,
    attachments: seq<CF.FormAttachment>,
    isDynamic: bool, minPoints: int, decayPerSolve: int,
    flag: Option<string>, maxPoints: Option<int>)

  /** `Number(x) || 0` of a numeric box: the number, or 0 when cleared. */
  function NumberOr0(v: CF.Field): int {
    if v.Num? then v.n else 0
  }

  predicate FilledHint(h: string) {
    Trim(h) != ""
  }

  predicate HasUrl(a: CF.FormAttachment) {
    Trim(a.url) != ""
  }

  /** The payload of a form, as the successive assignments build it. */
  function SavedPayload(f: CF.Form): (p: Payload)
    ensures p.hint.None? <==> f.hint == []
    ensures p.hint.Some? ==> p.hint.value == Filter(f.hint, FilledHint)
    ensures p.attachments == Filter(f.attachments, HasUrl)
    ensures p.flag.Some? <==> !IsBlank(f.flag)
    ensures p.flag.Some? ==> p.flag.value == Trim(f.flag)
    ensures p.maxPoints.Some? <==> f.isDynamic
    ensures p.maxPoints.Some? && f.maxPoints.Num? && f.maxPoints.n != 0 ==> p.maxPoints.value == f.maxPoints.n
    ensures p.title == Trim(f.title) && p.category == Trim(f.category) && p.points == NumberOr0(f.points)
  {
    Payload(
      Trim(f.title), Trim(f.description), Trim(f.category), NumberOr0(f.points),
      if |f.hint| > 0 then Some(Filter(f.hint, FilledHint)) else None,
      Trim(f.difficulty),
      Filter(f.attachments, HasUrl),
      f.isDynamic, NumberOr0(f.minPoints), NumberOr0(f.decayPerSolve),
      if Trim(f.flag) != "" then Some(Trim(f.flag)) else None,
      if f.isDynamic then Some(OrElse(NumberOr0(f.maxPoints), NumberOr0(f.points))) else None)
  }

  /** `handleSubmit`'s payload construction: the literal, then the optional
      fields one by one. */
  method BuildPayload(f: CF.Form) returns (p: Payload)
    ensures p == SavedPayload(f)
  {
    var hint: Option<seq<string>> := None;
    if |f.hint| > 0 {
      hint := Some(Filter(f.hint, FilledHint));
    }
    p := Payload(
      Trim(f.title), Trim(f.description), Trim(f.category), NumberOr0(f.points),
      hint, Trim(f.difficulty), Filter(f.attachments, HasUrl),
      false, 0, 0, None, None);
    p := p.(isDynamic := f.isDynamic);
    p := p.(minPoints := NumberOr0(f.minPoints));
    p := p.(decayPerSolve := NumberOr0(f.decayPerSolve));
    if Trim(f.flag) != "" {
      p := p.(flag := Some(Trim(f.flag)));
    }
    if f.isDynamic {
      var m := NumberOr0(f.maxPoints);
      if m == 0 {
        m := NumberOr0(f.points);
      }
      p := p.(maxPoints := Some(m));
    }
  }

  /** A list of non-empty hints reaches the payload whole, and a list of
      blank hints reaches it as an empty list rather than null. */
  lemma PayloadHintsFilled(f: CF.Form)
    requires forall h :: h in f.hint ==> FilledHint(h)
    ensures SavedPayload(f).hint == if f.hint == [] then None else Some(f.hint)
  {
    FilterAll(f.hint, FilledHint);
  }

  lemma PayloadHintsBlank(f: CF.Form)
    requires f.hint != [] && forall h :: h in f.hint ==> !FilledHint(h)
    ensures SavedPayload(f).hint == Some([])
  {
    FilterNone(f.hint, FilledHint);
  }

  datatype Call = UpdateCall(id: string, payload: Payload) | CreateCall(payload: Payload)

  datatype Toast = Toast(success: bool, message: string)

  /** The page after `handleSubmit`: the service call made (None when the
      flag guard returns first), the toast, whether the form is still open,
      the form and the challenge being edited. */
  datatype Submitted = Submitted(
    call: Option<Call>, toast: Toast, formOpen: bool, form: CF.Form, editing: Option<string>)

  /** `saved` says whether `updateChallenge` or `addChallenge` returned
      rather than threw (each throws on an RPC error). The reload with
      `getChallenges` that follows never throws: it returns [] on any error.
      The reloaded list itself is not part of this model. */
  function HandleSubmit(f: CF.Form, editing: Option<string>, saved: bool): (r: Submitted)
    ensures r.call.None? <==> editing.None? && IsBlank(f.flag)
    ensures r.call.None? ==> r.toast == Toast(false, "Flag is required for new challenges")
    ensures editing.Some? ==> r.call == Some(UpdateCall(editing.value, SavedPayload(f)))
    ensures editing.None? && r.call.Some? ==>
      r.call == Some(CreateCall(SavedPayload(f))) && r.call.value.payload.flag == Some(Trim(f.flag))
    ensures r.toast.success <==> r.call.Some? && saved
    ensures r.toast.success ==> !r.formOpen && r.form == EMPTY_FORM && r.editing.None?
    ensures !r.toast.success ==> r.formOpen && r.form == f && r.editing == editing
    ensures r.call.Some? && !saved ==> r.toast.message == "Failed to save challenge"
  {
    var payload := SavedPayload(f);
    var call :=
      if editing.Some? then Some(UpdateCall(editing.value, payload))
      else if Trim(f.flag) == "" then None
      else Some(CreateCall(payload.(flag := Some(Trim(f.flag)))));
    if call.None? then Submitted(None, Toast(false, "Flag is required for new challenges"), true, f, editing)
    else if saved then Submitted(call, Toast(true, "Challenge saved successfully"), false, EMPTY_FORM, None)
    else Submitted(call, Toast(false, "Failed to save challenge"), true, f, editing)
  }

  /** Opening a tidy stored challenge and saving it unchanged sends its own
      values back: trimmed texts, its points, its non-blank hints stored as
      an array (null when there are none), its attachments, its flag and,
      for a dynamic challenge, its maximum. */
  lemma EditSaveRoundTrip(c: Record, hints: seq<string>, parse: string -> Option<Json>)
    requires Trim(c.title) == c.title && Trim(c.description) == c.description
    requires c.category != "" && Trim(c.category) == c.category
    requires c.difficulty != "" && Trim(c.difficulty) == c.difficulty
    requires c.points != 0
    requires c.hint == CL.JsonList(hints) && forall h :: h in hints ==> FilledHint(h)
    requires forall a :: a in c.attachments ==> HasUrl(a)
    requires !IsBlank(c.flag) && Trim(c.flag) == c.flag
    ensures var p := SavedPayload(OpenEdit(c, parse));
      && p.title == c.title && p.description == c.description && p.category == c.category
      && p.difficulty == c.difficulty && p.points == c.points
      && p.hint == (if hints == [] then None else Some(hints))
      && p.attachments == c.attachments
      && p.flag == Some(c.flag)
      && p.isDynamic == c.isDynamic.GetOr(false)
      && p.minPoints == c.minPoints.GetOr(0) && p.decayPerSolve == c.decayPerSolve.GetOr(0)
      && (p.isDynamic ==> p.maxPoints == Some(OrElse(c.maxPoints, c.points)))
  {
    var f := OpenEdit(c, parse);
    CL.StringsOfList(hints);
    assert f.hint == hints;
    PayloadHintsFilled(f);
    FilterAll(c.attachments, HasUrl);
  }

  /** A stored challenge worth 0 points opens at 100 and is saved at 100. */
  lemma ZeroPointsSavedAsHundred(c: Record, parse: string -> Option<Json>)
    requires c.points == 0
    ensures SavedPayload(OpenEdit(c, parse)).points == 100
  {
  }

  /** The challenge data a payload hands to `addChallenge` and
      `updateChallenge`; the payload never carries `is_active`. */
  function StoreData(p: Payload): (d: CS.ChallengeData)
    ensures d.hint.NoHint? <==> p.hint.None?
    ensures d.flag == p.flag && d.isActive.None?
  {
    CS.ChallengeData(p.title, p.description, p.category, p.points, p.maxPoints, p.flag,
      if p.hint.Some? then CS.HintList(p.hint.value) else CS.NoHint,
      Some(p.attachments), p.difficulty, None, Some(p.isDynamic), Some(p.minPoints), Some(p.decayPerSolve))
  }

  /** After a save, the database holds null exactly when every hint of the
      form is blank (or there is none), and otherwise a text the challenge
      list reads back as the non-blank hints, in order. The requires says
      that `JSON.parse` undoes `JSON.stringify` on that list. */
  lemma SavedHintStored(f: CF.Form, stringify: seq<string> -> string, parse: string -> Option<Json>)
    requires parse(stringify(Filter(f.hint, FilledHint))) == Some(CL.JsonList(Filter(f.hint, FilledHint)))
    ensures var stored := CS.UpdateArgs(StoreData(SavedPayload(f)), stringify).hint;
      stored == CS.AddArgs(StoreData(SavedPayload(f)), stringify).hint &&
      (stored.None? <==> forall h :: h in f.hint ==> !FilledHint(h)) &&
      (stored.Some? ==> CL.NormalizeHint(JStr(stored.value), parse) == Filter(f.hint, FilledHint))
  {
    var kept := Filter(f.hint, FilledHint);
    var d := StoreData(SavedPayload(f));
    var stored := CS.UpdateArgs(d, stringify).hint;
    assert stored == CS.SerializeHint(d.hint, stringify) == CS.AddArgs(d, stringify).hint;
    if f.hint != [] {
      assert d.hint == CS.HintList(kept);
      assert kept == [] <==> forall h :: h in f.hint ==> !FilledHint(h) by {
        if kept != [] { assert kept[0] in kept; }
      }
      CS.StoredHintReadsBack(d.hint, stringify, parse);
    } else {
      assert d.hint == CS.NoHint && stored.None?;
    }
  }

  // ---------------------------------------------------------------------
  // Filter
  // ---------------------------------------------------------------------

  datatype AdminFilters = AdminFilters(category: string, difficulty: string, search: string)

  const CLEARED: AdminFilters := AdminFilters(CL.ALL, CL.ALL, "")

  /** The admin list's test: the search looks at the title only. Whatever
      it shows, the player's filter with the status switched off shows as
      well; cleared filters show everything. */
  predicate AdminShown(f: AdminFilters, c: Record)
    ensures AdminShown(f, c) ==> CL.Shown(CL.Filters(CL.AllStatus, f.category, f.difficulty, f.search), Listed(c))
    ensures f == CLEARED ==> AdminShown(f, c)
  {
    if f.search != "" && !Contains(Lower(c.title), Lower(f.search)) then false
    else if f.category != CL.ALL && c.category != f.category then false
    else if f.difficulty != CL.ALL && c.difficulty != f.difficulty then false
    else true
  }

  function AdminFiltered(f: AdminFilters, list: seq<Record>): (r: seq<Record>)
    ensures forall c :: c in r <==> c in list && AdminShown(f, c)
  {
    Filter(list, (c: Record) => AdminShown(f, c))
  }

  /** A record as the player's list sees it. */
  function Listed(c: Record): CL.Challenge {
    CL.Challenge(c.id, c.title, c.description, c.category, c.difficulty, false)
  }

  /** The admin filter is the player's filter with the status switched off,
      except that a search matching only the description passes the player's
      and not the admin's. */
  lemma AdminAgainstPlayer(f: AdminFilters, c: Record)
    ensures var pf := CL.Filters(CL.AllStatus, f.category, f.difficulty, f.search);
      && (AdminShown(f, c) ==> CL.Shown(pf, Listed(c)))
      && (CL.Shown(pf, Listed(c)) && (f.search == "" || Contains(Lower(c.title), Lower(f.search))) ==> AdminShown(f, c))
  {
  }

  /** Clearing the filters shows every challenge. */
  lemma {:induction false} ClearedShowsAll(list: seq<Record>)
    ensures AdminFiltered(CLEARED, list) == list
    decreases |list|
  {
    if list != [] {
      ClearedShowsAll(list[1..]);
    }
  }

  /** The filter bar's difficulties: each stored difficulty once, in first
      appearance order. */
  function AdminDifficulties(list: seq<Record>): (r: seq<string>)
    ensures NoDups(r)
    ensures forall d :: d in r <==> exists i | 0 <= i < |list| :: list[i].difficulty == d
  {
    var ds := Keys(list, (c: Record) => c.difficulty);
    var r := Distinct(ds);
    forall d ensures d in r <==> exists i | 0 <= i < |list| :: list[i].difficulty == d {
      if d in ds {
        var i :| 0 <= i < |ds| && ds[i] == d;
        assert list[i].difficulty == d;
      }
    }
    r
  }

  /** The filter bar's categories: the same configuration-first order as the
      player's list. */
  function AdminCategories(list: seq<Record>): (r: seq<string>)
    ensures forall c :: c in r ==> c != "" && exists i | 0 <= i < |list| :: list[i].category == c
    ensures forall i | 0 <= i < |list| :: list[i].category != "" ==> list[i].category in r
  {
    var all := CL.AllCategories(Keys(list, Listed));
    CL.ConfigOrderPermutes(CL.CHALLENGE_CATEGORIES, all);
    ListedCategories(list);
    CL.ConfigOrder(CL.CHALLENGE_CATEGORIES, all)
  }

  /** Listing the records keeps every category where it was. */
  lemma ListedCategories(list: seq<Record>)
    ensures var all := CL.AllCategories(Keys(list, Listed));
      (forall c :: c in all ==> c != "" && exists i | 0 <= i < |list| :: list[i].category == c) &&
      (forall i | 0 <= i < |list| :: list[i].category != "" ==> list[i].category in all)
  {
    var listed := Keys(list, Listed);
    forall i | 0 <= i < |list| ensures listed[i].category == list[i].category {
    }
    ListedSameCategories(list, listed);
  }

  lemma ListedSameCategories(list: seq<Record>, listed: seq<CL.Challenge>)
    requires |listed| == |list|
    requires forall i | 0 <= i < |list| :: listed[i].category == list[i].category
    ensures var all := CL.AllCategories(listed);
      (forall c :: c in all ==> c != "" && exists i | 0 <= i < |list| :: list[i].category == c) &&
      (forall i | 0 <= i < |list| :: list[i].category != "" ==> list[i].category in all)
  {
    var all := CL.AllCategories(listed);
    forall c | c in all ensures exists i | 0 <= i < |list| :: list[i].category == c {
      var i :| 0 <= i < |listed| && listed[i].category == c;
      assert list[i].category == c;
    }
  }

  // ---------------------------------------------------------------------
  // Sort order
  // ---------------------------------------------------------------------

  /** `findIndex` over the configuration, ignoring case; -1 when absent. */
  function ConfigIndex(config: seq<string>, category: string): (r: int)
    ensures -1 <= r < |config|
    ensures r == -1 <==> forall j | 0 <= j < |config| :: Lower(config[j]) != Lower(category)
    ensures r >= 0 ==> Lower(config[r]) == Lower(category)
    ensures r >= 0 ==> forall j | 0 <= j < r :: Lower(config[j]) != Lower(category)
    decreases |config|
  {
    if config == [] then -1
    else if Lower(config[0]) == Lower(category) then 0
    else
      var k := ConfigIndex(config[1..], category);
      assert forall j | 1 <= j < |config| :: config[j] == config[1..][j - 1];
      if k == -1 then -1 else k + 1
  }

  /** `localeCompare`, as code-point order. */
  function TextCompare(a: string, b: string): int {
    if a == b then 0 else if LexLe(a, b) then -1 else 1
  }

  /** The comparator of the admin list: points descending, then the
      configured position of the category, configured before unconfigured,
      then the category text. It answers "not after" exactly when the
      reference order `Precedes` does. */
  function Compare(config: seq<string>, a: Record, b: Record): (r: int)
    ensures a.points != b.points ==> (r < 0 <==> a.points > b.points)
    ensures r <= 0 <==> Precedes(config, a, b)
  {
    LexLeTotal(a.category, a.category);
    if b.points != a.points then b.points - a.points
    else
      var ai := ConfigIndex(config, a.category);
      var bi := ConfigIndex(config, b.category);
      if ai != -1 && bi != -1 then ai - bi
      else if ai != -1 then -1
      else if bi != -1 then 1
      else TextCompare(a.category, b.category)
  }

  /** Swapping the arguments flips the sign. */
  lemma CompareAntisymmetric(config: seq<string>, a: Record, b: Record)
    ensures Compare(config, a, b) < 0 <==> Compare(config, b, a) > 0
    ensures Compare(config, a, b) == 0 <==> Compare(config, b, a) == 0
  {
    if a.category != b.category {
      LexLeTotal(a.category, b.category);
      if LexLe(a.category, b.category) {
        LexLeStrict(a.category, b.category);
      } else {
        LexLeStrict(b.category, a.category);
      }
    }
  }

  /** More points come first; at equal points a configured category comes
      before an unconfigured one, and two configured ones in configuration
      order. */
  lemma CompareRanks(config: seq<string>, a: Record, b: Record)
    ensures a.points > b.points ==> Compare(config, a, b) < 0
    ensures a.points == b.points && ConfigIndex(config, a.category) != -1 && ConfigIndex(config, b.category) == -1 ==>
      Compare(config, a, b) < 0
    ensures a.points == b.points && 0 <= ConfigIndex(config, a.category) < ConfigIndex(config, b.category) ==>
      Compare(config, a, b) < 0
  {
  }

  /** The position that decides ties: configured categories by index, the
      others after them. */
  function Slot(config: seq<string>, a: Record): int {
    var i := ConfigIndex(config, a.category);
    if i == -1 then |config| else i
  }

  /** The order the comparator induces, as a lexicographic order on (points
      descending, slot, category text for unconfigured ones). */
  predicate Precedes(config: seq<string>, a: Record, b: Record) {
    a.points > b.points ||
    (a.points == b.points &&
      (Slot(config, a) < Slot(config, b) ||
       (Slot(config, a) == Slot(config, b) &&
         (Slot(config, a) < |config| || LexLe(a.category, b.category)))))
  }

  lemma PrecedesTransitive(config: seq<string>, a: Record, b: Record, c: Record)
    requires Precedes(config, a, b) && Precedes(config, b, c)
    ensures Precedes(config, a, c)
  {
    if a.points == b.points == c.points && Slot(config, a) == Slot(config, b) == Slot(config, c) == |config| {
      LexLeTrans(a.category, b.category, c.category);
    }
  }

  /** The comparator as a `<=` relation: total and transitive. */
  function ByCompare(config: seq<string>): (le: (Record, Record) -> bool)
    ensures Sorting.Total(le) && Sorting.Transitive(le)
    ensures forall a, b :: le(a, b) <==> Compare(config, a, b) <= 0
  {
    forall a, b ensures Compare(config, a, b) <= 0 || Compare(config, b, a) <= 0 {
      CompareAntisymmetric(config, a, b);
    }
    forall a, b, c | Compare(config, a, b) <= 0 && Compare(config, b, c) <= 0
      ensures Compare(config, a, c) <= 0
    {
      PrecedesTransitive(config, a, b, c);
    }
    (a: Record, b: Record) => Compare(config, a, b) <= 0
  }

  /** The list as displayed: the filtered challenges sorted by the
      comparator, a rearrangement in which every earlier challenge compares
      at most equal to every later one. */
  function Displayed(f: AdminFilters, list: seq<Record>): (r: seq<Record>)
    ensures multiset(r) == multiset(AdminFiltered(f, list))
    ensures forall i, j | 0 <= i < j < |r| :: Compare(CL.CHALLENGE_CATEGORIES, r[i], r[j]) <= 0
  {
    var le := ByCompare(CL.CHALLENGE_CATEGORIES);
    var r := Sorting.Sort(AdminFiltered(f, list), le);
    Sorting.SortedAllPairs(r, le);
    r
  }

  // ---------------------------------------------------------------------
  // Hint and attachment list helpers
  // ---------------------------------------------------------------------

  /** `list.map((x, idx) => idx === i ? v : x)`. */
  function UpdateAt<T>(s: seq<T>, i: int, v: T): (r: seq<T>)
    ensures r == if 0 <= i < |s| then s[i := v] else s
    decreases |s|
  {
    if s == [] then []
    else [if i == 0 then v else s[0]] + UpdateAt(s[1..], i - 1, v)
  }

  /** `list.filter((_, idx) => idx !== i)`. */
  function RemoveAt<T>(s: seq<T>, i: int): (r: seq<T>)
    ensures r == if 0 <= i < |s| then s[..i] + s[i + 1..] else s
    decreases |s|
  {
    if s == [] then []
    else
      var rest := RemoveAt(s[1..], i - 1);
      assert 0 < i < |s| ==> s[1..][..i - 1] + s[1..][i..] == s[1..i] + s[i + 1..];
      (if i == 0 then [] else [s[0]]) + rest
  }

  /** Removing entry i keeps the earlier entries in place and moves each
      later one down by one. */
  lemma RemoveAtShifts<T>(s: seq<T>, i: int)
    ensures forall k | 0 <= k < i && k < |s| :: RemoveAt(s, i)[k] == s[k]
    ensures forall k | 0 <= i < k < |s| :: RemoveAt(s, i)[k - 1] == s[k]
  {
    var r := RemoveAt(s, i);
    if 0 <= i < |s| {
      assert r == s[..i] + s[i + 1..];
      forall k | 0 <= k < i ensures r[k] == s[k] {
        assert r[k] == s[..i][k];
      }
      forall k | i < k < |s| ensures r[k - 1] == s[k] {
        assert r[k - 1] == s[i + 1..][k - 1 - i];
      }
    }
  }

  /** Putting back the old entry undoes an update, and removing the entry
      just added undoes the addition. */
  lemma ListHelpersUndo<T>(s: seq<T>, i: int, v: T, x: T)
    ensures 0 <= i < |s| ==> UpdateAt(UpdateAt(s, i, v), i, s[i]) == s
    ensures RemoveAt(s + [x], |s|) == s
    ensures 0 <= i < |s| ==> |RemoveAt(s, i)| == |s| - 1
  {
    assert (s + [x])[..|s|] == s;
  }

  /** `addHint`: one empty hint at the end, and nothing else in the form. */
  function AddHint(f: CF.Form): (r: CF.Form)
    ensures |r.hint| == |f.hint| + 1 && r.hint[..|f.hint|] == f.hint && r.hint[|f.hint|] == ""
    ensures r.(hint := f.hint) == f
  {
    f.(hint := f.hint + [""])
  }

  /** `updateHint`: entry i becomes v, every other entry and the rest of the
      form stay; an index outside the list changes nothing. */
  function UpdateHint(f: CF.Form, i: int, v: string): (r: CF.Form)
    ensures |r.hint| == |f.hint|
    ensures 0 <= i < |f.hint| ==> r.hint[i] == v
    ensures forall k | 0 <= k < |f.hint| && k != i :: r.hint[k] == f.hint[k]
    ensures r.(hint := f.hint) == f
  {
    f.(hint := UpdateAt(f.hint, i, v))
  }

  /** `removeHint`: entry i goes and the later ones close the gap; an index
      outside the list changes nothing. */
  function RemoveHint(f: CF.Form, i: int): (r: CF.Form)
    ensures !(0 <= i < |f.hint|) ==> r == f
    ensures 0 <= i < |f.hint| ==> |r.hint| == |f.hint| - 1
    ensures forall k | 0 <= k < i && k < |f.hint| :: r.hint[k] == f.hint[k]
    ensures forall k | 0 <= i < k < |f.hint| :: r.hint[k - 1] == f.hint[k]
    ensures r.(hint := f.hint) == f
  {
    RemoveAtShifts(f.hint, i);
    f.(hint := RemoveAt(f.hint, i))
  }

  const NEW_ATTACHMENT: CF.FormAttachment := CF.FormAttachment("", "", "file")

  /** `addAttachment`: an empty file entry at the end, and nothing else. */
  function AddAttachment(f: CF.Form): (r: CF.Form)
    ensures |r.attachments| == |f.attachments| + 1 && r.attachments[..|f.attachments|] == f.attachments
    ensures r.attachments[|f.attachments|] == NEW_ATTACHMENT && NEW_ATTACHMENT.url == ""
    ensures r.(attachments := f.attachments) == f
  {
    f.(attachments := f.attachments + [NEW_ATTACHMENT])
  }

  datatype AttachmentField = NameField | UrlField | TypeField

  /** `{ ...a, [field]: v }`. */
  function SetField(a: CF.FormAttachment, field: AttachmentField, v: string): CF.FormAttachment {
    match field
    case NameField => a.(name := v)
    case UrlField => a.(url := v)
    case TypeField => a.(kind := v)
  }

  /** `updateAttachment`: one field of entry i becomes v; every other entry
      and the rest of the form stay. An index outside the list matches no
      entry and changes nothing. */
  function UpdateAttachment(f: CF.Form, i: int, field: AttachmentField, v: string): (r: CF.Form)
    ensures |r.attachments| == |f.attachments|
    ensures forall k | 0 <= k < |f.attachments| && k != i :: r.attachments[k] == f.attachments[k]
    ensures 0 <= i < |f.attachments| ==> r.attachments[i] == SetField(f.attachments[i], field, v)
    ensures r.(attachments := f.attachments) == f
  {
    if 0 <= i < |f.attachments| then
      f.(attachments := UpdateAt(f.attachments, i, SetField(f.attachments[i], field, v)))
    else f
  }

  /** `removeAttachment`: entry i goes and the later ones close the gap; an
      index outside the list changes nothing. */
  function RemoveAttachment(f: CF.Form, i: int): (r: CF.Form)
    ensures !(0 <= i < |f.attachments|) ==> r == f
    ensures 0 <= i < |f.attachments| ==> |r.attachments| == |f.attachments| - 1
    ensures forall k | 0 <= k < i && k < |f.attachments| :: r.attachments[k] == f.attachments[k]
    ensures forall k | 0 <= i < k < |f.attachments| :: r.attachments[k - 1] == f.attachments[k]
    ensures r.(attachments := f.attachments) == f
  {
    RemoveAtShifts(f.attachments, i);
    f.(attachments := RemoveAt(f.attachments, i))
  }

  /** An added hint or attachment left empty never reaches the payload; an
      added hint does turn a null hint into an empty list. */
  lemma EmptyAttachmentDropped(f: CF.Form)
    ensures SavedPayload(AddAttachment(f)).attachments == SavedPayload(f).attachments
  {
    FilterAppend(f.attachments, [NEW_ATTACHMENT], HasUrl);
    assert Filter([NEW_ATTACHMENT], HasUrl) == [];
  }

  lemma EmptyHintDropped(f: CF.Form)
    ensures f.hint != [] ==> SavedPayload(AddHint(f)).hint == SavedPayload(f).hint
    ensures f.hint == [] ==> SavedPayload(AddHint(f)).hint == Some([])
  {
    assert IsBlank("");
    assert Filter([""], FilledHint) == [];
    var g := AddHint(f);
    assert g.hint == f.hint + [""];
    FilterAppend(f.hint, [""], FilledHint);
    assert Filter(g.hint, FilledHint) == Filter(f.hint, FilledHint);
  }

  // ---------------------------------------------------------------------
  // Active switch and deletion
  // ---------------------------------------------------------------------

  /** `prev.map(c => c.id === id ? { ...c, is_active: checked } : c)`. */
  function SetActive(list: seq<Record>, id: string, checked: bool): (r: seq<Record>)
    ensures |r| == |list|
    ensures forall k | 0 <= k < |list| :: list[k].id != id ==> r[k] == list[k]
    ensures forall k | 0 <= k < |list| :: list[k].id == id ==>
      r[k].isActive == checked && r[k].(isActive := list[k].isActive) == list[k]
    decreases |list|
  {
    if list == [] then []
    else
      var c, rest := list[0], SetActive(list[1..], id, checked);
      var r := [if c.id == id then c.(isActive := checked) else c] + rest;
      assert forall k | 1 <= k < |list| :: r[k] == rest[k - 1] && list[k] == list[1..][k - 1];
      r
  }

  /** The switch: the list changes only when `setChallengeActive` reports
      success, and the toast says which way it went. */
  function OnToggleActive(list: seq<Record>, id: string, checked: bool, ok: bool): (r: (seq<Record>, Option<string>))
    ensures !ok ==> r == (list, None)
    ensures ok ==> r.0 == SetActive(list, id, checked)
    ensures ok ==> r.1 == Some(if checked then "Challenge activated" else "Challenge deactivated")
  {
    if ok then (SetActive(list, id, checked), Some(if checked then "Challenge activated" else "Challenge deactivated"))
    else (list, None)
  }

  /** Switching to the current value of every record with that id changes
      nothing. */
  lemma {:induction false} SetActiveSame(list: seq<Record>, id: string, checked: bool)
    requires forall c :: c in list && c.id == id ==> c.isActive == checked
    ensures SetActive(list, id, checked) == list
    decreases |list|
  {
    if list != [] {
      SetActiveSame(list[1..], id, checked);
    }
  }

  /** `challenges.find((c) => c.id === id)`. */
  function FindById(list: seq<Record>, id: string): (r: Option<Record>)
    ensures r.None? <==> forall c :: c in list ==> c.id != id
    ensures r.Some? ==> r.value in list && r.value.id == id
    decreases |list|
  {
    if list == [] then None
    else if list[0].id == id then Some(list[0])
    else FindById(list[1..], id)
  }

  /** The delete confirmation: the challenge asked about, its details, the
      typed text and whether the dialog is open. */
  datatype DeleteDialog = DeleteDialog(pending: Option<string>, detail: Option<Record>, input: string, open: bool)

  function AskDelete(list: seq<Record>, id: string): (r: DeleteDialog)
    ensures r.pending == Some(id) && r.open && r.input == ""
    ensures r.detail == FindById(list, id)
  {
    DeleteDialog(Some(id), FindById(list, id), "", true)
  }

  /** `!!pendingDeleteDetail && deleteConfirmInput !== pendingDeleteDetail.title`. */
  predicate DeleteDisabled(d: DeleteDialog)
    ensures DeleteDisabled(d) ==> d.detail.Some?
    ensures d.detail.Some? ==> (DeleteDisabled(d) <==> d.input != d.detail.value.title)
  {
    d.detail.Some? && d.input != d.detail.value.title
  }

  /** After asking to delete a listed challenge, confirming is enabled
      exactly when the typed text is its title; for an id not in the list
      it is enabled whatever is typed. */
  lemma DeleteNeedsTitle(list: seq<Record>, id: string, typed: string)
    ensures var d := AskDelete(list, id).(input := typed);
      (exists c :: c in list && c.id == id) ==>
        (!DeleteDisabled(d) <==> typed == FindById(list, id).value.title)
    ensures (forall c :: c in list ==> c.id != id) ==> !DeleteDisabled(AskDelete(list, id).(input := typed))
  {
  }

  /** The admin page's solver list: the first page replaces it and a later
      page is appended. */
  function SolversAfterFetch<S>(prev: seq<S>, offset: int, data: seq<S>): (r: seq<S>)
    ensures offset == 0 ==> r == data
    ensures offset != 0 ==> prev <= r && r[|prev|..] == data
  {
    if offset == 0 then data else prev + data
  }
}
