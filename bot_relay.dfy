/** The first-blood relay bot (discord-bot/bot.py), part two: the table
    message, the rolling "latest" announcements and one polling cycle. */
module BotRelay {
  import opened Base
  import opened Strings
  import opened Sequences
  import opened BotFeed
  import opened Elapsed

  /** The wall clock and `strftime` as seen by the bot; instants in microseconds. */
  datatype Clock = Clock(now: int, hourMinute: int -> string, dateTime: int -> string)

  /** Python's `int(diff.total_seconds())`: whole seconds of a span in
      microseconds, truncated toward zero. */
  function WholeSeconds(micros: int): (q: int)
    ensures micros >= 0 ==> q == micros / 1000000
    ensures micros < 0 ==> q == -((-micros) / 1000000)
    ensures -1000000 < micros < 1000000 ==> q == 0
  {
    if micros >= 0 then micros / 1000000 else -((-micros) / 1000000)
  }

  /** The separators are kept as the file stores them: UTF-8 bytes of a
      bullet, an arrow and a drop of blood read back as Windows-1252 text. */
  const BULLET: string := " \U{00E2}\U{20AC}\U{00A2} "

  /** `format_relative_date`: unparsable text comes back unchanged; otherwise
      the whole seconds elapsed, truncated toward zero, choose the bucket. */
  function RelativeDate(env: Env, clock: Clock, iso: string): (r: string)
    ensures env.parseIso(iso).None? ==> r == iso
    ensures env.parseIso(iso).Some? ==>
      var at := env.parseIso(iso).value;
      match Classify(WholeSeconds(clock.now - at))
      case Within(n, Day) => r == Phrase(n, Day) + BULLET + clock.hourMinute(at)
      case Within(n, u) => r == Phrase(n, u)
      case Older => r == clock.dateTime(at)
  {
    match env.parseIso(iso)
    case None => iso
    case Some(at) =>
      match Classify(WholeSeconds(clock.now - at))
      case Within(n, Day) => Phrase(n, Day) + BULLET + clock.hourMinute(at)
      case Within(n, u) => Phrase(n, u)
      case Older => clock.dateTime(at)
  }

  /** A time less than a second ahead of the clock still reads "0 seconds ago";
      further ahead it reads as a negative number of seconds. */
  lemma FutureReadsAsSeconds(env: Env, clock: Clock, iso: string)
    requires env.parseIso(iso).Some? && env.parseIso(iso).value > clock.now
    ensures RelativeDate(env, clock, iso) == Phrase(WholeSeconds(clock.now - env.parseIso(iso).value), Second)
    ensures env.parseIso(iso).value < clock.now + 1000000 ==> RelativeDate(env, clock, iso) == "0 seconds ago"
  {
  }

  const ARROW: string := " \U{00E2}\U{2020}\U{2019} "
  const TABLE_ROWS: nat := 10

  function TableLine(env: Env, clock: Clock, s: Solve): string {
    s.user + ARROW + s.challenge + " (" + s.category + ") \n| " + RelativeDate(env, clock, s.time)
  }

  /** The lines of the table embed. */
  function TableLines(env: Env, clock: Clock, ledger: seq<Solve>): seq<string> {
    var rows := Last(ledger, TABLE_ROWS);
    seq(|rows|, i requires 0 <= i < |rows| => TableLine(env, clock, rows[i]))
  }

  /** The table shows the latest ten ledger solves, oldest first. */
  lemma TableLinesShape(env: Env, clock: Clock, ledger: seq<Solve>)
    ensures |TableLines(env, clock, ledger)| == if |ledger| < TABLE_ROWS then |ledger| else TABLE_ROWS
    ensures forall i :: 0 <= i < |TableLines(env, clock, ledger)| ==>
      TableLines(env, clock, ledger)[i] == TableLine(env, clock, ledger[|ledger| - |TableLines(env, clock, ledger)| + i])
  {
  }

  /** The table's text: the lines joined with line breaks, nothing for an
      empty ledger. */
  function TableText(env: Env, clock: Clock, ledger: seq<Solve>): (r: string)
    ensures ledger == [] ==> r == ""
  {
    Join(TableLines(env, clock, ledger), "\n")
  }

  /** A non-empty table opens with the oldest of the last ten solves and
      closes with the latest one. */
  lemma TableTextEnds(env: Env, clock: Clock, ledger: seq<Solve>)
    requires ledger != []
    ensures var r, first := TableText(env, clock, ledger),
      TableLine(env, clock, ledger[if |ledger| < TABLE_ROWS then 0 else |ledger| - TABLE_ROWS]);
      |first| <= |r| && r[..|first|] == first
    ensures var r, latest := TableText(env, clock, ledger), TableLine(env, clock, ledger[|ledger| - 1]);
      |latest| <= |r| && r[|r| - |latest|..] == latest
  {
    TableLinesShape(env, clock, ledger);
    JoinEnds(TableLines(env, clock, ledger), "\n");
  }

  /** The role mention appended to announcements: empty unless a role id
      other than "0" is configured. */
  function MentionText(roleId: string, resolve: string -> string): (r: string)
    ensures roleId == "" || roleId == "0" ==> r == ""
    ensures roleId != "" && roleId != "0" ==> r == resolve(roleId)
  {
    if roleId != "" && roleId != "0" then resolve(roleId) else ""
  }

  const DROP: string := "\U{00F0}\U{0178}\U{00A9}\U{00B8} **"

  /** The announcement text. It ends with the solve's marker between spoiler
      bars, which is how later cycles recognise it. */
  function Announcement(env: Env, clock: Clock, mention: string, s: Solve): string {
    AnnouncementHead(env, clock, mention, s) + Marker(env, s) + "||"
  }

  function AnnouncementHead(env: Env, clock: Clock, mention: string, s: Solve): string {
    DROP + s.user + "**" + " claimed first blood on **" + s.challenge + "** (" + s.category
      + ") at " + RelativeDate(env, clock, s.time) + " " + mention + " ||"
  }

  /** The announcement names the solver first and carries the marker. */
  lemma AnnouncementShape(env: Env, clock: Clock, mention: string, s: Solve)
    ensures Contains(Announcement(env, clock, mention, s), Marker(env, s))
    ensures StartsWith(Announcement(env, clock, mention, s), DROP + s.user + "**")
  {
    var r := Announcement(env, clock, mention, s);
    var head := AnnouncementHead(env, clock, mention, s);
    var lead := DROP + s.user + "**";
    assert OccursAt(r, Marker(env, s), |head|);
    assert r == lead + (r[|lead|..]);
  }

  /** The ids `from`, `from + 1`, ..., `to - 1`. */
  function Range(from: nat, to: nat): (r: seq<nat>)
    requires from <= to
    ensures |r| == to - from
    ensures forall i :: 0 <= i < |r| ==> r[i] == from + i
  {
    seq(to - from, i requires 0 <= i < to - from => from + i)
  }

  lemma RangeAppend(from: nat, mid: nat, to: nat)
    requires from <= mid <= to
    ensures Range(from, mid) + Range(mid, to) == Range(from, to)
  {
    assert forall i :: 0 <= i < to - from ==> (Range(from, mid) + Range(mid, to))[i] == from + i;
  }

  lemma RangeExtends(ids: seq<nat>, from: nat, mid: nat, to: nat)
    requires from <= mid <= to
    ensures ids + Range(from, mid) + Range(mid, to) == ids + Range(from, to)
  {
    RangeAppend(from, mid, to);
    assert ids + Range(from, mid) + Range(mid, to) == ids + (Range(from, mid) + Range(mid, to));
  }

  /** What one pass of `poll_loop` decides before touching Discord. */
  function Poll(env: Env, stored: seq<Solve>, response: Option<seq<Notification>>): Option<Reconciled> {
    Reconcile(env, stored, Fetch(env, response))
  }

  /** Whether the next Discord API call succeeds, by a script of outcomes
      read one per call; once the script is used up every call succeeds. */
  predicate Up(script: seq<bool>) {
    script == [] || script[0]
  }

  /** The outcomes left after one call. */
  function Next(script: seq<bool>): seq<bool> {
    if script == [] then [] else script[1..]
  }

  /** No call the script describes fails. */
  predicate AllUp(script: seq<bool>) {
    forall i | 0 <= i < |script| :: script[i]
  }

  /** A script without failures lets the next call succeed and stays
      without failures. */
  lemma AllUpNext(script: seq<bool>)
    requires AllUp(script)
    ensures Up(script) && AllUp(Next(script))
  {
    if script != [] {
      assert script[0];
      forall i | 0 <= i < |script| - 1 ensures Next(script)[i] {
        assert Next(script)[i] == script[i + 1];
      }
    }
  }

  /** The Discord channel: its messages by id, the id the next message gets,
      and the outcomes of the API calls still to come. Each call can fail on
      its own, so a fetch can fail and a later send succeed. */
  class Channel {
    var messages: map<nat, string>
    var nextId: nat
    var script: seq<bool>

    ghost predicate Valid()
      reads this
    {
      forall id :: id in messages ==> id < nextId
    }

    constructor (messages: map<nat, string>, nextId: nat, script: seq<bool>)
      requires forall id :: id in messages ==> id < nextId
      ensures Valid()
      ensures this.messages == messages && this.nextId == nextId && this.script == script
    {
      this.messages := messages;
      this.nextId := nextId;
      this.script := script;
    }

    /** `channel.send`: a new message with the next id, or None when the call fails. */
    method Send(content: string) returns (id: Option<nat>)
      requires Valid()
      modifies this
      ensures Valid()
      ensures script == Next(old(script))
      ensures !Up(old(script)) ==> id.None? && messages == old(messages) && nextId == old(nextId)
      ensures Up(old(script)) ==>
        id == Some(old(nextId)) && nextId == old(nextId) + 1 &&
        messages == old(messages)[old(nextId) := content]
    {
      if !Up(script) {
        id := None;
      } else {
        id := Some(nextId);
        messages := messages[nextId := content];
        nextId := nextId + 1;
      }
      script := Next(script);
    }

    /** `channel.fetch_message`: fails when the call fails or the message is gone. */
    method Fetch(id: nat) returns (content: Option<string>)
      modifies this`script
      ensures content == if Up(old(script)) && id in messages then Some(messages[id]) else None
      ensures script == Next(old(script))
    {
      content := if Up(script) && id in messages then Some(messages[id]) else None;
      script := Next(script);
    }

    /** `message.edit` on a fetched message. */
    method Edit(id: nat, content: string) returns (ok: bool)
      requires Valid()
      modifies this`messages, this`script
      ensures Valid()
      ensures ok == (Up(old(script)) && id in old(messages))
      ensures messages == if ok then old(messages)[id := content] else old(messages)
      ensures script == Next(old(script))
    {
      ok := Up(script) && id in messages;
      script := Next(script);
      if ok { messages := messages[id := content]; }
    }

    /** `message.delete` on a fetched message. */
    method Delete(id: nat) returns (ok: bool)
      requires Valid()
      modifies this`messages, this`script
      ensures Valid()
      ensures ok == (Up(old(script)) && id in old(messages))
      ensures messages == if ok then old(messages) - {id} else old(messages)
      ensures script == Next(old(script))
    {
      ok := Up(script) && id in messages;
      script := Next(script);
      if ok { messages := messages - {id}; }
    }
  }

  const MAX_LATEST: nat := 3

  /** Some message of the channel contains the marker. */
  ghost predicate Announced(messages: map<nat, string>, marker: string) {
    exists id :: id in messages && Contains(messages[id], marker)
  }

  /** One announcement step either leaves the channel alone or adds the
      announcement of `s` under the fresh id `newId`. */
  ghost predicate StepAdds(m: map<nat, string>, m': map<nat, string>, start: nat, added: bool, newId: nat, text: string) {
    if added then newId >= start && newId !in m && m' == m[newId := text] else m' == m
  }

  /** `m` keeps every message of `before` and adds only ids from `start` on. */
  ghost predicate Extends(before: map<nat, string>, m: map<nat, string>, start: nat) {
    (forall i :: i in before ==> i in m && m[i] == before[i]) &&
    (forall i :: i in m ==> i in before || i >= start)
  }

  lemma StepExtends(before: map<nat, string>, m: map<nat, string>, m': map<nat, string>,
                    start: nat, added: bool, newId: nat, text: string)
    requires Extends(before, m, start)
    requires StepAdds(m, m', start, added, newId, text)
    ensures Extends(before, m', start) && Extends(m, m', start)
  {
  }

  lemma StepAnnouncesOnly(m: map<nat, string>, m': map<nat, string>, start: nat, added: bool, newId: nat,
                          render: Solve -> string, done: seq<Solve>, s: Solve)
    requires StepAdds(m, m', start, added, newId, render(s))
    requires AnnouncesOnly(m, start, render, done)
    ensures AnnouncesOnly(m', start, render, done + [s])
  {
    forall i | i in m' && i >= start
      ensures exists x :: x in done + [s] && m'[i] == render(x)
    {
      if added && i == newId {
        assert s in done + [s];
      } else {
        var x :| x in done && m[i] == render(x);
        assert x in done + [s];
      }
    }
  }

  /** Every solve of `done` has its marker in some message. */
  ghost predicate AllAnnounced(m: map<nat, string>, mark: Solve -> string, done: seq<Solve>) {
    forall x :: x in done ==> Announced(m, mark(x))
  }

  lemma StepAnnouncedKept(m: map<nat, string>, m': map<nat, string>, start: nat, mark: Solve -> string, done: seq<Solve>)
    requires AllAnnounced(m, mark, done)
    requires Extends(m, m', start)
    ensures AllAnnounced(m', mark, done)
  {
    forall x | x in done ensures Announced(m', mark(x)) {
      AnnouncedKept(m, m', mark(x));
    }
  }

  lemma AllAnnouncedAppend(m: map<nat, string>, mark: Solve -> string, done: seq<Solve>, s: Solve)
    requires AllAnnounced(m, mark, done)
    requires Announced(m, mark(s))
    ensures AllAnnounced(m, mark, done + [s])
  {
  }

  lemma AnnouncedKept(m: map<nat, string>, m': map<nat, string>, marker: string)
    requires Announced(m, marker)
    requires forall id :: id in m ==> id in m' && m'[id] == m[id]
    ensures Announced(m', marker)
  {
    var id :| id in m && Contains(m[id], marker);
    assert id in m' && Contains(m'[id], marker);
  }

  lemma AnnouncesOnlyWiden(m: map<nat, string>, start: nat, render: Solve -> string,
                           solves: seq<Solve>, more: seq<Solve>)
    requires AnnouncesOnly(m, start, render, solves)
    requires forall x :: x in solves ==> x in more
    ensures AnnouncesOnly(m, start, render, more)
  {
    forall i | i in m && i >= start
      ensures exists x :: x in more && m[i] == render(x)
    {
      var x :| x in solves && m[i] == render(x);
      assert x in more;
    }
  }

  /** Every message from id `start` on is what `render` makes of one of `solves`. */
  ghost predicate AnnouncesOnly(messages: map<nat, string>, start: nat, render: Solve -> string, solves: seq<Solve>) {
    forall id :: id in messages && id >= start ==>
      exists s :: s in solves && messages[id] == render(s)
  }

  /** The announcement of each solve, as a function. */
  function Render(env: Env, clock: Clock, mention: string): Solve -> string {
    (s: Solve) => Announcement(env, clock, mention, s)
  }

  /** The marker of each solve, as a function. */
  function MarkerOf(env: Env): Solve -> string {
    (s: Solve) => Marker(env, s)
  }

  /** Some tracked message, still in the channel, contains the marker. */
  ghost predicate ShownIn(messages: map<nat, string>, tracked: seq<nat>, marker: string) {
    exists j | 0 <= j < |tracked| :: tracked[j] in messages && Contains(messages[tracked[j]], marker)
  }

  /** The duplicate check of `post_latest`: fetch the tracked messages in
      order until one contains the marker, passing over a fetch that fails.
      Gives whether the marker was found and the call outcomes left. */
  function Search(script: seq<bool>, messages: map<nat, string>, tracked: seq<nat>, marker: string): (bool, seq<bool>)
    decreases |tracked|
  {
    if tracked == [] then (false, script)
    else if Up(script) && tracked[0] in messages && Contains(messages[tracked[0]], marker) then (true, Next(script))
    else Search(Next(script), messages, tracked[1..], marker)
  }

  /** The check only finds a marker that a tracked message shows. */
  lemma {:induction false} SearchFindsOnlyShown(script: seq<bool>, messages: map<nat, string>, tracked: seq<nat>, marker: string)
    ensures Search(script, messages, tracked, marker).0 ==> ShownIn(messages, tracked, marker)
    decreases |tracked|
  {
    if tracked != [] && !(Up(script) && tracked[0] in messages && Contains(messages[tracked[0]], marker)) {
      SearchFindsOnlyShown(Next(script), messages, tracked[1..], marker);
      if Search(script, messages, tracked, marker).0 {
        var j :| 0 <= j < |tracked| - 1 && tracked[1..][j] in messages && Contains(messages[tracked[1..][j]], marker);
        assert tracked[j + 1] == tracked[1..][j];
      }
    }
  }

  /** When no fetch fails, the check finds every marker a tracked message shows. */
  lemma {:induction false} SearchFindsShown(script: seq<bool>, messages: map<nat, string>, tracked: seq<nat>, marker: string)
    requires AllUp(script)
    requires ShownIn(messages, tracked, marker)
    ensures Search(script, messages, tracked, marker).0
    decreases |tracked|
  {
    if !(tracked[0] in messages && Contains(messages[tracked[0]], marker)) {
      var j :| 0 <= j < |tracked| && tracked[j] in messages && Contains(messages[tracked[j]], marker);
      assert tracked[1..][j - 1] == tracked[j];
      SearchFindsShown(Next(script), messages, tracked[1..], marker);
    }
  }

  /** The check leaves a script of successes a script of successes. */
  lemma {:induction false} SearchKeepsUp(script: seq<bool>, messages: map<nat, string>, tracked: seq<nat>, marker: string)
    requires AllUp(script)
    ensures AllUp(Search(script, messages, tracked, marker).1)
    decreases |tracked|
  {
    if tracked != [] {
      SearchKeepsUp(Next(script), messages, tracked[1..], marker);
    }
  }

  /** A fetch that fails hides a message that shows the marker, so the
      check misses it and the solve is sent again. */
  lemma FailedFetchMissesMarker(messages: map<nat, string>, id: nat, marker: string)
    requires id in messages && Contains(messages[id], marker)
    ensures ShownIn(messages, [id], marker)
    ensures !Search([false], messages, [id], marker).0
  {
    assert [id][0] == id;
  }

  /** Tracked messages that survive, under tracked ids that stay tracked,
      keep what they show. */
  lemma ShownInKept(before: map<nat, string>, m: map<nat, string>, tracked: seq<nat>, more: seq<nat>, marker: string)
    requires ShownIn(before, tracked, marker)
    requires forall i :: i in before ==> i in m && m[i] == before[i]
    ensures ShownIn(m, tracked + more, marker)
  {
    var j :| 0 <= j < |tracked| && tracked[j] in before && Contains(before[tracked[j]], marker);
    assert (tracked + more)[j] == tracked[j];
  }

  /** Every message from id `start` on is the announcement of one of
      `solves` that no message of `tracked` showed in `before`. */
  ghost predicate AnnouncesFresh(messages: map<nat, string>, start: nat, render: Solve -> string, mark: Solve -> string,
                                 solves: seq<Solve>, before: map<nat, string>, tracked: seq<nat>) {
    forall id :: id in messages && id >= start ==>
      exists s :: s in solves && messages[id] == render(s) && !ShownIn(before, tracked, mark(s))
  }

  lemma StepFresh(m: map<nat, string>, m': map<nat, string>, start: nat, added: bool, newId: nat,
                  render: Solve -> string, mark: Solve -> string, done: seq<Solve>, s: Solve,
                  before: map<nat, string>, tracked: seq<nat>)
    requires StepAdds(m, m', start, added, newId, render(s))
    requires AnnouncesFresh(m, start, render, mark, done, before, tracked)
    requires added ==> !ShownIn(before, tracked, mark(s))
    ensures AnnouncesFresh(m', start, render, mark, done + [s], before, tracked)
  {
    forall i | i in m' && i >= start
      ensures exists x :: x in done + [s] && m'[i] == render(x) && !ShownIn(before, tracked, mark(x))
    {
      if added && i == newId {
        assert s in done + [s];
      } else {
        var x :| x in done && m[i] == render(x) && !ShownIn(before, tracked, mark(x));
        assert x in done + [s];
      }
    }
  }

  /** One announcement step keeps `AnnouncesFresh` when the step sends
      nothing for a solve that a tracked message shows. */
  lemma FreshStep(before: map<nat, string>, m: map<nat, string>, m': map<nat, string>, start: nat, added: bool,
                  newId: nat, render: Solve -> string, mark: Solve -> string, done: seq<Solve>, s: Solve,
                  tracked: seq<nat>, more: seq<nat>)
    requires Extends(before, m, start)
    requires StepAdds(m, m', start, added, newId, render(s))
    requires AnnouncesFresh(m, start, render, mark, done, before, tracked)
    requires ShownIn(m, tracked + more, mark(s)) ==> !added
    ensures AnnouncesFresh(m', start, render, mark, done + [s], before, tracked)
  {
    if ShownIn(before, tracked, mark(s)) {
      ShownInKept(before, m, tracked, more, mark(s));
    }
    StepFresh(m, m', start, added, newId, render, mark, done, s, before, tracked);
  }

  /** Tracked messages that `b1` keeps as `b2` had them show what they
      showed in `b2`. */
  lemma ShownInRebase(b1: map<nat, string>, b2: map<nat, string>, tracked: seq<nat>, marker: string)
    requires forall id :: id in tracked && id in b2 ==> id in b1 && b1[id] == b2[id]
    ensures ShownIn(b2, tracked, marker) ==> ShownIn(b1, tracked, marker)
  {
    if ShownIn(b2, tracked, marker) {
      var j :| 0 <= j < |tracked| && tracked[j] in b2 && Contains(b2[tracked[j]], marker);
      assert tracked[j] in tracked;
    }
  }

  lemma FreshRebase(m: map<nat, string>, start: nat, render: Solve -> string, mark: Solve -> string,
                    solves: seq<Solve>, b1: map<nat, string>, b2: map<nat, string>, tracked: seq<nat>)
    requires AnnouncesFresh(m, start, render, mark, solves, b1, tracked)
    requires forall id :: id in tracked && id in b2 ==> id in b1 && b1[id] == b2[id]
    ensures AnnouncesFresh(m, start, render, mark, solves, b2, tracked)
  {
    forall i | i in m && i >= start
      ensures exists x :: x in solves && m[i] == render(x) && !ShownIn(b2, tracked, mark(x))
    {
      var x :| x in solves && m[i] == render(x) && !ShownIn(b1, tracked, mark(x));
      ShownInRebase(b1, b2, tracked, mark(x));
    }
  }

  lemma FreshWiden(m: map<nat, string>, start: nat, render: Solve -> string, mark: Solve -> string,
                   solves: seq<Solve>, more: seq<Solve>, before: map<nat, string>, tracked: seq<nat>)
    requires AnnouncesFresh(m, start, render, mark, solves, before, tracked)
    requires forall x :: x in solves ==> x in more
    ensures AnnouncesFresh(m, start, render, mark, more, before, tracked)
  {
    forall i | i in m && i >= start
      ensures exists x :: x in more && m[i] == render(x) && !ShownIn(before, tracked, mark(x))
    {
      var x :| x in solves && m[i] == render(x) && !ShownIn(before, tracked, mark(x));
      assert x in more;
    }
  }

  /** The tracked ids left after `post_latest` pops from the front while
      three or more remain. */
  function Evicted(ids: seq<nat>): (r: seq<nat>)
    ensures |r| <= 2 || r == ids
    ensures |ids| >= MAX_LATEST ==> r == ids[|ids| - 2..]
    ensures |ids| < MAX_LATEST ==> r == ids
  {
    if |ids| >= MAX_LATEST then ids[|ids| - 2..] else ids
  }

  /** The tracked ids that eviction pops, oldest first. */
  function Dropped(ids: seq<nat>): seq<nat> {
    ids[..|ids| - |Evicted(ids)|]
  }

  /** With distinct tracked ids, no id that stays tracked is also popped. */
  lemma KeptNotDropped(ids: seq<nat>)
    requires NoDups(ids)
    ensures ids == Dropped(ids) + Evicted(ids)
    ensures forall id :: id in Evicted(ids) ==> id !in Dropped(ids)
  {
    var k := |ids| - |Evicted(ids)|;
    assert Evicted(ids) == ids[k..] && Dropped(ids) == ids[..k];
    assert ids == ids[..k] + ids[k..];
    ApartAt(ids, k);
  }

  lemma ApartAt(ids: seq<nat>, k: nat)
    requires NoDups(ids) && k <= |ids|
    ensures forall id :: id in ids[k..] ==> id !in ids[..k]
  {
    forall id | id in ids[k..] ensures id !in ids[..k] {
      var i :| k <= i < |ids| && ids[i] == id;
      forall j | 0 <= j < k ensures ids[j] != id {
        assert j < i;
      }
    }
  }

  /** The bot's persistent state: the ledger file, the state dictionary in
      memory, and the state file as last saved. */
  class Relay {
    var ledger: seq<Solve>
    var tableId: Option<nat>
    var latestIds: seq<nat>
    var savedTableId: Option<nat>
    var savedLatestIds: seq<nat>

    /** The tracked messages were all sent before the channel's next id,
        and the table message is not one of the announcements. */
    ghost predicate Tracks(ch: Channel)
      reads this`tableId, this`latestIds, ch`nextId
    {
      (tableId.Some? ==> tableId.value < ch.nextId && tableId.value !in latestIds) &&
      (forall id :: id in latestIds ==> id < ch.nextId)
    }

    /** `load_state` and `load_solves` on a first start: no files yet. */
    constructor ()
      ensures ledger == [] && tableId.None? && latestIds == []
      ensures savedTableId.None? && savedLatestIds == []
    {
      ledger := [];
      tableId := None;
      latestIds := [];
      savedTableId := None;
      savedLatestIds := [];
    }

    /** `update_table`: edit the tracked table message, or send a new one
        and track it when there is none or the edit fails. `ok` is false when
        the fallback send fails too, which raises out of the cycle. */
    method UpdateTable(ch: Channel, text: string) returns (ok: bool)
      requires ch.Valid()
      modifies this`tableId, ch
      ensures ch.Valid()
      ensures ok ==> tableId.Some? && tableId.value in ch.messages && ch.messages[tableId.value] == text
      ensures ok ==> tableId == old(tableId) || tableId == Some(old(ch.nextId)) || tableId == Some(old(ch.nextId) + 1)
      ensures !ok ==> tableId == old(tableId)
      ensures old(ch.nextId) <= ch.nextId
      ensures tableId != old(tableId) ==> tableId.Some? && old(ch.nextId) <= tableId.value < ch.nextId
      ensures forall id :: id in old(ch.messages) && (tableId.None? || id != tableId.value) ==>
        id in ch.messages && ch.messages[id] == old(ch.messages)[id]
      ensures forall id :: id in ch.messages ==>
        (id in old(ch.messages) || (tableId.Some? && id == tableId.value) || (id >= old(ch.nextId) && ch.messages[id] == text))
      // with no failing call the tracked table message is edited in place, and only a missing one is replaced
      ensures AllUp(old(ch.script)) ==> ok && AllUp(ch.script)
      ensures AllUp(old(ch.script)) && old(tableId).Some? && old(tableId).value in old(ch.messages) ==>
        tableId == old(tableId) && ch.nextId == old(ch.nextId)
    {
      var failed := true;
      if tableId.Some? {
        var found := ch.Fetch(tableId.value);
        if found.Some? {
          var edited := ch.Edit(tableId.value, text);
          failed := !edited;
        }
      } else {
        var sent := ch.Send(text);
        if sent.Some? {
          tableId := sent;
          failed := false;
        }
      }
      ok := true;
      if failed {
        var sent := ch.Send(text);
        if sent.Some? {
          tableId := sent;
        } else {
          ok := false;
        }
      }
    }

    /** The eviction loop of `post_latest`: pop the oldest tracked id and
        try to delete its message while three or more ids are tracked. */
    method EvictOldest(ch: Channel)
      requires ch.Valid()
      modifies this`latestIds, ch
      ensures ch.Valid() && ch.nextId == old(ch.nextId)
      ensures latestIds == Evicted(old(latestIds))
      ensures forall id :: id in old(ch.messages) && id !in Dropped(old(latestIds)) ==>
        id in ch.messages && ch.messages[id] == old(ch.messages)[id]
      ensures forall id :: id in old(ch.messages) && id !in old(latestIds) ==>
        id in ch.messages && ch.messages[id] == old(ch.messages)[id]
      ensures forall id :: id in ch.messages ==> id in old(ch.messages) && ch.messages[id] == old(ch.messages)[id]
      ensures AllUp(old(ch.script)) ==> AllUp(ch.script)
      ensures AllUp(old(ch.script)) ==> forall id :: id in Dropped(old(latestIds)) ==> id !in ch.messages
    {
      ghost var tracked := latestIds;
      ghost var gone: seq<nat> := [];
      while |latestIds| >= MAX_LATEST
        invariant ch.Valid() && ch.nextId == old(ch.nextId)
        invariant |latestIds| <= |tracked| && latestIds == tracked[|tracked| - |latestIds|..]
        invariant gone == tracked[..|tracked| - |latestIds|]
        invariant |tracked| >= MAX_LATEST ==> |latestIds| >= 2
        invariant |tracked| < MAX_LATEST ==> latestIds == tracked
        invariant forall id :: id in old(ch.messages) && id !in gone ==>
          id in ch.messages && ch.messages[id] == old(ch.messages)[id]
        invariant forall id :: id in ch.messages ==> id in old(ch.messages) && ch.messages[id] == old(ch.messages)[id]
        invariant AllUp(old(ch.script)) ==> AllUp(ch.script)
        invariant AllUp(old(ch.script)) ==> forall id :: id in gone ==> id !in ch.messages
        decreases |latestIds|
      {
        ghost var p := |tracked| - |latestIds|;
        var oldId := latestIds[0];
        assert oldId == tracked[p];
        assert tracked[..p + 1] == tracked[..p] + [oldId];
        latestIds := latestIds[1..];
        if AllUp(old(ch.script)) {
          AllUpNext(ch.script);
        }
        var found := ch.Fetch(oldId);
        if found.Some? {
          if AllUp(old(ch.script)) {
            AllUpNext(ch.script);
          }
          var _ := ch.Delete(oldId);
        }
        gone := gone + [oldId];
      }
      assert gone == Dropped(tracked);
    }

    /** The body of `post_latest`'s loop for one solve: look for its
        marker in the tracked messages and send `text` when the check does
        not find it. A fetch that fails is passed over, so with failing
        calls a solve already shown can be sent again. */
    method AnnounceUnlessPosted(ch: Channel, text: string, marker: string)
      returns (ok: bool)
      requires ch.Valid()
      requires Contains(text, marker)
      modifies this`latestIds, ch
      ensures ch.Valid()
      ensures var (found, rest) := Search(old(ch.script), old(ch.messages), old(latestIds), marker);
        if found then
          ok && ch.messages == old(ch.messages) && ch.nextId == old(ch.nextId) &&
          latestIds == old(latestIds) && ch.script == rest
        else
          ok == Up(rest) && ch.script == Next(rest) &&
          ch.nextId == (if ok then old(ch.nextId) + 1 else old(ch.nextId)) &&
          ch.messages == (if ok then old(ch.messages)[old(ch.nextId) := text] else old(ch.messages)) &&
          latestIds == old(latestIds) + (if ok then [old(ch.nextId)] else [])
      ensures ch.nextId == old(ch.nextId) || (ok && ch.nextId == old(ch.nextId) + 1)
      ensures latestIds == old(latestIds) + Range(old(ch.nextId), ch.nextId)
      ensures ch.messages == if ch.nextId == old(ch.nextId) then old(ch.messages)
        else old(ch.messages)[old(ch.nextId) := text]
      ensures ok ==> Announced(ch.messages, marker)
      // the skip: with no failing call, a solve a tracked message shows is not sent again
      ensures AllUp(old(ch.script)) && ShownIn(old(ch.messages), old(latestIds), marker) ==>
        ch.nextId == old(ch.nextId) && ch.messages == old(ch.messages) && latestIds == old(latestIds)
      // the converse: a solve no tracked message shows is sent and tracked once the send succeeds
      ensures !ShownIn(old(ch.messages), old(latestIds), marker) && ok ==>
        ch.nextId == old(ch.nextId) + 1 && ch.messages == old(ch.messages)[old(ch.nextId) := text] &&
        latestIds == old(latestIds) + [old(ch.nextId)]
      ensures AllUp(old(ch.script)) ==> ok && AllUp(ch.script)
    {
      ghost var s0, m0, ids0 := ch.script, ch.messages, latestIds;
      var posted := false;
      var j := 0;
      while j < |latestIds| && !posted
        invariant 0 <= j <= |latestIds|
        invariant ch.messages == old(ch.messages) && ch.nextId == old(ch.nextId)
        invariant latestIds == old(latestIds)
        invariant posted ==> Announced(ch.messages, marker)
        invariant !posted ==> Search(ch.script, m0, ids0[j..], marker) == Search(s0, m0, ids0, marker)
        invariant posted ==> Search(s0, m0, ids0, marker) == (true, ch.script)
        decreases |latestIds| - j
      {
        assert ids0[j..][1..] == ids0[j + 1..];
        var content := ch.Fetch(latestIds[j]);
        if content.Some? && Contains(content.value, marker) {
          posted := true;
        }
        j := j + 1;
      }
      ghost var rest := ch.script;
      ok := true;
      if !posted {
        var sent := ch.Send(text);
        if sent.None? {
          ok := false;
        } else {
          latestIds := latestIds + [sent.value];
          assert ch.messages[sent.value] == text;
        }
      }
      assert ch.nextId == old(ch.nextId) ==> Range(old(ch.nextId), ch.nextId) == [];
      SearchFindsOnlyShown(s0, m0, ids0, marker);
      if AllUp(s0) {
        SearchKeepsUp(s0, m0, ids0, marker);
        if ShownIn(m0, ids0, marker) {
          SearchFindsShown(s0, m0, ids0, marker);
        }
      }
    }

    /** The announcing loop of `post_latest`, stopping at the first failed
        send: `render` gives the announcement of a solve and `mark` the
        marker it carries. */
    method AnnounceAll(ch: Channel, render: Solve -> string, mark: Solve -> string, latest: seq<Solve>)
      returns (ok: bool)
      requires ch.Valid()
      requires forall s :: Contains(render(s), mark(s))
      modifies this`latestIds, ch
      ensures ch.Valid()
      ensures old(ch.nextId) <= ch.nextId <= old(ch.nextId) + |latest|
      ensures !ok ==> ch.nextId < old(ch.nextId) + |latest|
      ensures latestIds == old(latestIds) + Range(old(ch.nextId), ch.nextId)
      ensures ok ==> AllAnnounced(ch.messages, mark, latest)
      ensures AnnouncesOnly(ch.messages, old(ch.nextId), render, latest)
      ensures Extends(old(ch.messages), ch.messages, old(ch.nextId))
      // with no failing call, only solves no tracked message showed are announced
      ensures AllUp(old(ch.script)) ==> ok && AllUp(ch.script)
      ensures AllUp(old(ch.script)) ==>
        AnnouncesFresh(ch.messages, old(ch.nextId), render, mark, latest, old(ch.messages), old(latestIds))
    {
      ghost var before := ch.messages;
      ghost var start := ch.nextId;
      ghost var up := AllUp(ch.script);
      var k := 0;
      ok := true;
      while k < |latest|
        invariant 0 <= k <= |latest|
        invariant ch.Valid() && start <= ch.nextId <= start + k
        invariant latestIds == old(latestIds) + Range(start, ch.nextId)
        invariant Extends(before, ch.messages, start)
        invariant AnnouncesOnly(ch.messages, start, render, latest[..k])
        invariant AllAnnounced(ch.messages, mark, latest[..k])
        invariant up ==> AllUp(ch.script)
        invariant up ==> AnnouncesFresh(ch.messages, start, render, mark, latest[..k], before, old(latestIds))
      {
        ghost var m := ch.messages;
        ghost var next := ch.nextId;
        ghost var ids := latestIds;
        var text := render(latest[k]);
        ok := AnnounceUnlessPosted(ch, text, mark(latest[k]));
        ghost var added := ch.nextId != next;
        assert latestIds == old(latestIds) + Range(start, next) + Range(next, ch.nextId);
        RangeExtends(old(latestIds), start, next, ch.nextId);
        assert latest[..k + 1] == latest[..k] + [latest[k]];
        assert StepAdds(m, ch.messages, start, added, next, text);
        StepExtends(before, m, ch.messages, start, added, next, text);
        StepAnnouncesOnly(m, ch.messages, start, added, next, render, latest[..k], latest[k]);
        StepAnnouncedKept(m, ch.messages, start, mark, latest[..k]);
        if up {
          FreshStep(before, m, ch.messages, start, added, next, render, mark, latest[..k], latest[k],
                    old(latestIds), Range(start, next));
        }
        if !ok {
          AnnouncesOnlyWiden(ch.messages, start, render, latest[..k + 1], latest);
          return;
        }
        AllAnnouncedAppend(ch.messages, mark, latest[..k], latest[k]);
        k := k + 1;
      }
      assert latest[..k] == latest;
    }

    /** `post_latest`: drop the oldest tracked announcements while three or
        more are tracked, announce each of the (at most three) latest
        reported solves whose marker no tracked message contains, and keep
        the last three ids. `ok` is false when a send fails, which raises:
        the ids already appended stay tracked, since the state dictionary
        holds the very list being edited. */
    method PostLatest(ch: Channel, env: Env, clock: Clock, mention: string, reported: seq<Solve>)
      returns (ok: bool)
      requires ch.Valid()
      modifies this`latestIds, ch
      ensures ch.Valid()
      ensures old(ch.nextId) <= ch.nextId <= old(ch.nextId) + |Last(reported, MAX_LATEST)|
      ensures ok ==> latestIds == Last(Evicted(old(latestIds)) + Range(old(ch.nextId), ch.nextId), MAX_LATEST)
      ensures !ok ==> latestIds == Evicted(old(latestIds)) + Range(old(ch.nextId), ch.nextId)
      ensures |latestIds| <= if ok then MAX_LATEST else MAX_LATEST + 1
      ensures ok ==> AllAnnounced(ch.messages, MarkerOf(env), Last(reported, MAX_LATEST))
      ensures AnnouncesOnly(ch.messages, old(ch.nextId), Render(env, clock, mention), Last(reported, MAX_LATEST))
      ensures forall id :: id in old(ch.messages) && id !in old(latestIds) ==>
        id in ch.messages && ch.messages[id] == old(ch.messages)[id]
      ensures forall id :: id in ch.messages ==> id in old(ch.messages) || id >= old(ch.nextId)
      ensures forall id :: id in latestIds ==> id in old(latestIds) || old(ch.nextId) <= id < ch.nextId
      // with no failing call: the pass completes, and a solve that a message
      // still tracked after eviction shows is not announced again
      ensures AllUp(old(ch.script)) ==> ok
      ensures AllUp(old(ch.script)) && NoDups(old(latestIds)) ==>
        AnnouncesFresh(ch.messages, old(ch.nextId), Render(env, clock, mention), MarkerOf(env),
                       Last(reported, MAX_LATEST), old(ch.messages), Evicted(old(latestIds)))
    {
      EvictOldest(ch);
      ghost var kept := latestIds;
      ghost var evictedTo := ch.messages;
      assert forall id :: id in kept ==> id in old(latestIds);
      forall s ensures Contains(Render(env, clock, mention)(s), MarkerOf(env)(s)) {
        AnnouncementShape(env, clock, mention, s);
      }
      ok := AnnounceAll(ch, Render(env, clock, mention), MarkerOf(env), Last(reported, MAX_LATEST));
      if AllUp(old(ch.script)) && NoDups(old(latestIds)) {
        KeptNotDropped(old(latestIds));
        FreshRebase(ch.messages, old(ch.nextId), Render(env, clock, mention), MarkerOf(env),
                    Last(reported, MAX_LATEST), evictedTo, old(ch.messages), kept);
      }
      ghost var grown := latestIds;
      assert forall id :: id in grown ==> id in kept || old(ch.nextId) <= id < ch.nextId;
      if ok {
        latestIds := Last(latestIds, MAX_LATEST);
        assert forall id :: id in latestIds ==> id in grown;
      }
    }

    /** The Discord half of a pass with new solves: `update_table`, then
        `post_latest`, stopping at the first call that raises. */
    method Publish(ch: Channel, env: Env, clock: Clock, mention: string, table: string, reported: seq<Solve>)
      returns (ok: bool)
      requires ch.Valid() && Tracks(ch)
      modifies this`tableId, this`latestIds, ch
      ensures ch.Valid() && Tracks(ch)
      ensures ok ==> tableId.Some? && tableId.value in ch.messages && ch.messages[tableId.value] == table
      ensures ok ==> AllAnnounced(ch.messages, MarkerOf(env), Last(reported, MAX_LATEST))
      ensures ok ==> |latestIds| <= MAX_LATEST
      ensures AllUp(old(ch.script)) ==> ok
    {
      ok := UpdateTable(ch, table);
      if !ok {
        return;
      }
      ok := PostLatest(ch, env, clock, mention, reported);
    }

    /** Acting on what a pass of `poll_loop` decided: nothing when the
        ledger could not be ordered (the pass raises); otherwise save the
        ledger and, when something is new, refresh the table and announce.
        The state file is saved only when the pass completes; a pass that
        raises (`ok` false) keeps the in-memory state as far as it got. */
    method Apply(ch: Channel, env: Env, clock: Clock, mention: string, rec: Option<Reconciled>)
      returns (ok: bool)
      requires ch.Valid() && Tracks(ch)
      modifies this, ch
      ensures ch.Valid() && Tracks(ch)
      ensures rec.None? ==>
        !ok && ledger == old(ledger) && tableId == old(tableId) && latestIds == old(latestIds) &&
        ch.messages == old(ch.messages) && ch.nextId == old(ch.nextId)
      ensures rec.Some? ==> ledger == rec.value.ledger
      ensures rec.Some? && rec.value.reported == [] ==>
        ok && tableId == old(tableId) && latestIds == old(latestIds) &&
        ch.messages == old(ch.messages) && ch.nextId == old(ch.nextId)
      ensures ok && rec.value.reported != [] ==>
        tableId.Some? && tableId.value in ch.messages && ch.messages[tableId.value] == TableText(env, clock, ledger) &&
        AllAnnounced(ch.messages, MarkerOf(env), Last(rec.value.reported, MAX_LATEST)) &&
        |latestIds| <= MAX_LATEST
      ensures ok ==> savedTableId == tableId && savedLatestIds == latestIds
      ensures !ok ==> savedTableId == old(savedTableId) && savedLatestIds == old(savedLatestIds)
      ensures AllUp(old(ch.script)) ==> (ok <==> rec.Some?)
    {
      if rec.None? {
        return false;
      }
      ledger := rec.value.ledger;
      if rec.value.reported != [] {
        ok := Publish(ch, env, clock, mention, TableText(env, clock, ledger), rec.value.reported);
        if !ok {
          return;
        }
      }
      ok := true;
      savedTableId := tableId;
      savedLatestIds := latestIds;
    }

    /** One pass of `poll_loop` on the notifications `response` returned. */
    method PollCycle(ch: Channel, env: Env, clock: Clock, mention: string, response: Option<seq<Notification>>)
      returns (ok: bool)
      requires ch.Valid() && Tracks(ch)
      modifies this, ch
      ensures ch.Valid() && Tracks(ch)
      ensures Poll(env, old(ledger), response).None? ==>
        !ok && ledger == old(ledger) && tableId == old(tableId) && latestIds == old(latestIds) &&
        ch.messages == old(ch.messages) && ch.nextId == old(ch.nextId)
      ensures Poll(env, old(ledger), response).Some? ==> ledger == Poll(env, old(ledger), response).value.ledger
      ensures (Poll(env, old(ledger), response).Some? && Poll(env, old(ledger), response).value.reported == []) ==>
        ok && tableId == old(tableId) && latestIds == old(latestIds) &&
        ch.messages == old(ch.messages) && ch.nextId == old(ch.nextId)
      ensures ok && Poll(env, old(ledger), response).value.reported != [] ==>
        tableId.Some? && tableId.value in ch.messages && ch.messages[tableId.value] == TableText(env, clock, ledger) &&
        AllAnnounced(ch.messages, MarkerOf(env), Last(Poll(env, old(ledger), response).value.reported, MAX_LATEST)) &&
        |latestIds| <= MAX_LATEST
      ensures ok ==> savedTableId == tableId && savedLatestIds == latestIds
      ensures !ok ==> savedTableId == old(savedTableId) && savedLatestIds == old(savedLatestIds)
      ensures AllUp(old(ch.script)) ==> (ok <==> Poll(env, old(ledger), response).Some?)
    {
      ok := Apply(ch, env, clock, mention, Poll(env, ledger, response));
    }
  }
}
