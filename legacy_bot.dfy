/** The earlier first-blood relay (discord-bot/bot_old.py): no ledger, only
    a set of event ids already announced. */
module LegacyBot {
  import opened Base
  import opened Strings
  import opened Sequences
  import opened BotFeed
  import BotRelay
  import Sorting

  /** One feed item as this bot reads it: the first-blood fields plus the
      two id columns it prefers over any hash. */
  datatype Item = Item(n: Notification, notifId: Json, rowId: Json)

  /** Python's `str()` on a JSON scalar; `repr` renders arrays and objects. */
  function PyStr(v: Json, repr: Json -> string): (r: string)
    ensures v.JStr? ==> r == v.s
    ensures v.JNum? ==> r == IntToString(v.n)
  {
    match v
    case JNull => "None"
    case JBool(b) => if b then "True" else "False"
    case JNum(n) => IntToString(n)
    case JStr(s) => s
    case _ => repr(v)
  }

  /** `str(notif_id or id or f"notif:{time}")`. The SHA-256 of the raw key
      is computed first and then overwritten, so it takes no part. */
  function EventId(item: Item, repr: Json -> string): (r: string)
    ensures PyTruthy(item.notifId) ==> r == PyStr(item.notifId, repr)
    ensures !PyTruthy(item.notifId) && PyTruthy(item.rowId) ==> r == PyStr(item.rowId, repr)
    ensures !PyTruthy(item.notifId) && !PyTruthy(item.rowId) ==> r == "notif:" + TimeText(item.n)
  {
    if PyTruthy(item.notifId) then PyStr(item.notifId, repr)
    else if PyTruthy(item.rowId) then PyStr(item.rowId, repr)
    else "notif:" + TimeText(item.n)
  }

  /** An empty list under `notif_id` is false in Python, so the row id is
      used, where JavaScript's rule would have kept the list. */
  lemma EmptyListIdFallsBack(item: Item, repr: Json -> string)
    requires item.notifId == JArr([]) && item.rowId == JStr("7")
    ensures EventId(item, repr) == "7"
    ensures Truthy(item.notifId)
  {
  }

  function ToEvent(item: Item, repr: Json -> string): Solve {
    Solve(EventId(item, repr),
          OrElse(item.n.username, UNKNOWN),
          OrElse(item.n.challengeTitle, UNKNOWN),
          OrElse(item.n.category, UNKNOWN),
          TimeText(item.n))
  }

  /** `fetch_firstbloods`: the same type and time filter as the newer bot;
      the five-minute cutoff is computed but never applied. */
  function FetchItems(env: Env, repr: Json -> string, items: seq<Item>): (r: seq<Solve>)
    ensures |r| <= |items|
    ensures forall e :: e in r ==> exists it :: it in items && Accepted(env, it.n) && e == ToEvent(it, repr)
    ensures forall it :: it in items && Accepted(env, it.n) ==> ToEvent(it, repr) in r
  {
    if items == [] then []
    else
      var rest := FetchItems(env, repr, items[1..]);
      assert forall it :: it in items ==> it == items[0] || it in items[1..];
      if Accepted(env, items[0].n) then [ToEvent(items[0], repr)] + rest else rest
  }

  function Fetch(env: Env, repr: Json -> string, response: Option<seq<Item>>): (r: seq<Solve>)
    ensures response.None? ==> r == []
    ensures forall e :: e in r ==> env.parseIso(e.time).Some?
    ensures forall e :: e in r ==> exists it :: it in response.value && Accepted(env, it.n) && e == ToEvent(it, repr)
    ensures response.Some? ==> forall it :: it in response.value && Accepted(env, it.n) ==> ToEvent(it, repr) in r
  {
    if response.None? then [] else FetchItems(env, repr, response.value)
  }

  /** Only the parser, never the hash, decides what the fetch returns. */
  lemma {:induction false} FetchIgnoresHash(env: Env, env': Env, repr: Json -> string, items: seq<Item>)
    requires env.parseIso == env'.parseIso
    ensures FetchItems(env, repr, items) == FetchItems(env', repr, items)
  {
    if items != [] {
      FetchIgnoresHash(env, env', repr, items[1..]);
    }
  }

  /** The `seen` entry of the state file: absent (no file, or no key), or
      the stored JSON value. */
  datatype StateFile = NoState | SeenValue(v: Json)

  /** `load_state`: `seen` defaults to [] and every entry becomes a
      string; a text value is iterated character by character and a dict
      by its keys. None when the comprehension raises on a value that
      cannot be iterated. */
  function LoadState(file: StateFile, repr: Json -> string): (r: Option<seq<string>>)
    ensures file.NoState? ==> r == Some([])
    ensures file.SeenValue? && file.v.JArr? ==>
      r.Some? && |r.value| == |file.v.items| &&
      forall i :: 0 <= i < |r.value| ==> r.value[i] == PyStr(file.v.items[i], repr)
    ensures file.SeenValue? && file.v.JStr? ==>
      r.Some? && |r.value| == |file.v.s| && forall i :: 0 <= i < |r.value| ==> r.value[i] == [file.v.s[i]]
    ensures file.SeenValue? && file.v.JObj? ==> r == Some(file.v.keys)
    ensures r.None? <==> file.SeenValue? && (file.v.JNull? || file.v.JBool? || file.v.JNum?)
  {
    match file
    case NoState => Some([])
    case SeenValue(JArr(items)) =>
      Some(seq(|items|, i requires 0 <= i < |items| => PyStr(items[i], repr)))
    case SeenValue(JStr(s)) => Some(seq(|s|, i requires 0 <= i < |s| => [s[i]]))
    case SeenValue(JObj(keys)) => Some(keys)
    case SeenValue(_) => None
  }

  /** The fetched events not yet seen, in fetch order. */
  function Unseen(fetched: seq<Solve>, seen: set<string>): (r: seq<Solve>)
    ensures forall e :: e in r <==> e in fetched && e.id !in seen
    ensures IsSubseq(r, fetched)
  {
    FilterSubseq(fetched, (e: Solve) => e.id !in seen);
    Filter(fetched, (e: Solve) => e.id !in seen)
  }

  /** The announcement. The role mention is appended, after a dash, only
      when a role id other than "0" is configured. */
  function Announcement(env: Env, utc: int -> string, roleId: string, resolve: string -> string, e: Solve): string {
    var body := BotRelay.DROP + e.user + "** claimed first blood on **" + e.challenge + "** (" + e.category
      + ") at " + SolvedAt(env, utc, e);
    if roleId != "" && roleId != "0" then body + (DASH + resolve(roleId)) else body
  }

  lemma AnnouncementShape(env: Env, utc: int -> string, roleId: string, resolve: string -> string, e: Solve)
    ensures StartsWith(Announcement(env, utc, roleId, resolve, e), BotRelay.DROP + e.user + "**")
    ensures roleId == "" || roleId == "0" ==>
      EndsWith(Announcement(env, utc, roleId, resolve, e), " at " + SolvedAt(env, utc, e))
    ensures roleId != "" && roleId != "0" ==>
      EndsWith(Announcement(env, utc, roleId, resolve, e), DASH + resolve(roleId))
  {
    var r := Announcement(env, utc, roleId, resolve, e);
    var lead := BotRelay.DROP + e.user + "**";
    assert r == lead + r[|lead|..];
  }

  /** An em dash, kept as the file stores it: its UTF-8 bytes read back as
      Windows-1252 text. */
  const DASH: string := " \U{00E2}\U{20AC}\U{201D} "

  /** `solved_at.strftime("%Y-%m-%d %H:%M:%S UTC")`, or the raw text when it does not parse. */
  function SolvedAt(env: Env, utc: int -> string, e: Solve): string {
    match env.parseIso(e.time)
    case Some(t) => utc(t)
    case None => e.time
  }

  /** The events one pass announces: the unseen ones, oldest first; the
      sort only rearranges them, since the times it compares all parsed
      under the same parser and carry no offset kind. */
  function Queue(env: Env, repr: Json -> string, response: Option<seq<Item>>, seen: set<string>): (r: seq<Solve>)
    ensures multiset(r) == multiset(Unseen(Fetch(env, repr, response), seen))
    ensures response.None? ==> r == []
  {
    Sorting.Sort(Unseen(Fetch(env, repr, response), seen), ByTime(env))
  }

  /** The queue holds exactly the unseen fetched events, each as often as
      the fetch returned it, in ascending time order. */
  lemma QueueShape(env: Env, repr: Json -> string, response: Option<seq<Item>>, seen: set<string>)
    ensures multiset(Queue(env, repr, response, seen)) == multiset(Unseen(Fetch(env, repr, response), seen))
    ensures forall e :: e in Queue(env, repr, response, seen) <==>
      e in Fetch(env, repr, response) && e.id !in seen
    ensures Chronological(env, Queue(env, repr, response, seen))
  {
    var q := Queue(env, repr, response, seen);
    var u := Unseen(Fetch(env, repr, response), seen);
    ChronologicalSort(env, u);
    forall e ensures e in q <==> e in u {
      assert e in q <==> multiset(q)[e] > 0;
      assert e in u <==> multiset(u)[e] > 0;
    }
  }

  /** The channel's messages after sending what `render` makes of each of
      `q` in turn, from id `start` on. */
  ghost function Posted(m: map<nat, string>, start: nat, render: Solve -> string, q: seq<Solve>): map<nat, string>
    decreases |q|
  {
    if q == [] then m
    else Posted(m, start, render, q[..|q| - 1])[start + |q| - 1 := render(q[|q| - 1])]
  }

  lemma PostedAppend(m: map<nat, string>, start: nat, render: Solve -> string, q: seq<Solve>, e: Solve)
    ensures Posted(m, start, render, q + [e]) == Posted(m, start, render, q)[start + |q| := render(e)]
  {
    assert (q + [e])[..|q|] == q;
  }

  /** Posting adds exactly the ids from `start` to `start + |q|`, holding
      the texts of `q` in order, and keeps every earlier message. */
  lemma {:induction false} PostedShape(m: map<nat, string>, start: nat, render: Solve -> string, q: seq<Solve>)
    requires forall id :: id in m ==> id < start
    ensures forall id :: id in Posted(m, start, render, q) <==> id in m || start <= id < start + |q|
    ensures forall id :: id in m ==> Posted(m, start, render, q)[id] == m[id]
    ensures forall j :: 0 <= j < |q| ==> Posted(m, start, render, q)[start + j] == render(q[j])
    decreases |q|
  {
    if q != [] {
      PostedShape(m, start, render, q[..|q| - 1]);
    }
  }

  /** The ids of the events of `q`. */
  function IdsOf(q: seq<Solve>): set<string> {
    if q == [] then {} else IdsOf(q[..|q| - 1]) + {q[|q| - 1].id}
  }

  lemma {:induction false} IdsOfMembers(q: seq<Solve>)
    ensures forall e :: e in q ==> e.id in IdsOf(q)
    ensures forall id :: id in IdsOf(q) ==> exists e :: e in q && e.id == id
  {
    if q != [] {
      IdsOfMembers(q[..|q| - 1]);
      assert forall e :: e in q ==> e in q[..|q| - 1] || e == q[|q| - 1];
    }
  }

  /** Announcing event `i` of the queue extends both the posted messages
      and the seen ids by that one event. */
  lemma AnnouncedOneMore(m: map<nat, string>, start: nat, render: Solve -> string, queue: seq<Solve>, i: nat)
    requires i < |queue|
    ensures Posted(m, start, render, queue[..i + 1]) == Posted(m, start, render, queue[..i])[start + i := render(queue[i])]
    ensures IdsOf(queue[..i + 1]) == IdsOf(queue[..i]) + {queue[i].id}
  {
    assert queue[..i + 1] == queue[..i] + [queue[i]];
    PostedAppend(m, start, render, queue[..i], queue[i]);
    IdsOfAppend(queue[..i], queue[i]);
  }

  lemma IdsOfAppend(q: seq<Solve>, e: Solve)
    ensures IdsOf(q + [e]) == IdsOf(q) + {e.id}
  {
    assert (q + [e])[..|q|] == q;
  }


  /** The relay's memory: the in-memory `seen` set and the one last written
      to the state file. */
  class Relay {
    var seen: set<string>
    var savedSeen: set<string>

    /** Start-up: both sets are what `load_state` read. */
    constructor (loaded: seq<string>)
      ensures seen == savedSeen == set id | id in loaded
    {
      seen := set id | id in loaded;
      savedSeen := seen;
    }

    /** The body of one pass over `queue`: announce each event, marking
        it seen right after its send; a failed send raises, so later events
        wait for the next pass and the state file is not rewritten. */
    method Announce(ch: BotRelay.Channel, render: Solve -> string, queue: seq<Solve>)
      returns (ok: bool)
      requires ch.Valid()
      modifies this, ch
      ensures ch.Valid()
      ensures old(ch.nextId) <= ch.nextId <= old(ch.nextId) + |queue|
      ensures ok <==> ch.nextId == old(ch.nextId) + |queue|
      ensures ch.messages == Posted(old(ch.messages), old(ch.nextId), render, queue[..ch.nextId - old(ch.nextId)])
      ensures seen == old(seen) + IdsOf(queue[..ch.nextId - old(ch.nextId)])
      ensures ok ==> savedSeen == seen
      ensures !ok ==> savedSeen == old(savedSeen)
    {
      ghost var start := ch.nextId;
      ghost var m0 := ch.messages;
      ghost var seen0 := seen;
      var i := 0;
      while i < |queue|
        invariant 0 <= i <= |queue|
        invariant ch.Valid() && ch.nextId == start + i
        invariant ch.messages == Posted(m0, start, render, queue[..i])
        invariant seen == seen0 + IdsOf(queue[..i])
        invariant savedSeen == old(savedSeen)
      {
        var text := render(queue[i]);
        var sent := ch.Send(text);
        if sent.None? {
          return false;
        }
        seen := seen + {queue[i].id};
        AnnouncedOneMore(m0, start, render, queue, i);
        i := i + 1;
      }
      savedSeen := seen;
      ok := true;
    }

    /** One pass of `poll_loop` on the items `response` returned. */
    method PollCycle(ch: BotRelay.Channel, env: Env, repr: Json -> string, utc: int -> string,
                     roleId: string, resolve: string -> string, response: Option<seq<Item>>)
      returns (ok: bool)
      requires ch.Valid()
      modifies this, ch
      ensures ch.Valid()
      ensures old(ch.nextId) <= ch.nextId <= old(ch.nextId) + |Queue(env, repr, response, old(seen))|
      ensures ok <==> ch.nextId == old(ch.nextId) + |Queue(env, repr, response, old(seen))|
      ensures ch.messages == Posted(old(ch.messages), old(ch.nextId), (e: Solve) => Announcement(env, utc, roleId, resolve, e),
                                    Queue(env, repr, response, old(seen))[..ch.nextId - old(ch.nextId)])
      ensures seen == old(seen) + IdsOf(Queue(env, repr, response, old(seen))[..ch.nextId - old(ch.nextId)])
      ensures ok ==> savedSeen == seen
      ensures !ok ==> savedSeen == old(savedSeen)
    {
      ok := Announce(ch, (e: Solve) => Announcement(env, utc, roleId, resolve, e), Queue(env, repr, response, seen));
    }
  }

  /** After a complete pass nothing in the same response is unseen, and
      `seen` only ever grows. */
  lemma SecondPassFindsNothing(env: Env, repr: Json -> string, response: Option<seq<Item>>,
                               seen: set<string>, seen': set<string>)
    requires seen' == seen + IdsOf(Queue(env, repr, response, seen))
    ensures seen <= seen'
    ensures Unseen(Fetch(env, repr, response), seen') == []
  {
    QueueShape(env, repr, response, seen);
    var q := Queue(env, repr, response, seen);
    IdsOfMembers(q);
    forall e | e in Fetch(env, repr, response) ensures e.id in seen' {
      if e.id !in seen {
        assert e in q;
      }
    }
    UnseenEmpty(Fetch(env, repr, response), seen');
  }

  lemma {:induction false} UnseenEmpty(fetched: seq<Solve>, seen: set<string>)
    requires forall e :: e in fetched ==> e.id in seen
    ensures Unseen(fetched, seen) == []
  {
    if fetched != [] {
      assert fetched[0] in fetched;
      UnseenEmpty(fetched[1..], seen);
    }
  }
}
