/** The unread-notification tracker (src/contexts/NotificationsContext.tsx):
    notification ids, the unread count and marking everything read. The
    browser's localStorage is a map from keys to stored texts; `parse` and
    `stringify` are `JSON.parse` (None where it throws) and `JSON.stringify`
    on lists of ids. */
module Notifications {
  import opened Base
  import opened Strings
  import opened Sequences

  const SEEN_KEY_PREFIX: string := "ctfs_seen_notifications_v1:"

  datatype Notif = Notif(notifType: string, challengeId: string, userId: Option<string>, createdAt: string)

  /** The storage key: per signed-in user, or "anon". */
  function StorageKey(user: Option<string>): (k: string)
    ensures StartsWith(k, SEEN_KEY_PREFIX)
  {
    SEEN_KEY_PREFIX + (if user.Some? then user.value else "anon")
  }

  /** Two signed-in users never share a key. */
  lemma KeysSeparateUsers(a: string, b: string)
    requires a != b
    ensures StorageKey(Some(a)) != StorageKey(Some(b))
  {
    var ka := StorageKey(Some(a));
    assert ka[|SEEN_KEY_PREFIX|..] == a;
    assert StorageKey(Some(b))[|SEEN_KEY_PREFIX|..] == b;
  }

  /** `notifId`: type, challenge, user (empty when absent or empty) and
      time, joined by '|'. */
  function NotifId(n: Notif): string {
    n.notifType + "|" + n.challengeId + "|" + n.userId.GetOr("") + "|" + n.createdAt
  }

  /** Without '|' in its fields, an id splits back into the four fields, so
      different notifications have different ids. */
  lemma NotifIdSplits(n: Notif)
    requires '|' !in n.notifType && '|' !in n.challengeId && '|' !in n.userId.GetOr("") && '|' !in n.createdAt
    ensures Split(NotifId(n), '|') == [n.notifType, n.challengeId, n.userId.GetOr(""), n.createdAt]
  {
    var u := n.userId.GetOr("");
    var tail2 := u + "|" + n.createdAt;
    var tail1 := n.challengeId + "|" + tail2;
    assert NotifId(n) == n.notifType + ['|'] + tail1;
    SplitAround(n.notifType, tail1, '|');
    assert tail1 == n.challengeId + ['|'] + tail2;
    SplitAround(n.challengeId, tail2, '|');
    assert tail2 == u + ['|'] + n.createdAt;
    SplitAround(u, n.createdAt, '|');
    SplitWithoutSep(n.createdAt, '|');
  }

  lemma NotifIdInjective(a: Notif, b: Notif)
    requires '|' !in a.notifType && '|' !in a.challengeId && '|' !in a.userId.GetOr("") && '|' !in a.createdAt
    requires '|' !in b.notifType && '|' !in b.challengeId && '|' !in b.userId.GetOr("") && '|' !in b.createdAt
    requires NotifId(a) == NotifId(b)
    ensures a.notifType == b.notifType && a.challengeId == b.challengeId
    ensures a.userId.GetOr("") == b.userId.GetOr("") && a.createdAt == b.createdAt
  {
    NotifIdSplits(a);
    NotifIdSplits(b);
  }

  function Ids(notifs: seq<Notif>): (r: seq<string>)
    ensures |r| == |notifs|
    ensures forall k :: 0 <= k < |r| ==> r[k] == NotifId(notifs[k])
  {
    Keys(notifs, NotifId)
  }

  /** The fetched ids not yet seen, counted with repetitions. */
  function Unread(ids: seq<string>, seen: seq<string>): (n: nat)
    ensures n <= |ids|
  {
    CountIf(ids, (id: string) => id !in seen)
  }

  lemma {:induction false} UnreadZero(ids: seq<string>, seen: seq<string>)
    ensures Unread(ids, seen) == 0 <==> forall id :: id in ids ==> id in seen
    decreases |ids|
  {
    if ids != [] {
      UnreadZero(ids[1..], seen);
      assert forall id :: id in ids <==> id == ids[0] || id in ids[1..];
    }
  }

  /** The seen list under a key: `seenJson ? JSON.parse(seenJson) : []`;
      None when the stored text does not parse. */
  function ReadSeen(storage: map<string, string>, key: string, parse: string -> Option<seq<string>>)
    : (r: Option<seq<string>>)
    ensures key !in storage ==> r == Some([])
  {
    if key !in storage || storage[key] == "" then Some([]) else parse(storage[key])
  }

  /** The seen list `markAllRead` stores: the old one followed by the new
      ids, duplicates dropped and first occurrences kept. */
  function Merged(seen: seq<string>, ids: seq<string>): (r: seq<string>)
    ensures NoDups(r)
    ensures forall id :: id in r <==> id in seen || id in ids
  {
    Distinct(seen + ids)
  }

  /** A seen list without repetitions stays in front, in its order. */
  lemma MergedKeepsSeen(seen: seq<string>, ids: seq<string>)
    requires NoDups(seen)
    ensures seen <= Merged(seen, ids)
  {
    DistinctKeepsPrefix(seen, ids);
  }

  /** The context's state and the browser storage it writes. */
  class NotificationCenter {
    var unreadCount: int
    var storage: map<string, string>

    constructor(storage: map<string, string>)
      ensures this.unreadCount == 0 && this.storage == storage
    {
      this.unreadCount := 0;
      this.storage := storage;
    }

    /** `refresh`: counts the unseen fetched notifications; a stored text
        that does not parse throws, and the catch leaves the count. */
    method Refresh(user: Option<string>, fetched: seq<Notif>, parse: string -> Option<seq<string>>)
      modifies this
      ensures storage == old(storage)
      ensures var seen := ReadSeen(storage, StorageKey(user), parse);
        (seen.None? ==> unreadCount == old(unreadCount)) &&
        (seen.Some? ==> unreadCount == Unread(Ids(fetched), seen.value))
    {
      var ids := Ids(fetched);
      var key := StorageKey(user);
      var seen := ReadSeen(storage, key, parse);
      if seen.Some? {
        unreadCount := Unread(ids, seen.value);
      }
    }

    /** `markAllRead`: stores the merged list and zeroes the count; when the
        stored text does not parse the promise rejects before anything is
        written. */
    method MarkAllRead(user: Option<string>, fetched: seq<Notif>, parse: string -> Option<seq<string>>,
                       stringify: seq<string> -> string)
      modifies this
      ensures var seen := ReadSeen(old(storage), StorageKey(user), parse);
        (seen.None? ==> storage == old(storage) && unreadCount == old(unreadCount)) &&
        (seen.Some? ==> storage == old(storage)[StorageKey(user) := stringify(Merged(seen.value, Ids(fetched)))] &&
                        unreadCount == 0)
    {
      var ids := Ids(fetched);
      var key := StorageKey(user);
      var seen := ReadSeen(storage, key, parse);
      if seen.Some? {
        var merged := Merged(seen.value, ids);
        storage := storage[key := stringify(merged)];
        unreadCount := 0;
      }
    }
  }

  /** Once everything is marked read, a refresh over the same notifications
      counts nothing: the stored list reads back (`JSON.parse` undoes
      `JSON.stringify`, whose output is never empty) and holds every id. */
  lemma ReadAfterMark(storage: map<string, string>, user: Option<string>, fetched: seq<Notif>,
                      parse: string -> Option<seq<string>>, stringify: seq<string> -> string)
    requires ReadSeen(storage, StorageKey(user), parse).Some?
    requires var m := Merged(ReadSeen(storage, StorageKey(user), parse).value, Ids(fetched));
      stringify(m) != "" && parse(stringify(m)) == Some(m)
    ensures var m := Merged(ReadSeen(storage, StorageKey(user), parse).value, Ids(fetched));
      var after := storage[StorageKey(user) := stringify(m)];
      ReadSeen(after, StorageKey(user), parse) == Some(m) && Unread(Ids(fetched), m) == 0
  {
    var m := Merged(ReadSeen(storage, StorageKey(user), parse).value, Ids(fetched));
    UnreadZero(Ids(fetched), m);
  }

  /** Marking read on one user's key leaves every other key's list alone. */
  lemma MarkTouchesOneKey(storage: map<string, string>, key: string, other: string, text: string,
                          parse: string -> Option<seq<string>>)
    requires other != key
    ensures ReadSeen(storage[key := text], other, parse) == ReadSeen(storage, other, parse)
  {
  }
}
