/** The stateful parts of the live-chat widget
    (src/components/livechat/LiveChatWidget.tsx): reaction aggregation, the
    optimistic reaction toggle, the send gate and the unread badge. */
module ChatWidget {
  import opened Base
  import opened Strings
  import opened ChatText
  import opened Sequences

  // ---------------------------------------------------------------------
  // Reaction aggregation
  // ---------------------------------------------------------------------

  /** A row of `chat_reactions`. */
  datatype ReactionRow = ReactionRow(messageId: int, emoji: string, userId: string)

  /** One emoji under one message, as the widget shows it. */
  datatype ReactionAgg = ReactionAgg(emoji: string, count: int, reactedByMe: bool)

  predicate Matches(r: ReactionRow, mid: int, emoji: string) {
    r.messageId == mid && r.emoji == emoji
  }

  /** Some row puts `emoji` under message `mid`. */
  predicate Used(rows: seq<ReactionRow>, mid: int, emoji: string) {
    exists j :: 0 <= j < |rows| && Matches(rows[j], mid, emoji)
  }

  /** Some row of the signed-in user puts `emoji` under message `mid`. */
  predicate ReactedFor(rows: seq<ReactionRow>, mid: int, emoji: string, me: Option<string>) {
    exists j :: 0 <= j < |rows| && Matches(rows[j], mid, emoji) && me == Some(rows[j].userId)
  }

  /** The emojis used under message `mid`, in order of first use. */
  function EmojisOf(rows: seq<ReactionRow>, mid: int): (r: seq<string>)
    ensures |r| <= |rows|
  {
    if rows == [] then []
    else
      var r := EmojisOf(rows[..|rows| - 1], mid);
      var last := rows[|rows| - 1];
      if last.messageId == mid && last.emoji !in r then r + [last.emoji] else r
  }

  /** How many rows put `emoji` under message `mid`. */
  function CountFor(rows: seq<ReactionRow>, mid: int, emoji: string): (n: nat)
    ensures n <= |rows|
  {
    if rows == [] then 0
    else CountFor(rows[..|rows| - 1], mid, emoji) + (if Matches(rows[|rows| - 1], mid, emoji) then 1 else 0)
  }

  function Entry(rows: seq<ReactionRow>, mid: int, me: Option<string>, emoji: string): ReactionAgg {
    ReactionAgg(emoji, CountFor(rows, mid, emoji), ReactedFor(rows, mid, emoji, me))
  }

  /** What the widget should show under message `mid`: one entry per emoji
      used there, in order of first use. */
  function AggOf(rows: seq<ReactionRow>, mid: int, me: Option<string>): (r: seq<ReactionAgg>)
    ensures |r| == |EmojisOf(rows, mid)|
    ensures forall i :: 0 <= i < |r| ==> r[i] == Entry(rows, mid, me, EmojisOf(rows, mid)[i])
  {
    var emojis := EmojisOf(rows, mid);
    seq(|emojis|, i requires 0 <= i < |emojis| => Entry(rows, mid, me, emojis[i]))
  }

  function MessagesOf(rows: seq<ReactionRow>): set<int> {
    set x | x in rows :: x.messageId
  }

  lemma UsedSnoc(rows: seq<ReactionRow>, r: ReactionRow, mid: int, emoji: string)
    ensures Used(rows + [r], mid, emoji) <==> Used(rows, mid, emoji) || Matches(r, mid, emoji)
  {
    var all := rows + [r];
    if Used(all, mid, emoji) && !Matches(r, mid, emoji) {
      var j :| 0 <= j < |all| && Matches(all[j], mid, emoji);
      assert all[j] == rows[j];
    }
    if Used(rows, mid, emoji) {
      var j :| 0 <= j < |rows| && Matches(rows[j], mid, emoji);
      assert all[j] == rows[j];
    }
    if Matches(r, mid, emoji) {
      assert all[|rows|] == r;
    }
  }

  lemma ReactedSnoc(rows: seq<ReactionRow>, r: ReactionRow, mid: int, emoji: string, me: Option<string>)
    ensures ReactedFor(rows + [r], mid, emoji, me) <==>
      ReactedFor(rows, mid, emoji, me) || (Matches(r, mid, emoji) && me == Some(r.userId))
  {
    var all := rows + [r];
    if ReactedFor(all, mid, emoji, me) && !(Matches(r, mid, emoji) && me == Some(r.userId)) {
      var j :| 0 <= j < |all| && Matches(all[j], mid, emoji) && me == Some(all[j].userId);
      assert all[j] == rows[j];
    }
    if ReactedFor(rows, mid, emoji, me) {
      var j :| 0 <= j < |rows| && Matches(rows[j], mid, emoji) && me == Some(rows[j].userId);
      assert all[j] == rows[j];
    }
    if Matches(r, mid, emoji) && me == Some(r.userId) {
      assert all[|rows|] == r;
    }
  }

  /** One more row changes only the entry of its own (message, emoji) pair. */
  lemma EntrySnoc(rows: seq<ReactionRow>, r: ReactionRow, mid: int, me: Option<string>, emoji: string)
    ensures Entry(rows + [r], mid, me, emoji) ==
      if Matches(r, mid, emoji)
      then ReactionAgg(emoji, CountFor(rows, mid, emoji) + 1, ReactedFor(rows, mid, emoji, me) || me == Some(r.userId))
      else Entry(rows, mid, me, emoji)
  {
    assert (rows + [r])[..|rows|] == rows;
    ReactedSnoc(rows, r, mid, emoji, me);
  }

  lemma EmojisSnoc(rows: seq<ReactionRow>, r: ReactionRow, mid: int)
    ensures EmojisOf(rows + [r], mid) ==
      if r.messageId == mid && r.emoji !in EmojisOf(rows, mid) then EmojisOf(rows, mid) + [r.emoji]
      else EmojisOf(rows, mid)
  {
    assert (rows + [r])[..|rows|] == rows;
  }

  /** An emoji is listed exactly when some row uses it, and counted at
      least once exactly then. */
  lemma {:induction false} UsedListedCounted(rows: seq<ReactionRow>, mid: int, emoji: string)
    ensures emoji in EmojisOf(rows, mid) <==> Used(rows, mid, emoji)
    ensures CountFor(rows, mid, emoji) >= 1 <==> Used(rows, mid, emoji)
  {
    if rows != [] {
      var init, last := rows[..|rows| - 1], rows[|rows| - 1];
      assert rows == init + [last];
      UsedListedCounted(init, mid, emoji);
      UsedSnoc(init, last, mid, emoji);
      EmojisSnoc(init, last, mid);
    }
  }

  /** The emojis under one message are listed once each. */
  lemma {:induction false} EmojisDistinct(rows: seq<ReactionRow>, mid: int)
    ensures forall i, j :: 0 <= i < j < |EmojisOf(rows, mid)| ==> EmojisOf(rows, mid)[i] != EmojisOf(rows, mid)[j]
  {
    if rows != [] {
      EmojisDistinct(rows[..|rows| - 1], mid);
    }
  }

  /** The position of `emoji` in `list`, or `|list|` when it is not there
      (the lookup `agg[mid][emoji]`). */
  function FindEmoji(list: seq<ReactionAgg>, emoji: string): (k: nat)
    ensures k <= |list|
    ensures k < |list| ==> list[k].emoji == emoji
    ensures forall j :: 0 <= j < k ==> list[j].emoji != emoji
  {
    if list == [] then 0
    else if list[0].emoji == emoji then 0
    else 1 + FindEmoji(list[1..], emoji)
  }

  /** The entry of `emoji` counted once more: created with count one when
      missing, marked when the row is the signed-in user's. */
  function Bump(list: seq<ReactionAgg>, emoji: string, mine: bool): seq<ReactionAgg> {
    var k := FindEmoji(list, emoji);
    if k == |list| then list + [ReactionAgg(emoji, 1, mine)]
    else list[k := ReactionAgg(emoji, list[k].count + 1, list[k].reactedByMe || mine)]
  }

  /** `Bump` done the way the loop below does it: create the entry with
      count zero, count it, then mark it. */
  lemma BumpInSteps(list: seq<ReactionAgg>, emoji: string, mine: bool, k: nat,
                    grown: seq<ReactionAgg>, counted: seq<ReactionAgg>, result: seq<ReactionAgg>)
    requires k == FindEmoji(list, emoji)
    requires grown == if k == |list| then list + [ReactionAgg(emoji, 0, false)] else list
    requires k < |grown| && counted == grown[k := grown[k].(count := grown[k].count + 1)]
    requires result == if mine then counted[k := counted[k].(reactedByMe := true)] else counted
    ensures result == Bump(list, emoji, mine)
  {
    if k < |list| {
      assert list[k].emoji == emoji;
    }
  }

  /** A row under another message leaves a message's list alone. */
  lemma AggStepOther(rows: seq<ReactionRow>, r: ReactionRow, mid: int, me: Option<string>)
    requires r.messageId != mid
    ensures AggOf(rows + [r], mid, me) == AggOf(rows, mid, me)
  {
    EmojisSnoc(rows, r, mid);
    forall i | 0 <= i < |EmojisOf(rows, mid)|
      ensures AggOf(rows + [r], mid, me)[i] == AggOf(rows, mid, me)[i]
    {
      EntrySnoc(rows, r, mid, me, EmojisOf(rows, mid)[i]);
    }
  }

  /** A row under the message counts its emoji once more. */
  lemma AggStepSame(rows: seq<ReactionRow>, r: ReactionRow, me: Option<string>)
    ensures AggOf(rows + [r], r.messageId, me) == Bump(AggOf(rows, r.messageId, me), r.emoji, me == Some(r.userId))
  {
    var before := AggOf(rows, r.messageId, me);
    var k := FindEmoji(before, r.emoji);
    EmojisSnoc(rows, r, r.messageId);
    if k == |before| {
      AggStepNewEmoji(rows, r, me);
    } else {
      AggStepKnownEmoji(rows, r, me, k);
    }
  }

  lemma AggStepNewEmoji(rows: seq<ReactionRow>, r: ReactionRow, me: Option<string>)
    requires FindEmoji(AggOf(rows, r.messageId, me), r.emoji) == |AggOf(rows, r.messageId, me)|
    ensures AggOf(rows + [r], r.messageId, me) ==
      AggOf(rows, r.messageId, me) + [ReactionAgg(r.emoji, 1, me == Some(r.userId))]
  {
    var mid, e := r.messageId, r.emoji;
    var before, after := AggOf(rows, mid, me), AggOf(rows + [r], mid, me);
    var emojis := EmojisOf(rows, mid);
    UsedListedCounted(rows, mid, e);
    assert e !in emojis by {
      forall i | 0 <= i < |emojis| ensures emojis[i] != e {
        assert before[i].emoji == emojis[i];
      }
    }
    EmojisSnoc(rows, r, mid);
    forall i | 0 <= i < |emojis| ensures after[i] == before[i] {
      EntrySnoc(rows, r, mid, me, emojis[i]);
    }
    EntrySnoc(rows, r, mid, me, e);
    assert !ReactedFor(rows, mid, e, me);
    assert after == before + [ReactionAgg(e, 1, me == Some(r.userId))];
  }

  lemma AggStepKnownEmoji(rows: seq<ReactionRow>, r: ReactionRow, me: Option<string>, k: nat)
    requires k == FindEmoji(AggOf(rows, r.messageId, me), r.emoji) && k < |AggOf(rows, r.messageId, me)|
    ensures var before := AggOf(rows, r.messageId, me);
      AggOf(rows + [r], r.messageId, me) ==
        before[k := ReactionAgg(r.emoji, before[k].count + 1, before[k].reactedByMe || me == Some(r.userId))]
  {
    var mid := r.messageId;
    var before, after := AggOf(rows, mid, me), AggOf(rows + [r], mid, me);
    var emojis := EmojisOf(rows, mid);
    assert emojis[k] == r.emoji;
    EmojisSnoc(rows, r, mid);
    EmojisDistinct(rows, mid);
    forall i | 0 <= i < |after|
      ensures after[i] == before[k := ReactionAgg(r.emoji, before[k].count + 1, before[k].reactedByMe || me == Some(r.userId))][i]
    {
      EntrySnoc(rows, r, mid, me, emojis[i]);
    }
  }

  /** The list stored for each message in the loop below. */
  function ListOf(agg: map<int, seq<ReactionAgg>>, mid: int): seq<ReactionAgg> {
    if mid in agg then agg[mid] else []
  }

  /** A message with an aggregated entry has a row. */
  lemma EmojisHaveRow(rows: seq<ReactionRow>, mid: int)
    ensures EmojisOf(rows, mid) != [] ==> mid in MessagesOf(rows)
  {
    if EmojisOf(rows, mid) != [] {
      var e := EmojisOf(rows, mid)[0];
      UsedListedCounted(rows, mid, e);
      var j :| 0 <= j < |rows| && Matches(rows[j], mid, e);
      assert rows[j] in rows;
    }
  }

  /** The map holds the aggregate of the rows seen so far, keyed by the
      messages among them. */
  predicate Aggregated(seen: seq<ReactionRow>, me: Option<string>, agg: map<int, seq<ReactionAgg>>) {
    && agg.Keys == MessagesOf(seen)
    && forall mid :: mid in agg ==> agg[mid] == AggOf(seen, mid, me)
  }

  lemma MessagesSnoc(seen: seq<ReactionRow>, r: ReactionRow)
    ensures MessagesOf(seen + [r]) == MessagesOf(seen) + {r.messageId}
  {
    assert forall x :: x in seen + [r] <==> x in seen || x == r;
  }

  /** One turn of the aggregation loop keeps the loop invariant. */
  lemma AggSnoc(seen: seq<ReactionRow>, r: ReactionRow, me: Option<string>, agg: map<int, seq<ReactionAgg>>,
                list: seq<ReactionAgg>)
    requires Aggregated(seen, me, agg)
    requires list == Bump(ListOf(agg, r.messageId), r.emoji, me == Some(r.userId))
    ensures Aggregated(seen + [r], me, agg[r.messageId := list])
  {
    EmojisHaveRow(seen, r.messageId);
    AggStepSame(seen, r, me);
    forall mid | mid != r.messageId && mid in agg ensures agg[mid] == AggOf(seen + [r], mid, me) {
      AggStepOther(seen, r, mid, me);
    }
    MessagesSnoc(seen, r);
  }

  /** The aggregation loop of the reactions effect: for each row, create the
      entry of its (message, emoji) pair on first sight, count the row, and
      mark the entry when the row is the signed-in user's. */
  method Aggregate(rows: seq<ReactionRow>, me: Option<string>) returns (agg: map<int, seq<ReactionAgg>>)
    ensures agg.Keys == MessagesOf(rows)
    ensures forall mid :: mid in agg ==> agg[mid] == AggOf(rows, mid, me)
  {
    agg := map[];
    var i := 0;
    ghost var seen: seq<ReactionRow> := [];
    while i < |rows|
      invariant i <= |rows| && seen == rows[..i]
      invariant Aggregated(seen, me, agg)
    {
      var r := rows[i];
      var prior := ListOf(agg, r.messageId);
      var k := FindEmoji(prior, r.emoji);
      var grown := if k == |prior| then prior + [ReactionAgg(r.emoji, 0, false)] else prior;
      var counted := grown[k := grown[k].(count := grown[k].count + 1)];
      var list := if me == Some(r.userId) then counted[k := counted[k].(reactedByMe := true)] else counted;
      BumpInSteps(prior, r.emoji, me == Some(r.userId), k, grown, counted, list);
      AggSnoc(seen, r, me, agg, list);
      agg := agg[r.messageId := list];
      seen := seen + [r];
      TakeSnoc(rows, i);
      i := i + 1;
    }
    assert seen == rows;
  }

  /** Every aggregated entry counts its rows (at least one), is marked
      exactly when one of them is the signed-in user's, and appears once;
      every emoji used under the message has an entry. */
  lemma AggMeaning(rows: seq<ReactionRow>, mid: int, me: Option<string>)
    ensures var list := AggOf(rows, mid, me);
      && (forall a :: a in list ==> a.count == CountFor(rows, mid, a.emoji) >= 1)
      && (forall a :: a in list ==> (a.reactedByMe <==> ReactedFor(rows, mid, a.emoji, me)))
      && (forall j :: 0 <= j < |rows| && rows[j].messageId == mid ==> exists a :: a in list && a.emoji == rows[j].emoji)
      && (forall i, j :: 0 <= i < j < |list| ==> list[i].emoji != list[j].emoji)
  {
    var list := AggOf(rows, mid, me);
    var emojis := EmojisOf(rows, mid);
    EmojisDistinct(rows, mid);
    forall a | a in list ensures a.count == CountFor(rows, mid, a.emoji) >= 1 {
      var i :| 0 <= i < |list| && list[i] == a;
      UsedListedCounted(rows, mid, emojis[i]);
    }
    forall j | 0 <= j < |rows| && rows[j].messageId == mid
      ensures exists a :: a in list && a.emoji == rows[j].emoji
    {
      UsedListedCounted(rows, mid, rows[j].emoji);
      var i :| 0 <= i < |emojis| && emojis[i] == rows[j].emoji;
      assert list[i] in list;
    }
  }

  // ---------------------------------------------------------------------
  // onReact
  // ---------------------------------------------------------------------

  /** The list after the signed-in user toggles `emoji`, given the list
      before: a new emoji is appended as theirs alone; their own reaction is
      taken back (the entry disappears at zero); otherwise they join. */
  function Toggled(list: seq<ReactionAgg>, emoji: string): (r: seq<ReactionAgg>)
    ensures var k := FindEmoji(list, emoji);
      k == |list| || !list[k].reactedByMe ==>
        ReactionAgg(emoji, (if k == |list| then 0 else list[k].count) + 1, true) in r
    ensures var k := FindEmoji(list, emoji);
      k < |list| && list[k].reactedByMe && list[k].count > 1 ==>
        ReactionAgg(emoji, list[k].count - 1, false) in r
    ensures var k := FindEmoji(list, emoji);
      k < |list| && list[k].reactedByMe && list[k].count <= 1 ==> |r| == |list| - 1
  {
    var k := FindEmoji(list, emoji);
    if k == |list| then list + [ReactionAgg(emoji, 1, true)]
    else
      var it := list[k];
      if it.reactedByMe && it.count - 1 <= 0 then
        list[..k] + list[k + 1..]
      else
        var r := list[k := Flip(it)];
        assert r[k] in r;
        r
  }

  /** Toggling one emoji keeps the entries of every other emoji and adds
      none. */
  lemma ToggleKeepsOthers(list: seq<ReactionAgg>, emoji: string, a: ReactionAgg)
    requires a.emoji != emoji
    ensures a in Toggled(list, emoji) <==> a in list
  {
    var k := FindEmoji(list, emoji);
    var r := Toggled(list, emoji);
    if k < |list| {
      if list[k].reactedByMe && list[k].count - 1 <= 0 {
        assert r == list[..k] + list[k + 1..];
        if a in list {
          var j :| 0 <= j < |list| && list[j] == a;
          assert r[if j < k then j else j - 1] == a;
        }
      } else {
        if a in list {
          var j :| 0 <= j < |list| && list[j] == a;
          assert r[j] == a;
        }
      }
    }
  }

  /** `onReact`: nothing without a signed-in user or when `toggleReaction`
      failed; otherwise the message's list is replaced by its toggled copy. */
  function OnReact(prev: map<int, seq<ReactionAgg>>, mid: int, emoji: string,
                   signedIn: bool, toggleOk: bool): (r: map<int, seq<ReactionAgg>>)
    ensures !signedIn || !toggleOk ==> r == prev
    ensures signedIn && toggleOk ==> r.Keys == prev.Keys + {mid}
    ensures signedIn && toggleOk ==> r[mid] == Toggled(ListOf(prev, mid), emoji)
    ensures forall m :: m in prev && m != mid ==> m in r && r[m] == prev[m]
  {
    if !signedIn || !toggleOk then prev
    else prev[mid := Toggled(ListOf(prev, mid), emoji)]
  }

  /** Joining a reaction gives what aggregating the rows together with the
      user's new row gives. */
  lemma ToggleJoinsAsRow(rows: seq<ReactionRow>, mid: int, emoji: string, me: string)
    requires !ReactedFor(rows, mid, emoji, Some(me))
    ensures Toggled(AggOf(rows, mid, Some(me)), emoji) == AggOf(rows + [ReactionRow(mid, emoji, me)], mid, Some(me))
  {
    var list := AggOf(rows, mid, Some(me));
    var k := FindEmoji(list, emoji);
    AggStepSame(rows, ReactionRow(mid, emoji, me), Some(me));
    if k < |list| {
      var i := k;
      assert list[i] == Entry(rows, mid, Some(me), EmojisOf(rows, mid)[i]);
    }
  }

  /** Taking back the user's reaction on an emoji others also used lowers
      its count by one and clears "reacted by me", in place. */
  lemma ToggleLeavesShared(list: seq<ReactionAgg>, emoji: string)
    requires var k := FindEmoji(list, emoji); k < |list| && list[k].reactedByMe && list[k].count > 1
    ensures var k, r := FindEmoji(list, emoji), Toggled(list, emoji);
      && |r| == |list|
      && r[k] == list[k].(count := list[k].count - 1, reactedByMe := false)
      && (forall j :: 0 <= j < |list| && j != k ==> r[j] == list[j])
  {
  }

  /** Taking back the user's reaction, when their row for it is the latest
      row, gives what aggregating the rows without that row gives: the
      inverse of `ToggleJoinsAsRow`, shared emoji or not. */
  lemma ToggleLeavesAsRowRemoved(rows: seq<ReactionRow>, mid: int, emoji: string, me: string)
    requires !ReactedFor(rows, mid, emoji, Some(me))
    ensures Toggled(AggOf(rows + [ReactionRow(mid, emoji, me)], mid, Some(me)), emoji) == AggOf(rows, mid, Some(me))
  {
    var list := AggOf(rows, mid, Some(me));
    ToggleJoinsAsRow(rows, mid, emoji, me);
    AggMeaning(rows, mid, Some(me));
    var k := FindEmoji(list, emoji);
    if k < |list| {
      assert list[k] in list;
    }
    ToggleTwice(list, emoji);
  }

  /** Taking back the user's only reaction removes the entry and keeps
      every other one, in order. */
  lemma ToggleTakesBack(list: seq<ReactionAgg>, emoji: string)
    requires forall i, j :: 0 <= i < j < |list| ==> list[i].emoji != list[j].emoji
    requires var k := FindEmoji(list, emoji); k < |list| && list[k].reactedByMe && list[k].count <= 1
    ensures var k, r := FindEmoji(list, emoji), Toggled(list, emoji);
      && |r| == |list| - 1
      && (forall j :: 0 <= j < |r| ==> r[j].emoji != emoji)
      && (forall j :: 0 <= j < k ==> r[j] == list[j])
      && (forall j :: k < j < |list| ==> r[j - 1] == list[j])
  {
    var k := FindEmoji(list, emoji);
    ToggledRemoves(list, emoji, k);
    var r := list[..k] + list[k + 1..];
    forall j | 0 <= j < |r| ensures r[j].emoji != emoji {
      if j < k {
        assert r[j] == list[j];
      } else {
        assert r[j] == list[j + 1];
      }
    }
  }

  /** A toggle that takes back the only reaction cuts the entry out. */
  lemma ToggledRemoves(list: seq<ReactionAgg>, emoji: string, k: nat)
    requires k == FindEmoji(list, emoji) && k < |list|
    requires list[k].reactedByMe && list[k].count - 1 <= 0
    ensures Toggled(list, emoji) == list[..k] + list[k + 1..]
  {
  }

  /** Toggling twice restores the list, unless the entry was the user's own
      and only reaction: it then is dropped and comes back at the end. */
  lemma ToggleTwice(list: seq<ReactionAgg>, emoji: string)
    requires forall a :: a in list ==> a.count >= 1
    requires var k := FindEmoji(list, emoji); k == |list| || !list[k].reactedByMe || list[k].count > 1
    ensures Toggled(Toggled(list, emoji), emoji) == list
  {
    var k := FindEmoji(list, emoji);
    if k == |list| {
      ToggleTwiceNew(list, emoji);
    } else {
      assert list[k] in list;
      ToggleTwiceKnown(list, emoji, k);
    }
  }

  lemma ToggleTwiceNew(list: seq<ReactionAgg>, emoji: string)
    requires FindEmoji(list, emoji) == |list|
    ensures Toggled(Toggled(list, emoji), emoji) == list
  {
    var once := list + [ReactionAgg(emoji, 1, true)];
    assert Toggled(list, emoji) == once;
    FindEmojiPrefix(list, once, emoji);
    assert once[..|list|] + once[|list| + 1..] == list;
  }

  lemma ToggleTwiceKnown(list: seq<ReactionAgg>, emoji: string, k: nat)
    requires k == FindEmoji(list, emoji) && k < |list|
    requires list[k].count >= 1 && (!list[k].reactedByMe || list[k].count > 1)
    ensures Toggled(Toggled(list, emoji), emoji) == list
  {
    var once := list[k := Flip(list[k])];
    ToggledInPlace(list, emoji, k);
    FindEmojiSame(list, once, k, emoji);
    assert Flip(once[k]) == list[k];
    ToggledInPlace(once, emoji, k);
    assert once[k := list[k]] == list;
  }

  /** The entry a toggle rewrites in place: the viewer's reaction taken
      back or added. */
  function Flip(it: ReactionAgg): ReactionAgg
  {
    if it.reactedByMe then it.(count := it.count - 1, reactedByMe := false)
    else it.(count := it.count + 1, reactedByMe := true)
  }

  /** A toggle that keeps the entry rewrites it where it stands. */
  lemma ToggledInPlace(list: seq<ReactionAgg>, emoji: string, k: nat)
    requires k == FindEmoji(list, emoji) && k < |list|
    requires !(list[k].reactedByMe && list[k].count - 1 <= 0)
    ensures Toggled(list, emoji) == list[k := Flip(list[k])]
  {
  }

  lemma {:induction false} FindEmojiPrefix(list: seq<ReactionAgg>, longer: seq<ReactionAgg>, emoji: string)
    requires list <= longer
    requires FindEmoji(list, emoji) == |list|
    requires |longer| > |list| && longer[|list|].emoji == emoji
    ensures FindEmoji(longer, emoji) == |list|
  {
    if list != [] {
      assert list[1..] <= longer[1..];
      FindEmojiPrefix(list[1..], longer[1..], emoji);
    }
  }

  lemma {:induction false} FindEmojiSame(list: seq<ReactionAgg>, other: seq<ReactionAgg>, k: nat, emoji: string)
    requires k < |list| == |other|
    requires FindEmoji(list, emoji) == k
    requires forall j :: 0 <= j < |list| && j != k ==> other[j] == list[j]
    requires other[k].emoji == emoji
    ensures FindEmoji(other, emoji) == k
  {
    if k > 0 {
      FindEmojiSame(list[1..], other[1..], k - 1, emoji);
    }
  }

  // ---------------------------------------------------------------------
  // onSend
  // ---------------------------------------------------------------------

  const COOLDOWN_MS: int := 1500

  datatype SendOutcome = NotSignedIn | TooSoon | NothingToSend | Repeated | Send(content: string)

  /** The decision `onSend` takes before any network call. */
  function SendDecision(lastSendAt: int, lastMsg: string, signedIn: bool, now: int, text: string,
                        hasAttachment: bool): (r: SendOutcome)
    ensures r.Send? <==>
      signedIn && now - lastSendAt >= COOLDOWN_MS && (Sanitize(text) != "" || hasAttachment)
      && (hasAttachment || Sanitize(text) != lastMsg)
    ensures r.Send? ==> r.content == Sanitize(text)
    ensures r == TooSoon <==> signedIn && now - lastSendAt < COOLDOWN_MS
    ensures r == Repeated ==> !hasAttachment && Sanitize(text) == lastMsg
  {
    var cleaned := Sanitize(text);
    if !signedIn then NotSignedIn
    else if now - lastSendAt < COOLDOWN_MS then TooSoon
    else if cleaned == "" && !hasAttachment then NothingToSend
    else if cleaned != "" && cleaned == lastMsg && !hasAttachment then Repeated
    else Send(cleaned)
  }

  /** The two refs `onSend` keeps between calls. */
  class SendGate {
    var lastSendAt: int
    var lastMsg: string

    constructor()
      ensures lastSendAt == 0 && lastMsg == ""
    {
      lastSendAt := 0;
      lastMsg := "";
    }

    /** Records an accepted send before the message goes out, so a failing
        send still counts for the cooldown and the repeat check. */
    method OnSend(signedIn: bool, now: int, text: string, hasAttachment: bool) returns (r: SendOutcome)
      modifies this
      ensures r == SendDecision(old(lastSendAt), old(lastMsg), signedIn, now, text, hasAttachment)
      ensures r.Send? ==> lastSendAt == now && lastMsg == r.content
      ensures !r.Send? ==> lastSendAt == old(lastSendAt) && lastMsg == old(lastMsg)
    {
      r := SendDecision(lastSendAt, lastMsg, signedIn, now, text, hasAttachment);
      if r.Send? {
        lastSendAt := now;
        lastMsg := r.content;
      }
    }
  }

  /** After a send, nothing else goes out for 1.5 seconds, and the same
      text without an attachment never goes out twice in a row. */
  lemma NoSpam(at: int, text: string, hasAttachment: bool, now: int, text': string)
    ensures now < at + COOLDOWN_MS ==> !SendDecision(at, Sanitize(text), true, now, text', false).Send?
    ensures Sanitize(text') == Sanitize(text) ==> !SendDecision(at, Sanitize(text), true, now, text', false).Send?
  {
  }

  // ---------------------------------------------------------------------
  // Unread counter
  // ---------------------------------------------------------------------

  /** The unread count and the last-read mark after a realtime insert.
      A mark of None stands for `NaN`, what `new Date(...).getTime()` gives
      for a time it cannot parse; every comparison with it is false.
      `saved` says whether the new mark is also written to local storage. */
  datatype AfterInsert = AfterInsert(unread: nat, lastReadAt: Option<int>, saved: bool)

  /** `m.created_at` is newer than the mark; false when either is `NaN`. */
  predicate Newer(created: Option<int>, lastReadAt: Option<int>) {
    created.Some? && lastReadAt.Some? && created.value > lastReadAt.value
  }

  /** A realtime insert: while the chat is closed, a message from someone
      else that is newer than the mark is counted; while it is open, the
      mark moves to the message's time, is stored for a signed-in user and
      the count drops to zero. */
  function OnInsert(unread: nat, open: bool, me: Option<string>, senderId: string,
                    created: Option<int>, lastReadAt: Option<int>): (r: AfterInsert)
    ensures !open ==> r.lastReadAt == lastReadAt && !r.saved
    ensures !open ==> (r.unread == unread + 1 <==> me != Some(senderId) && Newer(created, lastReadAt))
    ensures !open ==> r.unread == unread || r.unread == unread + 1
    ensures open ==> r.unread == 0 && r.lastReadAt == created
    ensures open ==> (r.saved <==> me.Some? && me.value != "")
  {
    var isMine := me == Some(senderId);
    var counted := if !open && !isMine && Newer(created, lastReadAt) then unread + 1 else unread;
    if open then AfterInsert(0, created, me.Some? && me.value != "")
    else AfterInsert(counted, lastReadAt, false)
  }

  /** A message that arrives while the chat is open is read: after it, a
      message arriving with the chat closed is counted only when it is
      strictly newer, whatever the count was before. */
  lemma OpenInsertMarksRead(unread: nat, me: Option<string>, first: string, t1: Option<int>,
                            mark: Option<int>, second: string, t2: Option<int>)
    ensures var a := OnInsert(unread, true, me, first, t1, mark);
      OnInsert(a.unread, false, me, second, t2, a.lastReadAt).unread ==
        if me != Some(second) && Newer(t2, t1) then 1 else 0
  {
  }

  /** An unparsable time leaves an open chat's mark at `NaN`, after which
      no closed-chat message is counted until the mark is reset. */
  lemma NaNMarkCountsNothing(unread: nat, me: Option<string>, sender: string, t: Option<int>)
    ensures OnInsert(unread, false, me, sender, t, OnInsert(0, true, me, sender, None, Some(0)).lastReadAt).unread == unread
  {
  }

  /** The newest message of the room when the unread count starts: none,
      or its time (None when it does not parse, `NaN`). */
  datatype Latest = NoMessage | LatestAt(time: Option<int>)

  /** `lastReadAtRef.current` is falsy: never stored, 0 or `NaN`. */
  predicate NoMark(mark: Option<int>) {
    mark.None? || mark.value == 0
  }

  /** The count made when the chat starts closed for a signed-in user. With
      no mark yet, the mark becomes the newest message's time (`now` when
      there is none), is stored, and the count is 0, so the history is not
      counted. With a mark, the count is the server's exact count of the
      room's messages newer than it (`count`, None for null, read as 0),
      the user's own messages included. `threw` says the query threw: the
      count and the mark then stay. Nothing happens without a user or with
      the chat open. */
  function InitialUnread(userId: string, open: bool, unread: nat, mark: Option<int>,
                         latest: Latest, now: int, count: Option<nat>, threw: bool): (r: AfterInsert)
    ensures userId == "" || open || threw ==> r == AfterInsert(unread, mark, false)
    ensures userId != "" && !open && !threw && NoMark(mark) ==>
      r.unread == 0 && r.saved &&
      r.lastReadAt == (match latest case NoMessage => Some(now) case LatestAt(t) => t)
    ensures userId != "" && !open && !threw && !NoMark(mark) ==>
      r.lastReadAt == mark && !r.saved && r.unread == (if count.Some? then count.value else 0)
  {
    if userId == "" || open || threw then AfterInsert(unread, mark, false)
    else if NoMark(mark) then
      var ts := match latest case NoMessage => Some(now) case LatestAt(t) => t;
      AfterInsert(0, ts, true)
    else AfterInsert(if count.Some? then count.value else 0, mark, false)
  }

  /** After a first count with no stored mark, a message arriving with the
      chat closed is counted exactly when it is someone else's and strictly
      newer than the newest message at that time: the history is never
      counted. */
  lemma FirstCountSkipsHistory(userId: string, unread: nat, mark: Option<int>, t: int, now: int,
                               count: Option<nat>, me: Option<string>, sender: string, created: Option<int>)
    requires userId != "" && NoMark(mark)
    ensures var a := InitialUnread(userId, false, unread, mark, LatestAt(Some(t)), now, count, false);
      OnInsert(a.unread, false, me, sender, created, a.lastReadAt).unread ==
        if me != Some(sender) && created.Some? && created.value > t then 1 else 0
  {
  }

  lemma TwoDigits(n: nat)
    requires n <= 99
    ensures |NatToString(n)| <= 2
  {
    if n >= 10 {
      assert NatToString(n / 10) == [DigitChar(n / 10)];
    }
  }

  /** The badge on the closed chat button: none at zero, the number up to
      99, "99+" beyond. */
  function Badge(unread: nat): (r: Option<string>)
    ensures r.None? <==> unread == 0
    ensures r == Some("99+") <==> unread > 99
    ensures r.Some? && unread <= 99 ==>
      |r.value| <= 2 && (forall i :: 0 <= i < |r.value| ==> IsDigit(r.value[i])) && DigitsValue(r.value) == unread
  {
    if unread == 0 then None
    else if unread > 99 then Some("99+")
    else
      NatToStringValue(unread);
      TwoDigits(unread);
      Some(NatToString(unread))
  }
}
