/** Reaction and pin bookkeeping of the message list
    (components/MessageList.tsx).

    The backend's two tables are sets of rows held by a `Backend` object;
    every query the component issues returns the matching rows in an order
    the model leaves open. Whether a write or a read reaches the backend is
    a parameter of each operation. The component's own state, the reaction
    map and the pin map, lives in a `MessageListState` object whose methods
    follow the component's effects and handlers. */
module MessageList {
  import opened Wrappers
  import opened Seqs
  import opened MessageReactions

  /** The one conversation ("group") the list shows. */
  const GroupId: string := "8ba140c1-b57f-4967-b2a9-c2812bab8a72"

  /** The list's emoji choices, verbatim: a mis-decoded rendering of four
      emoji that differs from the message bubble's own default list. */
  const ListEmojis: seq<string> := [
    "\U{F0}\U{178}\U{2018}",
    "\U{E2}\U{A4}\U{EF}\U{B8}",
    "\U{F0}\U{178}\U{2DC}\U{201A}",
    "\U{F0}\U{178}\U{2122}"
  ]

  /** A row of the reactions table: one user's emoji on one message. */
  datatype ReactionRow = ReactionRow(messageId: string, userId: string, emoji: string)

  /** A row of the pins table. */
  datatype PinRow = PinRow(groupId: string, messageId: string, pinnedBy: string)

  /** The guard `if (!userId) return`: a user id is present and not empty. */
  predicate SignedIn(userId: Option<string>)
  {
    userId.Some? && userId.value != ""
  }

  // ---------------------------------------------------------------------
  // Grouping the reaction rows by message

  function OfMessage(messageId: string): ReactionRow -> bool
  {
    (r: ReactionRow) => r.messageId == messageId
  }

  /** The rows of one message, in query order. */
  function RowsFor(rows: seq<ReactionRow>, messageId: string): seq<ReactionRow>
  {
    Filter(OfMessage(messageId), rows)
  }

  function MessageIds(rows: seq<ReactionRow>): set<string>
  {
    set r | r in rows :: r.messageId
  }

  /** The grouped reaction map: one entry per message that has rows,
      holding that message's rows in query order. */
  function ByMessage(rows: seq<ReactionRow>): map<string, seq<ReactionRow>>
  {
    map k | k in MessageIds(rows) :: RowsFor(rows, k)
  }

  /** `reactionsMap[messageId] || []`. */
  function Get(m: map<string, seq<ReactionRow>>, messageId: string): seq<ReactionRow>
  {
    if messageId in m then m[messageId] else []
  }

  lemma NoRowsFor(rows: seq<ReactionRow>, messageId: string)
    requires messageId !in MessageIds(rows)
    ensures RowsFor(rows, messageId) == []
  {
    FilterEmpty(OfMessage(messageId), rows);
  }

  /** One more row extends only its own message's rows. */
  lemma RowsForSnoc(rows: seq<ReactionRow>, r: ReactionRow, k: string)
    ensures RowsFor(rows + [r], k) == RowsFor(rows, k) + (if r.messageId == k then [r] else [])
  {
    FilterAppend(OfMessage(k), rows, [r]);
    FilterSingleton(OfMessage(k), r);
  }

  /** One more row appends it to its message's list, creating the list when
      the message had none. */
  lemma ByMessageSnoc(rows: seq<ReactionRow>, r: ReactionRow)
    ensures ByMessage(rows + [r])
         == ByMessage(rows)[r.messageId := Get(ByMessage(rows), r.messageId) + [r]]
  {
    var m := ByMessage(rows);
    var grown := ByMessage(rows + [r]);
    var expected := m[r.messageId := Get(m, r.messageId) + [r]];
    assert MessageIds(rows + [r]) == MessageIds(rows) + {r.messageId};
    forall k | k in MessageIds(rows + [r])
      ensures grown[k] == expected[k]
    {
      RowsForSnoc(rows, r, k);
      if k == r.messageId && k !in MessageIds(rows) {
        NoRowsFor(rows, k);
      }
    }
    assert grown.Keys == expected.Keys;
  }

  /** The `forEach` loop that builds the reaction map. */
  method GroupByMessage(rows: seq<ReactionRow>) returns (m: map<string, seq<ReactionRow>>)
    ensures m == ByMessage(rows)
  {
    m := map[];
    var i := 0;
    assert MessageIds(rows[..0]) == {};
    while i < |rows|
      invariant 0 <= i <= |rows|
      invariant m == ByMessage(rows[..i])
    {
      var r := rows[i];
      if r.messageId !in m {
        m := m[r.messageId := []];
      }
      m := m[r.messageId := m[r.messageId] + [r]];
      assert rows[..i + 1] == rows[..i] + [r];
      ByMessageSnoc(rows[..i], r);
      i := i + 1;
    }
    assert rows[..i] == rows;
  }

  /** Every row is listed under its own message id. */
  lemma RowUnderItsMessage(rows: seq<ReactionRow>, i: nat)
    requires i < |rows|
    ensures rows[i].messageId in ByMessage(rows)
    ensures rows[i] in ByMessage(rows)[rows[i].messageId]
  {
    assert rows[i] in rows;
    FilterMembership(OfMessage(rows[i].messageId), rows);
  }

  /** Each list holds only rows of its own message, at least one, in the
      order of the query result, each as often as the result has it. */
  lemma GroupHoldsOnlyItsRows(rows: seq<ReactionRow>, k: string)
    requires k in ByMessage(rows)
    ensures ByMessage(rows)[k] != []
    ensures forall j :: 0 <= j < |ByMessage(rows)[k]| ==> ByMessage(rows)[k][j].messageId == k
    ensures forall x :: multiset(ByMessage(rows)[k])[x] == if x.messageId == k then multiset(rows)[x] else 0
    ensures IsSubsequence(ByMessage(rows)[k], rows)
  {
    var r :| r in rows && r.messageId == k;
    FilterMembership(OfMessage(k), rows);
    assert r in ByMessage(rows)[k];
    FilterMultiset(OfMessage(k), rows);
    FilterIsSubsequence(OfMessage(k), rows);
  }

  /** The total length of the lists of `m` under `keys`. */
  ghost function TotalRows(m: map<string, seq<ReactionRow>>, keys: set<string>): nat
    requires keys <= m.Keys
    decreases keys
  {
    if keys == {} then 0 else var k :| k in keys; |m[k]| + TotalRows(m, keys - {k})
  }

  lemma {:induction false} TotalRowsPick(m: map<string, seq<ReactionRow>>, keys: set<string>, k: string)
    requires keys <= m.Keys && k in keys
    ensures TotalRows(m, keys) == |m[k]| + TotalRows(m, keys - {k})
    decreases keys
  {
    var j :| j in keys && TotalRows(m, keys) == |m[j]| + TotalRows(m, keys - {j});
    if j != k {
      TotalRowsPick(m, keys - {j}, k);
      TotalRowsPick(m, keys - {k}, j);
      assert keys - {j} - {k} == keys - {k} - {j};
    }
  }

  lemma {:induction false} TotalRowsAgree(m1: map<string, seq<ReactionRow>>, m2: map<string, seq<ReactionRow>>, keys: set<string>)
    requires keys <= m1.Keys && keys <= m2.Keys
    requires forall k :: k in keys ==> |m1[k]| == |m2[k]|
    ensures TotalRows(m1, keys) == TotalRows(m2, keys)
    decreases keys
  {
    if keys != {} {
      var k :| k in keys;
      TotalRowsPick(m1, keys, k);
      TotalRowsPick(m2, keys, k);
      TotalRowsAgree(m1, m2, keys - {k});
    }
  }

  /** Appending one row to one list adds one to the total. */
  lemma TotalRowsAppend(m: map<string, seq<ReactionRow>>, r: ReactionRow)
    ensures var grown := m[r.messageId := Get(m, r.messageId) + [r]];
      TotalRows(grown, grown.Keys) == TotalRows(m, m.Keys) + 1
  {
    var k := r.messageId;
    var grown := m[k := Get(m, k) + [r]];
    TotalRowsPick(grown, grown.Keys, k);
    assert grown.Keys - {k} == m.Keys - {k};
    TotalRowsAgree(grown, m, m.Keys - {k});
    if k in m {
      TotalRowsPick(m, m.Keys, k);
    } else {
      assert m.Keys - {k} == m.Keys;
    }
  }

  /** Grouping loses and invents no row: the lists' lengths add up to the
      number of rows. */
  lemma {:induction false} GroupingKeepsEveryRow(rows: seq<ReactionRow>)
    ensures TotalRows(ByMessage(rows), ByMessage(rows).Keys) == |rows|
    decreases |rows|
  {
    if rows == [] {
      assert MessageIds(rows) == {};
      assert ByMessage(rows).Keys == {};
    } else {
      var front := rows[..|rows| - 1];
      var last := rows[|rows| - 1];
      assert rows == front + [last];
      GroupingKeepsEveryRow(front);
      ByMessageSnoc(front, last);
      TotalRowsAppend(ByMessage(front), last);
    }
  }

  // ---------------------------------------------------------------------
  // The per-emoji view of one message

  function OfEmoji(emoji: string): ReactionRow -> bool
  {
    (r: ReactionRow) => r.emoji == emoji
  }

  function ByUser(userId: Option<string>): ReactionRow -> bool
  {
    (r: ReactionRow) => userId == Some(r.userId)
  }

  /** `{ emoji, count: filtered.length, reacted: filtered.some(...) }`. */
  function Tally(rows: seq<ReactionRow>, emoji: string, userId: Option<string>): (t: Reaction)
    ensures t.emoji == emoji
    ensures t.count == |set j | 0 <= j < |rows| && rows[j].emoji == emoji|
    ensures t.reacted <==> exists j :: 0 <= j < |rows| && rows[j].emoji == emoji && userId == Some(rows[j].userId)
  {
    var filtered := Filter(OfEmoji(emoji), rows);
    FilterCountsPositions(OfEmoji(emoji), rows);
    assert Positions(OfEmoji(emoji), rows) == set j | 0 <= j < |rows| && rows[j].emoji == emoji;
    AnyOfFilter(OfEmoji(emoji), ByUser(userId), rows);
    Reaction(emoji, |filtered|, Any(ByUser(userId), filtered))
  }

  /** `availableEmojis.map(...)` over one message's rows. */
  function Summarize(rows: seq<ReactionRow>, emojis: seq<string>, userId: Option<string>): (view: seq<Reaction>)
    ensures |view| == |emojis|
    ensures forall i :: 0 <= i < |emojis| ==>
      && view[i].emoji == emojis[i]
      && view[i].count == |set j | 0 <= j < |rows| && rows[j].emoji == emojis[i]|
      && (view[i].reacted <==> exists j :: 0 <= j < |rows| && rows[j].emoji == emojis[i] && userId == Some(rows[j].userId))
  {
    seq(|emojis|, i requires 0 <= i < |emojis| => Tally(rows, emojis[i], userId))
  }

  /** The view the list renders for one message from its reaction map. */
  function ViewFor(m: map<string, seq<ReactionRow>>, messageId: string, emojis: seq<string>, userId: Option<string>): (view: seq<Reaction>)
    ensures |view| == |emojis| && forall i :: 0 <= i < |emojis| ==> view[i].emoji == emojis[i]
    ensures forall i :: 0 <= i < |emojis| ==>
      view[i].count == |set j | 0 <= j < |Get(m, messageId)| && Get(m, messageId)[j].emoji == emojis[i]|
  {
    Summarize(Get(m, messageId), emojis, userId)
  }

  /** With the list's own four emoji, a message shows four badges whose
      emoji are pairwise distinct, so the badge keys never clash. */
  lemma ListBadgesHaveDistinctKeys(m: map<string, seq<ReactionRow>>, messageId: string, userId: Option<string>)
    ensures var view := ViewFor(m, messageId, ListEmojis, userId);
      |view| == 4 && forall i, j :: 0 <= i < j < |view| ==> view[i].emoji != view[j].emoji
  {
  }

  /** A message without rows shows every emoji with count 0, not reacted,
      and so renders no badge. */
  lemma NoRowsNoReactions(m: map<string, seq<ReactionRow>>, messageId: string, emojis: seq<string>, userId: Option<string>)
    requires Get(m, messageId) == []
    ensures forall i :: 0 <= i < |emojis| ==>
      ViewFor(m, messageId, emojis, userId)[i].count == 0 && !ViewFor(m, messageId, emojis, userId)[i].reacted
    ensures RendersNothing(ViewFor(m, messageId, emojis, userId))
  {
    var view := ViewFor(m, messageId, emojis, userId);
    forall i | 0 <= i < |emojis| ensures view[i].count == 0 {
      var none: seq<ReactionRow> := [];
      assert (set j | 0 <= j < |none| && none[j].emoji == emojis[i]) == {};
    }
    RendersNothingIffNoCount(view);
  }

  /** Counting through the grouped map counts the query's rows for that
      message and emoji. */
  lemma ViewCountsQueryRows(rows: seq<ReactionRow>, messageId: string, emojis: seq<string>, userId: Option<string>, i: nat)
    requires i < |emojis|
    ensures ViewFor(ByMessage(rows), messageId, emojis, userId)[i].count
         == |set j | 0 <= j < |rows| && rows[j].messageId == messageId && rows[j].emoji == emojis[i]|
  {
    var e := emojis[i];
    var both := (r: ReactionRow) => r.messageId == messageId && r.emoji == e;
    FilterCountsPositions(both, rows);
    assert Positions(both, rows)
        == set j | 0 <= j < |rows| && rows[j].messageId == messageId && rows[j].emoji == e;
    FilterFilter(OfMessage(messageId), OfEmoji(e), both, rows);
    if messageId !in MessageIds(rows) {
      NoRowsFor(rows, messageId);
    }
  }

  /** An emoji's count under a message is positive exactly when the query
      returned a row of that message with that emoji. */
  lemma ViewCountPositive(rows: seq<ReactionRow>, messageId: string, emojis: seq<string>, userId: Option<string>, i: nat)
    requires i < |emojis|
    ensures ViewFor(ByMessage(rows), messageId, emojis, userId)[i].count > 0
        <==> exists j :: 0 <= j < |rows| && rows[j].messageId == messageId && rows[j].emoji == emojis[i]
  {
    ViewCountsQueryRows(rows, messageId, emojis, userId, i);
    var s := set j | 0 <= j < |rows| && rows[j].messageId == messageId && rows[j].emoji == emojis[i];
    if exists j :: 0 <= j < |rows| && rows[j].messageId == messageId && rows[j].emoji == emojis[i] {
      var j :| 0 <= j < |rows| && rows[j].messageId == messageId && rows[j].emoji == emojis[i];
      assert j in s;
    }
  }

  /** Nothing is rendered under a message exactly when the query returned
      no row of that message with one of the offered emoji. */
  lemma NoBadgesIffNoMatchingRows(rows: seq<ReactionRow>, messageId: string, emojis: seq<string>, userId: Option<string>)
    ensures RendersNothing(ViewFor(ByMessage(rows), messageId, emojis, userId))
        <==> forall j :: 0 <= j < |rows| && rows[j].messageId == messageId ==> rows[j].emoji !in emojis
  {
    var view := ViewFor(ByMessage(rows), messageId, emojis, userId);
    RendersNothingIffNoCount(view);
    if !RendersNothing(view) {
      var i :| 0 <= i < |view| && view[i].count > 0;
      ViewCountPositive(rows, messageId, emojis, userId, i);
      var j :| 0 <= j < |rows| && rows[j].messageId == messageId && rows[j].emoji == emojis[i];
      assert rows[j].emoji in emojis;
    }
    if exists j :: 0 <= j < |rows| && rows[j].messageId == messageId && rows[j].emoji in emojis {
      var j :| 0 <= j < |rows| && rows[j].messageId == messageId && rows[j].emoji in emojis;
      var i :| 0 <= i < |emojis| && emojis[i] == rows[j].emoji;
      ViewCountPositive(rows, messageId, emojis, userId, i);
      assert view[i].count > 0;
    }
  }

  // ---------------------------------------------------------------------
  // The reaction toggle

  /** `reactions.some((r) => r.user_id === userId && r.emoji === emoji)`. */
  predicate AlreadyReacted(view: seq<ReactionRow>, userId: string, emoji: string)
  {
    Any((r: ReactionRow) => r.userId == userId && r.emoji == emoji, view)
  }

  /** When every row of the list belongs to the message, the `some` test
      holds exactly when the list holds the user's row for that emoji, the
      row the delete removes. */
  lemma AlreadyReactedIffListed(view: seq<ReactionRow>, messageId: string, userId: string, emoji: string)
    requires forall j :: 0 <= j < |view| ==> view[j].messageId == messageId
    ensures AlreadyReacted(view, userId, emoji) <==> ReactionRow(messageId, userId, emoji) in view
  {
  }

  /** The table after the delete (when the list shows the reaction) or the
      insert (when it does not). */
  function AfterReactionWrite(table: set<ReactionRow>, reacted: bool, row: ReactionRow): (after: set<ReactionRow>)
    ensures row in after <==> !reacted
    ensures forall x :: x != row ==> (x in after <==> x in table)
  {
    if reacted then table - {row} else table + {row}
  }

  /** `view` lists exactly the table's rows of message `messageId`. */
  ghost predicate Synced(view: seq<ReactionRow>, table: set<ReactionRow>, messageId: string)
  {
    forall x :: x in view <==> x in table && x.messageId == messageId
  }

  /** When the list holds exactly the table's rows of the message, each
      once, the count shown for an emoji is the number of the table's rows
      of that message with that emoji. */
  lemma ShownCountIsTableCount(view: seq<ReactionRow>, table: set<ReactionRow>, messageId: string, emoji: string, userId: Option<string>)
    requires Synced(view, table, messageId) && Distinct(view)
    ensures Tally(view, emoji, userId).count == |set r | r in table && r.messageId == messageId && r.emoji == emoji|
  {
    var filtered := Filter(OfEmoji(emoji), view);
    FilterDistinct(OfEmoji(emoji), view);
    DistinctCardinality(filtered);
    FilterMembership(OfEmoji(emoji), view);
    assert (set x | x in filtered) == set r | r in table && r.messageId == messageId && r.emoji == emoji;
  }

  /** Read through the reaction map, the same holds for every offered emoji
      of a message, with or without an entry in the map. */
  lemma ViewCountIsTableCount(m: map<string, seq<ReactionRow>>, table: set<ReactionRow>, messageId: string,
                              emojis: seq<string>, userId: Option<string>, i: nat)
    requires Synced(Get(m, messageId), table, messageId) && Distinct(Get(m, messageId)) && i < |emojis|
    ensures ViewFor(m, messageId, emojis, userId)[i].count
         == |set r | r in table && r.messageId == messageId && r.emoji == emojis[i]|
  {
    ShownCountIsTableCount(Get(m, messageId), table, messageId, emojis[i], userId);
  }

  /** With the list in step with the table, the toggle removes exactly the
      user's row for that emoji when it exists and adds it otherwise; every
      other row stays as it was. */
  lemma ToggleFlipsOneRow(table: set<ReactionRow>, view: seq<ReactionRow>, row: ReactionRow)
    requires Synced(view, table, row.messageId)
    ensures var after := AfterReactionWrite(table, AlreadyReacted(view, row.userId, row.emoji), row);
      && (row in after <==> row !in table)
      && forall x :: x != row ==> (x in after <==> x in table)
  {
    var p := (r: ReactionRow) => r.userId == row.userId && r.emoji == row.emoji;
    if row in table {
      assert row in view;
      var i :| 0 <= i < |view| && view[i] == row;
      assert p(view[i]);
    }
  }

  /** Toggling twice, with the refresh in between, gives back the table. */
  lemma ToggleTwiceRestores(table: set<ReactionRow>, view1: seq<ReactionRow>, view2: seq<ReactionRow>, row: ReactionRow)
    requires Synced(view1, table, row.messageId)
    requires Synced(view2, AfterReactionWrite(table, AlreadyReacted(view1, row.userId, row.emoji), row), row.messageId)
    ensures var once := AfterReactionWrite(table, AlreadyReacted(view1, row.userId, row.emoji), row);
      AfterReactionWrite(once, AlreadyReacted(view2, row.userId, row.emoji), row) == table
  {
    var once := AfterReactionWrite(table, AlreadyReacted(view1, row.userId, row.emoji), row);
    ToggleFlipsOneRow(table, view1, row);
    ToggleFlipsOneRow(once, view2, row);
    var twice := AfterReactionWrite(once, AlreadyReacted(view2, row.userId, row.emoji), row);
    assert forall x :: x in twice <==> x in table;
  }

  /** With a stale list that does not show the user's existing row, the
      first tap inserts a row the table already has, which changes nothing;
      after the refresh the second tap deletes it. Two taps then remove an
      existing reaction instead of restoring the table. */
  lemma StaleListDoubleTapRemoves(table: set<ReactionRow>, view1: seq<ReactionRow>, view2: seq<ReactionRow>, row: ReactionRow)
    requires row in table && !AlreadyReacted(view1, row.userId, row.emoji)
    requires Synced(view2, AfterReactionWrite(table, false, row), row.messageId)
    ensures AfterReactionWrite(table, AlreadyReacted(view1, row.userId, row.emoji), row) == table
    ensures AfterReactionWrite(table, AlreadyReacted(view2, row.userId, row.emoji), row) == table - {row}
  {
    var once := AfterReactionWrite(table, false, row);
    assert once == table;
    assert row in view2;
    var i :| 0 <= i < |view2| && view2[i] == row;
    assert view2[i].userId == row.userId && view2[i].emoji == row.emoji;
  }

  // ---------------------------------------------------------------------
  // Pins

  /** `!!pins[messageId]`. */
  predicate IsPinned(pins: map<string, bool>, messageId: string)
  {
    messageId in pins && pins[messageId]
  }

  /** Some pin row of the conversation names the message. */
  ghost predicate HasPin(table: set<PinRow>, messageId: string)
  {
    exists r :: r in table && r.groupId == GroupId && r.messageId == messageId
  }

  /** The table after the unpin delete (every pin of the message in the
      conversation, whoever made it) or the pin insert. */
  function AfterPinWrite(table: set<PinRow>, pinned: bool, messageId: string, userId: string): (after: set<PinRow>)
    ensures pinned ==> !HasPin(after, messageId)
    ensures !pinned ==> PinRow(GroupId, messageId, userId) in after && after - {PinRow(GroupId, messageId, userId)} == table - {PinRow(GroupId, messageId, userId)}
    ensures forall r: PinRow :: r.groupId != GroupId || r.messageId != messageId ==> (r in after <==> r in table)
  {
    if pinned then set r | r in table && !(r.groupId == GroupId && r.messageId == messageId)
    else table + {PinRow(GroupId, messageId, userId)}
  }

  /** The pin map's entry for the message agrees with the table. */
  ghost predicate PinSynced(pins: map<string, bool>, table: set<PinRow>, messageId: string)
  {
    IsPinned(pins, messageId) <==> HasPin(table, messageId)
  }

  /** With the map in step with the table, the toggle flips the message's
      pinned state and touches no pin of another message or conversation. */
  lemma PinToggleFlips(table: set<PinRow>, pins: map<string, bool>, messageId: string, userId: string)
    requires PinSynced(pins, table, messageId)
    ensures var after := AfterPinWrite(table, IsPinned(pins, messageId), messageId, userId);
      && (HasPin(after, messageId) <==> !HasPin(table, messageId))
      && forall r: PinRow :: r.groupId != GroupId || r.messageId != messageId ==> (r in after <==> r in table)
  {
    var after := AfterPinWrite(table, IsPinned(pins, messageId), messageId, userId);
    if !IsPinned(pins, messageId) {
      assert PinRow(GroupId, messageId, userId) in after;
    }
  }

  /** Pinning then unpinning a message that was not pinned gives back the
      table. Unpinning then pinning a pinned one leaves it pinned, by one
      row that names the current user, with every other pin unchanged. */
  lemma PinTwice(table: set<PinRow>, pins1: map<string, bool>, pins2: map<string, bool>, messageId: string, userId: string)
    requires PinSynced(pins1, table, messageId)
    requires PinSynced(pins2, AfterPinWrite(table, IsPinned(pins1, messageId), messageId, userId), messageId)
    ensures var once := AfterPinWrite(table, IsPinned(pins1, messageId), messageId, userId);
      var twice := AfterPinWrite(once, IsPinned(pins2, messageId), messageId, userId);
      && (!HasPin(table, messageId) ==> twice == table)
      && (HasPin(table, messageId) ==>
            && HasPin(twice, messageId)
            && (forall r :: r in twice && r.groupId == GroupId && r.messageId == messageId ==> r.pinnedBy == userId)
            && forall r: PinRow :: r.groupId != GroupId || r.messageId != messageId ==> (r in twice <==> r in table))
  {
    var once := AfterPinWrite(table, IsPinned(pins1, messageId), messageId, userId);
    PinToggleFlips(table, pins1, messageId, userId);
    PinToggleFlips(once, pins2, messageId, userId);
    var twice := AfterPinWrite(once, IsPinned(pins2, messageId), messageId, userId);
    if !HasPin(table, messageId) {
      assert forall r :: r in twice <==> r in table;
    }
  }

  /** The `forEach` loop that builds the pin map from the returned ids. */
  method BuildPinMap(ids: seq<string>) returns (pins: map<string, bool>)
    ensures forall k :: k in pins <==> k in ids
    ensures forall k :: k in pins ==> pins[k]
  {
    pins := map[];
    var i := 0;
    while i < |ids|
      invariant 0 <= i <= |ids|
      invariant forall k :: k in pins <==> k in ids[..i]
      invariant forall k :: k in pins ==> pins[k]
    {
      assert ids[..i + 1] == ids[..i] + [ids[i]];
      pins := pins[ids[i] := true];
      i := i + 1;
    }
    assert ids[..i] == ids;
  }

  // ---------------------------------------------------------------------
  // The backend and the component state

  /** The order in which a query returns a set of rows: every row once. */
  method Enumerate<T(==)>(s: set<T>) returns (xs: seq<T>)
    ensures forall x :: x in xs <==> x in s
    ensures forall i, j :: 0 <= i < j < |xs| ==> xs[i] != xs[j]
  {
    xs := [];
    var rest := s;
    while rest != {}
      invariant rest <= s
      invariant forall x :: x in xs <==> x in s && x !in rest
      invariant forall i, j :: 0 <= i < j < |xs| ==> xs[i] != xs[j]
      decreases rest
    {
      var x :| x in rest;
      xs := xs + [x];
      rest := rest - {x};
    }
  }

  /** The two tables of the hosted backend that the list reads and writes. */
  class Backend {
    var reactionRows: set<ReactionRow>
    var pinRows: set<PinRow>

    constructor (reactionRows: set<ReactionRow>, pinRows: set<PinRow>)
      ensures this.reactionRows == reactionRows && this.pinRows == pinRows
    {
      this.reactionRows := reactionRows;
      this.pinRows := pinRows;
    }

    /** `select message_id, user_id, emoji ... in('message_id', ids)`. */
    method SelectReactions(ids: set<string>) returns (rows: seq<ReactionRow>)
      ensures forall x :: x in rows <==> x in reactionRows && x.messageId in ids
      ensures forall i, j :: 0 <= i < j < |rows| ==> rows[i] != rows[j]
    {
      rows := Enumerate(set r | r in reactionRows && r.messageId in ids);
    }

    /** `select message_id ... in('message_id', ids).eq('group_id', GROUP_ID)`. */
    method SelectPins(ids: set<string>) returns (rows: seq<PinRow>)
      ensures forall x :: x in rows <==> x in pinRows && x.groupId == GroupId && x.messageId in ids
    {
      rows := Enumerate(set r | r in pinRows && r.groupId == GroupId && r.messageId in ids);
    }
  }

  /** The list's state: the reaction map and the pin map, for the signed-in
      user `userId` (absent when nobody is signed in). */
  class MessageListState {
    const userId: Option<string>
    const store: Backend
    var reactionsMap: map<string, seq<ReactionRow>>
    var pins: map<string, bool>

    /** Every list in the reaction map holds rows of its own message only. */
    ghost predicate Valid()
      reads this
    {
      forall k :: k in reactionsMap ==> forall j :: 0 <= j < |reactionsMap[k]| ==> reactionsMap[k][j].messageId == k
    }

    constructor (userId: Option<string>, store: Backend)
      ensures this.userId == userId && this.store == store
      ensures reactionsMap == map[] && pins == map[]
      ensures Valid()
    {
      this.userId := userId;
      this.store := store;
      reactionsMap := map[];
      pins := map[];
    }

    /** The effect that fetches the pins of the visible messages. Without
        messages, or when the query fails, the map is left as it was. */
    method LoadPins(messageIds: seq<string>, queryOk: bool)
      modifies this`pins
      ensures messageIds == [] || !queryOk ==> pins == old(pins)
      ensures messageIds != [] && queryOk ==>
        forall k :: IsPinned(pins, k) <==> k in messageIds && HasPin(store.pinRows, k)
      ensures messageIds != [] && queryOk ==> forall k :: k in pins ==> pins[k]
    {
      if messageIds == [] || !queryOk {
        return;
      }
      var rows := store.SelectPins(set k | k in messageIds);
      var ids := seq(|rows|, i requires 0 <= i < |rows| => rows[i].messageId);
      pins := BuildPinMap(ids);
      forall k | k in messageIds && HasPin(store.pinRows, k)
        ensures k in ids
      {
        var r :| r in store.pinRows && r.groupId == GroupId && r.messageId == k;
        assert r in rows;
        var i :| 0 <= i < |rows| && rows[i] == r;
        assert ids[i] == k;
      }
      forall k | k in ids
        ensures k in messageIds && HasPin(store.pinRows, k)
      {
        var i :| 0 <= i < |ids| && ids[i] == k;
        assert rows[i] in rows;
      }
    }

    /** `handlePin`: unpin when the map says pinned, pin otherwise, then read
        back only this message's pin state (false when the read fails). */
    method HandlePin(messageId: string, writeOk: bool, readOk: bool)
      modifies this`pins, store`pinRows
      ensures !SignedIn(userId) ==> pins == old(pins) && store.pinRows == old(store.pinRows)
      ensures SignedIn(userId) && writeOk ==>
        store.pinRows == AfterPinWrite(old(store.pinRows), IsPinned(old(pins), messageId), messageId, userId.value)
      ensures SignedIn(userId) && !writeOk ==> store.pinRows == old(store.pinRows)
      ensures SignedIn(userId) ==> pins == old(pins)[messageId := readOk && HasPin(store.pinRows, messageId)]
    {
      if !SignedIn(userId) {
        return;
      }
      var uid := userId.value;
      if writeOk {
        if IsPinned(pins, messageId) {
          store.pinRows := set r | r in store.pinRows && !(r.groupId == GroupId && r.messageId == messageId);
        } else {
          store.pinRows := store.pinRows + {PinRow(GroupId, messageId, uid)};
        }
      }
      var found := false;
      if readOk {
        var rows := store.SelectPins({messageId});
        found := |rows| > 0;
        if found {
          assert rows[0] in rows;
        }
        if HasPin(store.pinRows, messageId) {
          var r :| r in store.pinRows && r.groupId == GroupId && r.messageId == messageId;
          assert r in rows;
        }
      }
      pins := pins[messageId := found];
    }

    /** The effect that fetches the reactions of the visible messages and
        groups them. Without messages, or when the query fails, the map is
        left as it was. */
    method LoadReactions(messageIds: seq<string>, queryOk: bool)
      requires Valid()
      modifies this`reactionsMap
      ensures Valid()
      ensures messageIds == [] || !queryOk ==> reactionsMap == old(reactionsMap)
      ensures messageIds != [] && queryOk ==> forall k ::
        (k in reactionsMap <==> k in messageIds && exists r :: r in store.reactionRows && r.messageId == k)
      ensures messageIds != [] && queryOk ==> forall k ::
        k in reactionsMap ==> Synced(reactionsMap[k], store.reactionRows, k) && Distinct(reactionsMap[k])
    {
      if messageIds == [] || !queryOk {
        return;
      }
      var rows := store.SelectReactions(set k | k in messageIds);
      reactionsMap := GroupByMessage(rows);
      forall k | k in reactionsMap
        ensures forall j :: 0 <= j < |reactionsMap[k]| ==> reactionsMap[k][j].messageId == k
        ensures Synced(reactionsMap[k], store.reactionRows, k) && Distinct(reactionsMap[k])
      {
        GroupHoldsOnlyItsRows(rows, k);
        DistinctMultiset(rows);
        DistinctMultiset(reactionsMap[k]);
        FilterMembership(OfMessage(k), rows);
      }
      forall k | k in messageIds && exists r :: r in store.reactionRows && r.messageId == k
        ensures k in reactionsMap
      {
        var r :| r in store.reactionRows && r.messageId == k;
        assert r in rows;
      }
    }

    /** `handleReact`: delete the user's reaction when the map shows it,
        insert it otherwise, then read back this message's rows (none when
        the read fails). Only this message's entry of the map changes. */
    method HandleReact(messageId: string, emoji: string, writeOk: bool, readOk: bool)
      requires Valid()
      modifies this`reactionsMap, store`reactionRows
      ensures Valid()
      ensures !SignedIn(userId) ==> reactionsMap == old(reactionsMap) && store.reactionRows == old(store.reactionRows)
      ensures SignedIn(userId) ==>
        (AlreadyReacted(Get(old(reactionsMap), messageId), userId.value, emoji)
         <==> ReactionRow(messageId, userId.value, emoji) in Get(old(reactionsMap), messageId))
      ensures SignedIn(userId) && writeOk ==>
        store.reactionRows == AfterReactionWrite(old(store.reactionRows),
                                                 AlreadyReacted(Get(old(reactionsMap), messageId), userId.value, emoji),
                                                 ReactionRow(messageId, userId.value, emoji))
      ensures SignedIn(userId) && !writeOk ==> store.reactionRows == old(store.reactionRows)
      ensures SignedIn(userId) ==>
        messageId in reactionsMap && reactionsMap == old(reactionsMap)[messageId := reactionsMap[messageId]]
      ensures SignedIn(userId) && readOk ==>
        Synced(reactionsMap[messageId], store.reactionRows, messageId) && Distinct(reactionsMap[messageId])
      ensures SignedIn(userId) && !readOk ==> reactionsMap[messageId] == []
    {
      if !SignedIn(userId) {
        return;
      }
      var uid := userId.value;
      var row := ReactionRow(messageId, uid, emoji);
      AlreadyReactedIffListed(Get(reactionsMap, messageId), messageId, uid, emoji);
      if writeOk {
        var reactions := if messageId in reactionsMap then reactionsMap[messageId] else [];
        var reacted := exists i :: 0 <= i < |reactions| && reactions[i].userId == uid && reactions[i].emoji == emoji;
        if reacted {
          store.reactionRows := store.reactionRows - {row};
        } else {
          store.reactionRows := store.reactionRows + {row};
        }
      }
      var data: seq<ReactionRow> := [];
      if readOk {
        data := store.SelectReactions({messageId});
      }
      reactionsMap := reactionsMap[messageId := data];
    }
  }

  /** Two reaction taps on the same emoji of the same message, both reaching
      the backend, when the list starts in step with the table: the table
      ends as it began. */
  method ReactTwice(list: MessageListState, messageId: string, emoji: string)
    requires list.Valid() && SignedIn(list.userId)
    requires Synced(Get(list.reactionsMap, messageId), list.store.reactionRows, messageId)
    modifies list, list.store
    ensures list.store.reactionRows == old(list.store.reactionRows)
  {
    ghost var table := list.store.reactionRows;
    ghost var view1 := Get(list.reactionsMap, messageId);
    var row := ReactionRow(messageId, list.userId.value, emoji);
    list.HandleReact(messageId, emoji, true, true);
    ghost var view2 := Get(list.reactionsMap, messageId);
    list.HandleReact(messageId, emoji, true, true);
    ToggleTwiceRestores(table, view1, view2, row);
  }

  /** Pin then unpin a message nobody had pinned, every call reaching the
      backend: the table ends as it began and the message shows unpinned. */
  method PinThenUnpin(list: MessageListState, messageId: string)
    requires SignedIn(list.userId)
    requires !IsPinned(list.pins, messageId) && !HasPin(list.store.pinRows, messageId)
    modifies list, list.store
    ensures list.store.pinRows == old(list.store.pinRows)
    ensures !IsPinned(list.pins, messageId)
  {
    ghost var table := list.store.pinRows;
    ghost var pins1 := list.pins;
    list.HandlePin(messageId, true, true);
    ghost var pins2 := list.pins;
    list.HandlePin(messageId, true, true);
    PinTwice(table, pins1, pins2, messageId, list.userId.value);
  }
}
