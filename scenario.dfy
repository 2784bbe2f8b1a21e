/** A client of the service: the end-to-end use in which a clipboard "work"
    is created, a text message is posted to it and listed, then pinned, and
    still listed first by activity after a newer unpinned message. */
module Scenario {
  import opened Wrappers
  import opened Tables
  import opened Ordering
  import opened Queries
  import opened Service

  /** The only message of a clipboard is the only row its filter selects. */
  lemma OneMatching(id: int, m: Message, work: int)
    requires m.clipboardId == work
    ensures MatchingRows(map[id := m], Some(work)) == {MessageRow(id, m)}
  {
    var msgs := map[id := m];
    assert id in msgs && msgs[id] == m && Matches(Some(work), m);
    assert MessageRow(id, m) in MatchingRows(msgs, Some(work));
  }

  /** Two messages of one clipboard are the two rows its filter selects. */
  lemma TwoMatching(a: int, ma: Message, b: int, mb: Message, work: int)
    requires a != b && ma.clipboardId == work && mb.clipboardId == work
    ensures MatchingRows(map[a := ma, b := mb], Some(work)) == {MessageRow(a, ma), MessageRow(b, mb)}
  {
    var msgs := map[a := ma, b := mb];
    assert a in msgs && msgs[a] == ma && Matches(Some(work), ma);
    assert b in msgs && msgs[b] == mb && Matches(Some(work), mb);
    assert MessageRow(a, ma) in MatchingRows(msgs, Some(work));
    assert MessageRow(b, mb) in MatchingRows(msgs, Some(work));
  }

  /** A listing holding exactly one row is that row. */
  lemma SingleListing(listed: seq<ListedMessage>, x: MessageRow)
    requires multiset(RowsOf(listed)) == multiset{x}
    ensures |listed| == 1 && listed[0].row == x
  {
    assert |RowsOf(listed)| == 1;
    assert RowsOf(listed)[0] in multiset(RowsOf(listed));
  }

  /** A sorted listing of one pinned and one unpinned row puts the pinned
      one first. */
  lemma PinnedListedFirst(key: SortKey, listed: seq<ListedMessage>, p: MessageRow, u: MessageRow)
    requires multiset(RowsOf(listed)) == multiset{p, u}
    requires SortedRows(key, RowsOf(listed))
    requires p.msg.pinned && !u.msg.pinned
    ensures |listed| == 2 && listed[0].row == p && listed[1].row == u
  {
    var rows := RowsOf(listed);
    assert |rows| == 2;
    assert rows[0] in multiset(rows) && rows[1] in multiset(rows);
    assert MayPrecede(key, rows[0].msg, rows[1].msg);
  }

  /** Creates clipboard "work" on a fresh database, posts "hello" to it and
      lists exactly that message. */
  method PostHello(t0: Timestamp) returns (store: Store, work: int, hello: int)
    ensures fresh(store) && store.Valid()
    ensures work in store.clipboards
    ensures store.messages == map[hello := Message(Some("hello"), None, work, t0 + 1, t0 + 1, false)]
  {
    store := new Store(t0);
    var created := store.CreateClipboard("work", t0);
    assert !NameTaken(map[MainClipboard := Clipboard("main", t0)], "work", None);
    work := MainClipboard + 1;
    assert work in store.clipboards;

    var posted := store.CreateMessage(Some("hello"), work, t0 + 1);
    hello := posted.value.row.id;
    var m := Message(Some("hello"), None, work, t0 + 1, t0 + 1, false);
    assert store.messages == map[hello := m];

    var listed := store.ListMessages(Some(work), "desc");
    OneMatching(hello, m, work);
    SingleListing(listed, MessageRow(hello, m));
    assert listed[0].row.msg.text == Some("hello");
    assert listed[0].row.msg.filename == None && !listed[0].row.msg.pinned;
  }

  /** Pins the clipboard's only message, posts a newer one, and shows the
      activity listing with the pinned message first. */
  method PinnedStaysFirst(store: Store, work: int, hello: int, t0: Timestamp)
    requires store.Valid() && work in store.clipboards
    requires store.messages == map[hello := Message(Some("hello"), None, work, t0 + 1, t0 + 1, false)]
    modifies store
  {
    var m := store.messages[hello];
    store.PinMessage(hello, true, t0 + 2);
    var later := store.CreateMessage(Some("later"), work, t0 + 3);
    var next := later.value.row.id;
    var byActivity := store.ListMessages(Some(work), "activity");
    var pinnedRow := MessageRow(hello, m.(pinned := true, updatedAt := t0 + 2));
    var laterRow := MessageRow(next, Message(Some("later"), None, work, t0 + 3, t0 + 3, false));
    assert store.messages == map[hello := pinnedRow.msg, next := laterRow.msg];
    TwoMatching(hello, pinnedRow.msg, next, laterRow.msg, work);
    PinnedListedFirst(KeyFor("activity"), byActivity, pinnedRow, laterRow);
    assert byActivity[0].row.id == hello;
  }

  method WorkClipboardScenario(t0: Timestamp) {
    var store, work, hello := PostHello(t0);
    PinnedStaysFirst(store, work, hello, t0);
  }
}
