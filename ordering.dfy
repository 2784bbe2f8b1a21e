/** The orderings of the two listing queries: `ORDER BY name` for clipboards
    and `ORDER BY pinned DESC, <key>` for messages, with the insertion step
    that builds a sorted result one row at a time. */
module Ordering {
  import opened Tables

  /** The secondary sort key of the message listing. */
  datatype SortKey = UpdatedDesc | CreatedAsc | CreatedDesc

  /** The key the `order` query parameter selects: "activity" sorts by
      `updated_at` descending, "asc" and "oldest" by `created_at` ascending,
      and every other value (the default "desc" included) by `created_at`
      descending. */
  function KeyFor(order: string): (k: SortKey)
    ensures k == UpdatedDesc <==> order == "activity"
    ensures k == CreatedAsc <==> order == "asc" || order == "oldest"
  {
    if order == "activity" then UpdatedDesc
    else if order == "asc" || order == "oldest" then CreatedAsc
    else CreatedDesc
  }

  /** "asc" and "oldest" are synonyms, and every unrecognised value behaves
      as "desc". */
  lemma OrderAliases(order: string)
    ensures KeyFor("asc") == KeyFor("oldest") == CreatedAsc
    ensures KeyFor("activity") == UpdatedDesc && KeyFor("desc") == CreatedDesc
    ensures order !in {"activity", "asc", "oldest"} ==> KeyFor(order) == KeyFor("desc")
  {
  }

  /** `a` may come before `b` under the secondary key alone. */
  predicate SecondaryFirst(key: SortKey, a: Message, b: Message) {
    match key
    case UpdatedDesc => a.updatedAt >= b.updatedAt
    case CreatedAsc => a.createdAt <= b.createdAt
    case CreatedDesc => a.createdAt >= b.createdAt
  }

  /** `a` may come before `b` under `pinned DESC, <key>`. */
  predicate MayPrecede(key: SortKey, a: Message, b: Message) {
    (a.pinned && !b.pinned) || (a.pinned == b.pinned && SecondaryFirst(key, a, b))
  }

  /** `pinned DESC, <key>` orders every pair of rows one way or the other,
      and consistently: it is a total preorder. */
  lemma MayPrecedeTotalPreorder(key: SortKey, a: Message, b: Message, c: Message)
    ensures MayPrecede(key, a, b) || MayPrecede(key, b, a)
    ensures MayPrecede(key, a, b) && MayPrecede(key, b, c) ==> MayPrecede(key, a, c)
  {
  }

  /** The rows are in `pinned DESC, <key>` order. */
  predicate SortedRows(key: SortKey, rows: seq<MessageRow>) {
    forall i, j :: 0 <= i < j < |rows| ==> MayPrecede(key, rows[i].msg, rows[j].msg)
  }

  /** Under every key, all pinned rows of a sorted result come before all
      unpinned ones. */
  lemma PinnedFirst(key: SortKey, rows: seq<MessageRow>)
    requires SortedRows(key, rows)
    ensures forall i, j :: 0 <= i < j < |rows| && rows[j].msg.pinned ==> rows[i].msg.pinned
  {
  }

  /** When `x` may not precede the head of a sorted sequence, the head may
      precede every row of any rearrangement of the tail with `x` added. */
  lemma HeadPrecedesInserted(
    key: SortKey, x: MessageRow, rows: seq<MessageRow>, tail: seq<MessageRow>)
    requires rows != [] && SortedRows(key, rows)
    requires !MayPrecede(key, x.msg, rows[0].msg)
    requires multiset(tail) == multiset(rows[1..]) + multiset{x}
    ensures forall j :: 0 <= j < |tail| ==> MayPrecede(key, rows[0].msg, tail[j].msg)
  {
    forall j | 0 <= j < |tail| ensures MayPrecede(key, rows[0].msg, tail[j].msg) {
      assert tail[j] in multiset(tail);
      if tail[j] != x {
        assert tail[j] in multiset(rows[1..]);
        var k :| 0 <= k < |rows[1..]| && rows[1..][k] == tail[j];
        assert rows[k + 1] == tail[j];
      }
    }
  }

  /** A row that may precede every row of a sorted sequence can be put in
      front of it. */
  lemma ConsSorted(key: SortKey, h: MessageRow, tail: seq<MessageRow>)
    requires SortedRows(key, tail)
    requires forall j :: 0 <= j < |tail| ==> MayPrecede(key, h.msg, tail[j].msg)
    ensures SortedRows(key, [h] + tail)
  {
    var r := [h] + tail;
    forall i, j | 0 <= i < j < |r| ensures MayPrecede(key, r[i].msg, r[j].msg) {
      if i > 0 {
        assert r[i] == tail[i - 1] && r[j] == tail[j - 1];
      }
    }
  }

  /** Inserts `x` into a sorted sequence of rows, before the first row it may
      precede. */
  function InsertRow(key: SortKey, x: MessageRow, rows: seq<MessageRow>): (r: seq<MessageRow>)
    ensures |r| == |rows| + 1
    ensures multiset(r) == multiset(rows) + multiset{x}
    ensures SortedRows(key, rows) ==> SortedRows(key, r)
  {
    if rows == [] then [x]
    else if MayPrecede(key, x.msg, rows[0].msg) then [x] + rows
    else
      var tail := InsertRow(key, x, rows[1..]);
      assert rows == [rows[0]] + rows[1..];
      assert SortedRows(key, rows) ==> SortedRows(key, [rows[0]] + tail) by {
        if SortedRows(key, rows) {
          HeadPrecedesInserted(key, x, rows, tail);
          ConsSorted(key, rows[0], tail);
        }
      }
      [rows[0]] + tail
  }

  /** Strict lexicographic order on strings by character code, which is the
      order SQLite's default BINARY collation gives UTF-8 text. */
  predicate LexLess(a: string, b: string) {
    if a == [] then b != []
    else if b == [] then false
    else if a[0] != b[0] then a[0] < b[0]
    else LexLess(a[1..], b[1..])
  }

  lemma {:induction false} LexLessIrreflexive(a: string)
    ensures !LexLess(a, a)
  {
    if a != [] {
      LexLessIrreflexive(a[1..]);
    }
  }

  lemma {:induction false} LexLessTransitive(a: string, b: string, c: string)
    requires LexLess(a, b) && LexLess(b, c)
    ensures LexLess(a, c)
  {
    if a != [] && b != [] && c != [] && a[0] == b[0] && b[0] == c[0] {
      LexLessTransitive(a[1..], b[1..], c[1..]);
    }
  }

  lemma {:induction false} LexLessTotal(a: string, b: string)
    requires a != b
    ensures LexLess(a, b) || LexLess(b, a)
  {
    if a != [] && b != [] && a[0] == b[0] {
      assert a == [a[0]] + a[1..] && b == [b[0]] + b[1..];
      LexLessTotal(a[1..], b[1..]);
    }
  }

  /** The clipboards are in strictly ascending name order. */
  predicate NamesAscending(rows: seq<ClipboardRow>) {
    forall i, j :: 0 <= i < j < |rows| ==> LexLess(rows[i].clipboard.name, rows[j].clipboard.name)
  }

  /** Inserts `x` into a name-sorted sequence of clipboards, before the
      first one whose name is greater. */
  function InsertByName(x: ClipboardRow, rows: seq<ClipboardRow>): (r: seq<ClipboardRow>)
    ensures |r| == |rows| + 1
    ensures multiset(r) == multiset(rows) + multiset{x}
  {
    if rows == [] then [x]
    else if LexLess(x.clipboard.name, rows[0].clipboard.name) then [x] + rows
    else
      assert rows == [rows[0]] + rows[1..];
      [rows[0]] + InsertByName(x, rows[1..])
  }

  /** Inserting a clipboard whose name no sorted row has keeps the rows in
      strictly ascending name order. */
  lemma {:induction false} InsertByNameSorted(x: ClipboardRow, rows: seq<ClipboardRow>)
    requires NamesAscending(rows)
    requires forall i :: 0 <= i < |rows| ==> rows[i].clipboard.name != x.clipboard.name
    ensures NamesAscending(InsertByName(x, rows))
  {
    var n := x.clipboard.name;
    if rows == [] {
    } else if LexLess(n, rows[0].clipboard.name) {
      forall j | 0 < j < |rows| ensures LexLess(n, rows[j].clipboard.name) {
        LexLessTransitive(n, rows[0].clipboard.name, rows[j].clipboard.name);
      }
    } else {
      var tail := InsertByName(x, rows[1..]);
      InsertByNameSorted(x, rows[1..]);
      LexLessTotal(n, rows[0].clipboard.name);
      forall j | 0 <= j < |tail| ensures LexLess(rows[0].clipboard.name, tail[j].clipboard.name) {
        assert tail[j] in multiset(tail);
        if tail[j] != x {
          assert tail[j] in multiset(rows[1..]);
          var k :| 0 <= k < |rows[1..]| && rows[1..][k] == tail[j];
          assert rows[k + 1] == tail[j];
        }
      }
      assert InsertByName(x, rows) == [rows[0]] + tail;
    }
  }

  /** Two sequences with the same elements and the same head have tails
      with the same elements. */
  lemma SameTailElements<T>(a: seq<T>, b: seq<T>)
    requires a != [] && b != [] && a[0] == b[0]
    requires multiset(a) == multiset(b)
    ensures multiset(a[1..]) == multiset(b[1..])
  {
    assert a == [a[0]] + a[1..] && b == [b[0]] + b[1..];
    assert multiset(a[1..]) == multiset(a) - multiset{a[0]};
    assert multiset(b[1..]) == multiset(b) - multiset{b[0]};
  }

  /** Of two strictly name-sorted sequences with the same elements, neither
      can start with a row the other has later. */
  lemma SameHead(a: seq<ClipboardRow>, b: seq<ClipboardRow>)
    requires NamesAscending(a) && NamesAscending(b)
    requires a != [] && b != [] && multiset(a) == multiset(b)
    ensures a[0] == b[0]
  {
    assert a[0] in multiset(b) && b[0] in multiset(a);
    var i :| 0 <= i < |b| && b[i] == a[0];
    var j :| 0 <= j < |a| && a[j] == b[0];
    if i != 0 && j != 0 {
      var n0, m0 := a[0].clipboard.name, b[0].clipboard.name;
      assert LexLess(n0, m0) by { assert a[j].clipboard.name == m0; }
      assert LexLess(m0, n0) by { assert b[i].clipboard.name == n0; }
      LexLessTransitive(n0, m0, n0);
      LexLessIrreflexive(n0);
      assert false;
    }
  }

  /** A strictly name-sorted listing is determined by its set of rows: the
      clipboard listing does not depend on the order the clipboards were
      created in. */
  lemma {:induction false} NamesAscendingUnique(a: seq<ClipboardRow>, b: seq<ClipboardRow>)
    requires NamesAscending(a) && NamesAscending(b)
    requires multiset(a) == multiset(b)
    ensures a == b
  {
    if a == [] || b == [] {
      assert |multiset(a)| == |a| && |multiset(b)| == |b|;
    } else {
      SameHead(a, b);
      SameTailElements(a, b);
      assert NamesAscending(a[1..]) && NamesAscending(b[1..]);
      NamesAscendingUnique(a[1..], b[1..]);
      assert a == [a[0]] + a[1..] && b == [b[0]] + b[1..];
    }
  }
}
