/** What the two listing queries select, and the table-level facts the
    service's invariant is made of. */
module Queries {
  import opened Wrappers
  import opened Tables
  import opened Naming
  import opened Ordering

  /** Some clipboard other than `except` is called `name`. */
  predicate NameTaken(clipboards: map<int, Clipboard>, name: string, except: Option<int>) {
    exists id :: id in clipboards && Some(id) != except && clipboards[id].name == name
  }

  /** No two clipboards share a name. */
  ghost predicate UniqueNames(clipboards: map<int, Clipboard>) {
    forall a, b :: a in clipboards && b in clipboards && a != b ==>
      clipboards[a].name != clipboards[b].name
  }

  /** The `WHERE clipboard_id = ?` filter, or none. */
  predicate Matches(filter: Option<int>, m: Message) {
    filter.None? || m.clipboardId == filter.value
  }

  /** A non-empty set of ids has a member. */
  lemma SomeMember(s: set<int>)
    requires s != {}
    ensures exists x :: x in s
  {
    assert (forall x :: x !in s) ==> s == {};
  }

  /** The rows of `messages` whose id is in `ids` and that pass the filter. */
  ghost function RowsWhere(messages: map<int, Message>, ids: set<int>, filter: Option<int>): (rows: set<MessageRow>) {
    set id | id in ids && id in messages && Matches(filter, messages[id]) :: MessageRow(id, messages[id])
  }

  /** The rows of `messages` that pass the filter. */
  ghost function MatchingRows(messages: map<int, Message>, filter: Option<int>): (rows: set<MessageRow>) {
    RowsWhere(messages, messages.Keys, filter)
  }

  /** Adding one present id to the selection adds its row exactly when it
      passes the filter. */
  lemma RowsWhereAdd(messages: map<int, Message>, ids: set<int>, filter: Option<int>, id: int)
    requires id in messages && id !in ids
    ensures var row := MessageRow(id, messages[id]);
      && row !in RowsWhere(messages, ids, filter)
      && RowsWhere(messages, ids + {id}, filter)
         == RowsWhere(messages, ids, filter) + (if Matches(filter, messages[id]) then {row} else {})
  {
  }

  /** `rows` lists the messages with ids in `done` that pass the filter, in
      `key` order. */
  ghost predicate ListsMessages(
    messages: map<int, Message>, done: set<int>, filter: Option<int>, key: SortKey, rows: seq<MessageRow>)
  {
    multiset(rows) == multiset(RowsWhere(messages, done, filter)) && SortedRows(key, rows)
  }

  /** One step of the message query: visiting a not yet visited row inserts it
      into sorted position when it passes the filter, and skips it otherwise. */
  lemma VisitMessageStep(
    messages: map<int, Message>, done: set<int>, filter: Option<int>, key: SortKey,
    rows: seq<MessageRow>, id: int)
    requires id in messages && id !in done
    requires ListsMessages(messages, done, filter, key, rows)
    ensures var row := MessageRow(id, messages[id]);
      ListsMessages(messages, done + {id}, filter, key,
        if Matches(filter, messages[id]) then InsertRow(key, row, rows) else rows)
  {
    RowsWhereAdd(messages, done, filter, id);
  }

  /** The rows of `clipboards` whose id is in `ids`. */
  ghost function ClipboardsWhere(clipboards: map<int, Clipboard>, ids: set<int>): (rows: set<ClipboardRow>) {
    set id | id in ids && id in clipboards :: ClipboardRow(id, clipboards[id])
  }

  /** The rows of `clipboards`. */
  ghost function AllClipboards(clipboards: map<int, Clipboard>): (rows: set<ClipboardRow>) {
    ClipboardsWhere(clipboards, clipboards.Keys)
  }

  /** Adding one present id to the selection adds exactly its row. */
  lemma ClipboardsWhereAdd(clipboards: map<int, Clipboard>, ids: set<int>, id: int)
    requires id in clipboards && id !in ids
    ensures ClipboardsWhere(clipboards, ids + {id})
      == ClipboardsWhere(clipboards, ids) + {ClipboardRow(id, clipboards[id])}
    ensures ClipboardRow(id, clipboards[id]) !in ClipboardsWhere(clipboards, ids)
  {
  }

  /** `rows` lists the clipboards with ids in `done`, in name order. */
  ghost predicate ListsClipboards(clipboards: map<int, Clipboard>, done: set<int>, rows: seq<ClipboardRow>) {
    multiset(rows) == multiset(ClipboardsWhere(clipboards, done)) && NamesAscending(rows)
  }

  /** One step of the clipboard listing: inserting a not yet listed row keeps
      the listing a name-sorted permutation of the rows listed so far. */
  lemma InsertClipboardStep(
    clipboards: map<int, Clipboard>, done: set<int>, rows: seq<ClipboardRow>, id: int)
    requires UniqueNames(clipboards)
    requires id in clipboards && id !in done
    requires ListsClipboards(clipboards, done, rows)
    ensures ListsClipboards(clipboards, done + {id}, InsertByName(ClipboardRow(id, clipboards[id]), rows))
  {
    var row := ClipboardRow(id, clipboards[id]);
    forall i | 0 <= i < |rows| ensures rows[i].clipboard.name != row.clipboard.name {
      assert rows[i] in multiset(rows);
      assert rows[i] in ClipboardsWhere(clipboards, done);
    }
    InsertByNameSorted(row, rows);
    ClipboardsWhereAdd(clipboards, done, id);
  }

  /** `file_size`: the attachment's length if a non-empty filename names a
      file that exists, else absent. */
  function FileSize(filename: Option<string>, attachments: map<string, nat>): (r: Option<nat>)
    ensures r.Some? <==> filename.Some? && filename.value != "" && filename.value in attachments
    ensures r.Some? ==> r.value == attachments[filename.value]
  {
    if filename.Some? && filename.value != "" && filename.value in attachments
    then Some(attachments[filename.value])
    else None
  }

  /** A multipart upload just written under its stored name is listed with
      its original name and the size written. */
  lemma UploadListed(
    token: string, xFilename: Option<string>, uploadName: string,
    size: nat, attachments: map<string, nat>)
    requires IsHexToken(token)
    ensures var original := MultipartOriginalName(xFilename, uploadName);
      var filename := MultipartStoredName(token, original);
      && DisplayName(Some(filename)) == Some(original)
      && FileSize(Some(filename), attachments[filename := size]) == Some(size)
  {
    HexTokenIsPlain(token);
    MultipartNameRoundTrip(token, xFilename, uploadName);
  }

  /** A row with the derived fields the listing adds. */
  function Listed(row: MessageRow, attachments: map<string, nat>): (r: ListedMessage)
    ensures r.row == row
    ensures var f := row.msg.filename;
      && (r.originalFilename.None? <==> f.None? || f.value == "")
      && (r.fileSize.Some? <==> f.Some? && f.value != "" && f.value in attachments)
      && (r.originalFilename.Some? ==> r.originalFilename.value == AfterFirstUnderscore(f.value))
      && (r.fileSize.Some? ==> r.originalFilename.Some? && r.fileSize.value == attachments[f.value])
  {
    ListedMessage(row, DisplayName(row.msg.filename), FileSize(row.msg.filename, attachments))
  }

  /** The rows underlying a listing. */
  function RowsOf(listed: seq<ListedMessage>): (rows: seq<MessageRow>)
    ensures |rows| == |listed|
    ensures forall i :: 0 <= i < |listed| ==> rows[i] == listed[i].row
  {
    seq(|listed|, i requires 0 <= i < |listed| => listed[i].row)
  }
}
