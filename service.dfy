/** The clipboard service's persistent state and the operations of its HTTP
    handlers: the `clipboards` and `messages` tables (SQLite with foreign keys
    enforced), their AUTOINCREMENT counters, and the attachments directory. */
module Service {
  import opened Wrappers
  import opened Tables
  import opened Naming
  import opened Ordering
  import opened Queries

  /** The failures the handlers signal. */
  datatype Error =
    | DuplicateName        // UNIQUE(name) violated on insert or rename
    | ProtectedClipboard   // attempt to delete clipboard 1
    | MissingClipboard     // FOREIGN KEY(clipboard_id) violated
    | MessageNotFound      // update of an absent message (`dict(None)` raises)
    | EmptyBody            // direct upload with an empty body

  /** The id of the clipboard seeded at startup. */
  const MainClipboard := 1

  class Store {
    var clipboards: map<int, Clipboard>
    var messages: map<int, Message>
    /** The attachments directory: file name to byte length. */
    var attachments: map<string, nat>
    /** The next AUTOINCREMENT id of each table. */
    var nextClipboardId: int
    var nextMessageId: int
    /** Every id each table has ever handed out. */
    ghost var issuedClipboardIds: set<int>
    ghost var issuedMessageIds: set<int>

    ghost predicate Valid()
      reads this
    {
      && MainClipboard in clipboards
      && UniqueNames(clipboards)
      && (forall id :: id in messages ==> messages[id].clipboardId in clipboards)
      && clipboards.Keys <= issuedClipboardIds
      && messages.Keys <= issuedMessageIds
      && (forall id :: id in issuedClipboardIds ==> id < nextClipboardId)
      && (forall id :: id in issuedMessageIds ==> id < nextMessageId)
    }

    /** A fresh database after startup: only clipboard 1, "main". */
    constructor (now: Timestamp)
      ensures Valid()
      ensures clipboards == map[MainClipboard := Clipboard("main", now)]
      ensures messages == map[] && attachments == map[]
      ensures nextClipboardId == MainClipboard + 1 && nextMessageId == 1
      ensures issuedClipboardIds == {MainClipboard} && issuedMessageIds == {}
    {
      clipboards := map[MainClipboard := Clipboard("main", now)];
      messages := map[];
      attachments := map[];
      nextClipboardId := MainClipboard + 1;
      nextMessageId := 1;
      issuedClipboardIds := {MainClipboard};
      issuedMessageIds := {};
    }

    /** `SELECT * FROM clipboards ORDER BY name`. */
    method ListClipboards() returns (rows: seq<ClipboardRow>)
      requires UniqueNames(clipboards)
      ensures multiset(rows) == multiset(AllClipboards(clipboards))
      ensures NamesAscending(rows)
    {
      var table := clipboards;
      var remaining := table.Keys;
      ghost var done: set<int> := {};
      rows := [];
      while remaining != {}
        invariant remaining <= table.Keys
        invariant done == table.Keys - remaining
        invariant ListsClipboards(table, done, rows)
        decreases remaining
      {
        SomeMember(remaining);
        var id :| id in remaining;
        InsertClipboardStep(table, done, rows, id);
        rows := InsertByName(ClipboardRow(id, table[id]), rows);
        remaining := remaining - {id};
        done := done + {id};
      }
    }

    /** `SELECT * FROM messages [WHERE clipboard_id = ?] ORDER BY pinned DESC,
        <key>`: a permutation of the matching rows, in the order `order`
        selects; rows that tie on the sort key come in no promised order. */
    method SelectMessages(filter: Option<int>, order: string) returns (rows: seq<MessageRow>)
      ensures multiset(rows) == multiset(MatchingRows(messages, filter))
      ensures SortedRows(KeyFor(order), rows)
    {
      var key := KeyFor(order);
      var table := messages;
      var remaining := table.Keys;
      ghost var done: set<int> := {};
      rows := [];
      while remaining != {}
        invariant remaining <= table.Keys
        invariant done == table.Keys - remaining
        invariant ListsMessages(table, done, filter, key, rows)
        decreases remaining
      {
        SomeMember(remaining);
        var id :| id in remaining;
        VisitMessageStep(table, done, filter, key, rows, id);
        if Matches(filter, table[id]) {
          rows := InsertRow(key, MessageRow(id, table[id]), rows);
        }
        remaining := remaining - {id};
        done := done + {id};
      }
    }

    /** `GET /api/messages`: the selected rows, each with its derived
        `original_filename` and `file_size`. */
    method ListMessages(filter: Option<int>, order: string) returns (result: seq<ListedMessage>)
      ensures multiset(RowsOf(result)) == multiset(MatchingRows(messages, filter))
      ensures SortedRows(KeyFor(order), RowsOf(result))
      ensures forall i, j :: 0 <= i < j < |result| && result[j].row.msg.pinned ==>
        result[i].row.msg.pinned
      ensures forall i :: 0 <= i < |result| ==>
        && result[i].originalFilename == DisplayName(result[i].row.msg.filename)
        && result[i].fileSize == FileSize(result[i].row.msg.filename, attachments)
    {
      var rows := SelectMessages(filter, order);
      result := [];
      for i := 0 to |rows|
        invariant |result| == i
        invariant forall k :: 0 <= k < i ==> result[k] == Listed(rows[k], attachments)
      {
        result := result + [Listed(rows[i], attachments)];
      }
      assert RowsOf(result) == rows;
      PinnedFirst(KeyFor(order), rows);
    }

    /** `POST /api/clipboards`: a new clipboard with a fresh id, unless the
        name is taken (UNIQUE constraint), in which case nothing changes. */
    method CreateClipboard(name: string, now: Timestamp) returns (r: Outcome<Error>)
      requires Valid()
      modifies this
      ensures Valid()
      ensures NameTaken(old(clipboards), name, None) ==> r == Fail(DuplicateName) && unchanged(this)
      ensures !NameTaken(old(clipboards), name, None) ==>
        && r == Pass
        && old(nextClipboardId) !in old(issuedClipboardIds)
        && clipboards == old(clipboards)[old(nextClipboardId) := Clipboard(name, now)]
        && nextClipboardId == old(nextClipboardId) + 1
        && issuedClipboardIds == old(issuedClipboardIds) + {old(nextClipboardId)}
        && messages == old(messages) && attachments == old(attachments)
        && nextMessageId == old(nextMessageId) && issuedMessageIds == old(issuedMessageIds)
    {
      if NameTaken(clipboards, name, None) {
        return Fail(DuplicateName);
      }
      var id := nextClipboardId;
      clipboards := clipboards[id := Clipboard(name, now)];
      nextClipboardId := id + 1;
      issuedClipboardIds := issuedClipboardIds + {id};
      r := Pass;
    }

    /** `PUT /api/clipboards/{id}`: renames the clipboard. An absent id is a
        successful no-op; a name another clipboard has fails the UNIQUE
        constraint and changes nothing. */
    method RenameClipboard(id: int, name: string) returns (r: Outcome<Error>)
      requires Valid()
      modifies this
      ensures Valid()
      ensures id !in old(clipboards) ==> r == Pass && unchanged(this)
      ensures id in old(clipboards) && NameTaken(old(clipboards), name, Some(id)) ==>
        r == Fail(DuplicateName) && unchanged(this)
      ensures id in old(clipboards) && !NameTaken(old(clipboards), name, Some(id)) ==>
        && r == Pass
        && clipboards == old(clipboards)[id := old(clipboards)[id].(name := name)]
        && messages == old(messages) && attachments == old(attachments)
        && nextClipboardId == old(nextClipboardId) && nextMessageId == old(nextMessageId)
        && issuedClipboardIds == old(issuedClipboardIds) && issuedMessageIds == old(issuedMessageIds)
    {
      if id !in clipboards {
        return Pass;
      }
      if NameTaken(clipboards, name, Some(id)) {
        return Fail(DuplicateName);
      }
      clipboards := clipboards[id := clipboards[id].(name := name)];
      r := Pass;
    }

    /** `DELETE /api/clipboards/{id}`: refused for clipboard 1; otherwise
        deletes the clipboard's messages, then the clipboard. Attachments are
        left on disk. */
    method DeleteClipboard(id: int) returns (r: Outcome<Error>)
      requires Valid()
      modifies this
      ensures Valid()
      ensures id == MainClipboard ==> r == Fail(ProtectedClipboard) && unchanged(this)
      ensures id != MainClipboard ==>
        && r == Pass
        && clipboards == old(clipboards) - {id}
        && messages == (map m | m in old(messages) && old(messages)[m].clipboardId != id :: old(messages)[m])
        && attachments == old(attachments)
        && nextClipboardId == old(nextClipboardId) && nextMessageId == old(nextMessageId)
        && issuedClipboardIds == old(issuedClipboardIds) && issuedMessageIds == old(issuedMessageIds)
    {
      if id == MainClipboard {
        return Fail(ProtectedClipboard);
      }
      messages := map m | m in messages && messages[m].clipboardId != id :: messages[m];
      clipboards := clipboards - {id};
      r := Pass;
    }

    /** The `INSERT INTO messages` all three create handlers end with: a fresh
        AUTOINCREMENT id, unless the row's clipboard does not exist, in which
        case the foreign key fails and the table is unchanged. */
    method InsertMessage(m: Message) returns (r: Result<int, Error>)
      requires Valid()
      modifies this
      ensures Valid()
      ensures m.clipboardId !in old(clipboards) ==> r == Err(MissingClipboard) && unchanged(this)
      ensures m.clipboardId in old(clipboards) ==>
        && r == Ok(old(nextMessageId))
        && r.value !in old(issuedMessageIds)
        && messages == old(messages)[r.value := m]
        && nextMessageId == old(nextMessageId) + 1
        && issuedMessageIds == old(issuedMessageIds) + {r.value}
        && clipboards == old(clipboards) && attachments == old(attachments)
        && nextClipboardId == old(nextClipboardId) && issuedClipboardIds == old(issuedClipboardIds)
    {
      if m.clipboardId !in clipboards {
        return Err(MissingClipboard);
      }
      var id := nextMessageId;
      messages := messages[id := m];
      nextMessageId := id + 1;
      issuedMessageIds := issuedMessageIds + {id};
      r := Ok(id);
    }

    /** `POST /api/messages`: a text message (the text may be NULL) with no
        file, not pinned, both timestamps `now`. */
    method CreateMessage(text: Option<string>, clipboardId: int, now: Timestamp)
      returns (r: Result<ListedMessage, Error>)
      requires Valid()
      modifies this
      ensures Valid()
      ensures clipboardId !in old(clipboards) ==> r == Err(MissingClipboard) && unchanged(this)
      ensures clipboardId in old(clipboards) ==>
        var id := old(nextMessageId);
        var m := Message(text, None, clipboardId, now, now, false);
        && id !in old(issuedMessageIds)
        && r == Ok(ListedMessage(MessageRow(id, m), None, None))
        && messages == old(messages)[id := m]
        && nextMessageId == id + 1 && issuedMessageIds == old(issuedMessageIds) + {id}
        && clipboards == old(clipboards) && attachments == old(attachments)
        && nextClipboardId == old(nextClipboardId) && issuedClipboardIds == old(issuedClipboardIds)
    {
      var m := Message(text, None, clipboardId, now, now, false);
      var inserted := InsertMessage(m);
      if inserted.Err? {
        return Err(inserted.error);
      }
      r := Ok(ListedMessage(MessageRow(inserted.value, m), None, None));
    }

    /** `PUT /api/messages/{id}`: sets the text and `updated_at` and returns
        the row; on an absent id nothing changes and the handler fails. */
    method UpdateMessage(id: int, text: string, now: Timestamp) returns (r: Result<MessageRow, Error>)
      requires Valid()
      modifies this
      ensures Valid()
      ensures id !in old(messages) ==> r == Err(MessageNotFound) && unchanged(this)
      ensures id in old(messages) ==>
        var m := old(messages)[id].(text := Some(text), updatedAt := now);
        && r == Ok(MessageRow(id, m))
        && messages == old(messages)[id := m]
        && clipboards == old(clipboards) && attachments == old(attachments)
        && nextClipboardId == old(nextClipboardId) && nextMessageId == old(nextMessageId)
        && issuedClipboardIds == old(issuedClipboardIds) && issuedMessageIds == old(issuedMessageIds)
    {
      if id !in messages {
        return Err(MessageNotFound);
      }
      var m := messages[id].(text := Some(text), updatedAt := now);
      messages := messages[id := m];
      r := Ok(MessageRow(id, m));
    }

    /** `POST /api/messages/{id}/pin`: sets `pinned` and refreshes
        `updated_at`; an absent id is a no-op. */
    method PinMessage(id: int, pinned: bool, now: Timestamp)
      requires Valid()
      modifies this
      ensures Valid()
      ensures id !in old(messages) ==> unchanged(this)
      ensures id in old(messages) ==>
        && messages == old(messages)[id := old(messages)[id].(pinned := pinned, updatedAt := now)]
        && clipboards == old(clipboards) && attachments == old(attachments)
        && nextClipboardId == old(nextClipboardId) && nextMessageId == old(nextMessageId)
        && issuedClipboardIds == old(issuedClipboardIds) && issuedMessageIds == old(issuedMessageIds)
    {
      if id in messages {
        messages := messages[id := messages[id].(pinned := pinned, updatedAt := now)];
      }
    }

    /** `POST /api/messages/{id}/move`: sets `clipboard_id` and refreshes
        `updated_at`. An absent message id is a no-op; a target clipboard that
        does not exist fails the foreign key and changes nothing. */
    method MoveMessage(id: int, clipboardId: int, now: Timestamp) returns (r: Outcome<Error>)
      requires Valid()
      modifies this
      ensures Valid()
      ensures id !in old(messages) ==> r == Pass && unchanged(this)
      ensures id in old(messages) && clipboardId !in old(clipboards) ==>
        r == Fail(MissingClipboard) && unchanged(this)
      ensures id in old(messages) && clipboardId in old(clipboards) ==>
        && r == Pass
        && messages == old(messages)[id := old(messages)[id].(clipboardId := clipboardId, updatedAt := now)]
        && clipboards == old(clipboards) && attachments == old(attachments)
        && nextClipboardId == old(nextClipboardId) && nextMessageId == old(nextMessageId)
        && issuedClipboardIds == old(issuedClipboardIds) && issuedMessageIds == old(issuedMessageIds)
    {
      if id !in messages {
        return Pass;
      }
      if clipboardId !in clipboards {
        return Fail(MissingClipboard);
      }
      messages := messages[id := messages[id].(clipboardId := clipboardId, updatedAt := now)];
      r := Pass;
    }

    /** `DELETE /api/messages/{id}`: removes the row (if any) and leaves its
        attachment on disk. */
    method DeleteMessage(id: int)
      requires Valid()
      modifies this
      ensures Valid()
      ensures messages == old(messages) - {id}
      ensures clipboards == old(clipboards) && attachments == old(attachments)
      ensures nextClipboardId == old(nextClipboardId) && nextMessageId == old(nextMessageId)
      ensures issuedClipboardIds == old(issuedClipboardIds) && issuedMessageIds == old(issuedMessageIds)
    {
      messages := messages - {id};
    }

    /** `POST /api/messages/file`: writes the upload as `{token}_{basename}`,
        then inserts a row with that filename and the text (or ""). The file is
        written before the insert, so a missing clipboard leaves it behind. */
    method CreateMessageFile(
      content: Bytes, text: Option<string>, clipboardId: int,
      xFilename: Option<string>, uploadName: string, token: string, now: Timestamp)
      returns (r: Result<ListedMessage, Error>)
      requires Valid()
      requires IsHexToken(token)
      modifies this
      ensures Valid()
      ensures var original := MultipartOriginalName(xFilename, uploadName);
        var filename := MultipartStoredName(token, original);
        && attachments == old(attachments)[filename := |content|]
        && clipboards == old(clipboards)
        && nextClipboardId == old(nextClipboardId) && issuedClipboardIds == old(issuedClipboardIds)
        && (clipboardId !in old(clipboards) ==>
              && r == Err(MissingClipboard) && messages == old(messages)
              && nextMessageId == old(nextMessageId) && issuedMessageIds == old(issuedMessageIds))
        && (clipboardId in old(clipboards) ==>
              var id := old(nextMessageId);
              var m := Message(Some(if text.Some? then text.value else ""), Some(filename),
                               clipboardId, now, now, false);
              && nextMessageId == id + 1 && issuedMessageIds == old(issuedMessageIds) + {id}
              && id !in old(issuedMessageIds)
              && messages == old(messages)[id := m]
              && r == Ok(ListedMessage(MessageRow(id, m), Some(original), Some(|content|))))
      ensures r.Ok? ==>
        && r.value.originalFilename == DisplayName(r.value.row.msg.filename)
        && r.value.fileSize == FileSize(r.value.row.msg.filename, attachments)
    {
      var body := if text.Some? then text.value else "";
      var original := MultipartOriginalName(xFilename, uploadName);
      var filename := MultipartStoredName(token, original);
      attachments := attachments[filename := |content|];
      var m := Message(Some(body), Some(filename), clipboardId, now, now, false);
      var inserted := InsertMessage(m);
      if inserted.Err? {
        return Err(inserted.error);
      }
      UploadListed(token, xFilename, uploadName, |content|, old(attachments));
      r := Ok(ListedMessage(MessageRow(inserted.value, m), Some(original), Some(|content|)));
    }

    /** `POST /api/messages/file-direct/{clipboard_id}`: an empty body is
        refused before anything is written; otherwise the body is written
        under the direct-upload name, then a row with empty text is inserted.
        Returns the new message's id. */
    method CreateMessageFileDirect(
      clipboardId: int, content: Bytes, contentType: string, xFilename: Option<string>,
      token: string, guess: string -> Option<string>, now: Timestamp)
      returns (r: Result<int, Error>)
      requires Valid()
      requires IsHexToken(token)
      modifies this
      ensures Valid()
      ensures content == [] ==> r == Err(EmptyBody) && unchanged(this)
      ensures content != [] ==>
        var filename := DirectStoredName(token, xFilename, contentType, guess);
        && attachments == old(attachments)[filename := |content|]
        && clipboards == old(clipboards)
        && nextClipboardId == old(nextClipboardId) && issuedClipboardIds == old(issuedClipboardIds)
        && (clipboardId !in old(clipboards) ==>
              && r == Err(MissingClipboard) && messages == old(messages)
              && nextMessageId == old(nextMessageId) && issuedMessageIds == old(issuedMessageIds))
        && (clipboardId in old(clipboards) ==>
              && r == Ok(old(nextMessageId))
              && nextMessageId == r.value + 1 && issuedMessageIds == old(issuedMessageIds) + {r.value}
              && r.value !in old(issuedMessageIds)
              && messages == old(messages)[r.value :=
                   Message(Some(""), Some(filename), clipboardId, now, now, false)])
    {
      if content == [] {
        return Err(EmptyBody);
      }
      var filename := DirectStoredName(token, xFilename, contentType, guess);
      attachments := attachments[filename := |content|];
      r := InsertMessage(Message(Some(""), Some(filename), clipboardId, now, now, false));
    }
  }
}
