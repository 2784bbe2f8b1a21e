# DropMind clipboard service — a Dafny model

DropMind keeps short text snippets and file attachments in named
"clipboards". Its backend (`backend/main.py`) is one FastAPI application over
SQLite and a directory of attachment files. This project models the core of
that backend in Dafny and proves properties of the model:

- **The store** (`service.dfy`, class `Service.Store`). It holds the
  `clipboards` and `messages` tables as maps from id to row, one
  AUTOINCREMENT counter per table, and the attachments directory as a map
  from file name to byte length. Every HTTP handler that writes is a method
  whose postcondition gives the whole new state. `Valid()` is the invariant
  every method keeps:
  - clipboard 1 exists;
  - clipboard names are unique (the `UNIQUE` constraint);
  - every message's `clipboard_id` names an existing clipboard (foreign keys
    are switched on);
  - every id is below its table's counter, so a new id has never been handed
    out before.
- **The listing queries** (`Service.Store.ListClipboards`,
  `Service.Store.SelectMessages`, `Service.Store.ListMessages`). These read
  the store and change nothing. Each one loops over the table and inserts
  every matching row into sorted position (`ordering.dfy`). Each is proved to
  return a permutation of the matching rows, in the order the query asks for.
  `ListMessages` also adds the derived `original_filename` and `file_size`
  fields.
- **Attachment naming** (`naming.dfy`). These are pure functions:
  - POSIX `os.path.basename` and `os.path.splitext`;
  - the `.jpe` → `.jpg` fix on the guessed extension;
  - the stored-name shapes `{token}_{name}` and `{token}{ext}`;
  - the first-underscore display-name rule.

  Lemmas prove that the display name recovers the original name from the
  stored name.

Things the model takes as parameters:
- the clock: a `now: Timestamp` argument, an integer;
- `uuid.uuid4().hex`: a `token` argument that must be 32 lower-case hex
  digits;
- `mimetypes.guess_extension`: an arbitrary function
  `guess: string -> Option<string>`;
- uploaded bytes: a `Bytes` argument, of which only the length is kept.

`scenario.dfy` is a client method that walks through one use of the service:
- create clipboard "work";
- post "hello" to it and list exactly that message;
- pin it, post a newer unpinned message, and list by activity with the
  pinned one first.

## Model

| member | source | states |
|---|---|---|
| `Naming.Basename` | backend/main.py:380 | The result has no '/'. It is the suffix of the path after its last '/'. A path with no '/' is returned unchanged. |
| `Naming.SplitExt` | backend/main.py:445 | base + ext is the input. Either ext is empty, or it is '.' followed by text with no '.' or '/'. ext is non-empty exactly when the last path component has a non-dot character before its last dot, so leading-dot names such as ".bashrc" have no extension. |
| `Naming.NormalizeExt` | backend/main.py:448-450 | The result is never ".jpe". ".jpe" becomes ".jpg". No guess becomes "". Any other guess is kept. |
| `Naming.GuessExt` | backend/main.py:455-457 | The extension guessed from a content type is never ".jpe". |
| `Naming.AfterFirstUnderscore` | backend/main.py:263-267 | A string with no '_' is returned whole. Otherwise the result is the text after the first '_'. |
| `Naming.DisplayName` | backend/main.py:262-269 | `original_filename` is absent exactly when the filename is NULL or empty. Otherwise it is the text after the first '_', or the whole filename when it has no '_'. |
| `Naming.HexTokenIsPlain` | backend/main.py:382 | A `uuid4().hex` token contains no '_', '/' or '.'. |
| `Naming.DisplayNameRoundTrip` | backend/main.py:383 | For a token without '_', the display name of token + "_" + n is n. |
| `Naming.MultipartOriginalName` | backend/main.py:379-380 | The original name is the basename of `X-Filename` when that header is set and non-empty, and of the upload's own filename otherwise. It has no '/'. |
| `Naming.MultipartStoredName` | backend/main.py:383 | The stored name is the token, followed by '_' and then the original name, so the token, the separator and the original name can each be read back by position. |
| `Naming.MultipartNameRoundTrip` | backend/main.py:379-383 | The multipart stored name `{token}_{original}` displays as the original name and has no '/'. |
| `Naming.DirectStoredName` | backend/main.py:454-459 | Without `X-Filename`, the stored name is the token followed by the normalised guessed extension. |
| `Naming.DirectNameWithHeader` | backend/main.py:443-452 | With a non-empty `X-Filename`, the stored name is token + "_" + basename(header), followed by the guessed extension only when the basename has none. So base + ext is the basename whenever ext came from splitext. |
| `Naming.DirectNameDisplay` | backend/main.py:443-452 | The display name of a direct upload with `X-Filename` is the header's basename, plus the guessed extension when the basename had none. |
| `Naming.JpegUploadGetsJpg` | backend/main.py:455-459 | A direct upload with no declared name and content type image/jpeg is stored as token + ".jpg", whether the MIME table answers ".jpe" or ".jpg". |
| `Naming.ReportPdfRoundTrip` | backend/main.py:379-383 | A multipart upload declared as "report.pdf" is listed with original filename "report.pdf". |
| `Naming.ReportPdfSplit` | backend/main.py:445 | "report.pdf" splits into "report" and ".pdf". |
| `Ordering.KeyFor` | backend/main.py:246-251 | `order` selects `updated_at` descending exactly when it is "activity", and `created_at` ascending exactly when it is "asc" or "oldest". Every other value selects `created_at` descending. |
| `Ordering.MayPrecede` | backend/main.py:247-251 | Its definition: a pinned row may come before an unpinned one. Rows with the same `pinned` are compared by the selected key, with ties allowed either way. |
| `Ordering.MayPrecedeTotalPreorder` | backend/main.py:247-251 | `pinned DESC, <key>` is a total preorder: any two rows are ordered at least one way, and the order is transitive. |
| `Ordering.SortedRows` | backend/main.py:246-253 | Its definition: every earlier row of the result may come before every later one under `pinned DESC, <key>`. |
| `Ordering.OrderAliases` | backend/main.py:246-251 | "activity" sorts by `updated_at` descending. "asc" and "oldest" select the same key, `created_at` ascending. Every other `order` value selects the same key as "desc", `created_at` descending. |
| `Ordering.PinnedFirst` | backend/main.py:247-251 | In a sequence sorted by `pinned DESC, <key>`, every pinned row comes before every unpinned row, whatever the key. |
| `Ordering.InsertRow` | backend/main.py:253 | Inserting a row into a sorted result adds exactly that row (as a multiset) and keeps the result sorted. |
| `Ordering.LexLess` | backend/main.py:155 | Its definition: strict lexicographic order by character code. The empty name is below every other name. |
| `Ordering.LexLessTransitive` | backend/main.py:155 | The name order (BINARY collation, i.e. code-point order) is transitive. |
| `Ordering.LexLessTotal` | backend/main.py:155 | Any two distinct names are ordered one way or the other. |
| `Ordering.LexLessIrreflexive` | backend/main.py:155 | No name is less than itself. |
| `Ordering.InsertByName` | backend/main.py:155 | Inserting a clipboard into the listing adds exactly that row. |
| `Ordering.InsertByNameSorted` | backend/main.py:155 | Inserting a clipboard whose name is not yet listed keeps the listing strictly name-ascending. |
| `Ordering.NamesAscendingUnique` | backend/main.py:155 | Two strictly name-sorted listings with the same rows are equal. So the clipboard listing does not depend on creation order. |
| `Queries.Matches` | backend/main.py:241-243 | Its definition: with no `clipboard_id` every message passes. Otherwise exactly the messages of that clipboard pass. |
| `Queries.Listed` | backend/main.py:258-280 | A listed row keeps the row itself. `original_filename` is absent exactly when the filename is NULL or empty, and is otherwise the text after the first '_', or the whole filename when it has no '_'. `file_size` is present exactly when the filename is non-empty and names an attachment, and is then that attachment's length. A row with a `file_size` always has an `original_filename`. |
| `Queries.FileSize` | backend/main.py:271-278 | `file_size` is present exactly when the filename is non-empty and names a file in the attachments directory. It is then that file's length. |
| `Service.Store.Valid` | backend/main.py:84-123 | Its definition, the invariant every method keeps: clipboard 1 exists (seeded at startup); clipboard names are unique; every message's `clipboard_id` names an existing clipboard (foreign keys on); every id in a table is below that table's AUTOINCREMENT counter, so a new id was never used. |
| `Service.Store.constructor` | backend/main.py:119-123 | A fresh database holds only clipboard 1, "main". It has no messages and no attachments, and the invariant holds. |
| `Service.Store.ListClipboards` | backend/main.py:152-157 | The result is a permutation of all clipboards, in strictly ascending name order. |
| `Service.Store.SelectMessages` | backend/main.py:238-253 | The result is a permutation of the messages that pass the `clipboard_id` filter (all messages when there is none), sorted by `pinned DESC` and the key `order` selects. |
| `Service.Store.ListMessages` | backend/main.py:231-282 | Same rows and order as the query, with pinned rows before unpinned ones. Each row carries `original_filename` = the display name of its filename and `file_size` = the attachment's size or none. |
| `Service.Store.CreateClipboard` | backend/main.py:160-171 | A name another clipboard already has fails with DuplicateName and changes nothing. Otherwise the clipboard is added under a never-issued id, and nothing else changes. |
| `Service.Store.RenameClipboard` | backend/main.py:173-182 | An absent id succeeds and changes nothing. A name another clipboard has fails and changes nothing. Otherwise only that clipboard's name changes. |
| `Service.Store.DeleteClipboard` | backend/main.py:184-204 | Id 1 fails with ProtectedClipboard and changes nothing. Any other id removes that clipboard and exactly the messages whose `clipboard_id` equals it. Other clipboards, messages, attachments and counters stay the same. |
| `Service.Store.InsertMessage` | backend/main.py:289-298 | A row whose clipboard does not exist fails the foreign key and changes nothing. Otherwise the row gets the next AUTOINCREMENT id, which was never issued before, and only that row is added. |
| `Service.Store.CreateMessage` | backend/main.py:284-311 | The new message has a fresh id, the given text, a NULL filename, pinned 0 and `created_at` = `updated_at` = now. The handler returns exactly that row. A missing clipboard fails with no change. |
| `Service.Store.UpdateMessage` | backend/main.py:206-225 | Only `text` and `updated_at` of that one message change, and the updated row is returned. An absent id changes nothing and fails. |
| `Service.Store.PinMessage` | backend/main.py:314-325 | Only `pinned` and `updated_at` of that one message change. An absent id changes nothing. |
| `Service.Store.MoveMessage` | backend/main.py:340-358 | Only `clipboard_id` and `updated_at` of that one message change. An absent message id changes nothing. A target clipboard that does not exist fails the foreign key and changes nothing. |
| `Service.Store.DeleteMessage` | backend/main.py:328-334 | Only that message row is removed. The attachments are untouched. |
| `Service.Store.CreateMessageFile` | backend/main.py:364-415 | The attachment `{token}_{original}` is recorded with the upload's length before the insert, even when the insert then fails. The row has text "" when none is given, that filename and pinned 0. The returned `original_filename` equals the display-name derivation of the stored name, and `file_size` equals the recorded size. |
| `Service.Store.CreateMessageFileDirect` | backend/main.py:421-479 | An empty body fails with EmptyBody before anything is written. Otherwise the attachment is recorded under the direct-upload name, then a row with text "", that filename and pinned 0 is inserted under a fresh id. |

## Left out

- HTTP and framework plumbing: FastAPI routing, Pydantic validation and response models, `get_db` connections and schema creation. Startup is modelled only as a fresh database holding clipboard 1, "main".
- Authentication (`verify_token`, and the query-token check in `get_file`): the model assumes every request is already authorised.
- `get_file` (serving an attachment): it only reads the real filesystem, so it is not modelled.
- The real filesystem: an attachment is a file-name → byte-length entry, and `os.makedirs` has no counterpart. A stored name that is not a plain file name would be resolved by the filesystem, which the model does not do.
- A failing `open(save_path, "wb")` (backend/main.py:387 and 463) is not modelled. In the source it raises before any row is inserted, for example when `{token}_{name}` exceeds the file-name length limit (a basename over about 222 bytes) or when the multipart upload's own filename holds a NUL character (backend/main.py:387 only). The model always records the attachment and then attempts the insert.
- `uuid.uuid4`, `datetime.utcnow` and `mimetypes.guess_extension` are parameters (`token`, `now`, `guess`). Nothing is assumed about `guess` except that it is a function.
- Timestamps: ISO-8601 strings compared as text become integers compared numerically.
- Integer width: ids and counters are unbounded. SQLite's 64-bit limit and its "database full" error on AUTOINCREMENT overflow are not modelled.
- Service.Store.CreateMessageFileDirect: returns the new id. The handler's response refers to an undefined name `text` (backend/main.py:485), so after the commit the real caller gets a server error instead of a response. That response, including its `original_filename`, is not modelled.
- Service.Store.UpdateMessage: an absent id gives `Err(MessageNotFound)`. The handler instead fails on `dict(None)` after a no-op UPDATE.
- Service.Store.SelectMessages: rows that tie on the sort key come in no promised order. SQL leaves this unspecified too.
- Concurrency and crash windows: requests run one at a time. The two DELETEs of a clipboard deletion, and the file write followed by the insert, each run to completion.

Three behaviours of the source that are easy to miss:
- Foreign keys are enforced (`PRAGMA foreign_keys = ON`), so creating, moving or uploading a message into a clipboard that does not exist fails.
- Pinning refreshes `updated_at`.
- Clipboard 1 cannot be deleted, but nothing stops it from being renamed. So the invariant keeps its existence, not the name "main".
