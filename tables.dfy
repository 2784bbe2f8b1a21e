/** The rows of the two SQLite tables, `clipboards` and `messages`, and the
    row shapes the listing endpoints return. */
module Tables {
  import opened Wrappers

  /** Timestamps are compared numerically. The database stores
      `datetime.isoformat()` text and compares it lexicographically. That text
      has two widths, because the microseconds are left out when they are
      zero. Text order still agrees with time order across the two widths: a
      value without microseconds is a prefix of the same second with them, so
      it sorts first, and any other difference falls in the shared
      date-and-time positions. */
  type Timestamp = int

  /** Bytes of an uploaded attachment. */
  type Bytes = seq<bv8>

  /** A row of `clipboards`, without its id (the id is the map key). */
  datatype Clipboard = Clipboard(name: string, createdAt: Timestamp)

  /** A row of `messages`, without its id (the id is the map key).
      `pinned` is the 0/1 INTEGER column, as a boolean. */
  datatype Message = Message(
    text: Option<string>,
    filename: Option<string>,
    clipboardId: int,
    createdAt: Timestamp,
    updatedAt: Timestamp,
    pinned: bool)

  /** A `clipboards` row together with its id, as `SELECT *` returns it. */
  datatype ClipboardRow = ClipboardRow(id: int, clipboard: Clipboard)

  /** A `messages` row together with its id, as `SELECT *` returns it. */
  datatype MessageRow = MessageRow(id: int, msg: Message)

  /** A message as the API returns it: the row plus the derived
      `original_filename` and `file_size` fields. */
  datatype ListedMessage = ListedMessage(
    row: MessageRow,
    originalFilename: Option<string>,
    fileSize: Option<nat>)
}
