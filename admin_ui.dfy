/** What the admin panels share: the picked file of an upload input, the
    transient notification, and the check an upload input makes before it
    reads a file (the format first, then an inclusive size ceiling). */
module AdminUi {
  import opened Options
  import Base64

  /** A picked `File`: its size is the number of its bytes. */
  datatype PickedFile = PickedFile(name: string, fileType: string, bytes: seq<Base64.Byte>)

  datatype NoticeKind = Success | Error

  /** The `{ type, message }` notification a panel shows for 3 s. */
  datatype Notice = Notice(kind: NoticeKind, message: string)

  /** The refusal an upload input reports for `f`, if any: a format outside
      `allowed` first, then a size above `maxSize`. */
  function FileProblem(allowed: seq<string>, maxSize: nat, formatMessage: string, sizeMessage: string,
                       f: PickedFile): (r: Option<string>)
    ensures r.None? <==> f.fileType in allowed && |f.bytes| <= maxSize
    ensures f.fileType !in allowed ==> r == Some(formatMessage)
    ensures f.fileType in allowed && |f.bytes| > maxSize ==> r == Some(sizeMessage)
  {
    if f.fileType !in allowed then Some(formatMessage)
    else if |f.bytes| > maxSize then Some(sizeMessage)
    else None
  }
}
