/**
 * Values shared by every layer of the shortener: Go's nil-able results, the
 * storage error taxonomy and the records that the handlers exchange
 * (package `entity`).
 */
module Common {

  /** A Go value that may be nil: `None` is nil (a nil error, a nil slice). */
  datatype Option<T> = None | Some(value: T)

  /** The operation of an external medium (file system, SQL driver) whose failure is passed up unchanged. */
  datatype Op = Open | Read | Write | Sync | Begin | Prepare | Query | Scan | RowsErr | Exec | Commit | Ping

  /**
   * Errors the storage layer returns. The first three are the sentinels
   * `ErrExists`, `ErrDeleted`, `ErrNotFound`; `WrongURL` is the map backend's
   * `fmt.Errorf("wrong url %s", ...)`, `EmptyFilePath` the file backend's
   * constructor error; `Medium` stands for any error of the file system or
   * SQL driver, named by the operation that produced it.
   */
  datatype Error =
    | ErrExists
    | ErrDeleted
    | ErrNotFound
    | WrongURL(url: string)
    | EmptyFilePath
    | Medium(op: Op)

  /** The text `err.Error()` yields for the errors whose text the source fixes. */
  function Message(e: Error): string
  {
    match e
    case ErrExists => "url is already exists"
    case ErrDeleted => "url is deleted"
    case ErrNotFound => "not found"
    case WrongURL(u) => "wrong url " + u
    case EmptyFilePath => "empty file path"
    case Medium(_) => "medium failure"
  }

  /** One entry of a user's history (`entity.URLs`). */
  datatype URLs = URLs(ShortURL: string, OriginalURL: string)

  /** One entry of a batch request or response (`entity.URLBatch`). */
  datatype URLBatch = URLBatch(CorrelationID: string, OriginalURL: string, ShortURL: string)

  /** Totals reported by `GetStatistic` (`entity.Statistic`). */
  datatype Statistic = Statistic(Urls: nat, Users: nat)

  /** The display form of a short link, `fmt.Sprintf("%s/%v", base, id)` or `base + "/" + id`. */
  function ShortLink(base: string, id: string): (link: string)
    ensures |link| == |base| + 1 + |id|
    ensures link[..|base|] == base && link[|base|] == '/' && link[|base| + 1..] == id
  {
    base + "/" + id
  }

  /** A non-empty sequence is its prefix followed by its last element. */
  lemma SplitLast<T>(s: seq<T>)
    requires s != []
    ensures s == s[..|s| - 1] + [s[|s| - 1]]
  {
  }
}
