/**
 * The records exchanged with the remote JSON-RPC service and the values the
 * pipeline passes between its stages, already deserialised.
 */
module Messages {
  import opened Wrappers

  const JsonRpcVersion: string := "2.0"
  const QueryMethod: string := "query"

  /** One pair of the candidate dictionary: a torrent's info hash and the path it was read from. */
  datatype Entry = Entry(hash: string, path: string)

  /** `RequestItemModel`; `methodName` is the JSON member `method`. */
  datatype RequestItem = RequestItem(jsonrpc: string, methodName: string, params: seq<string>, id: int)

  /** `ResponseItemErrorModel` */
  datatype ErrorInfo = ErrorInfo(code: int, message: string)

  /** `ResponseItemModel`; a JSON `null` (or absent member) is `None`. */
  datatype ResponseItem = ResponseItem(jsonrpc: string, result: Option<string>, id: int, error: Option<ErrorInfo>)

  /** What handling one response item does to the file system or the log. */
  datatype Action =
    | Rewrite(path: string, key: string)             // re-read `path`, rewrite its trackers with `key`, write the copy
    | Report(path: string, code: int, message: string) // print the per-hash error reported by the service

  /** An exception the source raises; none of them is caught, so each ends the process. */
  datatype Fault =
    | DuplicateHash(hash: string) // `Dictionary.Add` with a key that is already present
    | UnmatchedId(id: int)        // `FirstOrDefault` found no request, and `.params` dereferences null
    | NoParams(id: int)           // `params[0]` of a request whose params array is empty
    | UnknownHash(hash: string)   // the dictionary indexer with a key that is absent

  /**
   * The secure key a response item carries; C# string interpolation turns a
   * null `result` into the empty string.
   */
  function KeyOf(result: Option<string>): string {
    match result
    case Some(k) => k
    case None => ""
  }
}
