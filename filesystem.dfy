/** The two things the downloaders touch outside the program: the web server, as the answer it
    gives to a GET of each URL, and the local disk, as a map from file path to contents.
    Directories are not modelled. */
module FileSystem {

  type Bytes = seq<bv8>

  /** The answer to one GET. `complete` is false when the connection broke while the body was
      being read; `body` then holds what arrived. `Unreachable` is a request that raised
      before any response (connection error, timeout, a URL `requests` refuses). */
  datatype Response = Response(status: int, body: Bytes, complete: bool) | Unreachable

  /** The server's answer to a GET of `url`; a URL it does not know is unreachable. */
  function Answer(server: map<string, Response>, url: string): Response {
    if url in server then server[url] else Unreachable
  }

  /** What one download call did: skipped an existing file, wrote a file, or wrote nothing
      (or, for a broken stream, a truncated file) and logged an error. */
  datatype Outcome = Skipped | Saved | Failed

  /** The local disk: file paths and their contents. */
  class Disk {
    var files: map<string, Bytes>

    constructor (initial: map<string, Bytes>)
      ensures files == initial
    {
      files := initial;
    }
  }
}
