/** What the two handlers answer, and the file-serving decision both
    revisions of `do_GET` end with. */
module Replies {
  import opened Wrappers
  import opened FileTree
  import opened ChangeSet

  /** The body `do_POST` writes: a routed fetch for any path but '/', an
      `Errors` document, a `Changed` document, or nothing because an
      exception escaped the handler. */
  datatype PostReply =
    | RoutedToGet
    | Errors(error: string)
    | Changed(changes: map<string, Info>)
    | Aborted

  /** What `do_GET` sends: 403, 404, 200 with the file's bytes, or 200
      headers followed by the PermissionError that `open` raises. */
  datatype GetReply = Forbidden | NotFound | Serve(content: Bytes) | ServeAborted

  function StatusCode(r: GetReply): (code: int)
    ensures code == 403 <==> r.Forbidden?
    ensures code == 404 <==> r.NotFound?
  {
    match r
    case Forbidden => 403
    case NotFound => 404
    case _ => 200
  }

  /** A final path component whose suffix is `.txt` (at least one character
      before the dot). */
  predicate TxtName(name: string) {
    |name| > 4 && name[|name| - 4..] == ".txt"
  }

  /** 404 unless the target is a regular file with the `.txt` extension;
      otherwise its bytes are streamed. */
  function ServeFile(target: Option<Node>, txt: bool): (r: GetReply)
    ensures r.NotFound? <==> !(IsFile(target) && txt)
    ensures r.Serve? <==> IsFile(target) && txt && target.value.readable
    ensures r.Serve? ==> r.content == target.value.content
    ensures !r.Forbidden?
  {
    if IsFile(target) && txt then
      if target.value.readable then Serve(target.value.content) else ServeAborted
    else NotFound
  }
}
