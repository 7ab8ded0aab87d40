/** What travels between the browser uploader and a server: the form a chunk
    is posted with, and the JSON body and status code that come back. */
module Protocol {
  import opened Common

  const OK_200: nat := 200
  const BAD_REQUEST_400: nat := 400
  const SERVER_ERROR_500: nat := 500

  /** The form fields of one chunk post: the chunk's bytes, the file key, the
      index and the chunk count. */
  datatype ChunkRequest = ChunkRequest(chunk: Bytes, fileName: string, chunkIndex: nat, totalChunks: nat)

  /** A JSON reply: the status code and the `success`, `message`,
      `uploadedChunks`, `totalChunks` and `filePath` members, the last three
      absent (None) when the server leaves them out. */
  datatype Response = Response(
    status: nat,
    success: bool,
    message: string,
    uploadedChunks: Option<int>,
    totalChunks: Option<int>,
    filePath: Option<string>)

  /** An entry of a file list: the name, the size in bytes and the public
      path. */
  datatype FileEntry = FileEntry(name: string, size: nat, path: string)

  /** What an attempt to post a chunk yields: nothing usable (a network error
      or a body that is not JSON) or a parsed reply. */
  datatype Reply = Lost | Answer(response: Response)

  /** `response.ok`: a 2xx status. */
  predicate IsOk(r: Response)
  {
    200 <= r.status <= 299
  }

  /** A reply with only a message, as every failure path sends. */
  function Failure(status: nat, message: string): Response
  {
    Response(status, false, message, None, None, None)
  }

  /** The reply to a chunk that completed the file. */
  function Completed(message: string, filePath: string): Response
  {
    Response(OK_200, true, message, None, None, Some(filePath))
  }

  /** The reply to a chunk that did not complete the file. */
  function Progress(message: string, uploaded: int, total: int): Response
  {
    Response(OK_200, true, message, Some(uploaded), Some(total), None)
  }
}
