/** HTTP values as the handlers and downloaders see them, with the network abstracted. */
module Http {
  import opened Common

  /**
   * A response body: a text message, the bytes of a served file, or a page
   * the HTTP library composes itself (a directory page, a redirect note),
   * whose text the model leaves open.
   */
  datatype Body = Text(text: string) | Bytes(bytes: seq<byte>) | Generated

  datatype Header = Header(name: string, value: string)

  /** A response: status code, the headers the handler itself sets, and the body. */
  datatype Response = Response(status: int, headers: seq<Header>, body: Body)

  /**
   * What a GET delivered to a downloader: either the request failed, or a
   * response arrived with a status code, its status line ("404 Not Found"),
   * the body bytes received, and the error that cut the body short, if any.
   */
  datatype Fetch =
    | Unreachable(reason: string)
    | Answered(code: int, status: string, body: seq<byte>, bodyError: Option<string>)
}
