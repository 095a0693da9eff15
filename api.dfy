/** What the real relay and the mock relay share at `POST /api/chat`: how a
    request is read, when it is refused, and the replies they send. */
module Api {
  import opened Wrappers
  import opened Json

  newtype byte = x: int | 0 <= x < 256

  /** One uploaded file as the upload middleware holds it in memory. */
  datatype Upload = Upload(originalName: string, mimeType: string, size: nat, buffer: seq<byte>)

  /** A request: its uploaded files (none for a request that is not
      multipart) and its parsed body. */
  datatype Request = Request(files: seq<Upload>, body: Value)

  /** `JSON.parse`, supplied by the caller: `None` where it throws. */
  type Parser = string -> Option<Value>

  /** The `messages` and `stream` the handler goes on with. */
  datatype Intake = Intake(messages: Value, stream: Value)

  /** A reply: a JSON body with a status, a server-sent-event stream (the
      text written, after which the stream is ended), or nothing at all when
      the handler throws before answering. */
  datatype Reply =
    | JsonReply(status: int, body: Value)
    | EventStream(text: string)
    | NoReply

  /** `{ error: { message, code } }`. */
  function ErrorBody(message: Value, code: string): Value {
    Obj([Field("error", Obj([Field("message", message), Field("code", Str(code))]))])
  }

  /** The refusal of a request without a `messages` array. */
  function InvalidRequest(): Reply {
    JsonReply(400, ErrorBody(Str("Messages array is required"), "INVALID_REQUEST"))
  }

  /** Reading `messages` and `stream`. With files, `messages` is the JSON
      text of a form field and `stream` is true only for the text `'true'`;
      without, both are taken from the body and `stream` defaults to true.
      `None` where reading throws. */
  function Receive(req: Request, parse: Parser): Option<Intake> {
    match Get(req.body, "messages")
    case None => None
    case Some(raw) =>
      if |req.files| > 0 then
        match parse(ToJsString(raw))
        case None => None
        case Some(messages) => Some(Intake(messages, Bool(Get(req.body, "stream") == Some(Str("true")))))
      else
        var stream := Get(req.body, "stream").value;
        Some(Intake(raw, if stream != Undefined then stream else Bool(true)))
  }

  /** `!messages || !Array.isArray(messages)`. */
  predicate Refused(messages: Value) {
    !messages.Arr?
  }

  /** The stream flag: for a request with files it is set exactly when the
      `stream` field is the text `'true'`; otherwise it is the body's
      `stream` when that is defined, and set when it is not. */
  lemma StreamFlag(req: Request, parse: Parser)
    requires Receive(req, parse).Some?
    ensures |req.files| > 0 ==>
      (Truthy(Receive(req, parse).value.stream) <==> Get(req.body, "stream") == Some(Str("true")))
    ensures |req.files| == 0 ==> Get(req.body, "stream").Some?
    ensures |req.files| == 0 ==>
      (Truthy(Receive(req, parse).value.stream) <==>
        (Get(req.body, "stream").value == Undefined || Truthy(Get(req.body, "stream").value)))
  {
  }
}
