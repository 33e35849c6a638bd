/**
 * The request handler of Backend/simple-http-server.py: `do_GET` and
 * `do_POST` decide a status and a JSON body from the path, the
 * `Content-Length` header and the body.  Its `get_context` is the same text as
 * Backend/retriever.py's and is `KeywordRetriever.Context`; the knowledge
 * text is a parameter.
 */
module SimpleHttpServer {
  import opened Wrappers
  import opened HttpJson
  import KeywordRetriever
  import FlaskServer

  const HealthPath := "/api/health"
  const ChatPath := "/api/chat"

  /**
   * A POST request: the path, the `Content-Length` header when `int()`
   * accepts it, and `json.loads` of the bytes read (absent when they are not
   * UTF-8 JSON).
   */
  datatype Post = Post(path: string, contentLength: Option<int>, body: Option<Json>)

  /** `do_GET`: the health reply on `/api/health`, the banner on every other path. */
  function DoGet(path: string): Response {
    if path == HealthPath then Response(200, HealthPayload("OK", "2025-08-02T10:00:00Z"))
    else Response(200, RunningPayload("Fairmont AI Backend is running!"))
  }

  /**
   * `do_POST`: 404 off `/api/chat`; no reply at all when the header is missing
   * or not a number (the exception escapes the handler); otherwise 400, 200 or
   * 500 from the body.
   */
  function DoPost(knowledge: string, request: Post): Option<Response> {
    if request.path != ChatPath then Some(Response(404, NoPayload))
    else if request.contentLength.None? then None
    else if request.body.None? then Some(Response(500, ExceptionPayload(NotJson)))
    else
      var data := request.body.value;
      if !data.Obj? then Some(Response(500, ExceptionPayload(NotAnObject)))
      else
        var message := if "message" in data.fields then data.fields["message"] else Str("");
        if !PyTruthy(message) then Some(Response(400, ErrorPayload(MessageRequired)))
        else if !message.Str? then Some(Response(500, ExceptionPayload(MessageNotText)))
        else Some(Response(200, ChatPayload(true, KeywordRetriever.Context(knowledge, message.s), message.s)))
  }

  // ---------------------------------------------------------------- properties

  /** Every GET succeeds: the health reply exactly on `/api/health`, the banner elsewhere. */
  lemma GetAlwaysOk(path: string)
    ensures DoGet(path).status == 200
    ensures DoGet(path).payload.HealthPayload? <==> path == HealthPath
    ensures path != HealthPath ==> DoGet(path).payload == RunningPayload("Fairmont AI Backend is running!")
  {
  }

  /** A POST anywhere but `/api/chat` is answered 404 whatever its headers and body. */
  lemma OtherPathNotFound(knowledge: string, request: Post)
    requires request.path != ChatPath
    ensures DoPost(knowledge, request) == Some(Response(404, NoPayload))
  {
  }

  /**
   * With a readable `Content-Length`, a POST to `/api/chat` is answered as the
   * Flask server's `chat()` answers the same body: the two handlers agree.
   */
  lemma AgreesWithFlask(knowledge: string, request: Post)
    requires request.path == ChatPath && request.contentLength.Some?
    ensures DoPost(knowledge, request) == Some(FlaskServer.Chat(knowledge,
      if request.body.Some? then FlaskServer.Parsed(request.body.value) else FlaskServer.Unparsed))
  {
  }

  /** An empty or missing message is refused with 400 and the fixed error text. */
  lemma MissingMessage(knowledge: string, length: int, fields: map<string, Json>)
    requires "message" !in fields || !PyTruthy(fields["message"])
    ensures DoPost(knowledge, Post(ChatPath, Some(length), Some(Obj(fields))))
         == Some(Response(400, ErrorPayload("Message is required")))
  {
  }

  /** A valid POST is answered 200, echoing the message beside its context. */
  lemma ChatSuccess(knowledge: string, length: int, fields: map<string, Json>, message: string)
    requires "message" in fields && fields["message"] == Str(message) && message != ""
    ensures var r := DoPost(knowledge, Post(ChatPath, Some(length), Some(Obj(fields))));
      && r.Some? && r.value.status == 200
      && r.value.payload == ChatPayload(true, KeywordRetriever.Context(knowledge, message), message)
  {
  }
}
