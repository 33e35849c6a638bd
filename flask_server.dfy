/**
 * The `/api/chat` handler of Backend/flask-server.py.  Its `get_context` is
 * the same text as Backend/retriever.py's and is the function
 * `KeywordRetriever.Context`; the knowledge text is a parameter.
 */
module FlaskServer {
  import opened HttpJson
  import KeywordRetriever

  /** `request.get_json()`: the parsed body, or a failure to parse it. */
  datatype Body = Unparsed | Parsed(value: Json)

  /** `data.get('message', '')` on a parsed dict. */
  function MessageOf(fields: map<string, Json>): Json {
    if "message" in fields then fields["message"] else Str("")
  }

  /** `chat()`: 400 without a message, 200 with the context, 500 on any exception. */
  function Chat(knowledge: string, body: Body): Response {
    match body
    case Unparsed => Response(500, ExceptionPayload(NotJson))
    case Parsed(data) =>
      if !data.Obj? then Response(500, ExceptionPayload(NotAnObject))
      else
        var message := MessageOf(data.fields);
        if !PyTruthy(message) then Response(400, ErrorPayload(MessageRequired))
        else if !message.Str? then Response(500, ExceptionPayload(MessageNotText))
        else Response(200, ChatPayload(true, KeywordRetriever.Context(knowledge, message.s), message.s))
  }

  // ---------------------------------------------------------------- properties

  /**
   * The status is decided by the body alone: 200 exactly for a dict whose
   * message is a non-empty string, 400 exactly for a dict whose message is
   * missing or falsy, and 500 otherwise. A reply other than 200 does not
   * depend on the knowledge (for a truthy message that is not text the
   * knowledge is loaded, then lower-casing the message raises).
   */
  lemma ChatStatus(knowledge: string, knowledge': string, body: Body)
    ensures var r := Chat(knowledge, body);
      && (r.status == 200 <==> body.Parsed? && body.value.Obj? && MessageOf(body.value.fields).Str?
                               && MessageOf(body.value.fields).s != "")
      && (r.status == 400 <==> body.Parsed? && body.value.Obj? && !PyTruthy(MessageOf(body.value.fields)))
      && (r.status in {200, 400, 500})
      && (r.status != 200 ==> Chat(knowledge', body) == r)
  {
  }

  /** A missing or empty message is refused with 400 and the fixed error text. */
  lemma MissingMessage(knowledge: string, fields: map<string, Json>)
    requires "message" !in fields || fields["message"] == Str("")
    ensures Chat(knowledge, Parsed(Obj(fields))) == Response(400, ErrorPayload("Message is required"))
  {
  }

  /** A success echoes the message and carries the keyword retriever's context for it. */
  lemma ChatSuccess(knowledge: string, fields: map<string, Json>, message: string)
    requires "message" in fields && fields["message"] == Str(message) && message != ""
    ensures var r := Chat(knowledge, Parsed(Obj(fields)));
      && r.status == 200 && r.payload.ChatPayload? && r.payload.success
      && r.payload.originalMessage == message
      && r.payload.context == KeywordRetriever.Context(knowledge, message)
  {
  }
}
