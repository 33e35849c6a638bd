/**
 * The `/api/chat` handler of Backend/simple-chat-server.js: a chain of
 * substring tests over the lower-cased message picks one canned reply.
 */
module SimpleChatServer {
  import opened Strings
  import opened HttpJson

  const HiText := "Hello! How can I help you with Fairmont services today?"
  const HelloText := "Hello! Welcome to Fairmont. How can I assist you?"
  const SpaText := "Our spa is open daily from 10:00 AM to 8:00 PM. Would you like to book a treatment?"
  const SecurityText := "Our security team is available 24/7. All rooms have safes for your valuables."
  const BookingText := "You can book spa treatments by phone, at reception, or using your mobile device."
  const FacilitiesText := "We offer spa, gym, pool, jacuzzi, hammam, and sauna facilities."
  const DefaultText := "I can help you with spa services, security, bookings, and facilities. What would you like to know?"
  const InternalError := "Internal server error"

  /** The if/else-if chain over the lower-cased message; the first test that holds wins. */
  function Choose(lower: string): string {
    if Contains(lower, "hi") || Contains(lower, "hello") then HiText
    else if Contains(lower, "spa") then SpaText
    else if Contains(lower, "security") then SecurityText
    else if Contains(lower, "book") then BookingText
    else if Contains(lower, "facility") then FacilitiesText
    else DefaultText
  }

  /**
   * The handler over `req.body` (an object after `express.json()`): a falsy
   * or absent `message` is refused with 400; a message that is not a string
   * makes `toLowerCase` throw, which is answered 500.
   */
  function Chat(body: Json): Response {
    var message := if body.Obj? && "message" in body.fields then body.fields["message"] else Null;
    if !JsTruthy(message) then Response(400, ErrorPayload(MessageRequired))
    else if !message.Str? then Response(500, InternalPayload(InternalError, MessageNotText))
    else Response(200, ChatPayload(true, Choose(Lower(message.s)), message.s))
  }

  // ---------------------------------------------------------------- properties

  /** The reply is one of the six chain texts; the "hello" entry of the table is never used. */
  lemma ChoiceRange(lower: string)
    ensures Choose(lower) in {HiText, SpaText, SecurityText, BookingText, FacilitiesText, DefaultText}
    ensures Choose(lower) != HelloText
  {
  }

  /** A greeting is tested first: any message containing "hi" or "hello" gets the "hi" reply. */
  lemma GreetingFirst(lower: string)
    requires Contains(lower, "hi") || Contains(lower, "hello")
    ensures Choose(lower) == HiText
  {
  }

  /** Without a greeting, the first of spa, security, book and facility that occurs decides. */
  lemma TopicOrder(lower: string)
    requires !Contains(lower, "hi") && !Contains(lower, "hello")
    ensures Contains(lower, "spa") ==> Choose(lower) == SpaText
    ensures !Contains(lower, "spa") && Contains(lower, "security") ==> Choose(lower) == SecurityText
    ensures !Contains(lower, "spa") && !Contains(lower, "security") && Contains(lower, "book") ==> Choose(lower) == BookingText
    ensures !Contains(lower, "spa") && !Contains(lower, "security") && !Contains(lower, "book")
            ==> (Choose(lower) == FacilitiesText <==> Contains(lower, "facility"))
  {
  }

  /** The tests are on the lower-cased text: the case of a message never changes the reply. */
  lemma CaseInsensitive(message: string)
    requires message != ""
    ensures Chat(Obj(map["message" := Str(message)])).status == 200
    ensures Chat(Obj(map["message" := Str(Lower(message))])).status == 200
    ensures Chat(Obj(map["message" := Str(message)])).payload.context
         == Chat(Obj(map["message" := Str(Lower(message))])).payload.context
  {
    LowerIdempotent(message);
  }

  /** "which spa" holds "hi" inside "which", so it gets the greeting, not the spa reply. */
  lemma WordsContainingHi(s: string)
    requires s == "which spa"
    ensures Chat(Obj(map["message" := Str(s)])).payload.context == HiText
  {
    LowerWithoutCapitals(s);
    assert s[1..3] == "hi";
    ContainsAt(s, "hi", 1);
  }

  /** "facilities" contains none of the tested words; in particular not "facility". */
  lemma FacilitiesMatchesNothing(s: string)
    requires s == "facilities"
    ensures !Contains(s, "hi") && !Contains(s, "hello") && !Contains(s, "spa")
    ensures !Contains(s, "security") && !Contains(s, "book") && !Contains(s, "facility")
  {
    assert 'h' !in s && 'p' !in s && 'r' !in s && 'b' !in s && 'y' !in s;
    AbsentChar(s, "hi", 0);
    AbsentChar(s, "hello", 0);
    AbsentChar(s, "spa", 1);
    AbsentChar(s, "security", 3);
    AbsentChar(s, "book", 0);
    AbsentChar(s, "facility", 7);
  }

  /** So the message "facilities" gets the default reply. */
  lemma FacilitiesIsDefault(s: string)
    requires s == "facilities"
    ensures Chat(Obj(map["message" := Str(s)])).payload.context == DefaultText
  {
    LowerWithoutCapitals(s);
    FacilitiesMatchesNothing(s);
  }

  /** Every reply to a string message echoes it; a missing or empty message gets 400. */
  lemma ReplyShape(body: Json)
    ensures var r := Chat(body);
      && (r.status == 200 <==> body.Obj? && "message" in body.fields && body.fields["message"].Str? && body.fields["message"].s != "")
      && (r.status == 200 ==> r.payload.originalMessage == body.fields["message"].s && r.payload.success)
      && (!body.Obj? || "message" !in body.fields ==> r == Response(400, ErrorPayload("Message is required")))
  {
  }
}
