/**
 * The chat screen's pure decisions: which text of a backend reply is shown,
 * how fast it is revealed, and which text an error entry carries.
 */
module ChatReply {
  import opened Wrappers
  import opened Strings

  // ---------------------------------------------------------------- reply text

  /** `res.bot_message`, whose `message` field may be absent. */
  datatype BotMessage = BotMessage(message: Option<string>)

  /**
   * A parsed reply body: the paired shape `{user_message, bot_message}` and the
   * legacy shapes `{response}` and `{text}`; absent fields are `None`.
   */
  datatype Reply = Reply(botMessage: Option<BotMessage>, response: Option<string>, text: Option<string>)

  const NoResponse := "No response."

  /** JavaScript truthiness of an optional string: present and non-empty. */
  predicate Truthy(v: Option<string>) {
    v.Some? && v.value != ""
  }

  /** `res.bot_message?.message`. */
  function BotText(res: Reply): Option<string> {
    match res.botMessage
    case None => None
    case Some(m) => m.message
  }

  /**
   * `res.bot_message?.message || res.response || res.text || 'No response.'`:
   * never empty; the first truthy field in that order, else the fallback.
   */
  function ReplyText(res: Reply): (r: string)
    ensures r != ""
  {
    if Truthy(BotText(res)) then BotText(res).value
    else if Truthy(res.response) then res.response.value
    else if Truthy(res.text) then res.text.value
    else NoResponse
  }

  /** The shown text is one of the reply's own fields, or else the fallback, by priority. */
  lemma ReplyTextPriority(res: Reply)
    ensures var r := ReplyText(res);
      && (r == NoResponse || Some(r) in [BotText(res), res.response, res.text])
      && (Truthy(BotText(res)) ==> r == BotText(res).value)
      && (!Truthy(BotText(res)) && Truthy(res.response) ==> r == res.response.value)
      && (!Truthy(BotText(res)) && !Truthy(res.response) && Truthy(res.text) ==> r == res.text.value)
      && (!Truthy(BotText(res)) && !Truthy(res.response) && !Truthy(res.text) ==> r == NoResponse)
  {
  }

  // ---------------------------------------------------------------- reveal pace

  /**
   * `Math.max(10, Math.min(30, 2000 / length))` in milliseconds; a zero length
   * would divide to `Infinity` in JavaScript and give 30.
   */
  function TickInterval(length: nat): (ms: real)
    ensures 10.0 <= ms <= 30.0
    ensures length <= 66 ==> ms == 30.0
    ensures length >= 200 ==> ms == 10.0
  {
    if length == 0 then 30.0
    else
      var q := 2000.0 / length as real;
      QuotientBounds(length);
      var capped := if q < 30.0 then q else 30.0;
      if capped > 10.0 then capped else 10.0
  }

  lemma QuotientBounds(length: nat)
    requires length > 0
    ensures 2000.0 / length as real < 30.0 <==> 2000 < 30 * length
    ensures 2000.0 / length as real > 10.0 <==> 2000 > 10 * length
  {
    var l := length as real;
    var q := 2000.0 / l;
    assert q * l == 2000.0;
    if q < 30.0 {
      assert q * l < 30.0 * l;
    }
    if q >= 30.0 {
      assert q * l >= 30.0 * l;
    }
    if q > 10.0 {
      assert q * l > 10.0 * l;
    }
    if q <= 10.0 {
      assert q * l <= 10.0 * l;
    }
  }

  /** Characters revealed per tick: 3 for a reply longer than 500 characters, else 1. */
  function CharsPerTick(length: nat): (n: nat)
    ensures n == 1 || n == 3
    ensures n == 3 <==> length > 500
  {
    if length > 500 then 3 else 1
  }

  // ---------------------------------------------------------------- error text

  /** The caught error: `error.message` ("" when absent) and `error.response.status`. */
  datatype SendError = SendError(message: string, status: Option<int>)

  const DefaultErrorText := "Sorry, there was a problem connecting to the assistant."
  const SafeText := "Yes, all guest rooms and suites at Fairmont Tazi Palace are equipped with in-room safes for your valuables."
  const CheckInText := "Check-in time begins at 3:00 PM. Early check-in may be available based on room availability."
  const CheckOutText := "Check-out time is at 12:00 PM (noon). Late check-out may be available upon request."
  const WifiText := "Complimentary high-speed WiFi is available throughout the hotel. The network name is 'Fairmont_Guest' and the password is provided during check-in."
  const SpaText := "Our hotel features a luxurious spa with traditional hammam, massage services, and wellness treatments. The spa is open daily from 9:00 AM to 8:00 PM."
  const NetworkErrorText := "Network connection error. Please check your internet connection and try again."
  const UnavailableText := "The assistant is currently unavailable. Our team has been notified."

  /** The timeout reply that quotes what the user asked. */
  function SlowReplyText(input: string): string {
    "I'm sorry, the response is taking longer than expected. You asked about \"" + input
      + "\". Please try again or contact the front desk for immediate assistance."
  }

  /** A number as JavaScript prints it inside a template string (integers only). */
  function NumberText(n: int): string {
    if n < 0 then "-" + NatToString(-n) else NatToString(n)
  }

  function ServerErrorText(status: int): string {
    "Server error (" + NumberText(status) + "). Please try again or contact support."
  }

  /** The keyword table consulted on a timeout, over the lower-cased original input. */
  function TimeoutText(input: string): string {
    var m := Lower(input);
    if Contains(m, "safe") && (Contains(m, "room") || Contains(m, "suite")) then SafeText
    else if Contains(m, "check in") || Contains(m, "checkin") then CheckInText
    else if Contains(m, "check out") || Contains(m, "checkout") then CheckOutText
    else if Contains(m, "wifi") || Contains(m, "internet") then WifiText
    else if Contains(m, "spa") || Contains(m, "massage") then SpaText
    else SlowReplyText(input)
  }

  /**
   * The text of the error entry, in the screen's priority order: a timeout
   * first, then a network error, then status 502, then any other truthy status,
   * then the default apology.
   */
  function ErrorText(err: SendError, input: string): string
  {
    if Contains(err.message, "timeout") then TimeoutText(input)
    else if Contains(err.message, "Network Error") then NetworkErrorText
    else if err.status == Some(502) then UnavailableText
    else if err.status.Some? && err.status.value != 0 then ServerErrorText(err.status.value)
    else DefaultErrorText
  }

  // ---------------------------------------------------------------- properties

  /** A timeout always answers with one of the five canned answers or the quoting apology. */
  lemma TimeoutTextChoices(input: string)
    ensures TimeoutText(input) in {SafeText, CheckInText, CheckOutText, WifiText, SpaText, SlowReplyText(input)}
  {
  }

  /** On a timeout the status code plays no part in the text. */
  lemma TimeoutIgnoresStatus(err: SendError, status: Option<int>, input: string)
    requires Contains(err.message, "timeout")
    ensures ErrorText(err, input) == ErrorText(err.(status := status), input) == TimeoutText(input)
  {
  }

  /** Without a timeout the user's input plays no part in the text. */
  lemma InputOnlyMattersOnTimeout(err: SendError, input: string, input': string)
    requires !Contains(err.message, "timeout")
    ensures ErrorText(err, input) == ErrorText(err, input')
  {
  }

  /** A network error that is not a timeout is reported as such whatever the status. */
  lemma NetworkErrorIgnoresStatus(err: SendError, input: string)
    requires !Contains(err.message, "timeout") && Contains(err.message, "Network Error")
    ensures ErrorText(err, input) == NetworkErrorText
  {
  }

  /** Only when the message matches neither word does the status decide. */
  lemma StatusDecidesOtherwise(err: SendError, input: string)
    requires !Contains(err.message, "timeout") && !Contains(err.message, "Network Error")
    ensures err.status == Some(502) ==> ErrorText(err, input) == UnavailableText
    ensures err.status.Some? && err.status.value !in {0, 502} ==> ErrorText(err, input) == ServerErrorText(err.status.value)
    ensures err.status.None? || err.status == Some(0) ==> ErrorText(err, input) == DefaultErrorText
  {
  }

  /** The generic timeout reply quotes the user's input verbatim. */
  lemma SlowReplyQuotesInput(input: string)
    ensures Contains(SlowReplyText(input), input)
  {
    var prefix := "I'm sorry, the response is taking longer than expected. You asked about \"";
    assert SlowReplyText(input)[|prefix|..|prefix| + |input|] == input;
    ContainsAt(SlowReplyText(input), input, |prefix|);
  }

  /** On a timeout, a question about a safe in a room or suite gets the safe answer. */
  lemma SafeQuestionOnTimeout(err: SendError, input: string)
    requires Contains(err.message, "timeout")
    requires Contains(Lower(input), "safe")
    requires Contains(Lower(input), "room") || Contains(Lower(input), "suite")
    ensures ErrorText(err, input) == SafeText
  {
  }

  /** "is there a safe in my room" is such a question. */
  lemma SafeInMyRoom(s: string)
    requires s == "is there a safe in my room"
    ensures Contains(Lower(s), "safe") && Contains(Lower(s), "room")
  {
    assert forall i :: 0 <= i < |s| ==> !('A' <= s[i] <= 'Z');
    assert s[11..15] == "safe";
    MentionedAt(s, "safe", 11);
    assert s[22..26] == "room";
    MentionedAt(s, "room", 22);
  }

  /** A word found at a position of a text without capitals is found in its lower-cased form. */
  lemma MentionedAt(s: string, w: string, k: nat)
    requires forall i :: 0 <= i < |s| ==> !('A' <= s[i] <= 'Z')
    requires k + |w| <= |s| && s[k..k + |w|] == w
    ensures Contains(Lower(s), w)
  {
    LowerWithoutCapitals(s);
    ContainsAt(s, w, k);
  }

  /** A timeout whose input matches no topic gets the reply that quotes it. */
  lemma UnmatchedTimeoutQuotesInput(err: SendError, input: string)
    requires Contains(err.message, "timeout")
    requires !Contains(Lower(input), "safe") && !Contains(Lower(input), "check")
    requires !Contains(Lower(input), "wifi") && !Contains(Lower(input), "internet")
    requires !Contains(Lower(input), "spa") && !Contains(Lower(input), "massage")
    ensures Contains(ErrorText(err, input), input)
  {
    UnmatchedTopic(input);
    SlowReplyQuotesInput(input);
  }

  lemma UnmatchedTopic(input: string)
    requires !Contains(Lower(input), "safe") && !Contains(Lower(input), "check")
    requires !Contains(Lower(input), "wifi") && !Contains(Lower(input), "internet")
    requires !Contains(Lower(input), "spa") && !Contains(Lower(input), "massage")
    ensures TimeoutText(input) == SlowReplyText(input)
  {
    var m := Lower(input);
    NoCheckWord(m, "check in");
    NoCheckWord(m, "checkin");
    NoCheckWord(m, "check out");
    NoCheckWord(m, "checkout");
  }

  lemma NoCheckWord(m: string, w: string)
    requires !Contains(m, "check") && |w| >= 5 && w[..5] == "check"
    ensures !Contains(m, w)
  {
    if Contains(m, w) {
      ContainsPrefixOf(m, w, 5);
    }
  }
}
