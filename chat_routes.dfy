/**
 * Backend/routes/chat_routes.py: reading the messages of a session and
 * storing a user message together with the generated bot reply.  The reply
 * generator (a language model behind HTTP) is the function parameter
 * `generate`; the two insertion times are parameters.
 */
module ChatRoutes {
  import opened Wrappers
  import opened Store
  import opened Queries
  import opened Sorting

  const SessionNotFound := HttpError(404, "Session not found")

  /** `ChatSession.id == session_id, ChatSession.user_id == user.id` matches some row. */
  predicate OwnsSession(sessions: seq<ChatSession>, sessionId: int, userId: nat) {
    exists i :: 0 <= i < |sessions| && sessions[i].id == sessionId && sessions[i].userId == userId
  }

  predicate InSession(m: ChatMessage, sessionId: int) {
    m.sessionId == sessionId
  }

  /** The sort key of `order_by(ChatMessage.timestamp)`: ascending time is descending negated time. */
  function Earliness(m: ChatMessage): int {
    -m.timestamp
  }

  /** The messages of a session, oldest first. */
  function SessionMessages(messages: seq<ChatMessage>, sessionId: int): seq<ChatMessage> {
    SortDesc(Filter(messages, (m: ChatMessage) => InSession(m, sessionId)), Earliness)
  }

  /** `get_session_messages`: refused unless the session exists and belongs to the user. */
  function GetSessionMessages(sessions: seq<ChatSession>, messages: seq<ChatMessage>, sessionId: int, userId: nat)
    : Result<seq<ChatMessage>, HttpError>
  {
    if !OwnsSession(sessions, sessionId, userId) then Err(SessionNotFound)
    else Ok(SessionMessages(messages, sessionId))
  }

  /** The request body of `add_chat_message`; its `sender` is never used. */
  datatype MessageRequest = MessageRequest(message: string, sender: string, sessionId: int)

  /** The reply of `add_chat_message`: the stored user row and the stored bot row. */
  datatype Exchange = Exchange(userMessage: ChatMessage, botMessage: ChatMessage)

  /**
   * `add_chat_message`: on a session the user does not own, 404 and nothing
   * stored; otherwise the user's message and then the generated reply are
   * stored, both in the requested session and under the user's id, and the
   * user row's sender is "user" whatever the request says.
   */
  method AddChatMessage(db: Database, user: User, req: MessageRequest, generate: string -> string,
                        userTime: int, botTime: int)
    returns (r: Result<Exchange, HttpError>)
    modifies db`messages
    requires MessageIds(db.messages)
    ensures MessageIds(db.messages)
    ensures !OwnsSession(db.sessions, req.sessionId, user.id) ==>
      r == Err(SessionNotFound) && db.messages == old(db.messages)
    ensures OwnsSession(db.sessions, req.sessionId, user.id) ==>
      var n := |old(db.messages)|;
      var u := ChatMessage(n + 1, user.id, req.sessionId, "user", req.message, userTime);
      var b := ChatMessage(n + 2, user.id, req.sessionId, "bot", generate(req.message), botTime);
      db.messages == old(db.messages) + [u, b] && r == Ok(Exchange(u, b))
  {
    if !OwnsSession(db.sessions, req.sessionId, user.id) {
      return Err(SessionNotFound);
    }
    var u := ChatMessage(|db.messages| + 1, user.id, req.sessionId, "user", req.message, userTime);
    db.messages := db.messages + [u];
    var reply := generate(req.message);
    var b := ChatMessage(|db.messages| + 1, user.id, req.sessionId, "bot", reply, botTime);
    db.messages := db.messages + [b];
    r := Ok(Exchange(u, b));
  }

  // ---------------------------------------------------------------- properties

  /**
   * Reading is refused with 404 exactly when the session is not the user's;
   * otherwise the reply is every message of that session, each as often as
   * stored, in ascending timestamp order, with equal timestamps in insertion
   * order.
   */
  lemma GetSessionMessagesSpec(sessions: seq<ChatSession>, messages: seq<ChatMessage>, sessionId: int, userId: nat)
    ensures var r := GetSessionMessages(sessions, messages, sessionId, userId);
      && (r.Err? <==> !OwnsSession(sessions, sessionId, userId))
      && (r.Err? ==> r.error == SessionNotFound)
      && (r.Ok? ==>
            && (forall x :: x in r.value <==> x in messages && x.sessionId == sessionId)
            && multiset(r.value) == multiset(Filter(messages, (m: ChatMessage) => InSession(m, sessionId)))
            && (forall i, j :: 0 <= i < j < |r.value| ==> r.value[i].timestamp <= r.value[j].timestamp))
  {
    var own := Filter(messages, (m: ChatMessage) => InSession(m, sessionId));
    FilterMembers(messages, (m: ChatMessage) => InSession(m, sessionId));
    SortDescSorted(own, Earliness);
    SortDescMembers(own, Earliness);
  }

  /**
   * After a successful add, both stored rows are read back with the session,
   * and the messages of every other session read back as before.
   */
  lemma AddedMessagesVisible(messages: seq<ChatMessage>, u: ChatMessage, b: ChatMessage, other: int)
    requires u.sessionId == b.sessionId && other != u.sessionId
    ensures u in SessionMessages(messages + [u, b], u.sessionId)
    ensures b in SessionMessages(messages + [u, b], u.sessionId)
    ensures SessionMessages(messages + [u, b], other) == SessionMessages(messages, other)
  {
    FilterMembers(messages + [u, b], (m: ChatMessage) => InSession(m, u.sessionId));
    SortDescMembers(Filter(messages + [u, b], (m: ChatMessage) => InSession(m, u.sessionId)), Earliness);
    FilterAppend(messages, [u, b], (m: ChatMessage) => InSession(m, other));
    assert Filter([u, b], (m: ChatMessage) => InSession(m, other)) == [];
    assert Filter(messages + [u, b], (m: ChatMessage) => InSession(m, other))
        == Filter(messages, (m: ChatMessage) => InSession(m, other));
  }
}
