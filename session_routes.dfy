/**
 * Backend/routes/session_routes.py: a user creates chat sessions and lists
 * their own, newest first.  The creation time is the parameter `now`.
 */
module SessionRoutes {
  import opened Store
  import opened Queries
  import opened Sorting

  predicate Owned(s: ChatSession, userId: nat) {
    s.userId == userId
  }

  function CreatedAt(s: ChatSession): int {
    s.createdAt
  }

  /** `filter(ChatSession.user_id == user.id)`. */
  function OwnSessions(sessions: seq<ChatSession>, userId: nat): seq<ChatSession> {
    Filter(sessions, (s: ChatSession) => Owned(s, userId))
  }

  /** `list_sessions`: the user's sessions ordered by `created_at` descending. */
  function ListSessions(sessions: seq<ChatSession>, userId: nat): seq<ChatSession> {
    SortDesc(OwnSessions(sessions, userId), CreatedAt)
  }

  /** `create_session`: adds one session owned by the user with the requested title. */
  method CreateSession(db: Database, user: User, title: string, now: int) returns (session: ChatSession)
    modifies db`sessions
    requires SessionIds(db.sessions)
    ensures SessionIds(db.sessions)
    ensures session == ChatSession(|old(db.sessions)| + 1, user.id, title, now)
    ensures db.sessions == old(db.sessions) + [session]
  {
    session := ChatSession(|db.sessions| + 1, user.id, title, now);
    db.sessions := db.sessions + [session];
  }

  // ---------------------------------------------------------------- properties

  /**
   * The list holds exactly the user's sessions, each as often as in the
   * table, ordered by creation time, newest first.
   */
  lemma ListSessionsSpec(sessions: seq<ChatSession>, userId: nat)
    ensures var r := ListSessions(sessions, userId);
      && (forall x :: x in r <==> x in sessions && x.userId == userId)
      && multiset(r) == multiset(OwnSessions(sessions, userId))
      && (forall i, j :: 0 <= i < j < |r| ==> r[i].createdAt >= r[j].createdAt)
  {
    var own := OwnSessions(sessions, userId);
    FilterMembers(sessions, (s: ChatSession) => Owned(s, userId));
    SortDescSorted(own, CreatedAt);
    SortDescMembers(own, CreatedAt);
  }

  /** A new session is listed for its owner and changes no other user's list. */
  lemma CreateSessionVisibility(sessions: seq<ChatSession>, session: ChatSession, other: nat)
    requires other != session.userId
    ensures session in ListSessions(sessions + [session], session.userId)
    ensures ListSessions(sessions + [session], other) == ListSessions(sessions, other)
  {
    FilterAppend(sessions, [session], (s: ChatSession) => Owned(s, other));
    assert OwnSessions(sessions + [session], other) == OwnSessions(sessions, other);
    ListSessionsSpec(sessions + [session], session.userId);
  }
}
