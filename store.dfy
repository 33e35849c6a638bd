/**
 * The backend's tables (the files under Backend/models) as an in-memory database: one
 * sequence of records per table, in insertion order.  Rows are never deleted
 * by the modelled routes, so SQLite's integer primary keys are the row
 * positions counted from 1.  Password hashing is abstracted: a hash records
 * the random salt and the password it was made from.
 */
module Store {
  import opened Wrappers

  /** `pwd_context.hash(password)` with the salt bcrypt drew. */
  datatype Hash = Digest(salt: nat, of: string)

  /** bcrypt's key length: only the first 72 bytes of a password are hashed. */
  const BcryptKeyLength := 72

  /** The part of a password bcrypt uses. */
  function BcryptKey(password: string): (k: string)
    ensures |k| <= BcryptKeyLength && k <= password
    ensures |password| <= BcryptKeyLength ==> k == password
  {
    if |password| <= BcryptKeyLength then password else password[..BcryptKeyLength]
  }

  /** `pwd_context.verify(plain, hashed)`: the two keys agree. */
  predicate VerifyPassword(plain: string, hashed: Hash) {
    BcryptKey(hashed.of) == BcryptKey(plain)
  }

  /** `users`; a missing `last_login` is `None`. */
  datatype User = User(id: nat, fullName: string, email: string, hashedPassword: Hash,
                       createdAt: int, lastLogin: Option<int>, isActive: bool, isAdmin: bool)

  /** `user_activities`. */
  datatype Activity = Activity(id: nat, userId: nat, action: string, endpoint: Option<string>,
                               ipAddress: Option<string>, userAgent: Option<string>,
                               timestamp: int, details: Option<string>)

  /** `chat_sessions`. */
  datatype ChatSession = ChatSession(id: nat, userId: nat, title: string, createdAt: int)

  /** `chat_messages`. */
  datatype ChatMessage = ChatMessage(id: nat, userId: nat, sessionId: nat, sender: string,
                                     message: string, timestamp: int)

  /** `tasks`: there is no completion column. */
  datatype Task = Task(id: nat, userId: nat, title: string, due: Option<string>,
                       description: Option<string>, createdAt: int)

  /** `events`: there is no RSVP column. */
  datatype Event = Event(id: nat, title: string, date: Option<string>, description: Option<string>, createdAt: int)

  /** `meetings`: there is no RSVP column. */
  datatype Meeting = Meeting(id: nat, title: string, time: Option<string>, description: Option<string>, createdAt: int)

  /** `HTTPException(status_code, detail)`. */
  datatype HttpError = HttpError(status: int, detail: string)

  /** Every user has id position+1, and no two users share an email (`unique=True`). */
  predicate UsersWellFormed(users: seq<User>) {
    && (forall i :: 0 <= i < |users| ==> users[i].id == i + 1)
    && (forall i, j :: 0 <= i < j < |users| ==> users[i].email != users[j].email)
  }

  predicate ActivityIds(activities: seq<Activity>) {
    forall i :: 0 <= i < |activities| ==> activities[i].id == i + 1
  }

  predicate SessionIds(sessions: seq<ChatSession>) {
    forall i :: 0 <= i < |sessions| ==> sessions[i].id == i + 1
  }

  predicate MessageIds(messages: seq<ChatMessage>) {
    forall i :: 0 <= i < |messages| ==> messages[i].id == i + 1
  }

  predicate TaskIds(tasks: seq<Task>) {
    forall i :: 0 <= i < |tasks| ==> tasks[i].id == i + 1
  }

  predicate EventIds(events: seq<Event>) {
    forall i :: 0 <= i < |events| ==> events[i].id == i + 1
  }

  predicate MeetingIds(meetings: seq<Meeting>) {
    forall i :: 0 <= i < |meetings| ==> meetings[i].id == i + 1
  }

  class Database {
    var users: seq<User>
    var activities: seq<Activity>
    var sessions: seq<ChatSession>
    var messages: seq<ChatMessage>
    var tasks: seq<Task>
    var events: seq<Event>
    var meetings: seq<Meeting>
    /** Ids of the tasks marked done, and of the events and meetings answered; not columns of the schema. */
    var completedTasks: set<nat>
    var rsvpedEvents: set<nat>
    var rsvpedMeetings: set<nat>

    /** An empty database. */
    constructor ()
      ensures users == [] && activities == [] && sessions == [] && messages == []
      ensures tasks == [] && events == [] && meetings == []
      ensures completedTasks == {} && rsvpedEvents == {} && rsvpedMeetings == {}
      ensures UsersWellFormed(users) && ActivityIds(activities) && SessionIds(sessions)
      ensures MessageIds(messages) && TaskIds(tasks) && EventIds(events) && MeetingIds(meetings)
    {
      users := [];
      activities := [];
      sessions := [];
      messages := [];
      tasks := [];
      events := [];
      meetings := [];
      completedTasks := {};
      rsvpedEvents := {};
      rsvpedMeetings := {};
    }
  }
}
