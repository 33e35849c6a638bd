/**
 * Backend/routes/employee_routes.py: employees read their tasks and everyone's
 * events and meetings, mark tasks done and answer invitations; administrators
 * add tasks, events and meetings.  Creation times are the parameter `now`.
 *
 * The three marking routes assign `completed` or `rsvped` on the loaded row,
 * but the models declare no such columns, so the commit stores nothing: the
 * routes as written change no state.  The `...Recorded` methods are the
 * evidently intended routes, which keep the marks in the database.
 *
 * Every reply passes FastAPI's check against the route's response model, where
 * `due`, `date` and `time` are `str` fields whose default alone may be None:
 * a row whose column is NULL makes the route answer 500, after any commit.
 * The request models declare the same fields as `str = None`, so leaving one
 * out stores NULL while an explicit `null` is refused with 422.
 */
module EmployeeRoutes {
  import opened Wrappers
  import opened Store
  import opened Queries

  const TaskNotFound := HttpError(404, "Task not found")
  const EventNotFound := HttpError(404, "Event not found")
  const MeetingNotFound := HttpError(404, "Meeting not found")
  const AdminRequired := HttpError(403, "Admin access required")
  /** A reply that fails its response model: Starlette's plain 500. */
  const InvalidResponse := HttpError(500, "Internal Server Error")
  /** A request body that fails its request model. */
  const InvalidRequest := HttpError(422, "Unprocessable Entity")

  /** A row passes `TaskResponse`, `EventResponse` or `MeetingResponse`: the `str` field is not NULL. */
  predicate TaskShown(t: Task) {
    t.due.Some?
  }

  predicate EventShown(e: Event) {
    e.date.Some?
  }

  predicate MeetingShown(m: Meeting) {
    m.time.Some?
  }

  predicate OwnedTask(t: Task, taskId: int, userId: nat) {
    t.id == taskId && t.userId == userId
  }

  /** `Task.id == task_id, Task.user_id == current_user.id` matches some row. */
  predicate HasOwnedTask(tasks: seq<Task>, taskId: int, userId: nat) {
    exists i :: 0 <= i < |tasks| && OwnedTask(tasks[i], taskId, userId)
  }

  predicate HasEvent(events: seq<Event>, eventId: int) {
    exists i :: 0 <= i < |events| && events[i].id == eventId
  }

  predicate HasMeeting(meetings: seq<Meeting>, meetingId: int) {
    exists i :: 0 <= i < |meetings| && meetings[i].id == meetingId
  }

  /**
   * `mark_task_done` as written: 404 unless the task exists and belongs to the
   * user, otherwise the row as stored, or 500 when its `due` is NULL; the
   * assignment to the undeclared `completed` attribute is not persisted, so
   * nothing changes.
   */
  method MarkTaskDone(db: Database, user: User, taskId: int) returns (r: Result<Task, HttpError>)
    ensures r == Err(TaskNotFound) <==> !HasOwnedTask(db.tasks, taskId, user.id)
    ensures r.Err? ==> r.error in {TaskNotFound, InvalidResponse}
    ensures r.Ok? ==> r.value in db.tasks && OwnedTask(r.value, taskId, user.id) && TaskShown(r.value)
    ensures r == Err(InvalidResponse) ==> exists t :: t in db.tasks && OwnedTask(t, taskId, user.id) && !TaskShown(t)
    ensures HasOwnedTask(db.tasks, taskId, user.id) ==>
      (forall t :: t in db.tasks && OwnedTask(t, taskId, user.id) ==> TaskShown(t)) ==> r.Ok?
  {
    var found := First(db.tasks, (t: Task) => OwnedTask(t, taskId, user.id));
    if found.None? {
      return Err(TaskNotFound);
    }
    var task := db.tasks[found.value];
    r := if TaskShown(task) then Ok(task) else Err(InvalidResponse);
  }

  /**
   * `rsvp_event` as written: 404 only when no event has the id, nobody's
   * ownership is checked, 500 when its `date` is NULL; nothing changes.
   */
  method RsvpEvent(db: Database, eventId: int) returns (r: Result<Event, HttpError>)
    ensures r == Err(EventNotFound) <==> !HasEvent(db.events, eventId)
    ensures r.Err? ==> r.error in {EventNotFound, InvalidResponse}
    ensures r.Ok? ==> r.value in db.events && r.value.id == eventId && EventShown(r.value)
    ensures r == Err(InvalidResponse) ==> exists e :: e in db.events && e.id == eventId && !EventShown(e)
    ensures HasEvent(db.events, eventId) ==>
      (forall e :: e in db.events && e.id == eventId ==> EventShown(e)) ==> r.Ok?
  {
    var found := First(db.events, (e: Event) => e.id == eventId);
    if found.None? {
      return Err(EventNotFound);
    }
    var event := db.events[found.value];
    r := if EventShown(event) then Ok(event) else Err(InvalidResponse);
  }

  /** `rsvp_meeting` as written: as `rsvp_event`, over meetings and their `time`. */
  method RsvpMeeting(db: Database, meetingId: int) returns (r: Result<Meeting, HttpError>)
    ensures r == Err(MeetingNotFound) <==> !HasMeeting(db.meetings, meetingId)
    ensures r.Err? ==> r.error in {MeetingNotFound, InvalidResponse}
    ensures r.Ok? ==> r.value in db.meetings && r.value.id == meetingId && MeetingShown(r.value)
    ensures r == Err(InvalidResponse) ==> exists m :: m in db.meetings && m.id == meetingId && !MeetingShown(m)
    ensures HasMeeting(db.meetings, meetingId) ==>
      (forall m :: m in db.meetings && m.id == meetingId ==> MeetingShown(m)) ==> r.Ok?
  {
    var found := First(db.meetings, (m: Meeting) => m.id == meetingId);
    if found.None? {
      return Err(MeetingNotFound);
    }
    var meeting := db.meetings[found.value];
    r := if MeetingShown(meeting) then Ok(meeting) else Err(InvalidResponse);
  }

  /**
   * Marking a task done as written leaves no trace: a task with a due date,
   * not marked before, is still not marked afterwards, although the route
   * answered with success.
   */
  method DoneIsLost(db: Database, user: User, taskId: int) returns (r: Result<Task, HttpError>)
    requires HasOwnedTask(db.tasks, taskId, user.id) && taskId !in db.completedTasks
    requires forall t :: t in db.tasks && OwnedTask(t, taskId, user.id) ==> TaskShown(t)
    ensures r.Ok? && r.value.id == taskId
    ensures taskId !in db.completedTasks
  {
    r := MarkTaskDone(db, user, taskId);
  }

  /** The same for an invitation with a date, answered as written. */
  method RsvpIsLost(db: Database, eventId: int) returns (r: Result<Event, HttpError>)
    requires HasEvent(db.events, eventId) && eventId !in db.rsvpedEvents
    requires forall e :: e in db.events && e.id == eventId ==> EventShown(e)
    ensures r.Ok? && r.value.id == eventId
    ensures eventId !in db.rsvpedEvents
  {
    r := RsvpEvent(db, eventId);
  }

  /**
   * `mark_task_done` as intended: the same checks and replies, and the mark
   * is stored once the task is found, since the commit precedes the reply.
   */
  method MarkTaskDoneRecorded(db: Database, user: User, taskId: int) returns (r: Result<Task, HttpError>)
    modifies db`completedTasks
    ensures r == Err(TaskNotFound) <==> !HasOwnedTask(db.tasks, taskId, user.id)
    ensures r.Err? ==> r.error in {TaskNotFound, InvalidResponse}
    ensures r.Ok? ==> r.value in db.tasks && OwnedTask(r.value, taskId, user.id) && TaskShown(r.value)
    ensures HasOwnedTask(db.tasks, taskId, user.id) ==>
      (forall t :: t in db.tasks && OwnedTask(t, taskId, user.id) ==> TaskShown(t)) ==> r.Ok?
    ensures r == Err(TaskNotFound) ==> db.completedTasks == old(db.completedTasks)
    ensures r != Err(TaskNotFound) ==> db.completedTasks == old(db.completedTasks) + {taskId}
  {
    r := MarkTaskDone(db, user, taskId);
    if r != Err(TaskNotFound) {
      db.completedTasks := db.completedTasks + {taskId};
    }
  }

  /** `rsvp_event` as intended: the answer is stored; answering twice is answering once. */
  method RsvpEventRecorded(db: Database, eventId: int) returns (r: Result<Event, HttpError>)
    modifies db`rsvpedEvents
    ensures r == Err(EventNotFound) <==> !HasEvent(db.events, eventId)
    ensures r.Err? ==> r.error in {EventNotFound, InvalidResponse}
    ensures r.Ok? ==> r.value in db.events && r.value.id == eventId && EventShown(r.value)
    ensures r == Err(EventNotFound) ==> db.rsvpedEvents == old(db.rsvpedEvents)
    ensures r != Err(EventNotFound) ==> db.rsvpedEvents == old(db.rsvpedEvents) + {eventId}
  {
    r := RsvpEvent(db, eventId);
    if r != Err(EventNotFound) {
      db.rsvpedEvents := db.rsvpedEvents + {eventId};
    }
  }

  /** `rsvp_meeting` as intended. */
  method RsvpMeetingRecorded(db: Database, meetingId: int) returns (r: Result<Meeting, HttpError>)
    modifies db`rsvpedMeetings
    ensures r == Err(MeetingNotFound) <==> !HasMeeting(db.meetings, meetingId)
    ensures r.Err? ==> r.error in {MeetingNotFound, InvalidResponse}
    ensures r.Ok? ==> r.value in db.meetings && r.value.id == meetingId && MeetingShown(r.value)
    ensures r == Err(MeetingNotFound) ==> db.rsvpedMeetings == old(db.rsvpedMeetings)
    ensures r != Err(MeetingNotFound) ==> db.rsvpedMeetings == old(db.rsvpedMeetings) + {meetingId}
  {
    r := RsvpMeeting(db, meetingId);
    if r != Err(MeetingNotFound) {
      db.rsvpedMeetings := db.rsvpedMeetings + {meetingId};
    }
  }

  /**
   * A task marked done by the intended route reads as done, marking it again
   * changes nothing and gives the same reply, and that reply is the row
   * exactly when its `due` is set.
   */
  method MarkTwice(db: Database, user: User, taskId: int) returns (first: Result<Task, HttpError>, second: Result<Task, HttpError>)
    modifies db`completedTasks
    requires TaskIds(db.tasks) && HasOwnedTask(db.tasks, taskId, user.id)
    ensures second == first
    ensures 1 <= taskId <= |db.tasks| && (first.Ok? <==> TaskShown(db.tasks[taskId - 1]))
    ensures taskId in db.completedTasks
    ensures db.completedTasks == old(db.completedTasks) + {taskId}
  {
    var i :| 0 <= i < |db.tasks| && OwnedTask(db.tasks[i], taskId, user.id);
    UniqueTask(db.tasks, db.tasks[i]);
    first := MarkTaskDoneRecorded(db, user, taskId);
    ghost var once := db.completedTasks;
    second := MarkTaskDoneRecorded(db, user, taskId);
    assert db.completedTasks == once;
    OwnedTaskUnique(db.tasks, taskId, user.id);
    if first.Ok? {
      assert second.Ok?;
      UniqueTask(db.tasks, first.value);
      UniqueTask(db.tasks, second.value);
    }
  }

  predicate OwnedBy(t: Task, userId: nat) {
    t.userId == userId
  }

  /** The rows of `get_tasks`: the user's tasks, in table order. */
  function UserTasks(tasks: seq<Task>, userId: nat): seq<Task> {
    Filter(tasks, (t: Task) => OwnedBy(t, userId))
  }

  /** `get_tasks`: the user's tasks, or 500 when one of them has no `due`. */
  function GetTasks(tasks: seq<Task>, userId: nat): Result<seq<Task>, HttpError> {
    var rows := UserTasks(tasks, userId);
    if forall k :: 0 <= k < |rows| ==> TaskShown(rows[k]) then Ok(rows) else Err(InvalidResponse)
  }

  /** `get_events`: every event, whoever asks, or 500 when one of them has no `date`. */
  function GetEvents(events: seq<Event>, userId: nat): (r: Result<seq<Event>, HttpError>)
    ensures r.Ok? <==> forall e :: e in events ==> EventShown(e)
    ensures r.Ok? ==> r.value == events
    ensures r.Err? ==> r.error == InvalidResponse
  {
    if forall k :: 0 <= k < |events| ==> EventShown(events[k]) then Ok(events) else Err(InvalidResponse)
  }

  /** `get_meetings`: every meeting, whoever asks, or 500 when one of them has no `time`. */
  function GetMeetings(meetings: seq<Meeting>, userId: nat): (r: Result<seq<Meeting>, HttpError>)
    ensures r.Ok? <==> forall m :: m in meetings ==> MeetingShown(m)
    ensures r.Ok? ==> r.value == meetings
    ensures r.Err? ==> r.error == InvalidResponse
  {
    if forall k :: 0 <= k < |meetings| ==> MeetingShown(meetings[k]) then Ok(meetings) else Err(InvalidResponse)
  }

  /** A `str = None` field of a request body: left out, an explicit `null`, or a text. */
  datatype Field = Absent | Null | Given(s: string)

  /** The stored column: NULL when the field was left out. */
  function Column(f: Field): (c: Option<string>)
    requires f != Null
    ensures c.Some? <==> f.Given?
    ensures f.Given? ==> c.value == f.s
  {
    if f.Given? then Some(f.s) else None
  }

  /** `TaskCreate`; the owner of the new task is given by the administrator. */
  datatype TaskCreate = TaskCreate(userId: nat, title: string, due: Field, description: Field) {
    /** Pydantic accepts the body: no `str` field is an explicit `null`. */
    predicate Valid() {
      due != Null && description != Null
    }
  }

  datatype EventCreate = EventCreate(title: string, date: Field, description: Field) {
    predicate Valid() {
      date != Null && description != Null
    }
  }

  datatype MeetingCreate = MeetingCreate(title: string, time: Field, description: Field) {
    predicate Valid() {
      time != Null && description != Null
    }
  }

  /**
   * `create_task`: 422 and nothing added for a body with an explicit `null`;
   * 403 and nothing added for a non-administrator; otherwise one row made from
   * the request is committed, and the reply is that row, or 500 when it has no
   * `due`.
   */
  method CreateTask(db: Database, current: User, req: TaskCreate, now: int) returns (r: Result<Task, HttpError>)
    modifies db`tasks
    requires TaskIds(db.tasks)
    ensures TaskIds(db.tasks)
    ensures !req.Valid() ==> r == Err(InvalidRequest) && db.tasks == old(db.tasks)
    ensures req.Valid() && !current.isAdmin ==> r == Err(AdminRequired) && db.tasks == old(db.tasks)
    ensures req.Valid() && current.isAdmin ==>
      var t := Task(|old(db.tasks)| + 1, req.userId, req.title, Column(req.due), Column(req.description), now);
      && db.tasks == old(db.tasks) + [t]
      && r == (if req.due.Given? then Ok(t) else Err(InvalidResponse))
  {
    if !req.Valid() {
      return Err(InvalidRequest);
    }
    if !current.isAdmin {
      return Err(AdminRequired);
    }
    var t := Task(|db.tasks| + 1, req.userId, req.title, Column(req.due), Column(req.description), now);
    db.tasks := db.tasks + [t];
    r := if TaskShown(t) then Ok(t) else Err(InvalidResponse);
  }

  /** `create_event`: as `create_task`, over events and their `date`. */
  method CreateEvent(db: Database, current: User, req: EventCreate, now: int) returns (r: Result<Event, HttpError>)
    modifies db`events
    requires EventIds(db.events)
    ensures EventIds(db.events)
    ensures !req.Valid() ==> r == Err(InvalidRequest) && db.events == old(db.events)
    ensures req.Valid() && !current.isAdmin ==> r == Err(AdminRequired) && db.events == old(db.events)
    ensures req.Valid() && current.isAdmin ==>
      var e := Event(|old(db.events)| + 1, req.title, Column(req.date), Column(req.description), now);
      && db.events == old(db.events) + [e]
      && r == (if req.date.Given? then Ok(e) else Err(InvalidResponse))
  {
    if !req.Valid() {
      return Err(InvalidRequest);
    }
    if !current.isAdmin {
      return Err(AdminRequired);
    }
    var e := Event(|db.events| + 1, req.title, Column(req.date), Column(req.description), now);
    db.events := db.events + [e];
    r := if EventShown(e) then Ok(e) else Err(InvalidResponse);
  }

  /** `create_meeting`: as `create_task`, over meetings and their `time`. */
  method CreateMeeting(db: Database, current: User, req: MeetingCreate, now: int) returns (r: Result<Meeting, HttpError>)
    modifies db`meetings
    requires MeetingIds(db.meetings)
    ensures MeetingIds(db.meetings)
    ensures !req.Valid() ==> r == Err(InvalidRequest) && db.meetings == old(db.meetings)
    ensures req.Valid() && !current.isAdmin ==> r == Err(AdminRequired) && db.meetings == old(db.meetings)
    ensures req.Valid() && current.isAdmin ==>
      var m := Meeting(|old(db.meetings)| + 1, req.title, Column(req.time), Column(req.description), now);
      && db.meetings == old(db.meetings) + [m]
      && r == (if req.time.Given? then Ok(m) else Err(InvalidResponse))
  {
    if !req.Valid() {
      return Err(InvalidRequest);
    }
    if !current.isAdmin {
      return Err(AdminRequired);
    }
    var m := Meeting(|db.meetings| + 1, req.title, Column(req.time), Column(req.description), now);
    db.meetings := db.meetings + [m];
    r := if MeetingShown(m) then Ok(m) else Err(InvalidResponse);
  }

  // ---------------------------------------------------------------- properties

  /** With ids equal to positions, the row carrying an id is the one at that position. */
  lemma UniqueTask(tasks: seq<Task>, t: Task)
    requires TaskIds(tasks) && t in tasks
    ensures 1 <= t.id <= |tasks| && tasks[t.id - 1] == t
  {
  }

  /** With ids equal to positions, every row matching an owned task id is the same row. */
  lemma OwnedTaskUnique(tasks: seq<Task>, taskId: int, userId: nat)
    requires TaskIds(tasks) && HasOwnedTask(tasks, taskId, userId)
    ensures 1 <= taskId <= |tasks|
    ensures forall t :: t in tasks && OwnedTask(t, taskId, userId) ==> t == tasks[taskId - 1]
  {
  }

  /**
   * A user's task list is exactly the tasks assigned to that user, answered
   * when every one of them has a `due`; otherwise the route answers 500.
   */
  lemma GetTasksSpec(tasks: seq<Task>, userId: nat)
    ensures forall t :: t in UserTasks(tasks, userId) <==> t in tasks && t.userId == userId
    ensures GetTasks(tasks, userId).Ok? <==> forall t :: t in tasks && t.userId == userId ==> TaskShown(t)
    ensures GetTasks(tasks, userId).Ok? ==> GetTasks(tasks, userId).value == UserTasks(tasks, userId)
    ensures GetTasks(tasks, userId).Err? ==> GetTasks(tasks, userId).error == InvalidResponse
  {
    FilterMembers(tasks, (t: Task) => OwnedBy(t, userId));
  }

  /**
   * A created task is appended to its assignee's list and to nobody else's,
   * whoever created it.
   */
  lemma TaskCreatedVisibility(tasks: seq<Task>, t: Task, other: nat)
    requires other != t.userId
    ensures UserTasks(tasks + [t], t.userId) == UserTasks(tasks, t.userId) + [t]
    ensures UserTasks(tasks + [t], other) == UserTasks(tasks, other)
  {
    FilterAppend(tasks, [t], (x: Task) => OwnedBy(x, t.userId));
    FilterAppend(tasks, [t], (x: Task) => OwnedBy(x, other));
    assert Filter([t], (x: Task) => OwnedBy(x, t.userId)) == [t];
    assert Filter([t], (x: Task) => OwnedBy(x, other)) == [];
  }

  /**
   * A task created without `due` is stored, yet its assignee's task list then
   * answers 500, as does marking it done.
   */
  lemma UndatedTaskBreaksList(tasks: seq<Task>, t: Task)
    requires !TaskShown(t)
    ensures GetTasks(tasks + [t], t.userId) == Err(InvalidResponse)
  {
    GetTasksSpec(tasks + [t], t.userId);
  }
}
