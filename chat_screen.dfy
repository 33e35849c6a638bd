/**
 * The protected chat screen's send-and-reveal state machine.  JavaScript runs
 * `sendMessage` and its timers on one thread, so every point where control
 * returns to the event loop becomes a method of `Screen`:
 *
 *  - `SendMessage`      the synchronous part of `sendMessage`, up to its first `await`;
 *  - `SessionCreated`   `await SessionService.createSession(...)` settling;
 *  - `ReplyArrived`     `await SessionService.sendMessage(...)` settling;
 *  - `TypingTick`       one firing of a reveal's `setInterval` callback;
 *  - `SafetyTimeout`    a reveal's 10-second `setTimeout` callback;
 *  - `FetchSessions`    `fetchSessions` settling.
 *
 * Each call of `sendMessage` has its own closure (the typed text and the session
 * it settled on), kept in `sends`; each reveal has its own closure (`fullText`,
 * `charIndex`, `displayedText` and its two timers), kept in `animations`.  Timers of
 * earlier animations therefore stay able to fire, as they do in the screen.
 */
module ChatScreen {
  import opened Wrappers
  import opened Strings
  import opened ChatTimeline
  import opened ChatReply

  // ---------------------------------------------------------------- sessions

  /** A session `id` as the client received it: the backend sends a number. */
  datatype IdValue = Undefined | Null | Num(n: int) | Text(s: string)

  datatype Session = Session(id: IdValue, title: string)

  /** JavaScript truthiness of `session.id`. */
  predicate IdTruthy(id: IdValue) {
    match id
    case Undefined => false
    case Null => false
    case Num(n) => n != 0
    case Text(s) => s != ""
  }

  predicate IsDigit(c: char) { '0' <= c <= '9' }

  predicate IsHexDigit(c: char) { IsDigit(c) || 'a' <= c <= 'f' || 'A' <= c <= 'F' }

  /**
   * `isNaN(parseInt(text))`: after leading whitespace and one optional sign,
   * a `0x`/`0X` prefix needs a hexadecimal digit after it, and anything else
   * needs a decimal digit first.
   */
  predicate ParseIntTextIsNaN(text: string) {
    var t := StripLeft(text);
    var u := if t != [] && (t[0] == '+' || t[0] == '-') then t[1..] else t;
    if |u| >= 2 && u[0] == '0' && (u[1] == 'x' || u[1] == 'X') then !(|u| >= 3 && IsHexDigit(u[2]))
    else !(u != [] && IsDigit(u[0]))
  }

  /** `isNaN(parseInt(id))`; `parseInt` reads `undefined` and `null` as the words. */
  predicate ParseIntIsNaN(id: IdValue) {
    match id
    case Undefined => true
    case Null => true
    case Num(_) => false
    case Text(s) => ParseIntTextIsNaN(s)
  }

  /** The session check at the start of a send: a truthy id that `parseInt` accepts. */
  predicate Usable(s: Session) {
    IdTruthy(s.id) && !ParseIntIsNaN(s.id)
  }

  // ---------------------------------------------------------------- closures

  /** Where one `sendMessage` call is suspended. */
  datatype Phase = CreatingSession | AwaitingReply(session: Session) | Finished

  /** One `sendMessage` call: the input it captured and where it is suspended. */
  datatype SendTask = SendTask(userInput: string, phase: Phase)

  predicate Pending(t: SendTask) { !t.phase.Finished? }

  /**
   * One reveal: the reply text, the closure counters `charIndex` and
   * `displayedText`, and whether its interval and its safety timeout are armed.
   */
  datatype Animation = Animation(fullText: string, charIndex: nat, displayedText: string,
                           ticking: bool, safetyArmed: bool)

  predicate Live(v: Animation) { v.ticking || v.safetyArmed }

  /** The text shown so far is always a prefix of the reply. */
  predicate AnimationOk(v: Animation) {
    v.fullText != "" && v.charIndex <= |v.fullText| && v.displayedText == v.fullText[..v.charIndex]
  }

  /** How many elements of `s` satisfy `p`. */
  function Tally<T>(s: seq<T>, p: T -> bool): (n: nat)
    ensures n <= |s|
  {
    if s == [] then 0 else Tally(s[..|s| - 1], p) + (if p(s[|s| - 1]) then 1 else 0)
  }

  lemma TallyAppend<T>(s: seq<T>, x: T, p: T -> bool)
    ensures Tally(s + [x], p) == Tally(s, p) + (if p(x) then 1 else 0)
  {
    assert (s + [x])[..|s|] == s;
  }

  lemma {:induction false} TallyUpdate<T>(s: seq<T>, k: nat, x: T, p: T -> bool)
    requires k < |s|
    ensures Tally(s[k := x], p) == Tally(s, p) - (if p(s[k]) then 1 else 0) + (if p(x) then 1 else 0)
  {
    if k < |s| - 1 {
      assert s[k := x][..|s| - 1] == s[..|s| - 1][k := x];
      TallyUpdate(s[..|s| - 1], k, x, p);
    } else {
      assert s[k := x][..|s| - 1] == s[..|s| - 1];
    }
  }

  predicate Awaiting(t: SendTask) { t.phase.AwaitingReply? }

  /** `Screen.SingleFlight` over the values of the fields it constrains. */
  ghost predicate Flight(messages: seq<Entry>, sends: seq<SendTask>, animations: seq<Animation>, waiting: bool) {
    var busy := Tally(sends, Pending) + Tally(animations, Live);
    && busy <= 1
    && (waiting <==> busy == 1)
    && Count(messages, Loading) <= Tally(sends, Awaiting)
    && Count(messages, Typing) <= Tally(animations, Live)
    && (forall j :: 0 <= j < |animations| ==> (animations[j].ticking <==> animations[j].safetyArmed))
  }

  /** The optimistic insert starts the one flight the discipline allows. */
  lemma OptimisticFlight(messages: seq<Entry>, sends: seq<SendTask>, animations: seq<Animation>,
                         userInput: string, session: Session)
    requires Flight(messages, sends, animations, false)
    ensures Flight(messages + [UserEntry(userInput), LoadingEntry()],
                   sends + [SendTask(userInput, AwaitingReply(session))], animations, true)
  {
    var added := [UserEntry(userInput), LoadingEntry()];
    var t := SendTask(userInput, AwaitingReply(session));
    CountAppend(messages, added, Loading);
    CountAppend(messages, added, Typing);
    TallyAppend(sends, t, Pending);
    TallyAppend(sends, t, Awaiting);
  }

  class Screen {
    var messages: seq<Entry>
    var sessions: seq<Session>
    var currentSession: Option<Session>
    var input: string
    var isWaitingResponse: bool
    var typingSpeed: real
    var sends: seq<SendTask>
    var animations: seq<Animation>

    ghost predicate Valid()
      reads this
    {
      forall j :: 0 <= j < |animations| ==> AnimationOk(animations[j])
    }

    /** Sends suspended at an `await` plus reveals with a timer armed. */
    ghost function Busy(): nat
      reads this
    {
      Tally(sends, Pending) + Tally(animations, Live)
    }

    /**
     * The single-flight discipline the screen is designed for: at most one send
     * or one reveal is in progress, the waiting flag says whether one is, a
     * placeholder exists only while its send awaits the reply, a typing entry
     * only while its reveal runs, and a reveal's two timers are armed together.
     */
    ghost predicate SingleFlight()
      reads this
    {
      Flight(messages, sends, animations, isWaitingResponse)
    }

    constructor ()
      ensures Valid() && SingleFlight()
      ensures messages == [] && sessions == [] && currentSession == None && input == ""
      ensures !isWaitingResponse && typingSpeed == 30.0 && sends == [] && animations == []
    {
      messages, sessions, currentSession, input := [], [], None, "";
      isWaitingResponse, typingSpeed, sends, animations := false, 30.0, [], [];
    }

    /** The text box's `onChangeText`. */
    method Type(text: string)
      requires Valid()
      modifies this`input
      ensures Valid() && input == text
      ensures old(SingleFlight()) ==> SingleFlight()
    {
      input := text;
    }

    /**
     * `fetchSessions`: the list replaces `sessions`; its head becomes current
     * if the closure sees no current session.  The call made on mounting
     * (`fromMount`) belongs to the first render and sees its null session,
     * so it installs the head even over a session chosen in the meantime;
     * the history button's call sees the session of the time.
     */
    method FetchSessions(outcome: Result<seq<Session>, string>, fromMount: bool)
      requires Valid()
      modifies this`sessions, this`currentSession
      ensures Valid()
      ensures outcome.Err? ==> sessions == old(sessions) && currentSession == old(currentSession)
      ensures outcome.Ok? ==> sessions == outcome.value
      ensures outcome.Ok? ==> currentSession == if (fromMount || old(currentSession) == None) && |outcome.value| > 0
                                                then Some(outcome.value[0]) else old(currentSession)
      ensures old(SingleFlight()) ==> SingleFlight()
    {
      if outcome.Ok? {
        sessions := outcome.value;
        var seen := if fromMount then None else currentSession;
        if seen == None && |outcome.value| > 0 {
          currentSession := Some(outcome.value[0]);
        }
      }
    }

    /**
     * `sendMessage` up to its first `await`.  Blank input or a reply already
     * awaited: nothing happens.  Otherwise the screen starts waiting; with a
     * usable current session the user entry and one placeholder are appended and
     * the box is cleared, and with none (or an unusable one) a session is
     * requested first and nothing is shown yet.
     */
    method SendMessage()
      requires Valid()
      modifies this`sends, this`isWaitingResponse, this`messages, this`input
      ensures Valid()
      ensures Strip(old(input)) == [] || old(isWaitingResponse) ==>
        && messages == old(messages) && sends == old(sends) && input == old(input)
        && isWaitingResponse == old(isWaitingResponse)
      ensures Strip(old(input)) != [] && !old(isWaitingResponse) ==>
        && isWaitingResponse
        && var s := old(currentSession);
           if s.Some? && Usable(s.value) then
             && messages == old(messages) + [UserEntry(old(input)), LoadingEntry()]
             && input == ""
             && sends == old(sends) + [SendTask(old(input), AwaitingReply(s.value))]
           else
             && messages == old(messages) && input == old(input)
             && sends == old(sends) + [SendTask(old(input), CreatingSession)]
      ensures old(SingleFlight()) ==> SingleFlight()
    {
      if Strip(input) == [] || isWaitingResponse {
        return;
      }
      Start();
    }

    /** The accepted send: the current session is checked and the first step taken. */
    method Start()
      requires Valid() && !isWaitingResponse
      modifies this`sends, this`isWaitingResponse, this`messages, this`input
      ensures Valid() && isWaitingResponse
      ensures var s := currentSession;
        if s.Some? && Usable(s.value) then
          && messages == old(messages) + [UserEntry(old(input)), LoadingEntry()]
          && input == ""
          && sends == old(sends) + [SendTask(old(input), AwaitingReply(s.value))]
        else
          && messages == old(messages) && input == old(input)
          && sends == old(sends) + [SendTask(old(input), CreatingSession)]
      ensures old(SingleFlight()) ==> SingleFlight()
    {
      if currentSession.Some? && Usable(currentSession.value) {
        ShowOptimistic(currentSession.value);
      } else {
        RequestSession();
      }
    }

    /** A send without a usable session starts waiting for `createSession`, showing nothing yet. */
    method RequestSession()
      requires Valid() && !isWaitingResponse
      modifies this`sends, this`isWaitingResponse
      ensures Valid() && isWaitingResponse
      ensures sends == old(sends) + [SendTask(input, CreatingSession)]
      ensures old(SingleFlight()) ==> SingleFlight()
    {
      var t := SendTask(input, CreatingSession);
      TallyAppend(sends, t, Pending);
      TallyAppend(sends, t, Awaiting);
      sends := sends + [t];
      isWaitingResponse := true;
    }

    /**
     * A send with a usable session starts waiting for the reply; the user entry
     * and one placeholder are appended and the box is cleared.
     */
    method ShowOptimistic(session: Session)
      requires Valid() && !isWaitingResponse
      modifies this`sends, this`isWaitingResponse, this`messages, this`input
      ensures Valid() && isWaitingResponse && input == ""
      ensures messages == old(messages) + [UserEntry(old(input)), LoadingEntry()]
      ensures sends == old(sends) + [SendTask(old(input), AwaitingReply(session))]
      ensures old(SingleFlight()) ==> SingleFlight()
    {
      if Flight(messages, sends, animations, false) {
        OptimisticFlight(messages, sends, animations, input, session);
      }
      messages := messages + [UserEntry(input), LoadingEntry()];
      sends := sends + [SendTask(input, AwaitingReply(session))];
      input := "";
      isWaitingResponse := true;
    }

    /** The error branch shared by both awaits: one error entry replaces the placeholders. */
    method Fail(k: nat, err: SendError)
      requires Valid() && k < |sends| && Pending(sends[k])
      modifies this`messages, this`isWaitingResponse, this`sends
      ensures Valid()
      ensures messages == DropPending(old(messages)) + [ErrorEntry(ErrorText(err, old(sends[k].userInput)))]
      ensures !isWaitingResponse
      ensures sends == old(sends)[k := SendTask(old(sends[k].userInput), Finished)]
      ensures old(SingleFlight()) ==> SingleFlight()
    {
      var text := ErrorText(err, sends[k].userInput);
      DropPendingKeeps(messages);
      CountAppend(DropPending(messages), [ErrorEntry(text)], Loading);
      CountAppend(DropPending(messages), [ErrorEntry(text)], Typing);
      messages := DropPending(messages) + [ErrorEntry(text)];
      var t := SendTask(sends[k].userInput, Finished);
      TallyUpdate(sends, k, t, Pending);
      TallyUpdate(sends, k, t, Awaiting);
      sends := sends[k := t];
      isWaitingResponse := false;
    }

    /**
     * `await SessionService.createSession('New Chat')` settling.  A new session
     * becomes current, is put first in the list, and the user entry and the
     * placeholder are appended; a failure appends the error entry only, so no
     * user entry was ever shown for this send.
     */
    method SessionCreated(k: nat, outcome: Result<Session, SendError>)
      requires Valid() && k < |sends| && sends[k].phase == CreatingSession
      modifies this`currentSession, this`sessions, this`messages, this`input, this`sends, this`isWaitingResponse
      ensures Valid()
      ensures outcome.Ok? ==>
        && currentSession == Some(outcome.value)
        && sessions == [outcome.value] + old(sessions)
        && messages == old(messages) + [UserEntry(old(sends[k].userInput)), LoadingEntry()]
        && input == ""
        && sends == old(sends)[k := SendTask(old(sends[k].userInput), AwaitingReply(outcome.value))]
        && isWaitingResponse == old(isWaitingResponse)
      ensures outcome.Err? ==>
        && currentSession == old(currentSession) && sessions == old(sessions) && input == old(input)
        && messages == DropPending(old(messages)) + [ErrorEntry(ErrorText(outcome.error, old(sends[k].userInput)))]
        && sends == old(sends)[k := SendTask(old(sends[k].userInput), Finished)]
        && !isWaitingResponse
      ensures old(SingleFlight()) ==> SingleFlight()
    {
      match outcome
      case Err(e) =>
        Fail(k, e);
      case Ok(session) =>
        Open(k, session);
    }

    /** The success branch of `SessionCreated`. */
    method Open(k: nat, session: Session)
      requires Valid() && k < |sends| && sends[k].phase == CreatingSession
      modifies this`currentSession, this`sessions, this`messages, this`input, this`sends
      ensures Valid()
      ensures currentSession == Some(session) && sessions == [session] + old(sessions)
      ensures messages == old(messages) + [UserEntry(old(sends[k].userInput)), LoadingEntry()]
      ensures input == ""
      ensures sends == old(sends)[k := SendTask(old(sends[k].userInput), AwaitingReply(session))]
      ensures old(SingleFlight()) ==> SingleFlight()
    {
      var userInput := sends[k].userInput;
      currentSession := Some(session);
      sessions := [session] + sessions;
      var added := [UserEntry(userInput), LoadingEntry()];
      CountAppend(messages, added, Loading);
      CountAppend(messages, added, Typing);
      messages := messages + added;
      input := "";
      var t := SendTask(userInput, AwaitingReply(session));
      TallyUpdate(sends, k, t, Pending);
      TallyUpdate(sends, k, t, Awaiting);
      sends := sends[k := t];
    }

    /**
     * `await SessionService.sendMessage(...)` settling.  A reply removes every
     * placeholder, appends one empty typing entry and starts a reveal of the
     * reply text with both of its timers; a failure takes the error branch.
     */
    method ReplyArrived(k: nat, outcome: Result<Reply, SendError>)
      requires Valid() && k < |sends| && sends[k].phase.AwaitingReply?
      modifies this`messages, this`animations, this`typingSpeed, this`sends, this`isWaitingResponse
      ensures Valid()
      ensures outcome.Ok? ==>
        && var text := ReplyText(outcome.value);
        && messages == DropLoading(old(messages)) + [TypingEntry()]
        && animations == old(animations) + [Animation(text, 0, "", true, true)]
        && typingSpeed == TickInterval(|text|)
        && sends == old(sends)[k := SendTask(old(sends[k].userInput), Finished)]
        && isWaitingResponse == old(isWaitingResponse)
      ensures outcome.Err? ==>
        && messages == DropPending(old(messages)) + [ErrorEntry(ErrorText(outcome.error, old(sends[k].userInput)))]
        && sends == old(sends)[k := SendTask(old(sends[k].userInput), Finished)]
        && animations == old(animations) && typingSpeed == old(typingSpeed)
        && !isWaitingResponse
      ensures old(SingleFlight()) ==> SingleFlight()
    {
      match outcome
      case Err(e) =>
        Fail(k, e);
      case Ok(res) =>
        Reveal(k, ReplyText(res));
    }

    /** The success branch of `ReplyArrived`, once the reply text is chosen. */
    method Reveal(k: nat, text: string)
      requires Valid() && k < |sends| && sends[k].phase.AwaitingReply? && text != ""
      modifies this`messages, this`animations, this`typingSpeed, this`sends
      ensures Valid()
      ensures messages == DropLoading(old(messages)) + [TypingEntry()]
      ensures animations == old(animations) + [Animation(text, 0, "", true, true)]
      ensures typingSpeed == TickInterval(|text|)
      ensures sends == old(sends)[k := SendTask(old(sends[k].userInput), Finished)]
      ensures old(SingleFlight()) ==> SingleFlight()
    {
      typingSpeed := TickInterval(|text|);
      DropLoadingCounts(messages);
      CountAppend(DropLoading(messages), [TypingEntry()], Loading);
      CountAppend(DropLoading(messages), [TypingEntry()], Typing);
      messages := DropLoading(messages) + [TypingEntry()];
      var v := Animation(text, 0, "", true, true);
      TallyAppend(animations, v, Live);
      animations := animations + [v];
      var t := SendTask(sends[k].userInput, Finished);
      TallyUpdate(sends, k, t, Pending);
      TallyUpdate(sends, k, t, Awaiting);
      sends := sends[k := t];
    }

    /**
     * One firing of reveal `r`'s interval.  While text remains, the next 1 (or,
     * for replies over 500 characters, 3) characters are added to the shown text
     * and written into the first typing entry.  Otherwise both timers are
     * cleared, the first typing entry becomes the full reply, and waiting ends.
     */
    method TypingTick(r: nat)
      requires Valid() && r < |animations| && animations[r].ticking
      modifies this`messages, this`animations, this`isWaitingResponse
      ensures Valid()
      ensures var v := old(animations[r]);
        if v.charIndex < |v.fullText| then
          && var next := if v.charIndex + CharsPerTick(|v.fullText|) < |v.fullText|
                         then v.charIndex + CharsPerTick(|v.fullText|) else |v.fullText|;
          && animations == old(animations)[r := v.(charIndex := next, displayedText := v.fullText[..next])]
          && messages == ShowTyping(old(messages), v.fullText[..next])
          && isWaitingResponse == old(isWaitingResponse)
        else
          && animations == old(animations)[r := v.(ticking := false, safetyArmed := false)]
          && messages == FinishTyping(old(messages), v.fullText)
          && !isWaitingResponse
      ensures old(SingleFlight()) ==> SingleFlight()
    {
      if animations[r].charIndex < |animations[r].fullText| {
        AdvanceTick(r);
      } else {
        FinishTick(r);
      }
    }

    /** A tick with text left to show. */
    method AdvanceTick(r: nat)
      requires Valid() && r < |animations| && animations[r].ticking
      requires animations[r].charIndex < |animations[r].fullText|
      modifies this`messages, this`animations
      ensures Valid()
      ensures var v := old(animations[r]);
        && var next := if v.charIndex + CharsPerTick(|v.fullText|) < |v.fullText|
                       then v.charIndex + CharsPerTick(|v.fullText|) else |v.fullText|;
        && animations == old(animations)[r := v.(charIndex := next, displayedText := v.fullText[..next])]
        && messages == ShowTyping(old(messages), v.fullText[..next])
      ensures old(SingleFlight()) ==> SingleFlight()
    {
      var v := animations[r];
      var step := CharsPerTick(|v.fullText|);
      var endIdx := if v.charIndex + step < |v.fullText| then v.charIndex + step else |v.fullText|;
      var shown := v.displayedText + v.fullText[v.charIndex..endIdx];
      assert shown == v.fullText[..endIdx];
      var v' := v.(charIndex := endIdx, displayedText := shown);
      TallyUpdate(animations, r, v', Live);
      animations := animations[r := v'];
      ShowTypingCounts(messages, shown, Loading);
      ShowTypingCounts(messages, shown, Typing);
      messages := ShowTyping(messages, shown);
    }

    /**
     * The tick that finds nothing left to show: both timers of reveal `r` are
     * cleared, the first typing entry becomes the full reply, and waiting ends.
     */
    method FinishTick(r: nat)
      requires Valid() && r < |animations| && Live(animations[r])
      modifies this`messages, this`animations, this`isWaitingResponse
      ensures Valid()
      ensures animations == old(animations)[r := old(animations[r]).(ticking := false, safetyArmed := false)]
      ensures messages == FinishTyping(old(messages), old(animations[r].fullText))
      ensures !isWaitingResponse
      ensures old(SingleFlight()) ==> SingleFlight()
    {
      var v := animations[r];
      var v' := v.(ticking := false, safetyArmed := false);
      TallyUpdate(animations, r, v', Live);
      animations := animations[r := v'];
      FinishTypingCounts(messages, v.fullText);
      messages := FinishTyping(messages, v.fullText);
      isWaitingResponse := false;
    }

    /**
     * The 10-second safety timeout of reveal `r`, as the screen has it: the first
     * typing entry becomes the full reply and waiting ends, but the reveal's
     * interval is left running.
     */
    method SafetyTimeout(r: nat)
      requires Valid() && r < |animations| && animations[r].safetyArmed
      modifies this`messages, this`animations, this`isWaitingResponse
      ensures Valid()
      ensures animations == old(animations)[r := old(animations[r]).(safetyArmed := false)]
      ensures messages == FinishTyping(old(messages), old(animations[r].fullText))
      ensures !isWaitingResponse
    {
      var v := animations[r];
      animations := animations[r := v.(safetyArmed := false)];
      messages := FinishTyping(messages, v.fullText);
      isWaitingResponse := false;
    }

    /**
     * The safety timeout as the unused helper `ensureTypingCompletes` writes it:
     * it also clears the reveal's interval, which keeps the single-flight
     * discipline.
     */
    method SafetyTimeoutStoppingTicker(r: nat)
      requires Valid() && r < |animations| && animations[r].safetyArmed
      modifies this`messages, this`animations, this`isWaitingResponse
      ensures Valid()
      ensures animations == old(animations)[r := old(animations[r]).(safetyArmed := false, ticking := false)]
      ensures messages == FinishTyping(old(messages), old(animations[r].fullText))
      ensures !isWaitingResponse
      ensures old(SingleFlight()) ==> SingleFlight()
    {
      FinishTick(r);
    }
  }

  // ---------------------------------------------------------------- scenarios

  /** Input whose first character is not whitespace is not blank. */
  lemma NotBlank(s: string)
    requires s != [] && !IsSpace(s[0])
    ensures Strip(s) != []
  {
    StripEmptyIff(s);
  }

  /** A string whose first character is a lower-case letter is not a number to `parseInt`. */
  lemma WordIdIsNaN(id: string)
    requires id != [] && 'a' <= id[0] <= 'z'
    ensures ParseIntTextIsNaN(id)
  {
    assert StripLeft(id) == id;
  }

  /** From an empty screen, a non-blank question with no session: one is requested. */
  method Typed(question: string) returns (screen: Screen)
    requires question != [] && !IsSpace(question[0])
    ensures fresh(screen) && screen.Valid() && screen.SingleFlight()
    ensures screen.messages == [] && screen.sends == [SendTask(question, CreatingSession)]
    ensures screen.currentSession == None && screen.animations == [] && screen.isWaitingResponse
  {
    screen := new Screen();
    screen.Type(question);
    assert screen.SingleFlight() && !screen.isWaitingResponse && screen.currentSession == None;
    NotBlank(question);
    screen.SendMessage();
  }

  /**
   * From an empty screen: a non-blank question and a new session.  The question
   * is shown with one placeholder after it and its reply is awaited.
   */
  method Asked(question: string) returns (screen: Screen)
    requires question != [] && !IsSpace(question[0])
    ensures fresh(screen) && screen.Valid() && screen.SingleFlight()
    ensures screen.messages == [UserEntry(question), LoadingEntry()]
    ensures screen.sends == [SendTask(question, AwaitingReply(Session(Num(1), "New Chat")))]
    ensures screen.currentSession == Some(Session(Num(1), "New Chat"))
    ensures screen.animations == [] && screen.isWaitingResponse
  {
    screen := Typed(question);
    screen.SessionCreated(0, Ok(Session(Num(1), "New Chat")));
  }

  /**
   * ... and a reply whose `response` is `answer`: the placeholder gives way to
   * an empty typing entry and the reveal of the answer is running.
   */
  method Ask(question: string, answer: string) returns (screen: Screen)
    requires question != [] && !IsSpace(question[0]) && answer != ""
    ensures fresh(screen) && screen.Valid() && screen.SingleFlight()
    ensures screen.messages == [UserEntry(question), TypingEntry()]
    ensures screen.animations == [Animation(answer, 0, "", true, true)]
    ensures screen.sends == [SendTask(question, Finished)]
    ensures screen.currentSession == Some(Session(Num(1), "New Chat"))
    ensures screen.isWaitingResponse
  {
    screen := Asked(question);
    ghost var asked := [UserEntry(question)];
    DropLoadingAppend(asked, [LoadingEntry()]);
    DropLoadingNone(asked);
    assert DropLoading([LoadingEntry()]) == [];
    assert DropLoading(screen.messages) == asked;
    var reply := Reply(None, Some(answer), None);
    assert ReplyText(reply) == answer;
    screen.ReplyArrived(0, Ok(reply));
  }

  /**
   * Reveal `r`'s interval fires until it stops by itself.  The typing entry
   * after `asked` ends as the whole text of reveal `r`, waiting ends, and no
   * other reveal is touched.
   */
  method RunOut(screen: Screen, r: nat, ghost asked: seq<Entry>)
    requires screen.Valid() && r < |screen.animations|
    requires screen.animations[r].ticking && screen.animations[r].charIndex == 0
    requires Count(asked, Typing) == 0 && screen.messages == asked + [TypingEntry()]
    modifies screen
    ensures screen.Valid() && |screen.animations| == |old(screen.animations)|
    ensures screen.messages == asked + [FinalEntry(old(screen.animations[r].fullText))]
    ensures !screen.isWaitingResponse && !screen.animations[r].ticking
    ensures forall j :: 0 <= j < |screen.animations| && j != r ==> screen.animations[j] == old(screen.animations[j])
  {
    ghost var text := screen.animations[r].fullText;
    FindTypingAppend(asked, TypingEntry());
    while screen.animations[r].ticking
      invariant screen.Valid() && |screen.animations| == |old(screen.animations)| && r < |screen.animations|
      invariant screen.animations[r].fullText == text
      invariant forall j :: 0 <= j < |screen.animations| && j != r ==> screen.animations[j] == old(screen.animations[j])
      invariant screen.animations[r].ticking ==>
        screen.messages == asked + [TypingEntry().(text := screen.animations[r].displayedText)]
      invariant !screen.animations[r].ticking ==>
        screen.messages == asked + [FinalEntry(text)] && !screen.isWaitingResponse
      decreases |text| - screen.animations[r].charIndex, if screen.animations[r].ticking then 1 else 0
    {
      FindTypingAppend(asked, screen.messages[|asked|]);
      screen.TypingTick(r);
    }
  }

  /**
   * One whole exchange, the interval running out before the safety timeout:
   * the timeline ends as the question and the whole answer, nothing awaited.
   */
  method ExchangeScenario(question: string, answer: string) returns (timeline: seq<Entry>, waiting: bool)
    requires question != [] && !IsSpace(question[0]) && answer != ""
    ensures timeline == [UserEntry(question), FinalEntry(answer)]
    ensures !waiting
  {
    var screen := Ask(question, answer);
    RunOut(screen, 0, [UserEntry(question)]);
    timeline, waiting := screen.messages, screen.isWaitingResponse;
  }

  /** The session list holds one session whose id is a word (say "abc"); it becomes current. */
  method Stored(id: string) returns (screen: Screen)
    requires id != [] && 'a' <= id[0] <= 'z'
    ensures fresh(screen) && screen.Valid() && screen.SingleFlight()
    ensures screen.currentSession == Some(Session(Text(id), "Old chat"))
    ensures !Usable(screen.currentSession.value)
    ensures screen.messages == [] && screen.sends == [] && !screen.isWaitingResponse
  {
    screen := new Screen();
    WordIdIsNaN(id);
    screen.FetchSessions(Ok([Session(Text(id), "Old chat")]), true);
  }

  /**
   * Such a session is not usable: the send asks for a new session and shows
   * nothing until it arrives.
   */
  method RepairScenario(question: string, id: string) returns (phase: Phase, timeline: seq<Entry>, waiting: bool)
    requires question != [] && !IsSpace(question[0])
    requires id != [] && 'a' <= id[0] <= 'z'
    ensures phase == CreatingSession && timeline == [] && waiting
  {
    var screen := Stored(id);
    screen.Type(question);
    NotBlank(question);
    screen.SendMessage();
    phase, timeline, waiting := screen.sends[0].phase, screen.messages, screen.isWaitingResponse;
  }

  /**
   * The safety timeout of the first reply fires while its interval still runs:
   * the answer is shown whole and the screen is free, but the single-flight
   * discipline no longer holds, since the interval is still armed.
   */
  method Interrupted(first: string, answer: string) returns (screen: Screen)
    requires first != [] && !IsSpace(first[0]) && answer != ""
    ensures fresh(screen) && screen.Valid() && !screen.SingleFlight()
    ensures screen.messages == [UserEntry(first), FinalEntry(answer)]
    ensures screen.animations == [Animation(answer, 0, "", true, false)]
    ensures screen.sends == [SendTask(first, Finished)]
    ensures screen.currentSession == Some(Session(Num(1), "New Chat"))
    ensures !screen.isWaitingResponse
  {
    screen := Ask(first, answer);
    FindTypingAppend([UserEntry(first)], TypingEntry());
    screen.SafetyTimeout(0);
    assert Live(screen.animations[0]) && !screen.animations[0].safetyArmed;
  }

  /** ... so a second question is accepted and shown with its placeholder. */
  method AskedAgain(first: string, second: string, answer: string) returns (screen: Screen)
    requires first != [] && !IsSpace(first[0]) && second != [] && !IsSpace(second[0]) && answer != ""
    ensures fresh(screen) && screen.Valid()
    ensures screen.messages == [UserEntry(first), FinalEntry(answer), UserEntry(second), LoadingEntry()]
    ensures screen.animations == [Animation(answer, 0, "", true, false)]
    ensures screen.sends == [SendTask(first, Finished), SendTask(second, AwaitingReply(Session(Num(1), "New Chat")))]
    ensures screen.isWaitingResponse
  {
    screen := Interrupted(first, answer);
    screen.Type(second);
    NotBlank(second);
    assert Usable(Session(Num(1), "New Chat"));
    screen.SendMessage();
  }

  /** ... and its reply arrives: a second typing entry and a second reveal. */
  method SecondQuestion(first: string, second: string, answer: string, later: string) returns (screen: Screen)
    requires first != [] && !IsSpace(first[0]) && second != [] && !IsSpace(second[0])
    requires answer != "" && later != ""
    ensures fresh(screen) && screen.Valid()
    ensures screen.messages == [UserEntry(first), FinalEntry(answer), UserEntry(second), TypingEntry()]
    ensures screen.animations == [Animation(answer, 0, "", true, false), Animation(later, 0, "", true, true)]
    ensures screen.isWaitingResponse
  {
    screen := AskedAgain(first, second, answer);
    ghost var asked := [UserEntry(first), FinalEntry(answer), UserEntry(second)];
    assert screen.messages == asked + [LoadingEntry()];
    CountZero(asked, Loading);
    DropLoadingAppend(asked, [LoadingEntry()]);
    DropLoadingNone(asked);
    assert DropLoading([LoadingEntry()]) == [];
    assert DropLoading(screen.messages) == asked;
    var reply := Reply(None, Some(later), None);
    assert ReplyText(reply) == later;
    screen.ReplyArrived(1, Ok(reply));
  }

  /**
   * The finding in full: the first reveal's interval, still running, writes
   * into the second question's typing entry and finishes it with the first
   * reply's text, while the second reveal still runs with nothing awaited.
   */
  method StaleTickerScenario(first: string, second: string, answer: string, later: string)
    returns (timeline: seq<Entry>, waiting: bool, secondStillTicking: bool)
    requires first != [] && !IsSpace(first[0]) && second != [] && !IsSpace(second[0])
    requires answer != "" && later != ""
    ensures timeline == [UserEntry(first), FinalEntry(answer), UserEntry(second), FinalEntry(answer)]
    ensures !waiting && secondStillTicking
  {
    var screen := SecondQuestion(first, second, answer, later);
    ghost var asked := [UserEntry(first), FinalEntry(answer), UserEntry(second)];
    assert screen.messages == asked + [TypingEntry()];
    CountZero(asked, Typing);
    RunOut(screen, 0, asked);
    timeline, waiting, secondStillTicking := screen.messages, screen.isWaitingResponse, screen.animations[1].ticking;
  }
}
