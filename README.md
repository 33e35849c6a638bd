# Fairmont concierge chat: a Dafny model

This project models the core of the Fairmont hotel concierge assistant:

- **The protected chat screen** (`app/chatbot_protected.jsx`). It guards a send, repairs a stale session and inserts the user's message optimistically. It then awaits the backend, reveals the reply character by character with a ticker and a safety timer, and picks an error text.
- **The two keyword retrievers** (`retriever.py`, `Backend/retriever.py`).
- **The three stand-alone chat servers** (Flask, `http.server`, Express).
- **JWT issuing and verification** (`Backend/config/jwt_config.py`).
- **The FastAPI backend**:
  - authentication (`Backend/controllers/auth.py`);
  - chat sessions and messages;
  - the employee routes (tasks, events and meetings);
  - the administrator routes (activity log and user statistics).

Layout:

- **Chat screen.** Its React state is the class `ChatScreen.Screen`. Each event of `sendMessage` is a method of that class:
  - the synchronous prefix;
  - the session-creation result;
  - the reply or error;
  - one ticker tick;
  - the safety timer.

  Every suspended `sendMessage` call and every reveal closure is a value held in the screen, so several closures can be alive at once.
- **Database.** The tables are sequence fields of the class `Store.Database`. Each route is a method that changes only the tables it writes.
- **Pure code.** Query results, the retrievers, the servers and the token functions are functions over values. Each has lemmas that state what it promises.
- **Loops.** Where the source loops (the retrievers, the administrator views), the loop is a method proved equal to a specification function. That function is characterised by further lemmas.

Shared modules:

- `Strings`: ASCII lower-casing, `str.split()`, `strip()`, split and join on a separator, substring search, decimal text of a number.
- `Sorting`: a stable descending sort by a key. It stands for Python's `sort(reverse=True, key=...)` and for SQL `ORDER BY`; an ascending order is the descending order of the negated key.
- `Queries`: `first()`, `filter()` and SQLite's `LIMIT`.
- `Wrappers`: `Option` and `Result`.

Where the written description of the system and the code differ, the model follows the code:

- **Session check before a send.** The description asks for a "parsable positive integer". The code only requires an id that is truthy and for which `parseInt` does not give `NaN`, so `"12abc"` and `-3` pass. `ChatScreen.Usable` states the code's rule.
- **Finalising a reveal.** The description promises one idempotent finalisation shared by the ticker and the safety timer. The code's safety timer does not stop the ticker (see Findings).

## Model

| member | source | states |
|---|---|---|
| Store.Database.constructor | Backend/models/user.py:11-18 | An empty database satisfies every table invariant that the routes require (ids are positions, e-mails unique). |
| ChatTimeline.Count | app/chatbot_protected.jsx:134-135 | The number of entries carrying the loading or typing flag is at most the timeline length. |
| ChatTimeline.CountZero | app/chatbot_protected.jsx:39 | No entry carries the flag exactly when the count is zero. |
| ChatTimeline.CountAppend | app/chatbot_protected.jsx:81-90 | Counting distributes over appending entries to the timeline. |
| ChatTimeline.CountUpdate | app/chatbot_protected.jsx:171-179 | Replacing one entry changes the count by that entry's flag only. |
| ChatTimeline.FindTyping | app/chatbot_protected.jsx:172 | `findIndex(m => m.isTyping)`: -1 when no entry is typing, otherwise the first typing entry. |
| ChatTimeline.ShowTypingCounts | app/chatbot_protected.jsx:170-179 | A reveal tick changes the text of the typing entry and no flag count. |
| ChatTimeline.FinishTypingCounts | app/chatbot_protected.jsx:186-197 | Finishing a reveal clears exactly one typing flag when one exists and adds no loading entry. |
| ChatTimeline.FinishTypingIdempotent | app/chatbot_protected.jsx:143-158 | With at most one typing entry, finishing twice (ticker and safety timer) equals finishing once. |
| ChatTimeline.DropLoadingCounts | app/chatbot_protected.jsx:129-131 | After `filter(m => !m.isLoading)` no loading entry is left and no typing entry is added. |
| ChatTimeline.DropLoadingKeeps | app/chatbot_protected.jsx:129-131 | An entry survives the filter exactly when it was present and not loading. |
| ChatTimeline.DropLoadingAppend | app/chatbot_protected.jsx:129-131 | Filtering a concatenation filters each part. |
| ChatTimeline.DropPendingKeeps | app/chatbot_protected.jsx:245-247 | The error path removes every loading and typing entry and keeps exactly the others. |
| ChatTimeline.DropLoadingNone | app/chatbot_protected.jsx:129-131 | A timeline without loading entries is left unchanged by the filter. |
| ChatTimeline.FindTypingAppend | app/chatbot_protected.jsx:134-135 | The typing bubble appended to a timeline without one is the entry the ticker finds. |
| ChatReply.ReplyText | app/chatbot_protected.jsx:124 | The reply text is never empty. |
| ChatReply.ReplyTextPriority | app/chatbot_protected.jsx:124 | The first truthy of `bot_message.message`, `response`, `text` is shown, else "No response.". |
| ChatReply.TickInterval | app/chatbot_protected.jsx:125 | The tick interval `max(10, min(30, 2000/len))` lies in [10, 30], is 30 up to 66 characters and 10 from 200. |
| ChatReply.QuotientBounds | app/chatbot_protected.jsx:125 | The clamping thresholds of `2000/len` are exactly `len > 66` and `len < 200`. |
| ChatReply.CharsPerTick | app/chatbot_protected.jsx:163 | A tick adds 3 characters for replies longer than 500 characters and 1 otherwise. |
| ChatReply.TimeoutTextChoices | app/chatbot_protected.jsx:219-236 | A timeout answer is one of the five canned hotel answers or the apology quoting the input. |
| ChatReply.TimeoutIgnoresStatus | app/chatbot_protected.jsx:219 | A timeout is recognised first, whatever HTTP status came with it. |
| ChatReply.InputOnlyMattersOnTimeout | app/chatbot_protected.jsx:237-243 | Outside the timeout case, the user's input does not influence the error text. |
| ChatReply.NetworkErrorIgnoresStatus | app/chatbot_protected.jsx:237-238 | A network error yields the connection text whatever the status. |
| ChatReply.StatusDecidesOtherwise | app/chatbot_protected.jsx:239-243 | 502 gives the unavailable text, another truthy status its number, none or 0 the default apology. |
| ChatReply.SlowReplyQuotesInput | app/chatbot_protected.jsx:234 | The generic timeout apology contains the user's input. |
| ChatReply.SafeQuestionOnTimeout | app/chatbot_protected.jsx:223-224 | A timed-out question naming "safe" and "room" or "suite" gets the in-room safe answer. |
| ChatReply.SafeInMyRoom | app/chatbot_protected.jsx:223 | "is there a safe in my room" mentions both "safe" and "room". |
| ChatReply.UnmatchedTimeoutQuotesInput | app/chatbot_protected.jsx:233-235 | A timed-out question matching no keyword gets an error text quoting it. |
| ChatReply.UnmatchedTopic | app/chatbot_protected.jsx:221-235 | Without any table keyword the timeout text is the generic apology. |
| ChatReply.NoCheckWord | app/chatbot_protected.jsx:225-228 | A text without "check" contains none of "check in", "checkin", "check out", "checkout". |
| ChatScreen.Tally | app/chatbot_protected.jsx:58-258 | The number of pending `sendMessage` calls or live reveals is at most their total. |
| ChatScreen.TallyAppend | app/chatbot_protected.jsx:58-258 | A new call or reveal raises the tally by its own contribution. |
| ChatScreen.TallyUpdate | app/chatbot_protected.jsx:58-258 | Changing one call or reveal changes the tally by its own contribution only. |
| ChatScreen.Screen.constructor | app/chatbot_protected.jsx:9-13 | The initial state: no messages, sessions or current session, not waiting, speed 30. |
| ChatScreen.Screen.Type | app/chatbot_protected.jsx:10 | Typing sets the input and nothing else. |
| ChatScreen.Screen.FetchSessions | app/chatbot_protected.jsx:16-26 | Loaded sessions replace the list. The first becomes current if the call sees no session; the call made on mounting (lines 260-261) always sees none. A failure changes nothing. |
| ChatScreen.Screen.SendMessage | app/chatbot_protected.jsx:58-94 | A blank input or a pending reply changes nothing; otherwise waiting starts, and a usable session gets the user entry and the placeholder while a missing or bad one is replaced first. |
| ChatScreen.Screen.Start | app/chatbot_protected.jsx:60-94 | The non-guarded part of a send: the session check decides between the optimistic insert and session creation. |
| ChatScreen.Screen.RequestSession | app/chatbot_protected.jsx:71-76 | Without a usable session the call waits for `createSession('New Chat')`, timeline untouched. |
| ChatScreen.Screen.ShowOptimistic | app/chatbot_protected.jsx:81-94 | The user entry and the loading placeholder are appended and the input is cleared. |
| ChatScreen.Screen.Fail | app/chatbot_protected.jsx:203-257 | A failure removes loading and typing entries, appends the error entry and ends waiting. |
| ChatScreen.Screen.SessionCreated | app/chatbot_protected.jsx:74-94 | A created session becomes current, is listed first and the optimistic insert follows; a failure takes the error path. |
| ChatScreen.Screen.Open | app/chatbot_protected.jsx:76-94 | The new session is current and first in the list, then the user entry and placeholder appear. |
| ChatScreen.Screen.ReplyArrived | app/chatbot_protected.jsx:113-258 | A reply replaces the placeholder by an empty typing bubble and starts its reveal at the clamped speed; an error takes the error path. |
| ChatScreen.Screen.Reveal | app/chatbot_protected.jsx:124-160 | The reveal starts with nothing displayed, its ticker and safety timer armed. |
| ChatScreen.Screen.TypingTick | app/chatbot_protected.jsx:160-202 | A tick shows the next 1 or 3 characters in the typing entry, or finishes it with the full text, disarms both timers and ends waiting. |
| ChatScreen.Screen.AdvanceTick | app/chatbot_protected.jsx:161-180 | The displayed text grows to the next prefix of the reply. |
| ChatScreen.Screen.FinishTick | app/chatbot_protected.jsx:181-201 | The typing entry becomes the final reply, ticker and safety timer are cleared, waiting ends. |
| ChatScreen.Screen.SafetyTimeout | app/chatbot_protected.jsx:143-158 | The safety timer finalises the typing entry and ends waiting, but leaves the ticker running. |
| ChatScreen.OptimisticFlight | app/chatbot_protected.jsx:71-94 | The optimistic insert turns an idle screen into one with exactly one flight, placeholder accounted for. |
| ChatScreen.Screen.SafetyTimeoutStoppingTicker | app/chatbot_protected.jsx:33-51 | Finalising while also stopping the ticker keeps at most one live send or reveal. |
| ChatScreen.NotBlank | app/chatbot_protected.jsx:59 | An input starting with a non-space passes the `input.trim()` guard. |
| ChatScreen.WordIdIsNaN | app/chatbot_protected.jsx:64 | A session id starting with a letter such as "abc" makes `parseInt` give NaN. |
| ChatScreen.Typed | app/chatbot_protected.jsx:58-79 | With no session, a send waits on session creation and shows nothing yet. |
| ChatScreen.Asked | app/chatbot_protected.jsx:58-113 | After the session is created the timeline is the question and the placeholder. |
| ChatScreen.Ask | app/chatbot_protected.jsx:113-160 | After the reply arrives the timeline is the question and an empty typing bubble. |
| ChatScreen.RunOut | app/chatbot_protected.jsx:160-202 | Ticking a reveal to the end leaves the full reply in place of the bubble and ends waiting. |
| ChatScreen.ExchangeScenario | app/chatbot_protected.jsx:58-202 | One exchange ends with the question followed by the full reply, not waiting. |
| ChatScreen.Stored | app/chatbot_protected.jsx:64 | A stored session with id "abc" is not usable. |
| ChatScreen.RepairScenario | app/chatbot_protected.jsx:64-79 | Sending with that session creates a fresh one before anything is shown. |
| ChatScreen.Interrupted | app/chatbot_protected.jsx:143-158 | After the safety timer fires the reply is final and waiting has ended while the ticker is still armed. |
| ChatScreen.AskedAgain | app/chatbot_protected.jsx:58-94 | The user can then ask a second question while the old ticker is still armed. |
| ChatScreen.SecondQuestion | app/chatbot_protected.jsx:113-160 | The second reply gets its own typing bubble beside the old live ticker. |
| ChatScreen.StaleTickerScenario | app/chatbot_protected.jsx:143-202 | The old ticker's last tick writes the first answer into the second question's bubble. |
| ScoredRetriever.MatchLine | retriever.py:38-44 | One line contributes its stripped text and score exactly when it is long enough and scores. |
| ScoredRetriever.MatchLines | retriever.py:36-44 | The loop builds exactly the matched list of the specification. |
| ScoredRetriever.MatchedStep | retriever.py:37-44 | The matched list of a prefix grows by what the next line contributes. |
| ScoredRetriever.GetContext | retriever.py:22-55 | The method returns the specified context for every input and knowledge text. |
| ScoredRetriever.NotStopwordsMembers | retriever.py:28-29 | A word is a keyword exactly when it is an input word and not a stop word. |
| ScoredRetriever.KeywordsEmptyIff | retriever.py:28-32 | There are no keywords exactly when every input word is a stop word. |
| ScoredRetriever.WelcomeOnlyStopwords | retriever.py:32-33 | An input made only of stop words gets the welcome text, whatever the knowledge. |
| ScoredRetriever.HitsPositive | retriever.py:42-43 | A score is at most the number of keywords and positive exactly when some keyword occurs. |
| ScoredRetriever.HitsAppend | retriever.py:42 | Scores add up over concatenated keyword lists. |
| ScoredRetriever.MatchedMembers | retriever.py:36-44 | The matches are exactly the kept lines with their scores and stripped texts. |
| ScoredRetriever.RankedOrder | retriever.py:47 | Ranking is a permutation with scores descending, lines of equal score in file order. |
| ScoredRetriever.RankedMembers | retriever.py:47 | Ranking keeps every match and adds none. |
| ScoredRetriever.KeptText | retriever.py:38-43 | A kept line's stripped text has at least 5 characters and contains a keyword. |
| ScoredRetriever.TopLine | retriever.py:48 | Every line of the reply is the stripped form of a kept knowledge line. |
| ScoredRetriever.TopLines | retriever.py:48 | The reply has at most five lines, each long enough and containing a keyword. |
| ScoredRetriever.TopDominates | retriever.py:47-48 | No match left out of the top five scores higher than one kept in it. |
| ScoredRetriever.TopEmptyIff | retriever.py:48-51 | The top list is empty exactly when no knowledge line is kept. |
| ScoredRetriever.NoMatchWhenNothingKept | retriever.py:50-51 | Keywords that match no line give the "couldn't find an exact match" text. |
| ScoredRetriever.ContextLines | retriever.py:53 | Splitting the reply at newlines gives back the top lines. |
| ScoredRetriever.StripKeepsNoNewline | retriever.py:25-44 | A stripped knowledge line contains no newline, so joining keeps lines apart. |
| KeywordRetriever.MentionsKeyword | Backend/retriever.py:20-23 | The inner loop finds a keyword exactly when some keyword occurs in the lower-cased line. |
| KeywordRetriever.GetContext | Backend/retriever.py:12-28 | The outer loop returns the specified context for every input and knowledge text. |
| KeywordRetriever.NextLine | Backend/retriever.py:19-23 | A line is appended exactly when some keyword occurs in it. |
| KeywordRetriever.RelevantLinesMembers | Backend/retriever.py:19-23 | The relevant lines are exactly the knowledge lines containing a keyword. |
| KeywordRetriever.RelevantLinesSubsequence | Backend/retriever.py:19-23 | The relevant lines appear in file order, each once per occurrence. |
| KeywordRetriever.RelevantLinesEmptyIff | Backend/retriever.py:19-26 | No line is relevant exactly when no line contains a keyword. |
| KeywordRetriever.ContextLines | Backend/retriever.py:25-28 | The reply is the fallback text without relevant lines, else splits back into them. |
| KeywordRetriever.BlankInputFallback | Backend/retriever.py:17-26 | A blank input has no keyword and gets the fallback text. |
| KeywordRetriever.EmptyKnowledgeFallback | Backend/retriever.py:5-26 | An empty knowledge text gets the fallback text. |
| FlaskServer.ChatStatus | Backend/flask-server.py:42-61 | 200 exactly for a non-empty string message, 400 exactly for a falsy one, 500 otherwise; a reply other than 200 does not depend on the knowledge. |
| FlaskServer.MissingMessage | Backend/flask-server.py:46-49 | A missing or empty message gets 400 "Message is required". |
| FlaskServer.ChatSuccess | Backend/flask-server.py:52-58 | A success echoes the message with the keyword retriever's context. |
| SimpleHttpServer.GetAlwaysOk | Backend/simple-http-server.py:34-48 | Every GET gets 200: the health reply on `/api/health`, the banner elsewhere. |
| SimpleHttpServer.OtherPathNotFound | Backend/simple-http-server.py:50-51 | A POST to another path gets 404. |
| SimpleHttpServer.AgreesWithFlask | Backend/simple-http-server.py:50-92 | With a readable length header a chat POST is answered as the Flask server answers it. |
| SimpleHttpServer.MissingMessage | Backend/simple-http-server.py:59-66 | A missing or falsy message gets 400 "Message is required". |
| SimpleHttpServer.ChatSuccess | Backend/simple-http-server.py:69-81 | A valid POST gets 200, echoing the message beside its context. |
| SimpleChatServer.ChoiceRange | Backend/simple-chat-server.js:12-44 | The reply is one of six texts; the "hello" table entry is never used. |
| SimpleChatServer.GreetingFirst | Backend/simple-chat-server.js:34-35 | Any message containing "hi" or "hello" gets the "hi" reply. |
| SimpleChatServer.TopicOrder | Backend/simple-chat-server.js:34-44 | Otherwise the first of spa, security, book and facility found decides. |
| SimpleChatServer.CaseInsensitive | Backend/simple-chat-server.js:30-31 | The case of a message never changes the reply. |
| SimpleChatServer.WordsContainingHi | Backend/simple-chat-server.js:34-35 | "which spa" gets the greeting, since "which" contains "hi". |
| SimpleChatServer.FacilitiesMatchesNothing | Backend/simple-chat-server.js:34-44 | "facilities" contains none of the tested words. |
| SimpleChatServer.FacilitiesIsDefault | Backend/simple-chat-server.js:31-44 | So "facilities" gets the default reply. |
| SimpleChatServer.ReplyShape | Backend/simple-chat-server.js:22-59 | 200 exactly for a non-empty string message, echoing it; a missing message gets 400. |
| JwtConfig.StampedClaims | Backend/config/jwt_config.py:16-28 | Issued claims add `exp`, `type`, `iat` and keep every other claim of the caller. |
| JwtConfig.AccessTokenClaims | Backend/config/jwt_config.py:15-29 | An access token expires after the given delta, or 30 minutes when none or zero is given. |
| JwtConfig.RefreshTokenClaims | Backend/config/jwt_config.py:31-41 | A refresh token expires after 7 days and has type "refresh". |
| JwtConfig.DecodeOutcomes | Backend/config/jwt_config.py:46 | `jwt.decode` gives back exactly the claims when `iat` and `exp` are integers, `exp` is not past and `sub` is a string; an expired token fails with "Signature has expired." whatever its subject. |
| JwtConfig.AccessTokenVerifies | Backend/config/jwt_config.py:43-69 | A fresh access token verifies as an access token for its 30 minutes, unless the server's offset brings the local-time test forward. |
| JwtConfig.AccessTokenExpires | Backend/config/jwt_config.py:43-74 | After them the decoding refuses it: 401 "Could not validate credentials: Signature has expired.". |
| JwtConfig.ExpiryTestOnlyBehindUtc | Backend/config/jwt_config.py:63-67 | "Token has expired" is only ever returned on a server behind UTC. |
| JwtConfig.FreshTokenRefusedBehindUtc | Backend/config/jwt_config.py:63-67 | Behind UTC, a token the decoding accepts as unexpired is refused with "Token has expired". |
| JwtConfig.VerifyTokenInUtc | Backend/config/jwt_config.py:63 | With the test made in UTC, "Token has expired" never happens, and a token is accepted exactly when it decodes with the right type and a numeric `exp`. |
| JwtConfig.AccessTokenVerifiesInUtc | Backend/config/jwt_config.py:63 | With the test made in UTC, a fresh access token verifies for its whole 30 minutes. |
| JwtConfig.TypeCheckedFirst | Backend/config/jwt_config.py:46-53 | Among tokens the decoding accepts, one of the wrong type is refused as such, whatever its expiry. |
| JwtConfig.KindsNotInterchangeable | Backend/config/jwt_config.py:46-53 | Access and refresh tokens are never accepted for each other, nor for a refresh: refused for their type while live, for their expiry after. |
| JwtConfig.VerifyOutcomes | Backend/config/jwt_config.py:43-74 | An accepted token decodes, has the right type and a numeric `exp` that passes both expiry tests; a token that does not decode is refused with the decoding's message. |
| JwtConfig.MissingExpiration | Backend/config/jwt_config.py:56-61 | A decodable, correctly typed token without `exp` is refused with "Token missing expiration". |
| JwtConfig.TextExpiryEscapes | Backend/config/jwt_config.py:63-74 | An `exp` sent as a text of digits passes the decoding, then makes the expiry test raise an error that `verify_token` does not catch. |
| JwtConfig.RefreshKeepsSubject | Backend/config/jwt_config.py:76-87 | A live refresh token yields an access token carrying exactly its subject. |
| JwtConfig.RefreshTokenExpires | Backend/config/jwt_config.py:76-80 | A refresh token past its 7 days is refused with the decoding's expiry message. |
| JwtConfig.RefreshNeedsSubject | Backend/config/jwt_config.py:80-85 | A live refresh token without subject is refused with "Invalid refresh token". |
| Auth.FindByEmail | Backend/controllers/auth.py:37 | The lookup returns the first user with that e-mail, or none when there is none. |
| Auth.LogUserActivity | Backend/controllers/auth.py:23-33 | One activity is appended; without a request its endpoint, address and agent are empty. |
| Auth.SignupUser | Backend/controllers/auth.py:36-63 | A taken e-mail gets 400 with nothing changed; otherwise an active non-admin user with the hashed password is added, "signup" logged and tokens for it issued. |
| Auth.SigninUser | Backend/controllers/auth.py:66-89 | Bad credentials get 401 with nothing changed; otherwise only that user's last login is set, "signin" logged and tokens issued. |
| Auth.ResetPassword | Backend/controllers/auth.py:92-107 | An unknown e-mail gets 404 with nothing changed; otherwise only that user's hash changes and "password_reset" is logged. |
| Auth.FindByEmailUnique | Backend/controllers/auth.py:37 | With unique e-mails the lookup finds the one user who has it. |
| Auth.SigninRefusalUniform | Backend/controllers/auth.py:67-69 | Sign-in succeeds exactly for a known e-mail with a matching password; every refusal is the same 401. |
| Auth.SignupThenSignin | Backend/controllers/auth.py:36-69 | A new user can sign in with the password given at sign-up. |
| Auth.ResetThenSignin | Backend/controllers/auth.py:92-98 | After a reset the new password signs in. Another signs in exactly when it agrees with it on the first 72 characters, so a different password of at most 72 characters is refused. |
| Store.BcryptKey | Backend/controllers/auth.py:12 | bcrypt keeps at most the first 72 characters, and all of a password that fits. |
| Auth.TokensNameTheUser | Backend/controllers/auth.py:54-55 | Both tokens carry the user's id as the decimal subject. |
| Auth.TokensDistinguishUsers | Backend/controllers/auth.py:54-55 | Different users get different subjects. |
| SessionRoutes.CreateSession | Backend/routes/session_routes.py:25-31 | One session owned by the caller with the requested title is added. |
| SessionRoutes.ListSessionsSpec | Backend/routes/session_routes.py:33-35 | The list holds exactly the caller's sessions, each as often as stored, newest first. |
| SessionRoutes.CreateSessionVisibility | Backend/routes/session_routes.py:25-35 | A new session is listed for its owner and changes no other user's list. |
| ChatRoutes.AddChatMessage | Backend/routes/chat_routes.py:49-99 | A session not owned gets 404 with nothing stored; otherwise the user row (sender "user") then the generated bot row are stored. |
| ChatRoutes.GetSessionMessagesSpec | Backend/routes/chat_routes.py:38-44 | 404 exactly when the session is not the caller's; otherwise all its messages, oldest first. |
| ChatRoutes.AddedMessagesVisible | Backend/routes/chat_routes.py:38-99 | Both stored rows are read back with their session; other sessions read as before. |
| EmployeeRoutes.MarkTaskDone | Backend/routes/employee_routes.py:49-57 | 404 exactly when the task is not the caller's. Otherwise the stored row when its `due` is set, and 500 when it is NULL. Nothing changes. |
| EmployeeRoutes.RsvpEvent | Backend/routes/employee_routes.py:60-68 | 404 exactly when the event does not exist, for any caller. Otherwise the stored row when its `date` is set, and 500 when it is NULL. |
| EmployeeRoutes.RsvpMeeting | Backend/routes/employee_routes.py:71-79 | 404 exactly when the meeting does not exist, for any caller. Otherwise the stored row when its `time` is set, and 500 when it is NULL. |
| EmployeeRoutes.DoneIsLost | Backend/routes/employee_routes.py:54-57 | Marking a task with a due date answers with success, yet leaves the task not recorded as completed. |
| EmployeeRoutes.RsvpIsLost | Backend/routes/employee_routes.py:65-68 | An RSVP to an event with a date answers with success, yet leaves the event not recorded as RSVPed. |
| EmployeeRoutes.MarkTaskDoneRecorded | Backend/routes/employee_routes.py:49-57 | Same replies, and a found task is recorded as completed, even when the reply is the 500 that follows the commit. |
| EmployeeRoutes.RsvpEventRecorded | Backend/routes/employee_routes.py:60-68 | Same replies, and a found event records the RSVP. |
| EmployeeRoutes.RsvpMeetingRecorded | Backend/routes/employee_routes.py:71-79 | Same replies, and a found meeting records the RSVP. |
| EmployeeRoutes.MarkTwice | Backend/routes/employee_routes.py:49-57 | Marking twice answers alike and records the task once: the corrected route is idempotent. The answer is the row exactly when its `due` is set. |
| EmployeeRoutes.GetEvents | Backend/routes/employee_routes.py:85-87 | Every event is returned, whoever asks, exactly when every event has a `date`; otherwise 500. |
| EmployeeRoutes.GetMeetings | Backend/routes/employee_routes.py:89-91 | Every meeting is returned, whoever asks, exactly when every meeting has a `time`; otherwise 500. |
| EmployeeRoutes.CreateTask | Backend/routes/employee_routes.py:94-108 | An explicit `null` gives 422 and a non-administrator 403, with nothing added. Otherwise one task made from the request is added (a field left out is NULL). The reply is that task, or 500 when it has no `due`. |
| EmployeeRoutes.CreateEvent | Backend/routes/employee_routes.py:110-123 | As for tasks: 422 or 403 with nothing added. Otherwise one event is added, and the reply is that event, or 500 when it has no `date`. |
| EmployeeRoutes.CreateMeeting | Backend/routes/employee_routes.py:125-138 | As for tasks: 422 or 403 with nothing added. Otherwise one meeting is added, and the reply is that meeting, or 500 when it has no `time`. |
| EmployeeRoutes.UniqueTask | Backend/routes/employee_routes.py:51 | A task row is determined by its id. |
| EmployeeRoutes.GetTasksSpec | Backend/routes/employee_routes.py:81-83 | The caller gets exactly their own tasks when every one has a `due`, and 500 otherwise. |
| EmployeeRoutes.UndatedTaskBreaksList | Backend/routes/employee_routes.py:81-108 | A task created without `due` makes its assignee's task list answer 500. |
| EmployeeRoutes.OwnedTaskUnique | Backend/routes/employee_routes.py:51 | With ids equal to positions, every row matching the task query is the same row. |
| EmployeeRoutes.Column | Backend/routes/employee_routes.py:94-99 | A request field left out is stored as NULL, and a given text is stored as itself. |
| EmployeeRoutes.TaskCreatedVisibility | Backend/routes/employee_routes.py:81-108 | A created task is listed last for its assignee and for no one else. |
| AdminRoutes.GetUserActivities | Backend/routes/admin_routes.py:51-80 | The loop returns the joined, filtered, newest-first, limited rows, each named after its user. |
| AdminRoutes.NewestFirst | Backend/routes/admin_routes.py:64 | Ordering and limiting keep only given rows, newest first: exactly `limit` of them, or all when the limit is negative or larger. No row left out is newer than a row kept. |
| AdminRoutes.NewestKept | Backend/routes/admin_routes.py:59-64 | Filtering, ordering and limiting return the `limit` newest rows that pass the filter, or all of them when the limit is negative or not reached. |
| AdminRoutes.ActivityRowsSpec | Backend/routes/admin_routes.py:59-64 | Rows belong to existing users and match the user filter when truthy. They are the `limit` newest such activities, or all of them when the limit is negative or not reached. |
| AdminRoutes.ZeroUserIdMeansAll | Backend/routes/admin_routes.py:61-62 | A `user_id` of 0 filters nothing, like no filter. |
| AdminRoutes.JoinedViewsNamed | Backend/routes/admin_routes.py:66-78 | Each row carries the full name of the user it joined. |
| AdminRoutes.GetUserStats | Backend/routes/admin_routes.py:82-105 | One entry per user, in table order. |
| AdminRoutes.StatsSpec | Backend/routes/admin_routes.py:91-103 | The total counts the user's activities; the recent list is their last five actions in order. |
| AdminRoutes.StatsAfterLog | Backend/routes/admin_routes.py:91-103 | Logging an action raises that user's total by one and makes it their most recent action. |
| AdminRoutes.StatsOthersUnchanged | Backend/routes/admin_routes.py:91-103 | Logging an action for one user leaves every other user's statistics unchanged. |
| AdminRoutes.GetUserDetails | Backend/routes/admin_routes.py:107-131 | A non-administrator gets 403. An administrator gets every user's full record in table order: id, name, e-mail, hash, creation and last login, active and administrator flags. |
| AdminRoutes.GetMyActivities | Backend/routes/admin_routes.py:133-158 | The caller's rows, newest first and limited, each named after the caller. |
| AdminRoutes.MyRowsSpec | Backend/routes/admin_routes.py:140-142 | Only the caller's activities. They are the `limit` newest, or all of them when the limit is negative or not reached. |

## Left out

Chat screen:

- **History panel and profile button.** Picking a session in the history panel (app/chatbot_protected.jsx:285-292) makes it the current session, which the next send reads as its session, and replaces `messages` with that session's stored messages, so a loading or typing entry still in flight is dropped and a later tick finds no typing entry. The profile button only navigates. Both handlers lie outside the modelled lines 16-258 and are not modelled.
- **Loading dots and scrolling.** The animated loading dots and scrolling are left out; they are cosmetic.
- **Timing.** `Date.now`, the response-time measurements and real timer durations are left out. Timers are events the environment may deliver in any order.
- **React batching.** React's batching is left out: state setters are immediate writes. Every closure reads the state of the time, except the mount-time `fetchSessions`, which reads the first render's null `currentSession` (the `fromMount` flag). Other stale-closure reads, such as those of `isWaitingResponse`, are left out.
- **Text encoding.** Strings are sequences of characters, and `length` counts characters, not UTF-16 units. Lower-casing is ASCII only. White space is the six characters space, tab, line feed, carriage return, vertical tab and form feed: Python's `split()`/`strip()` also count `\x1c`-`\x1f` and non-ASCII spaces, and JavaScript's `trim()` counts non-ASCII spaces.

Retrievers and servers:

- **The knowledge file.** Reading `knowledge.txt` (`load_knowledge`) and the debug output are I/O. The knowledge text is a parameter.
- **Duplicated keyword retriever.** The copies of the keyword retriever inside the Flask and `http.server` servers are `KeywordRetriever.Context`. `SimpleHttpServer.AgreesWithFlask` ties the two servers together.
- **Server details.** The Flask and `http.server` home, health and OPTIONS replies are not modelled beyond `SimpleHttpServer.GetAlwaysOk`, and CORS headers are left out. The Express health reply carries a clock value.
- **Request bodies.** JSON numbers are integers. Exception texts are abstracted. An unreadable `Content-Length`, whose error escapes the handler, is a `None` reply.

Tokens:

- **JWT encoding.** Signing and decoding are modelled as an exact inverse pair; the signature algorithm is left out. Of `python-jose`'s default claim checks, `JwtConfig.Decode` models those on `iat`, `exp` and `sub`. The checks on `nbf`, `aud`, `jti` and `at_hash` are left out: a token carrying those claims decodes as if they were absent. Claim values are texts or integers; `int()`'s acceptance of surrounding white space and underscores is left out.
- JwtConfig.RefreshAccessToken: verifies with the UTC test of `VerifyTokenInUtc`. As written, a server behind UTC also refuses live refresh tokens early, with "Token has expired", as in the Findings row for `jwt_config.py:63`.
- **Configuration and time.** Environment overrides of the secret and the lifetimes are left out. The clock is whole seconds. The local time used at `jwt_config.py:63` is UTC plus a fixed offset `zone`, so daylight-saving changes are left out. The sub-second reading there is also left out: it makes that test fire during the expiry second itself.

Backend routes:

- **Outside calls.** bcrypt is abstracted as `Store.Digest`, keeping its 72-byte key as 72 characters; newer bcrypt releases that refuse longer passwords are not modelled; the language-model call of `add_chat_message` is the function parameter `generate`; `request.client` is always present when a request is given.
- **Middleware.** The authentication middleware is not modelled; each route receives the current user.
- **Storage.** Transactions, rollbacks and the database connection are not modelled. SQL orders rows with equal keys by table order, which SQLite does not promise.
- **Request validation.** Only explicit `null`s in the three creation bodies are modelled as 422s. Other type errors are not modelled, and neither is the list of errors in FastAPI's 422 body. A 500 is Starlette's plain "Internal Server Error".
- **TaskCreate.userId:** is a natural number; the foreign key to `users` is not checked, as SQLite does not check it by default.
- **Store.User:** `full_name` is a plain string; the column's nullability is not modelled.

## Findings

| source | as written | input that shows it | evidently intended | confidence | as-written member | corrected member |
|---|---|---|---|---|---|---|
| app/chatbot_protected.jsx:143-158 | The safety timer finalises the typing entry and ends waiting but does not stop the ticker, unlike the unused helper at lines 33-51. | A reply whose ticker has not finished when the safety timer fires, then a second question: the old ticker writes the first answer into the second bubble. | The safety timer also clears the ticker, so one finalisation ends the reveal. | not executed | ChatScreen.StaleTickerScenario | ChatScreen.Screen.SafetyTimeoutStoppingTicker |
| Backend/config/jwt_config.py:63 | The expiry test compares `datetime.utcnow()` with `datetime.fromtimestamp(exp)`, which is local time. | A server at UTC-5 (`zone` = -18000) verifying an access token the moment it is issued: 401 "Token has expired". | The test compares UTC with UTC, so a token is refused only after its `exp`. | not executed | JwtConfig.FreshTokenRefusedBehindUtc | JwtConfig.VerifyTokenInUtc |
| Backend/routes/employee_routes.py:54 | `task.completed = 1` sets an attribute that is not a column of `tasks`, so the commit stores nothing. | PATCH `/tasks/1/done` on the caller's task 1, which has a due date: 200, yet nothing records the task as done. | The completion is stored. | not executed | EmployeeRoutes.DoneIsLost | EmployeeRoutes.MarkTaskDoneRecorded |
| Backend/routes/employee_routes.py:65 | `event.rsvped = 1` sets an attribute that is not a column of `events`, so the RSVP is lost. | PATCH `/events/1/rsvp` on an existing event 1 with a date: 200, yet nothing records the RSVP. | The RSVP is stored. | not executed | EmployeeRoutes.RsvpIsLost | EmployeeRoutes.RsvpEventRecorded |
