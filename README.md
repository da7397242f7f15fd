# Tutoring session orchestrator, in Dafny

This project models the backend of a conversational tutor. The tutor walks a
learner through an ordered curriculum: courses, then modules, then module
content. The model covers four parts:

- the per-learner session record (`backend/state.py`);
- the read-only course catalogue and its three lookups (`backend/courses.py`);
- transcript saving at module boundaries (`backend/chat_history.py`);
- the `Tutor` state machine (`backend/tutor.py`). It logs every input until the
  course is completed, recognises the `/next` command, selects a course,
  advances modules, completes the course, and forwards all other text to an
  external completion service.

Files and modules:

- `util.dfy` (`Util`): an option type, ASCII
  lower-casing, `", ".join` and decimal rendering of integers.
- `state.dfy` (`State`): roles, messages, the `Session` value, and the class
  `SessionState`, whose fields `Reset` assigns in place.
- `courses.dfy` (`Courses`): the catalogue as an immutable `Catalogue` value.
  It gives `GetCourses`, `GetModules` and `GetModuleContent`, plus lemmas
  relating them. Since the catalogue is a value, no lookup can change it.
- `chat_history.dfy` (`ChatHistory`): what one save writes (`Persisted`) and
  the file key. `SaveChatHistory` appends to a `TranscriptLog`, whose
  `records` field is the ghost sequence of written transcripts.
- `tutor.dfy` (`Tutor`):
  - each transition as a pure function on `Session` values: `NextModule`,
    `CourseSelection`, `RegularMessage`, and `Process` for
    `process_user_message`;
  - the reachable-state invariant `SessionValid`;
  - lemmas about single steps and about whole sequences of steps (`Run`);
  - the class `Tutor`. Its methods update the `SessionState` in place and are
    proved to produce the new state, reply and writes that the functions give.
- `scenario.dfy` (`Scenario`): one worked session over a one-course,
  two-module catalogue.

External collaborators are parameters. The completion service is a function
`seq<Message> -> Completion` passed to each call. `Completion` is either
`Success(text)` or `Failure(errorText)`. The wall-clock reading used in file
names is a `stamp` string passed to each call.

In these places the model follows the code, whose behaviour is easy to misread:

- `/next` is recognised after lower-casing the input, so `/NEXT` also advances
  (`backend/tutor.py:18`).
- Course names are compared after lower-casing only. Trimming happens before
  the tutor, in the HTTP handler (`backend/app.py:35`), so the tutor requires
  non-empty input and does no trimming itself.
- The input is logged to both logs before any dispatch. This includes `/next`
  without a course and an unknown course name (`backend/tutor.py:15`).
- A course with no modules is still selected, but its module index stays -1
  (`backend/tutor.py:60-65`). A later `/next` then completes the course at
  once (`-1 >= 0 - 1`), and writes a transcript under module id `None`.
- The transcript written by `/next` always ends with the `/next` input itself,
  because that input is logged before the save.

## Model

| member | source | states |
|---|---|---|
| `State.SessionState.constructor` | backend/state.py:2-3 | a new record holds exactly the values `reset` assigns |
| `State.SessionState.Reset` | backend/state.py:5-12 | after a reset both logs are empty, no course is selected, the index is the -1 sentinel, the module id is None and the course is not completed |
| `State.InitialIsUnique` | backend/state.py:5-12 | a reset record is one fixed value, so a new record equals a reset one and resetting twice equals resetting once |
| `Courses.GetCourses` | backend/courses.py:12-14 | the course names, one per catalogue entry, in catalogue order; empty when there is no "Course" section |
| `Courses.ModulesOf` | backend/courses.py:18 | a course name that the catalogue does not list has no modules |
| `Courses.GetModules` | backend/courses.py:16-21 | one (id, name) pair per module of the course, same length and order; empty for a course that is not listed |
| `Courses.ModulesOfListedCourse` | backend/courses.py:16-21 | in well-formed data (distinct keys), looking up a listed course's name yields exactly that course's module list |
| `Courses.GetModuleContent` | backend/courses.py:23-29 | the text is either "Module not found." or the content text of a module of that course that carries the requested id |
| `Courses.ContentOfListedModule` | backend/courses.py:23-28 | for the module at position k whose id no earlier module shares, content lookup yields that module's content, or "No content available for this module." when it has none |
| `Courses.ContentOfUnlistedModule` | backend/courses.py:25-29 | an id that no module of the course carries (including any id of an unlisted course) yields "Module not found." |
| `Courses.CourseIndex` | backend/courses.py:18 | the key lookup finds a catalogue entry with exactly that name, and no earlier one; it finds nothing exactly when no entry has that name |
| `Courses.ModuleIndex` | backend/courses.py:26-29 | the loop stops at the first module whose id equals the requested one, and finds nothing exactly when no module has that id |
| `Tutor.MatchCourse` | backend/tutor.py:55 | the first course name equal to the input up to letter case is chosen; there is none exactly when no course name matches
| `Util.Lower` | backend/tutor.py:18 | lower-casing keeps the length and maps each character independently |
| `ChatHistory.Persisted` | backend/chat_history.py:5-19 | nothing is written without a selected course or with an empty module log; otherwise exactly one record holding the selected course, the current module id, the module log as it stands and the key built from them |
| `ChatHistory.HistoryKey` | backend/chat_history.py:12 | every file name ends in ".json" |
| `ChatHistory.StampOfKey` | backend/chat_history.py:12 | the time stamp can be read back from a key whose course and module id are known |
| `ChatHistory.KeysDifferByStamp` | backend/chat_history.py:12 | two saves of the same course and module with different time stamps get different keys |
| `ChatHistory.SaveChatHistory` | backend/chat_history.py:5-19 | the transcript log gains exactly what `Persisted` says; the session record is only read |
| `Tutor.NonSystem` | backend/tutor.py:96-97 | the module-context view of a log has no system-role entries and is no longer than the log |
| `Tutor.NonSystemMembers` | backend/tutor.py:96-97 | an entry is in the module-context view of a log exactly when it is in the log and its role is not system |
| `Tutor.NonSystemConcat` | backend/tutor.py:96-97 | the view of two logs joined is the two views joined, so the view keeps the log's order |
| `Tutor.Logged` | backend/tutor.py:94-97 | the entry is appended to the full log; it is appended to the module log exactly when its role is not system, and otherwise the module log is unchanged; no other field changes |
| `Tutor.LoggedKeepsModuleLog` | backend/tutor.py:94-97 | adding an entry extends the full log and keeps the module log a suffix of the non-system history |
| `Tutor.FreshModuleLog` | backend/tutor.py:45-50 | a module log reset to empty and then given the new module's banner is again a suffix of the non-system history |
| `Tutor.InitialIsValid` | backend/state.py:5-12 | a freshly reset session satisfies the session invariant |
| `Tutor.AdvanceKeepsValid` | backend/tutor.py:36-51 | advancing to the next module keeps the index within the course and the cached id in step with it |
| `Tutor.NextKeepsValid` | backend/tutor.py:26-51 | every outcome of `/next` keeps the session invariant |
| `Tutor.SelectionKeepsValid` | backend/tutor.py:53-74 | every outcome of course selection keeps the session invariant |
| `Tutor.RegularKeepsValid` | backend/tutor.py:76-92 | a forwarded message keeps the session invariant |
| `Tutor.ProcessKeepsValid` | backend/tutor.py:10-24 | every call from a reachable state leads to a reachable state |
| `Tutor.NextModule` | backend/tutor.py:26-51 | `/next` keeps the course selection, moves the index by zero or one, sets the completed flag exactly on the last module of a selected course (or keeps it set), and writes either nothing or exactly what a save of the session before the step writes; nothing without a course |
| `Tutor.CourseSelection` | backend/tutor.py:53-74 | selection writes nothing and keeps the completed flag; either the session is unchanged or a course is selected, and a newly selected course is a listed name equal to the input up to letter case |
| `Tutor.RegularMessage` | backend/tutor.py:76-92 | exactly the reply is appended to both logs and nothing is written; on success the reply is the service's text, on failure it is "⚠️ Error: " followed by the error text |
| `Tutor.Process` | backend/tutor.py:10-24 | a call never moves the module index below the -1 sentinel |
| `Tutor.CompletedShortCircuits` | backend/tutor.py:11-12 | on a completed course a call returns the fixed terminal notice, changes nothing and writes nothing |
| `Tutor.FullLogGrows` | backend/tutor.py:14-15 | the full log is only appended to; on a call that is not short-circuited it gains the user input, then at most one further entry, which has the assistant role |
| `Tutor.NextWithoutCourse` | backend/tutor.py:26-28 | `/next` without a course only logs the input and asks for a course; no selection or module field changes and nothing is written |
| `Tutor.NextOnLastModule` | backend/tutor.py:30-34 | `/next` at or past the last module sets the completed flag and writes exactly one transcript: the module log as it stood plus the `/next` input, under the current course and module id |
| `Tutor.NextAdvances` | backend/tutor.py:36-51 | `/next` before the last module gives one exact outcome: the old module's log plus the input is written under the old course and module id, the index moves by exactly one, the new module's id is cached, the full log gains the input and the banner, and the module log then holds only the returned banner |
| `Tutor.CompletionOnlyByNext` | backend/tutor.py:31-32 | a call sets the completed flag only when it is `/next` on the last module of a selected course |
| `Tutor.UnknownCourse` | backend/tutor.py:53-58 | an input that equals no course name up to letter case gets the list of all course names; only the logs change |
| `Tutor.CourseChosen` | backend/tutor.py:55-74 | the first course equal to the input up to letter case is selected. If it has modules, the first one starts at index 0 and one reply is logged to both logs; if not, the no-modules text is returned and the index and module id are unchanged. Either way the module log keeps the earlier entries and gains the input |
| `Tutor.SelectionIff` | backend/tutor.py:54-60 | course selection succeeds exactly when some listed course equals the input up to letter case |
| `Tutor.RegularReply` | backend/tutor.py:76-92 | the service receives the system instruction followed by the module log, which ends with the input. Exactly one reply is logged to both logs, on success or failure, and it is the text returned. Failure gives "⚠️ Error: " and the error text |
| `Tutor.SelectionIsSticky` | backend/tutor.py:21-24 | once a course is selected, every call keeps it selected and keeps the same course |
| `Tutor.IndexMonotone` | backend/tutor.py:40 | from a reachable state the module index never decreases and rises by at most one per call |
| `Tutor.CompletedIsTerminal` | backend/tutor.py:11-12 | a completed session absorbs every sequence of calls: same state, nothing written |
| `Tutor.RunKeepsLogPrefix` | backend/tutor.py:94-95 | over any sequence of calls the earlier full log stays a prefix of the later one |
| `Tutor.RunKeepsValid` | backend/tutor.py:10-24 | over any sequence of calls the session stays reachable and the module index never decreases |
| `Tutor.Tutor.constructor` | backend/tutor.py:7-8 | a tutor starts with a fresh, reset session that satisfies the invariant |
| `Tutor.Tutor.AddMessage` | backend/tutor.py:94-97 | the entry is appended to the full log, and to the module log exactly when its role is not system |
| `Tutor.Tutor.HandleNextModule` | backend/tutor.py:26-51 | the in-place update gives the state, reply and written transcripts of `NextModule` |
| `Tutor.Tutor.HandleCourseSelection` | backend/tutor.py:53-74 | the in-place update gives the state and reply of `CourseSelection` |
| `Tutor.Tutor.HandleRegularMessage` | backend/tutor.py:76-92 | the in-place update gives the state and reply of `RegularMessage` |
| `Tutor.Tutor.DispatchInput` | backend/tutor.py:17-24 | after the input is logged, the in-place dispatch gives the state, reply and writes of `Dispatch` and keeps the session invariant |
| `Tutor.Tutor.ProcessUserMessage` | backend/tutor.py:10-24 | the in-place update gives the state, reply and writes of `Process`, and keeps the session invariant |
| `Scenario.SelectingPython` | backend/tutor.py:53-74 | with course "Python", the input "python" selects it and starts module 1 with its content, writing nothing |
| `Scenario.ListingForJava` | backend/tutor.py:53-58 | with course "Python" only, the input "java" lists "Python" and selects nothing |
| `Scenario.SecondModule` | backend/tutor.py:36-51 | `/next` in module 1 writes module 1's transcript and opens module 2 with a one-entry module log |
| `Scenario.LastModule` | backend/tutor.py:30-34 | `/next` in module 2, the last one, writes module 2's transcript and completes the course |
| `Scenario.AdvancingThroughPython` | backend/tutor.py:26-51 | in a two-module course, the first `/next` saves module 1 and opens module 2 with a one-entry module log. The second saves module 2 and completes the course. A later input gets the terminal notice and changes nothing |

## Left out

- Loading the catalogue (`load_course_data`: file reading and JSON decoding) is not modelled. The catalogue is a given value. Module ids are integers, names and contents are strings, and the "Course" value is an object of module lists.
- The completion service and its client setup (`backend/config.py`: environment lookup, client construction) are not modelled. Each call takes the service as a function from the prompt to success-or-failure. The model name, the `choices[0]` extraction and the `str(e)` rendering are external; the error's text is the failure value.
- Directory creation, `datetime.now()` formatting and the JSON file write in transcript saving are not modelled. The time stamp is a parameter, and a write is an append to a ghost log. A write that raises is not modelled, so saves always succeed.
- Util.Lower: lower-cases ASCII letters only. Python's `str.lower` also folds non-ASCII letters, so course names that differ only in non-ASCII case are not matched as the source would match them. `/next` detection is unaffected.
- The HTTP layer (`backend/app.py`: routing, CORS, static files) is not modelled. Its trimming and its rejection of empty input become the requirement `|input| > 0` on `ProcessUserMessage`.
- The interactive scripts, the GUI message viewer, the quiz generator and the web front end are not modelled. They share no state with the tutor.
- Two saves of the same course and module within one second are not distinguished. The file name carries the time to the second only (`backend/chat_history.py:12`) and the file is opened for overwriting (`backend/chat_history.py:14`), so the second save replaces the first file. The ghost `records` log keeps both. This can happen when a course repeats a module id.
- Duplicate course names are not excluded from `Catalogue`. Decoded JSON cannot hold them: Python keeps the last value at the first key's position. On such a value `GetCourses` lists the name twice and lookups use the first entry. Distinct names (`WellFormed`) are assumed only where `ModulesOfListedCourse` needs them.
- A single session is modelled. Concurrent requests against one shared tutor, as the module-level `tutor` object in `backend/app.py` allows, are not.
