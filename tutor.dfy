/** The session orchestrator. The pure functions below give, for a session
    value and one input, the next session value, the reply and the
    transcripts written; class `Tutor` performs the same steps by updating
    its `SessionState` in place and is proved to agree with them. The
    completion service is a function from the prompt to a reply, passed in
    on every call; the clock is the `stamp` passed in. */
module Tutor {
  import opened Util
  import opened State
  import opened Courses
  import opened ChatHistory

  /** What the completion service answers: a text or an error text. */
  datatype Completion = Success(text: string) | Failure(error: string)

  /** The result of one step: the new session, the reply shown to the
      learner, and the transcripts the step wrote (oldest first). */
  datatype Outcome = Outcome(session: Session, response: string, saved: seq<Transcript>)

  const Terminal := "🎉 Course completed! Start a new session to begin again."
  const CompletedSaved := "🎉 Course completed! Final chat history saved."
  const SelectFirst := "❌ Please select a course first."
  const NextCommand := "/next"
  const ErrorPrefix := "⚠️ Error: "
  /** The indentation the triple-quoted system text carries on its second line. */
  const SystemIndent := "                    "

  // ---------------------------------------------------------------------
  // Module log bookkeeping

  /** The entries of a log that are not system-role entries, in order. */
  function NonSystem(ms: seq<Message>): (r: seq<Message>)
    ensures |r| <= |ms|
    ensures forall i :: 0 <= i < |r| ==> r[i].role != System
  {
    if |ms| == 0 then []
    else NonSystem(ms[..|ms| - 1]) + (if ms[|ms| - 1].role != System then [ms[|ms| - 1]] else [])
  }

  /** Every non-system entry of a log is kept, and nothing else. */
  lemma {:induction false} NonSystemMembers(ms: seq<Message>)
    ensures forall m :: m in NonSystem(ms) <==> m in ms && m.role != System
  {
    if |ms| > 0 {
      var init := ms[..|ms| - 1];
      NonSystemMembers(init);
      assert ms == init + [ms[|ms| - 1]];
    }
  }

  /** Filtering distributes over concatenation, so the filtered log keeps the
      order in which entries were logged. */
  lemma {:induction false} NonSystemConcat(a: seq<Message>, b: seq<Message>)
    ensures NonSystem(a + b) == NonSystem(a) + NonSystem(b)
    decreases |b|
  {
    if |b| == 0 {
      assert a + b == a;
    } else {
      var c, d := a + b[..|b| - 1], b[..|b| - 1];
      assert (a + b)[..|a + b| - 1] == c;
      NonSystemConcat(a, d);
    }
  }

  /** Logging two entries one after the other appends both. A solver helper:
      stating the append once keeps the step lemmas below the resource limit. */
  lemma AppendTwo(ms: seq<Message>, a: Message, b: Message)
    ensures ms + [a] + [b] == ms + [a, b]
  {
  }

  predicate IsSuffix(a: seq<Message>, b: seq<Message>)
  {
    |a| <= |b| && b[|b| - |a|..] == a
  }

  predicate IsPrefix(a: seq<Message>, b: seq<Message>)
  {
    |a| <= |b| && b[..|a|] == a
  }

  /** `_add_message`: every entry goes to the full log; entries that are not
      system-role also go to the module log. */
  function Logged(s: Session, m: Message): (r: Session)
    ensures r.messages == s.messages + [m]
    ensures r.moduleMessages == s.moduleMessages + [m] <==> m.role != System
    ensures m.role == System ==> r.moduleMessages == s.moduleMessages
    ensures r.(messages := s.messages, moduleMessages := s.moduleMessages) == s
  {
    s.(messages := s.messages + [m],
       moduleMessages := if m.role != System then s.moduleMessages + [m] else s.moduleMessages)
  }

  // ---------------------------------------------------------------------
  // Catalogue lookups as the tutor makes them from its session

  /** `get_modules(selected_course)`; no course selected looks up nothing. */
  function SessionModules(cat: Catalogue, course: Option<string>): seq<(int, string)>
  {
    match course
    case None => []
    case Some(c) => GetModules(cat, c)
  }

  /** `get_module_content(selected_course, current_module_id)`; a missing
      course or module id matches no module. */
  function SessionContent(cat: Catalogue, course: Option<string>, moduleId: Option<int>): string
  {
    if course.Some? && moduleId.Some? then GetModuleContent(cat, course.value, moduleId.value)
    else NotFound
  }

  function ModuleBanner(id: int, name: string, content: string): string
  {
    "📘 Module " + IntText(id) + ": " + name + "\n" + content
  }

  function SelectedBanner(course: string, id: int, name: string, content: string): string
  {
    "✅ Selected " + course + "\n" + ModuleBanner(id, name, content)
  }

  function CourseListing(courses: seq<string>): string
  {
    "❌ Available courses: " + Join(courses, ", ")
  }

  function NoModulesText(course: string): string
  {
    "❌ No modules found for " + course
  }

  /** The system instruction naming the course, the module and its content. */
  function SystemText(cat: Catalogue, s: Session): string
  {
    "Teach " + OptionText(s.selectedCourse) + " Module " + OptionIntText(s.currentModuleId) + ".\n"
    + SystemIndent + "Content: " + SessionContent(cat, s.selectedCourse, s.currentModuleId)
  }

  /** What is sent to the completion service: the system instruction, then the
      module log only (never the full log). */
  function Prompt(cat: Catalogue, s: Session): seq<Message>
  {
    [Message(System, SystemText(cat, s))] + s.moduleMessages
  }

  /** A reply, or the error turned into an inline message. */
  function ReplyText(c: Completion): string
  {
    match c
    case Success(t) => t
    case Failure(e) => ErrorPrefix + e
  }

  // ---------------------------------------------------------------------
  // The transitions, on session values

  /** `_handle_next_module` */
  function NextModule(cat: Catalogue, s: Session, stamp: string): (r: Outcome)
    requires s.currentModuleIndex >= -1
    ensures r.session.courseSelected == s.courseSelected && r.session.selectedCourse == s.selectedCourse
    ensures r.session.currentModuleIndex - s.currentModuleIndex in {0, 1}
    ensures r.session.courseCompleted <==>
      s.courseCompleted || (s.courseSelected && s.currentModuleIndex >= |SessionModules(cat, s.selectedCourse)| - 1)
    ensures r.saved == [] || r.saved == Persisted(s, stamp)
    ensures !s.courseSelected ==> r.saved == []
  {
    if !s.courseSelected then Outcome(s, SelectFirst, [])
    else
      var modules := SessionModules(cat, s.selectedCourse);
      if s.currentModuleIndex >= |modules| - 1 then
        var done := s.(courseCompleted := true);
        Outcome(done, CompletedSaved, Persisted(done, stamp))
      else
        var saved := Persisted(s, stamp);
        var index := s.currentModuleIndex + 1;
        var id, name := modules[index].0, modules[index].1;
        var response := ModuleBanner(id, name, SessionContent(cat, s.selectedCourse, Some(id)));
        var moved := s.(currentModuleIndex := index, currentModuleId := Some(id), moduleMessages := []);
        Outcome(Logged(moved, Message(Assistant, response)), response, saved)
  }

  /** The position of the first course whose lower-cased name equals the
      lower-cased input. */
  function MatchCourse(courses: seq<string>, input: string): (r: Option<nat>)
    ensures r.Some? ==> r.value < |courses| && Lower(courses[r.value]) == Lower(input)
    ensures r.Some? ==> forall j :: 0 <= j < r.value ==> Lower(courses[j]) != Lower(input)
    ensures r.None? <==> forall j :: 0 <= j < |courses| ==> Lower(courses[j]) != Lower(input)
  {
    if |courses| == 0 then None
    else if Lower(courses[0]) == Lower(input) then Some(0)
    else match MatchCourse(courses[1..], input)
      case None => None
      case Some(k) => Some(k + 1)
  }

  /** `_handle_course_selection`; an empty matched name counts as no match. */
  function CourseSelection(cat: Catalogue, s: Session, input: string): (r: Outcome)
    ensures r.saved == [] && r.session.courseCompleted == s.courseCompleted
    ensures r.session == s || r.session.courseSelected
    ensures r.session.selectedCourse != s.selectedCourse ==>
      && r.session.selectedCourse.Some?
      && r.session.selectedCourse.value in GetCourses(cat)
      && Lower(r.session.selectedCourse.value) == Lower(input)
  {
    var courses := GetCourses(cat);
    var found := MatchCourse(courses, input);
    if found.None? || courses[found.value] == "" then Outcome(s, CourseListing(courses), [])
    else
      var name := courses[found.value];
      var chosen := s.(courseSelected := true, selectedCourse := Some(name));
      var modules := GetModules(cat, name);
      if |modules| == 0 then Outcome(chosen, NoModulesText(name), [])
      else
        var id, title := modules[0].0, modules[0].1;
        var response := SelectedBanner(name, id, title, GetModuleContent(cat, name, id));
        var started := chosen.(currentModuleIndex := 0, currentModuleId := Some(id));
        Outcome(Logged(started, Message(Assistant, response)), response, [])
  }

  /** `_handle_regular_message` */
  function RegularMessage(cat: Catalogue, s: Session, oracle: seq<Message> -> Completion): (r: Outcome)
    ensures r.saved == []
    ensures r.session.messages == s.messages + [Message(Assistant, r.response)]
    ensures r.session.moduleMessages == s.moduleMessages + [Message(Assistant, r.response)]
    ensures oracle(Prompt(cat, s)).Success? ==> r.response == oracle(Prompt(cat, s)).text
    ensures oracle(Prompt(cat, s)).Failure? ==> r.response == ErrorPrefix + oracle(Prompt(cat, s)).error
  {
    var response := ReplyText(oracle(Prompt(cat, s)));
    Outcome(Logged(s, Message(Assistant, response)), response, [])
  }

  /** The dispatch of `process_user_message`, on the session in which the
      input has already been logged. */
  function Dispatch(cat: Catalogue, s: Session, input: string, stamp: string,
                    oracle: seq<Message> -> Completion): Outcome
    requires s.currentModuleIndex >= -1
  {
    if Lower(input) == NextCommand then NextModule(cat, s, stamp)
    else if !s.courseSelected then CourseSelection(cat, s, input)
    else RegularMessage(cat, s, oracle)
  }

  /** `process_user_message` */
  function Process(cat: Catalogue, s: Session, input: string, stamp: string,
                   oracle: seq<Message> -> Completion): (r: Outcome)
    requires s.currentModuleIndex >= -1
    ensures r.session.currentModuleIndex >= -1
  {
    if s.courseCompleted then Outcome(s, Terminal, [])
    else Dispatch(cat, Logged(s, Message(User, input)), input, stamp, oracle)
  }

  // ---------------------------------------------------------------------
  // The session invariant

  /** The module log is a trailing part of the non-system history: it holds
      entries that were logged, in the order they were logged. (That it starts
      exactly at the last module change is what `FreshModuleLog` and
      `NextAdvances` state.) */
  predicate ModuleLogOk(s: Session)
  {
    IsSuffix(s.moduleMessages, NonSystem(s.messages))
  }

  /** Every state the tutor reaches: the index is -1 or a position in the
      selected course, the id caches that position, a course is chosen
      exactly when its name is set, completion implies selection, and the
      module log is a suffix of the non-system history. */
  ghost predicate SessionValid(cat: Catalogue, s: Session)
  {
    var modules := SessionModules(cat, s.selectedCourse);
    && -1 <= s.currentModuleIndex < |modules|
    && (s.currentModuleIndex == -1 ==> s.currentModuleId == None)
    && (s.currentModuleIndex >= 0 ==> s.currentModuleId == Some(modules[s.currentModuleIndex].0))
    && (s.courseSelected <==> s.selectedCourse.Some?)
    && (s.courseCompleted ==> s.courseSelected)
    && ModuleLogOk(s)
  }

  lemma InitialIsValid(cat: Catalogue, s: Session)
    requires IsInitial(s)
    ensures SessionValid(cat, s)
  {
  }

  /** Appending the same entries to a sequence and to one of its suffixes
      keeps it a suffix. */
  lemma SuffixAppend(a: seq<Message>, b: seq<Message>, x: seq<Message>)
    requires IsSuffix(a, b)
    ensures IsSuffix(a + x, b + x)
  {
    assert (b + x)[|b + x| - |a + x|..] == b[|b| - |a|..] + x;
  }

  /** Appending an entry keeps the module log a suffix of the non-system history. */
  lemma {:induction false} LoggedKeepsModuleLog(s: Session, m: Message)
    requires ModuleLogOk(s)
    ensures ModuleLogOk(Logged(s, m))
    ensures IsPrefix(s.messages, Logged(s, m).messages)
  {
    var r := Logged(s, m);
    NonSystemConcat(s.messages, [m]);
    SuffixAppend(s.moduleMessages, NonSystem(s.messages), NonSystem([m]));
    assert r.messages[..|s.messages|] == s.messages;
  }

  /** A module log reset to empty and then given one entry is still a suffix. */
  lemma {:induction false} FreshModuleLog(s: Session, m: Message)
    requires m.role != System
    ensures ModuleLogOk(Logged(s.(moduleMessages := []), m))
  {
    NonSystemConcat(s.messages, [m]);
    assert NonSystem([m]) == NonSystem([]) + [m] by {
      assert [m][..0] == [];
    }
  }

  lemma {:induction false} NextKeepsValid(cat: Catalogue, s: Session, stamp: string)
    requires SessionValid(cat, s)
    ensures SessionValid(cat, NextModule(cat, s, stamp).session)
  {
    var modules := SessionModules(cat, s.selectedCourse);
    if s.courseSelected && s.currentModuleIndex < |modules| - 1 {
      AdvanceOutcome(cat, s, stamp);
      AdvanceKeepsValid(cat, s, Message(Assistant, NextModule(cat, s, stamp).response));
    }
  }

  /** Moving to the next position, caching its id and starting the module log
      afresh with one non-system entry keeps the session invariant. */
  lemma {:induction false} AdvanceKeepsValid(cat: Catalogue, s: Session, m: Message)
    requires SessionValid(cat, s) && m.role != System
    requires s.courseSelected && s.currentModuleIndex < |SessionModules(cat, s.selectedCourse)| - 1
    ensures var modules := SessionModules(cat, s.selectedCourse);
      var index := s.currentModuleIndex + 1;
      SessionValid(cat, Logged(s.(currentModuleIndex := index, currentModuleId := Some(modules[index].0),
                                  moduleMessages := []), m))
  {
    var modules := SessionModules(cat, s.selectedCourse);
    var index := s.currentModuleIndex + 1;
    FreshModuleLog(s.(currentModuleIndex := index, currentModuleId := Some(modules[index].0)), m);
  }

  lemma {:induction false} SelectionKeepsValid(cat: Catalogue, s: Session, input: string)
    requires SessionValid(cat, s) && !s.courseSelected
    ensures SessionValid(cat, CourseSelection(cat, s, input).session)
  {
    var courses := GetCourses(cat);
    var found := MatchCourse(courses, input);
    if found.Some? && courses[found.value] != "" {
      var name := courses[found.value];
      var modules := GetModules(cat, name);
      var chosen := s.(courseSelected := true, selectedCourse := Some(name));
      if |modules| > 0 {
        var response := SelectedBanner(name, modules[0].0, modules[0].1, GetModuleContent(cat, name, modules[0].0));
        var started := chosen.(currentModuleIndex := 0, currentModuleId := Some(modules[0].0));
        LoggedKeepsModuleLog(started, Message(Assistant, response));
        assert CourseSelection(cat, s, input).session == Logged(started, Message(Assistant, response));
      } else {
        assert CourseSelection(cat, s, input).session == chosen;
      }
    }
  }

  lemma {:induction false} RegularKeepsValid(cat: Catalogue, s: Session, oracle: seq<Message> -> Completion)
    requires SessionValid(cat, s)
    ensures SessionValid(cat, RegularMessage(cat, s, oracle).session)
  {
    LoggedKeepsModuleLog(s, Message(Assistant, RegularMessage(cat, s, oracle).response));
  }

  /** Every step from a reachable state leads to a reachable state. */
  lemma {:induction false} ProcessKeepsValid(cat: Catalogue, s: Session, input: string, stamp: string,
                                             oracle: seq<Message> -> Completion)
    requires SessionValid(cat, s)
    ensures SessionValid(cat, Process(cat, s, input, stamp, oracle).session)
  {
    if !s.courseCompleted {
      var logged := Logged(s, Message(User, input));
      LoggedKeepsModuleLog(s, Message(User, input));
      if Lower(input) == NextCommand {
        NextKeepsValid(cat, logged, stamp);
      } else if !logged.courseSelected {
        SelectionKeepsValid(cat, logged, input);
      } else {
        RegularKeepsValid(cat, logged, oracle);
      }
    }
  }

  // Solver helpers: the three preservation lemmas, stated of a session known
  // to be the result, so that a method's proof need not expand the function.

  lemma ValidAfterNext(cat: Catalogue, s: Session, stamp: string, after: Session)
    requires SessionValid(cat, s) && after == NextModule(cat, s, stamp).session
    ensures SessionValid(cat, after)
  {
    NextKeepsValid(cat, s, stamp);
  }

  lemma ValidAfterSelection(cat: Catalogue, s: Session, input: string, after: Session)
    requires SessionValid(cat, s) && !s.courseSelected && after == CourseSelection(cat, s, input).session
    ensures SessionValid(cat, after)
  {
    SelectionKeepsValid(cat, s, input);
  }

  lemma ValidAfterRegular(cat: Catalogue, s: Session, oracle: seq<Message> -> Completion, after: Session)
    requires SessionValid(cat, s) && after == RegularMessage(cat, s, oracle).session
    ensures SessionValid(cat, after)
  {
    RegularKeepsValid(cat, s, oracle);
  }

  // ---------------------------------------------------------------------
  // Properties of one step

  /** Once the course is completed a step replies with the terminal notice,
      changes nothing and writes nothing. */
  lemma CompletedShortCircuits(cat: Catalogue, s: Session, input: string, stamp: string,
                               oracle: seq<Message> -> Completion)
    requires s.currentModuleIndex >= -1
    requires s.courseCompleted
    ensures Process(cat, s, input, stamp, oracle) == Outcome(s, Terminal, [])
  {
  }

  /** The full log is never shortened: a step on a completed session leaves
      it as it is, any other step extends it by the input and at most one
      reply from the assistant. */
  lemma {:induction false} FullLogGrows(cat: Catalogue, s: Session, input: string, stamp: string,
                                        oracle: seq<Message> -> Completion)
    requires s.currentModuleIndex >= -1
    ensures var r := Process(cat, s, input, stamp, oracle).session;
      && IsPrefix(s.messages, r.messages)
      && (s.courseCompleted ==> r.messages == s.messages)
      && (!s.courseCompleted ==> |s.messages| + 1 <= |r.messages| <= |s.messages| + 2
                                 && r.messages[|s.messages|] == Message(User, input)
                                 && (|r.messages| == |s.messages| + 2 ==>
                                       r.messages[|s.messages| + 1].role == Assistant))
  {
    if !s.courseCompleted {
      var logged := Logged(s, Message(User, input));
      var r := Process(cat, s, input, stamp, oracle).session;
      if Lower(input) == NextCommand {
        assert r == NextModule(cat, logged, stamp).session;
        NextAddsAtMostOne(cat, logged, stamp);
      } else if !logged.courseSelected {
        assert r == CourseSelection(cat, logged, input).session;
        SelectionAddsAtMostOne(cat, logged, input);
      } else {
        assert r == RegularMessage(cat, logged, oracle).session;
      }
      assert r.messages[..|s.messages|] == logged.messages[..|s.messages|];
    }
  }

  /** The full log after a step is the log before it, possibly with one more entry. */
  predicate AtMostOneMore(before: seq<Message>, after: seq<Message>)
  {
    after == before || (|after| == |before| + 1 && after[..|before|] == before)
  }

  lemma NextAddsAtMostOne(cat: Catalogue, s: Session, stamp: string)
    requires s.currentModuleIndex >= -1
    ensures AtMostOneMore(s.messages, NextModule(cat, s, stamp).session.messages)
  {
    if s.courseSelected && s.currentModuleIndex < |SessionModules(cat, s.selectedCourse)| - 1 {
      AdvanceOutcome(cat, s, stamp);
    }
  }

  lemma SelectionAddsAtMostOne(cat: Catalogue, s: Session, input: string)
    ensures AtMostOneMore(s.messages, CourseSelection(cat, s, input).session.messages)
  {
  }

  /** `/next` (in any letter case) before a course is chosen only logs the
      input and asks for a course; selection and module fields stay as they are. */
  lemma NextWithoutCourse(cat: Catalogue, s: Session, input: string, stamp: string,
                          oracle: seq<Message> -> Completion)
    requires s.currentModuleIndex >= -1
    requires !s.courseCompleted && !s.courseSelected
    requires Lower(input) == NextCommand
    ensures Process(cat, s, input, stamp, oracle)
            == Outcome(Logged(s, Message(User, input)), SelectFirst, [])
  {
  }

  /** `/next` on the last module (or a course without modules) completes the
      course and writes one transcript: the module log as it stood, ending with
      the `/next` input, under the current course and module id. */
  lemma NextOnLastModule(cat: Catalogue, s: Session, input: string, stamp: string,
                         oracle: seq<Message> -> Completion)
    requires s.currentModuleIndex >= -1
    requires !s.courseCompleted && s.courseSelected
    requires Lower(input) == NextCommand
    requires s.currentModuleIndex >= |SessionModules(cat, s.selectedCourse)| - 1
    ensures var o := Process(cat, s, input, stamp, oracle);
      && o.response == CompletedSaved
      && o.session.courseCompleted
      && o.session == Logged(s, Message(User, input)).(courseCompleted := true)
      && |o.saved| == 1
      && o.saved[0] == Transcript(HistoryKey(s.selectedCourse, s.currentModuleId, stamp),
                                  s.selectedCourse, s.currentModuleId,
                                  s.moduleMessages + [Message(User, input)])
  {
  }

  /** The shape of a module advance, on any session. */
  lemma AdvanceOutcome(cat: Catalogue, s: Session, stamp: string)
    requires s.currentModuleIndex >= -1 && s.courseSelected
    requires s.currentModuleIndex < |SessionModules(cat, s.selectedCourse)| - 1
    ensures var modules := SessionModules(cat, s.selectedCourse);
      var next := modules[s.currentModuleIndex + 1];
      var banner := ModuleBanner(next.0, next.1, SessionContent(cat, s.selectedCourse, Some(next.0)));
      NextModule(cat, s, stamp)
      == Outcome(Logged(s.(currentModuleIndex := s.currentModuleIndex + 1, currentModuleId := Some(next.0),
                           moduleMessages := []), Message(Assistant, banner)),
                 banner, Persisted(s, stamp))
  {
    var modules := SessionModules(cat, s.selectedCourse);
    var next := modules[s.currentModuleIndex + 1];
    var banner := ModuleBanner(next.0, next.1, SessionContent(cat, s.selectedCourse, Some(next.0)));
    var moved := s.(currentModuleIndex := s.currentModuleIndex + 1, currentModuleId := Some(next.0),
                    moduleMessages := []);
    var o := NextModule(cat, s, stamp);
    assert o.session == Logged(moved, Message(Assistant, banner));
    assert o.response == banner;
  }

  /** A session whose fields are those of a module advance is the advance's
      result. */
  lemma AdvanceResult(cat: Catalogue, s: Session, stamp: string, after: Session, response: string)
    requires s.currentModuleIndex >= -1 && s.courseSelected
    requires s.currentModuleIndex < |SessionModules(cat, s.selectedCourse)| - 1
    requires var next := SessionModules(cat, s.selectedCourse)[s.currentModuleIndex + 1];
      && response == ModuleBanner(next.0, next.1, SessionContent(cat, s.selectedCourse, Some(next.0)))
      && after.messages == s.messages + [Message(Assistant, response)]
      && after.moduleMessages == [Message(Assistant, response)]
      && after.courseSelected == s.courseSelected && after.selectedCourse == s.selectedCourse
      && after.currentModuleIndex == s.currentModuleIndex + 1 && after.currentModuleId == Some(next.0)
      && after.courseCompleted == s.courseCompleted
    ensures NextModule(cat, s, stamp) == Outcome(after, response, Persisted(s, stamp))
  {
    AdvanceOutcome(cat, s, stamp);
    assert [] + [Message(Assistant, response)] == [Message(Assistant, response)];
  }

  /** `/next` before the last module first writes the current module's
      transcript, then moves exactly one position on, caches the new module's
      id and leaves the module log holding only the new module's banner. */
  lemma NextAdvances(cat: Catalogue, s: Session, input: string, stamp: string,
                     oracle: seq<Message> -> Completion)
    requires s.currentModuleIndex >= -1
    requires !s.courseCompleted && s.courseSelected
    requires Lower(input) == NextCommand
    requires s.currentModuleIndex < |SessionModules(cat, s.selectedCourse)| - 1
    ensures var modules := SessionModules(cat, s.selectedCourse);
      var next := modules[s.currentModuleIndex + 1];
      var banner := ModuleBanner(next.0, next.1, SessionContent(cat, s.selectedCourse, Some(next.0)));
      Process(cat, s, input, stamp, oracle)
      == Outcome(Session(s.messages + [Message(User, input), Message(Assistant, banner)],
                         [Message(Assistant, banner)],
                         true, s.selectedCourse, s.currentModuleIndex + 1, Some(next.0), false),
                 banner,
                 [Transcript(HistoryKey(s.selectedCourse, s.currentModuleId, stamp),
                             s.selectedCourse, s.currentModuleId,
                             s.moduleMessages + [Message(User, input)])])
  {
    var logged := Logged(s, Message(User, input));
    assert Process(cat, s, input, stamp, oracle) == NextModule(cat, logged, stamp);
    var modules := SessionModules(cat, logged.selectedCourse);
    assert modules == SessionModules(cat, s.selectedCourse);
    AdvanceOutcome(cat, logged, stamp);
    var next := modules[s.currentModuleIndex + 1];
    var banner := ModuleBanner(next.0, next.1, SessionContent(cat, s.selectedCourse, Some(next.0)));
    AppendTwo(s.messages, Message(User, input), Message(Assistant, banner));
  }

  /** The only step that completes a course is `/next` on the last module of a
      selected course. */
  lemma CompletionOnlyByNext(cat: Catalogue, s: Session, input: string, stamp: string,
                             oracle: seq<Message> -> Completion)
    requires s.currentModuleIndex >= -1
    requires !s.courseCompleted
    requires Process(cat, s, input, stamp, oracle).session.courseCompleted
    ensures Lower(input) == NextCommand && s.courseSelected
    ensures s.currentModuleIndex >= |SessionModules(cat, s.selectedCourse)| - 1
  {
  }

  /** An input that names no course (ignoring letter case) lists every course
      and changes nothing but the logs, which gain the input. */
  lemma {:induction false} UnknownCourse(cat: Catalogue, s: Session, input: string, stamp: string,
                                         oracle: seq<Message> -> Completion)
    requires s.currentModuleIndex >= -1
    requires !s.courseCompleted && !s.courseSelected && Lower(input) != NextCommand
    requires forall c :: c in GetCourses(cat) ==> Lower(c) != Lower(input)
    ensures Process(cat, s, input, stamp, oracle)
            == Outcome(Logged(s, Message(User, input)), CourseListing(GetCourses(cat)), [])
  {
  }

  /** The selected course is the first one whose name equals the input up to
      letter case. With modules, the first module starts at index 0 and one
      reply is logged; without modules the index and id stay where they were.
      Either way the module log is not emptied: earlier inputs that named no
      course stay in it and open the first module's transcript. */
  lemma {:induction false} CourseChosen(cat: Catalogue, s: Session, input: string, stamp: string,
                                        oracle: seq<Message> -> Completion, i: nat)
    requires s.currentModuleIndex >= -1
    requires !s.courseCompleted && !s.courseSelected && Lower(input) != NextCommand
    requires |input| > 0
    requires i < |GetCourses(cat)| && Lower(GetCourses(cat)[i]) == Lower(input)
    requires forall j :: 0 <= j < i ==> Lower(GetCourses(cat)[j]) != Lower(input)
    ensures var o := Process(cat, s, input, stamp, oracle);
      var name := GetCourses(cat)[i];
      var modules := GetModules(cat, name);
      && o.session.courseSelected && o.session.selectedCourse == Some(name)
      && !o.session.courseCompleted
      && o.saved == []
      && (|modules| == 0 ==>
            && o.response == NoModulesText(name)
            && o.session.currentModuleIndex == s.currentModuleIndex
            && o.session.currentModuleId == s.currentModuleId
            && o.session.messages == s.messages + [Message(User, input)]
            && o.session.moduleMessages == s.moduleMessages + [Message(User, input)])
      && (|modules| > 0 ==>
            && o.session.currentModuleIndex == 0
            && o.session.currentModuleId == Some(modules[0].0)
            && o.response == SelectedBanner(name, modules[0].0, modules[0].1,
                                             GetModuleContent(cat, name, modules[0].0))
            && o.session.messages == s.messages + [Message(User, input), Message(Assistant, o.response)]
            && o.session.moduleMessages == s.moduleMessages + [Message(User, input), Message(Assistant, o.response)])
  {
    var courses := GetCourses(cat);
    var found := MatchCourse(courses, input);
    assert found == Some(i);
    assert |courses[i]| == |Lower(courses[i])| == |Lower(input)| == |input|;
    var logged := Logged(s, Message(User, input));
    assert Process(cat, s, input, stamp, oracle) == CourseSelection(cat, logged, input);
    var modules := GetModules(cat, courses[i]);
    if |modules| > 0 {
      var response := SelectedBanner(courses[i], modules[0].0, modules[0].1,
                                     GetModuleContent(cat, courses[i], modules[0].0));
      AppendTwo(s.messages, Message(User, input), Message(Assistant, response));
      AppendTwo(s.moduleMessages, Message(User, input), Message(Assistant, response));
    }
  }

  /** Course selection succeeds exactly when some listed course equals the
      input up to letter case. */
  lemma {:induction false} SelectionIff(cat: Catalogue, s: Session, input: string, stamp: string,
                                        oracle: seq<Message> -> Completion)
    requires s.currentModuleIndex >= -1
    requires !s.courseCompleted && !s.courseSelected && Lower(input) != NextCommand
    requires |input| > 0
    ensures Process(cat, s, input, stamp, oracle).session.courseSelected
            <==> exists c :: c in GetCourses(cat) && Lower(c) == Lower(input)
  {
    var courses := GetCourses(cat);
    var found := MatchCourse(courses, input);
    if found.Some? {
      var c := courses[found.value];
      assert c in courses && Lower(c) == Lower(input);
      assert |c| == |input|;
    }
  }

  /** With a course selected, anything but `/next` goes to the completion
      service with the system instruction and the module log (which ends with
      the input); exactly one reply is logged, success or failure, and it is
      what is returned. Selection, module and completion fields do not change. */
  lemma RegularReply(cat: Catalogue, s: Session, input: string, stamp: string,
                     oracle: seq<Message> -> Completion)
    requires s.currentModuleIndex >= -1
    requires !s.courseCompleted && s.courseSelected && Lower(input) != NextCommand
    ensures var o := Process(cat, s, input, stamp, oracle);
      var prompt := [Message(System, SystemText(cat, s))] + s.moduleMessages + [Message(User, input)];
      && o.response == ReplyText(oracle(prompt))
      && o.session.messages == s.messages + [Message(User, input), Message(Assistant, o.response)]
      && o.session.moduleMessages == s.moduleMessages + [Message(User, input), Message(Assistant, o.response)]
      && o.session.courseSelected == s.courseSelected && o.session.selectedCourse == s.selectedCourse
      && o.session.currentModuleIndex == s.currentModuleIndex
      && o.session.currentModuleId == s.currentModuleId
      && !o.session.courseCompleted
      && o.saved == []
  {
    var logged := Logged(s, Message(User, input));
    assert SystemText(cat, logged) == SystemText(cat, s);
    assert Prompt(cat, logged) == [Message(System, SystemText(cat, s))] + s.moduleMessages + [Message(User, input)];
  }

  /** Once chosen, the course stays chosen: the same name typed again is an
      ordinary message, not a second selection. */
  lemma SelectionIsSticky(cat: Catalogue, s: Session, input: string, stamp: string,
                          oracle: seq<Message> -> Completion)
    requires s.currentModuleIndex >= -1
    requires s.courseSelected
    ensures Process(cat, s, input, stamp, oracle).session.courseSelected
    ensures Process(cat, s, input, stamp, oracle).session.selectedCourse == s.selectedCourse
  {
  }

  /** From a reachable state the module index never goes back and moves at
      most one position per step. */
  lemma IndexMonotone(cat: Catalogue, s: Session, input: string, stamp: string,
                      oracle: seq<Message> -> Completion)
    requires SessionValid(cat, s)
    ensures s.currentModuleIndex <= Process(cat, s, input, stamp, oracle).session.currentModuleIndex
                                 <= s.currentModuleIndex + 1
  {
  }

  // ---------------------------------------------------------------------
  // Sequences of steps

  /** One call of `process_user_message`, with the clock reading and the
      completion service's behaviour at that call. */
  datatype Call = Call(input: string, stamp: string, oracle: seq<Message> -> Completion)

  /** The session after a sequence of calls, and every transcript written. */
  function Run(cat: Catalogue, s: Session, calls: seq<Call>): (Session, seq<Transcript>)
    requires s.currentModuleIndex >= -1
    decreases |calls|
  {
    if |calls| == 0 then (s, [])
    else
      var o := Process(cat, s, calls[0].input, calls[0].stamp, calls[0].oracle);
      var rest := Run(cat, o.session, calls[1..]);
      (rest.0, o.saved + rest.1)
  }

  /** A completed session absorbs every sequence of calls. */
  lemma {:induction false} CompletedIsTerminal(cat: Catalogue, s: Session, calls: seq<Call>)
    requires s.currentModuleIndex >= -1
    requires s.courseCompleted
    ensures Run(cat, s, calls) == (s, [])
    decreases |calls|
  {
    if |calls| > 0 {
      var o := Process(cat, s, calls[0].input, calls[0].stamp, calls[0].oracle);
      assert o == Outcome(s, Terminal, []);
      CompletedIsTerminal(cat, s, calls[1..]);
      var rest := Run(cat, s, calls[1..]);
      assert Run(cat, s, calls) == (rest.0, o.saved + rest.1);
      assert o.saved + rest.1 == [];
    }
  }

  /** Over any sequence of calls the full log only grows by appending. */
  lemma {:induction false} RunKeepsLogPrefix(cat: Catalogue, s: Session, calls: seq<Call>)
    requires s.currentModuleIndex >= -1
    ensures IsPrefix(s.messages, Run(cat, s, calls).0.messages)
    decreases |calls|
  {
    if |calls| > 0 {
      var o := Process(cat, s, calls[0].input, calls[0].stamp, calls[0].oracle);
      FullLogGrows(cat, s, calls[0].input, calls[0].stamp, calls[0].oracle);
      RunKeepsLogPrefix(cat, o.session, calls[1..]);
    }
  }

  /** Over any sequence of calls from a reachable state, the state stays
      reachable and the module index never decreases. */
  lemma {:induction false} RunKeepsValid(cat: Catalogue, s: Session, calls: seq<Call>)
    requires SessionValid(cat, s)
    ensures SessionValid(cat, Run(cat, s, calls).0)
    ensures s.currentModuleIndex <= Run(cat, s, calls).0.currentModuleIndex
    decreases |calls|
  {
    if |calls| > 0 {
      var o := Process(cat, s, calls[0].input, calls[0].stamp, calls[0].oracle);
      ProcessKeepsValid(cat, s, calls[0].input, calls[0].stamp, calls[0].oracle);
      IndexMonotone(cat, s, calls[0].input, calls[0].stamp, calls[0].oracle);
      RunKeepsValid(cat, o.session, calls[1..]);
    }
  }

  // ---------------------------------------------------------------------
  // The tutor object

  class Tutor {
    const catalogue: Catalogue
    const state: SessionState
    const history: TranscriptLog

    ghost predicate Valid()
      reads state
    {
      SessionValid(catalogue, state.Snapshot())
    }

    /** A tutor starts with a fresh, reset session. */
    constructor (catalogue: Catalogue, history: TranscriptLog)
      ensures this.catalogue == catalogue && this.history == history
      ensures fresh(state) && IsInitial(state.Snapshot())
      ensures Valid()
    {
      this.catalogue := catalogue;
      this.history := history;
      state := new SessionState();
    }

    method AddMessage(role: Role, content: string)
      modifies state
      ensures state.Snapshot() == Logged(old(state.Snapshot()), Message(role, content))
    {
      state.messages := state.messages + [Message(role, content)];
      if role != System {
        state.moduleMessages := state.moduleMessages + [Message(role, content)];
      }
    }

    method HandleNextModule(stamp: string) returns (response: string)
      requires state.currentModuleIndex >= -1
      modifies state, history
      ensures var o := NextModule(catalogue, old(state.Snapshot()), stamp);
        state.Snapshot() == o.session && response == o.response
        && history.records == old(history.records) + o.saved
    {
      if !state.courseSelected {
        return SelectFirst;
      }
      var modules := SessionModules(catalogue, state.selectedCourse);
      if state.currentModuleIndex >= |modules| - 1 {
        state.courseCompleted := true;
        SaveChatHistory(state, history, stamp);
        return CompletedSaved;
      }
      ghost var before := state.Snapshot();
      SaveChatHistory(state, history, stamp);
      state.currentModuleIndex := state.currentModuleIndex + 1;
      var id, name := modules[state.currentModuleIndex].0, modules[state.currentModuleIndex].1;
      state.currentModuleId := Some(id);
      state.moduleMessages := [];
      var content := SessionContent(catalogue, state.selectedCourse, Some(id));
      response := ModuleBanner(id, name, content);
      AddMessage(Assistant, response);
      AdvanceResult(catalogue, before, stamp, state.Snapshot(), response);
    }

    method HandleCourseSelection(input: string) returns (response: string)
      modifies state
      ensures var o := CourseSelection(catalogue, old(state.Snapshot()), input);
        state.Snapshot() == o.session && response == o.response && o.saved == []
    {
      var courses := GetCourses(catalogue);
      var found := MatchCourse(courses, input);
      if found.None? || courses[found.value] == "" {
        return CourseListing(courses);
      }
      var name := courses[found.value];
      state.courseSelected := true;
      state.selectedCourse := Some(name);
      var modules := GetModules(catalogue, name);
      if |modules| == 0 {
        return NoModulesText(name);
      }
      state.currentModuleIndex := 0;
      state.currentModuleId := Some(modules[0].0);
      var content := GetModuleContent(catalogue, name, modules[0].0);
      response := SelectedBanner(name, modules[0].0, modules[0].1, content);
      AddMessage(Assistant, response);
    }

    method HandleRegularMessage(oracle: seq<Message> -> Completion) returns (response: string)
      modifies state
      ensures var o := RegularMessage(catalogue, old(state.Snapshot()), oracle);
        state.Snapshot() == o.session && response == o.response && o.saved == []
    {
      var reply := oracle(Prompt(catalogue, state.Snapshot()));
      response := ReplyText(reply);
      AddMessage(Assistant, response);
    }

    /** One learner input: the reply, the new session and the transcripts
      written are those of `Process`, and the session stays reachable. */
    method ProcessUserMessage(input: string, stamp: string, oracle: seq<Message> -> Completion)
      returns (response: string)
      requires Valid()
      requires |input| > 0
      modifies state, history
      ensures Valid()
      ensures var o := Process(catalogue, old(state.Snapshot()), input, stamp, oracle);
        state.Snapshot() == o.session && response == o.response
        && history.records == old(history.records) + o.saved
    {
      if state.courseCompleted {
        return Terminal;
      }
      LoggedKeepsModuleLog(state.Snapshot(), Message(User, input));
      AddMessage(User, input);
      response := DispatchInput(input, stamp, oracle);
    }

    /** Dispatches an input that has already been logged. */
    method DispatchInput(input: string, stamp: string, oracle: seq<Message> -> Completion)
      returns (response: string)
      requires Valid()
      modifies state, history
      ensures Valid()
      ensures var o := Dispatch(catalogue, old(state.Snapshot()), input, stamp, oracle);
        state.Snapshot() == o.session && response == o.response
        && history.records == old(history.records) + o.saved
    {
      ghost var before := state.Snapshot();
      if Lower(input) == NextCommand {
        response := HandleNextModule(stamp);
        ValidAfterNext(catalogue, before, stamp, state.Snapshot());
        return;
      }
      if !state.courseSelected {
        response := HandleCourseSelection(input);
        ValidAfterSelection(catalogue, before, input, state.Snapshot());
        return;
      }
      response := HandleRegularMessage(oracle);
      ValidAfterRegular(catalogue, before, oracle, state.Snapshot());
    }
  }
}
