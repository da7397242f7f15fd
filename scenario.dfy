/** A worked session over a one-course catalogue: choose the course in lower
    case, advance through both modules, then try to continue. */
module Scenario {
  import opened Util
  import opened State
  import opened Courses
  import opened ChatHistory
  import opened Tutor

  function PythonCatalogue(): Catalogue
  {
    Catalogue(Some([Course("Python", [Module(1, "Intro", Some("intro text")),
                                      Module(2, "Loops", Some("loops text"))])]))
  }

  function Fresh(): Session
  {
    Session([], [], false, None, -1, None, false)
  }

  lemma CatalogueFacts()
    ensures GetCourses(PythonCatalogue()) == ["Python"]
    ensures GetModules(PythonCatalogue(), "Python") == [(1, "Intro"), (2, "Loops")]
    ensures GetModuleContent(PythonCatalogue(), "Python", 1) == "intro text"
    ensures GetModuleContent(PythonCatalogue(), "Python", 2) == "loops text"
  {
    var cat := PythonCatalogue();
    assert ModulesOf(cat, "Python") == Entries(cat)[0].modules by {
      ModulesOfListedCourse(cat, 0);
    }
    ContentOfListedModule(cat, "Python", 0);
    ContentOfListedModule(cat, "Python", 1);
  }

  lemma LowerFacts()
    ensures Lower("python") == "python" && Lower("Python") == "python"
    ensures Lower("java") == "java" && Lower("/next") == "/next"
    ensures Lower("anything") != "/next"
  {
    assert Lower("Python")[0] == 'p';
    assert Lower("python") == "python";
    assert Lower("Python") == "python";
    assert Lower("java") == "java";
    assert Lower("/next") == "/next";
    assert |Lower("anything")| == 8;
  }

  lemma JoinOne()
    ensures Join(["Python"], ", ") == "Python"
  {
  }

  /** The session is inside the Python course, at the given module. */
  predicate InPython(s: Session, index: int, id: int)
  {
    && s.courseSelected && s.selectedCourse == Some("Python")
    && s.currentModuleIndex == index && s.currentModuleId == Some(id)
    && !s.courseCompleted
  }

  /** "python" selects "Python" and starts module 1. */
  lemma SelectingPython(stamp: string, oracle: seq<Message> -> Completion)
    ensures var o := Process(PythonCatalogue(), Fresh(), "python", stamp, oracle);
      && InPython(o.session, 0, 1)
      && o.response == SelectedBanner("Python", 1, "Intro", "intro text")
      && o.saved == []
  {
    CatalogueFacts();
    LowerFacts();
    CourseChosen(PythonCatalogue(), Fresh(), "python", stamp, oracle, 0);
  }

  /** "java" names no course: the courses are listed and nothing is selected. */
  lemma ListingForJava(stamp: string, oracle: seq<Message> -> Completion)
    ensures var o := Process(PythonCatalogue(), Fresh(), "java", stamp, oracle);
      && !o.session.courseSelected
      && o.response == "❌ Available courses: Python"
  {
    CatalogueFacts();
    LowerFacts();
    JoinOne();
    UnknownCourse(PythonCatalogue(), Fresh(), "java", stamp, oracle);
  }

  /** `/next` in module 1 saves module 1's log and opens module 2 with a
      one-entry module log. */
  lemma SecondModule(s: Session, stamp: string, oracle: seq<Message> -> Completion)
    requires InPython(s, 0, 1)
    ensures var o := Process(PythonCatalogue(), s, "/next", stamp, oracle);
      && |o.saved| == 1 && o.saved[0].moduleId == Some(1)
      && InPython(o.session, 1, 2)
      && o.session.moduleMessages == [Message(Assistant, ModuleBanner(2, "Loops", "loops text"))]
  {
    CatalogueFacts();
    LowerFacts();
    NextAdvances(PythonCatalogue(), s, "/next", stamp, oracle);
  }

  /** `/next` in the last module saves its log and completes the course. */
  lemma LastModule(s: Session, stamp: string, oracle: seq<Message> -> Completion)
    requires InPython(s, 1, 2)
    ensures var o := Process(PythonCatalogue(), s, "/next", stamp, oracle);
      && |o.saved| == 1 && o.saved[0].moduleId == Some(2)
      && o.session.courseCompleted
      && o.response == "🎉 Course completed! Final chat history saved."
  {
    CatalogueFacts();
    LowerFacts();
    NextOnLastModule(PythonCatalogue(), s, "/next", stamp, oracle);
  }

  /** The whole walk: choose the course, advance through both modules, then
      anything after that gets the terminal notice and changes nothing. */
  lemma AdvancingThroughPython(stamp1: string, stamp2: string, stamp3: string,
                               oracle: seq<Message> -> Completion)
    ensures var cat := PythonCatalogue();
      var s1 := Process(cat, Fresh(), "python", stamp1, oracle).session;
      var o2 := Process(cat, s1, "/next", stamp2, oracle);
      var o3 := Process(cat, o2.session, "/next", stamp3, oracle);
      var o4 := Process(cat, o3.session, "anything", stamp3, oracle);
      && |o2.saved| == 1 && o2.saved[0].moduleId == Some(1)
      && o2.session.currentModuleId == Some(2)
      && o2.session.moduleMessages == [Message(Assistant, ModuleBanner(2, "Loops", "loops text"))]
      && |o3.saved| == 1 && o3.saved[0].moduleId == Some(2)
      && o3.session.courseCompleted
      && o3.response == "🎉 Course completed! Final chat history saved."
      && o4.response == "🎉 Course completed! Start a new session to begin again."
      && o4.session == o3.session
  {
    var cat := PythonCatalogue();
    SelectingPython(stamp1, oracle);
    var s1 := Process(cat, Fresh(), "python", stamp1, oracle).session;
    SecondModule(s1, stamp2, oracle);
    var s2 := Process(cat, s1, "/next", stamp2, oracle).session;
    LastModule(s2, stamp3, oracle);
    var s3 := Process(cat, s2, "/next", stamp3, oracle).session;
    CompletedShortCircuits(cat, s3, "anything", stamp3, oracle);
  }
}
