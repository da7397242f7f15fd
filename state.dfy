/** The per-learner session record: message logs, course/module selection and
    the terminal completion flag. */
module State {
  import opened Util

  datatype Role = System | User | Assistant

  /** One chat entry, the `{"role": ..., "content": ...}` dictionary. */
  datatype Message = Message(role: Role, content: string)

  /** The value of a session record at one moment. */
  datatype Session = Session(
    messages: seq<Message>,
    moduleMessages: seq<Message>,
    courseSelected: bool,
    selectedCourse: Option<string>,
    currentModuleIndex: int,
    currentModuleId: Option<int>,
    courseCompleted: bool)

  /** The values a record holds right after `reset`; index -1 means "no module". */
  predicate IsInitial(s: Session)
  {
    && s.messages == [] && s.moduleMessages == []
    && !s.courseSelected && s.selectedCourse == None
    && s.currentModuleIndex == -1 && s.currentModuleId == None
    && !s.courseCompleted
  }

  /** The initial record is unique: any two records that both look freshly
      reset are the same value, so resetting twice gives what resetting once does. */
  lemma InitialIsUnique(s: Session, t: Session)
    requires IsInitial(s) && IsInitial(t)
    ensures s == t
  {
  }

  class SessionState {
    var messages: seq<Message>
    var moduleMessages: seq<Message>
    var courseSelected: bool
    var selectedCourse: Option<string>
    var currentModuleIndex: int
    var currentModuleId: Option<int>
    var courseCompleted: bool

    function Snapshot(): Session
      reads this
    {
      Session(messages, moduleMessages, courseSelected, selectedCourse,
              currentModuleIndex, currentModuleId, courseCompleted)
    }

    /** A new record is a reset one. */
    constructor ()
      ensures IsInitial(Snapshot())
    {
      new;
      Reset();
    }

    method Reset()
      modifies this
      ensures IsInitial(Snapshot())
    {
      messages := [];
      moduleMessages := [];
      courseSelected := false;
      selectedCourse := None;
      currentModuleIndex := -1;
      currentModuleId := None;
      courseCompleted := false;
    }
  }
}
