/** Saving a module's transcript. The directory creation, the clock and the
    JSON file write are outside the model: the wall-clock stamp is a parameter
    and each write becomes an append to a log of persisted transcripts. */
module ChatHistory {
  import opened Util
  import opened State

  /** One written file: its name and the JSON object stored in it. */
  datatype Transcript = Transcript(
    key: string,
    course: Option<string>,
    moduleId: Option<int>,
    messages: seq<Message>)

  /** The file name: course, module id and the time of writing. */
  function HistoryKey(course: Option<string>, moduleId: Option<int>, stamp: string): (key: string)
    ensures |key| >= 5 && key[|key| - 5..] == ".json"
  {
    KeyPrefix(course, moduleId) + stamp + ".json"
  }

  function KeyPrefix(course: Option<string>, moduleId: Option<int>): string
  {
    OptionText(course) + "_module_" + OptionIntText(moduleId) + "_"
  }

  /** What one save of session `s` at time `stamp` writes: nothing when no
      course is selected or the module log is empty, otherwise exactly one
      record of the selected course, the current module id and the module log. */
  function Persisted(s: Session, stamp: string): (written: seq<Transcript>)
    ensures !s.courseSelected ==> written == []
    ensures s.moduleMessages == [] ==> written == []
    ensures s.courseSelected && s.moduleMessages != [] ==>
      && |written| == 1
      && written[0].course == s.selectedCourse
      && written[0].moduleId == s.currentModuleId
      && written[0].messages == s.moduleMessages
      && written[0].key == HistoryKey(s.selectedCourse, s.currentModuleId, stamp)
  {
    if !s.courseSelected || |s.moduleMessages| == 0 then []
    else
      [Transcript(HistoryKey(s.selectedCourse, s.currentModuleId, stamp),
                  s.selectedCourse, s.currentModuleId, s.moduleMessages)]
  }

  /** Saves of the same module with different time stamps go to different files. */
  lemma KeysDifferByStamp(course: Option<string>, moduleId: Option<int>, t1: string, t2: string)
    requires t1 != t2
    ensures HistoryKey(course, moduleId, t1) != HistoryKey(course, moduleId, t2)
  {
    StampOfKey(course, moduleId, t1);
    StampOfKey(course, moduleId, t2);
  }

  /** The stamp can be read back from a key whose course and module are known. */
  lemma StampOfKey(course: Option<string>, moduleId: Option<int>, stamp: string)
    ensures var n, key := |KeyPrefix(course, moduleId)|, HistoryKey(course, moduleId, stamp);
      n + 5 <= |key| && key[n..|key| - 5] == stamp
  {
    var n, key := |KeyPrefix(course, moduleId)|, HistoryKey(course, moduleId, stamp);
    assert key == KeyPrefix(course, moduleId) + stamp + ".json";
  }

  /** The transcripts written so far, oldest first. */
  class TranscriptLog {
    ghost var records: seq<Transcript>

    constructor ()
      ensures records == []
    {
      records := [];
    }
  }

  /** Writes the current module's transcript, if there is one to write. The
      session record is only read. */
  method SaveChatHistory(state: SessionState, log: TranscriptLog, stamp: string)
    modifies log
    ensures log.records == old(log.records) + Persisted(state.Snapshot(), stamp)
  {
    if !state.courseSelected || |state.moduleMessages| == 0 {
      return;
    }
    var key := HistoryKey(state.selectedCourse, state.currentModuleId, stamp);
    log.records := log.records + [Transcript(key, state.selectedCourse, state.currentModuleId, state.moduleMessages)];
  }
}
