/** The read-only course catalogue and its three lookups. The loaded data is
    an immutable value, so no lookup can change it. */
module Courses {
  import opened Util

  /** One module record; `content` is absent when the record has no "Content" key. */
  datatype Module = Module(id: int, name: string, content: Option<string>)

  /** One entry of the "Course" object: its key and its list of modules. */
  datatype Course = Course(name: string, modules: seq<Module>)

  /** The loaded course data. `section` is the "Course" object, in key order,
      or None when the data has no such key. */
  datatype Catalogue = Catalogue(section: Option<seq<Course>>)

  const NoContent := "No content available for this module."
  const NotFound := "Module not found."

  /** `course_data.get("Course", {})` */
  function Entries(cat: Catalogue): seq<Course>
  {
    match cat.section
    case None => []
    case Some(cs) => cs
  }

  /** A JSON object has distinct keys. */
  ghost predicate WellFormed(cat: Catalogue)
  {
    forall i, j :: 0 <= i < j < |Entries(cat)| ==> Entries(cat)[i].name != Entries(cat)[j].name
  }

  /** The position of the first entry with the given key. */
  function CourseIndex(courses: seq<Course>, courseName: string): (r: Option<nat>)
    ensures r.Some? ==> r.value < |courses| && courses[r.value].name == courseName
    ensures r.Some? ==> forall j :: 0 <= j < r.value ==> courses[j].name != courseName
    ensures r.None? <==> forall j :: 0 <= j < |courses| ==> courses[j].name != courseName
  {
    if |courses| == 0 then None
    else if courses[0].name == courseName then Some(0)
    else match CourseIndex(courses[1..], courseName)
      case None => None
      case Some(k) => Some(k + 1)
  }

  /** The position of the first module with the given id: the `for` loop of
      `get_module_content`, which returns on the first match. */
  function ModuleIndex(mods: seq<Module>, moduleId: int): (r: Option<nat>)
    ensures r.Some? ==> r.value < |mods| && mods[r.value].id == moduleId
    ensures r.Some? ==> forall j :: 0 <= j < r.value ==> mods[j].id != moduleId
    ensures r.None? <==> forall j :: 0 <= j < |mods| ==> mods[j].id != moduleId
  {
    if |mods| == 0 then None
    else if mods[0].id == moduleId then Some(0)
    else match ModuleIndex(mods[1..], moduleId)
      case None => None
      case Some(k) => Some(k + 1)
  }

  /** `course_data.get("Course", {}).get(course_name, [])` */
  function ModulesOf(cat: Catalogue, courseName: string): (mods: seq<Module>)
    ensures (forall i :: 0 <= i < |Entries(cat)| ==> Entries(cat)[i].name != courseName) ==> mods == []
  {
    match CourseIndex(Entries(cat), courseName)
    case None => []
    case Some(i) => Entries(cat)[i].modules
  }

  /** The names of all courses, in the order the data lists them. */
  function GetCourses(cat: Catalogue): (names: seq<string>)
    ensures |names| == |Entries(cat)|
    ensures forall i :: 0 <= i < |names| ==> names[i] == Entries(cat)[i].name
    ensures cat.section.None? ==> names == []
  {
    seq(|Entries(cat)|, i requires 0 <= i < |Entries(cat)| => Entries(cat)[i].name)
  }

  /** The (id, name) pairs of a course's modules, in catalogue order. */
  function GetModules(cat: Catalogue, courseName: string): (pairs: seq<(int, string)>)
    ensures |pairs| == |ModulesOf(cat, courseName)|
    ensures forall k :: 0 <= k < |pairs| ==>
      pairs[k] == (ModulesOf(cat, courseName)[k].id, ModulesOf(cat, courseName)[k].name)
    ensures courseName !in GetCourses(cat) ==> pairs == []
  {
    var mods := ModulesOf(cat, courseName);
    if |mods| == 0 then []
    else seq(|mods|, k requires 0 <= k < |mods| => (mods[k].id, mods[k].name))
  }

  /** The text a module record yields: its content, or the placeholder. */
  function ContentText(m: Module): string
  {
    match m.content
    case None => NoContent
    case Some(c) => c
  }

  /** The content of the first module of the course whose id matches. */
  function GetModuleContent(cat: Catalogue, courseName: string, moduleId: int): (text: string)
    ensures text == NotFound || exists k :: (0 <= k < |ModulesOf(cat, courseName)|
      && ModulesOf(cat, courseName)[k].id == moduleId && text == ContentText(ModulesOf(cat, courseName)[k]))
  {
    var mods := ModulesOf(cat, courseName);
    match ModuleIndex(mods, moduleId)
    case None => NotFound
    case Some(k) => ContentText(mods[k])
  }

  /** In well-formed data, the modules looked up by a listed course's name are
      exactly that course's modules. */
  lemma {:induction false} ModulesOfListedCourse(cat: Catalogue, i: nat)
    requires WellFormed(cat)
    requires i < |Entries(cat)|
    ensures ModulesOf(cat, Entries(cat)[i].name) == Entries(cat)[i].modules
    ensures |GetModules(cat, Entries(cat)[i].name)| == |Entries(cat)[i].modules|
  {
    var r := CourseIndex(Entries(cat), Entries(cat)[i].name);
    assert r.Some?;
  }

  /** Looking up the content of the module at position k of a course, whose id
      no earlier module shares, gives that module's content or the placeholder. */
  lemma {:induction false} ContentOfListedModule(cat: Catalogue, courseName: string, k: nat)
    requires k < |GetModules(cat, courseName)|
    requires forall j :: 0 <= j < k ==> GetModules(cat, courseName)[j].0 != GetModules(cat, courseName)[k].0
    ensures GetModuleContent(cat, courseName, GetModules(cat, courseName)[k].0)
            == ContentText(ModulesOf(cat, courseName)[k])
  {
    var mods := ModulesOf(cat, courseName);
    var id := mods[k].id;
    assert GetModules(cat, courseName)[k].0 == id;
    assert ModuleIndex(mods, id).Some?;
  }

  /** An id that no module of the course carries, or a course the catalogue
      does not list, gives the not-found text. */
  lemma {:induction false} ContentOfUnlistedModule(cat: Catalogue, courseName: string, moduleId: int)
    requires forall j :: 0 <= j < |GetModules(cat, courseName)| ==> GetModules(cat, courseName)[j].0 != moduleId
    ensures GetModuleContent(cat, courseName, moduleId) == NotFound
  {
    var mods := ModulesOf(cat, courseName);
    forall j | 0 <= j < |mods|
      ensures mods[j].id != moduleId
    {
      assert GetModules(cat, courseName)[j].0 == mods[j].id;
    }
  }
}
