/**
  The module store of the React client (frontend/src/context/ModuleContext.tsx).
  Media paths the server returns are made absolute by prefixing the
  server's address, and a missing image or handout is replaced by a default.
 */
module ModuleContext {
  import opened Wrappers
  import opened Text
  import opened KeyedLists
  import opened Http

  /** The server's address. */
  const Endpoint: string := "http://localhost:8000"
  /** What a module without an image shows. */
  const DefaultImage: string := "/achieve_a_mark.png"
  /** What a module without a handout links to. */
  const DefaultPdf: string := "/*"

  /** A module as the server returns it; an absent image or handout is ""
      (the creator's name is not modelled). */
  datatype ModuleRecord = ModuleRecord(
    id: int, title: string, topic: string, image: string, courseId: int, lessonPdf: string)

  function ModuleId(m: ModuleRecord): int { m.id }

  /** The rule `normalizeModule` applies to the image and to the handout:
      an empty value becomes the default; a value already starting with the
      server's address is kept; any other value gets that address in front. */
  function NormalizeMedia(value: string, default: string): (r: string)
    ensures value == "" ==> r == default
    ensures value != "" ==> StartsWith(r, Endpoint) && |r| >= |value| && r[|r| - |value|..] == value
    ensures StartsWith(value, Endpoint) ==> r == value
  {
    if value == "" then default
    else if StartsWith(value, Endpoint) then value
    else Endpoint + value
  }

  /** On a present value, normalising twice is normalising once. */
  lemma NormalizeMediaIdempotent(value: string, default: string)
    requires value != ""
    ensures NormalizeMedia(NormalizeMedia(value, default), default) == NormalizeMedia(value, default)
  {
  }

  /** The defaults are not fixed points: a second pass prefixes them. */
  lemma DefaultsAreNotFixedPoints()
    ensures NormalizeMedia(NormalizeMedia("", DefaultImage), DefaultImage) == Endpoint + DefaultImage
    ensures NormalizeMedia(NormalizeMedia("", DefaultPdf), DefaultPdf) == Endpoint + DefaultPdf
    ensures Endpoint + DefaultImage != DefaultImage && Endpoint + DefaultPdf != DefaultPdf
  {
    assert DefaultImage[0] != Endpoint[0];
    assert DefaultPdf[0] != Endpoint[0];
  }

  /** `normalizeModule`: both media paths normalised, every other field
      copied. */
  function NormalizeModule(m: ModuleRecord): (r: ModuleRecord)
    ensures r.image == NormalizeMedia(m.image, DefaultImage)
    ensures r.lessonPdf == NormalizeMedia(m.lessonPdf, DefaultPdf)
    ensures r.(image := m.image, lessonPdf := m.lessonPdf) == m
  {
    m.(image := NormalizeMedia(m.image, DefaultImage), lessonPdf := NormalizeMedia(m.lessonPdf, DefaultPdf))
  }

  /** `normalizeModules`: the list normalised entry by entry, so its length
      and order are kept. */
  function NormalizeModules(ms: seq<ModuleRecord>): (r: seq<ModuleRecord>)
    ensures |r| == |ms|
    ensures forall k :: 0 <= k < |ms| ==> r[k] == NormalizeModule(ms[k]) && r[k].id == ms[k].id
  {
    seq(|ms|, k requires 0 <= k < |ms| => NormalizeModule(ms[k]))
  }

  /** A list whose media paths are all present is normalised once and for
      all. */
  lemma NormalizeModulesIdempotent(ms: seq<ModuleRecord>)
    requires forall k :: 0 <= k < |ms| ==> ms[k].image != "" && ms[k].lessonPdf != ""
    ensures NormalizeModules(NormalizeModules(ms)) == NormalizeModules(ms)
  {
    var once := NormalizeModules(ms);
    forall k | 0 <= k < |ms|
      ensures NormalizeModule(once[k]) == once[k]
    {
      NormalizeMediaIdempotent(ms[k].image, DefaultImage);
      NormalizeMediaIdempotent(ms[k].lessonPdf, DefaultPdf);
    }
  }

  /** The form `addModule` posts; the files are given by name, and one that
      was not chosen is not sent. */
  function ModuleForm(courseId: int, title: string, topic: string, image: Option<string>, lessonPdf: Option<string>): (form: FormData)
    ensures |form| >= 3 && form[..3] == [("course_id", IntToString(courseId)), ("module_title", title), ("topic", topic)]
    ensures |form| == 3 + (if image.Some? then 1 else 0) + (if lessonPdf.Some? then 1 else 0)
  {
    [("course_id", IntToString(courseId)), ("module_title", title), ("topic", topic)]
    + (if image.Some? then [("module_image", image.value)] else [])
    + (if lessonPdf.Some? then [("lesson_pdf", lessonPdf.value)] else [])
  }

  /** Read back by name, the form holds the course id, title and topic, and
      holds each file exactly when it was chosen; nothing else is sent. */
  lemma ModuleFormFields(courseId: int, title: string, topic: string, image: Option<string>, lessonPdf: Option<string>)
    ensures var form := ModuleForm(courseId, title, topic, image, lessonPdf);
      Get(form, "course_id") == Some(IntToString(courseId)) &&
      Get(form, "module_title") == Some(title) &&
      Get(form, "topic") == Some(topic) &&
      Get(form, "module_image") == image &&
      Get(form, "lesson_pdf") == lessonPdf &&
      forall k :: 0 <= k < |form| ==>
        form[k].0 in ["course_id", "module_title", "topic", "module_image", "lesson_pdf"]
  {
    var a := [("course_id", IntToString(courseId)), ("module_title", title), ("topic", topic)];
    var b := if image.Some? then [("module_image", image.value)] else [];
    var c := if lessonPdf.Some? then [("lesson_pdf", lessonPdf.value)] else [];
    assert ModuleForm(courseId, title, topic, image, lessonPdf) == a + b + c;
    GetAppend(a + b, c, "course_id");
    GetAppend(a, b, "course_id");
    GetAppend(a + b, c, "module_title");
    GetAppend(a, b, "module_title");
    GetAppend(a + b, c, "topic");
    GetAppend(a, b, "topic");
    assert Get(a[1..][1..], "topic") == Some(topic);
    GetAppend(a + b, c, "module_image");
    GetAppend(a, b, "module_image");
    GetMissing(a, "module_image");
    GetAppend(a + b, c, "lesson_pdf");
    GetAppend(a, b, "lesson_pdf");
    GetMissing(a, "lesson_pdf");
    GetMissing(b, "lesson_pdf");
  }

  class ModuleStore {
    var modules: seq<ModuleRecord>
    var loading: bool
    var error: Option<string>
    var alerts: seq<string>

    constructor ()
      ensures modules == [] && !loading && error.None? && alerts == []
    {
      modules := [];
      loading := false;
      error := None;
      alerts := [];
    }

    /** `fetchModules`: without a token only the error is set; a reply
        replaces the list by its normalised modules (none when absent); a
        failure sets the error and keeps the list. */
    method FetchModules(token: Option<string>, reply: Reply<Option<seq<ModuleRecord>>>) returns (requested: bool)
      modifies this
      ensures requested == HasToken(token) && alerts == old(alerts)
      ensures !requested ==>
        error == Some("No access token available") && modules == old(modules) && loading == old(loading)
      ensures requested ==> !loading
      ensures requested && reply.Ok? ==> modules == NormalizeModules(OrEmpty(reply.body)) && error == old(error)
      ensures requested && reply.Failed? ==> modules == old(modules) && error == Some("Failed to fetch modules")
    {
      if !HasToken(token) {
        error := Some("No access token available");
        return false;
      }
      requested := true;
      loading := true;
      match reply {
        case Ok(body) =>
          modules := NormalizeModules(OrEmpty(body));
        case Failed(_) =>
          error := Some("Failed to fetch modules");
      }
      loading := false;
    }

    /** `fetchModulesById`: the module normalised, or the error thrown. The
        list is not touched. */
    method FetchModuleById(token: Option<string>, reply: Reply<ModuleRecord>) returns (r: Result<ModuleRecord, string>)
      modifies this
      ensures modules == old(modules) && error == old(error) && alerts == old(alerts)
      ensures !HasToken(token) ==> r == Failure("No access token available") && loading == old(loading)
      ensures HasToken(token) ==> !loading
      ensures HasToken(token) && reply.Ok? ==> r == Success(NormalizeModule(reply.body))
      ensures HasToken(token) && reply.Failed? ==> r == Failure("Failed to fetch module")
    {
      if !HasToken(token) {
        return Failure("No access token available");
      }
      loading := true;
      match reply {
        case Ok(body) =>
          r := Success(NormalizeModule(body));
        case Failed(_) =>
          r := Failure("Failed to fetch module");
      }
      loading := false;
    }

    /** `addModule`: the returned module is appended, normalised, at the
        end; a failure only raises an alert. */
    method AddModule(courseId: int, title: string, topic: string, image: Option<string>, lessonPdf: Option<string>,
                     reply: Reply<ModuleRecord>) returns (sent: FormData)
      modifies this
      ensures sent == ModuleForm(courseId, title, topic, image, lessonPdf)
      ensures loading == old(loading) && error == old(error)
      ensures reply.Ok? ==> modules == old(modules) + [NormalizeModule(reply.body)] && alerts == old(alerts)
      ensures reply.Failed? ==>
        (modules == old(modules) &&
         alerts == old(alerts) + ["An error occurred while adding the module: " + reply.message])
    {
      sent := ModuleForm(courseId, title, topic, image, lessonPdf);
      match reply {
        case Ok(body) =>
          modules := modules + [NormalizeModule(body)];
        case Failed(message) =>
          alerts := alerts + ["An error occurred while adding the module: " + message];
      }
    }

    /** `deleteModule`: an id not in the list only raises "Module not
        found"; a successful request removes every module with that id; a
        failed one raises an alert and keeps the list. */
    method DeleteModule(id: int, succeeded: bool) returns (requested: bool)
      modifies this
      ensures requested == HasId(old(modules), id, ModuleId)
      ensures loading == old(loading) && error == old(error)
      ensures !requested ==> modules == old(modules) && alerts == old(alerts) + ["Module not found"]
      ensures requested && succeeded ==> modules == RemoveId(old(modules), id, ModuleId) && alerts == old(alerts)
      ensures requested && !succeeded ==>
        (modules == old(modules) &&
         alerts == old(alerts) + ["An error occurred while deleting the module. Please try again."])
    {
      if !HasId(modules, id, ModuleId) {
        alerts := alerts + ["Module not found"];
        return false;
      }
      requested := true;
      if succeeded {
        modules := RemoveId(modules, id, ModuleId);
      } else {
        alerts := alerts + ["An error occurred while deleting the module. Please try again."];
      }
    }
  }
}
