/** Swarmoodle settings: field constraints, the OULAD module/presentation check and the
    Moodle web-service endpoint derived from the Moodle URL. */
module Conf {
  import opened Wrappers
  import Text

  /** An HTTP URL as the settings hold it, split into its parts. `path` has no leading slash. */
  datatype HttpUrl = HttpUrl(scheme: string, host: string, port: nat, path: string)

  /** The port a scheme uses when a URL names none. */
  function DefaultPort(scheme: string): nat {
    if scheme == "https" then 443 else 80
  }

  /** `scheme://host[:port]`, the port written only when it is not the scheme's default. */
  function Origin(u: HttpUrl): string {
    u.scheme + "://" + u.host + (if u.port == DefaultPort(u.scheme) then "" else ":" + Text.NatToString(u.port))
  }

  /** The text of a URL: its origin, then the first `/`, then the path. */
  function Render(u: HttpUrl): (s: string)
    ensures |s| > |Origin(u)| >= |u.scheme| && s[..|u.scheme|] == u.scheme
    ensures s[..|Origin(u)|] == Origin(u) && s[|Origin(u)|] == '/' && s[|Origin(u)| + 1..] == u.path
  {
    Origin(u) + "/" + u.path
  }

  /** The default Moodle URL renders as the settings library writes it: a URL without a path
      gains a trailing `/`, and the scheme's default port is not written. */
  lemma RenderDefaultMoodle()
    ensures Render(HttpUrl("http", "moodle", 80, "")) == "http://moodle/"
  {
    assert Origin(HttpUrl("http", "moodle", 80, "")) == "http" + "://" + "moodle";
  }

  /** The default hook URL keeps its port, which is not the scheme's default. */
  lemma RenderDefaultHook()
    ensures Render(HttpUrl("http", "hook", 8000, "")) == "http://hook:8000/"
  {
    PortText();
    assert Origin(HttpUrl("http", "hook", 8000, "")) == "http" + "://" + "hook" + (":" + "8000");
  }

  lemma PortText()
    ensures Text.NatToString(8000) == "8000"
  {
    assert Text.NatToString(8) == "8";
    assert Text.NatToString(80) == "80";
    assert Text.NatToString(800) == "800";
  }

  /** The settings as the environment supplies them, before validation. */
  datatype Settings = Settings(
    hookUrl: HttpUrl,
    moodleCourseId: int,
    moodleDeleteUsersAfterRun: bool,
    moodleUrl: HttpUrl,
    moodleStudents: int,
    moodleStudentPassword: string,
    moodleStudentRoleId: int,
    moodleWebservicesToken: string,
    ouladCodeModule: string,
    ouladCodePresentation: string,
    requestTimeout: int,
    requestMillisecondsDuration: int,
    simulateFixedDayDuration: bool)

  /** The value every field takes when the environment does not set it. */
  const Defaults := Settings(
    HttpUrl("http", "hook", 8000, ""), 2, false, HttpUrl("http", "moodle", 80, ""), 1,
    "Passwd1!", 5, "32323232323232323232323232323232", "AAA", "2013J", 400, 400, false)

  /** The constraint a field's value broke. */
  datatype Constraint =
    | GreaterThan(bound: int)
    | GreaterOrEqual(bound: int)
    | MinLength(length: nat)
    | OneOf(literals: seq<string>)

  datatype SettingsError =
    | FieldError(field: string, constraint: Constraint)
      /** The module/presentation pair is not offered; `allowed` is sorted. */
    | InvalidCombination(codeModule: string, allowed: seq<string>)

  const CodeModules: seq<string> := ["AAA", "BBB", "CCC", "DDD", "EEE", "FFF", "GGG"]
  const CodePresentations: seq<string> := ["2013B", "2013J", "2014J", "2014B"]

  /** The presentations each OULAD module ran in. */
  const ModulePresentations: map<string, set<string>> := map[
    "AAA" := {"2013J", "2014J"},
    "BBB" := {"2013B", "2013J", "2014B", "2014J"},
    "CCC" := {"2014B", "2014J"},
    "DDD" := {"2013B", "2013J", "2014B", "2014J"},
    "EEE" := {"2013J", "2014B", "2014J"},
    "FFF" := {"2013B", "2013J", "2014B", "2014J"},
    "GGG" := {"2013J", "2014B", "2014J"}]

  /** `[e]` when `ok` fails, `[]` when it holds. */
  function Check(ok: bool, e: SettingsError): seq<SettingsError> {
    if ok then [] else [e]
  }

  /** The field constraint violations, in field declaration order. Every violation is
      reported, as the settings library collects all field errors before failing. */
  function FieldErrors(s: Settings): seq<SettingsError> {
    Check(s.moodleCourseId > 0, FieldError("moodle_course_id", GreaterThan(0)))
    + Check(s.moodleStudents > 0, FieldError("moodle_students", GreaterThan(0)))
    + Check(|s.moodleStudentPassword| >= 8, FieldError("moodle_student_password", MinLength(8)))
    + Check(s.moodleStudentRoleId > 0, FieldError("moodle_student_role_id", GreaterThan(0)))
    + Check(s.ouladCodeModule in CodeModules, FieldError("oulad_code_module", OneOf(CodeModules)))
    + Check(s.ouladCodePresentation in CodePresentations,
            FieldError("oulad_code_presentation", OneOf(CodePresentations)))
    + Check(s.requestTimeout >= 0, FieldError("request_timeout", GreaterOrEqual(0)))
    + Check(s.requestMillisecondsDuration >= 0,
            FieldError("request_milliseconds_duration", GreaterOrEqual(0)))
  }

  /** No field error is reported exactly when every field constraint holds. */
  lemma FieldErrorsEmpty(s: Settings)
    ensures FieldErrors(s) == [] <==>
      && s.moodleCourseId > 0 && s.moodleStudents > 0 && |s.moodleStudentPassword| >= 8
      && s.moodleStudentRoleId > 0 && s.ouladCodeModule in CodeModules
      && s.ouladCodePresentation in CodePresentations
      && s.requestTimeout >= 0 && s.requestMillisecondsDuration >= 0
  {
  }

  /** The field check reports field errors only. */
  lemma FieldErrorsAreFieldErrors(s: Settings)
    ensures forall e :: e in FieldErrors(s) ==> e.FieldError?
  {
  }

  /** Lexicographic order on strings, as Python compares them. */
  predicate LexLess(a: string, b: string) {
    if a == [] then b != []
    else if b == [] then false
    else if a[0] != b[0] then a[0] < b[0]
    else LexLess(a[1..], b[1..])
  }

  /** Strictly increasing in lexicographic order. */
  predicate SortedStrict(xs: seq<string>) {
    forall i, j :: 0 <= i < j < |xs| ==> LexLess(xs[i], xs[j])
  }

  /** The elements of `universe` that are in `allowed`, in the order of `universe`. */
  function SelectIn(universe: seq<string>, allowed: set<string>): (r: seq<string>)
    ensures forall x :: x in r <==> x in universe && x in allowed
  {
    if universe == [] then []
    else (if universe[0] in allowed then [universe[0]] else []) + SelectIn(universe[1..], allowed)
  }

  /** The allowed presentations of `codeModule`, sorted, as the error message lists them. */
  function SortedAllowed(codeModule: string): seq<string> {
    SelectIn(PresentationOrder,
             if codeModule in ModulePresentations then ModulePresentations[codeModule] else {})
  }

  /** The presentations in lexicographic order. */
  const PresentationOrder: seq<string> := ["2013B", "2013J", "2014B", "2014J"]

  lemma PresentationOrderSorted()
    ensures SortedStrict(PresentationOrder)
  {
    assert LexLess("2013B", "2013J") && LexLess("2013J", "2014B") && LexLess("2014B", "2014J");
    assert LexLess("2013B", "2014B") && LexLess("2013B", "2014J") && LexLess("2013J", "2014J");
  }

  lemma {:induction false} SelectInOrder(universe: seq<string>, allowed: set<string>)
    requires SortedStrict(universe)
    ensures SortedStrict(SelectIn(universe, allowed))
  {
    if universe != [] {
      SelectInOrder(universe[1..], allowed);
      var rest := SelectIn(universe[1..], allowed);
      forall j | 0 <= j < |rest| ensures LexLess(universe[0], rest[j]) {
        assert rest[j] in rest;
        assert rest[j] in universe[1..];
        var k :| 0 <= k < |universe[1..]| && universe[1..][k] == rest[j];
        assert universe[k + 1] == rest[j];
      }
    }
  }

  /** The list in the error message is sorted and holds exactly the allowed presentations. */
  lemma SortedAllowedIsSortedSet(codeModule: string)
    ensures SortedStrict(SortedAllowed(codeModule))
    ensures forall p :: p in SortedAllowed(codeModule) <==>
      codeModule in ModulePresentations && p in ModulePresentations[codeModule]
  {
    var allowed := if codeModule in ModulePresentations then ModulePresentations[codeModule] else {};
    PresentationOrderSorted();
    SelectInOrder(PresentationOrder, allowed);
    PresentationsKnown(codeModule);
  }

  /** Every presentation a module ran in is one of the four presentations. */
  lemma PresentationsKnown(codeModule: string)
    ensures codeModule in ModulePresentations ==>
      forall p :: p in ModulePresentations[codeModule] ==> p in PresentationOrder
  {
  }

  /** The settings validation: field constraints first; only when they all hold is the
      module/presentation combination checked. */
  function Validate(s: Settings): (r: Result<Settings, seq<SettingsError>>)
    ensures r.Ok? <==> FieldErrors(s) == [] && s.ouladCodeModule in ModulePresentations
                          && s.ouladCodePresentation in ModulePresentations[s.ouladCodeModule]
    ensures r.Ok? ==> r.value == s
    ensures r.Err? && FieldErrors(s) == [] ==>
      r.error == [InvalidCombination(s.ouladCodeModule, SortedAllowed(s.ouladCodeModule))]
    ensures r.Err? && FieldErrors(s) != [] ==> r.error == FieldErrors(s)
  {
    var errs := FieldErrors(s);
    if errs != [] then Err(errs)
    else
      var allowed := if s.ouladCodeModule in ModulePresentations then ModulePresentations[s.ouladCodeModule] else {};
      if s.ouladCodePresentation !in allowed then
        Err([InvalidCombination(s.ouladCodeModule, SortedAllowed(s.ouladCodeModule))])
      else Ok(s)
  }

  /** The defaults are valid: one student, 400 milliseconds per request. */
  lemma DefaultsAreValid()
    ensures Validate(Defaults) == Ok(Defaults)
    ensures Defaults.moodleStudents == 1 && Defaults.requestMillisecondsDuration == 400
  {
  }

  /** A negative number of students is refused with a "greater than 0" error. */
  lemma NegativeStudentsRejected()
    ensures Validate(Defaults.(moodleStudents := -14))
         == Err([FieldError("moodle_students", GreaterThan(0))])
  {
    DefaultsAreValid();
    var s := Defaults.(moodleStudents := -14);
    assert FieldErrors(s) == [FieldError("moodle_students", GreaterThan(0))] by {
      assert FieldErrors(Defaults) == [];
    }
  }

  /** Zero milliseconds per request is accepted; minus one is refused. */
  lemma RequestDurationBound()
    ensures Validate(Defaults.(requestMillisecondsDuration := 0)).Ok?
    ensures Validate(Defaults.(requestMillisecondsDuration := -1))
         == Err([FieldError("request_milliseconds_duration", GreaterOrEqual(0))])
  {
    DefaultsAreValid();
    var s := Defaults.(requestMillisecondsDuration := -1);
    assert FieldErrors(s) == [FieldError("request_milliseconds_duration", GreaterOrEqual(0))] by {
      assert FieldErrors(Defaults) == [];
    }
  }

  /** The presentations of AAA, in order: 2013J and 2014J. */
  lemma AaaPresentations()
    ensures SortedAllowed("AAA") == ["2013J", "2014J"]
  {
    var allowed := ModulePresentations["AAA"];
    assert allowed == {"2013J", "2014J"};
    assert "2013B" !in allowed && "2013J" in allowed && "2014B" !in allowed && "2014J" in allowed;
  }

  /** AAA did not run in 2014B: the message lists ['2013J', '2014J']. */
  lemma AaaCombinationRejected()
    ensures Validate(Defaults.(ouladCodePresentation := "2014B"))
         == Err([InvalidCombination("AAA", ["2013J", "2014J"])])
  {
    DefaultsAreValid();
    assert FieldErrors(Defaults) == [];
    var aaa := Defaults.(ouladCodePresentation := "2014B");
    assert "2014B" == CodePresentations[3];
    assert FieldErrors(aaa) == [];
    AaaPresentations();
  }

  /** CCC ran in 2014B, so that combination is accepted. */
  lemma CccCombinationAccepted()
    ensures Validate(Defaults.(ouladCodeModule := "CCC", ouladCodePresentation := "2014B")).Ok?
  {
    DefaultsAreValid();
    assert FieldErrors(Defaults) == [];
    var ccc := Defaults.(ouladCodeModule := "CCC", ouladCodePresentation := "2014B");
    assert "CCC" == CodeModules[2];
    assert "2014B" == CodePresentations[3];
    assert FieldErrors(ccc) == [];
  }

  const WsPath := "webservice/rest/server.php"

  /** The Moodle web-service endpoint: the Moodle URL's scheme, host and port with the
      REST server path. */
  function MoodleWsUrl(s: Settings): (u: HttpUrl)
    ensures Origin(u) == Origin(s.moodleUrl)
    ensures Render(u) == Origin(s.moodleUrl) + "/" + WsPath
  {
    HttpUrl(s.moodleUrl.scheme, s.moodleUrl.host, s.moodleUrl.port, WsPath)
  }

  /** Whatever path the Moodle URL has, the endpoint is the same. */
  lemma WsUrlIgnoresPath(s: Settings, path: string)
    ensures MoodleWsUrl(s.(moodleUrl := s.moodleUrl.(path := path))) == MoodleWsUrl(s)
  {
  }

  /** `http://foo` gives `http://foo/webservice/rest/server.php`. */
  lemma WsUrlExample()
    ensures Render(MoodleWsUrl(Defaults.(moodleUrl := HttpUrl("http", "foo", 80, ""))))
         == "http" + "://" + "foo" + "/" + "webservice/rest/server.php"
  {
    assert DefaultPort("http") == 80;
  }
}
