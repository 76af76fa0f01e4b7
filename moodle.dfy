/** Loading and handling of Moodle data: the course item list with its prepended home page,
    and the form payloads of the Moodle web-service calls that look users up, create,
    delete and enroll them. */
module Moodle {
  import opened Wrappers
  import Text
  import Conf

  /** One item of a Moodle course as the hook service lists it. With `html=0` the hook
      sends no contents, so `contents` is `None` for every fetched item. */
  datatype CourseItem = CourseItem(
    id: int, instance: int, name: string, modname: string,
    url: Option<string>, contents: Option<seq<string>>)

  /** The synthetic first item standing for the site's home page. */
  function Homepage(settings: Conf.Settings): CourseItem {
    CourseItem(0, 0, "Home page", "homepage", Some(Conf.Render(settings.moodleUrl)), None)
  }

  /** The URL the course list is fetched from. */
  function CourseRequestUrl(settings: Conf.Settings): string {
    Conf.Render(settings.hookUrl) + "courses/" + Text.IntToString(settings.moodleCourseId) + "?html=0"
  }

  /** The course as the simulation sees it: the home page item, then the fetched items
      unchanged and in order. */
  function MoodleCourse(settings: Conf.Settings, fetched: seq<CourseItem>): (course: seq<CourseItem>)
    ensures |course| == |fetched| + 1
    ensures course[0] == Homepage(settings)
    ensures course[0].modname == "homepage" && course[0].id == 0 && course[0].instance == 0
    ensures course[0].contents == None
    ensures forall k :: 0 <= k < |fetched| ==> course[k + 1] == fetched[k]
  {
    [Homepage(settings)] + fetched
  }

  /** Only the home page item is added: removing the first item gives back the fetched list. */
  lemma MoodleCourseTail(settings: Conf.Settings, fetched: seq<CourseItem>)
    ensures MoodleCourse(settings, fetched)[1..] == fetched
  {
    var course := MoodleCourse(settings, fetched);
    assert forall k :: 0 <= k < |fetched| ==> course[1..][k] == fetched[k];
  }

  /** The fixture of the course test: hook at `http://hook/`, course 10, Moodle at `http://moodle/`. */
  lemma CourseExample(a: CourseItem, b: CourseItem)
    ensures var s := Conf.Defaults.(hookUrl := Conf.HttpUrl("http", "hook", 80, ""), moodleCourseId := 10);
      && CourseRequestUrl(s) == "http" + "://" + "hook" + "/" + "courses/" + "10" + "?html=0"
      && MoodleCourse(s, [a, b])
         == [CourseItem(0, 0, "Home page", "homepage", Some("http" + "://" + "moodle" + "/"), None), a, b]
  {
    assert Conf.DefaultPort("http") == 80;
    assert Conf.Render(Conf.Defaults.moodleUrl) == "http" + "://" + "moodle" + "/" by {
      assert Conf.Defaults.moodleUrl == Conf.HttpUrl("http", "moodle", 80, "");
      assert Conf.Origin(Conf.Defaults.moodleUrl) == "http" + "://" + "moodle";
    }
    assert Text.IntToString(10) == "10" by {
      assert Text.NatToString(10) == Text.NatToString(1) + [Text.Digit(0)];
    }
  }

  // ---------------------------------------------------------------------------------
  // Web-service form payloads

  /** The names that occur in the keys of the web-service forms. */
  datatype Name =
    | Wstoken | Moodlewsrestformat | Wsfunction | Field | Values | Userids | Enrolments
    | Roleid | Userid | Courseid | Users | Createpassword | Username | Password | Firstname
    | Lastname | Email | Country | Timezone | Institution | Customfields | Type | Value

  function NameText(n: Name): string {
    match n
    case Wstoken => "wstoken"
    case Moodlewsrestformat => "moodlewsrestformat"
    case Wsfunction => "wsfunction"
    case Field => "field"
    case Values => "values"
    case Userids => "userids"
    case Enrolments => "enrolments"
    case Roleid => "roleid"
    case Userid => "userid"
    case Courseid => "courseid"
    case Users => "users"
    case Createpassword => "createpassword"
    case Username => "username"
    case Password => "password"
    case Firstname => "firstname"
    case Lastname => "lastname"
    case Email => "email"
    case Country => "country"
    case Timezone => "timezone"
    case Institution => "institution"
    case Customfields => "customfields"
    case Type => "type"
    case Value => "value"
  }

  /** Moodle's bracketed form keys `name[seg][seg]...`, kept structured; `RenderKey` gives
      the text that is posted. */
  datatype Segment = Idx(index: nat) | Sub(name: Name)
  datatype FormKey = Plain(name: Name) | At(parent: FormKey, segment: Segment)

  /** A form value is a text or an integer (the form encoder writes the integer in decimal). */
  datatype FormValue = Text(text: string) | Number(number: int)

  type Form = map<FormKey, FormValue>

  /** The text of a form key. */
  function RenderKey(k: FormKey): string {
    match k
    case Plain(n) => NameText(n)
    case At(parent, Idx(i)) => RenderKey(parent) + "[" + Text.NatToString(i) + "]"
    case At(parent, Sub(n)) => RenderKey(parent) + "[" + NameText(n) + "]"
  }

  /** The keys every web-service call carries: the token, the response format and the function. */
  function WsBase(settings: Conf.Settings, wsfunction: string): (base: Form)
    ensures base.Keys == {Plain(Wstoken), Plain(Moodlewsrestformat), Plain(Wsfunction)}
    ensures base[Plain(Wstoken)] == Text(settings.moodleWebservicesToken)
    ensures base[Plain(Moodlewsrestformat)] == Text("json")
    ensures base[Plain(Wsfunction)] == Text(wsfunction)
  {
    map[Plain(Wstoken) := Text(settings.moodleWebservicesToken),
        Plain(Moodlewsrestformat) := Text("json"),
        Plain(Wsfunction) := Text(wsfunction)]
  }

  function ValuesKey(i: nat): FormKey {
    At(Plain(Values), Idx(i))
  }

  /** The payload of `core_user_get_users_by_field`: the base keys, `field=username`, and
      `values[i]` holding the i-th username, and nothing else. */
  method GetUsersByUsernamesPayload(settings: Conf.Settings, usernames: seq<string>) returns (data: Form)
    ensures data.Keys == WsBase(settings, "core_user_get_users_by_field").Keys + {Plain(Field)}
                         + (set i | 0 <= i < |usernames| :: ValuesKey(i))
    ensures forall k :: k in WsBase(settings, "core_user_get_users_by_field") ==>
              data[k] == WsBase(settings, "core_user_get_users_by_field")[k]
    ensures data[Plain(Field)] == Text("username")
    ensures forall i :: 0 <= i < |usernames| ==> data[ValuesKey(i)] == Text(usernames[i])
  {
    var base := WsBase(settings, "core_user_get_users_by_field");
    data := base[Plain(Field) := Text("username")];
    for i := 0 to |usernames|
      invariant data.Keys == base.Keys + {Plain(Field)} + (set j | 0 <= j < i :: ValuesKey(j))
      invariant forall k :: k in base ==> data[k] == base[k]
      invariant data[Plain(Field)] == Text("username")
      invariant forall j :: 0 <= j < i ==> data[ValuesKey(j)] == Text(usernames[j])
    {
      data := data[ValuesKey(i) := Text(usernames[i])];
    }
  }

  /** The keys render as in the lookup test: `values[0]`, `values[1]`. */
  lemma ValuesKeyText()
    ensures RenderKey(ValuesKey(0)) == "values[0]" && RenderKey(ValuesKey(1)) == "values[1]"
  {
  }

  /** A user as Moodle returns it; only the id is used. */
  datatype MoodleUser = MoodleUser(id: int, username: Option<string>)

  function UserIdsKey(i: nat): FormKey {
    At(Plain(Userids), Idx(i))
  }

  /** The payload of `core_user_delete_users`: the base keys and `userids[i]` holding the
      i-th user's id, and nothing else. */
  method DeleteUsersPayload(settings: Conf.Settings, users: seq<MoodleUser>) returns (data: Form)
    ensures data.Keys == WsBase(settings, "core_user_delete_users").Keys
                         + (set i | 0 <= i < |users| :: UserIdsKey(i))
    ensures forall k :: k in WsBase(settings, "core_user_delete_users") ==>
              data[k] == WsBase(settings, "core_user_delete_users")[k]
    ensures forall i :: 0 <= i < |users| ==> data[UserIdsKey(i)] == Number(users[i].id)
  {
    var base := WsBase(settings, "core_user_delete_users");
    data := base;
    for i := 0 to |users|
      invariant data.Keys == base.Keys + (set j | 0 <= j < i :: UserIdsKey(j))
      invariant forall k :: k in base ==> data[k] == base[k]
      invariant forall j :: 0 <= j < i ==> data[UserIdsKey(j)] == Number(users[j].id)
    {
      data := data[UserIdsKey(i) := Number(users[i].id)];
    }
  }

  function EnrolmentKey(i: nat, field: Name): FormKey {
    At(At(Plain(Enrolments), Idx(i)), Sub(field))
  }

  /** The keys of the first `n` enrolments. */
  function EnrolmentKeys(n: nat): (keys: set<FormKey>)
    ensures forall i: nat, f: Name :: EnrolmentKey(i, f) in keys <==> i < n && f in {Roleid, Userid, Courseid}
  {
    if n == 0 then {}
    else EnrolmentKeys(n - 1) + {EnrolmentKey(n - 1, Roleid), EnrolmentKey(n - 1, Userid), EnrolmentKey(n - 1, Courseid)}
  }

  /** The payload of `enrol_manual_enrol_users`: for each user i, `roleid` and `courseid`
      are the configured student role and course, the same for every i, and `userid` is the
      i-th user's id; nothing else besides the base keys. */
  method EnrollUsersPayload(settings: Conf.Settings, users: seq<MoodleUser>) returns (data: Form)
    ensures data.Keys == WsBase(settings, "enrol_manual_enrol_users").Keys + EnrolmentKeys(|users|)
    ensures forall k :: k in WsBase(settings, "enrol_manual_enrol_users") ==>
              data[k] == WsBase(settings, "enrol_manual_enrol_users")[k]
    ensures forall i :: 0 <= i < |users| ==>
              && data[EnrolmentKey(i, Roleid)] == Number(settings.moodleStudentRoleId)
              && data[EnrolmentKey(i, Userid)] == Number(users[i].id)
              && data[EnrolmentKey(i, Courseid)] == Number(settings.moodleCourseId)
  {
    var base := WsBase(settings, "enrol_manual_enrol_users");
    data := base;
    for i := 0 to |users|
      invariant Enrolled(settings, users, base, i, data)
    {
      data := EnrolRound(settings, users, base, i, data);
    }
  }

  /** The form holds `base` and the enrolments of the first `n` users, and nothing else. */
  ghost predicate Enrolled(settings: Conf.Settings, users: seq<MoodleUser>, base: Form, n: nat, data: Form)
    requires n <= |users|
  {
    && data.Keys == base.Keys + EnrolmentKeys(n)
    && (forall k :: k in base ==> data[k] == base[k])
    && (forall j :: 0 <= j < n ==>
          && data[EnrolmentKey(j, Roleid)] == Number(settings.moodleStudentRoleId)
          && data[EnrolmentKey(j, Userid)] == Number(users[j].id)
          && data[EnrolmentKey(j, Courseid)] == Number(settings.moodleCourseId))
  }

  /** One round of the loop: the enrolment of user `i` is added. */
  method EnrolRound(settings: Conf.Settings, users: seq<MoodleUser>, base: Form, i: nat, data0: Form)
    returns (data: Form)
    requires i < |users|
    requires forall k :: k in base ==> k.Plain?
    requires Enrolled(settings, users, base, i, data0)
    ensures Enrolled(settings, users, base, i + 1, data)
  {
    data := data0[EnrolmentKey(i, Roleid) := Number(settings.moodleStudentRoleId)];
    data := data[EnrolmentKey(i, Userid) := Number(users[i].id)];
    data := data[EnrolmentKey(i, Courseid) := Number(settings.moodleCourseId)];
  }

  /** An OULAD student record as `create_moodle_users` reads it; `id` is the table index. */
  datatype Student = Student(
    id: int, gender: string, region: string, highestEducation: string, imdBand: string,
    ageBand: string, numOfPrevAttempts: int, studiedCredits: int, disability: string,
    finalResult: string)

  /** Which of the name generators is used. */
  datatype NameKind = MaleNames | FemaleNames
  datatype NamePart = FirstName | LastName

  /** The name generators are chosen by gender: the female ones exactly for "F". */
  function NameKindOf(gender: string): (kind: NameKind)
    ensures kind == FemaleNames <==> gender == "F"
  {
    if gender == "F" then FemaleNames else MaleNames
  }

  /** The user's e-mail address: the OULAD id at gmail.com. */
  function EmailOf(id: int): string {
    Text.IntToString(id) + "@gmail.com"
  }

  /** Distinct students get distinct e-mail addresses. */
  lemma EmailInjective(a: int, b: int)
    requires EmailOf(a) == EmailOf(b)
    ensures a == b
  {
    var ea, eb := Text.IntToString(a), Text.IntToString(b);
    assert |ea| == |eb|;
    assert EmailOf(a)[..|ea|] == ea;
    assert EmailOf(b)[..|eb|] == eb;
    Text.IntToStringInjective(a, b);
  }

  /** The types of the nine custom profile fields, in the order they are posted. */
  const CustomTypes: seq<string> := [
    "gender", "region", "highest_education", "imd_band", "age_band",
    "num_of_prev_attempts", "studied_credits", "disability", "final_result"]

  /** The values of the nine custom profile fields of a student, in the order of `CustomTypes`. */
  function CustomValues(row: Student): (values: seq<FormValue>)
    ensures |values| == |CustomTypes|
  {
    [Text(row.gender), Text(row.region), Text(row.highestEducation), Text(row.imdBand),
     Text(row.ageBand), Number(row.numOfPrevAttempts), Number(row.studiedCredits),
     Text(row.disability), Text(row.finalResult)]
  }

  function UserKey(i: nat, field: Name): FormKey {
    At(At(Plain(Users), Idx(i)), Sub(field))
  }

  function CustomKey(i: nat, j: nat, part: Name): FormKey {
    At(At(UserKey(i, Customfields), Idx(j)), Sub(part))
  }

  /** The keys posted for user `i`: the nine plain fields and the type and value of each
      of the nine custom fields. */
  function UserKeys(i: nat): set<FormKey> {
    PlainKeys(i) + CustomKeys(i, 9)
  }

  /** The keys of the nine plain fields of user `i`. */
  function PlainKeys(i: nat): set<FormKey> {
    {UserKey(i, Createpassword), UserKey(i, Username), UserKey(i, Password),
     UserKey(i, Firstname), UserKey(i, Lastname), UserKey(i, Email), UserKey(i, Country),
     UserKey(i, Timezone), UserKey(i, Institution)}
  }

  /** The type and value keys of the first `n` custom fields of user `i`. */
  function CustomKeys(i: nat, n: nat): set<FormKey> {
    if n == 0 then {} else CustomKeys(i, n - 1) + {CustomKey(i, n - 1, Type), CustomKey(i, n - 1, Value)}
  }

  /** The custom keys of user `i` are exactly the type and value keys of fields below `n`. */
  lemma {:induction false} CustomKeysMembers(i: nat, n: nat)
    ensures forall j: nat, part: Name :: CustomKey(i, j, part) in CustomKeys(i, n) <==>
              j < n && (part == Type || part == Value)
  {
    if n > 0 {
      CustomKeysMembers(i, n - 1);
    }
  }

  /** Every custom key of user `i` hangs under `users[i][customfields]`, at an index below `n`. */
  lemma {:induction false} CustomKeysOwner(i: nat, n: nat)
    ensures forall k :: k in CustomKeys(i, n) ==>
              && k.At? && k.parent.At? && k.parent.parent == UserKey(i, Customfields)
              && k.parent.segment.Idx? && k.parent.segment.index < n
  {
    if n > 0 {
      CustomKeysOwner(i, n - 1);
    }
  }

  /** The user a key belongs to: the index right under `users`, if there is one. */
  function UserOf(k: FormKey): Option<nat> {
    match k
    case Plain(_) => None
    case At(p, seg) => if p == Plain(Users) && seg.Idx? then Some(seg.index) else UserOf(p)
  }

  /** Every key posted for user `i` belongs to user `i`. */
  lemma {:induction false} UserKeysOwned(i: nat)
    ensures forall k :: k in UserKeys(i) ==> UserOf(k) == Some(i)
  {
    CustomKeysOwner(i, 9);
    assert UserOf(UserKey(i, Customfields)) == Some(i);
  }

  /** The keys posted for the first `n` users. */
  function CreateKeys(n: nat): set<FormKey> {
    if n == 0 then {} else CreateKeys(n - 1) + UserKeys(n - 1)
  }

  /** One user as posted: the nine plain fields, and the (type, value) pair of each custom field. */
  datatype PostedUser = PostedUser(plain: PlainFields, custom: seq<(FormValue, FormValue)>)

  /** The values of the nine plain fields of one user, field by field. */
  datatype PlainFields = PlainFields(
    createpassword: FormValue, username: FormValue, password: FormValue, firstname: FormValue,
    lastname: FormValue, email: FormValue, country: FormValue, timezone: FormValue,
    institution: FormValue)

  /** The plain fields of user `i` as they stand in `data`. */
  function PlainAt(i: nat, data: Form): PlainFields
    requires PlainKeys(i) <= data.Keys
  {
    PlainFields(
      data[UserKey(i, Createpassword)], data[UserKey(i, Username)], data[UserKey(i, Password)],
      data[UserKey(i, Firstname)], data[UserKey(i, Lastname)], data[UserKey(i, Email)],
      data[UserKey(i, Country)], data[UserKey(i, Timezone)], data[UserKey(i, Institution)])
  }

  /** The first `n` custom fields of user `i` as they stand in `data`. */
  function CustomAt(i: nat, n: nat, data: Form): (fields: seq<(FormValue, FormValue)>)
    requires CustomKeys(i, n) <= data.Keys
    ensures |fields| == n
  {
    if n == 0 then []
    else
      CustomAt(i, n - 1, data) + [(data[CustomKey(i, n - 1, Type)], data[CustomKey(i, n - 1, Value)])]
  }

  /** User `i` as it stands in `data`. */
  function UserAt(i: nat, data: Form): PostedUser
    requires UserKeys(i) <= data.Keys
  {
    PostedUser(PlainAt(i, data), CustomAt(i, 9, data))
  }

  /** The first and last name generated for user `i`: female generators exactly when the
      student's gender is "F". */
  function FirstNameOf(row: Student, fake: (NameKind, NamePart, nat) -> string, i: nat): string {
    fake(NameKindOf(row.gender), FirstName, i)
  }

  function LastNameOf(row: Student, fake: (NameKind, NamePart, nat) -> string, i: nat): string {
    fake(NameKindOf(row.gender), LastName, i)
  }

  /** The first `n` custom fields the source posts for a student: field `j` has type
      `CustomTypes[j]` and the student's value for it. */
  function ExpectedCustom(row: Student, n: nat): (fields: seq<(FormValue, FormValue)>)
    requires n <= |CustomTypes|
    ensures |fields| == n
    ensures forall j :: 0 <= j < n ==> fields[j] == (Text(CustomTypes[j]), CustomValues(row)[j])
  {
    if n == 0 then []
    else ExpectedCustom(row, n - 1) + [(Text(CustomTypes[n - 1]), CustomValues(row)[n - 1])]
  }

  /** What the source posts for the student `row` as user `i`: no generated password, the
      OULAD id as username, the configured password, the generated names, the e-mail
      `<id>@gmail.com`, country GB, timezone Europe/London, the institution as spelled in the
      source, and the nine custom fields. */
  function ExpectedUser(settings: Conf.Settings, row: Student,
                        fake: (NameKind, NamePart, nat) -> string, i: nat): PostedUser
  {
    PostedUser(
      PlainFields(
        Number(0), Number(row.id), Text(settings.moodleStudentPassword),
        Text(FirstNameOf(row, fake, i)), Text(LastNameOf(row, fake, i)), Text(EmailOf(row.id)),
        Text("GB"), Text("Europe/London"), Text("Open Univesity")),
      ExpectedCustom(row, 9))
  }

  /** The payload holds user `i` as the source posts the student `row`. */
  predicate UserPosted(settings: Conf.Settings, row: Student,
                       fake: (NameKind, NamePart, nat) -> string, i: nat, data: Form)
  {
    UserKeys(i) <= data.Keys && UserAt(i, data) == ExpectedUser(settings, row, fake, i)
  }

  /** Reading the custom fields back only looks at their keys. */
  lemma {:induction false} CustomAtFrame(i: nat, n: nat, d1: Form, d2: Form)
    requires CustomKeys(i, n) <= d1.Keys
    requires forall k :: k in CustomKeys(i, n) ==> k in d2 && d2[k] == d1[k]
    ensures CustomKeys(i, n) <= d2.Keys
    ensures CustomAt(i, n, d2) == CustomAt(i, n, d1)
  {
    if n > 0 {
      CustomAtFrame(i, n - 1, d1, d2);
    }
  }

  /** What was posted for user `i` survives changes to other keys. */
  lemma UserPostedFrame(settings: Conf.Settings, row: Student, fake: (NameKind, NamePart, nat) -> string,
                        i: nat, d1: Form, d2: Form)
    requires UserPosted(settings, row, fake, i, d1)
    requires forall k :: k in UserKeys(i) ==> k in d2 && d2[k] == d1[k]
    ensures UserPosted(settings, row, fake, i, d2)
  {
    CustomAtFrame(i, 9, d1, d2);
    PlainAtFrame(i, d1, d2);
  }

  /** The form after the nine plain fields of user `i` were written into `data0`. */
  function WithPlainFields(settings: Conf.Settings, row: Student, firstName: string,
                           lastName: string, i: nat, data0: Form): Form
  {
    data0[UserKey(i, Createpassword) := Number(0)]
         [UserKey(i, Username) := Number(row.id)]
         [UserKey(i, Password) := Text(settings.moodleStudentPassword)]
         [UserKey(i, Firstname) := Text(firstName)]
         [UserKey(i, Lastname) := Text(lastName)]
         [UserKey(i, Email) := Text(EmailOf(row.id))]
         [UserKey(i, Country) := Text("GB")]
         [UserKey(i, Timezone) := Text("Europe/London")]
         [UserKey(i, Institution) := Text("Open Univesity")]
  }

  /** The form after the first `n` custom fields of user `i` were written into `data0`. */
  function WithCustomFields(row: Student, i: nat, n: nat, data0: Form): Form
    requires n <= 9
  {
    if n == 0 then data0
    else WithCustomFields(row, i, n - 1, data0)
           [CustomKey(i, n - 1, Type) := Text(CustomTypes[n - 1])]
           [CustomKey(i, n - 1, Value) := CustomValues(row)[n - 1]]
  }

  /** The form after all entries of user `i`, the student `row`, were written into `data0`. */
  function WithUser(settings: Conf.Settings, row: Student, fake: (NameKind, NamePart, nat) -> string,
                    i: nat, data0: Form): Form
  {
    WithCustomFields(row, i, 9,
      WithPlainFields(settings, row, FirstNameOf(row, fake, i), LastNameOf(row, fake, i), i, data0))
  }

  lemma WithPlainFieldsRead(settings: Conf.Settings, row: Student, firstName: string,
                            lastName: string, i: nat, data0: Form)
    ensures WithPlainFields(settings, row, firstName, lastName, i, data0).Keys == data0.Keys + PlainKeys(i)
    ensures PlainAt(i, WithPlainFields(settings, row, firstName, lastName, i, data0))
         == PlainFields(Number(0), Number(row.id), Text(settings.moodleStudentPassword),
                        Text(firstName), Text(lastName), Text(EmailOf(row.id)), Text("GB"),
                        Text("Europe/London"), Text("Open Univesity"))
  {
  }

  lemma WithPlainFieldsFrame(settings: Conf.Settings, row: Student, firstName: string,
                             lastName: string, i: nat, data0: Form, k: FormKey)
    requires k in data0 && k !in PlainKeys(i)
    ensures WithPlainFields(settings, row, firstName, lastName, i, data0)[k] == data0[k]
  {
  }

  lemma {:induction false} WithCustomFieldsKeys(row: Student, i: nat, n: nat, data0: Form)
    requires n <= 9
    ensures WithCustomFields(row, i, n, data0).Keys == data0.Keys + CustomKeys(i, n)
  {
    if n > 0 {
      WithCustomFieldsKeys(row, i, n - 1, data0);
    }
  }

  lemma {:induction false} WithCustomFieldsFrame(row: Student, i: nat, n: nat, data0: Form, k: FormKey)
    requires n <= 9
    requires k in data0 && k !in CustomKeys(i, n)
    ensures k in WithCustomFields(row, i, n, data0) && WithCustomFields(row, i, n, data0)[k] == data0[k]
  {
    if n > 0 {
      WithCustomFieldsKeys(row, i, n - 1, data0);
      WithCustomFieldsFrame(row, i, n - 1, data0, k);
    }
  }

  /** Writing the first `n` custom fields posts the first `n` expected ones. */
  lemma {:induction false} WithCustomFieldsRead(row: Student, i: nat, n: nat, data0: Form)
    requires n <= 9
    ensures CustomKeys(i, n) <= WithCustomFields(row, i, n, data0).Keys
    ensures CustomAt(i, n, WithCustomFields(row, i, n, data0)) == ExpectedCustom(row, n)
  {
    WithCustomFieldsKeys(row, i, n, data0);
    if n > 0 {
      var before, after := WithCustomFields(row, i, n - 1, data0), WithCustomFields(row, i, n, data0);
      WithCustomFieldsRead(row, i, n - 1, data0);
      CustomStepFrame(row, i, n, data0);
      CustomAtFrame(i, n - 1, before, after);
      CustomLast(row, i, n, data0);
    }
  }

  /** Writing custom field `n - 1` keeps the fields before it. */
  lemma CustomStepFrame(row: Student, i: nat, n: nat, data0: Form)
    requires 0 < n <= 9
    ensures forall k :: k in CustomKeys(i, n - 1) ==>
              k in WithCustomFields(row, i, n - 1, data0) && k in WithCustomFields(row, i, n, data0)
              && WithCustomFields(row, i, n, data0)[k] == WithCustomFields(row, i, n - 1, data0)[k]
  {
    WithCustomFieldsKeys(row, i, n - 1, data0);
    CustomKeysOwner(i, n - 1);
  }

  /** The last of the first `n` custom fields holds its type and the student's value. */
  lemma CustomLast(row: Student, i: nat, n: nat, data0: Form)
    requires 0 < n <= 9
    ensures WithCustomFields(row, i, n, data0)[CustomKey(i, n - 1, Type)] == Text(CustomTypes[n - 1])
    ensures WithCustomFields(row, i, n, data0)[CustomKey(i, n - 1, Value)] == CustomValues(row)[n - 1]
  {
  }

  /** Writing user `i` adds exactly the keys of user `i`. */
  lemma WithUserKeys(settings: Conf.Settings, row: Student, fake: (NameKind, NamePart, nat) -> string,
                     i: nat, data0: Form)
    ensures WithUser(settings, row, fake, i, data0).Keys == data0.Keys + UserKeys(i)
  {
    var first, last := FirstNameOf(row, fake, i), LastNameOf(row, fake, i);
    WithPlainFieldsRead(settings, row, first, last, i, data0);
    WithCustomFieldsKeys(row, i, 9, WithPlainFields(settings, row, first, last, i, data0));
  }

  /** Writing user `i` leaves every key outside user `i` as it was. */
  lemma WithUserFrame(settings: Conf.Settings, row: Student, fake: (NameKind, NamePart, nat) -> string,
                      i: nat, data0: Form, k: FormKey)
    requires k in data0 && k !in UserKeys(i)
    ensures k in WithUser(settings, row, fake, i, data0)
    ensures WithUser(settings, row, fake, i, data0)[k] == data0[k]
  {
    var first, last := FirstNameOf(row, fake, i), LastNameOf(row, fake, i);
    var plain := WithPlainFields(settings, row, first, last, i, data0);
    WithPlainFieldsFrame(settings, row, first, last, i, data0, k);
    WithCustomFieldsFrame(row, i, 9, plain, k);
  }

  /** Writing user `i` posts what the source posts for that student. */
  lemma WithUserPosted(settings: Conf.Settings, row: Student, fake: (NameKind, NamePart, nat) -> string,
                       i: nat, data0: Form)
    ensures UserPosted(settings, row, fake, i, WithUser(settings, row, fake, i, data0))
  {
    var first, last := FirstNameOf(row, fake, i), LastNameOf(row, fake, i);
    var plain := WithPlainFields(settings, row, first, last, i, data0);
    var data := WithUser(settings, row, fake, i, data0);
    WithPlainFieldsRead(settings, row, first, last, i, data0);
    WithUserKeys(settings, row, fake, i, data0);
    WithCustomFieldsRead(row, i, 9, plain);
    CustomKeepsPlain(row, i, plain);
  }

  /** The custom fields of user `i` leave its plain fields as they were. */
  lemma CustomKeepsPlain(row: Student, i: nat, data0: Form)
    requires PlainKeys(i) <= data0.Keys
    ensures PlainKeys(i) <= WithCustomFields(row, i, 9, data0).Keys
    ensures PlainAt(i, WithCustomFields(row, i, 9, data0)) == PlainAt(i, data0)
  {
    var data := WithCustomFields(row, i, 9, data0);
    CustomKeysOwner(i, 9);
    forall k | k in PlainKeys(i) ensures k in data && data[k] == data0[k] {
      WithCustomFieldsFrame(row, i, 9, data0, k);
    }
    PlainAtFrame(i, data0, data);
  }

  /** Reading the plain fields back only looks at their keys. */
  lemma PlainAtFrame(i: nat, d1: Form, d2: Form)
    requires PlainKeys(i) <= d1.Keys
    requires forall k :: k in PlainKeys(i) ==> k in d2 && d2[k] == d1[k]
    ensures PlainKeys(i) <= d2.Keys
    ensures PlainAt(i, d2) == PlainAt(i, d1)
  {
  }

  /** The keys after user `i` are the base keys and those of users `0..i`. */
  lemma CreateStepKeys(base: set<FormKey>, before: set<FormKey>, after: set<FormKey>, i: nat)
    requires before == base + CreateKeys(i)
    requires after == before + UserKeys(i)
    ensures after == base + CreateKeys(i + 1)
  {
  }

  /** Writing user `i` keeps what was posted for another user `j`. */
  lemma CreateStepUser(settings: Conf.Settings, row: Student, fake: (NameKind, NamePart, nat) -> string,
                       i: nat, j: nat, before: Form, data: Form)
    requires j != i
    requires UserPosted(settings, row, fake, j, before)
    requires data.Keys == before.Keys + UserKeys(i)
    requires forall k :: k in before && k !in UserKeys(i) ==> data[k] == before[k]
    ensures UserPosted(settings, row, fake, j, data)
  {
    UserKeysOwned(i);
    UserKeysOwned(j);
    UserPostedFrame(settings, row, fake, j, before, data);
  }

  /** The form holds `base` and the entries of the first `n` students, and nothing else. */
  ghost predicate Created(settings: Conf.Settings, students: seq<Student>,
                          fake: (NameKind, NamePart, nat) -> string, base: Form, n: nat, data: Form)
    requires n <= |students|
  {
    && data.Keys == base.Keys + CreateKeys(n)
    && (forall k :: k in base ==> data[k] == base[k])
    && (forall j :: 0 <= j < n ==> UserPosted(settings, students[j], fake, j, data))
  }

  /** The payload of `core_user_create_users`: the base keys, and user `i` posted as the
      source posts student `i` (see `ExpectedUser`), and nothing else. `fake(kind, part, i)`
      stands for the name the Faker generator of that kind gives for user `i`. */
  method CreateUsersPayload(settings: Conf.Settings, students: seq<Student>,
                            fake: (NameKind, NamePart, nat) -> string) returns (data: Form)
    ensures Created(settings, students, fake, WsBase(settings, "core_user_create_users"),
                    |students|, data)
  {
    var base := WsBase(settings, "core_user_create_users");
    data := base;
    for i := 0 to |students|
      invariant Created(settings, students, fake, base, i, data)
    {
      data := CreateRound(settings, students, fake, i, data);
    }
  }

  /** One round of the loop: student `i` is added; the first `i` stay as they were posted. */
  method CreateRound(settings: Conf.Settings, students: seq<Student>,
                     fake: (NameKind, NamePart, nat) -> string, i: nat, data0: Form) returns (data: Form)
    requires i < |students|
    requires Created(settings, students, fake, WsBase(settings, "core_user_create_users"), i, data0)
    ensures Created(settings, students, fake, WsBase(settings, "core_user_create_users"), i + 1, data)
  {
    data := AddUser(settings, students[i], fake, i, data0);
    CreateStep(settings, students, fake, WsBase(settings, "core_user_create_users"), i, data0, data);
  }

  /** Adding user `i` keeps everything posted before it. */
  lemma CreateStep(settings: Conf.Settings, students: seq<Student>,
                   fake: (NameKind, NamePart, nat) -> string, base: Form, i: nat,
                   before: Form, data: Form)
    requires i < |students|
    requires forall k :: k in base ==> k.Plain?
    requires Created(settings, students, fake, base, i, before)
    requires data.Keys == before.Keys + UserKeys(i)
    requires forall k :: k in before && k !in UserKeys(i) ==> data[k] == before[k]
    requires UserPosted(settings, students[i], fake, i, data)
    ensures Created(settings, students, fake, base, i + 1, data)
  {
    CreateStepKeys(base.Keys, before.Keys, data.Keys, i);
    UserKeysOwned(i);
    forall k | k in base ensures data[k] == base[k] {
      assert UserOf(k) == None;
    }
    forall j | 0 <= j < i + 1 ensures UserPosted(settings, students[j], fake, j, data) {
      if j < i {
        CreateStepUser(settings, students[j], fake, i, j, before, data);
      }
    }
  }

  /** One round of the loop of `create_moodle_users`: the entries of user `i`, with the name
      generators chosen by gender. Only the keys of user `i` change. */
  method AddUser(settings: Conf.Settings, row: Student, fake: (NameKind, NamePart, nat) -> string,
                 i: nat, data0: Form) returns (data: Form)
    ensures data.Keys == data0.Keys + UserKeys(i)
    ensures forall k :: k in data0 && k !in UserKeys(i) ==> data[k] == data0[k]
    ensures UserPosted(settings, row, fake, i, data)
  {
    var firstName, lastName := fake(MaleNames, FirstName, i), fake(MaleNames, LastName, i);
    if row.gender == "F" {
      firstName, lastName := fake(FemaleNames, FirstName, i), fake(FemaleNames, LastName, i);
    }
    data := AddPlainFields(settings, row, firstName, lastName, i, data0);
    data := AddCustomFields(row, i, data);
    assert data == WithUser(settings, row, fake, i, data0);
    WithUserKeys(settings, row, fake, i, data0);
    forall k | k in data0 && k !in UserKeys(i) ensures data[k] == data0[k] {
      WithUserFrame(settings, row, fake, i, data0, k);
    }
    WithUserPosted(settings, row, fake, i, data0);
  }

  /** The nine plain fields of user `i`. */
  method AddPlainFields(settings: Conf.Settings, row: Student, firstName: string, lastName: string,
                        i: nat, data0: Form) returns (data: Form)
    ensures data == WithPlainFields(settings, row, firstName, lastName, i, data0)
  {
    data := data0;
    data := data[UserKey(i, Createpassword) := Number(0)];
    data := data[UserKey(i, Username) := Number(row.id)];
    data := data[UserKey(i, Password) := Text(settings.moodleStudentPassword)];
    data := data[UserKey(i, Firstname) := Text(firstName)];
    data := data[UserKey(i, Lastname) := Text(lastName)];
    data := data[UserKey(i, Email) := Text(Text.IntToString(row.id) + "@gmail.com")];
    data := data[UserKey(i, Country) := Text("GB")];
    data := data[UserKey(i, Timezone) := Text("Europe/London")];
    data := data[UserKey(i, Institution) := Text("Open Univesity")];
  }

  /** The nine custom fields of user `i`. The source writes the 18 lines out; here they are
      one loop over the fixed type order. */
  method AddCustomFields(row: Student, i: nat, data0: Form) returns (data: Form)
    ensures data == WithCustomFields(row, i, 9, data0)
  {
    data := data0;
    var values := CustomValues(row);
    for j := 0 to 9
      invariant data == WithCustomFields(row, i, j, data0)
    {
      data := data[CustomKey(i, j, Type) := Text(CustomTypes[j])];
      data := data[CustomKey(i, j, Value) := values[j]];
    }
  }
}
