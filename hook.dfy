/** The hook service's reshaping of Moodle web-service replies: the URL patch that points
    Moodle links at the configured Moodle host, the site, course list, course contents and
    quiz views, the stripping of CDATA sections from quiz HTML, and the wrapping of forwarded
    statements into a list. The Moodle calls themselves are inputs: each view takes the decoded
    reply it reshapes. */
module Hook {
  import opened Wrappers
  import Conf
  import Text

  // ---------------------------------------------------------------------------------------
  // Searching strings
  // ---------------------------------------------------------------------------------------

  /** The index of the first `c` in `s`, or `|s|` when there is none. */
  function Find(s: string, c: char): (i: nat)
    ensures i <= |s|
    ensures i < |s| ==> s[i] == c
    ensures forall k :: 0 <= k < i ==> s[k] != c
  {
    if |s| == 0 then 0
    else if s[0] == c then 0
    else 1 + Find(s[1..], c)
  }

  /** The characters that end the network location of a URL. */
  predicate Delim(c: char) {
    c == '/' || c == '?' || c == '#'
  }

  /** The index of the first delimiter in `s`, or `|s|`. */
  function FindDelim(s: string): (i: nat)
    ensures i <= |s|
    ensures i < |s| ==> Delim(s[i])
    ensures forall k :: 0 <= k < i ==> !Delim(s[k])
  {
    if |s| == 0 then 0
    else if Delim(s[0]) then 0
    else 1 + FindDelim(s[1..])
  }

  lemma {:induction false} FindAppend(a: string, b: string, c: char)
    requires c !in a
    ensures Find(a + b, c) == |a| + Find(b, c)
  {
    if |a| > 0 {
      assert (a + b)[1..] == a[1..] + b;
      FindAppend(a[1..], b, c);
    } else {
      assert a + b == b;
    }
  }

  lemma {:induction false} FindDelimAppend(a: string, b: string)
    requires forall k :: 0 <= k < |a| ==> !Delim(a[k])
    ensures FindDelim(a + b) == |a| + FindDelim(b)
  {
    if |a| > 0 {
      assert (a + b)[1..] == a[1..] + b;
      FindDelimAppend(a[1..], b);
    } else {
      assert a + b == b;
    }
  }

  // ---------------------------------------------------------------------------------------
  // Splitting and joining URLs
  // ---------------------------------------------------------------------------------------

  /** The components of a URL: scheme, network location, path (with its parameters), query
      and fragment, each without its delimiter. */
  datatype UrlParts = UrlParts(scheme: string, netloc: string, path: string, query: string, fragment: string)

  predicate IsAlpha(c: char) {
    'a' <= c <= 'z' || 'A' <= c <= 'Z'
  }

  predicate SchemeChar(c: char) {
    IsAlpha(c) || '0' <= c <= '9' || c == '+' || c == '-' || c == '.'
  }

  function LowerChar(c: char): char {
    if 'A' <= c <= 'Z' then (c as int + 32) as char else c
  }

  function Lower(s: string): (r: string)
    ensures |r| == |s| && forall k :: 0 <= k < |s| ==> r[k] == LowerChar(s[k])
  {
    seq(|s|, k requires 0 <= k < |s| => LowerChar(s[k]))
  }

  /** A scheme as the splitter recognises one, already in lower case. */
  predicate ValidScheme(s: string) {
    && |s| > 0 && IsAlpha(s[0])
    && (forall k :: 0 <= k < |s| ==> SchemeChar(s[k]))
    && Lower(s) == s
  }

  /** A host name that contains no delimiter. */
  predicate ValidHost(h: string) {
    forall k :: 0 <= k < |h| ==> !Delim(h[k])
  }

  /** The scheme and the rest of a URL: the text before the first `:` is the scheme when it
      is non-empty, starts with a letter and has only scheme characters; it is lowered. */
  function SplitScheme(url: string): (string, string) {
    var i := Find(url, ':');
    if 0 < i < |url| && IsAlpha(url[0]) && (forall k :: 0 <= k < i ==> SchemeChar(url[k])) then
      (Lower(url[..i]), url[i + 1..])
    else ("", url)
  }

  /** After `//`, the network location runs to the first delimiter. */
  function SplitNetloc(rest: string): (string, string) {
    if |rest| >= 2 && rest[..2] == "//" then
      var j := FindDelim(rest[2..]);
      (rest[2..2 + j], rest[2 + j..])
    else ("", rest)
  }

  /** The fragment follows the first `#`. */
  function SplitFragment(rest: string): (r: (string, string))
    ensures '#' !in r.0
  {
    var k := Find(rest, '#');
    if k < |rest| then (rest[..k], rest[k + 1..]) else (rest, "")
  }

  /** The query follows the first `?`. */
  function SplitQuery(rest: string): (r: (string, string))
    ensures '?' !in r.0
    ensures forall c :: c in r.0 ==> c in rest
    ensures forall c :: c in r.1 ==> c in rest
  {
    var q := Find(rest, '?');
    if q < |rest| then (rest[..q], rest[q + 1..]) else (rest, "")
  }

  /** Splitting a URL: the scheme, then after `//` the network location up to the first
      delimiter, then the fragment after the first `#`, then the query after the first `?`;
      what remains is the path. */
  function Split(url: string): (p: UrlParts)
    ensures '#' !in p.path && '?' !in p.path && '#' !in p.query
  {
    var (scheme, rest) := SplitScheme(url);
    var (netloc, rest) := SplitNetloc(rest);
    var (rest, fragment) := SplitFragment(rest);
    var (path, query) := SplitQuery(rest);
    UrlParts(scheme, netloc, path, query, fragment)
  }

  /** A path after a network location starts with `/` unless it is empty. */
  function Slashed(path: string): (r: string)
    ensures r == "" <==> path == ""
    ensures r != "" ==> r[0] == '/'
    ensures path != "" && path[0] == '/' ==> r == path
  {
    if path != "" && path[0] != '/' then "/" + path else path
  }

  /** The schemes whose URLs carry a network location. */
  const NetlocSchemes: seq<string> := ["", "ftp", "http", "gopher", "nntp", "telnet", "imap", "wais", "file",
    "mms", "https", "shttp", "snews", "prospero", "rtsp", "rtspu", "rsync", "svn", "svn+ssh", "sftp",
    "nfs", "git", "git+ssh", "ws", "wss"]

  /** `s` is one of `schemes`. */
  predicate Among(s: string, schemes: seq<string>) {
    |schemes| > 0 && (schemes[0] == s || Among(s, schemes[1..]))
  }

  /** The network location and path of a joined URL: `//` and the location before the path
      when there is a location, or when the scheme takes one and the path does not already
      start with `//`. */
  function Authority(p: UrlParts): string {
    if p.netloc != "" then "//" + p.netloc + Slashed(p.path)
    else if p.scheme != "" && Among(p.scheme, NetlocSchemes) && !(|p.path| >= 2 && p.path[..2] == "//") then
      "//" + Slashed(p.path)
    else p.path
  }

  /** Joining URL components back into a URL. */
  function Unsplit(p: UrlParts): string {
    var url := Authority(p);
    var url := if p.scheme != "" then p.scheme + ":" + url else url;
    var url := if p.query != "" then url + "?" + p.query else url;
    if p.fragment != "" then url + "#" + p.fragment else url
  }

  /** The tail of a URL with a network location: path, query and fragment with their
      delimiters. */
  function Tail(path: string, query: string, fragment: string): string {
    Slashed(path) + (if query != "" then "?" + query else "") + (if fragment != "" then "#" + fragment else "")
  }

  lemma UnsplitShape(s: string, h: string, path: string, query: string, fragment: string)
    requires s != "" && h != ""
    ensures Unsplit(UrlParts(s, h, path, query, fragment)) == s + ":" + ("//" + h + Tail(path, query, fragment))
  {
    var p := UrlParts(s, h, path, query, fragment);
    var A := "//" + h + Slashed(path);
    assert Authority(p) == A;
    var X := s + ":" + A;
    var Q := if query != "" then "?" + query else "";
    var F := if fragment != "" then "#" + fragment else "";
    AppendIf(X, "?", query);
    AppendIf(X + Q, "#", fragment);
    Regroup5(s + ":", "//" + h, Slashed(path), Q, F);
  }

  lemma AppendIf<T>(x: seq<T>, d: seq<T>, q: seq<T>)
    ensures (if q != [] then x + d + q else x) == x + (if q != [] then d + q else [])
  {
  }

  lemma Regroup5<T>(a: seq<T>, b: seq<T>, c: seq<T>, d: seq<T>, e: seq<T>)
    ensures a + (b + c) + d + e == a + (b + (c + d + e))
  {
  }

  /** A valid scheme followed by a colon is split off as the scheme. */
  lemma SchemeSplits(s: string, rest: string)
    requires ValidScheme(s)
    ensures SplitScheme(s + ":" + rest) == (s, rest)
  {
    var url := s + ":" + rest;
    assert ':' !in s by {
      forall k | 0 <= k < |s| ensures s[k] != ':' { assert SchemeChar(s[k]); }
    }
    assert url == s + (":" + rest);
    FindAppend(s, ":" + rest, ':');
    assert url[..|s|] == s && url[|s| + 1..] == rest;
  }

  /** The host is split off as the network location when the tail starts with a delimiter. */
  lemma NetlocSplits(h: string, tail: string)
    requires ValidHost(h)
    requires tail == "" || Delim(tail[0])
    ensures SplitNetloc("//" + h + tail) == (h, tail)
  {
    var rest := "//" + h + tail;
    assert rest[2..] == h + tail;
    FindDelimAppend(h, tail);
    assert rest[2..2 + |h|] == h && rest[2 + |h|..] == tail;
  }

  /** The fragment splits off at the first `#`. */
  lemma FragmentSplits(pq: string, fragment: string)
    requires '#' !in pq
    ensures SplitFragment(pq + (if fragment != "" then "#" + fragment else "")) == (pq, fragment)
  {
    var F := if fragment != "" then "#" + fragment else "";
    FindAppend(pq, F, '#');
    if fragment == "" {
      assert pq + F == pq;
    } else {
      SplitAt(pq, '#', fragment);
    }
  }

  lemma SplitAt<T>(a: seq<T>, c: T, b: seq<T>)
    ensures (a + ([c] + b))[..|a|] == a && (a + ([c] + b))[|a|] == c && (a + ([c] + b))[|a| + 1..] == b
  {
  }

  /** The query splits off at the first `?`. */
  lemma QuerySplits(path: string, query: string)
    requires '?' !in path
    ensures SplitQuery(path + (if query != "" then "?" + query else "")) == (path, query)
  {
    var Q := if query != "" then "?" + query else "";
    FindAppend(path, Q, '?');
    if query == "" {
      assert path + Q == path;
    } else {
      SplitAt(path, '?', query);
    }
  }

  /** The fragment and then the query split off a tail. */
  lemma TailSplits(path: string, query: string, fragment: string)
    requires '#' !in path && '?' !in path && '#' !in query
    ensures SplitFragment(Tail(path, query, fragment)).1 == fragment
    ensures SplitQuery(SplitFragment(Tail(path, query, fragment)).0) == (Slashed(path), query)
  {
    var P := Slashed(path);
    var Q := if query != "" then "?" + query else "";
    assert '#' !in P + Q;
    FragmentSplits(P + Q, fragment);
    QuerySplits(P, query);
  }

  /** A URL whose scheme is valid and whose network location is a valid non-empty host splits
      back into its components, with the path starting with `/`. */
  lemma SplitUnsplit(s: string, h: string, path: string, query: string, fragment: string)
    requires ValidScheme(s) && ValidHost(h) && h != ""
    requires '#' !in path && '?' !in path && '#' !in query
    ensures Split(Unsplit(UrlParts(s, h, path, query, fragment))) == UrlParts(s, h, Slashed(path), query, fragment)
  {
    var tail := Tail(path, query, fragment);
    UnsplitShape(s, h, path, query, fragment);
    SchemeSplits(s, "//" + h + tail);
    NetlocSplits(h, tail);
    TailSplits(path, query, fragment);
  }

  // ---------------------------------------------------------------------------------------
  // Patching Moodle URLs
  // ---------------------------------------------------------------------------------------

  /** A URL given by Moodle, pointed at the configured Moodle: an absent or empty URL gives
      nothing; otherwise scheme and network location become the configured scheme and host
      (so any port is dropped), and path, query and fragment stay. */
  function PatchMoodleUrl(moodleUrl: Conf.HttpUrl, url: Option<string>): (r: Option<string>)
    ensures r.None? <==> url.None? || url.value == ""
  {
    if url.None? || url.value == "" then None
    else Some(Unsplit(Split(url.value).(scheme := moodleUrl.scheme, netloc := moodleUrl.host)))
  }

  /** For a configured URL with a valid scheme and host, the patched URL splits into the
      configured scheme and host and the path, query and fragment of the original. */
  lemma PatchKeepsRest(moodleUrl: Conf.HttpUrl, url: string)
    requires ValidScheme(moodleUrl.scheme) && ValidHost(moodleUrl.host) && moodleUrl.host != ""
    requires url != ""
    ensures var p := Split(url);
      Split(PatchMoodleUrl(moodleUrl, Some(url)).value) ==
        UrlParts(moodleUrl.scheme, moodleUrl.host, Slashed(p.path), p.query, p.fragment)
  {
    var p := Split(url);
    SplitUnsplit(moodleUrl.scheme, moodleUrl.host, p.path, p.query, p.fragment);
  }

  /** Patching a patched URL changes nothing. */
  lemma PatchIdempotent(moodleUrl: Conf.HttpUrl, url: Option<string>)
    requires ValidScheme(moodleUrl.scheme) && ValidHost(moodleUrl.host) && moodleUrl.host != ""
    ensures PatchMoodleUrl(moodleUrl, PatchMoodleUrl(moodleUrl, url)) == PatchMoodleUrl(moodleUrl, url)
  {
    if url.Some? && url.value != "" {
      PatchKeepsRest(moodleUrl, url.value);
      var p := Split(url.value);
      UnsplitSlashed(moodleUrl.scheme, moodleUrl.host, p.path, p.query, p.fragment);
    }
  }

  /** With a network location, a path is joined with its leading `/` whether or not it had
      one. */
  lemma UnsplitSlashed(s: string, h: string, path: string, query: string, fragment: string)
    requires s != "" && h != ""
    ensures Unsplit(UrlParts(s, h, Slashed(path), query, fragment)) == Unsplit(UrlParts(s, h, path, query, fragment))
  {
    UnsplitShape(s, h, path, query, fragment);
    UnsplitShape(s, h, Slashed(path), query, fragment);
    assert Slashed(Slashed(path)) == Slashed(path);
  }

  // ---------------------------------------------------------------------------------------
  // The site view
  // ---------------------------------------------------------------------------------------

  /** The part of `core_webservice_get_site_info` the site view reads. */
  datatype SiteInfo = SiteInfo(sitename: Option<string>, siteurl: Option<string>)

  /** The site view: the site name and the patched site URL, and nothing else. */
  function Root(moodleUrl: Conf.HttpUrl, result: SiteInfo): (r: SiteInfo)
    ensures r.sitename == result.sitename
    ensures r.siteurl == PatchMoodleUrl(moodleUrl, result.siteurl)
    ensures r.siteurl.None? <==> result.siteurl.None? || result.siteurl.value == ""
  {
    SiteInfo(result.sitename, PatchMoodleUrl(moodleUrl, result.siteurl))
  }

  // ---------------------------------------------------------------------------------------
  // Filtering replies
  // ---------------------------------------------------------------------------------------

  /** The elements of `xs` that `keep` accepts, each shown by `view`, in order: the shape of
      every list the views return. */
  function KeepMap<T, U>(keep: T -> bool, view: T -> U, xs: seq<T>): (r: seq<U>)
    ensures |r| <= |xs|
  {
    if |xs| == 0 then [] else (if keep(xs[0]) then [view(xs[0])] else []) + KeepMap(keep, view, xs[1..])
  }

  /** What filtering keeps: exactly the views of the accepted elements. */
  lemma {:induction false} KeepMapMembers<T(!new), U(!new)>(keep: T -> bool, view: T -> U, xs: seq<T>)
    ensures forall y :: y in KeepMap(keep, view, xs) <==> exists x :: x in xs && keep(x) && y == view(x)
  {
    if |xs| > 0 {
      KeepMapMembers(keep, view, xs[1..]);
      assert forall x :: x in xs <==> x == xs[0] || x in xs[1..] by {
        assert xs == [xs[0]] + xs[1..];
      }
    }
  }

  /** Filtering keeps the order: filtering a concatenation concatenates the filtered parts. */
  lemma {:induction false} KeepMapAppend<T, U>(keep: T -> bool, view: T -> U, a: seq<T>, b: seq<T>)
    ensures KeepMap(keep, view, a + b) == KeepMap(keep, view, a) + KeepMap(keep, view, b)
  {
    if |a| == 0 {
      assert a + b == b;
    } else {
      var h := if keep(a[0]) then [view(a[0])] else [];
      assert (a + b)[0] == a[0];
      assert (a + b)[1..] == a[1..] + b;
      assert KeepMap(keep, view, a + b) == h + KeepMap(keep, view, a[1..] + b);
      KeepMapAppend(keep, view, a[1..], b);
      Regroup(h, KeepMap(keep, view, a[1..]), KeepMap(keep, view, b));
    }
  }

  /** Nothing is kept when nothing is accepted. */
  lemma {:induction false} KeepMapNone<T, U>(keep: T -> bool, view: T -> U, xs: seq<T>)
    requires forall x :: x in xs ==> !keep(x)
    ensures KeepMap(keep, view, xs) == []
  {
    if |xs| > 0 {
      assert xs[0] in xs;
      assert forall x :: x in xs[1..] ==> x in xs;
      KeepMapNone(keep, view, xs[1..]);
    }
  }

  // ---------------------------------------------------------------------------------------
  // The course list
  // ---------------------------------------------------------------------------------------

  /** A course of `core_course_get_courses`, with the fields the view reads. */
  datatype Course = Course(id: Option<int>, fullname: Option<string>, summary: Option<string>,
                           visible: Option<int>, format: Option<string>)

  /** A course as the view lists it. */
  datatype CourseView = CourseView(id: Option<int>, fullname: Option<string>, url: Option<string>,
                                   summary: Option<string>)

  /** A number read as a condition: present and not 0. */
  predicate Truthy(v: Option<int>) {
    v.Some? && v.value != 0
  }

  /** The courses the view lists: visible ones, except the site course. */
  predicate Listed(c: Course) {
    Truthy(c.visible) && c.format != Some("site")
  }

  /** How a course id is written into the course URL (an absent id is written `None`). */
  function IdText(id: Option<int>): string {
    match id
    case None => "None"
    case Some(i) => Text.IntToString(i)
  }

  /** The Moodle page of a course, before its `id` query. */
  const CoursePath: string := "/course/view.php"

  /** The query of a course page: `id=` and the course id. */
  function CourseQuery(id: Option<int>): string {
    "id=" + IdText(id)
  }

  function CourseViewOf(moodleUrl: Conf.HttpUrl, c: Course): CourseView {
    CourseView(c.id, c.fullname, PatchMoodleUrl(moodleUrl, Some(CoursePath + "?" + CourseQuery(c.id))), c.summary)
  }

  /** The course list view: the listed courses, in order, each projected to its id, name,
      summary and patched course URL. */
  function Courses(moodleUrl: Conf.HttpUrl, result: seq<Course>): (r: seq<CourseView>)
    ensures |r| <= |result|
    ensures forall v :: v in r <==> exists c :: c in result && Listed(c) && v == CourseViewOf(moodleUrl, c)
  {
    KeepMapMembers(Listed, c => CourseViewOf(moodleUrl, c), result);
    KeepMap(Listed, c => CourseViewOf(moodleUrl, c), result)
  }

  /** The course list keeps the order of the reply: the view of a concatenation is the
      concatenation of the views. */
  lemma CoursesAppend(moodleUrl: Conf.HttpUrl, a: seq<Course>, b: seq<Course>)
    ensures Courses(moodleUrl, a + b) == Courses(moodleUrl, a) + Courses(moodleUrl, b)
  {
    KeepMapAppend(Listed, c => CourseViewOf(moodleUrl, c), a, b);
  }

  lemma {:induction false} NoColonInNumber(n: nat)
    ensures ':' !in Text.NatToString(n) && '#' !in Text.NatToString(n)
  {
    var t := Text.NatToString(n);
    forall k | 0 <= k < |t| ensures t[k] != ':' && t[k] != '#' {
      assert Text.AllDigits(t);
    }
  }

  lemma IdTextPlain(id: Option<int>)
    ensures ':' !in CourseQuery(id) && '#' !in CourseQuery(id) && CourseQuery(id) != ""
  {
    if id.Some? {
      if id.value >= 0 {
        NoColonInNumber(id.value);
      } else {
        NoColonInNumber(-id.value);
        assert IdText(id) == "-" + Text.NatToString(-id.value);
      }
    }
  }

  /** A path-relative reference with a query splits into that path and that query. */
  lemma RelativeSplits(path: string, query: string)
    requires ':' !in path && '#' !in path && '?' !in path
    requires |path| >= 2 && path[1] != '/'
    requires ':' !in query && '#' !in query && query != ""
    ensures Split(path + "?" + query) == UrlParts("", "", path, query, "")
  {
    var url := path + "?" + query;
    assert ':' !in url;
    FindAppend(url, "", ':');
    assert url + "" == url;
    assert SplitScheme(url) == ("", url);
    assert url[1] == path[1];
    assert SplitNetloc(url) == ("", url);
    assert '#' !in url;
    FragmentSplits(url, "");
    assert SplitFragment(url) == (url, "");
    assert url == path + ("?" + query);
    QuerySplits(path, query);
    assert SplitQuery(url) == (path, query);
  }

  /** Patching a path-relative reference prefixes it with the configured scheme and host. */
  lemma PatchRelative(moodleUrl: Conf.HttpUrl, path: string, query: string)
    requires moodleUrl.scheme != "" && moodleUrl.host != ""
    requires ':' !in path && '#' !in path && '?' !in path
    requires |path| >= 2 && path[0] == '/' && path[1] != '/'
    requires ':' !in query && '#' !in query && query != ""
    ensures PatchMoodleUrl(moodleUrl, Some(path + "?" + query)) ==
      Some(moodleUrl.scheme + "://" + moodleUrl.host + path + "?" + query)
  {
    var S, H := moodleUrl.scheme, moodleUrl.host;
    RelativeSplits(path, query);
    UnsplitShape(S, H, path, query, "");
    assert Slashed(path) == path;
    TailJoin(path, "?", query);
    JoinUrl(S, H, path + "?" + query);
    Assoc4(S + "://" + H, path, "?", query);
  }

  lemma JoinUrl(s: string, h: string, rest: string)
    ensures s + ":" + ("//" + h + rest) == s + "://" + h + rest
  {
    assert ":" + "//" == "://";
  }

  lemma TailJoin<T>(a: seq<T>, b: seq<T>, c: seq<T>)
    ensures a + (b + c) + [] == a + b + c
  {
  }

  lemma Assoc4<T>(a: seq<T>, b: seq<T>, c: seq<T>, d: seq<T>)
    ensures a + (b + c + d) == a + b + c + d
  {
  }

  lemma CoursePathPlain()
    ensures ':' !in CoursePath && '#' !in CoursePath && '?' !in CoursePath
    ensures |CoursePath| >= 2 && CoursePath[0] == '/' && CoursePath[1] != '/'
  {
  }

  /** The URL of a listed course is the course page on the configured Moodle. */
  lemma CourseUrl(moodleUrl: Conf.HttpUrl, c: Course)
    requires moodleUrl.scheme != "" && moodleUrl.host != ""
    ensures CourseViewOf(moodleUrl, c).url ==
      Some(moodleUrl.scheme + "://" + moodleUrl.host + CoursePath + "?" + CourseQuery(c.id))
  {
    IdTextPlain(c.id);
    CoursePathPlain();
    PatchRelative(moodleUrl, CoursePath, CourseQuery(c.id));
  }

  // ---------------------------------------------------------------------------------------
  // The course contents
  // ---------------------------------------------------------------------------------------

  /** An entry of a module's contents. */
  datatype Content = Content(kind: Option<string>, mimetype: Option<string>, fileurl: Option<string>)

  /** An entry as the view shows it; `fetchedFrom` is the URL whose body the view inlines. */
  datatype ContentView = ContentView(kind: Option<string>, mimetype: string, fileurl: Option<string>,
                                     fetchedFrom: Option<string>)

  /** A module of a course section. */
  datatype Module = Module(id: Option<int>, instance: Option<int>, name: Option<string>, modname: Option<string>,
                           url: Option<string>, visible: Option<int>, contents: Option<seq<Content>>)

  /** A section of `core_course_get_contents`. */
  datatype Section = Section(visible: Option<int>, modules: Option<seq<Module>>)

  /** What the view shows as a module's contents: its entries, the questions of the quiz with
      that id, or nothing when HTML is not asked for. */
  datatype ModuleContents = Items(items: seq<ContentView>) | QuizOf(quizId: Option<int>) | NoContents

  datatype ModuleView = ModuleView(id: Option<int>, instance: Option<int>, name: Option<string>,
                                   modname: Option<string>, url: Option<string>, contents: ModuleContents)

  /** The entries the view keeps: not of type `content`, and with a non-empty file URL. */
  predicate Shown(c: Content) {
    c.kind != Some("content") && c.fileurl.Some? && c.fileurl.value != ""
  }

  /** The media type of an entry, `text/html` when the entry has none. */
  function Mimetype(c: Content): string {
    if c.mimetype.Some? then c.mimetype.value else "text/html"
  }

  predicate StartsWith(s: string, prefix: string) {
    |prefix| <= |s| && s[..|prefix|] == prefix
  }

  /** An entry as shown: the file URL is patched for files only, and only a file of a text
      type has its body fetched, from the patched URL. */
  function ContentViewOf(moodleUrl: Conf.HttpUrl, c: Content): (v: ContentView)
    ensures v.kind == c.kind
    ensures v.mimetype == (if c.mimetype.Some? then c.mimetype.value else "text/html")
    ensures c.kind == Some("file") ==> v.fileurl == PatchMoodleUrl(moodleUrl, c.fileurl)
    ensures c.kind != Some("file") ==> v.fileurl == c.fileurl
    ensures v.fetchedFrom.Some? <==> c.kind == Some("file") && StartsWith(v.mimetype, "text") && v.fileurl.Some?
    ensures v.fetchedFrom.Some? ==> v.fetchedFrom == v.fileurl
  {
    var fileurl := if c.kind == Some("file") then PatchMoodleUrl(moodleUrl, c.fileurl) else c.fileurl;
    var fetched := if c.kind == Some("file") && StartsWith(Mimetype(c), "text") then fileurl else None;
    ContentView(c.kind, Mimetype(c), fileurl, fetched)
  }

  /** The shown entries of a module, in order. */
  function Contents(moodleUrl: Conf.HttpUrl, contents: seq<Content>): (r: seq<ContentView>)
    ensures |r| <= |contents|
    ensures forall v :: v in r <==> exists c :: c in contents && Shown(c) && v == ContentViewOf(moodleUrl, c)
  {
    KeepMapMembers(Shown, c => ContentViewOf(moodleUrl, c), contents);
    KeepMap(Shown, c => ContentViewOf(moodleUrl, c), contents)
  }

  /** The shown entries keep their order: the view of a concatenation concatenates the views. */
  lemma ContentsAppend(moodleUrl: Conf.HttpUrl, a: seq<Content>, b: seq<Content>)
    ensures Contents(moodleUrl, a + b) == Contents(moodleUrl, a) + Contents(moodleUrl, b)
  {
    KeepMapAppend(Shown, c => ContentViewOf(moodleUrl, c), a, b);
  }

  /** One entry is shown, once and as its view, exactly when it is of a shown kind. */
  lemma ContentsSingle(moodleUrl: Conf.HttpUrl, c: Content)
    ensures Contents(moodleUrl, [c]) == if Shown(c) then [ContentViewOf(moodleUrl, c)] else []
  {
    assert [c][1..] == [];
  }

  /** A shown file entry always has a patched URL, so a text file is always fetched. */
  lemma ShownTextFileFetched(moodleUrl: Conf.HttpUrl, c: Content)
    requires Shown(c) && c.kind == Some("file") && StartsWith(Mimetype(c), "text")
    ensures ContentViewOf(moodleUrl, c).fetchedFrom == PatchMoodleUrl(moodleUrl, c.fileurl)
    ensures ContentViewOf(moodleUrl, c).fetchedFrom.Some?
  {
  }

  /** A module as shown: its fields, its URL patched, and its entries, or the quiz it is, or
      nothing without HTML. */
  function ModuleViewOf(moodleUrl: Conf.HttpUrl, m: Module, html: bool): (v: ModuleView)
    ensures v.id == m.id && v.instance == m.instance && v.name == m.name && v.modname == m.modname
    ensures v.url == PatchMoodleUrl(moodleUrl, m.url)
    ensures v.contents.Items? <==> html && m.modname != Some("quiz")
    ensures v.contents.QuizOf? <==> html && m.modname == Some("quiz")
    ensures v.contents.QuizOf? ==> v.contents.quizId == m.instance
    ensures v.contents.Items? ==> v.contents.items == Contents(moodleUrl, if m.contents.Some? then m.contents.value else [])
  {
    var contents :=
      if m.modname != Some("quiz") && html then Items(Contents(moodleUrl, if m.contents.Some? then m.contents.value else []))
      else if html then QuizOf(m.instance)
      else NoContents;
    ModuleView(m.id, m.instance, m.name, m.modname, PatchMoodleUrl(moodleUrl, m.url), contents)
  }

  /** The modules the view keeps: in a visible section, visible, and not a label. */
  predicate ModuleShown(s: Section, m: Module) {
    Truthy(s.visible) && Truthy(m.visible) && m.modname != Some("label")
  }

  function ModulesOf(s: Section): seq<Module> {
    if s.modules.Some? then s.modules.value else []
  }

  /** The shown modules of one section, in order. */
  function SectionModules(moodleUrl: Conf.HttpUrl, s: Section, modules: seq<Module>, html: bool): (r: seq<ModuleView>)
    ensures forall v :: v in r <==> exists m :: m in modules && ModuleShown(s, m) && v == ModuleViewOf(moodleUrl, m, html)
  {
    KeepMapMembers(m => ModuleShown(s, m), m => ModuleViewOf(moodleUrl, m, html), modules);
    KeepMap(m => ModuleShown(s, m), m => ModuleViewOf(moodleUrl, m, html), modules)
  }

  /** The course view: the sections' modules flattened in order, keeping the shown ones. */
  function CourseModules(moodleUrl: Conf.HttpUrl, sections: seq<Section>, html: bool): (r: seq<ModuleView>)
    ensures forall v :: v in r <==>
      exists s, m :: s in sections && m in ModulesOf(s) && ModuleShown(s, m) && v == ModuleViewOf(moodleUrl, m, html)
  {
    if |sections| == 0 then []
    else
      var rest := CourseModules(moodleUrl, sections[1..], html);
      assert forall s :: s in sections <==> s == sections[0] || s in sections[1..] by {
        assert sections == [sections[0]] + sections[1..];
      }
      SectionModules(moodleUrl, sections[0], ModulesOf(sections[0]), html) + rest
  }

  /** The course view keeps the order of the sections. */
  lemma {:induction false} CourseModulesAppend(moodleUrl: Conf.HttpUrl, a: seq<Section>, b: seq<Section>, html: bool)
    ensures CourseModules(moodleUrl, a + b, html) == CourseModules(moodleUrl, a, html) + CourseModules(moodleUrl, b, html)
  {
    if |a| == 0 {
      assert a + b == b;
    } else {
      assert (a + b)[0] == a[0];
      assert (a + b)[1..] == a[1..] + b;
      CourseModulesAppend(moodleUrl, a[1..], b, html);
    }
  }

  /** Within a section, the modules keep their order. */
  lemma SectionModulesAppend(moodleUrl: Conf.HttpUrl, s: Section, a: seq<Module>, b: seq<Module>, html: bool)
    ensures SectionModules(moodleUrl, s, a + b, html) == SectionModules(moodleUrl, s, a, html) + SectionModules(moodleUrl, s, b, html)
  {
    KeepMapAppend(m => ModuleShown(s, m), m => ModuleViewOf(moodleUrl, m, html), a, b);
  }

  /** A hidden section contributes nothing, whatever its modules. */
  lemma HiddenSectionEmpty(moodleUrl: Conf.HttpUrl, s: Section, modules: seq<Module>, html: bool)
    requires !Truthy(s.visible)
    ensures SectionModules(moodleUrl, s, modules, html) == []
  {
    KeepMapNone(m => ModuleShown(s, m), m => ModuleViewOf(moodleUrl, m, html), modules);
  }

  // ---------------------------------------------------------------------------------------
  // The quiz view
  // ---------------------------------------------------------------------------------------

  /** An attempt of `mod_quiz_get_user_attempts`. */
  datatype Attempt = Attempt(id: int, state: string)

  /** The Moodle calls of the quiz view, in order. */
  datatype QuizCall =
    | GetUserAttempts(quizId: int)
    | StartAttempt(quizId: int)
    | ProcessAttempt(attemptId: int)
    | GetAttemptReview(attemptId: int)

  /** The id of the first attempt still in progress, if any. */
  function InProgress(attempts: seq<Attempt>): (r: Option<int>)
    ensures r.None? <==> forall i :: 0 <= i < |attempts| ==> attempts[i].state != "inprogress"
    ensures r.Some? ==> exists i :: 0 <= i < |attempts| && attempts[i].state == "inprogress" && attempts[i].id == r.value &&
                                  (forall j :: 0 <= j < i ==> attempts[j].state != "inprogress")
  {
    if |attempts| == 0 then None
    else if attempts[0].state == "inprogress" then Some(attempts[0].id)
    else
      var r := InProgress(attempts[1..]);
      assert forall i :: 1 <= i < |attempts| ==> attempts[i] == attempts[1..][i - 1];
      if r.Some? then
        ghost var i :| 0 <= i < |attempts[1..]| && attempts[1..][i].state == "inprogress" && attempts[1..][i].id == r.value &&
          forall j :: 0 <= j < i ==> attempts[1..][j].state != "inprogress";
        assert attempts[i + 1] == attempts[1..][i];
        r
      else r
  }

  /** The attempt the quiz view submits and reviews: the first one in progress, or a new one
      (whose id Moodle returns, `started`) when there is none or its id is 0. A missing list
      of attempts reads as an empty one. */
  function AttemptUsed(attempts: Option<seq<Attempt>>, started: int): (a: int)
    ensures var found := InProgress(if attempts.Some? then attempts.value else []);
      if found.Some? && found.value != 0 then a == found.value else a == started
  {
    var found := InProgress(if attempts.Some? then attempts.value else []);
    if found.None? || found.value == 0 then started else found.value
  }

  /** The Moodle calls the quiz view makes. */
  function QuizCalls(quizId: int, attempts: Option<seq<Attempt>>, started: int): (calls: seq<QuizCall>)
    ensures var found := InProgress(if attempts.Some? then attempts.value else []);
      var starts := found.None? || found.value == 0;
      |calls| == (if starts then 4 else 3) && calls[0] == GetUserAttempts(quizId)
  {
    var found := InProgress(if attempts.Some? then attempts.value else []);
    var attempt := AttemptUsed(attempts, started);
    [GetUserAttempts(quizId)]
      + (if found.None? || found.value == 0 then [StartAttempt(quizId)] else [])
      + [ProcessAttempt(attempt), GetAttemptReview(attempt)]
  }

  /** The quiz view finishes and reviews the same attempt, and it starts one only when no
      attempt is in progress (or the one found has id 0); a started attempt is the one
      finished. */
  lemma QuizFinishesWhatItReviews(quizId: int, attempts: Option<seq<Attempt>>, started: int)
    ensures var calls := QuizCalls(quizId, attempts, started);
      calls[|calls| - 2] == ProcessAttempt(AttemptUsed(attempts, started)) &&
      calls[|calls| - 1] == GetAttemptReview(AttemptUsed(attempts, started)) &&
      (StartAttempt(quizId) in calls <==>
         (InProgress(if attempts.Some? then attempts.value else []).None? ||
          InProgress(if attempts.Some? then attempts.value else []).value == 0)) &&
      (StartAttempt(quizId) in calls ==> AttemptUsed(attempts, started) == started)
  {
    var calls := QuizCalls(quizId, attempts, started);
    var found := InProgress(if attempts.Some? then attempts.value else []);
    if found.None? || found.value == 0 {
      assert calls[1] == StartAttempt(quizId);
    } else {
      assert calls == [GetUserAttempts(quizId), ProcessAttempt(found.value), GetAttemptReview(found.value)];
    }
  }

  /** An attempt in progress comes before the attempts of other states: the first one found
      is reused whatever follows it. */
  lemma {:induction false} InProgressPrefix(a: seq<Attempt>, b: seq<Attempt>)
    requires InProgress(a).Some?
    ensures InProgress(a + b) == InProgress(a)
  {
    assert (a + b)[0] == a[0];
    if a[0].state != "inprogress" {
      assert (a + b)[1..] == a[1..] + b;
      InProgressPrefix(a[1..], b);
    }
  }

  // ---------------------------------------------------------------------------------------
  // CDATA sections in quiz HTML
  // ---------------------------------------------------------------------------------------

  const CDataOpen: string := "<![CDATA["
  const CDataClose: string := "]]>"

  /** `s` starts with `<![CDATA[`. */
  predicate OpensAt(s: string) {
    |s| >= 9 && s[0] == '<' && s[1] == '!' && s[2] == '[' && s[3] == 'C' && s[4] == 'D' && s[5] == 'A' &&
    s[6] == 'T' && s[7] == 'A' && s[8] == '['
  }

  /** `]]>` occurs in `s` at `k`. */
  predicate CloseAt(s: string, k: nat) {
    k + 3 <= |s| && s[k] == ']' && s[k + 1] == ']' && s[k + 2] == '>'
  }

  /** The index of the first `]]>` in `s` at or after `k`, or `|s|` when there is none. */
  function FindClose(s: string, k: nat): (i: nat)
    requires k <= |s|
    ensures k <= i <= |s|
    ensures i < |s| ==> CloseAt(s, i)
    ensures forall j :: k <= j < i ==> !CloseAt(s, j)
    decreases |s| - k
  {
    if k + 3 > |s| then |s|
    else if CloseAt(s, k) then k
    else FindClose(s, k + 1)
  }

  /** A `]]>` found in a text is found at the same place after more text is appended. */
  lemma {:induction false} FindCloseAppend(a: string, b: string, k: nat)
    requires k <= |a| && FindClose(a, k) < |a|
    ensures FindClose(a + b, k) == FindClose(a, k)
    decreases |a| - k
  {
    assert k + 3 <= |a|;
    assert (a + b)[k] == a[k] && (a + b)[k + 1] == a[k + 1] && (a + b)[k + 2] == a[k + 2];
    if !CloseAt(a, k) {
      FindCloseAppend(a, b, k + 1);
    }
  }

  /** Searching after a prefix is searching without it. */
  lemma {:induction false} FindCloseShift(p: string, a: string, k: nat)
    requires k <= |a|
    ensures FindClose(p + a, |p| + k) == |p| + FindClose(a, k)
    decreases |a| - k
  {
    if k + 3 <= |a| {
      assert (p + a)[|p| + k] == a[k] && (p + a)[|p| + k + 1] == a[k + 1] && (p + a)[|p| + k + 2] == a[k + 2];
      if !CloseAt(a, k) {
        FindCloseShift(p, a, k + 1);
      }
    }
  }

  /** Removing CDATA sections: at each position where `<![CDATA[` starts and a `]]>` follows,
      everything up to and including the first such `]]>` is removed, newlines included, and
      the scan goes on after it; every other character is kept. */
  function StripCData(s: string): (r: string)
    ensures |r| <= |s|
    decreases |s|
  {
    if |s| == 0 then ""
    else if OpensAt(s) && FindClose(s, 9) < |s| then
      StripCData(s[FindClose(s, 9) + 3..])
    else [s[0]] + StripCData(s[1..])
  }

  /** Text without `<` has no section to remove. */
  lemma {:induction false} StripPlain(s: string)
    requires '<' !in s
    ensures StripCData(s) == s
  {
    if |s| > 0 {
      assert s[0] != '<';
      assert s == [s[0]] + s[1..];
      StripPlain(s[1..]);
    }
  }

  /** Generic facts about concatenation, stated once so that proofs about literal strings
      need not rediscover them. */
  lemma ConcatHead<T>(a: seq<T>, b: seq<T>)
    requires |a| > 0
    ensures (a + b)[0] == a[0] && (a + b)[1..] == a[1..] + b
  {
  }

  lemma ConcatDrop<T>(a: seq<T>, b: seq<T>)
    ensures (a + b)[|a|..] == b
  {
  }

  lemma ConcatAssoc<T>(a: seq<T>, b: seq<T>, c: seq<T>, d: seq<T>, e: seq<T>)
    ensures a + b + c + d + e == a + (b + (c + (d + e)))
  {
  }

  /** A section after text in which no section opens is removed, with the text before it
      kept, when the `]]>` after its body is the first one. The text before may hold markup:
      no section may open inside it, even one running into the section that follows. */
  lemma StripSection(pre: string, body: string, post: string)
    requires NoOpening(pre, CDataOpen)
    requires FindClose(body + CDataClose, 0) == |body|
    ensures StripCData(pre + CDataOpen + body + CDataClose + post) == pre + StripCData(post)
  {
    var tail := body + (CDataClose + post);
    ConcatAssoc(pre, CDataOpen, body, CDataClose, post);
    NoOpeningExtend(pre, CDataOpen, tail);
    SectionHead(body, post);
    StripBefore(pre, CDataOpen + tail);
  }

  /** Text after nine characters or more does not change where a section opens. */
  lemma NoOpeningExtend(pre: string, o: string, tail: string)
    requires |o| >= 9 && NoOpening(pre, o)
    ensures NoOpening(pre, o + tail)
  {
    forall i | 0 <= i < |pre| ensures !OpensAt((pre + (o + tail))[i..]) {
      assert (pre + (o + tail))[i..] == (pre + o)[i..] + tail;
      OpensAtPrefix((pre + o)[i..], tail);
    }
  }

  /** Whether a section opens depends on the first nine characters only. */
  lemma OpensAtPrefix(s: string, t: string)
    requires |s| >= 9
    ensures OpensAt(s + t) == OpensAt(s)
  {
    assert forall i :: 0 <= i < 9 ==> (s + t)[i] == s[i];
  }

  /** No section opens at any position of `pre` inside `pre + rest`. */
  predicate NoOpening(pre: string, rest: string) {
    forall i :: 0 <= i < |pre| ==> !OpensAt((pre + rest)[i..])
  }

  /** Text at no position of which a section opens is kept as it is. */
  lemma {:induction false} StripBefore(pre: string, rest: string)
    requires NoOpening(pre, rest)
    ensures StripCData(pre + rest) == pre + StripCData(rest)
  {
    if |pre| > 0 {
      NoOpeningHead(pre, rest);
      NoOpeningTail(pre, rest);
      StripBefore(pre[1..], rest);
      assert pre == [pre[0]] + pre[1..];
    } else {
      assert pre + rest == rest;
    }
  }

  /** The first character of such text is kept. */
  lemma NoOpeningHead(pre: string, rest: string)
    requires |pre| > 0 && NoOpening(pre, rest)
    ensures StripCData(pre + rest) == [pre[0]] + StripCData(pre[1..] + rest)
  {
    ConcatHead(pre, rest);
    assert (pre + rest)[0..] == pre + rest;
    assert !OpensAt(pre + rest);
    StripKeeps(pre + rest);
  }

  /** What follows the first character opens no section either. */
  lemma NoOpeningTail(pre: string, rest: string)
    requires |pre| > 0 && NoOpening(pre, rest)
    ensures NoOpening(pre[1..], rest)
  {
    forall i | 0 <= i < |pre[1..]| ensures !OpensAt((pre[1..] + rest)[i..]) {
      assert (pre[1..] + rest)[i..] == (pre + rest)[i + 1..];
    }
  }

  /** Text without `<` opens no section. */
  lemma PlainOpensNothing(pre: string, rest: string)
    requires '<' !in pre
    ensures NoOpening(pre, rest)
  {
    forall i | 0 <= i < |pre| ensures !OpensAt((pre + rest)[i..]) {
      assert (pre + rest)[i..][0] == pre[i];
    }
  }

  /** A character that does not open a section is kept. */
  lemma StripKeeps(s: string)
    requires |s| > 0 && (!OpensAt(s) || FindClose(s, 9) == |s|)
    ensures StripCData(s) == [s[0]] + StripCData(s[1..])
  {
  }

  lemma OpensAtOpen(t: string)
    ensures OpensAt(CDataOpen + t)
  {
    var s := CDataOpen + t;
    forall i | 0 <= i < 9 ensures s[i] == CDataOpen[i] { }
  }

  /** A section at the start is removed up to its first `]]>`. */
  lemma SectionHead(body: string, post: string)
    requires FindClose(body + CDataClose, 0) == |body|
    ensures StripCData(CDataOpen + (body + (CDataClose + post))) == StripCData(post)
  {
    var t := body + CDataClose;
    Regroup(body, CDataClose, post);
    OpensAtOpen(t + post);
    SkipSection(CDataOpen, t, post);
  }

  /** The same, for any opening `o` of nine characters and any `t` that ends at its first
      `]]>`. */
  lemma SkipSection(o: string, t: string, post: string)
    requires |o| == 9 && OpensAt(o + (t + post))
    requires |t| >= 3 && FindClose(t, 0) == |t| - 3
    ensures StripCData(o + (t + post)) == StripCData(post)
  {
    FindCloseAppend(t, post, 0);
    FindCloseShift(o, t + post, 0);
    DropTwo(o, t, post);
    StripSkips(o + (t + post));
  }

  /** A section that opens the text is removed up to its first `]]>`. */
  lemma StripSkips(s: string)
    requires OpensAt(s) && FindClose(s, 9) < |s|
    ensures StripCData(s) == StripCData(s[FindClose(s, 9) + 3..])
  {
  }

  lemma Regroup<T>(a: seq<T>, b: seq<T>, c: seq<T>)
    ensures a + (b + c) == (a + b) + c
  {
  }

  lemma DropTwo<T>(a: seq<T>, b: seq<T>, c: seq<T>)
    ensures (a + (b + c))[|a| + |b|..] == c
  {
  }

  /** A section that is never closed stays in the text. */
  lemma StripUnclosed(t: string)
    requires '<' !in t && FindClose(t, 0) == |t|
    ensures StripCData(CDataOpen + t) == CDataOpen + t
  {
    UnclosedHead(t);
    OpenTailPlain();
    var u := CDataOpen[1..] + t;
    assert '<' !in u;
    StripPlain(u);
    ConcatHead(CDataOpen, t);
    assert CDataOpen + t == [CDataOpen[0]] + u;
  }

  lemma OpenTailPlain()
    ensures '<' !in CDataOpen[1..]
  {
    forall i | 0 <= i < 8 ensures CDataOpen[1..][i] != '<' { }
  }

  lemma UnclosedHead(t: string)
    requires FindClose(t, 0) == |t|
    ensures StripCData(CDataOpen + t) == [CDataOpen[0]] + StripCData(CDataOpen[1..] + t)
  {
    ConcatHead(CDataOpen, t);
    FindCloseShift(CDataOpen, t, 0);
    StripKeeps(CDataOpen + t);
  }

  /** Positions without `]]>` are skipped by the search. */
  lemma {:induction false} FindCloseSkip(s: string, k: nat, m: nat)
    requires k <= m <= |s|
    requires forall j :: k <= j < m ==> !CloseAt(s, j)
    ensures FindClose(s, k) == FindClose(s, m)
    decreases m - k
  {
    if k < m && k + 3 <= |s| {
      FindCloseSkip(s, k + 1, m);
    }
  }

  /** A body without `]` is closed by the `]]>` that follows it. */
  lemma ClosedBody(body: string)
    requires ']' !in body
    ensures FindClose(body + CDataClose, 0) == |body|
  {
    var s := body + CDataClose;
    forall j | 0 <= j < |body| ensures !CloseAt(s, j) {
      assert s[j] == body[j];
    }
    FindCloseSkip(s, 0, |body|);
    assert s[|body|] == ']' && s[|body| + 1] == ']' && s[|body| + 2] == '>';
  }

  /** A section spanning a line is removed with the line break. */
  lemma StripMultiline()
    ensures StripCData("a" + CDataOpen + "x\n" + CDataClose + "b") == "ab"
  {
    ClosedBody("x\n");
    PlainOpensNothing("a", CDataOpen);
    StripSection("a", "x\n", "b");
    StripPlain("b");
  }

  /** A section inside markup is removed and the markup around it kept. */
  lemma StripInMarkup()
    ensures StripCData("<p>" + CDataOpen + "x" + CDataClose + "</p>") == "<p></p>"
  {
    ClosedBody("x");
    var pre := "<p>";
    forall i | 0 <= i < |pre| ensures !OpensAt((pre + CDataOpen)[i..]) {
      var s := (pre + CDataOpen)[i..];
      if i == 0 {
        assert s[1] == 'p';
      } else {
        assert s[0] == pre[i];
      }
    }
    StripSection(pre, "x", "</p>");
    StripKeeps("</p>");
    StripPlain("/p>");
    assert "</p>"[1..] == "/p>";
  }

  /** A question of `mod_quiz_get_attempt_review`. */
  datatype Question = Question(slot: Option<int>, kind: Option<string>, page: Option<int>, html: Option<string>)

  datatype QuestionView = QuestionView(slot: Option<int>, kind: Option<string>, page: Option<int>, html: string)

  /** The questions of a quiz review, in order, with CDATA stripped from their HTML; a question
      without HTML fails the view. A missing list of questions reads as an empty one. */
  function Questions(questions: Option<seq<Question>>): (r: Option<seq<QuestionView>>)
    ensures var qs := if questions.Some? then questions.value else [];
      (r.Some? <==> forall i :: 0 <= i < |qs| ==> qs[i].html.Some?) &&
      (r.Some? ==> |r.value| == |qs| && forall i :: 0 <= i < |qs| ==>
         r.value[i] == QuestionView(qs[i].slot, qs[i].kind, qs[i].page, StripCData(qs[i].html.value)))
  {
    var qs := if questions.Some? then questions.value else [];
    if forall i :: 0 <= i < |qs| ==> qs[i].html.Some? then
      Some(seq(|qs|, i requires 0 <= i < |qs| => QuestionView(qs[i].slot, qs[i].kind, qs[i].page, StripCData(qs[i].html.value))))
    else None
  }

  // ---------------------------------------------------------------------------------------
  // Forwarding statements
  // ---------------------------------------------------------------------------------------

  /** The body of a forward request: one statement or a list of them. */
  datatype Statements<T> = One(statement: T) | Many(statements: seq<T>)

  /** The statements as forwarded: always a list, a single statement as a list of one. */
  function Forwarded<T>(s: Statements<T>): (r: seq<T>)
    ensures s.One? ==> r == [s.statement]
    ensures s.Many? ==> r == s.statements
  {
    match s
    case One(x) => [x]
    case Many(xs) => xs
  }

  /** A single statement is forwarded exactly as the list holding only it. */
  lemma OneIsListOfOne<T>(x: T)
    ensures Forwarded(One(x)) == Forwarded(Many([x]))
  {
  }
}
