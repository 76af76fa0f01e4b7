/** The OULAD tables as far as the simulator uses them: selecting the rows of one module
    presentation, and the greedy matcher that binds OULAD activity sites to the positions of
    the items of the Moodle course. */
module Oulad {
  import opened Wrappers
  import Moodle

  // ---------------------------------------------------------------------------------------
  // Selecting one module presentation
  // ---------------------------------------------------------------------------------------

  /** A row of an OULAD table: its `code_module` and `code_presentation` columns and the
      remaining columns `fields`. */
  datatype Row<R> = Row(codeModule: string, codePresentation: string, fields: R)

  predicate Matches<R(!new)>(row: Row<R>, codeModule: string, codePresentation: string) {
    row.codeModule == codeModule && row.codePresentation == codePresentation
  }

  /** The rows of `rows` of the given module presentation, in order, with all columns. */
  function Select<R(!new)>(rows: seq<Row<R>>, codeModule: string, codePresentation: string): (r: seq<Row<R>>)
    ensures |r| <= |rows|
    ensures forall x :: x in r <==> x in rows && Matches(x, codeModule, codePresentation)
  {
    if |rows| == 0 then []
    else
      (if Matches(rows[0], codeModule, codePresentation) then [rows[0]] else [])
      + Select(rows[1..], codeModule, codePresentation)
  }

  /** The same rows with the `code_module` and `code_presentation` columns dropped. */
  function SelectDropped<R(!new)>(rows: seq<Row<R>>, codeModule: string, codePresentation: string): (r: seq<R>)
    ensures |r| == |Select(rows, codeModule, codePresentation)|
    ensures forall k :: 0 <= k < |r| ==> r[k] == Select(rows, codeModule, codePresentation)[k].fields
  {
    var kept := Select(rows, codeModule, codePresentation);
    seq(|kept|, k requires 0 <= k < |kept| => kept[k].fields)
  }

  /** The result of `filter_by_module_presentation`: the selected rows with their
      `code_module` and `code_presentation` columns dropped, or the selected rows whole. */
  datatype Filtered<R> = Dropped(values: seq<R>) | Whole(rows: seq<Row<R>>)

  /** The dataset selection `filter_by_module_presentation`, with its `drop` flag. */
  function FilterByModulePresentation<R(!new)>(rows: seq<Row<R>>, codeModule: string,
                                         codePresentation: string, drop: bool)
    : (r: Filtered<R>)
    ensures r.Dropped? <==> drop
    ensures r.Whole? ==> forall x :: x in r.rows <==> x in rows && Matches(x, codeModule, codePresentation)
    ensures r.Dropped? ==> forall v :: v in r.values <==>
      exists x :: x in rows && Matches(x, codeModule, codePresentation) && x.fields == v
  {
    var kept := Select(rows, codeModule, codePresentation);
    if drop then
      var d := SelectDropped(rows, codeModule, codePresentation);
      assert forall v :: v in d ==> exists x :: x in kept && x.fields == v by {
        forall v | v in d ensures exists x :: x in kept && x.fields == v {
          var k :| 0 <= k < |d| && d[k] == v;
          assert kept[k] in kept;
        }
      }
      assert forall x :: x in kept ==> x.fields in d by {
        forall x | x in kept ensures x.fields in d {
          var k :| 0 <= k < |kept| && kept[k] == x;
          assert d[k] == x.fields;
        }
      }
      Dropped(d)
    else Whole(kept)
  }

  /** Selection keeps the order of the rows: selecting from two tables one after the other is
      selecting from their concatenation. */
  lemma {:induction false} SelectAppend<R(!new)>(a: seq<Row<R>>, b: seq<Row<R>>, m: string, p: string)
    ensures Select(a + b, m, p) == Select(a, m, p) + Select(b, m, p)
  {
    if |a| == 0 {
      assert a + b == b;
    } else {
      assert (a + b)[0] == a[0];
      assert (a + b)[1..] == a[1..] + b;
      SelectAppend(a[1..], b, m, p);
    }
  }

  /** Selecting twice is selecting once. */
  lemma {:induction false} SelectIdempotent<R(!new)>(rows: seq<Row<R>>, m: string, p: string)
    ensures Select(Select(rows, m, p), m, p) == Select(rows, m, p)
  {
    if |rows| > 0 {
      SelectIdempotent(rows[1..], m, p);
      var head := if Matches(rows[0], m, p) then [rows[0]] else [];
      SelectAppend(head, Select(rows[1..], m, p), m, p);
    }
  }

  /** A table of one module presentation is kept whole. */
  lemma {:induction false} SelectAllMatching<R(!new)>(rows: seq<Row<R>>, m: string, p: string)
    requires forall k :: 0 <= k < |rows| ==> Matches(rows[k], m, p)
    ensures Select(rows, m, p) == rows
  {
    if |rows| > 0 {
      SelectAllMatching(rows[1..], m, p);
    }
  }

  /** The selection test on the `courses` table: the `AAA`/`2013J` row is kept, whole
      without `drop`, as its `module_presentation_length` alone with it. */
  lemma FilterExample(rows: seq<Row<int>>)
    requires rows == [Row("AAA", "2013J", 268), Row("AAA", "2014J", 269), Row("BBB", "2013J", 240)]
    ensures FilterByModulePresentation(rows, "AAA", "2013J", false) == Whole([Row("AAA", "2013J", 268)])
    ensures FilterByModulePresentation(rows, "AAA", "2013J", true) == Dropped([268])
  {
    var tail := [Row("AAA", "2014J", 269), Row("BBB", "2013J", 240)];
    assert rows[1..] == tail;
    assert tail[1..] == [Row("BBB", "2013J", 240)];
    assert "2014J"[3] != "2013J"[3] && "BBB"[0] != "AAA"[0];
    assert Select(tail[1..], "AAA", "2013J") == [];
    assert Select(tail, "AAA", "2013J") == [];
    assert Select(rows, "AAA", "2013J") == [Row("AAA", "2013J", 268)];
    var dropped := SelectDropped(rows, "AAA", "2013J");
    assert |dropped| == 1 && dropped[0] == 268;
    assert dropped == [268];
  }

  // ---------------------------------------------------------------------------------------
  // Mapping OULAD sites to Moodle course positions
  // ---------------------------------------------------------------------------------------

  /** A row of the OULAD `vle` table indexed by `id_site`: the site and its activity type. */
  datatype VleRow<S> = VleRow(site: S, activityType: string)

  /** For each Moodle modname, the OULAD activity types that may stand behind it, in order of
      preference. */
  const CandidateTable: map<string, seq<string>> := map[
    "resource" := ["resource"],
    "book" := ["oucontent"],
    "url" := ["url"],
    "page" := ["page", "subpage", "dualpane"],
    "glossary" := ["glossary"],
    "forum" := ["forumng"],
    "workshop" := ["oucollaborate"],
    "data" := ["dataplus"],
    "quiz" := ["quiz"],
    "lesson" := ["ouelluminate"],
    "scorm" := ["sharedsubpage", "externalquiz", "htmlactivity"],
    "feedback" := ["questionnaire"],
    "survey" := ["questionnaire"],
    "choice" := ["questionnaire"],
    "wiki" := ["ouwiki"],
    "h5pactivity" := ["repeatactivity"],
    "folder" := ["folder"],
    "homepage" := ["homepage"]]

  /** The candidate types of a modname; none for a modname the table does not know. */
  function Candidates(modname: string): (r: seq<string>)
    ensures |r| > 0 <==> modname in CandidateTable
    ensures |r| <= 3
  {
    if modname in CandidateTable then CandidateTable[modname] else []
  }

  /** The sites of activity type `t`, in the order of the table (a group of `groupby`). */
  function Group<S(==)>(vle: seq<VleRow<S>>, t: string): (g: seq<S>)
    ensures |g| <= |vle|
    ensures forall s :: s in g ==> exists r :: r in vle && r.site == s && r.activityType == t
  {
    if |vle| == 0 then []
    else (if vle[0].activityType == t then [vle[0].site] else []) + Group(vle[1..], t)
  }

  /** The activity types present in the table. */
  function Types<S(==)>(vle: seq<VleRow<S>>): set<string> {
    set r | r in vle :: r.activityType
  }

  /** The sites present in the table. */
  function Sites<S(==)>(vle: seq<VleRow<S>>): set<S> {
    set r | r in vle :: r.site
  }

  /** No site occurs twice in the table (`id_site` is the key of `vle`). */
  predicate DistinctSites<S(==)>(vle: seq<VleRow<S>>) {
    |vle| == 0 || (vle[0].site !in Sites(vle[1..]) && DistinctSites(vle[1..]))
  }

  /** Distinct sites, pairwise: no two rows of the table share a site. */
  lemma {:induction false} DistinctSitesPairwise<S>(vle: seq<VleRow<S>>)
    ensures DistinctSites(vle) <==> forall a, b :: 0 <= a < b < |vle| ==> vle[a].site != vle[b].site
  {
    if |vle| > 0 {
      DistinctSitesPairwise(vle[1..]);
      var t := vle[1..];
      if DistinctSites(vle) {
        forall a, b | 0 <= a < b < |vle| ensures vle[a].site != vle[b].site {
          assert vle[b] == t[b - 1];
          if a > 0 {
            assert vle[a] == t[a - 1];
          } else {
            assert t[b - 1] in t;
          }
        }
      }
      if forall a, b :: 0 <= a < b < |vle| ==> vle[a].site != vle[b].site {
        forall a, b | 0 <= a < b < |t| ensures t[a].site != t[b].site {
          assert t[a] == vle[a + 1] && t[b] == vle[b + 1];
        }
        forall r | r in t ensures r.site != vle[0].site {
          var j :| 0 <= j < |t| && t[j] == r;
          assert vle[j + 1] == r;
        }
      }
    }
  }

  /** The matcher's state: a cursor into the group of each type present in the table (the
      number of its sites used so far), and the sites bound so far with their positions. */
  datatype MatchState<S> = MatchState(cursor: map<string, nat>, binding: map<S, nat>)

  /** Every type present starts at the beginning of its group; nothing is bound. */
  function Initial<S(==)>(vle: seq<VleRow<S>>): MatchState<S> {
    MatchState(map t | t in Types(vle) :: 0, map[])
  }

  /** Type `t` still has an unused site. A type absent from the table has no cursor, which
      the source writes as an infinite cursor: it is never available. */
  predicate Available<S(==)>(vle: seq<VleRow<S>>, st: MatchState<S>, t: string) {
    t in st.cursor && st.cursor[t] < |Group(vle, t)|
  }

  /** Candidate `j` is available and none before it is. */
  predicate FirstAt<S(==)>(vle: seq<VleRow<S>>, st: MatchState<S>, cands: seq<string>, j: nat) {
    j < |cands| && Available(vle, st, cands[j]) &&
    forall j' :: 0 <= j' < j ==> !Available(vle, st, cands[j'])
  }

  /** The first of the candidate types that is available. */
  function FirstAvailable<S(==)>(vle: seq<VleRow<S>>, st: MatchState<S>, cands: seq<string>): (r: Option<string>)
    ensures r.Some? ==> exists j: nat :: FirstAt(vle, st, cands, j) && cands[j] == r.value
    ensures r.None? <==> forall j :: 0 <= j < |cands| ==> !Available(vle, st, cands[j])
  {
    if |cands| == 0 then None
    else if Available(vle, st, cands[0]) then
      assert FirstAt(vle, st, cands, 0);
      Some(cands[0])
    else
      var r := FirstAvailable(vle, st, cands[1..]);
      assert r.Some? ==> exists j: nat :: FirstAt(vle, st, cands, j) && cands[j] == r.value by {
        if r.Some? {
          var j: nat :| FirstAt(vle, st, cands[1..], j) && cands[1..][j] == r.value;
          assert cands[j + 1] == cands[1..][j];
          assert FirstAt(vle, st, cands, j + 1) by {
            forall j' | 0 <= j' < j + 1 ensures !Available(vle, st, cands[j']) {
              if j' > 0 {
                assert cands[j'] == cands[1..][j' - 1];
              }
            }
          }
        }
      }
      assert r.None? ==> forall j :: 0 <= j < |cands| ==> !Available(vle, st, cands[j]) by {
        if r.None? {
          forall j | 0 <= j < |cands| ensures !Available(vle, st, cands[j]) {
            if j > 0 {
              assert cands[j] == cands[1..][j - 1];
            }
          }
        }
      }
      r
  }

  /** One round of the outer loop, for the item at position `i` whose modname has the
      candidate types `cands`: the first available one gives up its next site, which is bound
      to `i`. */
  function Step<S(==)>(vle: seq<VleRow<S>>, st: MatchState<S>, i: nat, cands: seq<string>): MatchState<S> {
    match FirstAvailable(vle, st, cands)
    case None => st
    case Some(t) => Consume(vle, st, t, i)
  }

  /** Type `t` gives up its next site, which is bound to position `i`. */
  function Consume<S(==)>(vle: seq<VleRow<S>>, st: MatchState<S>, t: string, i: nat): MatchState<S>
    requires Available(vle, st, t)
  {
    var k := st.cursor[t];
    MatchState(st.cursor[t := k + 1], st.binding[Group(vle, t)[k] := i])
  }

  /** The state after the first `n` items of the course. */
  function Matched<S(==)>(vle: seq<VleRow<S>>, course: seq<Moodle.CourseItem>, n: nat): MatchState<S>
    requires n <= |course|
  {
    if n == 0 then Initial(vle)
    else Step(vle, Matched(vle, course, n - 1), n - 1, Candidates(course[n - 1].modname))
  }

  /** The greedy matcher `map_oulad_to_moodle`: for each item of the course in order, the
      first candidate type with an unused site gives that site to the item's position. */
  method MapOuladToMoodle<S(==)>(vle: seq<VleRow<S>>, course: seq<Moodle.CourseItem>)
    returns (moodleIdByOuladSite: map<S, nat>)
    ensures moodleIdByOuladSite == Matched(vle, course, |course|).binding
  {
    var siteByActivity, lastUsedIndex := GroupSites(vle);
    moodleIdByOuladSite := map[];
    for i := 0 to |course|
      invariant MatchState(lastUsedIndex, moodleIdByOuladSite) == Matched(vle, course, i)
    {
      MatchedCursorKeys(vle, course, i);
      lastUsedIndex, moodleIdByOuladSite :=
        MatchItem(vle, siteByActivity, lastUsedIndex, moodleIdByOuladSite, i, Candidates(course[i].modname));
    }
  }

  /** The groups of the table's sites by activity type, and a cursor at 0 for each. */
  method GroupSites<S(==)>(vle: seq<VleRow<S>>)
    returns (siteByActivity: map<string, seq<S>>, lastUsedIndex: map<string, nat>)
    ensures siteByActivity.Keys == lastUsedIndex.Keys
    ensures forall t :: t in siteByActivity ==> siteByActivity[t] == Group(vle, t)
    ensures MatchState(lastUsedIndex, map[]) == Initial(vle)
  {
    siteByActivity := map t | t in Types(vle) :: Group(vle, t);
    lastUsedIndex := map t | t in siteByActivity :: 0;
  }

  /** The body of the outer loop: the candidate types of the item at position `i` are tried
      in order and the first with an unused site binds it to `i`. */
  method MatchItem<S(==)>(vle: seq<VleRow<S>>, siteByActivity: map<string, seq<S>>,
                          lastUsedIndex: map<string, nat>, binding: map<S, nat>,
                          i: nat, candidates: seq<string>)
    returns (lastUsedIndex': map<string, nat>, binding': map<S, nat>)
    requires forall t :: t in siteByActivity ==> siteByActivity[t] == Group(vle, t)
    requires lastUsedIndex.Keys == siteByActivity.Keys
    ensures MatchState(lastUsedIndex', binding') == Step(vle, MatchState(lastUsedIndex, binding), i, candidates)
  {
    ghost var before := MatchState(lastUsedIndex, binding);
    lastUsedIndex', binding' := lastUsedIndex, binding;
    var j := 0;
    while j < |candidates|
      invariant j <= |candidates|
      invariant forall j' :: 0 <= j' < j ==> !Available(vle, before, candidates[j'])
    {
      var ouladActivityType := candidates[j];
      var indices := if ouladActivityType in siteByActivity then siteByActivity[ouladActivityType] else [];
      if ouladActivityType in lastUsedIndex && |indices| > lastUsedIndex[ouladActivityType] {
        var lastIndex := lastUsedIndex[ouladActivityType];
        StepConsumes(vle, before, i, candidates, j, ouladActivityType, lastIndex, indices[lastIndex]);
        lastUsedIndex' := lastUsedIndex[ouladActivityType := lastIndex + 1];
        binding' := binding[indices[lastIndex] := i];
        return;
      }
      j := j + 1;
    }
    StepSkipped(vle, before, i, candidates);
  }

  /** If candidate `j` is available and none before it is, it is the first available one. */
  lemma {:induction false} FirstAvailableIsFirst<S>(vle: seq<VleRow<S>>, st: MatchState<S>,
                                                    cands: seq<string>, j: nat)
    requires FirstAt(vle, st, cands, j)
    ensures FirstAvailable(vle, st, cands) == Some(cands[j])
  {
    if j > 0 {
      assert FirstAt(vle, st, cands[1..], j - 1) by {
        forall j' | 0 <= j' < j - 1 ensures !Available(vle, st, cands[1..][j']) {
          assert cands[1..][j'] == cands[j' + 1];
        }
      }
      FirstAvailableIsFirst(vle, st, cands[1..], j - 1);
    }
  }

  /** The cursor has exactly the types of the table as keys, at every step. */
  lemma {:induction false} MatchedCursorKeys<S>(vle: seq<VleRow<S>>, course: seq<Moodle.CourseItem>, n: nat)
    requires n <= |course|
    ensures Matched(vle, course, n).cursor.Keys == Types(vle)
  {
    if n > 0 {
      MatchedCursorKeys(vle, course, n - 1);
    }
  }

  /** The cursor of a type never passes the end of its group. */
  lemma {:induction false} MatchedCursorBound<S>(vle: seq<VleRow<S>>, course: seq<Moodle.CourseItem>, n: nat)
    requires n <= |course|
    ensures forall t :: t in Matched(vle, course, n).cursor ==>
      Matched(vle, course, n).cursor[t] <= |Group(vle, t)|
  {
    if n > 0 {
      MatchedCursorBound(vle, course, n - 1);
    }
  }

  /** Every bound value is the position of an item already visited. */
  lemma {:induction false} MatchedPositions<S>(vle: seq<VleRow<S>>, course: seq<Moodle.CourseItem>, n: nat)
    requires n <= |course|
    ensures forall s :: s in Matched(vle, course, n).binding ==> Matched(vle, course, n).binding[s] < n
  {
    if n > 0 {
      MatchedPositions(vle, course, n - 1);
    }
  }

  /** No two keys share a value. */
  predicate Injective<S(==)>(m: map<S, nat>) {
    forall k1, k2 :: k1 in m && k2 in m && k1 != k2 ==> m[k1] != m[k2]
  }

  /** No two sites are bound to the same position: the binding is injective. */
  lemma {:induction false} MatchedInjective<S>(vle: seq<VleRow<S>>, course: seq<Moodle.CourseItem>, n: nat)
    requires n <= |course|
    ensures Injective(Matched(vle, course, n).binding)
  {
    if n > 0 {
      MatchedInjective(vle, course, n - 1);
      MatchedPositions(vle, course, n - 1);
      var st := Matched(vle, course, n - 1);
      var r := FirstAvailable(vle, st, Candidates(course[n - 1].modname));
      if r.Some? {
        var site := Group(vle, r.value)[st.cursor[r.value]];
        var b := st.binding[site := n - 1];
        assert Matched(vle, course, n).binding == b;
        forall s1, s2 | s1 in b && s2 in b && s1 != s2 ensures b[s1] != b[s2] {
          if s1 == site {
            assert s2 in st.binding && b[s2] == st.binding[s2];
          } else if s2 == site {
            assert s1 in st.binding && b[s1] == st.binding[s1];
          } else {
            assert b[s1] == st.binding[s1] && b[s2] == st.binding[s2];
          }
        }
      }
    }
  }

  /** Only sites of the table are bound. */
  lemma {:induction false} MatchedSites<S>(vle: seq<VleRow<S>>, course: seq<Moodle.CourseItem>, n: nat)
    requires n <= |course|
    ensures Matched(vle, course, n).binding.Keys <= Sites(vle)
  {
    if n > 0 {
      MatchedSites(vle, course, n - 1);
      var st := Matched(vle, course, n - 1);
      var r := FirstAvailable(vle, st, Candidates(course[n - 1].modname));
      if r.Some? {
        var g := Group(vle, r.value);
        assert g[st.cursor[r.value]] in g;
      }
    }
  }

  /** A table has no more distinct sites than rows. */
  lemma {:induction false} SitesBound<S>(vle: seq<VleRow<S>>)
    ensures |Sites(vle)| <= |vle|
  {
    if |vle| > 0 {
      SitesBound(vle[1..]);
      assert Sites(vle) == {vle[0].site} + Sites(vle[1..]) by {
        forall s | s in Sites(vle) ensures s in {vle[0].site} + Sites(vle[1..]) {
          var r :| r in vle && r.site == s;
          if r != vle[0] {
            assert r in vle[1..];
          }
        }
      }
    }
  }

  /** At most one site per visited position and at most one binding per site of the table. */
  lemma {:induction false} MatchedCount<S>(vle: seq<VleRow<S>>, course: seq<Moodle.CourseItem>, n: nat)
    requires n <= |course|
    ensures |Matched(vle, course, n).binding| <= n
    ensures |Matched(vle, course, n).binding| <= |vle|
  {
    MatchedCountSteps(vle, course, n);
    MatchedSites(vle, course, n);
    SitesBound(vle);
    var keys := Matched(vle, course, n).binding.Keys;
    assert |keys| <= |Sites(vle)| by {
      SubsetCard(keys, Sites(vle));
    }
  }

  lemma {:induction false} MatchedCountSteps<S>(vle: seq<VleRow<S>>, course: seq<Moodle.CourseItem>, n: nat)
    requires n <= |course|
    ensures |Matched(vle, course, n).binding| <= n
  {
    if n > 0 {
      MatchedCountSteps(vle, course, n - 1);
    }
  }

  lemma SubsetCard<T>(a: set<T>, b: set<T>)
    requires a <= b
    ensures |a| <= |b|
  {
    assert b == a + (b - a);
  }

  // ---------------------------------------------------------------------------------------
  // Consumption in group order, for a table keyed by site
  // ---------------------------------------------------------------------------------------

  lemma DistinctTail<S>(vle: seq<VleRow<S>>)
    requires |vle| > 0 && DistinctSites(vle)
    ensures DistinctSites(vle[1..])
    ensures forall t :: vle[0].site !in Group(vle[1..], t)
  {
    forall t, s | s in Group(vle[1..], t) ensures s != vle[0].site {
      var r :| r in vle[1..] && r.site == s && r.activityType == t;
      assert s in Sites(vle[1..]);
    }
  }

  /** The place `k` of a group, read off the first row and the group of the rest. */
  lemma GroupAt<S>(vle: seq<VleRow<S>>, t: string, k: nat)
    requires k < |Group(vle, t)|
    ensures |vle| > 0
    ensures var h := if vle[0].activityType == t then 1 else 0;
      if k < h then Group(vle, t)[k] == vle[0].site
      else k - h < |Group(vle[1..], t)| && Group(vle, t)[k] == Group(vle[1..], t)[k - h]
  {
  }

  /** In a table keyed by site, a site stands at one place of one group only. */
  lemma {:induction false} GroupDistinct<S>(vle: seq<VleRow<S>>, t1: string, t2: string, k1: nat, k2: nat)
    requires DistinctSites(vle)
    requires k1 < |Group(vle, t1)| && k2 < |Group(vle, t2)|
    ensures Group(vle, t1)[k1] == Group(vle, t2)[k2] ==> t1 == t2 && k1 == k2
  {
    GroupAt(vle, t1, k1);
    GroupAt(vle, t2, k2);
    DistinctTail(vle);
    var h1 := if vle[0].activityType == t1 then 1 else 0;
    var h2 := if vle[0].activityType == t2 then 1 else 0;
    if k1 < h1 && k2 < h2 {
    } else if k1 < h1 {
      assert Group(vle[1..], t2)[k2 - h2] in Group(vle[1..], t2);
    } else if k2 < h2 {
      assert Group(vle[1..], t1)[k1 - h1] in Group(vle[1..], t1);
    } else {
      GroupDistinct(vle[1..], t1, t2, k1 - h1, k2 - h2);
    }
  }

  /** The sites of each group that are bound are exactly those before its cursor. */
  ghost predicate ConsumedPrefix<S>(vle: seq<VleRow<S>>, st: MatchState<S>) {
    forall t, k :: t in st.cursor && 0 <= k < |Group(vle, t)| ==>
      (Group(vle, t)[k] in st.binding <==> k < st.cursor[t])
  }

  /** Within each group, the bound sites go to increasing positions. */
  ghost predicate InGroupOrder<S>(vle: seq<VleRow<S>>, st: MatchState<S>)
    requires ConsumedPrefix(vle, st)
  {
    forall t, k1, k2 :: t in st.cursor && 0 <= k1 < k2 < st.cursor[t] && k2 < |Group(vle, t)| ==>
      st.binding[Group(vle, t)[k1]] < st.binding[Group(vle, t)[k2]]
  }

  /** In a table keyed by site, each type's sites are used strictly in group order: the
      `k`-th site of type `t` is bound exactly when the cursor of `t` has passed it, and an
      earlier site of a group is bound to an earlier position. */
  lemma {:induction false} MatchedConsumed<S>(vle: seq<VleRow<S>>, course: seq<Moodle.CourseItem>, n: nat)
    requires n <= |course| && DistinctSites(vle)
    ensures ConsumedPrefix(vle, Matched(vle, course, n))
    ensures InGroupOrder(vle, Matched(vle, course, n))
  {
    if n > 0 {
      MatchedConsumed(vle, course, n - 1);
      MatchedPositions(vle, course, n - 1);
      var st := Matched(vle, course, n - 1);
      var r := FirstAvailable(vle, st, Candidates(course[n - 1].modname));
      if r.Some? {
        ConsumeKeepsPrefix(vle, st, r.value, n - 1);
        ConsumeKeepsOrder(vle, st, r.value, n - 1);
      }
    }
  }

  lemma ConsumeKeepsPrefix<S>(vle: seq<VleRow<S>>, st: MatchState<S>, t0: string, i: nat)
    requires DistinctSites(vle) && Available(vle, st, t0) && ConsumedPrefix(vle, st)
    ensures ConsumedPrefix(vle, Consume(vle, st, t0, i))
  {
    var st' := Consume(vle, st, t0, i);
    forall t, k | t in st'.cursor && 0 <= k < |Group(vle, t)|
      ensures Group(vle, t)[k] in st'.binding <==> k < st'.cursor[t]
    {
      GroupDistinct(vle, t, t0, k, st.cursor[t0]);
    }
  }

  lemma ConsumeKeepsOrder<S>(vle: seq<VleRow<S>>, st: MatchState<S>, t0: string, i: nat)
    requires DistinctSites(vle) && Available(vle, st, t0) && ConsumedPrefix(vle, st)
    requires InGroupOrder(vle, st)
    requires forall s :: s in st.binding ==> st.binding[s] < i
    ensures ConsumedPrefix(vle, Consume(vle, st, t0, i))
    ensures InGroupOrder(vle, Consume(vle, st, t0, i))
  {
    ConsumeKeepsPrefix(vle, st, t0, i);
    var st' := Consume(vle, st, t0, i);
    forall t, k1, k2 | t in st'.cursor && 0 <= k1 < k2 < st'.cursor[t] && k2 < |Group(vle, t)|
      ensures st'.binding[Group(vle, t)[k1]] < st'.binding[Group(vle, t)[k2]]
    {
      GroupDistinct(vle, t, t0, k1, st.cursor[t0]);
      GroupDistinct(vle, t, t0, k2, st.cursor[t0]);
    }
  }

  /** In a table keyed by site, position `i` ends up mapped exactly when, at the moment its
      item was reached, one of the item's candidate types still had a site left. */
  lemma MatchedPosition<S>(vle: seq<VleRow<S>>, course: seq<Moodle.CourseItem>, n: nat, i: nat)
    requires i < n <= |course| && DistinctSites(vle)
    ensures i in Matched(vle, course, n).binding.Values
      <==> FirstAvailable(vle, Matched(vle, course, i), Candidates(course[i].modname)).Some?
  {
    PositionBoundAtStep(vle, course, i);
    PositionPersists(vle, course, n, i);
  }

  lemma PositionBoundAtStep<S>(vle: seq<VleRow<S>>, course: seq<Moodle.CourseItem>, i: nat)
    requires i < |course|
    ensures i in Matched(vle, course, i + 1).binding.Values
      <==> FirstAvailable(vle, Matched(vle, course, i), Candidates(course[i].modname)).Some?
  {
    var st := Matched(vle, course, i);
    var r := FirstAvailable(vle, st, Candidates(course[i].modname));
    MatchedPositions(vle, course, i);
    if r.Some? {
      var site := Group(vle, r.value)[st.cursor[r.value]];
      assert Matched(vle, course, i + 1).binding[site] == i;
    } else {
      assert i !in st.binding.Values;
    }
  }

  /** Later items never take a position's site away. */
  lemma {:induction false} PositionPersists<S>(vle: seq<VleRow<S>>, course: seq<Moodle.CourseItem>, n: nat, i: nat)
    requires i < n <= |course| && DistinctSites(vle)
    ensures i in Matched(vle, course, n).binding.Values <==> i in Matched(vle, course, i + 1).binding.Values
  {
    if n > i + 1 {
      PositionPersists(vle, course, n - 1, i);
      PersistStep(vle, course, n - 1, i);
    }
  }

  /** One later item does not take a position's site away. */
  lemma PersistStep<S>(vle: seq<VleRow<S>>, course: seq<Moodle.CourseItem>, m: nat, i: nat)
    requires i < m < |course| && DistinctSites(vle)
    ensures i in Matched(vle, course, m + 1).binding.Values <==> i in Matched(vle, course, m).binding.Values
  {
    MatchedConsumed(vle, course, m);
    var st := Matched(vle, course, m);
    var cands := Candidates(course[m].modname);
    assert Matched(vle, course, m + 1) == Step(vle, st, m, cands);
    StepKeepsValue(vle, st, m, cands, i);
  }

  lemma StepKeepsValue<S>(vle: seq<VleRow<S>>, st: MatchState<S>, j: nat, cands: seq<string>, i: nat)
    requires ConsumedPrefix(vle, st) && i != j
    ensures i in Step(vle, st, j, cands).binding.Values <==> i in st.binding.Values
  {
    var r := FirstAvailable(vle, st, cands);
    if r.Some? {
      FreshUpdateValues(st.binding, Group(vle, r.value)[st.cursor[r.value]], j, i);
    }
  }

  /** Binding a new key to another value leaves the other values as they were. */
  lemma FreshUpdateValues<S>(b: map<S, nat>, key: S, v: nat, i: nat)
    requires key !in b && i != v
    ensures i in b[key := v].Values <==> i in b.Values
  {
    if i in b.Values {
      var s :| s in b && b[s] == i;
      assert b[key := v][s] == i;
    }
    if i in b[key := v].Values {
      var s :| s in b[key := v] && b[key := v][s] == i;
      assert s in b;
    }
  }

  /** A type absent from the table is never available, so none of its sites is ever used. */
  lemma AbsentTypeUnused<S>(vle: seq<VleRow<S>>, course: seq<Moodle.CourseItem>, n: nat, t: string)
    requires n <= |course| && t !in Types(vle)
    ensures !Available(vle, Matched(vle, course, n), t)
  {
    MatchedCursorKeys(vle, course, n);
  }

  /** In a table keyed by site, an item whose modname the table does not know stays
      unmapped. */
  lemma UnknownModnameUnmapped<S>(vle: seq<VleRow<S>>, course: seq<Moodle.CourseItem>, n: nat, i: nat)
    requires i < n <= |course| && DistinctSites(vle)
    requires course[i].modname !in CandidateTable
    ensures i !in Matched(vle, course, n).binding.Values
  {
    MatchedPosition(vle, course, n, i);
  }

  /** `feedback`, `survey` and `choice` all draw on `questionnaire`, whose single cursor they
      therefore share. */
  lemma QuestionnaireShared()
    ensures Candidates("feedback") == Candidates("survey") == Candidates("choice") == ["questionnaire"]
  {
  }

  // ---------------------------------------------------------------------------------------
  // The fixture of the mapper test: six activities, a seven-item course
  // ---------------------------------------------------------------------------------------

  const TestVle: seq<VleRow<nat>> := [
    VleRow(0, "oucontent"), VleRow(1, "externalquiz"), VleRow(2, "page"),
    VleRow(3, "sharedsubpage"), VleRow(4, "url"), VleRow(5, "oucontent")]

  function TestItem(id: int, modname: string): Moodle.CourseItem {
    Moodle.CourseItem(id, id, "", modname, None, None)
  }

  const TestCourse: seq<Moodle.CourseItem> := [
    TestItem(0, "homepage"), TestItem(1, "scorm"), TestItem(2, "page"), TestItem(3, "book"),
    TestItem(4, "scorm"), TestItem(5, "scorm"), TestItem(6, "book")]

  lemma TestGroups()
    ensures Group(TestVle, "oucontent") == [0, 5]
    ensures Group(TestVle, "externalquiz") == [1]
    ensures Group(TestVle, "page") == [2]
    ensures Group(TestVle, "sharedsubpage") == [3]
  {
  }

  lemma TestInitial()
    ensures Initial(TestVle).cursor
      == map["oucontent" := 0, "externalquiz" := 0, "page" := 0, "sharedsubpage" := 0, "url" := 0]
  {
    assert Types(TestVle) == {"oucontent", "externalquiz", "page", "sharedsubpage", "url"} by {
      assert TestVle[0] in TestVle && TestVle[1] in TestVle && TestVle[2] in TestVle;
      assert TestVle[3] in TestVle && TestVle[4] in TestVle;
    }
  }

  lemma TestCandidates()
    ensures Candidates("homepage") == ["homepage"]
    ensures Candidates("scorm") == ["sharedsubpage", "externalquiz", "htmlactivity"]
    ensures Candidates("page") == ["page", "subpage", "dualpane"]
    ensures Candidates("book") == ["oucontent"]
  {
  }

  /** The state after each item of the mapper test. */
  function TestState(n: nat): MatchState<nat> {
    var c0 := map["oucontent" := 0, "externalquiz" := 0, "page" := 0, "sharedsubpage" := 0, "url" := 0];
    var c2 := c0["sharedsubpage" := 1];
    var c3 := c2["page" := 1];
    var c4 := c3["oucontent" := 1];
    var c5 := c4["externalquiz" := 1];
    var b4 := map[3 := 1, 2 := 2, 0 := 3];
    if n <= 1 then MatchState(c0, map[])
    else if n == 2 then MatchState(c2, map[3 := 1])
    else if n == 3 then MatchState(c3, map[3 := 1, 2 := 2])
    else if n == 4 then MatchState(c4, b4)
    else if n <= 6 then MatchState(c5, b4[1 := 4])
    else MatchState(c5["oucontent" := 2], b4[1 := 4][5 := 6])
  }

  /** A step none of whose candidates is available changes nothing. */
  lemma StepSkipped<S>(vle: seq<VleRow<S>>, st: MatchState<S>, i: nat, cands: seq<string>)
    requires forall j :: 0 <= j < |cands| ==> !Available(vle, st, cands[j])
    ensures Step(vle, st, i, cands) == st
  {
  }

  /** A step whose first available candidate is the `j`-th consumes that type. */
  lemma StepTaken<S>(vle: seq<VleRow<S>>, st: MatchState<S>, i: nat, cands: seq<string>, j: nat)
    requires FirstAt(vle, st, cands, j)
    ensures Step(vle, st, i, cands) == Consume(vle, st, cands[j], i)
  {
    FirstAvailableIsFirst(vle, st, cands, j);
  }

  lemma TestStep1()
    ensures Step(TestVle, TestState(0), 0, ["homepage"]) == TestState(1)
  {
    TestGroups();
    assert FirstAvailable(TestVle, TestState(0), ["homepage"]) == None;
  }

  /** A step whose first available candidate is `t` binds `t`'s next site to position `i`. */
  lemma StepConsumes<S>(vle: seq<VleRow<S>>, st: MatchState<S>, i: nat, cands: seq<string>, j: nat, t: string,
                        k: nat, site: S)
    requires FirstAt(vle, st, cands, j) && cands[j] == t
    requires st.cursor[t] == k && Group(vle, t)[k] == site
    ensures Step(vle, st, i, cands) == MatchState(st.cursor[t := k + 1], st.binding[site := i])
  {
    StepTaken(vle, st, i, cands, j);
    ConsumeAt(vle, st, t, i, k, site);
  }

  lemma ConsumeAt<S>(vle: seq<VleRow<S>>, st: MatchState<S>, t: string, i: nat, k: nat, site: S)
    requires Available(vle, st, t) && st.cursor[t] == k && Group(vle, t)[k] == site
    ensures Consume(vle, st, t, i) == MatchState(st.cursor[t := k + 1], st.binding[site := i])
  {
  }

  lemma TestAvail2()
    ensures FirstAt(TestVle, TestState(1), ["sharedsubpage", "externalquiz", "htmlactivity"], 0) && ["sharedsubpage", "externalquiz", "htmlactivity"][0] == "sharedsubpage"
    ensures TestState(1).cursor["sharedsubpage"] == 0 && Group(TestVle, "sharedsubpage")[0] == 3
  {
    TestGroups();
  }

  lemma TestStep2()
    ensures Step(TestVle, TestState(1), 1, ["sharedsubpage", "externalquiz", "htmlactivity"]) == TestState(2)
  {
    TestAvail2();
    StepConsumes(TestVle, TestState(1), 1, ["sharedsubpage", "externalquiz", "htmlactivity"], 0, "sharedsubpage", 0, 3);
  }

  lemma TestAvail3()
    ensures FirstAt(TestVle, TestState(2), ["page", "subpage", "dualpane"], 0) && ["page", "subpage", "dualpane"][0] == "page"
    ensures TestState(2).cursor["page"] == 0 && Group(TestVle, "page")[0] == 2
  {
    TestGroups();
  }

  lemma TestStep3()
    ensures Step(TestVle, TestState(2), 2, ["page", "subpage", "dualpane"]) == TestState(3)
  {
    TestAvail3();
    StepConsumes(TestVle, TestState(2), 2, ["page", "subpage", "dualpane"], 0, "page", 0, 2);
  }

  lemma TestAvail4()
    ensures FirstAt(TestVle, TestState(3), ["oucontent"], 0) && ["oucontent"][0] == "oucontent"
    ensures TestState(3).cursor["oucontent"] == 0 && Group(TestVle, "oucontent")[0] == 0
  {
    TestGroups();
  }

  lemma TestStep4()
    ensures Step(TestVle, TestState(3), 3, ["oucontent"]) == TestState(4)
  {
    TestAvail4();
    StepConsumes(TestVle, TestState(3), 3, ["oucontent"], 0, "oucontent", 0, 0);
  }

  lemma TestAvail5()
    ensures FirstAt(TestVle, TestState(4), ["sharedsubpage", "externalquiz", "htmlactivity"], 1) && ["sharedsubpage", "externalquiz", "htmlactivity"][1] == "externalquiz"
    ensures TestState(4).cursor["externalquiz"] == 0 && Group(TestVle, "externalquiz")[0] == 1
  {
    TestGroups();
  }

  lemma TestStep5()
    ensures Step(TestVle, TestState(4), 4, ["sharedsubpage", "externalquiz", "htmlactivity"]) == TestState(5)
  {
    TestAvail5();
    StepConsumes(TestVle, TestState(4), 4, ["sharedsubpage", "externalquiz", "htmlactivity"], 1, "externalquiz", 0, 1);
  }

  lemma TestStep6()
    ensures Step(TestVle, TestState(5), 5, ["sharedsubpage", "externalquiz", "htmlactivity"]) == TestState(6)
  {
    TestGroups();
    var cands := ["sharedsubpage", "externalquiz", "htmlactivity"];
    assert !Available(TestVle, TestState(5), cands[0]);
    assert !Available(TestVle, TestState(5), cands[1]);
    assert cands[2] !in TestState(5).cursor;
    StepSkipped(TestVle, TestState(5), 5, cands);
  }

  lemma TestAvail7()
    ensures FirstAt(TestVle, TestState(6), ["oucontent"], 0) && ["oucontent"][0] == "oucontent"
    ensures TestState(6).cursor["oucontent"] == 1 && Group(TestVle, "oucontent")[1] == 5
  {
    TestGroups();
  }

  lemma TestStep7()
    ensures Step(TestVle, TestState(6), 6, ["oucontent"]) == TestState(7)
  {
    TestAvail7();
    StepConsumes(TestVle, TestState(6), 6, ["oucontent"], 0, "oucontent", 1, 5);
    TestLast();
  }

  /** The matcher's state after the first items of the mapper test. */
  lemma TestMatched0(vle: seq<VleRow<nat>>, course: seq<Moodle.CourseItem>)
    requires vle == TestVle && course == TestCourse
    ensures Matched(vle, course, 0) == TestState(0)
  {
    TestInitial();
  }

  lemma TestMatched1(vle: seq<VleRow<nat>>, course: seq<Moodle.CourseItem>)
    requires vle == TestVle && course == TestCourse
    ensures Matched(vle, course, 1) == TestState(1)
  {
    TestMatched0(vle, course);
    assert course[0].modname == "homepage";
    assert Candidates(course[0].modname) == ["homepage"] by {
      TestCandidates();
    }
    TestStep1();
  }

  lemma TestMatched2(vle: seq<VleRow<nat>>, course: seq<Moodle.CourseItem>)
    requires vle == TestVle && course == TestCourse
    ensures Matched(vle, course, 2) == TestState(2)
  {
    TestMatched1(vle, course);
    assert course[1].modname == "scorm";
    assert Candidates(course[1].modname) == ["sharedsubpage", "externalquiz", "htmlactivity"] by {
      TestCandidates();
    }
    TestStep2();
  }

  lemma TestMatched3(vle: seq<VleRow<nat>>, course: seq<Moodle.CourseItem>)
    requires vle == TestVle && course == TestCourse
    ensures Matched(vle, course, 3) == TestState(3)
  {
    TestMatched2(vle, course);
    assert course[2].modname == "page";
    assert Candidates(course[2].modname) == ["page", "subpage", "dualpane"] by {
      TestCandidates();
    }
    TestStep3();
  }

  lemma TestMatched4(vle: seq<VleRow<nat>>, course: seq<Moodle.CourseItem>)
    requires vle == TestVle && course == TestCourse
    ensures Matched(vle, course, 4) == TestState(4)
  {
    TestMatched3(vle, course);
    assert course[3].modname == "book";
    assert Candidates(course[3].modname) == ["oucontent"] by {
      TestCandidates();
    }
    TestStep4();
  }

  lemma TestMatched5(vle: seq<VleRow<nat>>, course: seq<Moodle.CourseItem>)
    requires vle == TestVle && course == TestCourse
    ensures Matched(vle, course, 5) == TestState(5)
  {
    TestMatched4(vle, course);
    assert course[4].modname == "scorm";
    assert Candidates(course[4].modname) == ["sharedsubpage", "externalquiz", "htmlactivity"] by {
      TestCandidates();
    }
    TestStep5();
  }

  lemma TestMatched6(vle: seq<VleRow<nat>>, course: seq<Moodle.CourseItem>)
    requires vle == TestVle && course == TestCourse
    ensures Matched(vle, course, 6) == TestState(6)
  {
    TestMatched5(vle, course);
    assert course[5].modname == "scorm";
    assert Candidates(course[5].modname) == ["sharedsubpage", "externalquiz", "htmlactivity"] by {
      TestCandidates();
    }
    TestStep6();
  }

  lemma TestMatched7(vle: seq<VleRow<nat>>, course: seq<Moodle.CourseItem>)
    requires vle == TestVle && course == TestCourse
    ensures Matched(vle, course, 7) == TestState(7)
  {
    TestMatched6(vle, course);
    assert course[6].modname == "book";
    assert Candidates(course[6].modname) == ["oucontent"] by {
      TestCandidates();
    }
    TestStep7();
  }

  /** The mapper test: positions 1 to 4 and 6 receive a site, the home page at position 0 and
      the third `scorm` item at position 5 stay unmapped, and site 4 (a `url`) is unused. The
      test labels its sites `o0` to `o5`; here they are the numbers 0 to 5. */
  lemma MapperTestScenario(vle: seq<VleRow<nat>>, course: seq<Moodle.CourseItem>)
    requires vle == TestVle && course == TestCourse
    ensures Matched(vle, course, |course|).binding
      == map[3 := 1, 2 := 2, 0 := 3, 1 := 4, 5 := 6]
  {
    TestMatched7(vle, course);
    TestFinal();
    assert |course| == 7;
  }

  lemma TestLast()
    ensures TestState(7) == MatchState(TestState(6).cursor["oucontent" := 2], TestState(6).binding[5 := 6])
  {
  }

  lemma TestFinal()
    ensures TestState(7).binding == map[3 := 1, 2 := 2, 0 := 3, 1 := 4, 5 := 6]
  {
  }
}
