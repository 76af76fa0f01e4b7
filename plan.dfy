/** The replay plan built when the simulator loads: the simulated students, the OULAD
    interactions on sites mapped to Moodle course positions, summed per student, position and
    day, and the length of a simulated day. */
module Plan {
  import opened Wrappers
  import Conf
  import Moodle
  import Oulad

  // ---------------------------------------------------------------------------------------
  // Sorted sequences of distinct numbers (the sorted index and columns of a pivot table)
  // ---------------------------------------------------------------------------------------

  predicate Increasing(xs: seq<int>) {
    forall i, j :: 0 <= i < j < |xs| ==> xs[i] < xs[j]
  }

  /** `xs` with `x` added at its place, unless it is there already. */
  function Insert(xs: seq<int>, x: int): (r: seq<int>)
    requires Increasing(xs)
    ensures Increasing(r)
    ensures forall y :: y in r <==> y in xs || y == x
  {
    if |xs| == 0 then [x]
    else if x < xs[0] then [x] + xs
    else if x == xs[0] then xs
    else
      var rest := Insert(xs[1..], x);
      assert forall y :: y in rest ==> xs[0] < y by {
        forall y | y in rest ensures xs[0] < y {
          if y in xs[1..] {
            var k :| 0 <= k < |xs[1..]| && xs[1..][k] == y;
            assert xs[k + 1] == y;
          }
        }
      }
      assert forall y :: y in xs <==> y == xs[0] || y in xs[1..] by {
        forall y | y in xs ensures y == xs[0] || y in xs[1..] {
          var k :| 0 <= k < |xs| && xs[k] == y;
          if k > 0 {
            assert xs[1..][k - 1] == y;
          }
        }
      }
      assert forall j :: 0 <= j < |rest| ==> xs[0] < rest[j] by {
        forall j | 0 <= j < |rest| ensures xs[0] < rest[j] {
          assert rest[j] in rest;
        }
      }
      [xs[0]] + rest
  }

  // ---------------------------------------------------------------------------------------
  // The tables
  // ---------------------------------------------------------------------------------------

  /** A row of `studentVle`: the clicks of a student on a site on a day. */
  datatype Interaction = Interaction(student: int, site: int, date: int, sumClick: int)

  /** The simulated students: the first `moodle_students` students of the module
      presentation (the settings guarantee a positive count). */
  function Students(settings: Conf.Settings, studentInfo: seq<Oulad.Row<Moodle.Student>>)
    : (students: seq<Moodle.Student>)
    requires settings.moodleStudents > 0
    ensures var all := Oulad.SelectDropped(studentInfo, settings.ouladCodeModule, settings.ouladCodePresentation);
      && |students| == (if |all| < settings.moodleStudents then |all| else settings.moodleStudents)
      && students == all[..|students|]
  {
    var all := Oulad.SelectDropped(studentInfo, settings.ouladCodeModule, settings.ouladCodePresentation);
    if |all| < settings.moodleStudents then all else all[..settings.moodleStudents]
  }

  function StudentIds(students: seq<Moodle.Student>): set<int> {
    set s | s in students :: s.id
  }

  /** The interactions of a set of students, in order. */
  function OfStudents(rows: seq<Interaction>, ids: set<int>): (r: seq<Interaction>)
    ensures forall x :: x in r <==> x in rows && x.student in ids
  {
    if |rows| == 0 then []
    else (if rows[0].student in ids then [rows[0]] else []) + OfStudents(rows[1..], ids)
  }

  /** Selecting the interactions of a set of students distributes over concatenation, so
      every matching row is kept once for each time it occurs, in order. */
  lemma {:induction false} OfStudentsAppend(a: seq<Interaction>, b: seq<Interaction>, ids: set<int>)
    ensures OfStudents(a + b, ids) == OfStudents(a, ids) + OfStudents(b, ids)
  {
    if |a| == 0 {
      assert a + b == b;
    } else {
      assert (a + b)[0] == a[0];
      assert (a + b)[1..] == a[1..] + b;
      OfStudentsAppend(a[1..], b, ids);
    }
  }

  /** One interaction is kept, once, exactly when it is a simulated student's. */
  lemma OfStudentsSingle(r: Interaction, ids: set<int>)
    ensures OfStudents([r], ids) == if r.student in ids then [r] else []
  {
    assert [r][1..] == [];
  }

  /** The presentation's interactions of the simulated students (the right join of the
      interactions with the students' index). */
  function StudentVle(settings: Conf.Settings, studentVleTable: seq<Oulad.Row<Interaction>>,
                      students: seq<Moodle.Student>): seq<Interaction>
  {
    OfStudents(Oulad.SelectDropped(studentVleTable, settings.ouladCodeModule, settings.ouladCodePresentation),
               StudentIds(students))
  }

  function ClickedSites(rows: seq<Interaction>): set<int> {
    set r | r in rows :: r.site
  }

  /** The activities of a set of sites, in order. */
  function OfSites(vle: seq<Oulad.VleRow<int>>, sites: set<int>): (r: seq<Oulad.VleRow<int>>)
    ensures forall x :: x in r <==> x in vle && x.site in sites
  {
    if |vle| == 0 then []
    else (if vle[0].site in sites then [vle[0]] else []) + OfSites(vle[1..], sites)
  }

  /** Selecting the activities of a set of sites distributes over concatenation. */
  lemma {:induction false} OfSitesAppend(a: seq<Oulad.VleRow<int>>, b: seq<Oulad.VleRow<int>>, sites: set<int>)
    ensures OfSites(a + b, sites) == OfSites(a, sites) + OfSites(b, sites)
  {
    if |a| == 0 {
      assert a + b == b;
    } else {
      assert (a + b)[0] == a[0];
      assert (a + b)[1..] == a[1..] + b;
      OfSitesAppend(a[1..], b, sites);
    }
  }

  /** One activity is kept, once, exactly when its site was clicked. */
  lemma OfSitesSingle(x: Oulad.VleRow<int>, sites: set<int>)
    ensures OfSites([x], sites) == if x.site in sites then [x] else []
  {
    assert [x][1..] == [];
  }

  /** The presentation's activities that some simulated student clicked. */
  function PlanVle(settings: Conf.Settings, vleTable: seq<Oulad.Row<Oulad.VleRow<int>>>,
                   studentVle: seq<Interaction>): seq<Oulad.VleRow<int>>
  {
    OfSites(Oulad.SelectDropped(vleTable, settings.ouladCodeModule, settings.ouladCodePresentation),
            ClickedSites(studentVle))
  }

  // ---------------------------------------------------------------------------------------
  // The pivot table of clicks
  // ---------------------------------------------------------------------------------------

  /** An interaction on a mapped site, the site replaced by its course position. */
  datatype Click = Click(student: int, position: nat, date: int, count: int)

  /** A cell of the pivot table: student and position index the row, the date the column. */
  datatype Cell = Cell(student: int, position: int, date: int)

  function CellOf(c: Click): Cell {
    Cell(c.student, c.position, c.date)
  }

  /** The interactions whose site is mapped, with the site replaced by its position; the
      others are dropped. */
  function Kept(rows: seq<Interaction>, mapping: map<int, nat>): (kept: seq<Click>)
    ensures |kept| <= |rows|
    ensures forall c :: c in kept ==> exists r :: r in rows && r.site in mapping && c == ClickOf(r, mapping)
    ensures forall r :: r in rows && r.site in mapping ==> ClickOf(r, mapping) in kept
  {
    if |rows| == 0 then []
    else
      var r := rows[0];
      var rest := Kept(rows[1..], mapping);
      assert forall x :: x in rows[1..] ==> x in rows;
      (if r.site in mapping then [ClickOf(r, mapping)] else []) + rest
  }

  function ClickOf(r: Interaction, mapping: map<int, nat>): Click
    requires r.site in mapping
  {
    Click(r.student, mapping[r.site], r.date, r.sumClick)
  }

  /** Keeping the mapped interactions distributes over concatenation: nothing is reordered,
      merged or deduplicated. */
  lemma {:induction false} KeptAppend(a: seq<Interaction>, b: seq<Interaction>, mapping: map<int, nat>)
    ensures Kept(a + b, mapping) == Kept(a, mapping) + Kept(b, mapping)
  {
    if |a| == 0 {
      assert a + b == b;
    } else {
      assert (a + b)[0] == a[0];
      assert (a + b)[1..] == a[1..] + b;
      KeptAppend(a[1..], b, mapping);
    }
  }

  /** A single interaction is kept, as its click, exactly when its site is mapped. */
  lemma KeptSingle(r: Interaction, mapping: map<int, nat>)
    ensures Kept([r], mapping) == if r.site in mapping then [ClickOf(r, mapping)] else []
  {
    assert [r][1..] == [];
  }

  /** An interaction falls in `cell` once its site is replaced by its position. */
  predicate InCell(r: Interaction, mapping: map<int, nat>, cell: Cell) {
    r.site in mapping && Cell(r.student, mapping[r.site], r.date) == cell
  }

  /** The reference sum over the interactions themselves: the clicks of those whose mapped
      cell is `cell`; interactions on unmapped sites count nothing. */
  function RowClicks(rows: seq<Interaction>, mapping: map<int, nat>, cell: Cell): int {
    if |rows| == 0 then 0
    else (if InCell(rows[0], mapping, cell) then rows[0].sumClick else 0) + RowClicks(rows[1..], mapping, cell)
  }

  /** The reference sum: the clicks of the kept interactions that fall in `cell`. */
  function Clicks(kept: seq<Click>, cell: Cell): int {
    if |kept| == 0 then 0
    else Clicks(kept[..|kept| - 1], cell) + (if CellOf(kept[|kept| - 1]) == cell then kept[|kept| - 1].count else 0)
  }

  /** A cell's value, 0 where no interaction falls (the pivot's fill value). */
  function Read(pivot: map<Cell, int>, cell: Cell): int {
    if cell in pivot then pivot[cell] else 0
  }

  /** The pivot table with sum aggregation, built row by row: each row adds its clicks to its
      cell. */
  function Pivot(kept: seq<Click>): map<Cell, int> {
    if |kept| == 0 then map[]
    else
      var pivot := Pivot(kept[..|kept| - 1]);
      var c := kept[|kept| - 1];
      pivot[CellOf(c) := Read(pivot, CellOf(c)) + c.count]
  }

  /** Every cell of the pivot holds the sum of the clicks that fall in it, never just the last
      of them, and a cell no interaction falls in reads 0. */
  lemma {:induction false} PivotSums(kept: seq<Click>, cell: Cell)
    ensures Read(Pivot(kept), cell) == Clicks(kept, cell)
    ensures cell in Pivot(kept) <==> exists c :: c in kept && CellOf(c) == cell
  {
    if |kept| > 0 {
      var init := kept[..|kept| - 1];
      PivotSums(init, cell);
      assert forall c :: c in kept <==> c in init || c == kept[|kept| - 1] by {
        assert kept == init + [kept[|kept| - 1]];
      }
    }
  }

  /** The clicks falling in a cell add up over a concatenation. */
  lemma {:induction false} ClicksAppend(a: seq<Click>, b: seq<Click>, cell: Cell)
    ensures Clicks(a + b, cell) == Clicks(a, cell) + Clicks(b, cell)
  {
    if |b| == 0 {
      assert a + b == a;
    } else {
      var init := b[..|b| - 1];
      assert (a + b)[..|a + b| - 1] == a + init;
      assert (a + b)[|a + b| - 1] == b[|b| - 1];
      ClicksAppend(a, init, cell);
    }
  }

  /** Dropping the unmapped interactions and renaming sites to positions loses no click of a
      cell. */
  lemma {:induction false} KeptClicks(rows: seq<Interaction>, mapping: map<int, nat>, cell: Cell)
    ensures Clicks(Kept(rows, mapping), cell) == RowClicks(rows, mapping, cell)
  {
    if |rows| > 0 {
      var r := rows[0];
      var head: seq<Click> := if r.site in mapping then [ClickOf(r, mapping)] else [];
      assert Kept(rows, mapping) == head + Kept(rows[1..], mapping);
      ClicksAppend(head, Kept(rows[1..], mapping), cell);
      KeptClicks(rows[1..], mapping, cell);
      if r.site in mapping {
        assert head[..0] == [];
      }
    }
  }

  /** The pivot table of the kept interactions holds, in every cell, the sum of the clicks of
      the interactions mapped to that cell, and 0 where none is. */
  lemma KeptPivot(rows: seq<Interaction>, mapping: map<int, nat>, cell: Cell)
    ensures Read(Pivot(Kept(rows, mapping)), cell) == RowClicks(rows, mapping, cell)
  {
    PivotSums(Kept(rows, mapping), cell);
    KeptClicks(rows, mapping, cell);
  }

  /** Two interactions of a student on sites mapped to the same position on the same day add
      up. */
  lemma PivotExample()
    ensures Read(Pivot([Click(7, 1, 3, 3), Click(7, 1, 3, 4)]), Cell(7, 1, 3)) == 7
    ensures Read(Pivot([Click(7, 1, 3, 3), Click(7, 1, 3, 4)]), Cell(7, 2, 3)) == 0
  {
    var kept := [Click(7, 1, 3, 3), Click(7, 1, 3, 4)];
    assert kept[..1] == [Click(7, 1, 3, 3)];
    assert kept[..1][..0] == [];
  }

  // ---------------------------------------------------------------------------------------
  // Index, columns and per-student plans
  // ---------------------------------------------------------------------------------------

  /** The columns of the pivot: the days with at least one kept interaction, in order. */
  function Days(kept: seq<Click>): (days: seq<int>)
    ensures Increasing(days)
    ensures forall d :: d in days <==> exists c :: c in kept && c.date == d
  {
    if |kept| == 0 then []
    else
      var init := kept[..|kept| - 1];
      assert forall c :: c in kept <==> c in init || c == kept[|kept| - 1] by {
        assert kept == init + [kept[|kept| - 1]];
      }
      Insert(Days(init), kept[|kept| - 1].date)
  }

  /** The students of the pivot's index: those with at least one kept interaction. */
  function ActiveStudents(kept: seq<Click>): set<int> {
    set c | c in kept :: c.student
  }

  /** The positions of a student's rows of the pivot, in order. */
  function Positions(kept: seq<Click>, student: int): (positions: seq<int>)
    ensures Increasing(positions)
    ensures forall p :: p in positions <==> exists c :: c in kept && c.student == student && c.position == p
  {
    if |kept| == 0 then []
    else
      var init := kept[..|kept| - 1];
      var c := kept[|kept| - 1];
      assert forall x :: x in kept <==> x in init || x == c by {
        assert kept == init + [c];
      }
      var before := Positions(init, student);
      if c.student == student then Insert(before, c.position) else before
  }

  /** One burst of a day: `count` requests to the item at `position`. */
  datatype Burst = Burst(position: int, count: int)

  /** A day of a student's plan. */
  datatype DayPlan = DayPlan(date: int, bursts: seq<Burst>)

  /** The bursts of student `student` on day `date`: each of its positions with a positive
      cell, in position order. */
  function Bursts(pivot: map<Cell, int>, positions: seq<int>, student: int, date: int): (bursts: seq<Burst>)
    ensures forall b :: b in bursts <==>
      b.position in positions && b.count == Read(pivot, Cell(student, b.position, date)) && b.count > 0
    ensures forall k :: 0 <= k < |bursts| ==> bursts[k].count > 0
    ensures |bursts| <= |positions|
  {
    if |positions| == 0 then []
    else
      var p := positions[0];
      var rest := Bursts(pivot, positions[1..], student, date);
      assert forall q :: q in positions <==> q == p || q in positions[1..] by {
        assert positions == [p] + positions[1..];
      }
      var n := Read(pivot, Cell(student, p, date));
      (if n > 0 then [Burst(p, n)] else []) + rest
  }

  /** The plan of one student: every day of the pivot's columns, in order, with the
      student's bursts of that day (`moodle_vle.loc[username]` read column by column). */
  function UserPlan(kept: seq<Click>, student: int): (plan: seq<DayPlan>)
    ensures |plan| == |Days(kept)|
    ensures forall k :: 0 <= k < |plan| ==> plan[k].date == Days(kept)[k]
  {
    var days := Days(kept);
    var positions := Positions(kept, student);
    var pivot := Pivot(kept);
    seq(|days|, k requires 0 <= k < |days| => DayPlan(days[k], Bursts(pivot, positions, student, days[k])))
  }

  /** A day of a student's plan requests exactly the positions where the reference sum of
      the student's clicks that day is positive, that many times each. */
  lemma UserPlanClicks(kept: seq<Click>, student: int, k: nat, b: Burst)
    requires k < |Days(kept)|
    ensures b in UserPlan(kept, student)[k].bursts <==>
      && (exists c :: c in kept && c.student == student && c.position == b.position)
      && b.count == Clicks(kept, Cell(student, b.position, Days(kept)[k]))
      && b.count > 0
  {
    PivotSums(kept, Cell(student, b.position, Days(kept)[k]));
  }

  predicate InPositionOrder(bursts: seq<Burst>) {
    forall i, j :: 0 <= i < j < |bursts| ==> bursts[i].position < bursts[j].position
  }

  /** The bursts of a day come in position order. */
  lemma {:induction false} BurstsInOrder(pivot: map<Cell, int>, positions: seq<int>, student: int, date: int)
    requires Increasing(positions)
    ensures InPositionOrder(Bursts(pivot, positions, student, date))
  {
    if |positions| > 0 {
      var p := positions[0];
      var rest := Bursts(pivot, positions[1..], student, date);
      BurstsInOrder(pivot, positions[1..], student, date);
      var n := Read(pivot, Cell(student, p, date));
      if n > 0 {
        forall j | 0 <= j < |rest| ensures p < rest[j].position {
          assert rest[j] in rest;
          var k :| 0 <= k < |positions[1..]| && positions[1..][k] == rest[j].position;
          assert positions[k + 1] == rest[j].position;
        }
        BurstsCons(Burst(p, n), rest);
      }
    }
  }

  lemma BurstsCons(b: Burst, rest: seq<Burst>)
    requires forall j :: 0 <= j < |rest| ==> b.position < rest[j].position
    requires InPositionOrder(rest)
    ensures InPositionOrder([b] + rest)
  {
    var bursts := [b] + rest;
    forall i, j | 0 <= i < j < |bursts| ensures bursts[i].position < bursts[j].position {
      if i == 0 {
        assert bursts[j] == rest[j - 1];
      } else {
        assert bursts[i] == rest[i - 1] && bursts[j] == rest[j - 1];
      }
    }
  }

  /** The clicks of all students on a day: the day's column sum. */
  function DayTotal(kept: seq<Click>, date: int): int {
    if |kept| == 0 then 0
    else DayTotal(kept[..|kept| - 1], date) + (if kept[|kept| - 1].date == date then kept[|kept| - 1].count else 0)
  }

  /** The largest day total over `days`; none for no days. */
  function MaxTotal(kept: seq<Click>, days: seq<int>): (m: Option<int>)
    ensures m.None? <==> |days| == 0
    ensures m.Some? ==> (exists k :: 0 <= k < |days| && DayTotal(kept, days[k]) == m.value)
    ensures m.Some? ==> forall k :: 0 <= k < |days| ==> DayTotal(kept, days[k]) <= m.value
  {
    if |days| == 0 then None
    else
      var rest := MaxTotal(kept, days[1..]);
      var here := DayTotal(kept, days[0]);
      if rest.None? then Some(here)
      else
        var best := if here >= rest.value then here else rest.value;
        assert forall k :: 1 <= k < |days| ==> DayTotal(kept, days[k]) <= rest.value by {
          forall k | 1 <= k < |days| ensures DayTotal(kept, days[k]) <= rest.value {
            assert days[k] == days[1..][k - 1];
          }
        }
        assert exists k :: 0 <= k < |days| && DayTotal(kept, days[k]) == best by {
          if here < rest.value {
            var k :| 0 <= k < |days[1..]| && DayTotal(kept, days[1..][k]) == rest.value;
            assert days[k + 1] == days[1..][k];
          } else {
            assert DayTotal(kept, days[0]) == best;
          }
        }
        Some(best)
  }

  /** The length of a simulated day in milliseconds: the busiest day's clicks times the
      duration of one request. None when the plan has no day. */
  function DayDurationMs(kept: seq<Click>, requestMilliseconds: int): (r: Option<int>)
    ensures r.None? <==> |Days(kept)| == 0
    ensures r.Some? ==>
      exists k :: && 0 <= k < |Days(kept)|
                  && r.value == DayTotal(kept, Days(kept)[k]) * requestMilliseconds
                  && (forall j :: 0 <= j < |Days(kept)| ==> DayTotal(kept, Days(kept)[j]) <= DayTotal(kept, Days(kept)[k]))
  {
    match MaxTotal(kept, Days(kept))
    case None => None
    case Some(m) => Some(m * requestMilliseconds)
  }

  // ---------------------------------------------------------------------------------------
  // The whole plan
  // ---------------------------------------------------------------------------------------

  /** The OULAD tables the simulator reads. */
  datatype Tables = Tables(
    studentInfo: seq<Oulad.Row<Moodle.Student>>,
    studentVle: seq<Oulad.Row<Interaction>>,
    vle: seq<Oulad.Row<Oulad.VleRow<int>>>)

  /** What the simulator computes when it loads. */
  datatype ReplayPlan = ReplayPlan(
    students: seq<Moodle.Student>,
    course: seq<Moodle.CourseItem>,
    mapping: map<int, nat>,
    kept: seq<Click>,
    days: seq<int>,
    active: set<int>,
    dayDurationMs: Option<int>)

  function BuildPlan(settings: Conf.Settings, tables: Tables, fetched: seq<Moodle.CourseItem>): (plan: ReplayPlan)
    requires settings.moodleStudents > 0
    ensures plan.students == Students(settings, tables.studentInfo)
    ensures plan.course == Moodle.MoodleCourse(settings, fetched)
    ensures plan.mapping == Oulad.Matched(PlanVle(settings, tables.vle, StudentVle(settings, tables.studentVle, plan.students)),
                                          plan.course, |plan.course|).binding
    ensures plan.kept == Kept(StudentVle(settings, tables.studentVle, plan.students), plan.mapping)
    ensures plan.days == Days(plan.kept) && plan.active == ActiveStudents(plan.kept)
    ensures plan.dayDurationMs == DayDurationMs(plan.kept, settings.requestMillisecondsDuration)
  {
    var students := Students(settings, tables.studentInfo);
    var studentVle := StudentVle(settings, tables.studentVle, students);
    var vle := PlanVle(settings, tables.vle, studentVle);
    var course := Moodle.MoodleCourse(settings, fetched);
    var mapping := Oulad.Matched(vle, course, |course|).binding;
    var kept := Kept(studentVle, mapping);
    ReplayPlan(students, course, mapping, kept, Days(kept), ActiveStudents(kept),
               DayDurationMs(kept, settings.requestMillisecondsDuration))
  }

  /** Every cell of the plan's pivot holds the clicks of the simulated students' interactions
      in the presentation that the mapping sends to that cell. */
  lemma PlanCells(settings: Conf.Settings, tables: Tables, fetched: seq<Moodle.CourseItem>, cell: Cell)
    requires settings.moodleStudents > 0
    ensures var plan := BuildPlan(settings, tables, fetched);
      Read(Pivot(plan.kept), cell) == RowClicks(StudentVle(settings, tables.studentVle, plan.students), plan.mapping, cell)
  {
    var plan := BuildPlan(settings, tables, fetched);
    KeptPivot(StudentVle(settings, tables.studentVle, plan.students), plan.mapping, cell);
  }

  /** The active students are simulated students, at most `moodle_students` of them. */
  lemma ActiveAreStudents(settings: Conf.Settings, tables: Tables, fetched: seq<Moodle.CourseItem>)
    requires settings.moodleStudents > 0
    ensures var plan := BuildPlan(settings, tables, fetched);
      plan.active <= StudentIds(plan.students) && |plan.students| <= settings.moodleStudents
  {
    var plan := BuildPlan(settings, tables, fetched);
    var studentVle := StudentVle(settings, tables.studentVle, plan.students);
    forall s | s in plan.active ensures s in StudentIds(plan.students) {
      var c :| c in plan.kept && c.student == s;
      var r :| r in studentVle && r.site in plan.mapping && c == ClickOf(r, plan.mapping);
    }
  }

  /** Every kept click points at an item of the course, so the request URL lookup is in
      range. */
  lemma KeptPositionsInCourse(settings: Conf.Settings, tables: Tables, fetched: seq<Moodle.CourseItem>)
    requires settings.moodleStudents > 0
    ensures var plan := BuildPlan(settings, tables, fetched);
      forall c :: c in plan.kept ==> c.position < |plan.course|
  {
    var plan := BuildPlan(settings, tables, fetched);
    var students := plan.students;
    var studentVle := StudentVle(settings, tables.studentVle, students);
    var vle := PlanVle(settings, tables.vle, studentVle);
    Oulad.MatchedPositions(vle, plan.course, |plan.course|);
  }
}
