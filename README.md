# swarmoodle, modelled in Dafny

Swarmoodle is a load simulator for a Moodle site. It replays the activity of students from the
Open University Learning Analytics Dataset (OULAD). At load time it does these things:

- selects one module presentation of the dataset;
- maps the dataset's activity sites onto the items of a Moodle course;
- pivots each student's clicks into a day-by-day plan of request bursts.

It then provisions Moodle users through the web-service API. It also spawns one simulated user
per student. Each user logs in, waits at a login barrier, and replays its days. Between days it
waits at a barrier of per-day counters held in a shared counter store. At the end it logs out.
A companion "hook" HTTP service reshapes Moodle's web-service replies for the simulator. The
reshaping rewrites URLs to the configured Moodle address, keeps only visible items, answers
quizzes and strips CDATA sections.

The model has eight modules:

- `Wrappers`: `Option` and `Result`.
- `Text`: decimal rendering of integers, as Python's `str` writes them.
- `Conf`: the simulator's settings:
  - the field bounds;
  - the check that the module ran in the chosen presentation;
  - the web-service endpoint.
- `Oulad`: the selection of one module presentation, and the greedy site-to-item matcher.
  The matcher is a method with the source's nested loops, proved equal to a fold `Matched`.
  Its properties are lemmas about that fold.
- `Moodle`:
  - the course list with its prepended home page;
  - the four web-service payload builders. These are methods with the source's loops, each
    proved to build exactly the form Moodle is sent.
- `Plan`: the replay plan built when the simulator loads:
  - the students;
  - the joins;
  - the pivot with sum aggregation;
  - the days;
  - the per-user bursts;
  - the day duration.
- `Swarm`: the simulation as a state machine:
  - the counter store with atomic increments;
  - the counter reset of `on_test_start`;
  - the classification of `on_start`;
  - one step of `navigate` as the function `Next`;
  - a class `Simulation` whose methods change the shared store, the spawned users and the
    issued requests in place.

  An invariant `Inv` says that each counter holds the number of users that have passed it.
  Every step preserves `Inv`, and the barrier properties follow from it.
- `Hook`: the reshaping done by the hook service:
  - URL patching over a model of `urlsplit`/`urlunsplit`;
  - the site, course-list and course-contents views;
  - the quiz call sequence;
  - CDATA stripping;
  - the list-wrapping of forwarded statements.

## Model

| member | source | states |
|---|---|---|
| Text.NatToString | swarmoodle/swarmoodle/moodle.py:83 | the rendering is a non-empty string of digits; it has one digit exactly for numbers below 10, and its last digit is the number modulo 10 |
| Text.IntToString | swarmoodle/swarmoodle/moodle.py:83 | a non-negative integer renders as its digits; a negative one renders as `-` followed by the digits of its absolute value |
| Text.NatToStringInjective | swarmoodle/swarmoodle/moodle.py:83 | two naturals with the same rendering are equal |
| Text.IntToStringInjective | swarmoodle/swarmoodle/moodle.py:83 | two integers with the same rendering are equal, so ids render to distinct usernames and e-mail addresses |
| Conf.FieldErrorsEmpty | swarmoodle/swarmoodle/conf.py:72-93 | no field error is reported exactly when all of these hold: course id > 0; students > 0; password of at least 8 characters; role id > 0; module and presentation among the allowed literals; timeout >= 0; request duration >= 0 |
| Conf.FieldErrorsAreFieldErrors | swarmoodle/swarmoodle/conf.py:72-93 | the field check never reports a combination error |
| Conf.Render | swarmoodle/swarmoodle/moodle.py:30 | the text of a URL starts with its scheme and its origin, then `/`, then the path |
| Conf.RenderDefaultMoodle | swarmoodle/swarmoodle/conf.py:74-76 | the default Moodle URL renders as `http://moodle/`: a trailing slash is added and the default port is not written |
| Conf.RenderDefaultHook | swarmoodle/swarmoodle/conf.py:25 | the default hook URL renders as `http://hook:8000/`, with its port |
| Conf.Validate | swarmoodle/swarmoodle/conf.py:108-128 | the settings are accepted exactly when there is no field error and the module ran in the presentation; accepted settings are unchanged; with field errors those are the errors; otherwise the single error names the module and its sorted list of allowed presentations |
| Conf.SortedAllowedIsSortedSet | swarmoodle/swarmoodle/conf.py:119-127 | the list in the combination error is strictly sorted and holds exactly the presentations the module ran in |
| Conf.PresentationsKnown | swarmoodle/swarmoodle/conf.py:112-120 | every presentation a module ran in is one of the four presentations |
| Conf.DefaultsAreValid | swarmoodle/swarmoodle/conf.py:72-94 | the default settings are accepted as they are; they have one student and 400 ms per request |
| Conf.NegativeStudentsRejected | swarmoodle/swarmoodle/conf.py:77-79 | a negative number of students gives exactly the one "greater than 0" error on `moodle_students` |
| Conf.RequestDurationBound | swarmoodle/swarmoodle/conf.py:93 | a request duration of 0 is accepted; -1 gives exactly the one "greater or equal 0" error |
| Conf.AaaPresentations | swarmoodle/swarmoodle/conf.py:112-113 | module AAA's sorted presentations are 2013J and 2014J |
| Conf.AaaCombinationRejected | swarmoodle/swarmoodle/conf.py:121-127 | AAA with 2014B is refused with the error listing ['2013J', '2014J'] |
| Conf.CccCombinationAccepted | swarmoodle/swarmoodle/conf.py:111-128 | CCC with 2014B is accepted |
| Conf.MoodleWsUrl | swarmoodle/swarmoodle/conf.py:96-106 | the endpoint has the Moodle URL's scheme, host and port; its text is that origin followed by `/webservice/rest/server.php` |
| Conf.WsUrlIgnoresPath | swarmoodle/swarmoodle/conf.py:96-106 | any path of the Moodle URL gives the same endpoint |
| Conf.WsUrlExample | swarmoodle/swarmoodle/conf.py:96-106 | `http://foo` gives `http://foo/webservice/rest/server.php` |
| Moodle.MoodleCourse | swarmoodle/swarmoodle/moodle.py:21-36 | the course is one item longer than the fetched list; its first item is the home page (id 0, instance 0, modname `homepage`, no contents); item k+1 is fetched item k unchanged |
| Moodle.MoodleCourseTail | swarmoodle/swarmoodle/moodle.py:31-36 | dropping the first item gives back the fetched list, so nothing else is added or changed |
| Moodle.CourseExample | swarmoodle/tests/test_moodle.py:23-43 | for hook `http://hook/` and course 10, the request URL is `http://hook/courses/10?html=0` and the course is the home page at `http://moodle/` followed by the two fetched items |
| Moodle.WsBase | swarmoodle/swarmoodle/moodle.py:44-47 | every call carries exactly the token, the JSON response format and its function name |
| Moodle.GetUsersByUsernamesPayload | swarmoodle/swarmoodle/moodle.py:44-51 | the form holds exactly the base keys, `field` and one `values[i]` per username; `field` is `username` and `values[i]` is the i-th username |
| Moodle.ValuesKeyText | swarmoodle/swarmoodle/moodle.py:49-50 | the lookup keys render as `values[0]`, `values[1]` |
| Moodle.DeleteUsersPayload | swarmoodle/swarmoodle/moodle.py:115-130 | the form holds exactly the base keys and one `userids[i]` per user, holding the i-th user's id |
| Moodle.EnrolmentKeys | swarmoodle/swarmoodle/moodle.py:141-144 | the enrolment keys of n users are, for each i < n, exactly the `roleid`, `userid` and `courseid` keys |
| Moodle.EnrollUsersPayload | swarmoodle/swarmoodle/moodle.py:133-150 | the form holds exactly the base keys and three keys per user: user i's `roleid` is the configured student role, its `courseid` is the configured course, and its `userid` is the i-th user's id |
| Moodle.EnrolRound | swarmoodle/swarmoodle/moodle.py:142-144 | one loop round adds user i's enrolment and keeps the first i as they were |
| Moodle.NameKindOf | swarmoodle/swarmoodle/moodle.py:72-76 | the female name generators are used exactly for gender `F` |
| Moodle.EmailInjective | swarmoodle/swarmoodle/moodle.py:83 | distinct students get distinct e-mail addresses |
| Moodle.ExpectedCustom | swarmoodle/swarmoodle/moodle.py:87-104 | custom field j has the j-th type (gender, region, highest_education, imd_band, age_band, num_of_prev_attempts, studied_credits, disability, final_result) and the student's value for it |
| Moodle.CustomKeysMembers | swarmoodle/swarmoodle/moodle.py:87-104 | the custom keys of a user are exactly a `type` and a `value` key for each field index below the count |
| Moodle.UserKeysOwned | swarmoodle/swarmoodle/moodle.py:78-104 | every key posted for user i lies under `users[i]`, so users do not overwrite each other |
| Moodle.UserPostedFrame | swarmoodle/swarmoodle/moodle.py:71-104 | what was posted for a user survives any change to keys that are not its own |
| Moodle.WithUserPosted | swarmoodle/swarmoodle/moodle.py:77-104 | writing a user's plain and custom fields posts that user as the source does |
| Moodle.CreateStep | swarmoodle/swarmoodle/moodle.py:71-104 | adding user i keeps the base keys and the first i users as posted |
| Moodle.CreateUsersPayload | swarmoodle/swarmoodle/moodle.py:62-112 | the form holds exactly the base keys and the keys of each student. Student i is posted with: `createpassword` 0; its OULAD id as username; the configured password; generated names; e-mail `<id>@gmail.com`; GB; Europe/London; the institution; and its nine custom fields |
| Moodle.CreateRound | swarmoodle/swarmoodle/moodle.py:71-104 | one loop round adds student i and keeps the first i as posted |
| Moodle.AddUser | swarmoodle/swarmoodle/moodle.py:72-104 | the round adds exactly user i's keys, changes no other key, and leaves user i posted as the source posts the student. The names come from the generators its gender selects |
| Moodle.AddPlainFields | swarmoodle/swarmoodle/moodle.py:78-86 | the nine plain fields of user i are written as `WithPlainFields` describes them |
| Moodle.AddCustomFields | swarmoodle/swarmoodle/moodle.py:87-104 | the nine custom fields of user i are written, by a loop over the fixed type order |
| Oulad.Select | swarmoodle/swarmoodle/oulad.py:77-80 | the selected rows are exactly the rows of the module presentation, no more of them than the table has |
| Oulad.SelectDropped | swarmoodle/swarmoodle/oulad.py:81-82 | as many rows as the selection, row k being the k-th selected row without its two key columns |
| Oulad.FilterByModulePresentation | swarmoodle/swarmoodle/oulad.py:61-84 | the key columns are dropped exactly when `drop` is set. Without `drop` the rows are exactly the matching rows. With `drop` the values are exactly the other columns of matching rows |
| Oulad.SelectAppend | swarmoodle/swarmoodle/oulad.py:77-80 | the selection keeps row order: selecting from two tables in turn is selecting from their concatenation |
| Oulad.SelectIdempotent | swarmoodle/swarmoodle/oulad.py:77-80 | selecting twice is selecting once |
| Oulad.SelectAllMatching | swarmoodle/swarmoodle/oulad.py:77-80 | a table of one module presentation is kept whole |
| Oulad.FilterExample | swarmoodle/tests/test_oulad.py:34-45 | of AAA/2013J, AAA/2014J and BBB/2013J, only the AAA/2013J row is kept (whole without `drop`, as its single remaining column with it) |
| Oulad.Candidates | swarmoodle/swarmoodle/oulad.py:89-108 | a modname has candidate types exactly when the table knows it, and never more than three |
| Oulad.Group | swarmoodle/swarmoodle/oulad.py:109 | every site of an activity group is a site of that activity type |
| Oulad.DistinctSitesPairwise | swarmoodle/swarmoodle/oulad.py:109 | the recursive distinctness of site labels is pairwise distinctness |
| Oulad.FirstAvailable | swarmoodle/swarmoodle/oulad.py:113-116 | the chosen type is, in preference order, the first candidate with an unused site; none is chosen exactly when no candidate has one |
| Oulad.FirstAvailableIsFirst | swarmoodle/swarmoodle/oulad.py:113-116 | the first candidate with an unused site is the one chosen |
| Oulad.GroupSites | swarmoodle/swarmoodle/oulad.py:109-110 | each type's group is its sites in table order, and every cursor starts at 0 |
| Oulad.MatchItem | swarmoodle/swarmoodle/oulad.py:113-119 | one round of the outer loop makes the step of the fold: it binds the next unused site of the first available candidate type to the item's position, or changes nothing |
| Oulad.MapOuladToMoodle | swarmoodle/swarmoodle/oulad.py:87-132 | the map the nested loops build is the fold `Matched` over all course items |
| Oulad.MatchedCursorKeys | swarmoodle/swarmoodle/oulad.py:110 | the matcher keeps a cursor for exactly the activity types of the table |
| Oulad.MatchedCursorBound | swarmoodle/swarmoodle/oulad.py:113-118 | no cursor passes the end of its group |
| Oulad.MatchedPositions | swarmoodle/swarmoodle/oulad.py:112-119 | every bound position is that of an item already visited, hence inside the course |
| Oulad.MatchedInjective | swarmoodle/swarmoodle/oulad.py:112-119 | no two sites are bound to the same item |
| Oulad.MatchedSites | swarmoodle/swarmoodle/oulad.py:117 | only sites of the table are bound |
| Oulad.MatchedCount | swarmoodle/swarmoodle/oulad.py:112-119 | no more sites are bound than there are items, nor than there are table rows |
| Oulad.GroupDistinct | swarmoodle/swarmoodle/oulad.py:109 | with distinct site labels, no site stands in two groups or twice in one |
| Oulad.MatchedConsumed | swarmoodle/swarmoodle/oulad.py:113-119 | with distinct labels, the bound sites of each type are exactly the first `cursor` sites of its group, bound to increasing positions |
| Oulad.MatchedPosition | swarmoodle/swarmoodle/oulad.py:113-119 | with distinct labels, an item receives a site exactly when, at its turn, some candidate type of its modname still has an unused site |
| Oulad.AbsentTypeUnused | swarmoodle/swarmoodle/oulad.py:114-115 | a type absent from the table is never available |
| Oulad.UnknownModnameUnmapped | swarmoodle/swarmoodle/oulad.py:113 | an item whose modname the table does not know is never bound |
| Oulad.QuestionnaireShared | swarmoodle/swarmoodle/oulad.py:100-102 | feedback, survey and choice items all draw on the questionnaire sites |
| Oulad.MapperTestScenario | swarmoodle/tests/test_oulad.py:48-79 | on the mapper fixture (items homepage, scorm, page, book, scorm, scorm, book; sites oucontent, externalquiz, page, sharedsubpage, url, oucontent), the map is o3→1, o2→2, o0→3, o1→4, o5→6: the home page and the third scorm item stay unmapped and the url site is unused |
| Plan.Insert | swarmoodle/swarmoodle/locustfile.py:72-83 | inserting into an increasing list keeps it increasing, adds exactly the new value, and adds no duplicate |
| Plan.Students | swarmoodle/swarmoodle/locustfile.py:47-53 | the simulated students are the first `moodle_students` students of the module presentation, or all of them when fewer exist |
| Plan.OfStudents | swarmoodle/swarmoodle/locustfile.py:54-60 | the interactions kept are exactly those of the simulated students |
| Plan.OfStudentsSingle | swarmoodle/swarmoodle/locustfile.py:54-60 | one interaction is kept, once, exactly when it belongs to a simulated student |
| Plan.OfStudentsAppend | swarmoodle/swarmoodle/locustfile.py:54-60 | selecting by student distributes over concatenation, so order and repeated rows are kept |
| Plan.OfSites | swarmoodle/swarmoodle/locustfile.py:61-68 | the activities kept are exactly those of the clicked sites |
| Plan.OfSitesSingle | swarmoodle/swarmoodle/locustfile.py:61-68 | one activity is kept, once, exactly when its site was clicked |
| Plan.OfSitesAppend | swarmoodle/swarmoodle/locustfile.py:61-68 | selecting by site distributes over concatenation, so order and repeated rows are kept |
| Plan.Kept | swarmoodle/swarmoodle/locustfile.py:72-75 | every interaction on a mapped site gives one click at the site's position; nothing else is kept; there are no more clicks than interactions |
| Plan.KeptAppend | swarmoodle/swarmoodle/locustfile.py:72-75 | keeping the mapped interactions distributes over concatenation: nothing is reordered, merged or deduplicated |
| Plan.KeptSingle | swarmoodle/swarmoodle/locustfile.py:72-75 | one interaction is kept, as its click with the site replaced by its position, exactly when its site is mapped |
| Plan.ClicksAppend | swarmoodle/swarmoodle/locustfile.py:76-83 | the clicks falling in a cell add up over a concatenation of click lists |
| Plan.KeptClicks | swarmoodle/swarmoodle/locustfile.py:72-83 | the clicks of the kept list in a cell sum to the clicks of the interactions whose mapped cell it is |
| Plan.KeptPivot | swarmoodle/swarmoodle/locustfile.py:72-83 | each pivot cell of the kept interactions is the sum of `sum_click` over the interactions mapped to that cell, and 0 where none is |
| Plan.PivotSums | swarmoodle/swarmoodle/locustfile.py:76-83 | every pivot cell holds the sum of the clicks that fall in it (0 if none); a cell exists exactly when some click falls in it |
| Plan.PivotExample | swarmoodle/swarmoodle/locustfile.py:76-83 | two interactions of a student on one position on one day add up (3 + 4 = 7); another day reads 0 |
| Plan.Days | swarmoodle/swarmoodle/locustfile.py:76-83 | the columns are increasing and are exactly the days some kept click falls on |
| Plan.Positions | swarmoodle/swarmoodle/locustfile.py:76-83 | a student's rows are increasing and are exactly the positions the student clicked |
| Plan.Bursts | swarmoodle/swarmoodle/locustfile.py:227 | a day's bursts are exactly the student's positions with a positive cell value, each with that value as its count; there are no more bursts than positions |
| Plan.UserPlan | swarmoodle/swarmoodle/locustfile.py:224-227 | a user's plan has one entry per column, with the same dates in the same order |
| Plan.UserPlanClicks | swarmoodle/swarmoodle/locustfile.py:224-231 | on day k a user requests exactly the positions where its click sum is positive, that sum times each |
| Plan.BurstsInOrder | swarmoodle/swarmoodle/locustfile.py:227 | a day's bursts come in increasing position order |
| Plan.MaxTotal | swarmoodle/swarmoodle/locustfile.py:86 | with no days there is no maximum; otherwise the maximum is some day's column sum and no day's sum exceeds it |
| Plan.DayDurationMs | swarmoodle/swarmoodle/locustfile.py:86 | there is no day duration exactly when there is no column; otherwise it is the column sum of a busiest day times the request duration |
| Plan.BuildPlan | swarmoodle/swarmoodle/locustfile.py:47-86 | the plan is built from the tables in the source's order: its students are the first `moodle_students` of the presentation; its course is the fetched course with its home page; its mapping is the matcher run on the presentation's clicked activities; its clicks are the mapped interactions of those students; its days, active students and day duration come from those clicks |
| Plan.PlanCells | swarmoodle/swarmoodle/locustfile.py:54-83 | every cell of the plan's pivot holds the clicks of the simulated students' interactions that the mapping sends to it |
| Plan.ActiveAreStudents | swarmoodle/swarmoodle/locustfile.py:84 | the active students are simulated students, and there are at most `moodle_students` of those |
| Plan.KeptPositionsInCourse | swarmoodle/swarmoodle/locustfile.py:228 | every kept click points at an item of the course, so the URL lookup stays in range |
| Swarm.Incr | swarmoodle/swarmoodle/locustfile.py:219-250 | an atomic increment adds the key, raises its value by one (a missing key counts as 0) and leaves every other counter as it was |
| Swarm.ResetDays | swarmoodle/swarmoodle/locustfile.py:131-132 | every day counter of the plan is set to 0; other counters are kept |
| Swarm.ResetCounters | swarmoodle/swarmoodle/locustfile.py:129-132 | the reset loop leaves the store as `Reset` describes it |
| Swarm.ResetZeroes | swarmoodle/swarmoodle/locustfile.py:129-132 | after the reset, `login` and every day counter of the plan are 0; other day counters are kept; no other key appears |
| Swarm.Simulation.OnTestStart | swarmoodle/swarmoodle/locustfile.py:129-132 | at test start the store is reset, and the users and requests are unchanged |
| Swarm.Classify | swarmoodle/swarmoodle/locustfile.py:267-277 | the profile has the user's ordinal. It is "no OULAD mapping" exactly when the ordinal is past the students, and "no interaction" exactly when the student has no kept click. An active user's username is its student's id, one of the active students, and its plan is that student's plan |
| Swarm.Spawned | swarmoodle/swarmoodle/locustfile.py:267-277 | a new user carries its classification; error users start waiting for the spawns, and active users start navigating |
| Swarm.LiveCount | swarmoodle/swarmoodle/locustfile.py:210 | the runner's count of running users is at most the number spawned |
| Swarm.InitialInv | swarmoodle/swarmoodle/locustfile.py:129-132 | after the reset, with no user spawned, each counter holds the number of users that have passed it (zero) |
| Swarm.SpawnKeepsInv | swarmoodle/swarmoodle/locustfile.py:267-277 | spawning a user whose ordinal no user spawned before has, stopped users included, keeps the counting invariant |
| Swarm.NextKeepsInv | swarmoodle/swarmoodle/locustfile.py:195-265 | every step of `navigate` keeps the counting invariant: `login` and each day counter equal the number of users that have passed them |
| Swarm.BurstKeepsInv | swarmoodle/swarmoodle/locustfile.py:224-258 | every step within a day keeps the counting invariant |
| Swarm.ActivePlan | swarmoodle/swarmoodle/locustfile.py:267-277 | an active user's plan has one day per day of the plan, with the same dates |
| Swarm.ActiveBound | swarmoodle/swarmoodle/locustfile.py:219-222 | there are never more active users than the cohort size the barriers wait for |
| Swarm.CountedAreActive | swarmoodle/swarmoodle/locustfile.py:209-216 | only active users log in and count days |
| Swarm.LoginBarrierComplete | swarmoodle/swarmoodle/locustfile.py:219-222 | a user passes the login wait only when the whole cohort is spawned and every active user has logged in |
| Swarm.DayBarrierComplete | swarmoodle/swarmoodle/locustfile.py:250-258 | a user passes the wait of day k only when the whole cohort is spawned and every active user has counted day k |
| Swarm.CrashBlocksLaterDays | swarmoodle/swarmoodle/locustfile.py:251-258 | once a user's sleep failed after some day, no user passes the wait of a later day |
| Swarm.ErrorUserUncounted | swarmoodle/swarmoodle/locustfile.py:209-216 | an error user never moves a counter and never issues a request; its only step is to stop |
| Swarm.AfterDay | swarmoodle/swarmoodle/locustfile.py:250-254 | after day k the user waits for day k. Without fixed days it goes straight to the day's barrier. With them it fails exactly for a strict sleep after an overrun, and otherwise sleeps until the fixed end of the day |
| Swarm.NextCounts | swarmoodle/swarmoodle/locustfile.py:219-250 | after every step, `login` is the number of users that have logged in, and each day's counter the number of users that have finished that day |
| Swarm.NextIsLocal | swarmoodle/swarmoodle/locustfile.py:195-265 | a step changes only the phase and day start of the user taking it, keeps its profile, and is never taken by a stopped user; the store is unchanged or one counter is incremented; at most one request, by that user, is appended |
| Swarm.DaysInOrder | swarmoodle/swarmoodle/locustfile.py:219-258 | the first day is entered only from the login wait, and day k+1 only from the wait of day k |
| Swarm.Repeat | swarmoodle/swarmoodle/locustfile.py:229-230 | n copies of one request |
| Swarm.BurstRequests | swarmoodle/swarmoodle/locustfile.py:227-231 | a burst issues its request `count` times in a row to the URL of its position, appending nothing else |
| Swarm.OverrunSkipsRestOfDay | swarmoodle/swarmoodle/locustfile.py:239-250 | in fixed-day mode, an overrun after a burst counts the day at once and skips that day's remaining bursts |
| Swarm.OverrunSleep | swarmoodle/swarmoodle/locustfile.py:251-254 | after an overrun the sleep length is negative: a strict sleep fails, and a lenient one ends at once |
| Swarm.OnTimeSleep | swarmoodle/swarmoodle/locustfile.py:251-254 | without an overrun, the user sleeps until the fixed end of the day, which is not in the past |
| Swarm.MayStopAsWritten | swarmoodle/swarmoodle/locustfile.py:210 | the guard as written holds only once every configured user has been spawned |
| Swarm.LiveCountBelow | swarmoodle/swarmoodle/locustfile.py:210 | once a user has stopped, the count of running users is below the number spawned |
| Swarm.NextLiveCount | swarmoodle/swarmoodle/locustfile.py:210 | no step raises the count of running users |
| Swarm.AsWrittenWaitsForever | swarmoodle/swarmoodle/locustfile.py:210 | as written, once all users are spawned and one has stopped, the error users' guard fails now and after every step |
| Swarm.TwoErrorUsers | swarmoodle/swarmoodle/locustfile.py:209-216 | with two users and one simulated student without a mapped interaction, both users are error users (no interaction, and past the table); once the first has stopped, the second waits forever as written, while the machine lets it stop |
| Swarm.ErrorUsersStop | swarmoodle/swarmoodle/locustfile.py:209-216 | with the spawned count, a waiting error user stops once all users are spawned |
| Swarm.Simulation.constructor | swarmoodle/swarmoodle/locustfile.py:129 | a simulation starts from the given store, with no users and no requests |
| Swarm.Simulation.Spawn | swarmoodle/swarmoodle/locustfile.py:267-277 | a spawned user is appended with its classification; store and requests are unchanged; the invariant is kept |
| Swarm.Simulation.Step | swarmoodle/swarmoodle/locustfile.py:195-265 | the user moves exactly when `Next` allows it; the new state is then `Next`'s state, otherwise nothing changes; the invariant is kept |
| Hook.Find | hook/main.py:82 | the first occurrence of a character, or the length when there is none |
| Hook.FindDelim | hook/main.py:82 | the first `/`, `?` or `#`, or the length when there is none |
| Hook.Lower | hook/main.py:82 | the scheme is lowered character by character |
| Hook.Split | hook/main.py:82 | the split path holds no `?` or `#`, and the split query holds no `#` |
| Hook.Slashed | hook/main.py:82 | a non-empty path gains a leading slash when it has none; an empty path stays empty |
| Hook.SplitUnsplit | hook/main.py:82 | joining a URL's parts and splitting the text again gives back the parts, the path carrying its leading slash |
| Hook.PatchMoodleUrl | hook/main.py:75-82 | the result is None exactly when the URL is missing or empty |
| Hook.PatchKeepsRest | hook/main.py:75-82 | the patched URL has the configured scheme and host, and the original path, query and fragment |
| Hook.PatchIdempotent | hook/main.py:75-82 | patching twice is patching once |
| Hook.PatchRelative | hook/main.py:111 | a relative `path?query` is patched to `scheme://host path?query` |
| Hook.Root | hook/main.py:85-96 | the site name is passed through; the site URL is Moodle's site URL patched to the configured address (PatchKeepsRest and PatchIdempotent describe that patch), and is None exactly when Moodle gives none or an empty one |
| Hook.KeepMapMembers | hook/main.py:107-168 | a filtered view holds exactly the views of the kept items |
| Hook.KeepMapAppend | hook/main.py:107-168 | filtering keeps order: filtering a concatenation concatenates the filtered parts |
| Hook.KeepMapNone | hook/main.py:107-168 | when nothing is kept the view is empty |
| Hook.Courses | hook/main.py:99-116 | the listed courses are exactly the visible, non-site courses, each in its view, and there are no more of them than courses |
| Hook.CoursesAppend | hook/main.py:107-116 | the course list keeps Moodle's order |
| Hook.CourseUrl | hook/main.py:111 | a course's URL is `scheme://host/course/view.php?id=<id>` at the configured Moodle address |
| Hook.ContentViewOf | hook/main.py:141-153 | the type is kept; the mimetype defaults to `text/html`; a file's URL is patched and other URLs are passed through; content is fetched exactly for a file with a text mimetype and a URL, and from the patched URL |
| Hook.Contents | hook/main.py:140-156 | the contents shown are exactly those that are not of type `content` and have a file URL, each in its view |
| Hook.ContentsAppend | hook/main.py:140-156 | the shown entries keep their order: the view of a concatenation is the concatenation of the views |
| Hook.ContentsSingle | hook/main.py:140-156 | one entry is shown, once and as its view, exactly when it is of a shown kind |
| Hook.ShownTextFileFetched | hook/main.py:144-155 | every shown text file is fetched, from its patched URL |
| Hook.ModuleViewOf | hook/main.py:134-160 | id, instance, name and modname are copied; the module URL is patched; with `html`, a quiz gets the answer of the quiz whose id is the module's instance, and any other module gets its filtered contents; without `html` there is neither |
| Hook.SectionModules | hook/main.py:162-168 | a section's modules shown are exactly its visible, non-label modules (when the section is visible), each in its view |
| Hook.CourseModules | hook/main.py:133-169 | the course view holds exactly the views of the visible non-label modules of visible sections |
| Hook.CourseModulesAppend | hook/main.py:162-163 | the course view keeps section order |
| Hook.SectionModulesAppend | hook/main.py:163 | a section's view keeps module order |
| Hook.HiddenSectionEmpty | hook/main.py:165 | a hidden section contributes nothing |
| Hook.InProgress | hook/main.py:183-186 | none exactly when no attempt is in progress; otherwise the id of the first attempt in progress |
| Hook.InProgressPrefix | hook/main.py:183-186 | attempts after the first in-progress one do not change which is taken |
| Hook.AttemptUsed | hook/main.py:183-196 | the attempt used is the in-progress one, or the started one when there is none or its id is 0 |
| Hook.QuizCalls | hook/main.py:172-211 | the quiz makes four Moodle calls when it starts an attempt and three otherwise; the first call looks up the user's attempts |
| Hook.QuizFinishesWhatItReviews | hook/main.py:188-211 | the last two calls submit and then review the attempt used; an attempt is started exactly when none usable is in progress, and then the started one is used |
| Hook.FindClose | hook/main.py:214-220 | the first `]]>` at or after a position, or the end when there is none |
| Hook.StripCData | hook/main.py:214-220 | stripping never lengthens the text |
| Hook.StripPlain | hook/main.py:214-220 | a text without `<` is unchanged |
| Hook.StripSection | hook/main.py:214-220 | a closed CDATA section is removed, from its opening up to the first `]]>`, and the text before it is kept, markup included, when no section opens inside that text |
| Hook.StripBefore | hook/main.py:214-220 | text at no position of which a section opens is kept, and stripping goes on after it |
| Hook.PlainOpensNothing | hook/main.py:214-220 | no section opens inside text without `<` |
| Hook.StripSkips | hook/main.py:214-220 | at an opening, stripping resumes right after the first closing |
| Hook.StripUnclosed | hook/main.py:214-220 | an unclosed CDATA opening is kept as it is |
| Hook.StripMultiline | hook/main.py:214-220 | a section whose body holds a line break is removed too (the DOTALL flag) |
| Hook.StripInMarkup | hook/main.py:214-220 | a section inside markup is removed and the markup kept: `<p>`, a section, `</p>` gives `<p></p>` |
| Hook.Questions | hook/main.py:214-223 | the answer is given exactly when every question has its HTML; it then has one entry per question, with the slot, type, page and HTML with its CDATA sections stripped |
| Hook.Forwarded | hook/main.py:226-237 | a single statement is forwarded as a list of one; a list is forwarded as it is |
| Hook.OneIsListOfOne | hook/main.py:230-231 | a single statement and the list holding only it are forwarded alike |

## Left out

- Network I/O of every kind is left out: the HTTP calls to Moodle and to the hook, the JSON they
  carry, the Kafka producer, the statistics websocket and the application lifespan. Replies
  enter the model as values.
- The orchestration of the Moodle calls in `on_test_start` and `on_test_stop`
  (locustfile.py:134-147) is left out. The payloads those calls post are modelled, but not the
  sequence of calls; that sequence is I/O.
- Loading the OULAD CSV files (`get_oulad`) is left out: the tables are parameters.
- The checker greenlet that watches the runner (locustfile.py:89-105) is left out, as is the
  stop signal it sends.
- Parsing the login form and logout link out of Moodle's HTML is left out: `login` and `logout`
  are single steps.
- Logging is left out, including the percentages that use floating point.
- Oulad.MapOuladToMoodle: the source's log call divides by the number of course items and by
  the number of activity rows (oulad.py:122-131). With no activity row, and so whenever the
  simulated students clicked nothing, it raises `ZeroDivisionError` and loading the simulator
  fails. A direct call with an empty course fails the same way; from the simulator the course
  always holds the home page. The model returns the map, empty then, and the plan is built with
  no day.
- Time is integer ticks and only orders events; `time.time()` and the sleep's real effect are
  left out. The day duration is in milliseconds where the source uses float seconds.
- Plan.DayDurationMs: computed with integer milliseconds, so the rounding of the source's float
  division by 1000 is not modelled.
- Whether `time.sleep` raises on a negative length (plain Python) or returns at once (the gevent
  sleep the runner patches in) is the parameter `strictSleep` of the context. Both cases are
  modelled.
- Concurrency is interleaving of single steps. Each counter operation is atomic, as the counter
  store guarantees. Several worker processes are not modelled.
- Transport retries and request failures are left out: every request succeeds.
- Swarm.ValidContext: assumes that no two simulated students share an id. `set_index("id_student")`
  (locustfile.py:52) does not enforce this; it holds because OULAD's student table has one row
  per student of a module presentation. With a repeated id, two users would replay one student,
  while the cohort counts distinct students, so `login` could pass the cohort.
- Swarm.Simulation.Spawn: `minimal_ident`, the user's ordinal, is a parameter. The model
  requires it to differ from the ordinal of every user spawned before, stopped users included.
  gevent may hand a dead greenlet's `minimal_ident` to a new user. Two users could then replay
  the same student and push `login` past the cohort. That reuse is not modelled.
- Swarm.LiveCount: a user whose sleep failed is counted as stopped, and `Crashed` is final. In
  the source Locust catches the exception and runs `navigate` again. The user then logs in again,
  with one more request, and raises `login` to one past the cohort (locustfile.py:219-220). The
  `!=` wait that follows (locustfile.py:221-222) then never ends, for that user and for any user
  still waiting there. So after a failure the source's run never ends: that user keeps running,
  and `login` ends one past the cohort. The model treats that user as stopped, so after a
  failure on the last day every other user can still finish.
- JSON `null` and a missing key are one case in the hook's replies. A file content whose
  mimetype is `null` makes the source raise `AttributeError`, and `null` contents a `TypeError`.
  The model reads them as `text/html` and as an empty list. A quiz module without `instance`
  makes `int(None)` raise `TypeError` (hook/main.py:158); the model gives `QuizOf(None)`.
- `urlsplit` removes tab, CR and LF anywhere in a URL. The model keeps them.
- The right join of the interactions with the students orders rows by student and adds an empty
  row for a student with no interaction. Plan.StudentVle keeps the table's order and adds no
  such row. Only the pivot sums and the set of clicked sites are read from the join, and
  neither depends on row order; the empty rows have no site, so no mapping keeps them.
- Faker's generated names are a function parameter `fake(kind, part, i)`.
- The `raw=True` passthrough of the hook endpoints is left out: it returns Moodle's reply
  unchanged.
- `urlsplit` is left out in part: stripping of leading and trailing whitespace, IPv6 brackets,
  ports in the URL being patched, and validation. Only the host of the configured Moodle URL is
  used as netloc, as the source does, so its port is dropped.
- The path keeps its `;params` whole. This matches `urlparse` followed by `urlunparse`, except
  for a path ending in `;` with empty params, which `urlunparse` drops. That edge is not
  modelled.
- Hook.Questions: a question without HTML, on which `re.sub` raises, gives None for the whole
  answer instead of an exception.
- Swarm.UserOk: holds only what `on_start` sets, not the HTML-derived login state.
- In the mapper fixture the site labels `o0`…`o5` are the integers 0…5.
- Conf.FieldErrors: it reports every field error in declaration order, as the settings library
  collects them. The exact message texts are not modelled.
- Plan.Students: requires a positive `moodle_students`, which the validated settings guarantee.
  `head` with a non-positive count is not modelled.
- The web-service forms are maps from structured keys, so they have no key order. The source's
  dicts keep insertion order, which `urlencode` writes out and the payload tests compare
  byte for byte (test_moodle.py:110-112). That order is not modelled.
- Moodle.AddCustomFields: the source writes 18 separate assignments; the model writes
  the same nine type/value pairs with one loop over the fixed type order.
- The Moodle-side configuration file (config/moodle/config.php) is not part of this model.
- The comment in the error users' wait (locustfile.py:211-212) says they wait for the remaining
  students to be spawned, so that the number of concurrent users peaks. The code reads the
  runner's count of running users instead. The model keeps the code's reading in
  `Swarm.MayStopAsWritten` and records the difference under Findings.

## Findings

| source | as written | input that shows it | evidently intended | confidence | as-written member | corrected member |
|---|---|---|---|---|---|---|
| swarmoodle/swarmoodle/locustfile.py:210 | a user with no mapping waits while `runner.user_count < moodle_students`, but `user_count` counts only users that are still running | `moodle_students` = 2 and one student in the presentation, all of whose clicks fall on sites the matcher leaves unmapped: user 0 did not interact and user 1 is past the student table. The first error user stops once both are spawned; from then on the count is 1, and the second user waits forever | wait until all `moodle_students` users have been spawned, then stop | not executed | Swarm.AsWrittenWaitsForever | Swarm.ErrorUsersStop |
