/** The simulated students of the load test: the counter store shared by all users, the
    classification a user gets when it starts, and the navigation of a user as a step machine
    whose waits are guards on the counters. Time is an integer tick in milliseconds. */
module Swarm {
  import opened Wrappers
  import Moodle
  import Oulad
  import Plan

  // ---------------------------------------------------------------------------------------
  // The shared counter store
  // ---------------------------------------------------------------------------------------

  /** The keys of the counter store: `login`, and one counter per day of the plan, keyed by
      the day's date. */
  datatype Key = Login | Day(date: int)

  type Store = map<Key, int>

  /** The value of `s` after an atomic increment of `k`; a missing key counts as 0. */
  function Incr(s: Store, k: Key): (r: Store)
    ensures r.Keys == s.Keys + {k}
    ensures k in s ==> r[k] == s[k] + 1
    ensures k !in s ==> r[k] == 1
    ensures forall k' :: k' in s && k' != k ==> r[k'] == s[k']
  {
    s[k := (if k in s then s[k] else 0) + 1]
  }

  /** The days whose counters are set to 0, after the `login` counter, at test start. */
  function ResetDays(s: Store, days: seq<int>): (r: Store)
    ensures r.Keys == s.Keys + (set d | d in days :: Day(d))
    ensures forall d :: d in days ==> r[Day(d)] == 0
    ensures forall k :: k in s && (k.Day? ==> k.date !in days) ==> r[k] == s[k]
  {
    if |days| == 0 then s
    else ResetDays(s, days[..|days| - 1])[Day(days[|days| - 1]) := 0]
  }

  /** The store after the reset of `on_test_start`: `login` and every day counter are 0, and
      no other key changed. */
  function Reset(s: Store, days: seq<int>): Store {
    ResetDays(s[Login := 0], days)
  }

  /** The reset loop of `on_test_start`: `login`, then each day counter in turn, set to 0. */
  method ResetCounters(store: Store, days: seq<int>) returns (s: Store)
    ensures s == Reset(store, days)
  {
    s := store[Login := 0];
    for i := 0 to |days|
      invariant s == ResetDays(store[Login := 0], days[..i])
    {
      s := s[Day(days[i]) := 0];
      assert days[..i + 1][..i] == days[..i];
    }
    assert days[..|days|] == days;
  }

  lemma ResetZeroes(s: Store, days: seq<int>)
    ensures Reset(s, days)[Login] == 0
    ensures forall d :: d in days ==> Day(d) in Reset(s, days) && Reset(s, days)[Day(d)] == 0
    ensures forall d :: Day(d) in s && d !in days ==> Reset(s, days)[Day(d)] == s[Day(d)]
    ensures Reset(s, days).Keys == s.Keys + {Login} + (set d | d in days :: Day(d))
  {
  }

  // ---------------------------------------------------------------------------------------
  // The simulation context
  // ---------------------------------------------------------------------------------------

  /** What every user reads: the replay plan, the configured number of students, whether days
      have a fixed duration, and whether a sleep of negative length fails (`time.sleep` of
      the standard library) or returns at once (the cooperative sleep the load-test runner
      installs in place of it). */
  datatype Context = Context(plan: Plan.ReplayPlan, moodleStudents: int, fixedDay: bool, strictSleep: bool)

  /** The size of the active cohort: the number of distinct students with a mapped
      interaction. Every barrier waits for this many users. */
  function Cohort(ctx: Context): nat {
    |ctx.plan.active|
  }

  /** The length of a simulated day in ticks; there is none when the plan has no day. */
  function DayDuration(ctx: Context): int {
    match ctx.plan.dayDurationMs
    case Some(d) => d
    case None => 0
  }

  /** The context as the loader builds it: days and active students come from the kept clicks,
      and no two simulated students share an id (an assumption on the data: OULAD's student
      table has one row per student of a module presentation; the loader does not check it). */
  predicate ValidContext(ctx: Context) {
    && ctx.plan.days == Plan.Days(ctx.plan.kept)
    && ctx.plan.active == Plan.ActiveStudents(ctx.plan.kept)
    && (forall i, j :: 0 <= i < j < |ctx.plan.students| ==> ctx.plan.students[i].id != ctx.plan.students[j].id)
  }

  // ---------------------------------------------------------------------------------------
  // Starting a user
  // ---------------------------------------------------------------------------------------

  /** Why a user does not navigate. */
  datatype UserError = NoOuladMapping | NoInteraction

  /** The fields `on_start` sets: the user's ordinal, its username (the student id), its plan
      and its error. */
  datatype Profile = Profile(id: nat, username: Option<int>, plan: seq<Plan.DayPlan>, error: Option<UserError>)

  /** `on_start`: a user whose ordinal is past the student table has no OULAD mapping; one
      whose student has no mapped interaction did not interact; every other user gets the
      plan of its student. */
  function Classify(ctx: Context, ordinal: nat): (p: Profile)
    ensures p.id == ordinal
    ensures p.error == Some(NoOuladMapping) <==> ordinal >= |ctx.plan.students|
    ensures p.error == Some(NoInteraction) <==>
              ordinal < |ctx.plan.students| && ctx.plan.students[ordinal].id !in ctx.plan.active
    ensures p.username.Some? <==> ordinal < |ctx.plan.students|
    ensures p.username.Some? ==> p.username.value == ctx.plan.students[ordinal].id
    ensures p.error.None? ==> p.username.Some? && p.username.value in ctx.plan.active
    ensures p.error.None? ==> p.plan == Plan.UserPlan(ctx.plan.kept, p.username.value)
  {
    if ordinal >= |ctx.plan.students| then Profile(ordinal, None, [], Some(NoOuladMapping))
    else
      var username := ctx.plan.students[ordinal].id;
      if username !in ctx.plan.active then Profile(ordinal, Some(username), [], Some(NoInteraction))
      else Profile(ordinal, Some(username), Plan.UserPlan(ctx.plan.kept, username), None)
  }

  // ---------------------------------------------------------------------------------------
  // Navigation as a step machine
  // ---------------------------------------------------------------------------------------

  /** Where a user is in `navigate`. */
  datatype Phase =
    | AwaitingSpawns                              // an error user waiting for the others to spawn
    | Quit                                        // an error user that stopped
    | Starting                                    // an active user before its login
    | LoginBarrier                                // logged in and counted, waiting for the cohort
    | Bursting(day: nat, burst: nat, sent: nat)   // `sent` requests of burst `burst` of day `day` issued
    | Sleeping(day: nat, until: int)              // day counted, sleeping to the end of the fixed day
    | DayBarrier(day: nat)                        // day counted, waiting for the cohort
    | Crashed(day: nat)                           // the sleep after day `day` failed on a negative length
    | Done                                        // logged out

  /** A user: its profile, its phase, and the tick at which its current day started. */
  datatype UserState = UserState(profile: Profile, phase: Phase, dayStart: int)

  /** A request to the URL of a course position, issued by the user with that index. */
  datatype Request = Request(user: nat, position: int)

  /** The users spawned so far, the counter store and the requests issued so far. */
  datatype World = World(store: Store, users: seq<UserState>, requests: seq<Request>)

  /** A user just spawned: error users go waiting for the others, active users start. */
  function Spawned(ctx: Context, ordinal: nat): (user: UserState)
    ensures user.profile == Classify(ctx, ordinal)
    ensures user.phase == (if user.profile.error.Some? then AwaitingSpawns else Starting)
  {
    var profile := Classify(ctx, ordinal);
    UserState(profile, if profile.error.Some? then AwaitingSpawns else Starting, 0)
  }

  /** The counter `k` has reached the cohort size. */
  predicate Reached(ctx: Context, s: Store, k: Key) {
    k in s && s[k] == Cohort(ctx)
  }

  /** Entering day `k` at tick `now`, or logging out after the last day. */
  function Enter(user: UserState, k: nat, now: int): UserState {
    if k < |user.profile.plan| then user.(phase := Bursting(k, 0, 0), dayStart := now)
    else user.(phase := Done)
  }

  /** The sleep after day `k` is counted: none without fixed days; a failure on a negative
      length with the strict sleep; otherwise sleeping until the fixed end of the day, which
      is in the past, and so no sleep, after an overrun. */
  function AfterDay(ctx: Context, user: UserState, k: nat, now: int): (p: Phase)
    ensures p == DayBarrier(k) || p == Crashed(k) || p == Sleeping(k, user.dayStart + DayDuration(ctx))
    ensures p == DayBarrier(k) <==> !ctx.fixedDay
    ensures p.Crashed? <==> ctx.fixedDay && ctx.strictSleep && now - user.dayStart > DayDuration(ctx)
  {
    if !ctx.fixedDay then DayBarrier(k)
    else if ctx.strictSleep && DayDuration(ctx) - (now - user.dayStart) < 0 then Crashed(k)
    else Sleeping(k, user.dayStart + DayDuration(ctx))
  }

  /** The number of running users, as the runner counts them: stopped users are not. */
  function LiveCount(users: seq<UserState>): (n: nat)
    ensures n <= |users|
  {
    if |users| == 0 then 0
    else
      LiveCount(users[..|users| - 1]) + (if Stopped(users[|users| - 1].phase) then 0 else 1)
  }

  /** The user's greenlet has ended: it stopped, logged out, or failed. */
  predicate Stopped(phase: Phase) {
    phase.Quit? || phase.Done? || phase.Crashed?
  }

  /** One step of user `u` at tick `now`, or None while the user waits or has stopped.
      An error user stops once every user is spawned (the spawned count, see the as-written
      guard `MayStopAsWritten`). An active user logs in and counts itself, waits for the login
      counter to reach the cohort, then for each day issues each burst's requests one at a
      time, checks for an overrun after each burst in fixed-day mode, counts the day once,
      sleeps to the end of a fixed day, and waits for the day counter to reach the cohort;
      after the last day it logs out. */
  function Next(ctx: Context, w: World, u: nat, now: int): Option<World>
    requires u < |w.users|
  {
    var user := w.users[u];
    var plan := user.profile.plan;
    match user.phase
    case AwaitingSpawns =>
      if |w.users| >= ctx.moodleStudents then Some(w.(users := w.users[u := user.(phase := Quit)]))
      else None
    case Starting =>
      Some(World(Incr(w.store, Login), w.users[u := user.(phase := LoginBarrier)], w.requests))
    case LoginBarrier =>
      if Reached(ctx, w.store, Login) then Some(w.(users := w.users[u := Enter(user, 0, now)]))
      else None
    case Bursting(k, j, sent) =>
      if k >= |plan| then None
      else if j < |plan[k].bursts| && sent < plan[k].bursts[j].count then
        Some(World(w.store, w.users[u := user.(phase := Bursting(k, j, sent + 1))],
                   w.requests + [Request(u, plan[k].bursts[j].position)]))
      else if j < |plan[k].bursts| && !(ctx.fixedDay && now - user.dayStart > DayDuration(ctx)) then
        Some(w.(users := w.users[u := user.(phase := Bursting(k, j + 1, 0))]))
      else
        Some(World(Incr(w.store, Day(plan[k].date)), w.users[u := user.(phase := AfterDay(ctx, user, k, now))],
                   w.requests))
    case Sleeping(k, until) =>
      if now >= until then Some(w.(users := w.users[u := user.(phase := DayBarrier(k))])) else None
    case DayBarrier(k) =>
      if k < |plan| && Reached(ctx, w.store, Day(plan[k].date)) then
        Some(w.(users := w.users[u := Enter(user, k + 1, now)]))
      else None
    case Quit => None
    case Crashed(_) => None
    case Done => None
  }

  // ---------------------------------------------------------------------------------------
  // The invariant of the machine
  // ---------------------------------------------------------------------------------------

  /** The user has logged in and counted itself in `login`. */
  predicate LoggedIn(phase: Phase) {
    !(phase.AwaitingSpawns? || phase.Quit? || phase.Starting?)
  }

  /** The user has counted itself in the counter of day `k`. */
  predicate Closed(phase: Phase, k: nat) {
    match phase
    case Bursting(d, _, _) => d > k
    case Sleeping(d, _) => d >= k
    case DayBarrier(d) => d >= k
    case Crashed(d) => d >= k
    case Done => true
    case _ => false
  }

  /** The properties of a user that the counters count. */
  datatype Prop = IsLoggedIn | IsClosed(day: nat) | IsActive

  predicate Holds(p: Prop, user: UserState) {
    match p
    case IsLoggedIn => LoggedIn(user.phase)
    case IsClosed(k) => Closed(user.phase, k)
    case IsActive => user.profile.error.None?
  }

  /** The indices of the users of which `p` holds. */
  function Which(users: seq<UserState>, p: Prop): (r: set<nat>)
    ensures forall i :: i in r <==> 0 <= i < |users| && Holds(p, users[i])
  {
    set i: nat | i < |users| && Holds(p, users[i])
  }

  /** A user is as `on_start` made it, and its phase agrees with its profile: error users
      only wait and stop, and active users are within their plan. */
  predicate UserOk(ctx: Context, user: UserState) {
    && (user.profile.error.Some? <==> user.phase.AwaitingSpawns? || user.phase.Quit?)
    && (user.profile.error.None? ==> ActiveProfile(ctx, user.profile))
    && (user.phase.Bursting? ==> user.phase.day < |user.profile.plan|)
    && (user.phase.Sleeping? ==> user.phase.day < |user.profile.plan|)
    && (user.phase.DayBarrier? ==> user.phase.day < |user.profile.plan|)
    && (user.phase.Crashed? ==> user.phase.day < |user.profile.plan|)
  }

  /** What `on_start` gives an active user: the student of its ordinal, one of the cohort, and
      a plan with one entry per day of the plan, in order. */
  predicate ActiveProfile(ctx: Context, p: Profile) {
    && p.id < |ctx.plan.students|
    && p.username == Some(ctx.plan.students[p.id].id)
    && ctx.plan.students[p.id].id in ctx.plan.active
    && |p.plan| == |ctx.plan.days|
    && (forall k :: 0 <= k < |ctx.plan.days| ==> p.plan[k].date == ctx.plan.days[k])
  }

  predicate DistinctIds(users: seq<UserState>) {
    forall i, j :: 0 <= i < j < |users| ==> users[i].profile.id != users[j].profile.id
  }

  /** The counters count: `login` holds the number of users that logged in, and the counter
      of each day the number of users that counted that day. */
  predicate Counted(ctx: Context, w: World) {
    && Login in w.store && w.store[Login] == |Which(w.users, IsLoggedIn)|
    && forall k :: 0 <= k < |ctx.plan.days| ==>
         Day(ctx.plan.days[k]) in w.store && w.store[Day(ctx.plan.days[k])] == |Which(w.users, IsClosed(k))|
  }

  predicate Inv(ctx: Context, w: World) {
    && ValidContext(ctx)
    && (forall i :: 0 <= i < |w.users| ==> UserOk(ctx, w.users[i]))
    && DistinctIds(w.users)
    && Counted(ctx, w)
  }

  // ---------------------------------------------------------------------------------------
  // Counting users
  // ---------------------------------------------------------------------------------------

  /** Replacing one user changes the set of users of which `p` holds at that index only. */
  lemma WhichReplace(users: seq<UserState>, u: nat, x: UserState, p: Prop)
    requires u < |users|
    ensures Holds(p, x) == Holds(p, users[u]) ==> Which(users[u := x], p) == Which(users, p)
    ensures !Holds(p, users[u]) && Holds(p, x) ==>
              u !in Which(users, p) && Which(users[u := x], p) == Which(users, p) + {u}
  {
  }

  /** Appending a user of which `p` does not hold leaves the set unchanged. */
  lemma WhichAppend(users: seq<UserState>, x: UserState, p: Prop)
    requires !Holds(p, x)
    ensures Which(users + [x], p) == Which(users, p)
  {
    assert forall i :: 0 <= i < |users| ==> (users + [x])[i] == users[i];
  }

  /** A user replaced by one with the same profile, counted the same way, with a store and
      requests in which the counters did not move. */
  lemma ReplaceUncounted(ctx: Context, w: World, u: nat, x: UserState, requests: seq<Request>)
    requires Inv(ctx, w) && u < |w.users|
    requires UserOk(ctx, x) && x.profile == w.users[u].profile
    requires LoggedIn(x.phase) == LoggedIn(w.users[u].phase)
    requires forall k: nat :: k < |ctx.plan.days| ==> Closed(x.phase, k) == Closed(w.users[u].phase, k)
    ensures Inv(ctx, World(w.store, w.users[u := x], requests))
  {
    var w' := World(w.store, w.users[u := x], requests);
    WhichReplace(w.users, u, x, IsLoggedIn);
    forall k | 0 <= k < |ctx.plan.days|
      ensures Day(ctx.plan.days[k]) in w'.store && w'.store[Day(ctx.plan.days[k])] == |Which(w'.users, IsClosed(k))|
    {
      WhichReplace(w.users, u, x, IsClosed(k));
    }
  }

  /** A user that logs in, counted by one increment of `login`. */
  lemma ReplaceLogin(ctx: Context, w: World, u: nat, x: UserState)
    requires Inv(ctx, w) && u < |w.users|
    requires UserOk(ctx, x) && x.profile == w.users[u].profile
    requires !LoggedIn(w.users[u].phase) && LoggedIn(x.phase)
    requires forall k: nat :: k < |ctx.plan.days| ==> Closed(x.phase, k) == Closed(w.users[u].phase, k)
    ensures Inv(ctx, World(Incr(w.store, Login), w.users[u := x], w.requests))
  {
    var w' := World(Incr(w.store, Login), w.users[u := x], w.requests);
    WhichReplace(w.users, u, x, IsLoggedIn);
    forall k | 0 <= k < |ctx.plan.days|
      ensures Day(ctx.plan.days[k]) in w'.store && w'.store[Day(ctx.plan.days[k])] == |Which(w'.users, IsClosed(k))|
    {
      WhichReplace(w.users, u, x, IsClosed(k));
    }
  }

  /** A user that counts day `k0`, counted by one increment of that day's counter. */
  lemma ReplaceClose(ctx: Context, w: World, u: nat, x: UserState, k0: nat)
    requires Inv(ctx, w) && u < |w.users| && k0 < |ctx.plan.days|
    requires UserOk(ctx, x) && x.profile == w.users[u].profile
    requires LoggedIn(w.users[u].phase) && LoggedIn(x.phase)
    requires !Closed(w.users[u].phase, k0) && Closed(x.phase, k0)
    requires forall k: nat :: k < |ctx.plan.days| && k != k0 ==> Closed(x.phase, k) == Closed(w.users[u].phase, k)
    ensures Inv(ctx, World(Incr(w.store, Day(ctx.plan.days[k0])), w.users[u := x], w.requests))
  {
    var w' := World(Incr(w.store, Day(ctx.plan.days[k0])), w.users[u := x], w.requests);
    WhichReplace(w.users, u, x, IsLoggedIn);
    forall k | 0 <= k < |ctx.plan.days|
      ensures Day(ctx.plan.days[k]) in w'.store && w'.store[Day(ctx.plan.days[k])] == |Which(w'.users, IsClosed(k))|
    {
      CloseCounter(ctx, w, u, x, k0, k);
    }
  }

  /** The counter of day `k` after a user counts day `k0`. */
  lemma CloseCounter(ctx: Context, w: World, u: nat, x: UserState, k0: nat, k: nat)
    requires Inv(ctx, w) && u < |w.users| && k0 < |ctx.plan.days| && k < |ctx.plan.days|
    requires !Closed(w.users[u].phase, k0) && Closed(x.phase, k0)
    requires forall k: nat :: k < |ctx.plan.days| && k != k0 ==> Closed(x.phase, k) == Closed(w.users[u].phase, k)
    ensures var s := Incr(w.store, Day(ctx.plan.days[k0]));
      Day(ctx.plan.days[k]) in s && s[Day(ctx.plan.days[k])] == |Which(w.users[u := x], IsClosed(k))|
  {
    WhichReplace(w.users, u, x, IsClosed(k));
    if k != k0 {
      assert ctx.plan.days[k] != ctx.plan.days[k0] by {
        assert Plan.Increasing(ctx.plan.days);
      }
    }
  }

  // ---------------------------------------------------------------------------------------
  // The invariant is kept
  // ---------------------------------------------------------------------------------------

  /** The plan of an active user has one day per day of the plan, with the same dates. */
  lemma ActivePlan(ctx: Context, user: UserState)
    requires ValidContext(ctx) && UserOk(ctx, user) && user.profile.error.None?
    ensures |user.profile.plan| == |ctx.plan.days|
    ensures forall k :: 0 <= k < |ctx.plan.days| ==> user.profile.plan[k].date == ctx.plan.days[k]
  {
  }

  /** Before the test starts no user is spawned, and the reset counters count nobody. */
  lemma InitialInv(ctx: Context, s: Store)
    requires ValidContext(ctx)
    ensures Inv(ctx, World(Reset(s, ctx.plan.days), [], []))
  {
    ResetZeroes(s, ctx.plan.days);
  }

  /** Spawning a user with an ordinal no user spawned before has, stopped users included,
      keeps the invariant. */
  lemma SpawnKeepsInv(ctx: Context, w: World, ordinal: nat)
    requires Inv(ctx, w)
    requires forall i :: 0 <= i < |w.users| ==> w.users[i].profile.id != ordinal
    ensures Inv(ctx, w.(users := w.users + [Spawned(ctx, ordinal)]))
  {
    var x := Spawned(ctx, ordinal);
    WhichAppend(w.users, x, IsLoggedIn);
    forall k: nat ensures Which(w.users + [x], IsClosed(k)) == Which(w.users, IsClosed(k)) {
      WhichAppend(w.users, x, IsClosed(k));
    }
  }

  /** Every step keeps the invariant. */
  lemma NextKeepsInv(ctx: Context, w: World, u: nat, now: int)
    requires Inv(ctx, w) && u < |w.users| && Next(ctx, w, u, now).Some?
    ensures Inv(ctx, Next(ctx, w, u, now).value)
  {
    var user := w.users[u];
    match user.phase
    case AwaitingSpawns =>
      ReplaceUncounted(ctx, w, u, user.(phase := Quit), w.requests);
    case Starting =>
      ReplaceLogin(ctx, w, u, user.(phase := LoginBarrier));
    case LoginBarrier =>
      ActivePlan(ctx, user);
      ReplaceUncounted(ctx, w, u, Enter(user, 0, now), w.requests);
    case Bursting(k, j, sent) =>
      BurstKeepsInv(ctx, w, u, now, Next(ctx, w, u, now).value);
    case Sleeping(k, until) =>
      ReplaceUncounted(ctx, w, u, user.(phase := DayBarrier(k)), w.requests);
    case DayBarrier(k) =>
      ActivePlan(ctx, user);
      ReplaceUncounted(ctx, w, u, Enter(user, k + 1, now), w.requests);
  }

  lemma BurstKeepsInv(ctx: Context, w: World, u: nat, now: int, w': World)
    requires Inv(ctx, w) && u < |w.users| && w.users[u].phase.Bursting? && Next(ctx, w, u, now) == Some(w')
    ensures Inv(ctx, w')
  {
    var user := w.users[u];
    var plan := user.profile.plan;
    var Bursting(k, j, sent) := user.phase;
    if j < |plan[k].bursts| && sent < plan[k].bursts[j].count {
      var requests := w.requests + [Request(u, plan[k].bursts[j].position)];
      var x := user.(phase := Bursting(k, j, sent + 1));
      NextBursting(ctx, w, u, now);
      ReplaceUncounted(ctx, w, u, x, requests);
    } else if j < |plan[k].bursts| && !(ctx.fixedDay && now - user.dayStart > DayDuration(ctx)) {
      var x := user.(phase := Bursting(k, j + 1, 0));
      NextBursting(ctx, w, u, now);
      ReplaceUncounted(ctx, w, u, x, w.requests);
    } else {
      var x := user.(phase := AfterDay(ctx, user, k, now));
      NextBursting(ctx, w, u, now);
      CloseKeepsInv(ctx, w, u, now);
    }
  }

  /** The step of a user within a day, as three cases. */
  lemma NextBursting(ctx: Context, w: World, u: nat, now: int)
    requires u < |w.users| && w.users[u].phase.Bursting?
    requires w.users[u].phase.day < |w.users[u].profile.plan|
    ensures var user := w.users[u];
      var Bursting(k, j, sent) := user.phase;
      var bursts := user.profile.plan[k].bursts;
      Next(ctx, w, u, now) ==
        if j < |bursts| && sent < bursts[j].count then
          Some(World(w.store, w.users[u := user.(phase := Bursting(k, j, sent + 1))],
                     w.requests + [Request(u, bursts[j].position)]))
        else if j < |bursts| && !(ctx.fixedDay && now - user.dayStart > DayDuration(ctx)) then
          Some(World(w.store, w.users[u := user.(phase := Bursting(k, j + 1, 0))], w.requests))
        else
          Some(World(Incr(w.store, Day(user.profile.plan[k].date)),
                     w.users[u := user.(phase := AfterDay(ctx, user, k, now))], w.requests))
  {
  }

  lemma CloseKeepsInv(ctx: Context, w: World, u: nat, now: int)
    requires Inv(ctx, w) && u < |w.users| && w.users[u].phase.Bursting?
    requires w.users[u].phase.day < |w.users[u].profile.plan|
    ensures var user := w.users[u];
      var k := user.phase.day;
      Inv(ctx, World(Incr(w.store, Day(user.profile.plan[k].date)),
                     w.users[u := user.(phase := AfterDay(ctx, user, k, now))], w.requests))
  {
    var user := w.users[u];
    var k := user.phase.day;
    ActivePlan(ctx, user);
    ReplaceClose(ctx, w, u, user.(phase := AfterDay(ctx, user, k, now)), k);
  }

  // ---------------------------------------------------------------------------------------
  // The barriers
  // ---------------------------------------------------------------------------------------

  /** A map that is one-to-one on `A` and sends `A` into `B` shows `A` is no larger than `B`. */
  lemma {:induction false} InjectiveCard(A: set<nat>, B: set<int>, f: map<nat, int>)
    requires forall a :: a in A ==> a in f && f[a] in B
    requires forall a, b :: a in A && b in A && a != b ==> f[a] != f[b]
    ensures |A| <= |B|
    decreases A
  {
    if A != {} {
      var a :| a in A;
      InjectiveCard(A - {a}, B - {f[a]}, f);
    }
  }

  /** A subset at least as large as its superset is the superset. */
  lemma SubsetFull(A: set<nat>, B: set<nat>)
    requires A <= B && |B| <= |A|
    ensures A == B
  {
    assert |B - A| == |B| - |A|;
  }

  /** Active users are distinct students of the cohort, so there are at most as many of them
      as the cohort has students. */
  lemma ActiveBound(ctx: Context, w: World)
    requires Inv(ctx, w)
    ensures |Which(w.users, IsActive)| <= Cohort(ctx)
  {
    var A := Which(w.users, IsActive);
    var f := map i | i in A :: w.users[i].profile.username.value;
    forall a, b | a in A && b in A && a != b ensures f[a] != f[b] {
      var pa, pb := w.users[a].profile, w.users[b].profile;
      assert pa.id != pb.id by {
        if a < b { assert DistinctIds(w.users); } else { assert DistinctIds(w.users); }
      }
      assert ctx.plan.students[pa.id].id != ctx.plan.students[pb.id].id by {
        assert ValidContext(ctx);
      }
    }
    InjectiveCard(A, ctx.plan.active, f);
  }

  /** Only active users log in and count days. */
  lemma CountedAreActive(ctx: Context, w: World, p: Prop)
    requires Inv(ctx, w) && !p.IsActive?
    ensures Which(w.users, p) <= Which(w.users, IsActive)
  {
  }

  /** A user passes the login wait only when the whole cohort is spawned and every active
      user has logged in. */
  lemma LoginBarrierComplete(ctx: Context, w: World, u: nat, now: int)
    requires Inv(ctx, w) && u < |w.users| && w.users[u].phase.LoginBarrier?
    requires Next(ctx, w, u, now).Some?
    ensures |Which(w.users, IsActive)| == Cohort(ctx)
    ensures forall i :: 0 <= i < |w.users| && w.users[i].profile.error.None? ==> LoggedIn(w.users[i].phase)
  {
    assert Reached(ctx, w.store, Login);
    ActiveBound(ctx, w);
    CountedAreActive(ctx, w, IsLoggedIn);
    SubsetFull(Which(w.users, IsLoggedIn), Which(w.users, IsActive));
  }

  /** A user passes the wait of day `k` only when the whole cohort is spawned and every
      active user has counted day `k`, whether or not it cut the day short. */
  lemma DayBarrierComplete(ctx: Context, w: World, u: nat, now: int)
    requires Inv(ctx, w) && u < |w.users| && w.users[u].phase.DayBarrier?
    requires Next(ctx, w, u, now).Some?
    ensures |Which(w.users, IsActive)| == Cohort(ctx)
    ensures forall i :: 0 <= i < |w.users| && w.users[i].profile.error.None? ==>
              Closed(w.users[i].phase, w.users[u].phase.day)
  {
    var k := w.users[u].phase.day;
    assert Reached(ctx, w.store, Day(ctx.plan.days[k]));
    ActiveBound(ctx, w);
    CountedAreActive(ctx, w, IsClosed(k));
    SubsetFull(Which(w.users, IsClosed(k)), Which(w.users, IsActive));
  }

  /** A user whose sleep failed after day `d` never counts a later day, so nobody passes the
      wait of a later day. */
  lemma CrashBlocksLaterDays(ctx: Context, w: World, u: nat, c: nat, now: int)
    requires Inv(ctx, w) && u < |w.users| && c < |w.users|
    requires w.users[c].phase.Crashed? && w.users[u].phase.DayBarrier?
    requires w.users[c].phase.day < w.users[u].phase.day
    ensures Next(ctx, w, u, now).None?
  {
    var k := w.users[u].phase.day;
    ActiveBound(ctx, w);
    CountedAreActive(ctx, w, IsClosed(k));
    var A := Which(w.users, IsActive);
    assert UserOk(ctx, w.users[c]);
    assert c in A;
    assert |A - {c}| == |A| - 1;
    Oulad.SubsetCard(Which(w.users, IsClosed(k)), A - {c});
  }

  /** An error user never moves a counter and issues no request. */
  lemma ErrorUserUncounted(ctx: Context, w: World, u: nat, now: int)
    requires Inv(ctx, w) && u < |w.users| && w.users[u].profile.error.Some?
    requires Next(ctx, w, u, now).Some?
    ensures Next(ctx, w, u, now).value.store == w.store
    ensures Next(ctx, w, u, now).value.requests == w.requests
    ensures Next(ctx, w, u, now).value.users[u].phase == Quit
  {
  }

  /** After any step the counters of `navigate` count users: `login` is the number of users
      that have logged in, and the counter of each day of the plan the number of users that
      have finished that day. */
  lemma NextCounts(ctx: Context, w: World, u: nat, now: int)
    requires Inv(ctx, w) && u < |w.users| && Next(ctx, w, u, now).Some?
    ensures var w' := Next(ctx, w, u, now).value;
      && Login in w'.store
      && w'.store[Login] == |set i | 0 <= i < |w'.users| && LoggedIn(w'.users[i].phase)|
      && forall k :: 0 <= k < |ctx.plan.days| ==>
           Day(ctx.plan.days[k]) in w'.store &&
           w'.store[Day(ctx.plan.days[k])] == |set i | 0 <= i < |w'.users| && Closed(w'.users[i].phase, k)|
  {
    var w' := Next(ctx, w, u, now).value;
    NextKeepsInv(ctx, w, u, now);
    assert Which(w'.users, IsLoggedIn) == set i | 0 <= i < |w'.users| && LoggedIn(w'.users[i].phase);
    forall k | 0 <= k < |ctx.plan.days|
      ensures w'.store[Day(ctx.plan.days[k])] == |set i | 0 <= i < |w'.users| && Closed(w'.users[i].phase, k)|
    {
      assert Which(w'.users, IsClosed(k)) == set i | 0 <= i < |w'.users| && Closed(w'.users[i].phase, k);
    }
  }

  // ---------------------------------------------------------------------------------------
  // One step changes one user
  // ---------------------------------------------------------------------------------------

  /** A step changes the phase of the user that takes it and nothing of the other users; its
      profile stays, stopped users do not step, the store is left alone or one counter is
      incremented, and at most one request, by this user, is appended. */
  lemma NextIsLocal(ctx: Context, w: World, u: nat, now: int)
    requires u < |w.users| && Next(ctx, w, u, now).Some?
    ensures var w' := Next(ctx, w, u, now).value;
      && w'.users == w.users[u := w'.users[u]]
      && w'.users[u].profile == w.users[u].profile
      && !Stopped(w.users[u].phase)
      && (w'.store == w.store || exists k :: w'.store == Incr(w.store, k))
      && (w'.requests == w.requests || exists p :: w'.requests == w.requests + [Request(u, p)])
  {
    var w' := Next(ctx, w, u, now).value;
    var user := w.users[u];
    match user.phase {
      case Starting =>
        assert w'.store == Incr(w.store, Login);
      case Bursting(k, j, sent) =>
        var plan := user.profile.plan;
        if j < |plan[k].bursts| && sent < plan[k].bursts[j].count {
          assert w'.requests == w.requests + [Request(u, plan[k].bursts[j].position)];
        } else if !(j < |plan[k].bursts| && !(ctx.fixedDay && now - user.dayStart > DayDuration(ctx))) {
          assert w'.store == Incr(w.store, Day(plan[k].date));
        }
      case _ =>
    }
  }

  /** Days are entered in order: the first from the login wait, each later one from the wait
      of the day before. */
  lemma DaysInOrder(ctx: Context, w: World, u: nat, now: int, k: nat)
    requires u < |w.users| && Next(ctx, w, u, now).Some?
    requires !w.users[u].phase.Bursting? && Next(ctx, w, u, now).value.users[u].phase == Bursting(k, 0, 0)
    ensures if k == 0 then w.users[u].phase == LoginBarrier else w.users[u].phase == DayBarrier(k - 1)
  {
  }

  // ---------------------------------------------------------------------------------------
  // Bursts, overruns and the sleep after a day
  // ---------------------------------------------------------------------------------------

  /** `n` steps of user `u` at tick `now`, no other user moving in between. */
  function Run(ctx: Context, w: World, u: nat, n: nat, now: int): Option<World> {
    if n == 0 then Some(w)
    else
      match Run(ctx, w, u, n - 1, now)
      case None => None
      case Some(w1) => if u < |w1.users| then Next(ctx, w1, u, now) else None
  }

  function Repeat(r: Request, n: nat): (rs: seq<Request>)
    ensures |rs| == n && forall i :: 0 <= i < n ==> rs[i] == r
  {
    if n == 0 then [] else Repeat(r, n - 1) + [r]
  }

  /** Burst `j` of day `k` issues its request `count` times in a row, appending nothing else
      and moving no counter. */
  lemma {:induction false} BurstRequests(ctx: Context, w: World, u: nat, now: int, n: nat)
    requires u < |w.users|
    requires var user := w.users[u];
      && user.phase.Bursting? && user.phase.sent == 0
      && user.phase.day < |user.profile.plan|
      && user.phase.burst < |user.profile.plan[user.phase.day].bursts|
      && n <= user.profile.plan[user.phase.day].bursts[user.phase.burst].count
    ensures var user := w.users[u];
      var Bursting(k, j, _) := user.phase;
      Run(ctx, w, u, n, now) ==
        Some(World(w.store, w.users[u := user.(phase := Bursting(k, j, n))],
                   w.requests + Repeat(Request(u, user.profile.plan[k].bursts[j].position), n)))
  {
    var user := w.users[u];
    var Bursting(k, j, _) := user.phase;
    var r := Request(u, user.profile.plan[k].bursts[j].position);
    if n == 0 {
      assert w.users[u := user.(phase := Bursting(k, j, 0))] == w.users;
      assert w.requests + Repeat(r, 0) == w.requests;
    } else {
      BurstRequests(ctx, w, u, now, n - 1);
      var w1 := World(w.store, w.users[u := user.(phase := Bursting(k, j, n - 1))],
                      w.requests + Repeat(r, n - 1));
      NextBursting(ctx, w1, u, now);
      assert w1.users[u := user.(phase := Bursting(k, j, n))] == w.users[u := user.(phase := Bursting(k, j, n))];
      assert w.requests + Repeat(r, n - 1) + [r] == w.requests + Repeat(r, n);
    }
  }

  /** After a burst, in fixed-day mode, an overrun counts the day at once and skips the
      remaining bursts; otherwise the next burst follows. */
  lemma OverrunSkipsRestOfDay(ctx: Context, w: World, u: nat, now: int)
    requires u < |w.users|
    requires var user := w.users[u];
      && user.phase.Bursting? && user.phase.day < |user.profile.plan|
      && user.phase.burst < |user.profile.plan[user.phase.day].bursts|
      && user.phase.sent >= user.profile.plan[user.phase.day].bursts[user.phase.burst].count
    ensures var user := w.users[u];
      var k := user.phase.day;
      var overrun := ctx.fixedDay && now - user.dayStart > DayDuration(ctx);
      && (overrun ==>
            (Next(ctx, w, u, now) ==
               Some(World(Incr(w.store, Day(user.profile.plan[k].date)),
                          w.users[u := user.(phase := AfterDay(ctx, user, k, now))], w.requests))))
      && (!overrun ==>
            (Next(ctx, w, u, now) ==
               Some(w.(users := w.users[u := user.(phase := Bursting(k, user.phase.burst + 1, 0))]))))
  {
    NextBursting(ctx, w, u, now);
  }

  /** In fixed-day mode the sleep after an overrun has a negative length: the strict sleep
      fails, and the cooperative one ends at once, the fixed end of the day being past. */
  lemma OverrunSleep(ctx: Context, user: UserState, k: nat, now: int)
    requires ctx.fixedDay && now - user.dayStart > DayDuration(ctx)
    ensures ctx.strictSleep ==> AfterDay(ctx, user, k, now) == Crashed(k)
    ensures !ctx.strictSleep ==> AfterDay(ctx, user, k, now).Sleeping? && AfterDay(ctx, user, k, now).until < now
  {
  }

  /** Without an overrun the user sleeps until the fixed end of the day. */
  lemma OnTimeSleep(ctx: Context, user: UserState, k: nat, now: int)
    requires ctx.fixedDay && now - user.dayStart <= DayDuration(ctx)
    ensures AfterDay(ctx, user, k, now) == Sleeping(k, user.dayStart + DayDuration(ctx))
    ensures user.dayStart + DayDuration(ctx) >= now
  {
  }

  // ---------------------------------------------------------------------------------------
  // The wait of error users
  // ---------------------------------------------------------------------------------------

  /** The guard of the error users' wait as written: the runner's count of running users has
      reached `moodle_students`. The machine uses the number of spawned users instead. */
  predicate MayStopAsWritten(ctx: Context, w: World)
    ensures MayStopAsWritten(ctx, w) ==> |w.users| >= ctx.moodleStudents
  {
    LiveCount(w.users) >= ctx.moodleStudents
  }

  lemma {:induction false} LiveCountBelow(users: seq<UserState>, q: nat)
    requires q < |users| && Stopped(users[q].phase)
    ensures LiveCount(users) < |users|
  {
    if q < |users| - 1 {
      LiveCountBelow(users[..|users| - 1], q);
    }
  }

  lemma {:induction false} LiveCountUpdate(users: seq<UserState>, u: nat, x: UserState)
    requires u < |users| && (Stopped(users[u].phase) ==> Stopped(x.phase))
    ensures LiveCount(users[u := x]) <= LiveCount(users)
  {
    var last := |users| - 1;
    if u == last {
      assert users[u := x][..last] == users[..last];
    } else {
      LiveCountUpdate(users[..last], u, x);
      assert users[u := x][..last] == users[..last][u := x];
    }
  }

  /** No step raises the count of running users. */
  lemma NextLiveCount(ctx: Context, w: World, u: nat, now: int)
    requires u < |w.users| && Next(ctx, w, u, now).Some?
    ensures LiveCount(Next(ctx, w, u, now).value.users) <= LiveCount(w.users)
  {
    var w' := Next(ctx, w, u, now).value;
    NextIsLocal(ctx, w, u, now);
    LiveCountUpdate(w.users, u, w'.users[u]);
  }

  /** Once every user is spawned and one has stopped, the guard as written is false, and no
      step makes it true again: an error user still waiting then waits forever. */
  lemma AsWrittenWaitsForever(ctx: Context, w: World, q: nat, u: nat, now: int)
    requires |w.users| == ctx.moodleStudents && q < |w.users| && Stopped(w.users[q].phase)
    ensures !MayStopAsWritten(ctx, w)
    ensures u < |w.users| && Next(ctx, w, u, now).Some? ==> !MayStopAsWritten(ctx, Next(ctx, w, u, now).value)
  {
    LiveCountBelow(w.users, q);
    if u < |w.users| && Next(ctx, w, u, now).Some? {
      NextLiveCount(ctx, w, u, now);
    }
  }

  /** Two users with `moodle_students` = 2 and one simulated student who has no mapped
      interaction: user 0 did not interact and user 1 is past the student table, so both are
      error users. Once the first stopped, the second can no longer stop as written, while
      the machine lets it stop. */
  lemma TwoErrorUsers(ctx: Context, now: int)
    requires ctx.moodleStudents == 2 && |ctx.plan.students| == 1 && ctx.plan.students[0].id !in ctx.plan.active
    ensures Spawned(ctx, 0).profile.error == Some(NoInteraction)
    ensures Spawned(ctx, 1).profile.error == Some(NoOuladMapping)
    ensures var w := World(map[], [Spawned(ctx, 0).(phase := Quit), Spawned(ctx, 1)], []);
      && !MayStopAsWritten(ctx, w)
      && Next(ctx, w, 1, now).Some? && Next(ctx, w, 1, now).value.users[1].phase == Quit
  {
    var w := World(map[], [Spawned(ctx, 0).(phase := Quit), Spawned(ctx, 1)], []);
    AsWrittenWaitsForever(ctx, w, 0, 1, now);
  }

  /** With the spawned count, every waiting error user stops once all users are spawned. */
  lemma ErrorUsersStop(ctx: Context, w: World, u: nat, now: int)
    requires u < |w.users| && w.users[u].phase.AwaitingSpawns? && |w.users| >= ctx.moodleStudents
    ensures Next(ctx, w, u, now) == Some(w.(users := w.users[u := w.users[u].(phase := Quit)]))
  {
  }

  // ---------------------------------------------------------------------------------------
  // The simulation
  // ---------------------------------------------------------------------------------------

  /** The shared store, the spawned users and the requests issued, changed in place by the
      test-start hook, by spawning and by the steps of the users. */
  class Simulation {
    const ctx: Context
    var store: Store
    var users: seq<UserState>
    var requests: seq<Request>

    function State(): World
      reads this
    {
      World(store, users, requests)
    }

    ghost predicate Valid()
      reads this
    {
      Inv(ctx, State())
    }

    /** A simulation over the store as it was left by earlier runs, before any user. */
    constructor(ctx: Context, initial: Store)
      ensures this.ctx == ctx && store == initial && users == [] && requests == []
    {
      this.ctx := ctx;
      store := initial;
      users := [];
      requests := [];
    }

    /** `on_test_start`: sets `login` and then each day counter to 0. */
    method OnTestStart()
      requires users == [] && ValidContext(ctx)
      modifies this
      ensures store == Reset(old(store), ctx.plan.days)
      ensures users == old(users) && requests == old(requests)
      ensures Valid()
    {
      var s := ResetCounters(store, ctx.plan.days);
      InitialInv(ctx, store);
      store := s;
    }

    /** The runner spawns a user; `on_start` classifies it by its ordinal. */
    method Spawn(ordinal: nat)
      requires Valid()
      requires forall i :: 0 <= i < |users| ==> users[i].profile.id != ordinal
      modifies this
      ensures users == old(users) + [Spawned(ctx, ordinal)]
      ensures store == old(store) && requests == old(requests)
      ensures Valid()
    {
      SpawnKeepsInv(ctx, State(), ordinal);
      users := users + [Spawned(ctx, ordinal)];
    }

    /** User `u` takes one step of `navigate` at tick `now`, if it is not waiting. */
    method Step(u: nat, now: int) returns (moved: bool)
      requires Valid() && u < |users|
      modifies this
      ensures moved == Next(ctx, old(State()), u, now).Some?
      ensures moved ==> State() == Next(ctx, old(State()), u, now).value
      ensures !moved ==> State() == old(State())
      ensures Valid()
    {
      var next := Next(ctx, State(), u, now);
      moved := next.Some?;
      if moved {
        NextKeepsInv(ctx, State(), u, now);
        store, users, requests := next.value.store, next.value.users, next.value.requests;
      }
    }
  }
}
