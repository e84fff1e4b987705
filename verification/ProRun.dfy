/// `run_pro_single_test` and `run_pro_multiconn_test` of `src/server_pro/server_loop.rs`:
/// read the budget, run the test, record the totals, over any sequence of sessions.
module ProRun {
  import opened Basics
  import opened Calendar
  import opened UsageDb
  import opened Quota
  import opened Bandwidth
  import opened BudgetRace

  /// One test: the day its budget is read, the day it is recorded, and everything its
  /// tasks did. With `serial`, `spend_budget` counts as one step.
  datatype Session = Session(name: string, ip: string, startDay: nat, endDay: nat,
                             tasks: nat, steps: seq<Step>, serial: bool)

  /// What makes a session keep the budget it read: spending is one step, or one task does
  /// all of it, or only one of the test's tasks affords a write or a read.
  ghost predicate Exclusive(s: Session, budget: nat) {
    || s.serial
    || (exists k: nat :: OnlySpender(s.steps, k))
    || (exists u: Setup :: OneAffords(u, budget) && AllowedRun(u, s.steps))
  }

  function RunOf(budget: nat, s: Session): Run {
    ApplyAll(Start(budget, s.tasks), s.steps, s.serial)
  }

  /// The whole of one session on the tables: the sent total goes into the inbound slot.
  ghost predicate SessionStep(l: Limits, users: map<string, User>, t: Tables, s: Session, t': Tables) {
    exists budget: nat ::
      IsBudget(Subject(t, s.name, s.ip, s.startDay), AllMeters(l, users, s.name), budget)
      && var run := RunOf(budget, s);
         t' == Recorded(t, s.name, s.ip, run.totalTx, run.totalRx, s.endDay)
  }

  method RunProTest(quota: QuotaManager, s: Session)
    modifies quota.db`usage, quota.db`ipUsage
    ensures SessionStep(quota.limits, quota.db.users, old(quota.Rows()), s, quota.Rows())
  {
    hide IsBudget, ApplyAll, Recorded;
    var state := new BandwidthState();
    var budget := quota.RemainingBudget(s.name, s.ip, s.startDay);
    if budget < U64_MAX {
      state.SetBudget(budget);
    }
    assert state.byteBudget == budget by { BudgetFitsU64(quota, s, budget); }
    var run := ApplyAll(Start(state.byteBudget, s.tasks), s.steps, s.serial);
    var totalTx, totalRx := run.totalTx, run.totalRx;
    quota.RecordUsage(s.name, s.ip, totalTx, totalRx, s.endDay);
  }

  lemma BudgetFitsU64(quota: QuotaManager, s: Session, budget: nat)
    requires IsBudget(Subject(quota.Rows(), s.name, s.ip, s.startDay), quota.BudgetMeters(s.name), budget)
    ensures budget <= U64_MAX
  {
  }

  // ---- One session ----

  function Max(a: nat, b: nat): nat {
    if a < b then b else a
  }

  /// The recorded total fits the budget that was read.
  lemma RecordedWithinBudget(budget: nat, s: Session)
    requires Exclusive(s, budget) && budget < U64_MAX
    ensures RunOf(budget, s).totalTx + RunOf(budget, s).totalRx <= budget
  {
    hide ApplyAll, OnlySpender, OneAffords, AllowedRun;
    if s.serial {
      NoOvershoot(budget, s.tasks, s.steps);
    } else if exists k: nat :: OnlySpender(s.steps, k) {
      var k: nat :| OnlySpender(s.steps, k);
      OneSpenderNoOvershoot(budget, s.tasks, s.steps, k);
    } else {
      var u: Setup :| OneAffords(u, budget) && AllowedRun(u, s.steps);
      OneAffordsNoOvershoot(budget, s.tasks, s.steps, u);
    }
  }

  /// A session that keeps its budget, on the tables.
  ghost predicate SafeStep(l: Limits, users: map<string, User>, t: Tables, s: Session, t': Tables) {
    exists budget: nat ::
      IsBudget(Subject(t, s.name, s.ip, s.startDay), AllMeters(l, users, s.name), budget) && Exclusive(s, budget)
      && var run := RunOf(budget, s);
         t' == Recorded(t, s.name, s.ip, run.totalTx, run.totalRx, s.endDay)
  }

  lemma SafeIsStep(l: Limits, users: map<string, User>, t: Tables, s: Session, t': Tables)
    requires SafeStep(l, users, t, s, t')
    ensures SessionStep(l, users, t, s, t')
  {
    hide IsBudget, RunOf, Quota.Recorded, AllMeters, Exclusive;
  }

  /// No use of a meter rises as days go by without recording.
  lemma UsedSlides(t: Tables, name: string, ip: string, column: Column, span: Span, day: nat, day': nat)
    requires day <= day' <= LAST_DAY && RowsBy(t.usage, day) && RowsBy(t.ipUsage, day)
    ensures Used(t, name, ip, day', column, span) <= Used(t, name, ip, day, column, span)
  {
    hide WindowOf, RowsBy;
    WindowSlides(t.usage, name, span, day, day');
    WindowSlides(t.ipUsage, ip, span, day, day');
  }

  /// A meter that measures the session's user or address is one that its budget respects.
  lemma BudgetRespects(l: Limits, users: map<string, User>, t: Tables, s: Session, name: string, ip: string,
                       m: Meter, budget: nat)
    requires IsBudget(Subject(t, s.name, s.ip, s.startDay), AllMeters(l, users, s.name), budget)
    requires m in AllMeters(l, users, name) && m.limit > 0
    requires if m.column == UserTotal then name == s.name else ip == s.ip
    ensures budget <= Saturating(m.limit, Used(t, name, ip, s.startDay, m.column, m.span))
  {
    hide SumTx, SumRx, WindowOf;
    var ms := AllMeters(l, users, s.name);
    IpMetersShared(l, users, name, s.name, m);
    var i :| 0 <= i < |ms| && ms[i] == m;
    assert UsedBy(Subject(t, s.name, s.ip, s.startDay), m) == Used(t, name, ip, s.startDay, m.column, m.span);
  }

  lemma IpMetersShared(l: Limits, users: map<string, User>, name: string, name': string, m: Meter)
    requires m in AllMeters(l, users, name) && (m.column == UserTotal ==> name == name')
    ensures m in AllMeters(l, users, name')
  {
  }

  /// Any meter, of anyone, after a session: within its limit, or no higher than before.
  lemma SessionKeepsMeter(l: Limits, users: map<string, User>, t: Tables, s: Session, t': Tables,
                          name: string, ip: string, m: Meter)
    requires SafeStep(l, users, t, s, t')
    requires s.startDay <= s.endDay <= LAST_DAY && RowsBy(t.usage, s.startDay) && RowsBy(t.ipUsage, s.startDay)
    requires m in AllMeters(l, users, name) && 0 < m.limit < U64_MAX
    ensures Used(t', name, ip, s.endDay, m.column, m.span)
         <= Max(m.limit, Used(t, name, ip, s.startDay, m.column, m.span))
  {
    hide Used, Recorded, RowsBy, AllMeters, IsBudget, RunOf, Exclusive;
    var budget: nat :| IsBudget(Subject(t, s.name, s.ip, s.startDay), AllMeters(l, users, s.name), budget)
      && Exclusive(s, budget)
      && t' == Recorded(t, s.name, s.ip, RunOf(budget, s).totalTx, RunOf(budget, s).totalRx, s.endDay);
    var run := RunOf(budget, s);
    RecordingRaises(t, s.name, s.ip, run.totalTx, run.totalRx, s.endDay, name, ip, m.column, m.span);
    UsedSlides(t, name, ip, m.column, m.span, s.startDay, s.endDay);
    if if m.column == UserTotal then name == s.name else ip == s.ip {
      BudgetRespects(l, users, t, s, name, ip, m, budget);
      RecordedWithinBudget(budget, s);
    }
  }

  lemma SessionDates(l: Limits, users: map<string, User>, t: Tables, s: Session, t': Tables)
    requires SessionStep(l, users, t, s, t')
    requires s.startDay <= s.endDay && RowsBy(t.usage, s.startDay) && RowsBy(t.ipUsage, s.startDay)
    ensures RowsBy(t'.usage, s.endDay) && RowsBy(t'.ipUsage, s.endDay)
  {
    hide RowsBy, IsBudget, RunOf, AllMeters, DayText;
    var budget: nat :| IsBudget(Subject(t, s.name, s.ip, s.startDay), AllMeters(l, users, s.name), budget)
      && t' == Recorded(t, s.name, s.ip, RunOf(budget, s).totalTx, RunOf(budget, s).totalRx, s.endDay);
    var run := RunOf(budget, s);
    UpsertRowsBy(t.usage, s.name, run.totalRx, run.totalTx, s.startDay, s.endDay);
    UpsertRowsBy(t.ipUsage, s.ip, run.totalRx, run.totalTx, s.startDay, s.endDay);
  }

  // ---- Whole runs ----

  /// Sessions that keep their budgets, one after the other, from `t` on `day` to `t'` on
  /// `day'`, with the day never going back.
  ghost predicate Sessions(l: Limits, users: map<string, User>, t: Tables, day: nat, ss: seq<Session>,
                           t': Tables, day': nat)
    decreases |ss|
  {
    if ss == [] then t' == t && day <= day'
    else
      var s := ss[0];
      day <= s.startDay <= s.endDay
      && exists u: Tables :: SafeStep(l, users, t, s, u) && Sessions(l, users, u, s.endDay, ss[1..], t', day')
  }

  lemma RowsByLater(rows: seq<Row>, day: nat, day': nat)
    requires day <= day' && RowsBy(rows, day)
    ensures RowsBy(rows, day')
  {
    hide DayText;
    forall r | r in rows ensures DatedBy(r.date, day') {
      assert DatedBy(r.date, day);
    }
  }

  lemma {:induction false} DaysAdvance(l: Limits, users: map<string, User>, t: Tables, day: nat,
                                       ss: seq<Session>, t': Tables, day': nat)
    requires Sessions(l, users, t, day, ss, t', day')
    ensures day <= day'
    decreases |ss|
  {
    if ss != [] {
      var u: Tables :| SafeStep(l, users, t, ss[0], u) && Sessions(l, users, u, ss[0].endDay, ss[1..], t', day');
      DaysAdvance(l, users, u, ss[0].endDay, ss[1..], t', day');
    }
  }

  /// Over any sequence of sessions no set limit is passed by a usage that was within it;
  /// a usage that was already past its limit does not grow.
  lemma {:induction false} QuotaSafety(l: Limits, users: map<string, User>, t: Tables, day: nat,
                                       ss: seq<Session>, t': Tables, day': nat,
                                       name: string, ip: string, m: Meter)
    requires Sessions(l, users, t, day, ss, t', day') && day' <= LAST_DAY
    requires RowsBy(t.usage, day) && RowsBy(t.ipUsage, day)
    requires m in AllMeters(l, users, name) && 0 < m.limit < U64_MAX
    ensures Used(t', name, ip, day', m.column, m.span) <= Max(m.limit, Used(t, name, ip, day, m.column, m.span))
    decreases |ss|
  {
    hide Used, RowsBy, AllMeters, SafeStep, SessionStep;
    if ss == [] {
      UsedSlides(t, name, ip, m.column, m.span, day, day');
    } else {
      var s := ss[0];
      var u: Tables :| SafeStep(l, users, t, s, u) && Sessions(l, users, u, s.endDay, ss[1..], t', day');
      DaysAdvance(l, users, u, s.endDay, ss[1..], t', day');
      RowsByLater(t.usage, day, s.startDay);
      RowsByLater(t.ipUsage, day, s.startDay);
      UsedSlides(t, name, ip, m.column, m.span, day, s.startDay);
      SessionKeepsMeter(l, users, t, s, u, name, ip, m);
      SafeIsStep(l, users, t, s, u);
      SessionDates(l, users, t, s, u);
      QuotaSafety(l, users, u, s.endDay, ss[1..], t', day', name, ip, m);
    }
  }

  /// A set limit was not passed, or not further than before.
  predicate Held(limit: nat, before: nat, after: nat) {
    0 < limit < U64_MAX ==> after <= Max(limit, before)
  }

  predicate HeldEach(before: Span -> nat, after: Span -> nat, daily: nat, weekly: nat, monthly: nat) {
    && Held(daily, before(DaySpan), after(DaySpan)) && Held(weekly, before(WeekSpan), after(WeekSpan))
    && Held(monthly, before(MonthSpan), after(MonthSpan))
  }

  predicate MeterHeld(s: Subject, s': Subject, m: Meter) {
    Held(m.limit, UsedBy(s, m), UsedBy(s', m))
  }

  lemma HeldOfThree(s: Subject, s': Subject, column: Column, before: Span -> nat, after: Span -> nat, ms: seq<Meter>)
    requires EachSpan(column, ms)
    requires forall m :: m in ms ==> MeterHeld(s, s', m)
    requires forall span :: before(span) == Used(s.t, s.name, s.ip, s.today, column, span)
    requires forall span :: after(span) == Used(s'.t, s'.name, s'.ip, s'.today, column, span)
    ensures HeldEach(before, after, ms[0].limit, ms[1].limit, ms[2].limit)
  {
    hide Used, Held;
    assert MeterHeld(s, s', ms[0]) && MeterHeld(s, s', ms[1]) && MeterHeld(s, s', ms[2]);
  }

  lemma HeldOfAll(s: Subject, s': Subject, l: Limits, users: map<string, User>)
    requires s'.name == s.name && s'.ip == s.ip
    requires s.name in users ==> forall m :: m in UserMeters(l, users[s.name]) ==> MeterHeld(s, s', m)
    requires forall m :: m in CombinedMeters(l) ==> MeterHeld(s, s', m)
    requires forall m :: m in InboundMeters(l) ==> MeterHeld(s, s', m)
    requires forall m :: m in OutboundMeters(l) ==> MeterHeld(s, s', m)
    ensures s.name in users ==>
              HeldEach(UserBytes(s.t, s.name, s.today), UserBytes(s'.t, s.name, s'.today),
                       if users[s.name].dailyQuota > 0 then users[s.name].dailyQuota else l.defaultDaily,
                       if users[s.name].weeklyQuota > 0 then users[s.name].weeklyQuota else l.defaultWeekly,
                       l.defaultMonthly)
    ensures HeldEach(IpBytes(s.t, s.ip, s.today), IpBytes(s'.t, s.ip, s'.today), l.ipDaily, l.ipWeekly, l.ipMonthly)
    ensures HeldEach(IpReceived(s.t, s.ip, s.today), IpReceived(s'.t, s.ip, s'.today),
                     l.ipDailyInbound, l.ipWeeklyInbound, l.ipMonthlyInbound)
    ensures HeldEach(IpSent(s.t, s.ip, s.today), IpSent(s'.t, s.ip, s'.today),
                     l.ipDailyOutbound, l.ipWeeklyOutbound, l.ipMonthlyOutbound)
  {
    hide Used, HeldEach, MeterHeld;
    BytesOfUser(s);
    BytesOfUser(s');
    BytesOfIp(s);
    BytesOfIp(s');
    if s.name in users {
      HeldOfThree(s, s', UserTotal, UserBytes(s.t, s.name, s.today), UserBytes(s'.t, s.name, s'.today),
                  UserMeters(l, users[s.name]));
    }
    HeldOfThree(s, s', IpTotal, IpBytes(s.t, s.ip, s.today), IpBytes(s'.t, s.ip, s'.today), CombinedMeters(l));
    HeldOfThree(s, s', IpInbound, IpReceived(s.t, s.ip, s.today), IpReceived(s'.t, s.ip, s'.today), InboundMeters(l));
    HeldOfThree(s, s', IpOutbound, IpSent(s.t, s.ip, s.today), IpSent(s'.t, s.ip, s'.today), OutboundMeters(l));
  }

  /// The limits one by one: three of every user and nine of every address.
  lemma QuotaSafetyByField(l: Limits, users: map<string, User>, t: Tables, day: nat, ss: seq<Session>,
                           t': Tables, day': nat, name: string, ip: string)
    requires Sessions(l, users, t, day, ss, t', day') && day' <= LAST_DAY
    requires RowsBy(t.usage, day) && RowsBy(t.ipUsage, day)
    ensures name in users ==>
              HeldEach(UserBytes(t, name, day), UserBytes(t', name, day'),
                       if users[name].dailyQuota > 0 then users[name].dailyQuota else l.defaultDaily,
                       if users[name].weeklyQuota > 0 then users[name].weeklyQuota else l.defaultWeekly,
                       l.defaultMonthly)
    ensures HeldEach(IpBytes(t, ip, day), IpBytes(t', ip, day'), l.ipDaily, l.ipWeekly, l.ipMonthly)
    ensures HeldEach(IpReceived(t, ip, day), IpReceived(t', ip, day'),
                     l.ipDailyInbound, l.ipWeeklyInbound, l.ipMonthlyInbound)
    ensures HeldEach(IpSent(t, ip, day), IpSent(t', ip, day'),
                     l.ipDailyOutbound, l.ipWeeklyOutbound, l.ipMonthlyOutbound)
  {
    hide Sessions, RowsBy, Used, AllMeters, HeldEach, CombinedMeters, InboundMeters, OutboundMeters, UserMeters;
    var s, s' := Subject(t, name, ip, day), Subject(t', name, ip, day');
    forall m | m in AllMeters(l, users, name) ensures MeterHeld(s, s', m) {
      if 0 < m.limit < U64_MAX { QuotaSafety(l, users, t, day, ss, t', day', name, ip, m); }
    }
    MetersOfAll(l, users, name);
    HeldOfAll(s, s', l, users);
  }

  // ---- What one session does to the tables ----

  /// The budget read is the only one there is, so a session has one outcome.
  lemma SessionDeterministic(l: Limits, users: map<string, User>, t: Tables, s: Session, t': Tables, t'': Tables)
    requires SessionStep(l, users, t, s, t') && SessionStep(l, users, t, s, t'')
    ensures t' == t''
  {
    hide Quota.Recorded, IsBudget, RunOf, AllMeters;
    var subject, ms := Subject(t, s.name, s.ip, s.startDay), AllMeters(l, users, s.name);
    var b: nat :| IsBudget(subject, ms, b)
      && t' == Recorded(t, s.name, s.ip, RunOf(b, s).totalTx, RunOf(b, s).totalRx, s.endDay);
    var b': nat :| IsBudget(subject, ms, b')
      && t'' == Recorded(t, s.name, s.ip, RunOf(b', s).totalTx, RunOf(b', s).totalRx, s.endDay);
    BudgetUnique(subject, ms, b, b');
  }

  /// How much a usage of the session's user or address rises.
  function Rise(t: Tables, t': Tables, s: Session, column: Column, span: Span): int {
    Used(t', s.name, s.ip, s.endDay, column, span) as int - Used(t, s.name, s.ip, s.endDay, column, span)
  }

  /// A session raises the inbound usage by what was sent and the outbound usage by what was
  /// received, so both are right exactly when the two totals are equal.
  lemma SlotsSwapped(l: Limits, users: map<string, User>, t: Tables, s: Session, t': Tables, span: Span, budget: nat)
    requires s.endDay <= LAST_DAY && SessionStep(l, users, t, s, t')
    requires IsBudget(Subject(t, s.name, s.ip, s.startDay), AllMeters(l, users, s.name), budget)
    ensures var run := RunOf(budget, s);
            var inbound, outbound := Rise(t, t', s, IpInbound, span), Rise(t, t', s, IpOutbound, span);
            && inbound == run.totalTx && outbound == run.totalRx
            && (inbound == run.totalRx && outbound == run.totalTx <==> run.totalTx == run.totalRx)
  {
    hide Used, Quota.Recorded, IsBudget, RunOf, AllMeters;
    var run := RunOf(budget, s);
    var rightful := Recorded(t, s.name, s.ip, run.totalTx, run.totalRx, s.endDay);
    assert SessionStep(l, users, t, s, rightful);
    SessionDeterministic(l, users, t, s, t', rightful);
    RecordingRaises(t, s.name, s.ip, run.totalTx, run.totalRx, s.endDay, s.name, s.ip, IpInbound, span);
    RecordingRaises(t, s.name, s.ip, run.totalTx, run.totalRx, s.endDay, s.name, s.ip, IpOutbound, span);
  }

  // ---- Exactly which limits hold ----

  /// A session of one day as the code runs it, with the tasks of a test.
  ghost predicate Tests(s: Session, name: string, ip: string, day: nat, tasks: nat, u: Setup) {
    && s.name == name && s.ip == ip && s.startDay == s.endDay == day && s.tasks == tasks
    && !s.serial && AllowedRun(u, s.steps)
  }

  /// No such session takes the meter past its limit, or past where it was.
  ghost predicate MeterHolds(l: Limits, users: map<string, User>, t: Tables, name: string, ip: string,
                             day: nat, tasks: nat, u: Setup, m: Meter) {
    forall s: Session, t': Tables ::
      Tests(s, name, ip, day, tasks, u) && SessionStep(l, users, t, s, t') ==>
        Used(t', name, ip, day, m.column, m.span) <= Max(m.limit, Used(t, name, ip, day, m.column, m.span))
  }

  /// The test records something that raises this column: sent bytes go into the inbound
  /// slot, received ones into the outbound slot.
  ghost predicate Raises(u: Setup, column: Column) {
    match column
    case UserTotal => Reaches(u, true) || Reaches(u, false)
    case IpTotal => Reaches(u, true) || Reaches(u, false)
    case IpInbound => Reaches(u, true)
    case IpOutbound => Reaches(u, false)
  }

  lemma TestHolds(l: Limits, users: map<string, User>, t: Tables, s: Session, t': Tables,
                  day: nat, u: Setup, m: Meter, budget: nat)
    requires day <= LAST_DAY && RowsBy(t.usage, day) && RowsBy(t.ipUsage, day) && WellFormed(u, s.tasks)
    requires Tests(s, s.name, s.ip, day, s.tasks, u) && SessionStep(l, users, t, s, t')
    requires m in AllMeters(l, users, s.name) && 0 < m.limit < U64_MAX
    requires IsBudget(Subject(t, s.name, s.ip, day), AllMeters(l, users, s.name), budget)
    requires OneAffords(u, budget) || !Raises(u, m.column)
    ensures Used(t', s.name, s.ip, day, m.column, m.span) <= Max(m.limit, Used(t, s.name, s.ip, day, m.column, m.span))
  {
    hide Used, Quota.Recorded, AllMeters, IsBudget, RowsBy, ApplyAll, Reaches, WellFormed, AllowedRun, OneAffords;
    var run := RunOf(budget, s);
    SessionDeterministic(l, users, t, s, t', Recorded(t, s.name, s.ip, run.totalTx, run.totalRx, day));
    RecordingRaises(t, s.name, s.ip, run.totalTx, run.totalRx, day, s.name, s.ip, m.column, m.span);
    if OneAffords(u, budget) {
      BudgetRespects(l, users, t, s, s.name, s.ip, m, budget);
      OneAffordsNoOvershoot(budget, s.tasks, s.steps, u);
    } else {
      if !Reaches(u, true) { NotReachedNotRecorded(budget, s.tasks, s.steps, u, true); }
      if !Reaches(u, false) { NotReachedNotRecorded(budget, s.tasks, s.steps, u, false); }
    }
  }

  /// Otherwise some run of the test passes the limit, from any usage below it.
  lemma RacePassesLimit(l: Limits, users: map<string, User>, t: Tables, name: string, ip: string,
                        day: nat, tasks: nat, u: Setup, m: Meter, budget: nat)
      returns (s: Session, t': Tables)
    requires day <= LAST_DAY && WellFormed(u, tasks)
    requires m in AllMeters(l, users, name) && 0 < m.limit <= U64_MAX - 2 * CHUNK
    requires IsBudget(Subject(t, name, ip, day), AllMeters(l, users, name), budget)
    requires !OneAffords(u, budget) && Raises(u, m.column)
    ensures Tests(s, name, ip, day, tasks, u) && SessionStep(l, users, t, s, t')
    ensures Used(t', name, ip, day, m.column, m.span) > m.limit
    ensures Used(t, name, ip, day, m.column, m.span) < m.limit
  {
    hide Used, Quota.Recorded, AllMeters, IsBudget, ApplyAll, Reaches, WellFormed, AllowedRun;
    var sent := if m.column == IpOutbound then false else m.column == IpInbound || Reaches(u, true);
    var idle := Session(name, ip, day, day, tasks, [], false);
    BudgetRespects(l, users, t, idle, name, ip, m, budget);
    SomethingLeft(u, tasks, budget);
    var steps := AnyAmountExceeded(u, tasks, budget, sent, m.limit);
    s := Session(name, ip, day, day, tasks, steps, false);
    var run := RunOf(budget, s);
    t' := Recorded(t, name, ip, run.totalTx, run.totalRx, day);
    RecordingRaises(t, name, ip, run.totalTx, run.totalRx, day, name, ip, m.column, m.span);
  }

  lemma SomethingLeft(u: Setup, tasks: nat, budget: nat)
    requires WellFormed(u, tasks) && !OneAffords(u, budget)
    ensures budget > 0
  {
  }

  /// Exactly when a set limit holds for a test: at most one of its tasks affords what is
  /// left, or the test records nothing that raises the usage.
  lemma MeterHoldsExactly(l: Limits, users: map<string, User>, t: Tables, name: string, ip: string,
                          day: nat, tasks: nat, u: Setup, m: Meter, budget: nat)
    requires day <= LAST_DAY && RowsBy(t.usage, day) && RowsBy(t.ipUsage, day) && WellFormed(u, tasks)
    requires m in AllMeters(l, users, name) && 0 < m.limit <= U64_MAX - 2 * CHUNK
    requires IsBudget(Subject(t, name, ip, day), AllMeters(l, users, name), budget)
    ensures MeterHolds(l, users, t, name, ip, day, tasks, u, m) <==> OneAffords(u, budget) || !Raises(u, m.column)
  {
    hide Used, AllMeters, IsBudget, SessionStep, RowsBy, Raises, OneAffords, WellFormed, AllowedRun;
    if OneAffords(u, budget) || !Raises(u, m.column) {
      forall s: Session, t': Tables | Tests(s, name, ip, day, tasks, u) && SessionStep(l, users, t, s, t')
        ensures Used(t', name, ip, day, m.column, m.span) <= Max(m.limit, Used(t, name, ip, day, m.column, m.span))
      {
        TestHolds(l, users, t, s, t', day, u, m, budget);
      }
    } else {
      var s, t' := RacePassesLimit(l, users, t, name, ip, day, tasks, u, m, budget);
    }
  }

  /// The tests one by one: which limits of which columns hold whatever is left.
  lemma TestMeters(l: Limits, users: map<string, User>, t: Tables, name: string, ip: string,
                   day: nat, k: TestKind, m: Meter, budget: nat)
    requires day <= LAST_DAY && RowsBy(t.usage, day) && RowsBy(t.ipUsage, day) && RealKind(k)
    requires m in AllMeters(l, users, name) && 0 < m.limit <= U64_MAX - 2 * CHUNK
    requires IsBudget(Subject(t, name, ip, day), AllMeters(l, users, name), budget)
    ensures MeterHolds(l, users, t, name, ip, day, TasksOf(k), SetupOf(k), m) <==>
              || KeepsBudget(k, budget)
              || (m.column == IpOutbound && !Receives(k))
              || (m.column == IpInbound && (!Transmits(k) || (k.TcpBoth? && k.streams == 1)))
  {
    hide Used, AllMeters, IsBudget, MeterHolds, RowsBy, Reaches, OneAffords, WellFormed, SetupOf, KeepsBudget;
    SetupIsWellFormed(k);
    MeterHoldsExactly(l, users, t, name, ip, day, TasksOf(k), SetupOf(k), m, budget);
    KindAffords(k, budget);
    KindReaches(k);
  }
}
