/// `QuotaManager` of `src/server_pro/quota.rs`: twelve limits over three windows, the
/// checks before a test, the byte budget for a test, and the recording after it.
module Quota {
  import opened Basics
  import opened Calendar
  import opened UsageDb

  datatype Direction = Inbound | Outbound | Both

  /// All limits are u64; 0 means unlimited.
  datatype Limits = Limits(
    defaultDaily: nat, defaultWeekly: nat, defaultMonthly: nat,
    ipDaily: nat, ipWeekly: nat, ipMonthly: nat,
    ipDailyInbound: nat, ipDailyOutbound: nat,
    ipWeeklyInbound: nat, ipWeeklyOutbound: nat,
    ipMonthlyInbound: nat, ipMonthlyOutbound: nat,
    maxConnPerIp: nat)

  datatype Column = UserTotal | IpTotal | IpInbound | IpOutbound

  datatype QuotaError =
    | Exceeded(column: Column, span: Span, used: nat, limit: nat)
    | TooManyConnections(current: nat, limit: nat)
    | UserDisabled
    | UserNotFound

  datatype Check = Ok | Err(error: QuotaError)

  /// One limit with what it measures.
  datatype Meter = Meter(column: Column, span: Span, limit: nat)

  /// What the rows of both tables say about a user and an address.
  datatype Tables = Tables(usage: seq<Row>, ipUsage: seq<Row>)

  function Used(t: Tables, name: string, ip: string, today: nat, column: Column, span: Span): nat {
    var w := WindowOf(span, today);
    match column
    case UserTotal => SumTx(t.usage, name, w) + SumRx(t.usage, name, w)
    case IpTotal => SumRx(t.ipUsage, ip, w) + SumTx(t.ipUsage, ip, w)
    case IpInbound => SumRx(t.ipUsage, ip, w)
    case IpOutbound => SumTx(t.ipUsage, ip, w)
  }

  // ---- The limits as a table ----

  /// A user's own quota overrides the default when it is positive.
  function Override(own: int, default: nat): nat {
    if own > 0 then own else default
  }

  function UserMeters(l: Limits, u: User): (ms: seq<Meter>)
    ensures |ms| == 3
  {
    [Meter(UserTotal, DaySpan, Override(u.dailyQuota, l.defaultDaily)),
     Meter(UserTotal, WeekSpan, Override(u.weeklyQuota, l.defaultWeekly)),
     Meter(UserTotal, MonthSpan, l.defaultMonthly)]
  }

  function CombinedMeters(l: Limits): (ms: seq<Meter>)
    ensures |ms| == 3
  {
    [Meter(IpTotal, DaySpan, l.ipDaily), Meter(IpTotal, WeekSpan, l.ipWeekly), Meter(IpTotal, MonthSpan, l.ipMonthly)]
  }

  function InboundMeters(l: Limits): (ms: seq<Meter>)
    ensures |ms| == 3
  {
    [Meter(IpInbound, DaySpan, l.ipDailyInbound), Meter(IpInbound, WeekSpan, l.ipWeeklyInbound),
     Meter(IpInbound, MonthSpan, l.ipMonthlyInbound)]
  }

  function OutboundMeters(l: Limits): (ms: seq<Meter>)
    ensures |ms| == 3
  {
    [Meter(IpOutbound, DaySpan, l.ipDailyOutbound), Meter(IpOutbound, WeekSpan, l.ipWeeklyOutbound),
     Meter(IpOutbound, MonthSpan, l.ipMonthlyOutbound)]
  }

  function IpMeters(l: Limits, d: Direction): seq<Meter> {
    CombinedMeters(l)
    + (if d == Outbound then [] else InboundMeters(l))
    + (if d == Inbound then [] else OutboundMeters(l))
  }

  function KnownUserMeters(l: Limits, users: map<string, User>, name: string): seq<Meter> {
    if name in users then UserMeters(l, users[name]) else []
  }

  /// The meters `remaining_budget` goes through, in its order.
  function AllMeters(l: Limits, users: map<string, User>, name: string): seq<Meter> {
    KnownUserMeters(l, users, name) + CombinedMeters(l)
    + [Meter(IpInbound, DaySpan, l.ipDailyInbound), Meter(IpOutbound, DaySpan, l.ipDailyOutbound),
       Meter(IpInbound, WeekSpan, l.ipWeeklyInbound), Meter(IpOutbound, WeekSpan, l.ipWeeklyOutbound),
       Meter(IpInbound, MonthSpan, l.ipMonthlyInbound), Meter(IpOutbound, MonthSpan, l.ipMonthlyOutbound)]
  }

  /// The subject of the checks: the tables on a day, for a user name and an address.
  datatype Subject = Subject(t: Tables, name: string, ip: string, today: nat)

  function UsedBy(s: Subject, m: Meter): nat {
    Used(s.t, s.name, s.ip, s.today, m.column, m.span)
  }

  /// Usage strictly below the limit, or no limit.
  ghost predicate Open(s: Subject, m: Meter) {
    m.limit == 0 || UsedBy(s, m) < m.limit
  }

  ghost predicate AllOpen(s: Subject, ms: seq<Meter>) {
    forall i :: 0 <= i < |ms| ==> Open(s, ms[i])
  }

  /// The check stops at the first meter that is not open.
  ghost predicate FirstExceeded(s: Subject, ms: seq<Meter>, e: QuotaError) {
    exists i :: 0 <= i < |ms| && !Open(s, ms[i]) && AllOpen(s, ms[..i])
      && e == Exceeded(ms[i].column, ms[i].span, UsedBy(s, ms[i]), ms[i].limit)
  }

  /// What a chain of checks over `ms` promises.
  ghost predicate CheckResult(s: Subject, ms: seq<Meter>, r: Check) {
    if AllOpen(s, ms) then r == Ok else r.Err? && FirstExceeded(s, ms, r.error)
  }

  // ---- The checks limit by limit ----

  function UserBytes(t: Tables, name: string, today: nat): Span -> nat {
    span => SumTx(t.usage, name, WindowOf(span, today)) + SumRx(t.usage, name, WindowOf(span, today))
  }

  function IpBytes(t: Tables, ip: string, today: nat): Span -> nat {
    span => SumTx(t.ipUsage, ip, WindowOf(span, today)) + SumRx(t.ipUsage, ip, WindowOf(span, today))
  }

  function IpReceived(t: Tables, ip: string, today: nat): Span -> nat {
    span => SumRx(t.ipUsage, ip, WindowOf(span, today))
  }

  function IpSent(t: Tables, ip: string, today: nat): Span -> nat {
    span => SumTx(t.ipUsage, ip, WindowOf(span, today))
  }

  predicate Below(bytes: nat, limit: nat) {
    limit == 0 || bytes < limit
  }

  /// The outcome for a limit on each window: the first one reached, with bytes and limit.
  function Verdict(column: Column, bytes: Span -> nat, daily: nat, weekly: nat, monthly: nat): (r: Check)
    ensures r == Ok <==>
              Below(bytes(DaySpan), daily) && Below(bytes(WeekSpan), weekly) && Below(bytes(MonthSpan), monthly)
  {
    if daily > 0 && bytes(DaySpan) >= daily then Err(Exceeded(column, DaySpan, bytes(DaySpan), daily))
    else if weekly > 0 && bytes(WeekSpan) >= weekly then Err(Exceeded(column, WeekSpan, bytes(WeekSpan), weekly))
    else if monthly > 0 && bytes(MonthSpan) >= monthly then Err(Exceeded(column, MonthSpan, bytes(MonthSpan), monthly))
    else Ok
  }

  /// A user's own quota, if positive, and otherwise the default; only a default for the month.
  function UserVerdict(t: Tables, l: Limits, u: User, name: string, today: nat): Check {
    Verdict(UserTotal, UserBytes(t, name, today),
            if u.dailyQuota > 0 then u.dailyQuota else l.defaultDaily,
            if u.weeklyQuota > 0 then u.weeklyQuota else l.defaultWeekly,
            l.defaultMonthly)
  }

  function FirstError(a: Check, b: Check): Check {
    if a == Ok then b else a
  }

  /// The combined limits, then those for the directions of the test.
  function IpVerdict(t: Tables, l: Limits, d: Direction, ip: string, today: nat): Check {
    var inbound := Verdict(IpInbound, IpReceived(t, ip, today),
                           l.ipDailyInbound, l.ipWeeklyInbound, l.ipMonthlyInbound);
    var outbound := Verdict(IpOutbound, IpSent(t, ip, today),
                            l.ipDailyOutbound, l.ipWeeklyOutbound, l.ipMonthlyOutbound);
    FirstError(Verdict(IpTotal, IpBytes(t, ip, today), l.ipDaily, l.ipWeekly, l.ipMonthly),
               FirstError(if d == Outbound then Ok else inbound, if d == Inbound then Ok else outbound))
  }

  lemma BytesOfUser(s: Subject)
    ensures forall span :: UserBytes(s.t, s.name, s.today)(span) == Used(s.t, s.name, s.ip, s.today, UserTotal, span)
  {
    hide SumTx, SumRx, WindowOf;
  }

  lemma BytesOfIp(s: Subject)
    ensures forall span :: IpBytes(s.t, s.ip, s.today)(span) == Used(s.t, s.name, s.ip, s.today, IpTotal, span)
    ensures forall span :: IpReceived(s.t, s.ip, s.today)(span) == Used(s.t, s.name, s.ip, s.today, IpInbound, span)
    ensures forall span :: IpSent(s.t, s.ip, s.today)(span) == Used(s.t, s.name, s.ip, s.today, IpOutbound, span)
  {
    hide SumTx, SumRx, WindowOf;
  }

  /// A daily, a weekly and a monthly limit of one column.
  predicate EachSpan(column: Column, ms: seq<Meter>) {
    && |ms| == 3 && ms[0].column == ms[1].column == ms[2].column == column
    && ms[0].span == DaySpan && ms[1].span == WeekSpan && ms[2].span == MonthSpan
  }

  lemma VerdictOfThree(s: Subject, column: Column, bytes: Span -> nat, ms: seq<Meter>, r: Check)
    requires EachSpan(column, ms)
    requires CheckResult(s, ms, r)
    requires forall span :: bytes(span) == Used(s.t, s.name, s.ip, s.today, column, span)
    ensures r == Verdict(column, bytes, ms[0].limit, ms[1].limit, ms[2].limit)
  {
    hide Used;
    assert UsedBy(s, ms[0]) == bytes(DaySpan) && UsedBy(s, ms[1]) == bytes(WeekSpan);
    assert UsedBy(s, ms[2]) == bytes(MonthSpan);
  }

  lemma UserVerdictOf(s: Subject, l: Limits, u: User, r: Check)
    requires CheckResult(s, UserMeters(l, u), r)
    ensures r == UserVerdict(s.t, l, u, s.name, s.today)
  {
    hide CheckResult, Used, Verdict;
    BytesOfUser(s);
    VerdictOfThree(s, UserTotal, UserBytes(s.t, s.name, s.today), UserMeters(l, u), r);
  }

  lemma IpVerdictsOf(s: Subject, l: Limits, r: Check)
    ensures CheckResult(s, CombinedMeters(l), r) ==>
              r == Verdict(IpTotal, IpBytes(s.t, s.ip, s.today), l.ipDaily, l.ipWeekly, l.ipMonthly)
    ensures CheckResult(s, InboundMeters(l), r) ==>
              r == Verdict(IpInbound, IpReceived(s.t, s.ip, s.today),
                           l.ipDailyInbound, l.ipWeeklyInbound, l.ipMonthlyInbound)
    ensures CheckResult(s, OutboundMeters(l), r) ==>
              r == Verdict(IpOutbound, IpSent(s.t, s.ip, s.today),
                           l.ipDailyOutbound, l.ipWeeklyOutbound, l.ipMonthlyOutbound)
  {
    hide CheckResult, Used, Verdict;
    BytesOfIp(s);
    if CheckResult(s, CombinedMeters(l), r) {
      VerdictOfThree(s, IpTotal, IpBytes(s.t, s.ip, s.today), CombinedMeters(l), r);
    }
    if CheckResult(s, InboundMeters(l), r) {
      VerdictOfThree(s, IpInbound, IpReceived(s.t, s.ip, s.today), InboundMeters(l), r);
    }
    if CheckResult(s, OutboundMeters(l), r) {
      VerdictOfThree(s, IpOutbound, IpSent(s.t, s.ip, s.today), OutboundMeters(l), r);
    }
  }

  lemma MeterExceeded(s: Subject, m: Meter)
    requires !Open(s, m)
    ensures FirstExceeded(s, [m], Exceeded(m.column, m.span, UsedBy(s, m), m.limit))
  {
    hide Open, UsedBy;
    var ms := [m];
    assert ms[0] == m && ms[..0] == [];
  }

  lemma CheckResultAppend(s: Subject, ms: seq<Meter>, ns: seq<Meter>, r: Check)
    requires CheckResult(s, ms, r)
    ensures r.Err? ==> CheckResult(s, ms + ns, r)
  {
    if r.Err? {
      var i :| 0 <= i < |ms| && !Open(s, ms[i]) && AllOpen(s, ms[..i])
        && r.error == Exceeded(ms[i].column, ms[i].span, UsedBy(s, ms[i]), ms[i].limit);
      var all := ms + ns;
      assert all[i] == ms[i] && all[..i] == ms[..i];
    }
  }

  lemma CheckResultThen(s: Subject, ms: seq<Meter>, ns: seq<Meter>, r: Check)
    requires CheckResult(s, ms, Ok) && CheckResult(s, ns, r)
    ensures CheckResult(s, ms + ns, r)
  {
    var all := ms + ns;
    if AllOpen(s, ns) {
      assert AllOpen(s, all);
    } else {
      var i :| 0 <= i < |ns| && !Open(s, ns[i]) && AllOpen(s, ns[..i])
        && r.error == Exceeded(ns[i].column, ns[i].span, UsedBy(s, ns[i]), ns[i].limit);
      var j := |ms| + i;
      assert all[j] == ns[i];
      assert AllOpen(s, all[..j]) by {
        forall k | 0 <= k < j ensures Open(s, all[..j][k]) {
          if k >= |ms| { assert all[k] == ns[..i][k - |ms|]; }
        }
      }
    }
  }

  /// The three chains one after the other, for the directions of the test.
  lemma IpChecks(s: Subject, l: Limits, d: Direction, combined: Check, inbound: Check, outbound: Check)
    requires CheckResult(s, CombinedMeters(l), combined)
    requires combined == Ok ==> if d == Outbound then inbound == Ok else CheckResult(s, InboundMeters(l), inbound)
    requires combined == Ok && inbound == Ok ==>
               if d == Inbound then outbound == Ok else CheckResult(s, OutboundMeters(l), outbound)
    ensures var r := FirstError(combined, FirstError(inbound, outbound));
            CheckResult(s, IpMeters(l, d), r) && r == IpVerdict(s.t, l, d, s.ip, s.today)
  {
    hide CheckResult, Verdict, CombinedMeters, InboundMeters, OutboundMeters;
    var done, ins, outs := CombinedMeters(l), InboundMeters(l), OutboundMeters(l);
    IpVerdictsOf(s, l, combined);
    IpVerdictsOf(s, l, inbound);
    IpVerdictsOf(s, l, outbound);
    if combined.Err? {
      CheckResultAppend(s, done, if d == Outbound then [] else ins, combined);
      CheckResultAppend(s, done + (if d == Outbound then [] else ins), if d == Inbound then [] else outs, combined);
    } else if d == Inbound {
      CheckResultThen(s, done, ins, inbound);
      assert IpMeters(l, d) == done + ins;
    } else if d == Outbound {
      CheckResultThen(s, done, outs, outbound);
      assert IpMeters(l, d) == done + outs;
    } else {
      CheckResultThen(s, done, ins, inbound);
      CheckResultAppend(s, done + ins, outs, inbound);
      if inbound == Ok { CheckResultThen(s, done + ins, outs, outbound); }
    }
  }

  // ---- The budget ----

  function Saturating(limit: nat, used: nat): nat {
    if used <= limit then limit - used else 0
  }

  /// The budget: the least remainder over the limits that are set, or u64::MAX.
  ghost predicate IsBudget(s: Subject, ms: seq<Meter>, b: nat) {
    && b <= U64_MAX
    && (forall i :: 0 <= i < |ms| && ms[i].limit > 0 ==> b <= Saturating(ms[i].limit, UsedBy(s, ms[i])))
    && (b == U64_MAX || exists i :: 0 <= i < |ms| && ms[i].limit > 0 && b == Saturating(ms[i].limit, UsedBy(s, ms[i])))
  }

  lemma NoLimits(s: Subject)
    ensures IsBudget(s, [], U64_MAX)
  {
  }

  lemma BudgetUnique(s: Subject, ms: seq<Meter>, b: nat, b': nat)
    requires IsBudget(s, ms, b) && IsBudget(s, ms, b')
    ensures b == b'
  {
  }

  lemma BudgetNext(s: Subject, ms: seq<Meter>, m: Meter, b: nat)
    requires IsBudget(s, ms, b)
    ensures var rest := Saturating(m.limit, UsedBy(s, m));
            IsBudget(s, ms + [m], if m.limit > 0 && rest < b then rest else b)
  {
    var all := ms + [m];
    assert all[|ms|] == m;
    assert forall i :: 0 <= i < |ms| ==> all[i] == ms[i];
  }

  /// There is always a budget.
  lemma {:induction false} BudgetExists(s: Subject, ms: seq<Meter>) returns (b: nat)
    ensures IsBudget(s, ms, b)
    decreases |ms|
  {
    hide IsBudget, UsedBy;
    if ms == [] {
      NoLimits(s);
      b := U64_MAX;
    } else {
      var n := |ms| - 1;
      b := BudgetExists(s, ms[..n]);
      BudgetNext(s, ms[..n], ms[n], b);
      assert ms[..n] + [ms[n]] == ms;
      b := if ms[n].limit > 0 && Saturating(ms[n].limit, UsedBy(s, ms[n])) < b
           then Saturating(ms[n].limit, UsedBy(s, ms[n])) else b;
    }
  }

  /// A budget is unlimited exactly when each set limit is u64::MAX with nothing used: with
  /// some usage such a limit is enforced like any other.
  lemma UnlimitedExactly(s: Subject, ms: seq<Meter>, b: nat)
    requires IsBudget(s, ms, b)
    requires forall i :: 0 <= i < |ms| ==> ms[i].limit <= U64_MAX
    ensures b == U64_MAX <==>
              forall i :: 0 <= i < |ms| && ms[i].limit > 0 ==> ms[i].limit == U64_MAX && UsedBy(s, ms[i]) == 0
  {
    hide UsedBy;
  }

  /// These many more bytes stay within the limit, if it is set.
  predicate Leaves(limit: nat, bytes: nat, v: nat) {
    limit == 0 || v == 0 || bytes + v <= limit
  }

  ghost predicate LeavesEach(bytes: Span -> nat, daily: nat, weekly: nat, monthly: nat, v: nat) {
    Leaves(daily, bytes(DaySpan), v) && Leaves(weekly, bytes(WeekSpan), v) && Leaves(monthly, bytes(MonthSpan), v)
  }

  /// The limits one by one: those of the user, if there is one, and nine of the address.
  ghost predicate RoomFor(t: Tables, l: Limits, users: map<string, User>, name: string, ip: string, today: nat,
                          v: nat) {
    && (name in users ==>
          LeavesEach(UserBytes(t, name, today),
                     if users[name].dailyQuota > 0 then users[name].dailyQuota else l.defaultDaily,
                     if users[name].weeklyQuota > 0 then users[name].weeklyQuota else l.defaultWeekly,
                     l.defaultMonthly, v))
    && LeavesEach(IpBytes(t, ip, today), l.ipDaily, l.ipWeekly, l.ipMonthly, v)
    && LeavesEach(IpReceived(t, ip, today), l.ipDailyInbound, l.ipWeeklyInbound, l.ipMonthlyInbound, v)
    && LeavesEach(IpSent(t, ip, today), l.ipDailyOutbound, l.ipWeeklyOutbound, l.ipMonthlyOutbound, v)
  }

  ghost predicate RoomUpTo(t: Tables, l: Limits, users: map<string, User>, name: string, ip: string, today: nat,
                           b: nat, v: nat) {
    v <= b <==> v <= U64_MAX && RoomFor(t, l, users, name, ip, today, v)
  }

  /// The largest number up to u64::MAX for which there is room.
  ghost predicate LargestRoom(t: Tables, l: Limits, users: map<string, User>, name: string, ip: string, today: nat,
                              b: nat) {
    forall v: nat :: RoomUpTo(t, l, users, name, ip, today, b, v)
  }

  ghost predicate AllLeave(s: Subject, ms: seq<Meter>, v: nat) {
    forall m :: m in ms ==> Leaves(m.limit, UsedBy(s, m), v)
  }

  lemma LeavesOfThree(s: Subject, column: Column, bytes: Span -> nat, ms: seq<Meter>, v: nat)
    requires EachSpan(column, ms)
    requires forall span :: bytes(span) == Used(s.t, s.name, s.ip, s.today, column, span)
    ensures AllLeave(s, ms, v) <==> LeavesEach(bytes, ms[0].limit, ms[1].limit, ms[2].limit, v)
  {
    hide Used, Leaves;
    assert UsedBy(s, ms[0]) == bytes(DaySpan) && UsedBy(s, ms[1]) == bytes(WeekSpan);
    assert UsedBy(s, ms[2]) == bytes(MonthSpan);
    assert forall m :: m in ms <==> m == ms[0] || m == ms[1] || m == ms[2];
  }

  lemma MetersOfAll(l: Limits, users: map<string, User>, name: string)
    ensures forall m :: m in AllMeters(l, users, name) <==>
      m in KnownUserMeters(l, users, name) || m in CombinedMeters(l) || m in InboundMeters(l) || m in OutboundMeters(l)
  {
  }

  lemma AllLeaveSplit(s: Subject, l: Limits, users: map<string, User>, name: string, v: nat)
    ensures AllLeave(s, AllMeters(l, users, name), v) <==>
              && (name in users ==> AllLeave(s, UserMeters(l, users[name]), v)) && AllLeave(s, CombinedMeters(l), v)
              && AllLeave(s, InboundMeters(l), v) && AllLeave(s, OutboundMeters(l), v)
  {
    hide UsedBy, Leaves, AllMeters, CombinedMeters, InboundMeters, OutboundMeters, UserMeters;
    MetersOfAll(l, users, name);
  }

  lemma BudgetLeaves(s: Subject, ms: seq<Meter>, b: nat, v: nat)
    requires IsBudget(s, ms, b)
    ensures v <= b <==> v <= U64_MAX && AllLeave(s, ms, v)
  {
    hide UsedBy;
    if v <= b {
      forall m | m in ms ensures Leaves(m.limit, UsedBy(s, m), v) {
        var i :| 0 <= i < |ms| && ms[i] == m;
      }
    } else if v <= U64_MAX {
      var i :| 0 <= i < |ms| && ms[i].limit > 0 && b == Saturating(ms[i].limit, UsedBy(s, ms[i]));
      assert ms[i] in ms;
    }
  }

  /// The budget is the largest number of bytes that every limit leaves.
  lemma BudgetIsRoom(s: Subject, l: Limits, users: map<string, User>, b: nat, v: nat)
    requires IsBudget(s, AllMeters(l, users, s.name), b)
    ensures RoomUpTo(s.t, l, users, s.name, s.ip, s.today, b, v)
  {
    hide IsBudget, Used, Leaves, LeavesEach, AllLeave, AllMeters;
    BudgetLeaves(s, AllMeters(l, users, s.name), b, v);
    AllLeaveSplit(s, l, users, s.name, v);
    BytesOfUser(s);
    BytesOfIp(s);
    if s.name in users {
      LeavesOfThree(s, UserTotal, UserBytes(s.t, s.name, s.today), UserMeters(l, users[s.name]), v);
    }
    LeavesOfThree(s, IpTotal, IpBytes(s.t, s.ip, s.today), CombinedMeters(l), v);
    LeavesOfThree(s, IpInbound, IpReceived(s.t, s.ip, s.today), InboundMeters(l), v);
    LeavesOfThree(s, IpOutbound, IpSent(s.t, s.ip, s.today), OutboundMeters(l), v);
  }

  lemma BudgetIsLargest(s: Subject, l: Limits, users: map<string, User>, b: nat)
    requires IsBudget(s, AllMeters(l, users, s.name), b)
    ensures LargestRoom(s.t, l, users, s.name, s.ip, s.today, b)
  {
    hide IsBudget, AllMeters, RoomUpTo;
    forall v: nat ensures RoomUpTo(s.t, l, users, s.name, s.ip, s.today, b, v) {
      BudgetIsRoom(s, l, users, b, v);
    }
  }

  /// The budget is positive exactly when every check would pass.
  lemma BudgetPositiveIffOpen(s: Subject, ms: seq<Meter>, b: nat)
    requires IsBudget(s, ms, b)
    ensures b > 0 <==> AllOpen(s, ms)
  {
  }

  /// The same meters in another order give the same budget and the same verdict.
  lemma SameMeters(s: Subject, ms: seq<Meter>, ns: seq<Meter>)
    requires forall m :: m in ms <==> m in ns
    ensures AllOpen(s, ms) <==> AllOpen(s, ns)
  {
    if AllOpen(s, ms) {
      forall i | 0 <= i < |ns| ensures Open(s, ns[i]) { assert ns[i] in ms; }
    }
    if AllOpen(s, ns) {
      forall i | 0 <= i < |ms| ensures Open(s, ms[i]) { assert ms[i] in ns; }
    }
  }

  // ---- Recording ----

  /// `record_usage` on both tables: rx is inbound, tx is outbound.
  function Recorded(t: Tables, name: string, ip: string, inbound: nat, outbound: nat, today: nat): Tables {
    Tables(Upsert(t.usage, name, DayText(today), outbound, inbound),
           Upsert(t.ipUsage, ip, DayText(today), outbound, inbound))
  }

  /// Any meter of this user or address rises by what was recorded in its direction; no
  /// other meter rises.
  lemma RecordingRaises(t: Tables, name: string, ip: string, inbound: nat, outbound: nat, today: nat,
                        name': string, ip': string, column: Column, span: Span)
    requires today <= LAST_DAY
    ensures var before := Used(t, name', ip', today, column, span);
            var after := Used(Recorded(t, name, ip, inbound, outbound, today), name', ip', today, column, span);
            var mine := if column == UserTotal then name' == name else ip' == ip;
            && before <= after <= before + inbound + outbound
            && (!mine ==> after == before)
            && (mine && (column == UserTotal || column == IpTotal) ==> after == before + inbound + outbound)
            && (mine && column == IpInbound ==> after == before + inbound)
            && (mine && column == IpOutbound ==> after == before + outbound)
    // in the user's rows sent bytes are tx and received bytes are rx
    ensures var w, t' := WindowOf(span, today), Recorded(t, name, ip, inbound, outbound, today);
            && SumTx(t'.usage, name', w) == SumTx(t.usage, name', w) + (if name' == name then outbound else 0)
            && SumRx(t'.usage, name', w) == SumRx(t.usage, name', w) + (if name' == name then inbound else 0)
  {
    hide DayText, InWindow;
    var w := WindowOf(span, today);
    TodayInWindow(span, today);
    UpsertSums(t.usage, name, DayText(today), outbound, inbound, name', w);
    UpsertSums(t.ipUsage, ip, DayText(today), outbound, inbound, ip', w);
  }

  /// Recording on the same day never raises the budget, and lowers it by at most the
  /// number of bytes recorded.
  lemma RecordingLowersBudget(s: Subject, ms: seq<Meter>, inbound: nat, outbound: nat, b: nat, b': nat)
    requires s.today <= LAST_DAY
    requires IsBudget(s, ms, b)
    requires IsBudget(s.(t := Recorded(s.t, s.name, s.ip, inbound, outbound, s.today)), ms, b')
    ensures b' <= b <= b' + inbound + outbound
  {
    hide Recorded, Used;
    var s' := s.(t := Recorded(s.t, s.name, s.ip, inbound, outbound, s.today));
    forall i | 0 <= i < |ms|
      ensures UsedBy(s, ms[i]) <= UsedBy(s', ms[i]) <= UsedBy(s, ms[i]) + inbound + outbound
    {
      RecordingRaises(s.t, s.name, s.ip, inbound, outbound, s.today, s.name, s.ip, ms[i].column, ms[i].span);
    }
  }

  // ---- Connection counts ----

  function CountedIn(counts: map<string, nat>, ip: string): map<string, nat> {
    counts[ip := (if ip in counts then counts[ip] else 0) + 1]
  }

  function CountedOut(counts: map<string, nat>, ip: string): map<string, nat> {
    if ip !in counts then counts
    else if counts[ip] <= 1 then counts - {ip}
    else counts[ip := counts[ip] - 1]
  }

  /// Only addresses with a connection have an entry.
  ghost predicate NoZeroCounts(counts: map<string, nat>) {
    forall ip :: ip in counts ==> counts[ip] > 0
  }

  /// A disconnect undoes a connect, and an entry never stays behind with count 0.
  lemma ConnectDisconnect(counts: map<string, nat>, ip: string)
    requires NoZeroCounts(counts)
    ensures CountedOut(CountedIn(counts, ip), ip) == counts
    ensures NoZeroCounts(CountedIn(counts, ip)) && NoZeroCounts(CountedOut(counts, ip))
  {
    assert CountedOut(CountedIn(counts, ip), ip).Keys == counts.Keys;
    assert CountedOut(CountedIn(counts, ip), ip) == counts;
  }

  // ---- The manager ----

  class QuotaManager {
    const limits: Limits
    const db: UserDb
    var activeConnections: map<string, nat>

    constructor (limits: Limits, db: UserDb)
      ensures this.limits == limits && this.db == db && activeConnections == map[]
    {
      this.limits, this.db, activeConnections := limits, db, map[];
    }

    function Rows(): Tables
      reads db
    {
      Tables(db.usage, db.ipUsage)
    }

    function Connections(ip: string): nat
      reads this
    {
      if ip in activeConnections then activeConnections[ip] else 0
    }

    /// `connect`
    method Connect(ip: string)
      modifies this`activeConnections
      ensures activeConnections == CountedIn(old(activeConnections), ip)
      ensures forall a :: Connections(a) == old(Connections(a)) + (if a == ip then 1 else 0)
      ensures old(NoZeroCounts(activeConnections)) ==> NoZeroCounts(activeConnections)
    {
      var count := if ip in activeConnections then activeConnections[ip] else 0;
      activeConnections := activeConnections[ip := count + 1];
    }

    /// `disconnect`
    method Disconnect(ip: string)
      modifies this`activeConnections
      ensures activeConnections == CountedOut(old(activeConnections), ip)
      ensures forall a :: Connections(a) == old(Connections(a)) - (if a == ip && old(Connections(a)) > 0 then 1 else 0)
      ensures old(NoZeroCounts(activeConnections)) ==> NoZeroCounts(activeConnections)
    {
      if ip in activeConnections {
        var count := Saturating(activeConnections[ip], 1);
        activeConnections := activeConnections[ip := count];
        if count == 0 {
          activeConnections := activeConnections - {ip};
        }
      }
    }

    /// The limits that apply to a user, if it exists.
    ghost function MetersOf(username: string): seq<Meter>
      reads db
    {
      KnownUserMeters(limits, db.users, username)
    }

    /// One limit: no limit, or usage below it.
    method CheckMeter(s: Subject, m: Meter) returns (r: Check)
      ensures CheckResult(s, [m], r)
    {
      hide Used;
      r := Ok;
      if m.limit > 0 {
        var used := UsedBy(s, m);
        if used >= m.limit {
          MeterExceeded(s, m);
          return Err(Exceeded(m.column, m.span, used, m.limit));
        }
      }
    }

    /// Three limits in turn, daily, weekly, monthly.
    method CheckThree(s: Subject, ms: seq<Meter>) returns (r: Check)
      requires |ms| == 3
      ensures CheckResult(s, ms, r)
    {
      hide UsedBy, Open, FirstExceeded;
      r := CheckMeter(s, ms[0]);
      CheckResultAppend(s, [ms[0]], ms[1..], r);
      assert [ms[0]] + ms[1..] == ms;
      if r.Err? { return; }
      r := CheckMeter(s, ms[1]);
      CheckResultThen(s, [ms[0]], [ms[1]], r);
      CheckResultAppend(s, [ms[0]] + [ms[1]], [ms[2]], r);
      assert [ms[0]] + [ms[1]] + [ms[2]] == ms;
      if r.Err? { return; }
      r := CheckMeter(s, ms[2]);
      CheckResultThen(s, [ms[0]] + [ms[1]], [ms[2]], r);
    }

    /// `check_user`
    method CheckUser(username: string, ip: string, today: nat) returns (r: Check)
      ensures username !in db.users ==> r == Err(UserNotFound)
      ensures username in db.users && !db.users[username].enabled ==> r == Err(UserDisabled)
      ensures username in db.users && db.users[username].enabled ==>
                && CheckResult(Subject(Rows(), username, ip, today), MetersOf(username), r)
                && r == UserVerdict(Rows(), limits, db.users[username], username, today)
    {
      hide CheckResult, Used, Verdict, UserMeters;
      if username !in db.users { return Err(UserNotFound); }
      var user := db.users[username];
      if !user.enabled { return Err(UserDisabled); }
      var s := Subject(Rows(), username, ip, today);
      r := CheckThree(s, UserMeters(limits, user));
      UserVerdictOf(s, limits, user, r);
    }

    /// `check_ip`: connections, then combined, inbound and outbound limits.
    method CheckIp(username: string, ip: string, direction: Direction, today: nat) returns (r: Check)
      ensures limits.maxConnPerIp > 0 && Connections(ip) >= limits.maxConnPerIp ==>
                r == Err(TooManyConnections(Connections(ip), limits.maxConnPerIp))
      ensures !(limits.maxConnPerIp > 0 && Connections(ip) >= limits.maxConnPerIp) ==>
                && CheckResult(Subject(Rows(), username, ip, today), IpMeters(limits, direction), r)
                && r == IpVerdict(Rows(), limits, direction, ip, today)
    {
      hide CheckResult, IpVerdict, IpMeters, CombinedMeters, InboundMeters, OutboundMeters;
      if limits.maxConnPerIp > 0 {
        var current := Connections(ip);
        if current >= limits.maxConnPerIp { return Err(TooManyConnections(current, limits.maxConnPerIp)); }
      }
      var s := Subject(Rows(), username, ip, today);
      var combined := CheckThree(s, CombinedMeters(limits));
      if combined.Err? {
        IpChecks(s, limits, direction, combined, Ok, Ok);
        return combined;
      }
      var inbound := Ok;
      if direction == Inbound || direction == Both {
        inbound := CheckThree(s, InboundMeters(limits));
        if inbound.Err? {
          IpChecks(s, limits, direction, combined, inbound, Ok);
          return inbound;
        }
      }
      r := Ok;
      if direction == Outbound || direction == Both {
        r := CheckThree(s, OutboundMeters(limits));
      }
      IpChecks(s, limits, direction, combined, inbound, r);
    }

    /// The closure `cap`.
    method Cap(budget: nat, s: Subject, ghost ms: seq<Meter>, m: Meter) returns (b: nat)
      requires IsBudget(s, ms, budget)
      ensures IsBudget(s, ms + [m], b)
    {
      BudgetNext(s, ms, m, budget);
      b := budget;
      if m.limit > 0 {
        var remaining := Saturating(m.limit, UsedBy(s, m));
        if remaining < b { b := remaining; }
      }
    }

    ghost function BudgetMeters(username: string): seq<Meter>
      reads db
    {
      AllMeters(limits, db.users, username)
    }

    /// `remaining_budget`
    method RemainingBudget(username: string, ip: string, today: nat) returns (budget: nat)
      ensures IsBudget(Subject(Rows(), username, ip, today), BudgetMeters(username), budget)
      ensures LargestRoom(Rows(), limits, db.users, username, ip, today, budget)
    {
      hide UsedBy, IsBudget, LargestRoom;
      budget := U64_MAX;
      var s := Subject(Rows(), username, ip, today);
      ghost var ms: seq<Meter> := [];
      assert IsBudget(s, ms, budget) by { NoLimits(s); }
      if username in db.users {
        var user := db.users[username];
        budget, ms := CapThree(budget, s, ms, UserMeters(limits, user));
      }
      budget, ms := CapThree(budget, s, ms, CombinedMeters(limits));
      budget, ms := CapTwo(budget, s, ms, DaySpan, limits.ipDailyInbound, limits.ipDailyOutbound);
      budget, ms := CapTwo(budget, s, ms, WeekSpan, limits.ipWeeklyInbound, limits.ipWeeklyOutbound);
      budget, ms := CapTwo(budget, s, ms, MonthSpan, limits.ipMonthlyInbound, limits.ipMonthlyOutbound);
      assert ms == BudgetMeters(username);
      BudgetIsLargest(s, limits, db.users, budget);
    }

    method CapThree(budget: nat, s: Subject, ghost ms: seq<Meter>, more: seq<Meter>)
      returns (b: nat, ghost ms': seq<Meter>)
      requires IsBudget(s, ms, budget) && |more| == 3
      ensures ms' == ms + more && IsBudget(s, ms', b)
    {
      hide UsedBy, IsBudget;
      b := Cap(budget, s, ms, more[0]);
      b := Cap(b, s, ms + [more[0]], more[1]);
      b := Cap(b, s, ms + [more[0]] + [more[1]], more[2]);
      ms' := ms + [more[0]] + [more[1]] + [more[2]];
      assert ms' == ms + more;
    }

    method CapTwo(budget: nat, s: Subject, ghost ms: seq<Meter>, span: Span, inLimit: nat, outLimit: nat)
        returns (b: nat, ghost ms': seq<Meter>)
      requires IsBudget(s, ms, budget)
      ensures ms' == ms + [Meter(IpInbound, span, inLimit), Meter(IpOutbound, span, outLimit)]
      ensures IsBudget(s, ms', b)
    {
      hide UsedBy, IsBudget;
      b := Cap(budget, s, ms, Meter(IpInbound, span, inLimit));
      b := Cap(b, s, ms + [Meter(IpInbound, span, inLimit)], Meter(IpOutbound, span, outLimit));
      ms' := ms + [Meter(IpInbound, span, inLimit)] + [Meter(IpOutbound, span, outLimit)];
    }

    /// `record_usage`
    method RecordUsage(username: string, ip: string, inbound: nat, outbound: nat, today: nat)
      modifies db`usage, db`ipUsage
      ensures Rows() == Recorded(old(Rows()), username, ip, inbound, outbound, today)
    {
      db.RecordUsage(username, outbound, inbound, today);
      db.RecordIpUsage(ip, outbound, inbound, today);
    }

    /// Both checks pass exactly when the budget for the test is positive.
    lemma BudgetAgreesWithChecks(username: string, ip: string, today: nat, budget: nat, user: Check, addr: Check)
      requires username in db.users && db.users[username].enabled
      requires !(limits.maxConnPerIp > 0 && Connections(ip) >= limits.maxConnPerIp)
      requires CheckResult(Subject(Rows(), username, ip, today), MetersOf(username), user)
      requires CheckResult(Subject(Rows(), username, ip, today), IpMeters(limits, Both), addr)
      requires IsBudget(Subject(Rows(), username, ip, today), BudgetMeters(username), budget)
      ensures budget > 0 <==> user == Ok && addr == Ok
    {
      hide UsedBy;
      var s := Subject(Rows(), username, ip, today);
      var all := MetersOf(username) + IpMeters(limits, Both);
      BudgetPositiveIffOpen(s, BudgetMeters(username), budget);
      MeterOrder(username);
      SameMeters(s, all, BudgetMeters(username));
      SplitOpen(s, MetersOf(username), IpMeters(limits, Both));
    }

    lemma MeterOrder(username: string)
      ensures forall m :: m in MetersOf(username) + IpMeters(limits, Both) <==> m in BudgetMeters(username)
    {
    }
  }

  lemma SplitOpen(s: Subject, ms: seq<Meter>, ns: seq<Meter>)
    ensures AllOpen(s, ms + ns) <==> AllOpen(s, ms) && AllOpen(s, ns)
  {
    var all := ms + ns;
    if AllOpen(s, all) {
      forall i | 0 <= i < |ms| ensures Open(s, ms[i]) { assert all[i] == ms[i]; }
      forall i | 0 <= i < |ns| ensures Open(s, ns[i]) { assert all[|ms| + i] == ns[i]; }
    }
  }
}
