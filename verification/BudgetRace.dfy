/// The byte budget against the tasks that the tests of `src/server.rs` really start: which
/// amounts each of them spends, who records what, and exactly when the budget then holds
/// although `spend_budget` loads and subtracts in two atomic operations.
module BudgetRace {
  import opened Basics
  import opened Bandwidth

  // ---- What the tasks of a test may do ----

  /// A TX or RX task: its direction, and the least and largest amount it spends at once.
  datatype Spender = Spender(sent: bool, least: nat, most: nat)

  /// The spending tasks; the tasks that swap a counter and record it, by direction; the
  /// tasks that swap the TX counter only to print it.
  datatype Setup = Setup(
    spenders: map<nat, Spender>, txRecorders: set<nat>, rxRecorders: set<nat>, printers: set<nat>)
  {
    function Recorders(sent: bool): set<nat> {
      if sent then txRecorders else rxRecorders
    }
  }

  ghost predicate WellFormed(u: Setup, tasks: nat) {
    && (forall t :: t in u.spenders ==> t < tasks && 1 <= u.spenders[t].least <= u.spenders[t].most <= CHUNK)
    && (forall t :: t in u.txRecorders ==> t < tasks) && (forall t :: t in u.rxRecorders ==> t < tasks)
    && (forall t :: t in u.printers ==> t < tasks)
    && u.printers !! u.txRecorders && u.printers !! u.rxRecorders
  }

  predicate Allowed(u: Setup, a: Step) {
    match a
    case Load(t, amount) => t in u.spenders && u.spenders[t].least <= amount <= u.spenders[t].most
    case CountTx(t, _) => t in u.spenders && u.spenders[t].sent
    case CountRx(t, _) => t in u.spenders && !u.spenders[t].sent
    case TakeTx(t) => t in u.txRecorders || t in u.printers
    case TakeRx(t) => t in u.rxRecorders
    case Record(t) => t in u.txRecorders || t in u.rxRecorders
    case PrintOnly(t) => t in u.printers
    case _ => true
  }

  ghost predicate AllowedRun(u: Setup, steps: seq<Step>) {
    forall i :: 0 <= i < |steps| ==> Allowed(u, steps[i])
  }

  // ---- The tests ----

  /// Number of streams and bytes per write.
  datatype TestKind =
    | TcpTx(streams: nat, write: nat)
    | TcpRx(streams: nat)
    | TcpBoth(streams: nat, write: nat)
    | UdpTx(write: nat)
    | UdpRx
    | UdpBoth(write: nat)

  ghost predicate RealKind(k: TestKind) {
    (k.TcpTx? || k.TcpRx? || k.TcpBoth? ==> k.streams >= 1)
    && (k.TcpTx? || k.TcpBoth? || k.UdpTx? || k.UdpBoth? ==> 1 <= k.write <= CHUNK)
  }

  /// TCP: the writers of the streams, then their readers, then the status loop.
  /// UDP: sender, receiver, status loop.
  function TasksOf(k: TestKind): nat {
    match k
    case TcpTx(n, _) => 2 * n + 1
    case TcpRx(n) => 2 * n + 1
    case TcpBoth(n, _) => 2 * n + 1
    case _ => 3
  }

  function Range(first: nat, end: nat): (r: set<nat>)
    ensures forall t: nat :: t in r <==> first <= t < end
    decreases end
  {
    if first >= end then {} else Range(first, end - 1) + {end - 1}
  }

  function Writers(n: nat, write: nat): map<nat, Spender> {
    map t | t in Range(0, n) :: Spender(true, write, write)
  }

  function Readers(n: nat): map<nat, Spender> {
    map t | t in Range(n, 2 * n) :: Spender(false, 1, CHUNK)
  }

  /// The writers of a test that only receives send and record the status; those of a test in
  /// both directions do so between their data. With one stream the loop beside them only
  /// waits, or prints the sent bytes; with more it records.
  function SetupOf(k: TestKind): Setup {
    match k
    case TcpTx(n, write) => Setup(Writers(n, write), {2 * n}, {}, {})
    case TcpRx(n) => Setup(Readers(n), {}, if n == 1 then {0} else Range(0, n) + {2 * n}, {})
    case TcpBoth(n, write) =>
      if n == 1 then Setup(Writers(1, write) + Readers(1), {}, {0}, {2})
      else Setup(Writers(n, write) + Readers(n), {2 * n}, Range(0, n) + {2 * n}, {})
    case UdpTx(write) => Setup(map[0 := Spender(true, write, write)], {2}, {2}, {})
    case UdpRx => Setup(map[1 := Spender(false, 4, 65536)], {2}, {2}, {})
    case UdpBoth(write) =>
      Setup(map[0 := Spender(true, write, write), 1 := Spender(false, 4, 65536)], {2}, {2}, {})
  }

  lemma SetupIsWellFormed(k: TestKind)
    requires RealKind(k)
    ensures WellFormed(SetupOf(k), TasksOf(k))
  {
  }

  /// What a test's tasks spend at once: a writer a whole write, a TCP reader any length up
  /// to its buffer, a UDP receiver any datagram of at least 4 bytes.
  lemma KindLoads(k: TestKind, t: nat, amount: nat)
    ensures var writes := k.TcpTx? || k.TcpBoth? || k.UdpTx? || k.UdpBoth?;
            var (tcp, datagrams) := (k.TcpTx? || k.TcpRx? || k.TcpBoth?, k.UdpRx? || k.UdpBoth?);
            Allowed(SetupOf(k), Load(t, amount)) <==>
              || (writes && amount == k.write && t < if tcp then k.streams else 1)
              || ((k.TcpRx? || k.TcpBoth?) && 1 <= amount <= CHUNK && k.streams <= t < 2 * k.streams)
              || (datagrams && 4 <= amount <= 65536 && t == 1)
  {
  }

  /// Who swaps and records: the status loop, except on one TCP connection that also
  /// receives; there, and for what several TCP connections receive, the writers. That one
  /// connection's loop prints the sent bytes when there are any.
  lemma KindRecords(k: TestKind, t: nat)
    requires RealKind(k)
    ensures var (u, tcp) := (SetupOf(k), k.TcpTx? || k.TcpRx? || k.TcpBoth?);
            var several := tcp && k.streams > 1;
            && (t in u.txRecorders <==>
                  if tcp then t == 2 * k.streams && (k.TcpTx? || (k.TcpBoth? && several)) else t == 2)
            && (t in u.rxRecorders <==>
                  if tcp then !k.TcpTx? && (t < k.streams || (several && t == 2 * k.streams)) else t == 2)
            && (t in u.printers <==> k.TcpBoth? && !several && t == 2)
  {
  }

  // ---- Who can spend, and what can be recorded ----

  predicate Affords(u: Setup, t: nat, budget: nat) {
    t in u.spenders && u.spenders[t].least <= budget
  }

  /// At most one task can spend anything of this budget.
  ghost predicate OneAffords(u: Setup, budget: nat) {
    forall t: nat, v: nat :: Affords(u, t, budget) && Affords(u, v, budget) ==> t == v
  }

  /// Some task counts bytes of this direction, and some task records them.
  ghost predicate Reaches(u: Setup, sent: bool) {
    (exists t: nat :: SpendsIn(u, t, sent)) && exists r: nat :: r in u.Recorders(sent)
  }

  predicate SpendsIn(u: Setup, t: nat, sent: bool) {
    t in u.spenders && u.spenders[t].sent == sent
  }

  function TotalOf(s: Run, sent: bool): nat {
    if sent then s.totalTx else s.totalRx
  }

  function LiveOf(s: Run, sent: bool): nat {
    if sent then s.tx else s.rx
  }

  function HandOf(k: Task, sent: bool): nat {
    if sent then k.handTx else k.handRx
  }

  // ---- The budget holds when one task affords it ----

  /// Only the task that affords the budget can be between its load and its subtraction.
  ghost predicate LoadedAffords(s: Run, u: Setup, budget: nat) {
    && s.budget + s.spent == budget
    && forall i :: 0 <= i < |s.tasks| && s.tasks[i].loaded.Some? ==>
         Affords(u, i, budget) && s.tasks[i].loaded.value <= s.budget
  }

  lemma StepLoadedAffords(s: Run, a: Step, u: Setup, budget: nat)
    requires budget < U64_MAX && OneAffords(u, budget) && LoadedAffords(s, u, budget) && Allowed(u, a)
    ensures LoadedAffords(Apply(s, a, false), u, budget)
  {
  }

  lemma {:induction false} RunLoadedAffords(s: Run, steps: seq<Step>, u: Setup, budget: nat)
    requires budget < U64_MAX && OneAffords(u, budget) && LoadedAffords(s, u, budget) && AllowedRun(u, steps)
    ensures LoadedAffords(ApplyAll(s, steps, false), u, budget)
    decreases |steps|
  {
    hide Apply, LoadedAffords, OneAffords, Allowed;
    if steps != [] {
      StepLoadedAffords(s, steps[0], u, budget);
      RunLoadedAffords(Apply(s, steps[0], false), steps[1..], u, budget);
    }
  }

  /// Then recorded <= counted <= paid <= budget, with the two operations as coded.
  lemma OneAffordsNoOvershoot(budget: nat, tasks: nat, steps: seq<Step>, u: Setup)
    requires budget < U64_MAX && OneAffords(u, budget) && AllowedRun(u, steps)
    ensures var s := ApplyAll(Start(budget, tasks), steps, false);
            s.totalTx + s.totalRx <= s.addedTx + s.addedRx <= s.spent <= budget
  {
    hide ApplyAll, OneAffords, AllowedRun;
    StartConserved(budget, tasks);
    RunConserves(Start(budget, tasks), steps, false);
    RunLoadedAffords(Start(budget, tasks), steps, u, budget);
  }

  // ---- Nothing is recorded in a direction that is not reached ----

  /// Nothing of this direction was ever counted.
  ghost predicate Uncounted(s: Run, sent: bool) {
    TotalOf(s, sent) == 0 && LiveOf(s, sent) == 0 && forall i :: 0 <= i < |s.tasks| ==> HandOf(s.tasks[i], sent) == 0
  }

  /// Only printers ever took bytes of this direction.
  ghost predicate OnlyPrinted(s: Run, u: Setup, sent: bool) {
    TotalOf(s, sent) == 0 && forall i :: 0 <= i < |s.tasks| && HandOf(s.tasks[i], sent) > 0 ==> i in u.printers
  }

  lemma StepUncounted(s: Run, a: Step, u: Setup, sent: bool)
    requires (forall t: nat :: !SpendsIn(u, t, sent)) && Uncounted(s, sent) && Allowed(u, a)
    ensures Uncounted(Apply(s, a, false), sent)
  {
    if a.CountTx? || a.CountRx? { assert SpendsIn(u, a.t, a.CountTx?); }
  }

  lemma StepOnlyPrinted(s: Run, a: Step, u: Setup, sent: bool, tasks: nat)
    requires WellFormed(u, tasks) && u.Recorders(sent) == {} && OnlyPrinted(s, u, sent) && Allowed(u, a)
    ensures OnlyPrinted(Apply(s, a, false), u, sent)
  {
  }

  lemma {:induction false} RunUncounted(s: Run, steps: seq<Step>, u: Setup, sent: bool)
    requires (forall t: nat :: !SpendsIn(u, t, sent)) && Uncounted(s, sent) && AllowedRun(u, steps)
    ensures Uncounted(ApplyAll(s, steps, false), sent)
    decreases |steps|
  {
    hide Apply, Uncounted, Allowed;
    if steps != [] {
      StepUncounted(s, steps[0], u, sent);
      RunUncounted(Apply(s, steps[0], false), steps[1..], u, sent);
    }
  }

  lemma {:induction false} RunOnlyPrinted(s: Run, steps: seq<Step>, u: Setup, sent: bool, tasks: nat)
    requires WellFormed(u, tasks) && u.Recorders(sent) == {} && OnlyPrinted(s, u, sent) && AllowedRun(u, steps)
    ensures OnlyPrinted(ApplyAll(s, steps, false), u, sent)
    decreases |steps|
  {
    hide Apply, OnlyPrinted, WellFormed, Allowed;
    if steps != [] {
      StepOnlyPrinted(s, steps[0], u, sent, tasks);
      RunOnlyPrinted(Apply(s, steps[0], false), steps[1..], u, sent, tasks);
    }
  }

  lemma NotReachedNotRecorded(budget: nat, tasks: nat, steps: seq<Step>, u: Setup, sent: bool)
    requires WellFormed(u, tasks) && !Reaches(u, sent) && AllowedRun(u, steps)
    ensures TotalOf(ApplyAll(Start(budget, tasks), steps, false), sent) == 0
  {
    hide ApplyAll, WellFormed, AllowedRun;
    if exists t: nat :: SpendsIn(u, t, sent) {
      RunOnlyPrinted(Start(budget, tasks), steps, u, sent, tasks);
    } else {
      RunUncounted(Start(budget, tasks), steps, u, sent);
    }
  }

  // ---- Runs put together ----

  function Count(t: nat, n: nat, sent: bool): Step {
    if sent then CountTx(t, n) else CountRx(t, n)
  }

  function Take(t: nat, sent: bool): Step {
    if sent then TakeTx(t) else TakeRx(t)
  }

  lemma {:induction false} ApplyAllConcat(s: Run, xs: seq<Step>, ys: seq<Step>, serial: bool)
    ensures ApplyAll(s, xs + ys, serial) == ApplyAll(ApplyAll(s, xs, serial), ys, serial)
    decreases |xs|
  {
    hide Apply;
    if xs == [] {
      assert xs + ys == ys;
    } else {
      assert (xs + ys)[0] == xs[0] && (xs + ys)[1..] == xs[1..] + ys;
      ApplyAllConcat(Apply(s, xs[0], serial), xs[1..], ys, serial);
    }
  }

  lemma TwoSteps(s: Run, a: Step, b: Step, serial: bool)
    ensures ApplyAll(s, [a, b], serial) == Apply(Apply(s, a, serial), b, serial)
  {
    hide Apply;
    var s1 := Apply(s, a, serial);
    assert [a, b][1..] == [b] && [b][1..] == [];
    assert ApplyAll(s1, [b], serial) == ApplyAll(Apply(s1, b, serial), [], serial);
  }

  lemma FourSteps(s: Run, a: Step, b: Step, c: Step, d: Step, serial: bool)
    ensures ApplyAll(s, [a, b, c, d], serial)
         == Apply(Apply(Apply(Apply(s, a, serial), b, serial), c, serial), d, serial)
  {
    hide Apply, ApplyAll;
    ApplyAllConcat(s, [a, b], [c, d], serial);
    assert [a, b] + [c, d] == [a, b, c, d];
    TwoSteps(s, a, b, serial);
    TwoSteps(Apply(Apply(s, a, serial), b, serial), c, d, serial);
  }

  lemma ThreeSteps(s: Run, a: Step, b: Step, c: Step, serial: bool)
    ensures ApplyAll(s, [a, b, c], serial) == Apply(Apply(Apply(s, a, serial), b, serial), c, serial)
  {
    hide Apply, ApplyAll;
    var s1 := Apply(Apply(s, a, serial), b, serial);
    ApplyAllConcat(s, [a, b], [c], serial);
    assert [a, b] + [c] == [a, b, c];
    TwoSteps(s, a, b, serial);
    OneMore(s1, c, serial);
  }

  lemma OneMore(s: Run, a: Step, serial: bool)
    ensures ApplyAll(s, [a], serial) == Apply(s, a, serial)
  {
    assert ApplyAll(Apply(s, a, serial), [], serial) == Apply(s, a, serial);
  }

  // ---- The race ----

  /// Between actions, with nothing recorded and the test still running.
  ghost predicate Quiet(s: Run, tasks: nat) {
    && |s.tasks| == tasks && s.running && s.totalTx == s.totalRx == 0
    && forall i :: 0 <= i < |s.tasks| ==> s.tasks[i] == IDLE
  }

  /// One write or read: load, subtract, count.
  function Round(t: nat, amount: nat, sent: bool): seq<Step> {
    [Load(t, amount), Subtract(t), Count(t, amount, sent)]
  }

  function Rounds(t: nat, amount: nat, sent: bool, n: nat): seq<Step> {
    if n == 0 then [] else Rounds(t, amount, sent, n - 1) + Round(t, amount, sent)
  }

  lemma OneRound(s: Run, tasks: nat, t: nat, amount: nat, sent: bool)
    requires Quiet(s, tasks) && t < tasks && amount <= s.budget <= U64_MAX
    ensures var s' := ApplyAll(s, Round(t, amount, sent), false);
            && Quiet(s', tasks) && s'.budget == (if s.budget == U64_MAX then U64_MAX else s.budget - amount)
            && LiveOf(s', sent) == LiveOf(s, sent) + amount
  {
    hide ApplyAll;
    var s1 := Apply(s, Load(t, amount), false);
    var s2 := Apply(s1, Subtract(t), false);
    assert s2.tasks[t] == Task(None, amount, 0, 0);
    var s3 := Apply(s2, Count(t, amount, sent), false);
    ThreeSteps(s, Load(t, amount), Subtract(t), Count(t, amount, sent), false);
  }

  lemma {:induction false} ManyRounds(s: Run, tasks: nat, t: nat, amount: nat, sent: bool, n: nat, total: nat)
    requires Quiet(s, tasks) && t < tasks && total == n * amount && total <= s.budget <= U64_MAX
    ensures var s' := ApplyAll(s, Rounds(t, amount, sent, n), false);
            && Quiet(s', tasks) && s'.budget == (if s.budget == U64_MAX then U64_MAX else s.budget - total)
            && LiveOf(s', sent) == LiveOf(s, sent) + total
    decreases n
  {
    hide Quiet, Round, LiveOf, Apply;
    if n > 0 {
      OneLess(n, amount);
      ManyRounds(s, tasks, t, amount, sent, n - 1, total - amount);
      hide ApplyAll;
      var s1 := ApplyAll(s, Rounds(t, amount, sent, n - 1), false);
      OneRound(s1, tasks, t, amount, sent);
      ApplyAllConcat(s, Rounds(t, amount, sent, n - 1), Round(t, amount, sent), false);
    }
  }

  lemma OneLess(n: nat, amount: nat)
    requires n > 0
    ensures n * amount - amount == (n - 1) * amount >= 0
  {
  }

  /// Both tasks load what is left for one of them, then both subtract and count.
  function BothLoad(t: nat, x: nat, sentT: bool, v: nat, y: nat, sentV: bool): seq<Step> {
    [Load(t, x), Load(v, y), Subtract(t), Subtract(v)] + [Count(t, x, sentT), Count(v, y, sentV)]
  }

  /// The budget goes through 0: what is missing wraps.
  lemma RaceWraps(s: Run, tasks: nat, t: nat, x: nat, sentT: bool, v: nat, y: nat, sentV: bool)
    requires Quiet(s, tasks) && t < tasks && v < tasks && t != v
    requires x <= s.budget && y <= s.budget < x + y && s.budget < U64_MAX
    ensures var s' := ApplyAll(s, BothLoad(t, x, sentT, v, y, sentV), false);
            && Quiet(s', tasks) && s'.budget == U64_MAX + 1 - (x + y - s.budget)
            && forall d :: LiveOf(s', d) >= LiveOf(s, d)
  {
    hide ApplyAll;
    var four := [Load(t, x), Load(v, y), Subtract(t), Subtract(v)];
    ApplyAllConcat(s, four, [Count(t, x, sentT), Count(v, y, sentV)], false);
    FourSteps(s, four[0], four[1], four[2], four[3], false);
    BothSubtract(s, tasks, t, x, v, y);
    var s4 := ApplyAll(s, four, false);
    TwoSteps(s4, Count(t, x, sentT), Count(v, y, sentV), false);
  }

  lemma BothSubtract(s: Run, tasks: nat, t: nat, x: nat, v: nat, y: nat)
    requires Quiet(s, tasks) && t < tasks && v < tasks && t != v
    requires x <= s.budget && y <= s.budget < x + y && s.budget < U64_MAX
    ensures var s' := ApplyAll(s, [Load(t, x), Load(v, y), Subtract(t), Subtract(v)], false);
            && s'.budget == U64_MAX + 1 - (x + y - s.budget) && s'.running && |s'.tasks| == tasks
            && s'.totalTx == s'.totalRx == 0 && s'.tx == s.tx && s'.rx == s.rx
            && s'.tasks == s.tasks[t := Task(None, x, 0, 0)][v := Task(None, y, 0, 0)]
  {
    hide ApplyAll;
    var s1 := Apply(s, Load(t, x), false);
    assert s1.tasks[t].loaded == Some(x) && s1.tasks[v] == IDLE;
    var s2 := Apply(s1, Load(v, y), false);
    var s3 := Apply(s2, Subtract(t), false);
    assert s3.budget == s.budget - x && s3.tasks[v].loaded == Some(y);
    var s4 := Apply(s3, Subtract(v), false);
    FourSteps(s, Load(t, x), Load(v, y), Subtract(t), Subtract(v), false);
  }

  /// How often y fits into the budget with room left for x.
  function DownRounds(budget: nat, x: nat, y: nat): nat
    requires 0 < y && x <= budget
  {
    (budget - x) / y
  }

  /// The task that spends more waits until the other has spent down to where only one of
  /// them still fits; then they race.
  function DownAndRace(u: Setup, t: nat, v: nat, budget: nat): seq<Step>
    requires Affords(u, t, budget) && Affords(u, v, budget) && u.spenders[v].least > 0
  {
    var (x, y) := (u.spenders[t].least, u.spenders[v].least);
    Rounds(v, y, u.spenders[v].sent, DownRounds(budget, x, y))
    + BothLoad(t, x, u.spenders[t].sent, v, y, u.spenders[v].sent)
  }

  lemma SpentDown(budget: nat, x: nat, y: nat)
    requires 0 < y <= x <= budget
    ensures var n := DownRounds(budget, x, y); n * y <= budget && x <= budget - n * y < x + y
  {
    var n := DownRounds(budget, x, y);
    assert budget - x == n * y + (budget - x) % y;
  }

  /// So two tasks that both afford a budget can lift it to almost u64::MAX.
  lemma TwoAffordWrap(u: Setup, tasks: nat, t: nat, v: nat, budget: nat)
    requires WellFormed(u, tasks) && budget < U64_MAX && t != v
    requires Affords(u, t, budget) && Affords(u, v, budget) && u.spenders[v].least <= u.spenders[t].least
    ensures var s := ApplyAll(Start(budget, tasks), DownAndRace(u, t, v, budget), false);
            AllowedRun(u, DownAndRace(u, t, v, budget)) && Quiet(s, tasks) && U64_MAX + 1 - CHUNK <= s.budget <= U64_MAX
  {
    hide ApplyAll, Quiet, DownRounds, LiveOf;
    var (x, y) := (u.spenders[t].least, u.spenders[v].least);
    var n := DownRounds(budget, x, y);
    SpentDown(budget, x, y);
    var s0 := Start(budget, tasks);
    assert Quiet(s0, tasks) by { StartQuiet(budget, tasks); }
    ManyRounds(s0, tasks, v, y, u.spenders[v].sent, n, n * y);
    var s1 := ApplyAll(s0, Rounds(v, y, u.spenders[v].sent, n), false);
    RaceWraps(s1, tasks, t, x, u.spenders[t].sent, v, y, u.spenders[v].sent);
    ApplyAllConcat(s0, Rounds(v, y, u.spenders[v].sent, n),
                   BothLoad(t, x, u.spenders[t].sent, v, y, u.spenders[v].sent), false);
    RoundsAllowed(u, v, n);
  }

  lemma StartQuiet(budget: nat, tasks: nat)
    ensures Quiet(Start(budget, tasks), tasks)
  {
  }

  lemma {:induction false} RoundsAllowed(u: Setup, t: nat, n: nat)
    requires t in u.spenders && u.spenders[t].least <= u.spenders[t].most
    ensures AllowedRun(u, Rounds(t, u.spenders[t].least, u.spenders[t].sent, n))
  {
    if n > 0 { RoundsAllowed(u, t, n - 1); }
  }

  /// After that, a task of any direction counts as much as it likes, and it is recorded.
  function Overshoot(u: Setup, t: nat, v: nat, budget: nat, w: nat, r: nat, n: nat): seq<Step>
    requires Affords(u, t, budget) && Affords(u, v, budget) && u.spenders[v].least > 0 && w in u.spenders
  {
    DownAndRace(u, t, v, budget)
    + (Rounds(w, u.spenders[w].least, u.spenders[w].sent, n) + [Take(r, u.spenders[w].sent), Record(r)])
  }

  lemma TakeAndRecord(s: Run, tasks: nat, r: nat, sent: bool)
    requires Quiet(s, tasks) && r < tasks
    ensures TotalOf(ApplyAll(s, [Take(r, sent), Record(r)], false), sent) == LiveOf(s, sent)
  {
    hide ApplyAll;
    TwoSteps(s, Take(r, sent), Record(r), false);
  }

  lemma TwoSpendersOvershoot(u: Setup, tasks: nat, t: nat, v: nat, budget: nat, w: nat, r: nat, n: nat)
    requires WellFormed(u, tasks) && budget < U64_MAX && t != v && w in u.spenders
    requires Affords(u, t, budget) && Affords(u, v, budget) && u.spenders[v].least <= u.spenders[t].least
    requires r in u.Recorders(u.spenders[w].sent) && n * u.spenders[w].least <= U64_MAX + 1 - CHUNK
    ensures AllowedRun(u, Overshoot(u, t, v, budget, w, r, n))
    ensures TotalOf(ApplyAll(Start(budget, tasks), Overshoot(u, t, v, budget, w, r, n), false), u.spenders[w].sent)
         >= n * u.spenders[w].least
  {
    hide ApplyAll, Quiet, DownAndRace, TotalOf;
    var (z, sent) := (u.spenders[w].least, u.spenders[w].sent);
    var race, spree := DownAndRace(u, t, v, budget), Rounds(w, z, sent, n);
    TwoAffordWrap(u, tasks, t, v, budget);
    var s1 := ApplyAll(Start(budget, tasks), race, false);
    ManyRounds(s1, tasks, w, z, sent, n, n * z);
    var s2 := ApplyAll(s1, spree, false);
    TakeAndRecord(s2, tasks, r, sent);
    ApplyAllConcat(s1, spree, [Take(r, sent), Record(r)], false);
    ApplyAllConcat(Start(budget, tasks), race, spree + [Take(r, sent), Record(r)], false);
    RoundsAllowed(u, w, n);
  }

  /// Whatever is to be exceeded, up to 512 KiB below 2^64.
  lemma AnyAmountExceeded(u: Setup, tasks: nat, budget: nat, sent: bool, amount: nat) returns (steps: seq<Step>)
    requires WellFormed(u, tasks) && budget < U64_MAX && amount + 2 * CHUNK <= U64_MAX
    requires !OneAffords(u, budget) && Reaches(u, sent)
    ensures AllowedRun(u, steps) && TotalOf(ApplyAll(Start(budget, tasks), steps, false), sent) > amount
  {
    hide ApplyAll, Overshoot, AllowedRun, TotalOf;
    var t: nat, v: nat :| Affords(u, t, budget) && Affords(u, v, budget) && t != v;
    if u.spenders[t].least < u.spenders[v].least { t, v := v, t; }
    var w: nat :| SpendsIn(u, w, sent);
    var r: nat :| r in u.Recorders(sent);
    var z := u.spenders[w].least;
    var n := amount / z + 1;
    JustAbove(amount, z);
    TwoSpendersOvershoot(u, tasks, t, v, budget, w, r, n);
    steps := Overshoot(u, t, v, budget, w, r, n);
  }

  lemma JustAbove(amount: nat, z: nat)
    requires z > 0
    ensures amount < (amount / z + 1) * z <= amount + z
  {
    assert amount == amount / z * z + amount % z;
    assert (amount / z + 1) * z == amount / z * z + z;
  }

  // ---- Exactly when the budget holds ----

  function TotalRecorded(budget: nat, tasks: nat, steps: seq<Step>): nat {
    var s := ApplyAll(Start(budget, tasks), steps, false);
    s.totalTx + s.totalRx
  }

  /// As coded, no run of these tasks records more than the budget.
  ghost predicate BudgetHolds(budget: nat, tasks: nat, u: Setup) {
    forall steps: seq<Step> :: AllowedRun(u, steps) ==> TotalRecorded(budget, tasks, steps) <= budget
  }

  /// It holds exactly when at most one task affords the budget, or nothing is recorded.
  lemma BudgetHoldsExactly(budget: nat, tasks: nat, u: Setup)
    requires WellFormed(u, tasks) && budget + 2 * CHUNK <= U64_MAX
    ensures BudgetHolds(budget, tasks, u) <==> OneAffords(u, budget) || (!Reaches(u, true) && !Reaches(u, false))
  {
    hide WellFormed, OneAffords, Reaches, AllowedRun, ApplyAll;
    if OneAffords(u, budget) || (!Reaches(u, true) && !Reaches(u, false)) {
      forall steps: seq<Step> | AllowedRun(u, steps) ensures TotalRecorded(budget, tasks, steps) <= budget {
        if OneAffords(u, budget) {
          OneAffordsNoOvershoot(budget, tasks, steps, u);
        } else {
          NotReachedNotRecorded(budget, tasks, steps, u, true);
          NotReachedNotRecorded(budget, tasks, steps, u, false);
        }
      }
    } else {
      var sent := Reaches(u, true);
      var steps := AnyAmountExceeded(u, tasks, budget, sent, budget);
      assert TotalRecorded(budget, tasks, steps) > budget;
    }
  }

  // ---- The tests one by one ----

  /// The condition for each kind of test: a bidirectional or multi-stream test keeps its
  /// budget only while a second task cannot afford a write or a read.
  predicate KeepsBudget(k: TestKind, budget: nat) {
    match k
    case TcpTx(n, write) => n == 1 || budget < write
    case TcpRx(n) => n == 1 || budget == 0
    case TcpBoth(n, write) => if n == 1 then budget < write else budget == 0
    case UdpTx(_) => true
    case UdpRx => true
    case UdpBoth(write) => budget < write || budget < 4
  }

  lemma KindAffords(k: TestKind, budget: nat)
    requires RealKind(k)
    ensures OneAffords(SetupOf(k), budget) <==> KeepsBudget(k, budget)
  {
    var u := SetupOf(k);
    if !KeepsBudget(k, budget) {
      match k
      case TcpTx(n, write) => assert Affords(u, 0, budget) && Affords(u, 1, budget);
      case TcpRx(n) => assert Affords(u, n, budget) && Affords(u, n + 1, budget);
      case TcpBoth(n, write) =>
        if n == 1 {
          assert Affords(u, 0, budget) && Affords(u, 1, budget);
        } else {
          assert Affords(u, n, budget) && Affords(u, n + 1, budget);
        }
      case UdpBoth(write) => assert Affords(u, 0, budget) && Affords(u, 1, budget);
      case _ =>
    }
  }

  predicate Transmits(k: TestKind) {
    k.TcpTx? || k.TcpBoth? || k.UdpTx? || k.UdpBoth?
  }

  predicate Receives(k: TestKind) {
    k.TcpRx? || k.TcpBoth? || k.UdpRx? || k.UdpBoth?
  }

  /// Every active direction is recorded, but for what a bidirectional test on one TCP
  /// connection sends.
  lemma KindReaches(k: TestKind)
    requires RealKind(k)
    ensures Reaches(SetupOf(k), true) <==> Transmits(k) && !(k.TcpBoth? && k.streams == 1)
    ensures Reaches(SetupOf(k), false) <==> Receives(k)
  {
    var u := SetupOf(k);
    if Transmits(k) { assert SpendsIn(u, 0, true); }
    if k.TcpRx? || k.TcpBoth? { assert SpendsIn(u, k.streams, false); }
    if k.UdpRx? || k.UdpBoth? { assert SpendsIn(u, 1, false); }
    if k.TcpTx? || (k.TcpBoth? && k.streams > 1) { assert 2 * k.streams in u.Recorders(true); }
    if k.UdpTx? || k.UdpBoth? { assert 2 in u.Recorders(true); }
    if k.TcpRx? || k.TcpBoth? { assert 0 in u.Recorders(false); }
    if k.UdpRx? || k.UdpBoth? { assert 2 in u.Recorders(false); }
  }

  /// For each kind of test, exactly the budgets it keeps in every run.
  lemma TestsThatKeepTheirBudget(k: TestKind, budget: nat)
    requires RealKind(k) && budget + 2 * CHUNK <= U64_MAX
    ensures BudgetHolds(budget, TasksOf(k), SetupOf(k)) <==> KeepsBudget(k, budget)
  {
    hide BudgetHolds, OneAffords, Reaches, SetupOf, WellFormed;
    SetupIsWellFormed(k);
    BudgetHoldsExactly(budget, TasksOf(k), SetupOf(k));
    KindAffords(k, budget);
    KindReaches(k);
  }
}
