/// How many streams the multi-connection tests of `src/server.rs` start with, exactly.
module JoinSizes {
  import opened Join
  import opened JoinTokens

  /// Nobody starts before enough connections have joined.
  ghost predicate NoTimeout(steps: seq<Step>) {
    forall i :: 0 <= i < |steps| ==> Patient(steps[i])
  }

  predicate Patient(a: Step) {
    a.Poll? ==> !a.timedOut
  }

  /// A test of `count` announced connections with n streams.
  ghost predicate HasTest(s: State, count: nat, n: nat) {
    exists k :: 0 <= k < |s.tests| && s.tests[k].expected == count && |TestStreams(s.tests[k])| == n
  }

  // ---- No test starts with less than announced ----

  /// Whoever has stopped waiting has its streams, and so has every test.
  ghost predicate Full(s: State) {
    && (forall h :: 0 <= h < |s.handlers| && s.handlers[h].phase.Ready? ==>
          |StreamsOf(s.sessions, s.handlers[h].phase.token)| + 1 >= s.handlers[h].phase.expected)
    && (forall k :: 0 <= k < |s.tests| ==> |TestStreams(s.tests[k])| >= s.tests[k].expected)
  }

  lemma StepFull(s: State, a: Step)
    requires OwnersKept(s) && Full(s) && FreshStep(s, a) && Patient(a)
    ensures Full(Apply(s, a))
  {
    hide Token, TokenOf, PrimaryPath, BothLowBits;
    if a.Lookup? { PrimaryPathKeeps(s, a); }
    if a.Poll? || a.Collect? {
      hide HasRoom, Apply;
      StartFull(s, a);
    }
  }

  lemma StartFull(s: State, a: Step)
    requires OwnersKept(s) && Full(s) && Patient(a) && (a.Poll? || a.Collect?)
    ensures Full(Apply(s, a))
  {
  }

  lemma {:induction false} RunFull(s: State, steps: seq<Step>)
    requires Sound(s) && Full(s) && FreshRun(s, steps) && NoTimeout(steps)
    ensures Full(ApplyAll(s, steps))
    decreases |steps|
  {
    hide Apply, SessionsKept, PhasesKept, SessionsOwned, TestsSafe, FreshStep, Full, Patient;
    if steps != [] {
      assert Patient(steps[0]);
      StepFull(s, steps[0]);
      StepSessions(s, steps[0]);
      StepPhases(s, steps[0]);
      StepOwners(s, steps[0]);
      StepSessionsOwned(s, steps[0]);
      StepTestsSafe(s, steps[0]);
      RunFull(Apply(s, steps[0]), steps[1..]);
    }
  }

  // ---- A run for each size ----

  lemma {:induction false} FreshConcat(s: State, xs: seq<Step>, ys: seq<Step>)
    requires FreshRun(s, xs) && FreshRun(ApplyAll(s, xs), ys)
    ensures FreshRun(s, xs + ys)
    decreases |xs|
  {
    hide Apply, FreshStep;
    if xs == [] {
      assert xs + ys == ys;
    } else {
      assert (xs + ys)[0] == xs[0] && (xs + ys)[1..] == xs[1..] + ys;
      FreshConcat(Apply(s, xs[0]), xs[1..], ys);
    }
  }

  lemma {:induction false} NoneAuthenticatesFresh(s: State, steps: seq<Step>)
    requires NoneAuthenticates(steps)
    ensures FreshRun(s, steps)
    decreases |steps|
  {
    hide Apply;
    if steps != [] { NoneAuthenticatesFresh(Apply(s, steps[0]), steps[1..]); }
  }

  lemma {:induction false} NothingRegistered(s: State, steps: seq<Step>)
    requires NoneAuthenticates(steps) && s.sessions == map[]
    ensures ApplyAll(s, steps).sessions == map[]
    decreases |steps|
  {
    hide Token;
    if steps != [] { NothingRegistered(Apply(s, steps[0]), steps[1..]); }
  }

  lemma RegisterFresh(s: State)
    requires s.sessions == map[]
    ensures FreshRun(s, [PrimaryAuthDone(0, true)])
  {
    hide Apply;
    var s' := Apply(s, PrimaryAuthDone(0, true));
    assert FreshRun(s', []);
  }

  lemma OnePrimaryFresh(count: nat)
    requires 0 < count < 256
    ensures FreshRun(INIT, OnePrimary(count))
  {
    hide ApplyAll, FreshRun;
    var three: seq<Step> := [Arrive(1), Lookup(0, 1, 1, count, 0, true), Scan(0)];
    NoneAuthenticatesFresh(INIT, three);
    NothingRegistered(INIT, three);
    RegisterFresh(ApplyAll(INIT, three));
    FreshConcat(INIT, three, [PrimaryAuthDone(0, true)]);
    assert three + [PrimaryAuthDone(0, true)] == OnePrimary(count);
  }

  /// A primary that announces `count` is joined by some connections and starts, by itself
  /// if they are enough.
  lemma SizeReached(count: nat, joined: nat) returns (steps: seq<Step>)
    requires 0 < count < 256 && joined <= count
    ensures FreshRun(INIT, steps) && HasTest(ApplyAll(INIT, steps), count, joined + 1)
    ensures joined + 1 >= count ==> NoTimeout(steps)
  {
    hide ApplyAll, FreshRun;
    var s := ApplyAll(INIT, OnePrimary(count));
    OnePrimaryWaits(count);
    OnePrimaryFresh(count);
    var joins := JoinMany(s, 0x0101, joined);
    var s1 := ApplyAll(s, joins);
    assert s1.handlers[0] == s.handlers[0];
    var poll := Poll(0, joined + 1 < count);
    var s2 := Apply(s1, poll);
    var s3 := Apply(s2, Collect(0));
    assert s3.tests[0].expected == count && |TestStreams(s3.tests[0])| == joined + 1;
    TwoSteps(s1, poll, Collect(0));
    ApplyAllConcat(s, joins, [poll, Collect(0)]);
    ApplyAllConcat(INIT, OnePrimary(count), joins + [poll, Collect(0)]);
    steps := OnePrimary(count) + (joins + [poll, Collect(0)]);
    NoneAuthenticatesFresh(s, joins + [poll, Collect(0)]);
    FreshConcat(INIT, OnePrimary(count), joins + [poll, Collect(0)]);
  }

  // ---- Exactly the sizes there are ----

  /// With no token reused, a test of `count` announced connections starts with one stream
  /// to one more than announced.
  lemma SizesExactly(count: nat, n: nat)
    requires 0 < count < 256
    ensures (exists steps: seq<Step> :: FreshRun(INIT, steps) && HasTest(ApplyAll(INIT, steps), count, n)) <==>
              1 <= n <= count + 1
  {
    hide ApplyAll, FreshRun;
    if exists steps: seq<Step> :: FreshRun(INIT, steps) && HasTest(ApplyAll(INIT, steps), count, n) {
      var steps: seq<Step> :| FreshRun(INIT, steps) && HasTest(ApplyAll(INIT, steps), count, n);
      FreshTokensAreSafe(steps);
      SafeSize(ApplyAll(INIT, steps), count, n);
    }
    if 1 <= n <= count + 1 { var steps := SizeReached(count, n - 1); }
  }

  /// When none of them times out, only with as many as announced or one more.
  lemma PatientSizesExactly(count: nat, n: nat)
    requires 0 < count < 256
    ensures (exists steps: seq<Step> ::
               FreshRun(INIT, steps) && NoTimeout(steps) && HasTest(ApplyAll(INIT, steps), count, n)) <==>
              count <= n <= count + 1
  {
    hide ApplyAll, FreshRun, NoTimeout;
    if exists steps: seq<Step> ::
         FreshRun(INIT, steps) && NoTimeout(steps) && HasTest(ApplyAll(INIT, steps), count, n) {
      var steps: seq<Step> :|
        FreshRun(INIT, steps) && NoTimeout(steps) && HasTest(ApplyAll(INIT, steps), count, n);
      FreshTokensAreSafe(steps);
      SafeSize(ApplyAll(INIT, steps), count, n);
      RunFull(INIT, steps);
    }
    if count <= n <= count + 1 { var steps := SizeReached(count, n - 1); }
  }

  lemma SafeSize(s: State, count: nat, n: nat)
    requires TestsSafe(s) && HasTest(s, count, n)
    ensures 1 <= n <= count + 1
  {
    var k :| 0 <= k < |s.tests| && s.tests[k].expected == count && |TestStreams(s.tests[k])| == n;
    assert TestSafe(s, s.tests[k]);
  }
}
