/// What happens in the join protocol when a token is used twice, and how large tests get.
module JoinTokens {
  import opened Join

  // ---- Filling a session ----

  ghost predicate NoneAuthenticates(steps: seq<Step>) {
    forall i :: 0 <= i < |steps| ==> !steps[i].PrimaryAuthDone?
  }

  ghost predicate OnlyFirstMessages(steps: seq<Step>) {
    forall i :: 0 <= i < |steps| ==> steps[i].Arrive? || steps[i].Lookup?
  }

  /// Session t of s' holds those of s and more, the rest is as it was.
  ghost predicate Filled(s: State, s': State, t: nat, count: nat)
    requires t in s.sessions
  {
    && t in s'.sessions && s'.tests == s.tests
    && |s.handlers| <= |s'.handlers| && (forall h :: 0 <= h < |s.handlers| ==> s'.handlers[h] == s.handlers[h])
    && s'.sessions[t].peerIp == s.sessions[t].peerIp && s'.sessions[t].expected == s.sessions[t].expected
    && s.sessions[t].streams <= s'.sessions[t].streams
    && |s'.sessions[t].streams| == |s.sessions[t].streams| + count
    && forall i :: |s.sessions[t].streams| <= i < |s'.sessions[t].streams| ==>
         s'.sessions[t].streams[i] < |s'.handlers|
         && s'.handlers[s'.sessions[t].streams[i]].ip == s.sessions[t].peerIp
  }

  lemma JoinOnce(s: State, t: nat) returns (steps: seq<Step>)
    requires t in s.sessions && BothLowBits(t) && |s.sessions[t].streams| < s.sessions[t].expected
    ensures OnlyFirstMessages(steps) && NoneAuthenticates(steps) && Filled(s, ApplyAll(s, steps), t, 1)
  {
    var ip, n := s.sessions[t].peerIp, |s.handlers|;
    var join := Lookup(n, t / 256, t % 256, 0, 0, true);
    steps := [Arrive(ip), join];
    var s1 := Apply(s, Arrive(ip));
    assert TokenOf(join.b0, join.b1) == t && s1.handlers[n] == Handler(ip, Reading);
    assert HasRoom(s1.sessions, t, ip);
    var s2 := Apply(s1, join);
    assert s2.sessions[t].streams == s.sessions[t].streams + [n];
    TwoSteps(s, Arrive(ip), join);
  }

  /// As many connections as there is room for can come and join.
  lemma {:induction false} JoinMany(s: State, t: nat, count: nat) returns (steps: seq<Step>)
    requires t in s.sessions && BothLowBits(t) && |s.sessions[t].streams| + count <= s.sessions[t].expected
    ensures OnlyFirstMessages(steps) && NoneAuthenticates(steps) && Filled(s, ApplyAll(s, steps), t, count)
  {
    hide Apply, BothLowBits;
    if count == 0 {
      steps := [];
    } else {
      var before := JoinMany(s, t, count - 1);
      hide ApplyAll;
      var s1 := ApplyAll(s, before);
      var last := JoinOnce(s1, t);
      ApplyAllConcat(s, before, last);
      steps := before + last;
      FilledFurther(s, s1, ApplyAll(s1, last), t, count - 1);
    }
  }

  lemma FilledFurther(s: State, s1: State, s2: State, t: nat, count: nat)
    requires t in s.sessions && Filled(s, s1, t, count) && Filled(s1, s2, t, 1)
    ensures Filled(s, s2, t, count + 1)
  {
    var (n, streams) := (|s.sessions[t].streams|, s2.sessions[t].streams);
    assert s1.sessions[t].streams <= streams;
    forall i | n <= i < |streams|
      ensures streams[i] < |s2.handlers| && s2.handlers[streams[i]].ip == s.sessions[t].peerIp
    {
      if i < n + count { assert streams[i] == s1.sessions[t].streams[i]; }
    }
  }

  // ---- The bound on tests is reached ----

  /// One primary that announces `count` connections, up to where it waits.
  function OnePrimary(count: nat): seq<Step> {
    [Arrive(1), Lookup(0, 1, 1, count, 0, true), Scan(0), PrimaryAuthDone(0, true)]
  }

  lemma OnePrimaryWaits(count: nat)
    requires 0 < count < 256
    ensures var s := ApplyAll(INIT, OnePrimary(count));
            && s.sessions == map[0x0101 := Session(1, [], count)] && s.tests == []
            && s.handlers == [Handler(1, Waiting(0x0101, count))]
  {
    hide ApplyAll;
    var s1 := Apply(INIT, Arrive(1));
    var s2 := Apply(s1, Lookup(0, 1, 1, count, 0, true));
    assert s2.handlers[0].phase == Scanning(0x0101, count);
    var s3 := Apply(s2, Scan(0));
    assert s3.handlers[0].phase == PrimaryAuth(0x0101, count);
    var s4 := Apply(s3, PrimaryAuthDone(0, true));
    assert s4.handlers[0] == Handler(1, Waiting(0x0101, count));
    FourSteps(INIT, Arrive(1), Lookup(0, 1, 1, count, 0, true), Scan(0), PrimaryAuthDone(0, true));
  }

  /// A test of `count` announced connections with one stream more.
  ghost predicate HasLargerTest(s: State, count: nat) {
    exists k :: 0 <= k < |s.tests| && s.tests[k].expected == count && |TestStreams(s.tests[k])| == count + 1
  }

  /// The primary does not count itself among the streams it leaves room for, so for every
  /// announced count some run starts a test with one stream more.
  lemma OneMoreThanAnnounced(count: nat)
    requires 0 < count < 256
    ensures exists steps :: HasLargerTest(ApplyAll(INIT, steps), count)
  {
    hide ApplyAll;
    var s := ApplyAll(INIT, OnePrimary(count));
    OnePrimaryWaits(count);
    var joins := JoinMany(s, 0x0101, count);
    var s1 := ApplyAll(s, joins);
    assert s1.handlers[0] == s.handlers[0];
    var s2 := Apply(s1, Poll(0, false));
    var s3 := Apply(s2, Collect(0));
    assert s3.tests[0].expected == count && |TestStreams(s3.tests[0])| == count + 1;
    TwoSteps(s1, Poll(0, false), Collect(0));
    ApplyAllConcat(s, joins, [Poll(0, false), Collect(0)]);
    ApplyAllConcat(INIT, OnePrimary(count), joins + [Poll(0, false), Collect(0)]);
    assert HasLargerTest(ApplyAll(INIT, OnePrimary(count) + (joins + [Poll(0, false), Collect(0)])), count);
  }

  // ---- When a token is reused ----

  /// Registrations are under unused tokens, and none under `token`.
  ghost predicate ApartStep(s: State, a: Step, token: nat) {
    a.PrimaryAuthDone? && a.ok && a.h < |s.handlers| && s.handlers[a.h].phase.PrimaryAuth? ==>
      s.handlers[a.h].phase.token !in s.sessions && s.handlers[a.h].phase.token != token
  }

  ghost predicate Apart(s: State, steps: seq<Step>, token: nat)
    decreases |steps|
  {
    steps != [] ==> ApartStep(s, steps[0], token) && Apart(Apply(s, steps[0]), steps[1..], token)
  }

  lemma {:induction false} NoneAuthenticatesApart(s: State, steps: seq<Step>, token: nat)
    requires NoneAuthenticates(steps)
    ensures Apart(s, steps, token)
    decreases |steps|
  {
    hide Apply;
    if steps != [] { NoneAuthenticatesApart(Apply(s, steps[0]), steps[1..], token); }
  }

  /// Some continuation, with no further reuse, starts a test that is too large or mixes
  /// addresses.
  ghost predicate CanGoWrong(s: State, token: nat) {
    exists steps :: Apart(s, steps, token) && !TestsSafe(ApplyAll(s, steps))
  }

  /// The session that replaced p's is from another address, or larger than p announced.
  ghost predicate Misfit(s: State, p: nat, q: nat)
    requires p < |s.handlers| && q < |s.handlers|
    requires Owns(s.handlers[p].phase) && s.handlers[q].phase.PrimaryAuth?
  {
    s.handlers[p].ip != s.handlers[q].ip || s.handlers[p].phase.expected < s.handlers[q].phase.expected
  }

  lemma CollectLate(s: State, p: nat) returns (steps: seq<Step>)
    requires p < |s.handlers| && Owns(s.handlers[p].phase)
    ensures NoneAuthenticates(steps)
    ensures var (s', phase) := (ApplyAll(s, steps), s.handlers[p].phase);
            && s'.tests == s.tests + [Test(p, phase.expected, StreamsOf(s.sessions, phase.token))]
            && |s'.handlers| == |s.handlers|
            && forall h :: 0 <= h < |s.handlers| ==> s'.handlers[h].ip == s.handlers[h].ip
  {
    steps := [Poll(p, true), Collect(p)];
    var s1 := Apply(s, Poll(p, true));
    var s2 := Apply(s1, Collect(p));
    TwoSteps(s, Poll(p, true), Collect(p));
  }

  lemma MisfitGoesWrong(s: State, p: nat, q: nat)
    requires p < |s.handlers| && q < |s.handlers|
    requires Owns(s.handlers[p].phase) && s.handlers[q].phase.PrimaryAuth? && Misfit(s, p, q)
    requires s.handlers[q].phase.token == s.handlers[p].phase.token && BothLowBits(s.handlers[p].phase.token)
    requires s.handlers[q].phase.expected > 0
    ensures CanGoWrong(Apply(s, PrimaryAuthDone(q, true)), s.handlers[p].phase.token)
  {
    hide ApplyAll, BothLowBits, TestsSafe;
    var (token, e) := (s.handlers[p].phase.token, s.handlers[q].phase.expected);
    var s1 := Apply(s, PrimaryAuthDone(q, true));
    assert s1.sessions[token] == Session(s.handlers[q].ip, [], e) && s1.handlers[p] == s.handlers[p];
    var count := if s.handlers[p].ip != s.handlers[q].ip then 1 else s.handlers[p].phase.expected + 1;
    var joins := JoinMany(s1, token, count);
    var s2 := ApplyAll(s1, joins);
    hide Apply;
    var collect := CollectLate(s2, p);
    var s3 := ApplyAll(s2, collect);
    var test := s3.tests[|s2.tests|];
    assert test == Test(p, s.handlers[p].phase.expected, s2.sessions[token].streams);
    assert !TestSafe(s3, test) by {
      if s.handlers[p].ip != s.handlers[q].ip {
        assert s3.handlers[test.extras[0]].ip == s.handlers[q].ip;
      }
    }
    assert !TestsSafe(s3) by { UnsafeTest(s3, |s2.tests|); }
    ApplyAllConcat(s1, joins, collect);
    NoneAuthenticatesApart(s1, joins + collect, token);
  }

  lemma UnsafeTest(s: State, k: nat)
    requires k < |s.tests| && !TestSafe(s, s.tests[k])
    ensures !TestsSafe(s)
  {
  }

  /// Owners of other tokens still have their sessions, each its own.
  ghost predicate OthersKept(s: State, token: nat) {
    && (forall h :: 0 <= h < |s.handlers| && Owns(s.handlers[h].phase) && s.handlers[h].phase.token != token ==>
          s.handlers[h].phase.token in s.sessions)
    && (forall h, g :: 0 <= h < g < |s.handlers| && Owns(s.handlers[h].phase) && Owns(s.handlers[g].phase) ==>
          s.handlers[h].phase.token == token || s.handlers[h].phase.token != s.handlers[g].phase.token)
  }

  lemma StepFit(s: State, a: Step, token: nat)
    requires OwnersFit(s) && OthersKept(s, token) && ApartStep(s, a, token)
    ensures OwnersFit(Apply(s, a))
  {
    hide Token, PrimaryPath, BothLowBits;
    if a.Lookup? { PrimaryPathKeeps(s, a); }
    if a.PrimaryAuthDone? { hide Apply; OthersAfterRegister(s, a, token); }
  }

  lemma StepOthers(s: State, a: Step, token: nat)
    requires OwnersFit(s) && OthersKept(s, token) && ApartStep(s, a, token)
    ensures OthersKept(Apply(s, a), token)
  {
    hide Token, HasRoom, PrimaryPath, BothLowBits, OwnersFit;
    if a.Lookup? { PrimaryPathKeeps(s, a); }
    if a.PrimaryAuthDone? { hide Apply; OthersAfterRegister(s, a, token); }
  }

  lemma OthersAfterRegister(s: State, a: Step, token: nat)
    requires OwnersFit(s) && OthersKept(s, token) && ApartStep(s, a, token) && a.PrimaryAuthDone?
    ensures OwnersFit(Apply(s, a)) && OthersKept(Apply(s, a), token)
  {
  }

  lemma {:induction false} ApartRunIsSafe(s: State, steps: seq<Step>, token: nat)
    requires SessionsKept(s) && PhasesKept(s) && OwnersFit(s) && OthersKept(s, token) && TestsSafe(s)
    requires Apart(s, steps, token)
    ensures TestsSafe(ApplyAll(s, steps))
    decreases |steps|
  {
    hide Apply, SessionsKept, PhasesKept, OwnersFit, OthersKept, TestsSafe, ApartStep;
    if steps != [] {
      StepSessions(s, steps[0]);
      StepPhases(s, steps[0]);
      StepFit(s, steps[0], token);
      StepOthers(s, steps[0], token);
      StepTestsSafe(s, steps[0]);
      ApartRunIsSafe(Apply(s, steps[0]), steps[1..], token);
    }
  }

  /// After a registration over p's session that fits p, nobody finds what does not fit.
  lemma FitAfterReuse(s: State, p: nat, q: nat)
    requires OwnersKept(s) && TestsSafe(s) && p < |s.handlers| && q < |s.handlers|
    requires Owns(s.handlers[p].phase) && s.handlers[q].phase.PrimaryAuth? && !Misfit(s, p, q)
    requires s.handlers[q].phase.token == s.handlers[p].phase.token
    ensures var s1 := Apply(s, PrimaryAuthDone(q, true));
            OwnersFit(s1) && OthersKept(s1, s.handlers[p].phase.token) && TestsSafe(s1)
  {
    var s1 := Apply(s, PrimaryAuthDone(q, true));
    forall k | 0 <= k < |s1.tests| ensures TestSafe(s1, s1.tests[k]) { assert TestSafe(s, s.tests[k]); }
  }

  /// When q registers under the token p waits on: some continuation without further reuse
  /// goes wrong exactly when q is at another address or announced more.
  lemma ReusedTokenExactly(s: State, p: nat, q: nat)
    requires Sound(s) && p < |s.handlers| && q < |s.handlers|
    requires Owns(s.handlers[p].phase) && s.handlers[q].phase.PrimaryAuth?
    requires s.handlers[q].phase.token == s.handlers[p].phase.token
    ensures CanGoWrong(Apply(s, PrimaryAuthDone(q, true)), s.handlers[p].phase.token) <==> Misfit(s, p, q)
  {
    hide ApplyAll, SessionsKept, OwnersKept, TestsSafe, BothLowBits;
    var token := s.handlers[p].phase.token;
    var s1 := Apply(s, PrimaryAuthDone(q, true));
    if Misfit(s, p, q) {
      MisfitGoesWrong(s, p, q);
    } else {
      FitAfterReuse(s, p, q);
      StepSessions(s, PrimaryAuthDone(q, true));
      StepPhases(s, PrimaryAuthDone(q, true));
      hide Apply, Apart;
      forall steps | Apart(s1, steps, token) ensures TestsSafe(ApplyAll(s1, steps)) {
        ApartRunIsSafe(s1, steps, token);
      }
    }
  }

  /// In such states, a used token is one that somebody waits on, so every registration
  /// under a used token is of this kind.
  lemma UsedTokenIsWaitedOn(before: seq<Step>, token: nat)
    requires FreshRun(INIT, before) && token in ApplyAll(INIT, before).sessions
    ensures var s := ApplyAll(INIT, before); Sound(s) && exists p :: OwnsToken(s, p, token)
  {
    FreshTokensAreSafe(before);
  }

  /// Two primaries that draw the same random word: address 1 waits, address 2 is next.
  const SAME_TOKEN: seq<Step> :=
    [Arrive(1), Arrive(2), Lookup(0, 1, 1, 2, 0, true), Lookup(1, 1, 1, 2, 0, true)]

  lemma SameTokenDrawn()
    ensures var s := ApplyAll(INIT, SAME_TOKEN);
            s.handlers == [Handler(1, Scanning(0x0101, 2)), Handler(2, Scanning(0x0101, 2))] && s.sessions == map[]
  {
    hide ApplyAll;
    var s1 := Apply(INIT, SAME_TOKEN[0]);
    var s2 := Apply(s1, SAME_TOKEN[1]);
    var s3 := Apply(s2, SAME_TOKEN[2]);
    assert s3.handlers[0].phase == Scanning(Token(0), 2);
    var s4 := Apply(s3, SAME_TOKEN[3]);
    assert s4.handlers[1].phase == Scanning(Token(0), 2);
    FourSteps(INIT, SAME_TOKEN[0], SAME_TOKEN[1], SAME_TOKEN[2], SAME_TOKEN[3]);
    assert s4.handlers == [s4.handlers[0], s4.handlers[1]];
  }

  /// So from the start some run ends with an unsafe test.
  lemma MixedTestReachable()
    ensures exists steps :: !TestsSafe(ApplyAll(INIT, steps))
  {
    hide ApplyAll, TestsSafe, Apart;
    var s := ApplyAll(INIT, SAME_TOKEN);
    SameTokenDrawn();
    var s1 := Apply(s, Scan(0));
    var s2 := Apply(s1, Scan(1));
    assert s2.handlers[1].phase == PrimaryAuth(0x0101, 2) && s2.handlers[0].phase == PrimaryAuth(0x0101, 2);
    var s3 := Apply(s2, PrimaryAuthDone(0, true));
    MisfitGoesWrong(s3, 0, 1);
    var s4 := Apply(s3, PrimaryAuthDone(1, true));
    var register := [Scan(0), Scan(1), PrimaryAuthDone(0, true), PrimaryAuthDone(1, true)];
    FourSteps(s, register[0], register[1], register[2], register[3]);
    var steps :| !TestsSafe(ApplyAll(s4, steps));
    ApplyAllConcat(s, register, steps);
    ApplyAllConcat(INIT, SAME_TOKEN, register + steps);
  }
}
