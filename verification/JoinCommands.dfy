/// Which first messages can end as a secondary connection, over the whole of a handler.
module JoinCommands {
  import opened Join
  import opened JoinTokens

  ghost predicate InSomeSession(s: State, h: nat) {
    exists t :: t in s.sessions && h in s.sessions[t].streams
  }

  /// A stream with its handler, or dropped, is in no session.
  lemma ElsewhereNotInSession(s: State, h: nat)
    requires Kept(s) && (At(s, h, Held) || At(s, h, Discarded))
    ensures !InSomeSession(s, h)
  {
    hide SessionsKept, PhasesKept, TestsShaped;
    var place :| Located(s, place);
    forall t | t in s.sessions ensures h !in s.sessions[t].streams {
      forall i | 0 <= i < |s.sessions[t].streams| ensures s.sessions[t].streams[i] != h {
        assert At(s, s.sessions[t].streams[i], InSession(t, i));
      }
    }
  }

  lemma ReachableKept(steps: seq<Step>)
    ensures Kept(ApplyAll(INIT, steps))
  {
    assert Located(INIT, []);
    RunKeeps(INIT, steps);
  }

  // ---- UDP ----

  /// On its own test, or dropped: for good.
  ghost predicate OnItsOwn(s: State, h: nat) {
    h < |s.handlers| && (s.handlers[h].phase == Single || (s.handlers[h].phase == Gone && h in s.dropped))
  }

  lemma StepOnItsOwn(s: State, a: Step, h: nat)
    requires OnItsOwn(s, h)
    ensures OnItsOwn(Apply(s, a), h)
  {
    hide HasRoom, Token, TokenOf;
  }

  lemma {:induction false} StaysOnItsOwn(s: State, steps: seq<Step>, h: nat)
    requires OnItsOwn(s, h)
    ensures OnItsOwn(ApplyAll(s, steps), h)
    decreases |steps|
  {
    hide Apply, OnItsOwn;
    if steps != [] {
      StepOnItsOwn(s, steps[0], h);
      StaysOnItsOwn(Apply(s, steps[0]), steps[1..], h);
    }
  }

  /// A connection that sends a UDP command never joins a session, then or later.
  lemma UdpNeverJoins(before: seq<Step>, a: Step, after: seq<Step>)
    requires a.Lookup? && Bytes(a) && a.b0 == 0
    requires var s := ApplyAll(INIT, before); a.h < |s.handlers| && s.handlers[a.h].phase == Reading
    ensures !InSomeSession(ApplyAll(Apply(ApplyAll(INIT, before), a), after), a.h)
  {
    hide ApplyAll, Located, InSomeSession, BothLowBits, Token;
    var s := ApplyAll(INIT, before);
    CommandsNotTakenForToken(before, a);
    var s1 := Apply(s, a);
    assert OnItsOwn(s1, a.h);
    hide Apply;
    StaysOnItsOwn(s1, after, a.h);
    OneStep(s, a);
    ApplyAllConcat(INIT, before, [a]);
    ApplyAllConcat(INIT, before + [a], after);
    ReachableKept(before + [a] + after);
    ElsewhereNotInSession(ApplyAll(s1, after), a.h);
  }

  // ---- TCP with a connection count ----

  /// The commands that go on to the look for any session of their peer.
  lemma CommandsThatScan(s: State, a: Step)
    requires a.Lookup? && Bytes(a) && a.h < |s.handlers| && s.handlers[a.h].phase == Reading
    ensures Apply(s, a).handlers[a.h].phase.Scanning? <==>
              a.b0 == 1 && 1 <= a.b1 <= 3 && a.connCount > 0
              && !HasRoom(s.sessions, TokenOf(a.b0, a.b1), s.handlers[a.h].ip)
  {
    hide HasRoom, Token;
  }

  /// Every command that is not taken for a token: refused and dropped when protocol or
  /// direction is invalid; on its own test when it is UDP or announces no connections; and
  /// otherwise off to that look, with its count and a token of its own. Sessions and tests
  /// stay as they are.
  lemma CommandOutcomes(s: State, a: Step)
    requires a.Lookup? && Bytes(a) && a.h < |s.handlers| && s.handlers[a.h].phase == Reading
    requires !HasRoom(s.sessions, TokenOf(a.b0, a.b1), s.handlers[a.h].ip)
    ensures var s', phase := Apply(s, a), Apply(s, a).handlers[a.h].phase;
            var valid := a.b0 <= 1 && 1 <= a.b1 <= 3;
            && s'.sessions == s.sessions && s'.tests == s.tests
            && s'.dropped == (if valid then s.dropped else s.dropped + {a.h})
            && phase == if !valid then Gone
                        else if a.b0 == 0 || a.connCount == 0 then Single
                        else Scanning(Token(a.random), a.connCount)
  {
    hide HasRoom, Token;
  }

  /// Steps of other handlers.
  ghost predicate OthersOnly(steps: seq<Step>, h: nat) {
    forall i :: 0 <= i < |steps| ==> steps[i].Arrive? || steps[i].h != h
  }

  lemma {:induction false} OthersLeave(s: State, steps: seq<Step>, h: nat)
    requires OthersOnly(steps, h) && h < |s.handlers|
    ensures var s' := ApplyAll(s, steps); h < |s'.handlers| && s'.handlers[h] == s.handlers[h]
    decreases |steps|
  {
    if steps != [] {
      OtherLeaves(s, steps[0], h);
      hide Apply;
      OthersLeave(Apply(s, steps[0]), steps[1..], h);
    }
  }

  lemma OtherLeaves(s: State, a: Step, h: nat)
    requires (a.Arrive? || a.h != h) && h < |s.handlers|
    ensures var s' := Apply(s, a); h < |s'.handlers| && s'.handlers[h] == s.handlers[h]
  {
    hide HasRoom, Token;
  }

  /// Whatever others do meanwhile, such a connection ends in a session exactly when there
  /// was room at its scan, it authenticates, and there is room when it looks again.
  lemma ScanJoinsExactly(before: seq<Step>, h: nat, between: seq<Step>, ok: bool, t: nat)
    requires var s := ApplyAll(INIT, before); h < |s.handlers| && s.handlers[h].phase.Scanning?
    requires OthersOnly(between, h)
    requires var s2 := ApplyAll(Apply(ApplyAll(INIT, before), Scan(h)), between);
             var ip := ApplyAll(INIT, before).handlers[h].ip;
             (exists u :: HasRoom(s2.sessions, u, ip)) ==> HasRoom(s2.sessions, t, ip)
    ensures var s := ApplyAll(INIT, before);
            var s2 := ApplyAll(Apply(s, Scan(h)), between);
            var ip := s.handlers[h].ip;
            InSomeSession(Apply(s2, JoinAuthDone(h, ok, t)), h) <==>
              (exists u :: HasRoom(s.sessions, u, ip)) && ok && exists u :: HasRoom(s2.sessions, u, ip)
  {
    hide ApplyAll, Located, BothLowBits;
    var s := ApplyAll(INIT, before);
    var s1 := Apply(s, Scan(h));
    var s2 := ApplyAll(s1, between);
    var done := JoinAuthDone(h, ok, t);
    var s3 := Apply(s2, done);
    OthersLeave(s1, between, h);
    OneStep(s, Scan(h));
    OneStep(s2, done);
    ApplyAllConcat(INIT, before, [Scan(h)]);
    ApplyAllConcat(INIT, before + [Scan(h)], between);
    ApplyAllConcat(INIT, before + [Scan(h)] + between, [done]);
    ReachableKept(before + [Scan(h)] + between + [done]);
    if (exists u :: HasRoom(s.sessions, u, s.handlers[h].ip)) && ok && HasRoom(s2.sessions, t, s.handlers[h].ip) {
      assert s3.sessions[t].streams == s2.sessions[t].streams + [h];
    } else {
      assert At(s3, h, Held) || At(s3, h, Discarded);
      ElsewhereNotInSession(s3, h);
    }
  }

  /// One such run: a TCP command to transmit joins the session of a waiting primary.
  lemma TransmitCommandJoins()
    ensures exists steps :: ApplyAll(INIT, steps).sessions == map[0x0101 := Session(1, [1], 2)]
  {
    hide ApplyAll;
    var s := ApplyAll(INIT, OnePrimary(2));
    OnePrimaryWaits(2);
    var s1 := Apply(s, Arrive(1));
    assert s1.handlers[1] == Handler(1, Reading);
    var s2 := Apply(s1, Lookup(1, 1, 2, 1, 0, true));
    assert s2.handlers[1].phase == Scanning(0x0101, 1) && HasRoom(s2.sessions, 0x0101, 1);
    var s3 := Apply(s2, Scan(1));
    assert s3.handlers[1].phase == JoinAuth;
    var s4 := Apply(s3, JoinAuthDone(1, true, 0x0101));
    assert s4.sessions[0x0101].streams == [1];
    FourSteps(s, Arrive(1), Lookup(1, 1, 2, 1, 0, true), Scan(1), JoinAuthDone(1, true, 0x0101));
    ApplyAllConcat(INIT, OnePrimary(2),
                   [Arrive(1), Lookup(1, 1, 2, 1, 0, true), Scan(1), JoinAuthDone(1, true, 0x0101)]);
  }
}
