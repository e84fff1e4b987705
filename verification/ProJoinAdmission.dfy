/// Who gets into the sessions and tests of `src/server_pro/server_loop.rs`: one primary that
/// was admitted, and connections that sent the token.
module ProJoinAdmission {
  import J = Join
  import opened ProJoin

  /// The first message of this connection carried the token, and the reply was written.
  ghost predicate SentToken(log: seq<Step>, h: nat, token: nat) {
    exists i :: 0 <= i < |log| && log[i].Lookup? && log[i].h == h && log[i].written
      && J.TokenOf(log[i].b0, log[i].b1) == token
  }

  /// The first stream is that of a primary that was admitted; the others sent the token.
  ghost predicate SessionAdmitted(log: seq<Step>, streams: seq<nat>, token: nat) {
    && |streams| >= 1 && Admit(streams[0], true) in log
    && forall i :: 1 <= i < |streams| ==> SentToken(log, streams[i], token)
  }

  ghost predicate TestAdmitted(log: seq<Step>, streams: seq<nat>) {
    exists token :: SessionAdmitted(log, streams, token)
  }

  ghost predicate Admitted(s: State, log: seq<Step>) {
    && (forall t :: t in s.sessions ==> SessionAdmitted(log, s.sessions[t].streams, t))
    && (forall k :: 0 <= k < |s.tests| ==> TestAdmitted(log, s.tests[k].streams))
  }

  lemma LongerLog(log: seq<Step>, a: Step, streams: seq<nat>, token: nat)
    requires SessionAdmitted(log, streams, token)
    ensures SessionAdmitted(log + [a], streams, token)
  {
    var log' := log + [a];
    assert forall i :: 0 <= i < |log| ==> log'[i] == log[i];
  }

  lemma LongerLogAdmitted(s: State, log: seq<Step>, a: Step)
    requires Admitted(s, log)
    ensures Admitted(s, log + [a])
  {
    hide SessionAdmitted;
    forall t | t in s.sessions ensures SessionAdmitted(log + [a], s.sessions[t].streams, t) {
      LongerLog(log, a, s.sessions[t].streams, t);
    }
    forall k | 0 <= k < |s.tests| ensures TestAdmitted(log + [a], s.tests[k].streams) {
      var token :| SessionAdmitted(log, s.tests[k].streams, token);
      LongerLog(log, a, s.tests[k].streams, token);
    }
  }

  lemma JoinAdmits(s: State, log: seq<Step>, h: nat, t: nat)
    requires Admitted(s, log) && h < |s.handlers| && t in s.sessions && SentToken(log, h, t)
    ensures Admitted(JoinSession(s, h, t), log)
  {
    hide TestAdmitted, SentToken;
    var streams := s.sessions[t].streams + [h];
    assert SessionAdmitted(log, streams, t);
    OneToken(log, streams, t);
  }

  lemma OneToken(log: seq<Step>, streams: seq<nat>, token: nat)
    requires SessionAdmitted(log, streams, token)
    ensures TestAdmitted(log, streams)
  {
  }

  lemma RegisterAdmits(s: State, log: seq<Step>, h: nat, token: nat, expected: nat)
    requires Admitted(s, log) && h < |s.handlers| && Admit(h, true) in log
    ensures Admitted(RegisterSession(s, h, token, expected), log)
  {
    hide TestAdmitted, SentToken;
  }

  lemma SentNow(log: seq<Step>, a: Step)
    requires a.Lookup? && a.written
    ensures SentToken(log + [a], a.h, J.TokenOf(a.b0, a.b1))
  {
    assert (log + [a])[|log|] == a;
  }

  lemma StepAdmits(s: State, a: Step, log: seq<Step>)
    requires Admitted(s, log)
    ensures Admitted(Apply(s, a), log + [a])
  {
    hide Apply, JoinSession, RegisterSession, SessionAdmitted, TestAdmitted, SentToken, J.TokenOf;
    LongerLogAdmitted(s, log, a);
    StepCases(s, a);
    if SameSessions(s, Apply(s, a)) {
    } else if a.Lookup? {
      SentNow(log, a);
      JoinAdmits(s, log + [a], a.h, J.TokenOf(a.b0, a.b1));
    } else {
      assert a in log + [a];
      RegisterAdmits(s, log + [a], a.h, s.handlers[a.h].phase.token, s.handlers[a.h].phase.expected);
    }
  }

  lemma {:induction false} RunAdmits(s: State, steps: seq<Step>, log: seq<Step>)
    requires Admitted(s, log)
    ensures Admitted(ApplyAll(s, steps), log + steps)
    decreases |steps|
  {
    hide Apply, Admitted;
    if steps == [] {
      assert log + steps == log;
    } else {
      StepAdmits(s, steps[0], log);
      RunAdmits(Apply(s, steps[0]), steps[1..], log + [steps[0]]);
      assert log + [steps[0]] + steps[1..] == log + steps;
    }
  }

  /// In every run, a pending or started session has the stream of a primary that was
  /// admitted first, and after it only connections that sent its token.
  lemma OnlyAdmitted(steps: seq<Step>)
    ensures Admitted(ApplyAll(INIT, steps), steps)
  {
    RunAdmits(INIT, steps, []);
    assert [] + steps == steps;
  }
}
