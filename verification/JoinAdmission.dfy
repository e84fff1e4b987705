/// Who gets into the sessions and tests of `src/server.rs`: primaries that authenticated, and
/// connections that sent the token or authenticated.
module JoinAdmission {
  import opened Join

  ghost predicate Authenticated(log: seq<Step>, h: nat) {
    PrimaryAuthDone(h, true) in log
  }

  /// The first message of this connection carried the token, and the reply was written.
  ghost predicate SentToken(log: seq<Step>, h: nat, token: nat) {
    exists i :: 0 <= i < |log| && log[i].Lookup? && log[i].h == h && log[i].written
      && TokenOf(log[i].b0, log[i].b1) == token
  }

  ghost predicate AuthenticatedToJoin(log: seq<Step>, h: nat) {
    exists i :: 0 <= i < |log| && log[i].JoinAuthDone? && log[i].h == h && log[i].ok
  }

  ghost predicate MayJoin(log: seq<Step>, h: nat, token: nat) {
    SentToken(log, h, token) || AuthenticatedToJoin(log, h)
  }

  ghost predicate StreamsMayJoin(log: seq<Step>, streams: seq<nat>, token: nat) {
    forall i :: 0 <= i < |streams| ==> MayJoin(log, streams[i], token)
  }

  /// The joined streams of a test had one token between them.
  ghost predicate TestAdmitted(log: seq<Step>, t: Test) {
    Authenticated(log, t.primary) && exists token :: StreamsMayJoin(log, t.extras, token)
  }

  ghost predicate Admitted(s: State, log: seq<Step>) {
    && (forall h :: 0 <= h < |s.handlers| && Owns(s.handlers[h].phase) ==> Authenticated(log, h))
    && (forall t :: t in s.sessions ==> StreamsMayJoin(log, s.sessions[t].streams, t))
    && (forall k :: 0 <= k < |s.tests| ==> TestAdmitted(log, s.tests[k]))
  }

  lemma LongerLog(log: seq<Step>, a: Step, h: nat, token: nat)
    ensures Authenticated(log, h) ==> Authenticated(log + [a], h)
    ensures MayJoin(log, h, token) ==> MayJoin(log + [a], h, token)
  {
    var log' := log + [a];
    assert forall i :: 0 <= i < |log| ==> log'[i] == log[i];
  }

  lemma LongerLogStreams(log: seq<Step>, a: Step, streams: seq<nat>, token: nat)
    requires StreamsMayJoin(log, streams, token)
    ensures StreamsMayJoin(log + [a], streams, token)
  {
    hide MayJoin;
    forall i | 0 <= i < |streams| ensures MayJoin(log + [a], streams[i], token) {
      LongerLog(log, a, streams[i], token);
    }
  }

  lemma LongerLogAdmitted(s: State, log: seq<Step>, a: Step)
    requires Admitted(s, log)
    ensures Admitted(s, log + [a])
  {
    hide Authenticated, StreamsMayJoin, MayJoin;
    forall h: nat ensures Authenticated(log, h) ==> Authenticated(log + [a], h) { LongerLog(log, a, h, 0); }
    forall t | t in s.sessions ensures StreamsMayJoin(log + [a], s.sessions[t].streams, t) {
      LongerLogStreams(log, a, s.sessions[t].streams, t);
    }
    forall k | 0 <= k < |s.tests| ensures TestAdmitted(log + [a], s.tests[k]) {
      var token :| StreamsMayJoin(log, s.tests[k].extras, token);
      LongerLogStreams(log, a, s.tests[k].extras, token);
    }
  }

  /// Joining, for a connection that may.
  lemma JoinAdmits(s: State, log: seq<Step>, h: nat, t: nat)
    requires Admitted(s, log) && h < |s.handlers| && t in s.sessions && MayJoin(log, h, t)
    ensures Admitted(JoinSession(s, h, t), log)
  {
    hide Authenticated, MayJoin, TestAdmitted;
  }

  lemma StepAdmits(s: State, a: Step, log: seq<Step>)
    requires Admitted(s, log)
    ensures Admitted(Apply(s, a), log + [a])
  {
    hide Token, PrimaryPath, StreamsMayJoin, MayJoin, TestAdmitted, Authenticated, HasRoom;
    var log' := log + [a];
    LongerLogAdmitted(s, log, a);
    if a.Arrive? || a.h >= |s.handlers| || !Bytes(a) { return; }
    var h, ip := a.h, s.handlers[a.h].ip;
    match a
    case Lookup(_, b0, b1, connCount, random, written) =>
      PrimaryPathKeeps(s, a);
      LookupMayJoin(log, a);
      if HasRoom(s.sessions, TokenOf(b0, b1), ip) && written {
        RoomIsSession(s, TokenOf(b0, b1), ip);
        JoinAdmits(s, log', h, TokenOf(b0, b1));
      }
    case JoinAuthDone(_, ok, t) =>
      if ok && HasRoom(s.sessions, t, ip) {
        RoomIsSession(s, t, ip);
        OkMayJoin(log, a, t);
        JoinAdmits(s, log', h, t);
      }
    case PrimaryAuthDone(_, ok) => if ok { AuthenticatedNow(log, h); RegisterAdmits(s, log', h); }
    case Collect(_) => if s.handlers[h].phase.Ready? { CollectAdmits(s, log', h); }
    case _ =>
  }

  lemma RoomIsSession(s: State, t: nat, ip: nat)
    requires HasRoom(s.sessions, t, ip)
    ensures t in s.sessions
  {
  }

  lemma LookupMayJoin(log: seq<Step>, a: Step)
    requires a.Lookup?
    ensures a.written ==> MayJoin(log + [a], a.h, TokenOf(a.b0, a.b1))
  {
    assert (log + [a])[|log|] == a;
  }

  lemma OkMayJoin(log: seq<Step>, a: Step, token: nat)
    requires a.JoinAuthDone? && a.ok
    ensures MayJoin(log + [a], a.h, token)
  {
    assert (log + [a])[|log|] == a;
  }

  lemma AuthenticatedNow(log: seq<Step>, h: nat)
    ensures Authenticated(log + [PrimaryAuthDone(h, true)], h)
  {
  }

  lemma RegisterAdmits(s: State, log: seq<Step>, h: nat)
    requires Admitted(s, log) && h < |s.handlers| && Authenticated(log, h)
    ensures forall token, expected :: Admitted(RegisterSession(s, h, token, expected), log)
  {
    hide Authenticated, MayJoin, TestAdmitted;
  }

  lemma CollectAdmits(s: State, log: seq<Step>, h: nat)
    requires Admitted(s, log) && h < |s.handlers| && Owns(s.handlers[h].phase)
    ensures Admitted(CollectSession(s, h, s.handlers[h].phase.token, s.handlers[h].phase.expected), log)
  {
    hide Authenticated, MayJoin;
    var token := s.handlers[h].phase.token;
    assert StreamsMayJoin(log, StreamsOf(s.sessions, token), token);
  }

  lemma {:induction false} RunAdmits(s: State, steps: seq<Step>, log: seq<Step>)
    requires Admitted(s, log)
    ensures Admitted(ApplyAll(s, steps), log + steps)
    decreases |steps|
  {
    hide Apply, Admitted;
    if steps == [] {
      assert log + steps == log;
    } else {
      StepAdmits(s, steps[0], log);
      RunAdmits(Apply(s, steps[0]), steps[1..], log + [steps[0]]);
      assert log + [steps[0]] + steps[1..] == log + steps;
    }
  }

  /// In every run, whoever waits for connections or starts a multi-connection test has
  /// authenticated, and whoever is in a session or was joined to a test has sent its token
  /// or authenticated.
  lemma OnlyAdmitted(steps: seq<Step>)
    ensures Admitted(ApplyAll(INIT, steps), steps)
  {
    RunAdmits(INIT, steps, []);
    assert [] + steps == steps;
  }
}
