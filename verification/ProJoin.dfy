/// Pending multi-connection sessions of `src/server_pro/server_loop.rs`: the primary's
/// stream goes into the session, and the connection that completes it starts the test.
module ProJoin {
  import J = Join

  /// `id` numbers the sessions in the order they were registered.
  datatype Session = Session(id: nat, peerIp: nat, streams: seq<nat>, expected: nat)

  predicate HasRoom(m: map<nat, Session>, t: nat, ip: nat) {
    t in m && m[t].peerIp == ip && |m[t].streams| < m[t].expected
  }

  function WithStream(s: Session, stream: nat): Session {
    s.(streams := s.streams + [stream])
  }

  /// A joined session is complete when it holds all the streams it expects.
  predicate Complete(s: Session) {
    |s.streams| >= s.expected
  }

  datatype Outcome = Joined | Started(session: Session) | WriteFailed | NotASecondary

  class SessionMap {
    var sessions: map<nat, Session>
    var nextId: nat

    constructor ()
      ensures sessions == map[] && nextId == 0
    {
      sessions, nextId := map[], 0;
    }

    /// The first region: join by token, and take the session out when it is complete.
    method JoinOrStart(token: nat, ip: nat, stream: nat, written: bool) returns (outcome: Outcome)
      modifies this`sessions
      ensures !HasRoom(old(sessions), token, ip) ==> outcome == NotASecondary
      ensures HasRoom(old(sessions), token, ip) && !written ==> outcome == WriteFailed
      ensures outcome.NotASecondary? || outcome.WriteFailed? ==> sessions == old(sessions)
      ensures HasRoom(old(sessions), token, ip) && written ==>
                var joined := WithStream(old(sessions)[token], stream);
                if Complete(joined) then outcome == Started(joined) && sessions == old(sessions) - {token}
                else outcome == Joined && sessions == old(sessions)[token := joined]
    {
      outcome := NotASecondary;
      if token in sessions {
        var session := sessions[token];
        if session.peerIp == ip && |session.streams| < session.expected {
          if !written { return WriteFailed; }
          session := session.(streams := session.streams + [stream]);
          if |session.streams| >= session.expected {
            sessions := sessions - {token};
            return Started(session);
          }
          sessions := sessions[token := session];
          return Joined;
        }
      }
    }

    /// Registration by an authenticated primary, whose stream is the first.
    method Register(token: nat, ip: nat, stream: nat, expected: nat) returns (replaced: seq<nat>)
      modifies this
      ensures sessions == old(sessions)[token := Session(old(nextId), ip, [stream], expected)]
      ensures nextId == old(nextId) + 1 && replaced == StreamsOf(old(sessions), token)
    {
      replaced := if token in sessions then sessions[token].streams else [];
      sessions := sessions[token := Session(nextId, ip, [stream], expected)];
      nextId := nextId + 1;
    }
  }

  // ---- All handlers ----

  datatype Phase = Reading | Admitting(token: nat, expected: nat) | Single | Gone

  /// Handler h serves stream h.
  datatype Handler = Handler(ip: nat, phase: Phase)

  /// A test is the session it was started from.
  datatype State = State(sessions: map<nat, Session>, nextId: nat, handlers: seq<Handler>,
                         tests: seq<Session>, dropped: set<nat>)

  const INIT := State(map[], 0, [], [], {})

  datatype Step =
    | Arrive(ip: nat)
    /// bytes 0, 1 and 3 of the first message, and the random word drawn if needed
    | Lookup(h: nat, b0: nat, b1: nat, connCount: nat, random: nat, written: bool)
    /// address check, authentication and user check; then registration
    | Admit(h: nat, ok: bool)

  function WithPhase(s: State, h: nat, phase: Phase): State
    requires h < |s.handlers|
  {
    s.(handlers := s.handlers[h := s.handlers[h].(phase := phase)])
  }

  function Drop(s: State, h: nat): State
    requires h < |s.handlers|
  {
    WithPhase(s, h, Gone).(dropped := s.dropped + {h})
  }

  function JoinSession(s: State, h: nat, t: nat): State
    requires h < |s.handlers| && t in s.sessions
  {
    var joined := WithStream(s.sessions[t], h);
    if Complete(joined) then WithPhase(s, h, Gone).(sessions := s.sessions - {t}, tests := s.tests + [joined])
    else WithPhase(s, h, Gone).(sessions := s.sessions[t := joined])
  }

  function StreamsOf(m: map<nat, Session>, t: nat): seq<nat> {
    if t in m then m[t].streams else []
  }

  function RegisterSession(s: State, h: nat, token: nat, expected: nat): State
    requires h < |s.handlers|
  {
    WithPhase(s, h, Gone).(
      sessions := s.sessions[token := Session(s.nextId, s.handlers[h].ip, [h], expected)],
      nextId := s.nextId + 1,
      dropped := s.dropped + (set x | x in StreamsOf(s.sessions, token)))
  }

  predicate Bytes(a: Step) {
    a.Lookup? ==> a.b0 < 256 && a.b1 < 256 && a.connCount < 256 && a.random < 0x1_0000
  }

  /// One locked region of one handler. A step that is not possible changes nothing.
  function Apply(s: State, a: Step): State {
    if a.Arrive? then s.(handlers := s.handlers + [Handler(a.ip, Reading)])
    else if a.h >= |s.handlers| || !Bytes(a) then s
    else
      var ip, phase := s.handlers[a.h].ip, s.handlers[a.h].phase;
      match a
      case Lookup(h, b0, b1, connCount, random, written) =>
        if phase != Reading then s
        else if HasRoom(s.sessions, J.TokenOf(b0, b1), ip) then
          (if written then JoinSession(s, h, J.TokenOf(b0, b1)) else Drop(s, h))
        else if b0 != 0 && connCount > 0 then WithPhase(s, h, Admitting(J.Token(random), connCount))
        else WithPhase(s, h, Single)
      case Admit(h, ok) =>
        if !phase.Admitting? then s
        else if !ok then Drop(s, h)
        else RegisterSession(s, h, phase.token, phase.expected)
  }

  function ApplyAll(s: State, steps: seq<Step>): State
    decreases |steps|
  {
    if steps == [] then s else ApplyAll(Apply(s, steps[0]), steps[1..])
  }

  // ---- Pending sessions and tests ----

  ghost predicate FromIp(s: State, streams: seq<nat>, ip: nat) {
    forall i :: 0 <= i < |streams| ==> streams[i] < |s.handlers| && s.handlers[streams[i]].ip == ip
  }

  /// A pending session has its primary and still lacks a stream; one that announced a
  /// single connection is complete from the start, but nobody joins it, so it stays.
  ghost predicate PendingKept(s: State, t: nat)
    requires t in s.sessions
  {
    var session := s.sessions[t];
    && J.BothLowBits(t)
    && 1 <= |session.streams| <= session.expected < 256
    && (|session.streams| == session.expected ==> session.expected == 1)
    && FromIp(s, session.streams, session.peerIp)
    && session.id < s.nextId
  }

  /// A test has exactly the streams announced, at least two, from one address.
  ghost predicate TestKept(s: State, k: nat)
    requires k < |s.tests|
  {
    var session := s.tests[k];
    && 2 <= |session.streams| == session.expected < 256
    && FromIp(s, session.streams, session.peerIp)
    && session.id < s.nextId
  }

  ghost predicate PhasesKept(s: State) {
    forall h :: 0 <= h < |s.handlers| && s.handlers[h].phase.Admitting? ==>
      0 < s.handlers[h].phase.expected < 256 && J.BothLowBits(s.handlers[h].phase.token)
  }

  ghost predicate SessionsKept(s: State) {
    && PhasesKept(s)
    && (forall t :: t in s.sessions ==> PendingKept(s, t))
    && (forall k :: 0 <= k < |s.tests| ==> TestKept(s, k))
  }

  /// A session is pending under one token or started once, never both.
  ghost predicate StartedOnce(s: State) {
    && (forall t, t' :: t in s.sessions && t' in s.sessions && s.sessions[t].id == s.sessions[t'].id ==> t == t')
    && (forall k, k' :: 0 <= k < k' < |s.tests| ==> s.tests[k].id != s.tests[k'].id)
    && (forall t, k :: t in s.sessions && 0 <= k < |s.tests| ==> s.sessions[t].id != s.tests[k].id)
  }

  lemma StepIps(s: State, a: Step)
    ensures var s' := Apply(s, a);
            && |s.handlers| <= |s'.handlers| && s.nextId <= s'.nextId
            && forall h :: 0 <= h < |s.handlers| ==> s'.handlers[h].ip == s.handlers[h].ip
  {
    hide J.Token, HasRoom, Complete;
  }

  lemma StepPhases(s: State, a: Step)
    requires PhasesKept(s)
    ensures PhasesKept(Apply(s, a))
  {
    hide J.Token, J.BothLowBits, HasRoom, Complete;
    if a.Lookup? && Bytes(a) { J.TokenBits(a.random); }
  }

  /// Nothing but the handler's phase, or a drop, or a new handler.
  ghost predicate SameSessions(s: State, s': State) {
    s'.sessions == s.sessions && s'.tests == s.tests && s'.nextId == s.nextId
  }

  /// A step leaves sessions and tests alone, or joins, or registers.
  lemma StepCases(s: State, a: Step)
    ensures var s' := Apply(s, a);
            || SameSessions(s, s')
            || (a.Lookup? && a.written && a.h < |s.handlers| && J.TokenOf(a.b0, a.b1) in s.sessions
                && HasRoom(s.sessions, J.TokenOf(a.b0, a.b1), s.handlers[a.h].ip)
                && s' == JoinSession(s, a.h, J.TokenOf(a.b0, a.b1)))
            || (a.Admit? && a.ok && a.h < |s.handlers| && s.handlers[a.h].phase.Admitting?
                && s' == RegisterSession(s, a.h, s.handlers[a.h].phase.token, s.handlers[a.h].phase.expected))
  {
    hide J.Token, J.TokenOf, JoinSession, RegisterSession;
  }

  lemma JoinKept(s: State, h: nat, t: nat)
    requires SessionsKept(s) && h < |s.handlers| && HasRoom(s.sessions, t, s.handlers[h].ip)
    ensures var s' := JoinSession(s, h, t);
            && (forall u :: u in s'.sessions ==> PendingKept(s', u))
            && (forall k :: 0 <= k < |s'.tests| ==> TestKept(s', k))
  {
    hide J.BothLowBits, PhasesKept;
    var s' := JoinSession(s, h, t);
    assert PendingKept(s, t);
    forall u | u in s'.sessions ensures PendingKept(s', u) { assert PendingKept(s, u); }
    forall k | 0 <= k < |s'.tests| ensures TestKept(s', k) {
      if k < |s.tests| { assert TestKept(s, k); }
    }
  }

  lemma RegisterKept(s: State, h: nat)
    requires SessionsKept(s) && h < |s.handlers| && s.handlers[h].phase.Admitting?
    ensures var s' := RegisterSession(s, h, s.handlers[h].phase.token, s.handlers[h].phase.expected);
            && (forall u :: u in s'.sessions ==> PendingKept(s', u))
            && (forall k :: 0 <= k < |s'.tests| ==> TestKept(s', k))
  {
    hide J.BothLowBits;
    var token := s.handlers[h].phase.token;
    var s' := RegisterSession(s, h, token, s.handlers[h].phase.expected);
    forall u | u in s'.sessions ensures PendingKept(s', u) {
      if u != token { assert PendingKept(s, u); }
    }
    forall k | 0 <= k < |s'.tests| ensures TestKept(s', k) { assert TestKept(s, k); }
  }

  lemma SameKept(s: State, s': State)
    requires SessionsKept(s) && SameSessions(s, s') && |s.handlers| <= |s'.handlers|
    requires forall h :: 0 <= h < |s.handlers| ==> s'.handlers[h].ip == s.handlers[h].ip
    ensures (forall t :: t in s'.sessions ==> PendingKept(s', t)) && forall k :: 0 <= k < |s'.tests| ==> TestKept(s', k)
  {
    hide J.BothLowBits, PhasesKept;
    forall t | t in s'.sessions ensures PendingKept(s', t) { assert PendingKept(s, t); }
    forall k | 0 <= k < |s'.tests| ensures TestKept(s', k) { assert TestKept(s, k); }
  }

  lemma StepSessions(s: State, a: Step)
    requires SessionsKept(s)
    ensures SessionsKept(Apply(s, a))
  {
    hide Apply, JoinSession, RegisterSession, HasRoom, PhasesKept, PendingKept, TestKept, SameSessions;
    StepIps(s, a);
    StepPhases(s, a);
    StepCases(s, a);
    if SameSessions(s, Apply(s, a)) {
      SameKept(s, Apply(s, a));
    } else if a.Lookup? {
      JoinKept(s, a.h, J.TokenOf(a.b0, a.b1));
    } else {
      RegisterKept(s, a.h);
    }
  }

  lemma IdsBelow(s: State)
    requires SessionsKept(s)
    ensures forall t :: t in s.sessions ==> s.sessions[t].id < s.nextId
    ensures forall k :: 0 <= k < |s.tests| ==> s.tests[k].id < s.nextId
  {
    forall t | t in s.sessions ensures s.sessions[t].id < s.nextId { assert PendingKept(s, t); }
    forall k | 0 <= k < |s.tests| ensures s.tests[k].id < s.nextId { assert TestKept(s, k); }
  }

  lemma StepStartedOnce(s: State, a: Step)
    requires SessionsKept(s) && StartedOnce(s)
    ensures StartedOnce(Apply(s, a))
  {
    hide Apply, SessionsKept, JoinSession, RegisterSession;
    IdsBelow(s);
    StepCases(s, a);
    if SameSessions(s, Apply(s, a)) {
    } else if a.Lookup? {
      JoinStartsOnce(s, a.h, J.TokenOf(a.b0, a.b1));
    } else {
      RegisterStartsNothing(s, a.h, s.handlers[a.h].phase.token, s.handlers[a.h].phase.expected);
    }
  }

  lemma JoinStartsOnce(s: State, h: nat, t: nat)
    requires StartedOnce(s) && h < |s.handlers| && t in s.sessions
    ensures StartedOnce(JoinSession(s, h, t))
  {
  }

  lemma RegisterStartsNothing(s: State, h: nat, token: nat, expected: nat)
    requires StartedOnce(s) && h < |s.handlers|
    requires forall t :: t in s.sessions ==> s.sessions[t].id < s.nextId
    requires forall k :: 0 <= k < |s.tests| ==> s.tests[k].id < s.nextId
    ensures StartedOnce(RegisterSession(s, h, token, expected))
  {
  }

  // ---- Every stream is in exactly one place ----

  ghost predicate At(s: State, h: nat, p: J.Place) {
    match p
    case Held => h < |s.handlers| && s.handlers[h].phase != Gone
    case InSession(t, i) => t in s.sessions && i < |s.sessions[t].streams| && s.sessions[t].streams[i] == h
    case InTest(k, i) => k < |s.tests| && i < |s.tests[k].streams| && s.tests[k].streams[i] == h
    case Discarded => h in s.dropped
  }

  ghost predicate Located(s: State, place: seq<J.Place>) {
    && |place| == |s.handlers|
    && (forall h: nat, p :: At(s, h, p) ==> h < |place| && place[h] == p)
    && (forall h: nat :: h < |place| ==> At(s, h, place[h]))
  }

  lemma DropLocated(s: State, h: nat, place: seq<J.Place>) returns (place': seq<J.Place>)
    requires Located(s, place) && At(s, h, J.Held)
    ensures Located(Drop(s, h), place')
  {
    var s' := Drop(s, h);
    place' := place[h := J.Discarded];
    forall g: nat, p | At(s', g, p) ensures g < |place'| && place'[g] == p {
      assert At(s, g, p) || (g == h && p == J.Discarded);
    }
    forall g: nat | g < |place'| ensures At(s', g, place'[g]) {
      if g != h { assert At(s, g, place[g]); }
    }
  }

  lemma PhaseLocated(s: State, h: nat, phase: Phase, place: seq<J.Place>)
    requires Located(s, place) && At(s, h, J.Held) && phase != Gone
    ensures Located(WithPhase(s, h, phase), place)
  {
    var s' := WithPhase(s, h, phase);
    forall g: nat, p ensures At(s', g, p) <==> At(s, g, p) {
    }
  }

  lemma JoinLocated(s: State, h: nat, t: nat, place: seq<J.Place>) returns (place': seq<J.Place>)
    requires Located(s, place) && At(s, h, J.Held) && t in s.sessions
    ensures Located(JoinSession(s, h, t), place')
  {
    if Complete(WithStream(s.sessions[t], h)) {
      place' := StartLocated(s, h, t, place);
    } else {
      var s' := JoinSession(s, h, t);
      var n := |s.sessions[t].streams|;
      place' := place[h := J.InSession(t, n)];
      forall g: nat, p | At(s', g, p) ensures g < |place'| && place'[g] == p {
        assert p == J.InSession(t, n) || At(s, g, p);
      }
      forall g: nat | g < |place'| ensures At(s', g, place'[g]) {
        if g != h { assert At(s, g, place[g]); }
      }
    }
  }

  /// Starting moves the session's streams and the last one into the new test.
  lemma StartLocated(s: State, h: nat, t: nat, place: seq<J.Place>) returns (place': seq<J.Place>)
    requires Located(s, place) && At(s, h, J.Held) && t in s.sessions && Complete(WithStream(s.sessions[t], h))
    ensures Located(JoinSession(s, h, t), place')
  {
    var s' := JoinSession(s, h, t);
    var (k, n) := (|s.tests|, |s.sessions[t].streams|);
    place' := seq(|place|, g requires 0 <= g < |place| =>
      if g == h then J.InTest(k, n)
      else if place[g].InSession? && place[g].token == t then J.InTest(k, place[g].index)
      else place[g]);
    forall g: nat, p | At(s', g, p) ensures g < |place'| && place'[g] == p {
      if p.InTest? && p.test == k {
        if p.index < n { assert At(s, g, J.InSession(t, p.index)); }
      } else {
        assert At(s, g, p);
      }
    }
    forall g: nat | g < |place'| ensures At(s', g, place'[g]) {
      assert At(s, g, place[g]);
    }
  }

  /// Registering over a session drops its streams.
  lemma RegisterLocated(s: State, h: nat, token: nat, expected: nat, place: seq<J.Place>) returns (place': seq<J.Place>)
    requires Located(s, place) && At(s, h, J.Held)
    ensures Located(RegisterSession(s, h, token, expected), place')
  {
    var s' := RegisterSession(s, h, token, expected);
    place' := seq(|place|, g requires 0 <= g < |place| =>
      if g == h then J.InSession(token, 0)
      else if place[g].InSession? && place[g].token == token then J.Discarded
      else place[g]);
    forall g: nat, p | At(s', g, p) ensures g < |place'| && place'[g] == p {
      if p.InSession? && p.token == token {
        assert g == h;
      } else if !At(s, g, p) {
        var lost := StreamsOf(s.sessions, token);
        assert p == J.Discarded && g in lost;
        var i :| 0 <= i < |lost| && lost[i] == g;
        assert At(s, g, J.InSession(token, i));
      }
    }
    forall g: nat | g < |place'| ensures At(s', g, place'[g]) {
      assert At(s, g, place[g]);
    }
  }

  lemma ArriveLocated(s: State, ip: nat, place: seq<J.Place>)
    requires Located(s, place)
    ensures Located(s.(handlers := s.handlers + [Handler(ip, Reading)]), place + [J.Held])
  {
    var s' := s.(handlers := s.handlers + [Handler(ip, Reading)]);
    var place' := place + [J.Held];
    forall g: nat, p | At(s', g, p) ensures g < |place'| && place'[g] == p {
      assert At(s, g, p) || (g == |place| && p == J.Held);
    }
    forall g: nat | g < |place'| ensures At(s', g, place'[g]) {
      if g < |place| { assert At(s, g, place[g]); }
    }
  }

  lemma StepLocated(s: State, a: Step, place: seq<J.Place>) returns (place': seq<J.Place>)
    requires Located(s, place)
    ensures Located(Apply(s, a), place')
  {
    hide Located, HasRoom, Drop, JoinSession, RegisterSession, WithPhase, J.Token, J.TokenOf;
    place' := place;
    if a.Arrive? {
      ArriveLocated(s, a.ip, place);
      place' := place + [J.Held];
    } else if a.h < |s.handlers| && Apply(s, a) != s {
      var h, ip, phase := a.h, s.handlers[a.h].ip, s.handlers[a.h].phase;
      assert At(s, h, J.Held);
      match a
      case Lookup(_, b0, b1, connCount, random, written) =>
        if HasRoom(s.sessions, J.TokenOf(b0, b1), ip) {
          if written {
            place' := StepJoin(s, h, J.TokenOf(b0, b1), ip, place);
          } else {
            place' := DropLocated(s, h, place);
          }
        } else {
          PhaseLocated(s, h, if b0 != 0 && connCount > 0 then Admitting(J.Token(random), connCount) else Single, place);
        }
      case Admit(_, ok) =>
        if ok {
          place' := RegisterLocated(s, h, phase.token, phase.expected, place);
        } else {
          place' := DropLocated(s, h, place);
        }
    }
  }

  lemma StepJoin(s: State, h: nat, t: nat, ip: nat, place: seq<J.Place>) returns (place': seq<J.Place>)
    requires Located(s, place) && At(s, h, J.Held) && HasRoom(s.sessions, t, ip)
    ensures Located(JoinSession(s, h, t), place')
  {
    place' := JoinLocated(s, h, t, place);
  }

  // ---- Every run ----

  ghost predicate OnlyAt(s: State, h: nat, p: J.Place) {
    At(s, h, p) && forall q :: At(s, h, q) ==> q == p
  }

  ghost predicate PlacedOnce(s: State, h: nat) {
    exists p :: OnlyAt(s, h, p)
  }

  ghost predicate Kept(s: State) {
    SessionsKept(s) && StartedOnce(s) && exists place :: Located(s, place)
  }

  lemma {:induction false} RunKeeps(s: State, steps: seq<Step>)
    requires Kept(s)
    ensures Kept(ApplyAll(s, steps))
    decreases |steps|
  {
    hide Apply, SessionsKept, StartedOnce, Located;
    if steps != [] {
      StepSessions(s, steps[0]);
      StepStartedOnce(s, steps[0]);
      var place :| Located(s, place);
      var place' := StepLocated(s, steps[0], place);
      RunKeeps(Apply(s, steps[0]), steps[1..]);
    }
  }

  /// From the start, whatever the handlers do and in whatever order, even when a token
  /// is drawn twice.
  lemma EveryInterleaving(steps: seq<Step>)
    ensures var s := ApplyAll(INIT, steps);
            && SessionsKept(s) && StartedOnce(s)
            && forall h: nat :: h < |s.handlers| ==> PlacedOnce(s, h)
  {
    assert Located(INIT, []);
    RunKeeps(INIT, steps);
    var s := ApplyAll(INIT, steps);
    hide ApplyAll, At;
    var place :| Located(s, place);
    forall h: nat | h < |s.handlers| ensures PlacedOnce(s, h) {
      assert OnlyAt(s, h, place[h]);
    }
  }

  /// A UDP command, or a TCP command to transmit, is never taken for a join.
  lemma CommandsThatNeverJoin(steps: seq<Step>, a: Step)
    requires a.Lookup? && Bytes(a) && (a.b0 == 0 || a.b1 == 2)
    ensures var s := ApplyAll(INIT, steps);
            a.h < |s.handlers| ==> !HasRoom(s.sessions, J.TokenOf(a.b0, a.b1), s.handlers[a.h].ip)
  {
    var s := ApplyAll(INIT, steps);
    EveryInterleaving(steps);
    hide ApplyAll, J.BothLowBits;
    SessionTokens(s);
    J.NotAToken(a.b0, a.b1);
  }

  lemma SessionTokens(s: State)
    requires SessionsKept(s)
    ensures forall t :: t in s.sessions ==> J.BothLowBits(t)
  {
    forall t | t in s.sessions ensures J.BothLowBits(t) { assert PendingKept(s, t); }
  }

  /// A first message that meets no session with room: a multi-connection test when it is
  /// not UDP and announces connections, and otherwise a test of its own.
  lemma CommandOutcomes(s: State, a: Step)
    requires a.Lookup? && Bytes(a) && a.h < |s.handlers| && s.handlers[a.h].phase == Reading
    requires !HasRoom(s.sessions, J.TokenOf(a.b0, a.b1), s.handlers[a.h].ip)
    ensures var s' := Apply(s, a);
            && SameSessions(s, s') && s'.dropped == s.dropped
            && s'.handlers[a.h].phase == if a.b0 == 0 || a.connCount == 0 then Single
                                         else Admitting(J.Token(a.random), a.connCount)
  {
    hide HasRoom, J.Token;
  }

  /// In some reachable state a first message with these two bytes, from a connection just
  /// accepted, meets a session of its address with room.
  ghost predicate CanBeTakenForJoin(b0: nat, b1: nat) {
    exists steps: seq<Step>, h: nat :: MeetsRoom(ApplyAll(INIT, steps), h, b0, b1)
  }

  predicate MeetsRoom(s: State, h: nat, b0: nat, b1: nat) {
    && h < |s.handlers| && s.handlers[h].phase == Reading
    && HasRoom(s.sessions, J.TokenOf(b0, b1), s.handlers[h].ip)
  }

  /// Exactly the messages with both bytes odd: of the commands, TCP to receive and TCP in
  /// both directions.
  lemma TakenForJoinExactly(b0: nat, b1: nat)
    requires b0 < 256 && b1 < 256
    ensures CanBeTakenForJoin(b0, b1) <==> b0 % 2 == 1 && b1 % 2 == 1
  {
    hide ApplyAll;
    if CanBeTakenForJoin(b0, b1) {
      var steps: seq<Step>, h: nat :| MeetsRoom(ApplyAll(INIT, steps), h, b0, b1);
      EveryInterleaving(steps);
      SessionTokens(ApplyAll(INIT, steps));
      if b0 % 2 == 0 || b1 % 2 == 0 { J.NotAToken(b0, b1); }
    }
    if b0 % 2 == 1 && b1 % 2 == 1 { OddBytesMeetRoom(b0, b1); }
  }

  /// A primary draws just this word, and then a second connection sends it.
  lemma OddBytesMeetRoom(b0: nat, b1: nat)
    requires b0 < 256 && b1 < 256 && b0 % 2 == 1 && b1 % 2 == 1
    ensures CanBeTakenForJoin(b0, b1)
  {
    hide ApplyAll, J.BothLowBits, J.TokenOf;
    var token := J.TokenOf(b0, b1);
    OddBytes(b0, b1);
    DrawnToken(token);
    var steps := DrawThenArrive(token);
    assert MeetsRoom(ApplyAll(INIT, steps), 1, b0, b1);
  }

  lemma OddBytes(b0: nat, b1: nat)
    requires b0 < 256 && b1 < 256 && b0 % 2 == 1 && b1 % 2 == 1
    ensures J.BothLowBits(J.TokenOf(b0, b1))
  {
    assert b1 == 2 * (b1 / 2) + 1;
    assert J.TokenOf(b0, b1) == 2 * (128 * b0 + b1 / 2) + 1;
    assert J.TokenOf(b0, b1) / 256 == b0;
  }

  function DrawThenArrive(token: nat): seq<Step> {
    [Arrive(1), Lookup(0, 1, 1, 2, token, true), Admit(0, true), Arrive(1)]
  }

  lemma DrawnToken(token: nat)
    requires J.BothLowBits(token)
    ensures var s := ApplyAll(INIT, DrawThenArrive(token));
            && s.sessions == map[token := Session(0, 1, [0], 2)] && |s.handlers| == 2
            && s.handlers[1] == Handler(1, Reading)
  {
    hide ApplyAll, J.Token, J.BothLowBits;
    WordIsToken(token);
    var steps := DrawThenArrive(token);
    var s1 := Apply(INIT, steps[0]);
    var s2 := Apply(s1, steps[1]);
    assert s2.handlers[0].phase == Admitting(token, 2);
    var s3 := Apply(s2, steps[2]);
    var s4 := Apply(s3, steps[3]);
    ApplyAllConcat(INIT, [steps[0], steps[1]], [steps[2], steps[3]]);
    assert [steps[0], steps[1]] + [steps[2], steps[3]] == steps;
    TwoSteps(INIT, steps[0], steps[1]);
    TwoSteps(s2, steps[2], steps[3]);
  }

  lemma WordIsToken(token: nat)
    requires J.BothLowBits(token)
    ensures token < 0x1_0000 && J.Token(token) == token
  {
    J.TokenBits(token);
  }

  lemma {:induction false} ApplyAllConcat(s: State, xs: seq<Step>, ys: seq<Step>)
    ensures ApplyAll(s, xs + ys) == ApplyAll(ApplyAll(s, xs), ys)
    decreases |xs|
  {
    hide Apply;
    if xs == [] {
      assert xs + ys == ys;
    } else {
      assert (xs + ys)[0] == xs[0] && (xs + ys)[1..] == xs[1..] + ys;
      ApplyAllConcat(Apply(s, xs[0]), xs[1..], ys);
    }
  }

  lemma OneStep(s: State, a: Step)
    ensures ApplyAll(s, [a]) == Apply(s, a)
  {
    assert ApplyAll(Apply(s, a), []) == Apply(s, a);
  }

  lemma TwoSteps(s: State, a: Step, b: Step)
    ensures ApplyAll(s, [a, b]) == Apply(Apply(s, a), b)
  {
    hide Apply, ApplyAll;
    ApplyAllConcat(s, [a], [b]);
    assert [a] + [b] == [a, b];
    OneStep(s, a);
    OneStep(Apply(s, a), b);
  }

  ghost predicate NoTestOf(s: State, id: nat) {
    forall k :: 0 <= k < |s.tests| ==> s.tests[k].id != id
  }

  /// No test of this session so far, and if it is pending it has no room.
  ghost predicate Unstarted(s: State, id: nat) {
    && id < s.nextId && NoTestOf(s, id)
    && forall t :: t in s.sessions && s.sessions[t].id == id ==> |s.sessions[t].streams| >= s.sessions[t].expected
  }

  lemma StepUnstarted(s: State, a: Step, id: nat)
    requires Unstarted(s, id)
    ensures Unstarted(Apply(s, a), id)
  {
    hide Apply, J.TokenOf;
    StepCases(s, a);
  }

  lemma {:induction false} NeverStarted(s: State, steps: seq<Step>, id: nat)
    requires Unstarted(s, id)
    ensures NoTestOf(ApplyAll(s, steps), id)
    decreases |steps|
  {
    hide Apply;
    if steps != [] {
      StepUnstarted(s, steps[0], id);
      NeverStarted(Apply(s, steps[0]), steps[1..], id);
    }
  }

  /// A session with room is completed by as many connections as it lacks.
  lemma {:induction false} RoomCanStart(s: State, t: nat) returns (steps: seq<Step>)
    requires t in s.sessions && J.BothLowBits(t) && |s.sessions[t].streams| < s.sessions[t].expected
    ensures !NoTestOf(ApplyAll(s, steps), s.sessions[t].id)
    decreases s.sessions[t].expected - |s.sessions[t].streams|
  {
    hide ApplyAll, J.BothLowBits;
    var n, session := |s.handlers|, s.sessions[t];
    var s2 := JoinedBy(s, t);
    var join := Lookup(n, t / 256, t % 256, 0, 0, true);
    if Complete(WithStream(session, n)) {
      steps := [Arrive(session.peerIp), join];
      assert s2.tests[|s.tests|].id == session.id;
    } else {
      assert s2.sessions[t] == WithStream(session, n);
      var more := RoomCanStart(s2, t);
      steps := [Arrive(session.peerIp), join] + more;
      ApplyAllConcat(s, [Arrive(session.peerIp), join], more);
    }
  }

  /// The next connection of the address joins.
  lemma JoinedBy(s: State, t: nat) returns (s2: State)
    requires t in s.sessions && J.BothLowBits(t) && |s.sessions[t].streams| < s.sessions[t].expected
    ensures var n, ip := |s.handlers|, s.sessions[t].peerIp;
            && s2 == ApplyAll(s, [Arrive(ip), Lookup(n, t / 256, t % 256, 0, 0, true)])
            && (Complete(WithStream(s.sessions[t], n)) ==> s2.tests == s.tests + [WithStream(s.sessions[t], n)])
            && (!Complete(WithStream(s.sessions[t], n)) ==> s2.sessions == s.sessions[t := WithStream(s.sessions[t], n)])
  {
    hide ApplyAll;
    var n, ip := |s.handlers|, s.sessions[t].peerIp;
    var join := Lookup(n, t / 256, t % 256, 0, 0, true);
    var s1 := Apply(s, Arrive(ip));
    assert J.TokenOf(join.b0, join.b1) == t && s1.handlers[n] == Handler(ip, Reading);
    s2 := Apply(s1, join);
    TwoSteps(s, Arrive(ip), join);
  }

  /// A pending session can still be started exactly when it announced two connections or
  /// more; one that announced a single connection never starts.
  lemma LonePrimaryWaits(steps: seq<Step>, t: nat)
    requires t in ApplyAll(INIT, steps).sessions
    ensures var s := ApplyAll(INIT, steps);
            (exists more: seq<Step> :: !NoTestOf(ApplyAll(s, more), s.sessions[t].id)) <==> s.sessions[t].expected >= 2
  {
    var s := ApplyAll(INIT, steps);
    EveryInterleaving(steps);
    hide ApplyAll, J.BothLowBits;
    assert PendingKept(s, t);
    if s.sessions[t].expected >= 2 {
      var more := RoomCanStart(s, t);
    } else {
      forall more: seq<Step> ensures NoTestOf(ApplyAll(s, more), s.sessions[t].id) {
        NeverStarted(s, more, s.sessions[t].id);
      }
    }
  }
}
