/// The join protocol of multi-connection TCP tests in `handle_client` of `src/server.rs`:
/// the shared session map, one method per locked region, and every interleaving of any
/// number of connection handlers as a state machine over those regions.
module Join {
  /// A waiting session: the streams that joined a primary connection.
  datatype Session = Session(peerIp: nat, streams: seq<nat>, expected: nat)

  /// `rand::random::<u16>() | 0x0101`
  function Token(random: nat): nat {
    random + (1 - random % 2) + 256 * (1 - random / 256 % 2)
  }

  /// A 16-bit word with both bytes odd.
  predicate BothLowBits(token: nat) {
    token < 0x1_0000 && token % 2 == 1 && token / 256 % 2 == 1
  }

  lemma TokenBits(random: nat)
    requires random < 0x1_0000
    ensures BothLowBits(Token(random))
    ensures BothLowBits(random) <==> Token(random) == random
  {
    var hi, lo := random / 256, random % 256;
    assert Token(random) == 256 * (hi + 1 - hi % 2) + (lo + 1 - lo % 2);
  }

  /// All other bits are those of the random word.
  lemma TokenOtherBits(random: nat)
    requires random < 0x1_0000
    ensures Token(random) / 512 == random / 512 && Token(random) % 256 / 2 == random % 256 / 2
  {
    var hi, lo := random / 256, random % 256;
    ByteTwo(hi + 1 - hi % 2, lo + 1 - lo % 2);
    assert Token(random) == 256 * (hi + 1 - hi % 2) + (lo + 1 - lo % 2);
    assert (hi + 1 - hi % 2) / 2 == hi / 2 && (lo + 1 - lo % 2) / 2 == lo / 2;
    assert random / 512 == hi / 2;
  }

  lemma ByteTwo(hi: nat, lo: nat)
    requires lo < 256
    ensures (256 * hi + lo) / 512 == hi / 2 && (256 * hi + lo) % 256 == lo
  {
    assert (256 * hi + lo) / 256 == hi;
  }

  /// Bytes 0 and 1 of a first message, read as a token.
  function TokenOf(b0: nat, b1: nat): nat {
    256 * b0 + b1
  }

  // ---- The locked regions ----

  predicate HasRoom(m: map<nat, Session>, t: nat, ip: nat) {
    t in m && m[t].peerIp == ip && |m[t].streams| < m[t].expected
  }

  function Pushed(m: map<nat, Session>, t: nat, stream: nat): map<nat, Session>
    requires t in m
  {
    m[t := m[t].(streams := m[t].streams + [stream])]
  }

  function StreamsOf(m: map<nat, Session>, t: nat): seq<nat> {
    if t in m then m[t].streams else []
  }

  datatype Outcome = Joined | WriteFailed | NotASecondary

  class SessionMap {
    var sessions: map<nat, Session>

    constructor ()
      ensures sessions == map[]
    {
      sessions := map[];
    }

    /// The first region: a connection that sends a token in use joins without
    /// authentication; the reply is written while the lock is held.
    method JoinByToken(token: nat, ip: nat, stream: nat, written: bool) returns (outcome: Outcome)
      modifies this
      ensures outcome == if !HasRoom(old(sessions), token, ip) then NotASecondary
                         else if written then Joined else WriteFailed
      ensures sessions == if outcome == Joined then Pushed(old(sessions), token, stream) else old(sessions)
    {
      outcome := NotASecondary;
      if token in sessions {
        var session := sessions[token];
        if session.peerIp == ip && |session.streams| < session.expected {
          if !written { return WriteFailed; }
          sessions := sessions[token := session.(streams := session.streams + [stream])];
          return Joined;
        }
      }
    }

    /// The second region: is there any session of this peer with room?
    method AnyRoom(ip: nat) returns (found: bool)
      ensures found <==> exists t :: HasRoom(sessions, t, ip)
    {
      var tokens := sessions.Keys;
      while tokens != {}
        invariant tokens <= sessions.Keys
        invariant forall t :: HasRoom(sessions, t, ip) ==> t in tokens
        decreases tokens
      {
        var t :| t in tokens;
        if sessions[t].peerIp == ip && |sessions[t].streams| < sessions[t].expected {
          assert HasRoom(sessions, t, ip);
          return true;
        }
        tokens := tokens - {t};
      }
      return false;
    }

    /// The region after authentication: look again, and join if there still is room.
    method JoinAny(ip: nat, stream: nat) returns (joined: bool)
      modifies this
      ensures joined <==> exists t :: HasRoom(old(sessions), t, ip)
      ensures joined ==> exists t :: HasRoom(old(sessions), t, ip) && sessions == Pushed(old(sessions), t, stream)
      ensures !joined ==> sessions == old(sessions)
    {
      var tokens := sessions.Keys;
      while tokens != {}
        invariant sessions == old(sessions) && tokens <= sessions.Keys
        invariant forall t :: HasRoom(sessions, t, ip) ==> t in tokens
        decreases tokens
      {
        var t :| t in tokens;
        if sessions[t].peerIp == ip && |sessions[t].streams| < sessions[t].expected {
          assert HasRoom(sessions, t, ip);
          sessions := sessions[t := sessions[t].(streams := sessions[t].streams + [stream])];
          return true;
        }
        tokens := tokens - {t};
      }
      return false;
    }

    /// Registration by the primary; a session already under this token is replaced, and
    /// its streams are lost.
    method Register(token: nat, ip: nat, expected: nat) returns (replaced: seq<nat>)
      modifies this
      ensures sessions == old(sessions)[token := Session(ip, [], expected)]
      ensures replaced == StreamsOf(old(sessions), token)
    {
      replaced := if token in sessions then sessions[token].streams else [];
      sessions := sessions[token := Session(ip, [], expected)];
    }

    /// One poll of the waiting loop.
    method Count(token: nat) returns (n: nat)
      ensures n == |StreamsOf(sessions, token)|
    {
      n := if token in sessions then |sessions[token].streams| else 0;
    }

    /// The primary takes the session out.
    method Take(token: nat) returns (streams: seq<nat>)
      modifies this
      ensures streams == StreamsOf(old(sessions), token)
      ensures sessions == old(sessions) - {token}
    {
      streams := if token in sessions then sessions[token].streams else [];
      sessions := sessions - {token};
    }
  }

  // ---- All handlers ----

  /// Where a handler is. While it is not Gone it owns its stream.
  datatype Phase =
    | Reading
    | Scanning(token: nat, expected: nat)
    | JoinAuth
    | PrimaryAuth(token: nat, expected: nat)
    | Waiting(token: nat, expected: nat)
    | Ready(token: nat, expected: nat)
    | Single
    | Gone

  /// A primary whose session should be in the map.
  predicate Owns(p: Phase) {
    p.Waiting? || p.Ready?
  }

  /// Handler h serves stream h.
  datatype Handler = Handler(ip: nat, phase: Phase)

  /// A started multi-connection test: the primary's stream and those that joined.
  datatype Test = Test(primary: nat, expected: nat, extras: seq<nat>)

  datatype State = State(sessions: map<nat, Session>, handlers: seq<Handler>, tests: seq<Test>, dropped: set<nat>)

  const INIT := State(map[], [], [], {})

  datatype Step =
    | Arrive(ip: nat)
    /// the first message has arrived: bytes 0, 1 and 3, and the random word drawn if needed
    | Lookup(h: nat, b0: nat, b1: nat, connCount: nat, random: nat, written: bool)
    | Scan(h: nat)
    | JoinAuthDone(h: nat, ok: bool, t: nat)
    | PrimaryAuthDone(h: nat, ok: bool)
    | Poll(h: nat, timedOut: bool)
    | Collect(h: nat)

  function WithPhase(s: State, h: nat, phase: Phase): State
    requires h < |s.handlers|
  {
    s.(handlers := s.handlers[h := s.handlers[h].(phase := phase)])
  }

  function Drop(s: State, h: nat): State
    requires h < |s.handlers|
  {
    WithPhase(s, h, Gone).(dropped := s.dropped + {h})
  }

  function JoinSession(s: State, h: nat, t: nat): State
    requires h < |s.handlers| && t in s.sessions
  {
    WithPhase(s, h, Gone).(sessions := Pushed(s.sessions, t, h))
  }

  function Elements(q: seq<nat>): set<nat> {
    set x | x in q
  }

  function RegisterSession(s: State, h: nat, token: nat, expected: nat): State
    requires h < |s.handlers|
  {
    WithPhase(s, h, Waiting(token, expected)).(
      sessions := s.sessions[token := Session(s.handlers[h].ip, [], expected)],
      dropped := s.dropped + Elements(StreamsOf(s.sessions, token)))
  }

  function CollectSession(s: State, h: nat, token: nat, expected: nat): State
    requires h < |s.handlers|
  {
    WithPhase(s, h, Gone).(
      sessions := s.sessions - {token},
      tests := s.tests + [Test(h, expected, StreamsOf(s.sessions, token))])
  }

  /// A command that is not a join: refused, single-stream, or multi-connection TCP.
  function PrimaryPath(s: State, h: nat, b0: nat, b1: nat, connCount: nat, random: nat): State
    requires h < |s.handlers|
  {
    if b0 > 1 || b1 == 0 || b1 > 3 then Drop(s, h)
    else if b0 != 0 && connCount > 0 then WithPhase(s, h, Scanning(Token(random), connCount))
    else WithPhase(s, h, Single)
  }

  predicate Bytes(a: Step) {
    a.Lookup? ==> a.b0 < 256 && a.b1 < 256 && a.connCount < 256 && a.random < 0x1_0000
  }

  /// One locked region of one handler. A step that is not possible changes nothing.
  ghost function Apply(s: State, a: Step): State {
    if a.Arrive? then s.(handlers := s.handlers + [Handler(a.ip, Reading)])
    else if a.h >= |s.handlers| || !Bytes(a) then s
    else
      var ip, phase := s.handlers[a.h].ip, s.handlers[a.h].phase;
      match a
      case Lookup(h, b0, b1, connCount, random, written) =>
        if phase != Reading then s
        else if HasRoom(s.sessions, TokenOf(b0, b1), ip) then
          (if written then JoinSession(s, h, TokenOf(b0, b1)) else Drop(s, h))
        else PrimaryPath(s, h, b0, b1, connCount, random)
      case Scan(h) =>
        if !phase.Scanning? then s
        else if exists t :: HasRoom(s.sessions, t, ip) then WithPhase(s, h, JoinAuth)
        else WithPhase(s, h, PrimaryAuth(phase.token, phase.expected))
      case JoinAuthDone(h, ok, t) =>
        if phase != JoinAuth then s
        else if !ok || !exists t' :: HasRoom(s.sessions, t', ip) then Drop(s, h)
        else if HasRoom(s.sessions, t, ip) then JoinSession(s, h, t)
        else s
      case PrimaryAuthDone(h, ok) =>
        if !phase.PrimaryAuth? then s
        else if !ok then Drop(s, h)
        else RegisterSession(s, h, phase.token, phase.expected)
      case Poll(h, timedOut) =>
        if phase.Waiting? && (|StreamsOf(s.sessions, phase.token)| + 1 >= phase.expected || timedOut)
        then WithPhase(s, h, Ready(phase.token, phase.expected)) else s
      case Collect(h) =>
        if phase.Ready? then CollectSession(s, h, phase.token, phase.expected) else s
  }

  ghost function ApplyAll(s: State, steps: seq<Step>): State
    decreases |steps|
  {
    if steps == [] then s else ApplyAll(Apply(s, steps[0]), steps[1..])
  }

  // ---- Room and peers ----

  ghost predicate FromIp(s: State, streams: seq<nat>, ip: nat) {
    forall i :: 0 <= i < |streams| ==> streams[i] < |s.handlers| && s.handlers[streams[i]].ip == ip
  }

  ghost predicate SessionKept(s: State, t: nat)
    requires t in s.sessions
  {
    var session := s.sessions[t];
    BothLowBits(t) && |session.streams| <= session.expected < 256 && FromIp(s, session.streams, session.peerIp)
  }

  /// Every session has a proper token, holds no more streams than it expects, and all of
  /// them are its peer's.
  ghost predicate SessionsKept(s: State) {
    forall t :: t in s.sessions ==> SessionKept(s, t)
  }

  ghost predicate PhasesKept(s: State) {
    forall h :: 0 <= h < |s.handlers| ==>
      match s.handlers[h].phase
      case Scanning(t, e) => 0 < e < 256 && BothLowBits(t)
      case PrimaryAuth(t, e) => 0 < e < 256 && BothLowBits(t)
      case Waiting(t, e) => 0 < e < 256 && BothLowBits(t)
      case Ready(t, e) => 0 < e < 256 && BothLowBits(t)
      case _ => true
  }

  ghost predicate SameHandlers(s: State, s': State) {
    |s.handlers| <= |s'.handlers| && forall h :: 0 <= h < |s.handlers| ==> s'.handlers[h].ip == s.handlers[h].ip
  }

  lemma StepIps(s: State, a: Step)
    ensures SameHandlers(s, Apply(s, a))
  {
  }

  lemma StepPhases(s: State, a: Step)
    requires PhasesKept(s)
    ensures PhasesKept(Apply(s, a))
  {
    hide Token, BothLowBits, HasRoom;
    if a.Lookup? && Bytes(a) { TokenBits(a.random); }
  }

  lemma StepSessions(s: State, a: Step)
    requires SessionsKept(s) && PhasesKept(s)
    ensures SessionsKept(Apply(s, a))
  {
    hide PrimaryPath, BothLowBits;
    var s' := Apply(s, a);
    StepIps(s, a);
    if a.Lookup? { PrimaryPathKeeps(s, a); }
    forall t | t in s'.sessions ensures SessionKept(s', t) {
      if t in s.sessions { assert SessionKept(s, t); }
    }
  }

  lemma PrimaryPathKeeps(s: State, a: Step)
    requires a.Lookup?
    ensures a.h < |s.handlers| ==>
              var s' := PrimaryPath(s, a.h, a.b0, a.b1, a.connCount, a.random);
              && s'.sessions == s.sessions && s'.tests == s.tests && |s'.handlers| == |s.handlers|
              && !Owns(s'.handlers[a.h].phase)
              && forall h :: 0 <= h < |s.handlers| && h != a.h ==> s'.handlers[h] == s.handlers[h]
  {
  }

  // ---- Every stream is in exactly one place ----

  datatype Place = Held | InSession(token: nat, index: nat) | InTest(test: nat, index: nat) | Discarded

  function TestStreams(t: Test): seq<nat> {
    [t.primary] + t.extras
  }

  ghost predicate At(s: State, h: nat, p: Place) {
    match p
    case Held => h < |s.handlers| && s.handlers[h].phase != Gone
    case InSession(t, i) => t in s.sessions && i < |s.sessions[t].streams| && s.sessions[t].streams[i] == h
    case InTest(k, i) => k < |s.tests| && i < |TestStreams(s.tests[k])| && TestStreams(s.tests[k])[i] == h
    case Discarded => h in s.dropped
  }

  /// `place` names the one place of every stream.
  ghost predicate Located(s: State, place: seq<Place>) {
    && |place| == |s.handlers|
    && (forall h: nat, p :: At(s, h, p) ==> h < |place| && place[h] == p)
    && (forall h: nat :: h < |place| ==> At(s, h, place[h]))
  }

  lemma DropLocated(s: State, h: nat, place: seq<Place>)
    requires Located(s, place) && At(s, h, Held)
    ensures h < |place| && Located(Drop(s, h), place[h := Discarded])
  {
    var (s', place') := (Drop(s, h), place[h := Discarded]);
    forall g: nat, p | At(s', g, p) ensures g < |place'| && place'[g] == p {
      if p != Discarded { assert At(s, g, p); } else { assert g == h || At(s, g, p); }
    }
    forall g: nat | g < |place'| ensures At(s', g, place'[g]) {
      if g != h { assert At(s, g, place[g]); }
    }
  }

  lemma JoinLocated(s: State, h: nat, t: nat, place: seq<Place>)
    requires Located(s, place) && At(s, h, Held) && t in s.sessions
    ensures Located(JoinSession(s, h, t), place[h := InSession(t, |s.sessions[t].streams|)])
  {
    var s' := JoinSession(s, h, t);
    var place' := place[h := InSession(t, |s.sessions[t].streams|)];
    forall g: nat, p | At(s', g, p) ensures g < |place'| && place'[g] == p {
      assert p == InSession(t, |s.sessions[t].streams|) || At(s, g, p);
    }
    forall g: nat | g < |place'| ensures At(s', g, place'[g]) {
      if g != h { assert At(s, g, place[g]); }
    }
  }

  /// Registering over a session drops the streams that had joined it.
  lemma RegisterLocated(s: State, h: nat, token: nat, expected: nat, place: seq<Place>) returns (place': seq<Place>)
    requires Located(s, place) && At(s, h, Held)
    ensures Located(RegisterSession(s, h, token, expected), place')
  {
    var s' := RegisterSession(s, h, token, expected);
    place' := seq(|place|, g requires 0 <= g < |place| =>
      if place[g].InSession? && place[g].token == token then Discarded else place[g]);
    forall g: nat, p | At(s', g, p) ensures g < |place'| && place'[g] == p {
      if At(s, g, p) {
      } else {
        assert p == Discarded && g in StreamsOf(s.sessions, token);
        var i :| 0 <= i < |StreamsOf(s.sessions, token)| && StreamsOf(s.sessions, token)[i] == g;
        assert At(s, g, InSession(token, i));
      }
    }
    forall g: nat | g < |place'| ensures At(s', g, place'[g]) {
      assert At(s, g, place[g]);
    }
  }

  /// Collecting moves the primary and all joined streams into the new test.
  lemma CollectLocated(s: State, h: nat, token: nat, expected: nat, place: seq<Place>) returns (place': seq<Place>)
    requires Located(s, place) && At(s, h, Held)
    ensures Located(CollectSession(s, h, token, expected), place')
  {
    var s' := CollectSession(s, h, token, expected);
    var k := |s.tests|;
    place' := seq(|place|, g requires 0 <= g < |place| =>
      if g == h then InTest(k, 0)
      else if place[g].InSession? && place[g].token == token then InTest(k, place[g].index + 1)
      else place[g]);
    forall g: nat, p | At(s', g, p) ensures g < |place'| && place'[g] == p {
      if p.InTest? && p.test == k {
        if p.index > 0 { assert At(s, g, InSession(token, p.index - 1)); }
      } else {
        assert At(s, g, p);
      }
    }
    forall g: nat | g < |place'| ensures At(s', g, place'[g]) {
      assert At(s, g, place[g]);
    }
  }

  lemma PhaseLocated(s: State, h: nat, phase: Phase, place: seq<Place>)
    requires Located(s, place) && At(s, h, Held) && phase != Gone
    ensures Located(WithPhase(s, h, phase), place)
  {
    var s' := WithPhase(s, h, phase);
    forall g: nat, p ensures At(s', g, p) <==> At(s, g, p) {
    }
  }

  lemma ArriveLocated(s: State, ip: nat, place: seq<Place>)
    requires Located(s, place)
    ensures Located(s.(handlers := s.handlers + [Handler(ip, Reading)]), place + [Held])
  {
    var s' := s.(handlers := s.handlers + [Handler(ip, Reading)]);
    var place' := place + [Held];
    forall g: nat, p | At(s', g, p) ensures g < |place'| && place'[g] == p {
      assert At(s, g, p) || (g == |place| && p == Held);
    }
    forall g: nat | g < |place'| ensures At(s', g, place'[g]) {
      if g < |place| { assert At(s, g, place[g]); }
    }
  }

  lemma StepLocated(s: State, a: Step, place: seq<Place>) returns (place': seq<Place>)
    requires Located(s, place)
    ensures Located(Apply(s, a), place')
  {
    hide Located, HasRoom, Drop, JoinSession, RegisterSession, CollectSession, WithPhase, Token;
    place' := place;
    if a.Arrive? {
      ArriveLocated(s, a.ip, place);
      place' := place + [Held];
    } else if a.h < |s.handlers| && Apply(s, a) != s {
      var h, ip, phase := a.h, s.handlers[a.h].ip, s.handlers[a.h].phase;
      assert At(s, h, Held);
      match a
      case Lookup(_, b0, b1, connCount, random, written) =>
        if HasRoom(s.sessions, TokenOf(b0, b1), ip) && written {
          place' := StepJoin(s, h, TokenOf(b0, b1), ip, place);
        } else if HasRoom(s.sessions, TokenOf(b0, b1), ip) || b0 > 1 || b1 == 0 || b1 > 3 {
          DropLocated(s, h, place);
          place' := place[h := Discarded];
        } else {
          PhaseLocated(s, h, if b0 != 0 && connCount > 0 then Scanning(Token(random), connCount) else Single, place);
        }
      case Scan(_) =>
        PhaseLocated(s, h, JoinAuth, place);
        PhaseLocated(s, h, PrimaryAuth(phase.token, phase.expected), place);
      case JoinAuthDone(_, ok, t) =>
        if !ok || !exists t' :: HasRoom(s.sessions, t', ip) {
          DropLocated(s, h, place);
          place' := place[h := Discarded];
        } else {
          place' := StepJoin(s, h, t, ip, place);
        }
      case PrimaryAuthDone(_, ok) =>
        if ok {
          place' := RegisterLocated(s, h, phase.token, phase.expected, place);
        } else {
          DropLocated(s, h, place);
          place' := place[h := Discarded];
        }
      case Poll(_, _) => PhaseLocated(s, h, Ready(phase.token, phase.expected), place);
      case Collect(_) => place' := CollectLocated(s, h, phase.token, phase.expected, place);
    }
  }

  lemma StepJoin(s: State, h: nat, t: nat, ip: nat, place: seq<Place>) returns (place': seq<Place>)
    requires Located(s, place) && At(s, h, Held) && HasRoom(s.sessions, t, ip)
    ensures Located(JoinSession(s, h, t), place')
  {
    JoinLocated(s, h, t, place);
    place' := place[h := InSession(t, |s.sessions[t].streams|)];
  }

  // ---- Every run ----

  /// A test's joined streams come from one address; a u8 bounds their number.
  ghost predicate TestsShaped(s: State) {
    forall k :: 0 <= k < |s.tests| ==>
      |s.tests[k].extras| < 256 && exists ip :: FromIp(s, s.tests[k].extras, ip)
  }

  lemma StepTests(s: State, a: Step)
    requires SessionsKept(s) && TestsShaped(s)
    ensures TestsShaped(Apply(s, a))
  {
    hide PrimaryPath, HasRoom, BothLowBits, Token;
    var s' := Apply(s, a);
    StepIps(s, a);
    if a.Lookup? { PrimaryPathKeeps(s, a); }
    forall k | 0 <= k < |s'.tests|
      ensures |s'.tests[k].extras| < 256 && exists ip :: FromIp(s', s'.tests[k].extras, ip)
    {
      if k < |s.tests| {
        var ip :| FromIp(s, s.tests[k].extras, ip);
        assert FromIp(s', s'.tests[k].extras, ip);
      } else {
        var token := s.handlers[a.h].phase.token;
        if token in s.sessions {
          assert SessionKept(s, token);
          assert FromIp(s', s'.tests[k].extras, s.sessions[token].peerIp);
        } else {
          assert FromIp(s', s'.tests[k].extras, 0);
        }
      }
    }
  }

  ghost predicate OnlyAt(s: State, h: nat, p: Place) {
    At(s, h, p) && forall q :: At(s, h, q) ==> q == p
  }

  ghost predicate PlacedOnce(s: State, h: nat) {
    exists p :: OnlyAt(s, h, p)
  }

  /// Every stream is with its handler, in one session, in one test, or dropped.
  ghost predicate OnePlace(s: State) {
    forall h: nat :: h < |s.handlers| ==> PlacedOnce(s, h)
  }

  ghost predicate Kept(s: State) {
    SessionsKept(s) && PhasesKept(s) && TestsShaped(s) && exists place :: Located(s, place)
  }

  lemma {:induction false} RunKeeps(s: State, steps: seq<Step>)
    requires Kept(s)
    ensures Kept(ApplyAll(s, steps))
    decreases |steps|
  {
    hide Apply, SessionsKept, PhasesKept, TestsShaped, Located;
    if steps != [] {
      StepSessions(s, steps[0]);
      StepPhases(s, steps[0]);
      StepTests(s, steps[0]);
      var place :| Located(s, place);
      var place' := StepLocated(s, steps[0], place);
      RunKeeps(Apply(s, steps[0]), steps[1..]);
    }
  }

  /// From the start, whatever the handlers do and in whatever order.
  lemma EveryInterleaving(steps: seq<Step>)
    ensures var s := ApplyAll(INIT, steps);
            SessionsKept(s) && TestsShaped(s) && OnePlace(s)
  {
    assert Located(INIT, []);
    RunKeeps(INIT, steps);
    var s := ApplyAll(INIT, steps);
    hide ApplyAll, At;
    var place :| Located(s, place);
    forall h: nat | h < |s.handlers| ensures PlacedOnce(s, h) {
      assert OnlyAt(s, h, place[h]);
    }
  }

  /// A UDP command, or a TCP command to transmit, is never taken for a token.
  lemma CommandsNotTakenForToken(steps: seq<Step>, a: Step)
    requires a.Lookup? && Bytes(a) && (a.b0 == 0 || a.b1 == 2)
    ensures var s := ApplyAll(INIT, steps);
            && Apply(s, a).sessions == s.sessions
            && forall ip :: !HasRoom(s.sessions, TokenOf(a.b0, a.b1), ip)
  {
    var s := ApplyAll(INIT, steps);
    EveryInterleaving(steps);
    hide ApplyAll, BothLowBits;
    SessionTokens(s);
    NotAToken(a.b0, a.b1);
    PrimaryPathKeeps(s, a);
  }

  lemma SessionTokens(s: State)
    requires SessionsKept(s)
    ensures forall t :: t in s.sessions ==> BothLowBits(t)
  {
    forall t | t in s.sessions ensures BothLowBits(t) { assert SessionKept(s, t); }
  }

  lemma NotAToken(b0: nat, b1: nat)
    requires b1 < 256 && (b0 % 2 == 0 || b1 % 2 == 0)
    ensures !BothLowBits(TokenOf(b0, b1))
  {
    assert TokenOf(b0, b1) / 256 == b0 && TokenOf(b0, b1) % 256 == b1;
  }

  // ---- Tests of one address, when tokens are fresh ----

  /// No session is registered under a token that is in use.
  ghost predicate FreshStep(s: State, a: Step) {
    a.PrimaryAuthDone? && a.ok && a.h < |s.handlers| && s.handlers[a.h].phase.PrimaryAuth? ==>
      s.handlers[a.h].phase.token !in s.sessions
  }

  ghost predicate FreshRun(s: State, steps: seq<Step>)
    decreases |steps|
  {
    steps != [] ==> FreshStep(s, steps[0]) && FreshRun(Apply(s, steps[0]), steps[1..])
  }

  /// A primary that waits owns the session under its token.
  ghost predicate OwnersKept(s: State) {
    && (forall h :: 0 <= h < |s.handlers| && Owns(s.handlers[h].phase) ==>
          var p := s.handlers[h].phase;
          p.token in s.sessions && s.sessions[p.token].peerIp == s.handlers[h].ip
          && s.sessions[p.token].expected == p.expected)
    && (forall h, g :: 0 <= h < g < |s.handlers| && Owns(s.handlers[h].phase) && Owns(s.handlers[g].phase) ==>
          s.handlers[h].phase.token != s.handlers[g].phase.token)
  }

  lemma StepOwners(s: State, a: Step)
    requires OwnersKept(s) && FreshStep(s, a)
    ensures OwnersKept(Apply(s, a))
  {
    hide Token, HasRoom, PrimaryPath, BothLowBits;
    if a.Lookup? { PrimaryPathKeeps(s, a); }
    if a.PrimaryAuthDone? { hide Apply; OwnersAfterRegister(s, a); }
  }

  lemma OwnersAfterRegister(s: State, a: Step)
    requires OwnersKept(s) && FreshStep(s, a) && a.PrimaryAuthDone?
    ensures OwnersKept(Apply(s, a))
  {
  }

  /// A test has at most one stream more than announced, all from the primary's address.
  ghost predicate TestSafe(s: State, t: Test) {
    t.primary < |s.handlers| && |t.extras| <= t.expected && FromIp(s, t.extras, s.handlers[t.primary].ip)
  }

  ghost predicate TestsSafe(s: State) {
    forall k :: 0 <= k < |s.tests| ==> TestSafe(s, s.tests[k])
  }

  /// What a primary will find under its token, if anything, is of its own address and no
  /// larger than it announced.
  ghost predicate OwnersFit(s: State) {
    forall h :: 0 <= h < |s.handlers| && Owns(s.handlers[h].phase) && s.handlers[h].phase.token in s.sessions ==>
      var session := s.sessions[s.handlers[h].phase.token];
      session.peerIp == s.handlers[h].ip && session.expected <= s.handlers[h].phase.expected
  }

  lemma StepTestsSafe(s: State, a: Step)
    requires OwnersFit(s) && SessionsKept(s) && TestsSafe(s)
    ensures TestsSafe(Apply(s, a))
  {
    hide PrimaryPath, HasRoom, BothLowBits, Token;
    var s' := Apply(s, a);
    StepIps(s, a);
    if a.Lookup? { PrimaryPathKeeps(s, a); }
    forall k | 0 <= k < |s'.tests| ensures TestSafe(s', s'.tests[k]) {
      if k < |s.tests| {
        assert TestSafe(s, s.tests[k]);
      } else {
        var token := s.handlers[a.h].phase.token;
        if token in s.sessions { assert SessionKept(s, token); }
      }
    }
  }

  /// Every session in the map belongs to a primary that waits for it.
  ghost predicate SessionsOwned(s: State) {
    forall t :: t in s.sessions ==> exists h :: OwnsToken(s, h, t)
  }

  ghost predicate OwnsToken(s: State, h: nat, t: nat) {
    h < |s.handlers| && Owns(s.handlers[h].phase) && s.handlers[h].phase.token == t
  }

  lemma StepSessionsOwned(s: State, a: Step)
    requires SessionsOwned(s)
    ensures SessionsOwned(Apply(s, a))
  {
    hide Token, PrimaryPath, BothLowBits;
    var s' := Apply(s, a);
    if a.Lookup? { PrimaryPathKeeps(s, a); }
    forall t | t in s'.sessions ensures exists h :: OwnsToken(s', h, t) {
      if t in s.sessions {
        var h :| OwnsToken(s, h, t);
        assert OwnsToken(s', h, t);
      } else {
        assert OwnsToken(s', a.h, t);
      }
    }
  }

  /// What holds of the states that runs without token reuse reach.
  ghost predicate Sound(s: State) {
    SessionsKept(s) && PhasesKept(s) && OwnersKept(s) && SessionsOwned(s) && TestsSafe(s)
  }

  lemma {:induction false} FreshRunIsSound(s: State, steps: seq<Step>)
    requires Sound(s) && FreshRun(s, steps)
    ensures Sound(ApplyAll(s, steps))
    decreases |steps|
  {
    hide Apply, SessionsKept, PhasesKept, SessionsOwned, TestsSafe, FreshStep;
    if steps != [] {
      StepSessions(s, steps[0]);
      StepPhases(s, steps[0]);
      StepOwners(s, steps[0]);
      StepSessionsOwned(s, steps[0]);
      StepTestsSafe(s, steps[0]);
      FreshRunIsSound(Apply(s, steps[0]), steps[1..]);
    }
  }

  /// While no token is reused, every test is safe, in every interleaving.
  lemma FreshTokensAreSafe(steps: seq<Step>)
    requires FreshRun(INIT, steps)
    ensures Sound(ApplyAll(INIT, steps)) && TestsSafe(ApplyAll(INIT, steps))
  {
    hide ApplyAll, FreshRun;
    FreshRunIsSound(INIT, steps);
  }

  // ---- Runs put together ----

  lemma {:induction false} ApplyAllConcat(s: State, xs: seq<Step>, ys: seq<Step>)
    ensures ApplyAll(s, xs + ys) == ApplyAll(ApplyAll(s, xs), ys)
    decreases |xs|
  {
    hide Apply;
    if xs == [] {
      assert xs + ys == ys;
    } else {
      assert (xs + ys)[0] == xs[0] && (xs + ys)[1..] == xs[1..] + ys;
      ApplyAllConcat(Apply(s, xs[0]), xs[1..], ys);
    }
  }

  lemma FourSteps(s: State, a: Step, b: Step, c: Step, d: Step)
    ensures ApplyAll(s, [a, b, c, d]) == Apply(Apply(Apply(Apply(s, a), b), c), d)
  {
    hide Apply;
    ApplyAllConcat(s, [a, b], [c, d]);
    assert [a, b] + [c, d] == [a, b, c, d];
    TwoSteps(s, a, b);
    TwoSteps(Apply(Apply(s, a), b), c, d);
  }

  lemma TwoSteps(s: State, a: Step, b: Step)
    ensures ApplyAll(s, [a, b]) == Apply(Apply(s, a), b)
  {
    hide Apply;
    assert ApplyAll(Apply(s, a), [b]) == ApplyAll(Apply(Apply(s, a), b), []);
    assert [a, b][1..] == [b];
  }

  lemma OneStep(s: State, a: Step)
    ensures ApplyAll(s, [a]) == Apply(s, a)
  {
    assert ApplyAll(Apply(s, a), []) == Apply(s, a);
  }
}
