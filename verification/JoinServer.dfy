/// `handle_client` of `src/server.rs` over the shared session map: what a connection
/// handler does between two points where it can be interrupted. Every such piece is one
/// step of the state machine of `Join`, so its theorems hold of this server.
module JoinServer {
  import opened Join

  class Server {
    const shared: SessionMap
    var handlers: seq<Handler>
    var tests: seq<Test>
    var dropped: set<nat>
    ghost var history: seq<Step>

    ghost function View(): State
      reads this, shared
    {
      State(shared.sessions, handlers, tests, dropped)
    }

    /// The server is where its history took it from the start.
    ghost predicate Valid()
      reads this, shared
    {
      View() == ApplyAll(INIT, history)
    }

    constructor ()
      ensures Valid() && View() == INIT && fresh(shared)
    {
      shared := new SessionMap();
      handlers, tests, dropped, history := [], [], {}, [];
    }

    /// What every valid server guarantees, in whatever order its handlers ran.
    lemma Guarantees()
      requires Valid()
      ensures SessionsKept(View()) && TestsShaped(View()) && OnePlace(View())
      ensures FreshRun(INIT, history) ==> TestsSafe(View())
    {
      EveryInterleaving(history);
      if FreshRun(INIT, history) { FreshTokensAreSafe(history); }
    }

    method SetPhase(h: nat, phase: Phase)
      requires h < |handlers|
      modifies this`handlers
      ensures View() == WithPhase(old(View()), h, phase)
    {
      handlers := handlers[h := handlers[h].(phase := phase)];
    }

    method DropStream(h: nat)
      requires h < |handlers|
      modifies this`handlers, this`dropped
      ensures View() == Drop(old(View()), h)
    {
      SetPhase(h, Gone);
      dropped := dropped + {h};
    }

    /// A connection is accepted.
    method Accept(ip: nat) returns (h: nat)
      requires Valid()
      modifies this
      ensures Valid() && history == old(history) + [Arrive(ip)] && h == |old(handlers)|
      ensures View() == Apply(old(View()), Arrive(ip))
    {
      ghost var before := View();
      h := |handlers|;
      handlers := handlers + [Handler(ip, Reading)];
      history := history + [Arrive(ip)];
      HistoryNext(old(history), Arrive(ip), before);
    }

    /// The first message has been read: join by token, or take the path of a primary.
    method FirstMessage(h: nat, b0: nat, b1: nat, connCount: nat, random: nat, written: bool)
      requires Valid() && h < |handlers| && handlers[h].phase == Reading
      requires b0 < 256 && b1 < 256 && connCount < 256 && random < 0x1_0000
      modifies this, shared
      ensures Valid() && history == old(history) + [Lookup(h, b0, b1, connCount, random, written)]
      ensures View() == Apply(old(View()), Lookup(h, b0, b1, connCount, random, written))
    {
      hide ApplyAll, Token, BothLowBits;
      ghost var before := View();
      var outcome := shared.JoinByToken(256 * b0 + b1, handlers[h].ip, h, written);
      match outcome {
        case Joined => SetPhase(h, Gone);
        case WriteFailed => DropStream(h);
        case NotASecondary =>
          if b0 > 1 || b1 == 0 || b1 > 3 {
            DropStream(h);
          } else if b0 != 0 && connCount > 0 {
            SetPhase(h, Scanning(Token(random), connCount));
          } else {
            SetPhase(h, Single);
          }
      }
      history := history + [Lookup(h, b0, b1, connCount, random, written)];
      HistoryNext(old(history), Lookup(h, b0, b1, connCount, random, written), before);
    }

    /// The look for any session of this peer, under the lock.
    method ScanSessions(h: nat)
      requires Valid() && h < |handlers| && handlers[h].phase.Scanning?
      modifies this
      ensures Valid() && history == old(history) + [Scan(h)] && View() == Apply(old(View()), Scan(h))
    {
      hide ApplyAll;
      ghost var before := View();
      var found := shared.AnyRoom(handlers[h].ip);
      var phase := handlers[h].phase;
      SetPhase(h, if found then JoinAuth else PrimaryAuth(phase.token, phase.expected));
      history := history + [Scan(h)];
      HistoryNext(old(history), Scan(h), before);
    }

    /// After authentication as a secondary: look again and join, or give up.
    method FinishJoin(h: nat, ok: bool) returns (ghost t: nat)
      requires Valid() && h < |handlers| && handlers[h].phase == JoinAuth
      modifies this, shared
      ensures Valid() && history == old(history) + [JoinAuthDone(h, ok, t)]
      ensures View() == Apply(old(View()), JoinAuthDone(h, ok, t))
      ensures ok && (exists u :: HasRoom(old(shared.sessions), u, old(handlers)[h].ip)) ==>
                HasRoom(old(shared.sessions), t, old(handlers)[h].ip)
    {
      hide ApplyAll;
      ghost var before := View();
      t := 0;
      var joined := false;
      if ok {
        joined := shared.JoinAny(handlers[h].ip, h);
        if joined {
          t :| HasRoom(before.sessions, t, handlers[h].ip) && shared.sessions == Pushed(before.sessions, t, h);
        }
      }
      if joined { SetPhase(h, Gone); } else { DropStream(h); }
      history := history + [JoinAuthDone(h, ok, t)];
      HistoryNext(old(history), JoinAuthDone(h, ok, t), before);
    }

    /// After authentication as a primary: register the session; the streams of one that
    /// was there are dropped with it.
    method FinishPrimary(h: nat, ok: bool)
      requires Valid() && h < |handlers| && handlers[h].phase.PrimaryAuth?
      modifies this, shared
      ensures Valid() && history == old(history) + [PrimaryAuthDone(h, ok)]
      ensures View() == Apply(old(View()), PrimaryAuthDone(h, ok))
    {
      hide ApplyAll;
      ghost var before := View();
      var phase := handlers[h].phase;
      if ok {
        var replaced := shared.Register(phase.token, handlers[h].ip, phase.expected);
        SetPhase(h, Waiting(phase.token, phase.expected));
        dropped := dropped + (set x | x in replaced);
      } else {
        DropStream(h);
      }
      history := history + [PrimaryAuthDone(h, ok)];
      HistoryNext(old(history), PrimaryAuthDone(h, ok), before);
    }

    /// One round of the waiting loop: enough streams, or the deadline has passed.
    method PollSession(h: nat, timedOut: bool) returns (ready: bool)
      requires Valid() && h < |handlers| && handlers[h].phase.Waiting?
      modifies this
      ensures Valid() && history == old(history) + [Poll(h, timedOut)]
      ensures View() == Apply(old(View()), Poll(h, timedOut)) && (ready <==> handlers[h].phase.Ready?)
    {
      hide ApplyAll;
      ghost var before := View();
      var phase := handlers[h].phase;
      var count := shared.Count(phase.token);
      ready := count + 1 >= phase.expected || timedOut;
      if ready { SetPhase(h, Ready(phase.token, phase.expected)); }
      history := history + [Poll(h, timedOut)];
      HistoryNext(old(history), Poll(h, timedOut), before);
    }

    /// The primary takes its session out and starts the test with all streams.
    method StartTest(h: nat) returns (streams: seq<nat>)
      requires Valid() && h < |handlers| && handlers[h].phase.Ready?
      modifies this, shared
      ensures Valid() && history == old(history) + [Collect(h)] && View() == Apply(old(View()), Collect(h))
      ensures |tests| == |old(tests)| + 1 && streams == TestStreams(tests[|old(tests)|])
      ensures FreshRun(INIT, history) ==>
                |streams| <= old(handlers)[h].phase.expected + 1 && FromIp(View(), streams, handlers[h].ip)
    {
      hide ApplyAll, FreshRun;
      ghost var before := View();
      var phase := handlers[h].phase;
      var extras := shared.Take(phase.token);
      streams := [h] + extras;
      SetPhase(h, Gone);
      tests := tests + [Test(h, phase.expected, extras)];
      history := history + [Collect(h)];
      HistoryNext(old(history), Collect(h), before);
      if FreshRun(INIT, history) {
        Guarantees();
        assert TestSafe(View(), tests[|old(tests)|]);
      }
    }

    lemma HistoryNext(was: seq<Step>, a: Step, before: State)
      requires before == ApplyAll(INIT, was) && history == was + [a] && View() == Apply(before, a)
      ensures Valid()
    {
      hide Apply;
      ApplyAllConcat(INIT, was, [a]);
      OneStep(ApplyAll(INIT, was), a);
    }
  }
}
