/// `handle_pro_connection` of `src/server_pro/server_loop.rs` over the shared session map:
/// every piece between two interruptions is one step of the state machine of `ProJoin`.
module ProJoinServer {
  import J = Join
  import opened ProJoin

  class Server {
    const shared: SessionMap
    var handlers: seq<Handler>
    var tests: seq<Session>
    var dropped: set<nat>
    ghost var history: seq<Step>

    ghost function View(): State
      reads this, shared
    {
      State(shared.sessions, shared.nextId, handlers, tests, dropped)
    }

    /// The server is where its history took it from the start.
    ghost predicate Valid()
      reads this, shared
    {
      View() == ApplyAll(INIT, history)
    }

    constructor ()
      ensures Valid() && View() == INIT && fresh(shared)
    {
      shared := new SessionMap();
      handlers, tests, dropped, history := [], [], {}, [];
    }

    /// What every valid server guarantees, in whatever order its handlers ran.
    lemma Guarantees()
      requires Valid()
      ensures SessionsKept(View()) && StartedOnce(View())
      ensures forall h: nat :: h < |handlers| ==> PlacedOnce(View(), h)
    {
      EveryInterleaving(history);
    }

    method SetPhase(h: nat, phase: Phase)
      requires h < |handlers|
      modifies this`handlers
      ensures View() == WithPhase(old(View()), h, phase)
    {
      handlers := handlers[h := handlers[h].(phase := phase)];
    }

    method DropStream(h: nat)
      requires h < |handlers|
      modifies this`handlers, this`dropped
      ensures View() == Drop(old(View()), h)
    {
      SetPhase(h, Gone);
      dropped := dropped + {h};
    }

    /// A connection is accepted.
    method Accept(ip: nat) returns (h: nat)
      requires Valid()
      modifies this
      ensures Valid() && history == old(history) + [Arrive(ip)] && h == |old(handlers)|
      ensures View() == Apply(old(View()), Arrive(ip))
    {
      ghost var before := View();
      h := |handlers|;
      handlers := handlers + [Handler(ip, Reading)];
      history := history + [Arrive(ip)];
      HistoryNext(old(history), Arrive(ip), before);
    }

    /// The first message has been read: join, perhaps start the test, or go on as primary.
    method FirstMessage(h: nat, b0: nat, b1: nat, connCount: nat, random: nat, written: bool)
        returns (started: seq<nat>)
      requires Valid() && h < |handlers| && handlers[h].phase == Reading
      requires b0 < 256 && b1 < 256 && connCount < 256 && random < 0x1_0000
      modifies this, shared
      ensures Valid() && history == old(history) + [Lookup(h, b0, b1, connCount, random, written)]
      ensures View() == Apply(old(View()), Lookup(h, b0, b1, connCount, random, written))
      // a test that starts has exactly the announced streams, all of this address
      ensures tests != old(tests) ==>
                && |tests| == |old(tests)| + 1 && started == tests[|old(tests)|].streams
                && |started| == tests[|old(tests)|].expected && FromIp(View(), started, handlers[h].ip)
    {
      hide ApplyAll, J.Token;
      ghost var before := View();
      started := [];
      var outcome := shared.JoinOrStart(256 * b0 + b1, handlers[h].ip, h, written);
      match outcome {
        case Joined => SetPhase(h, Gone);
        case Started(session) =>
          SetPhase(h, Gone);
          tests := tests + [session];
          started := session.streams;
        case WriteFailed => DropStream(h);
        case NotASecondary =>
          SetPhase(h, if b0 != 0 && connCount > 0 then Admitting(J.Token(random), connCount) else Single);
      }
      history := history + [Lookup(h, b0, b1, connCount, random, written)];
      HistoryNext(old(history), Lookup(h, b0, b1, connCount, random, written), before);
      if outcome.Started? {
        Guarantees();
        assert TestKept(View(), |old(tests)|);
      }
    }

    /// Address check, authentication and user check are done: register, or drop.
    method FinishPrimary(h: nat, ok: bool)
      requires Valid() && h < |handlers| && handlers[h].phase.Admitting?
      modifies this, shared
      ensures Valid() && history == old(history) + [Admit(h, ok)] && View() == Apply(old(View()), Admit(h, ok))
    {
      hide ApplyAll;
      ghost var before := View();
      var phase := handlers[h].phase;
      if ok {
        var replaced := shared.Register(phase.token, handlers[h].ip, h, phase.expected);
        SetPhase(h, Gone);
        dropped := dropped + (set x | x in replaced);
      } else {
        DropStream(h);
      }
      history := history + [Admit(h, ok)];
      HistoryNext(old(history), Admit(h, ok), before);
    }

    lemma HistoryNext(was: seq<Step>, a: Step, before: State)
      requires before == ApplyAll(INIT, was) && history == was + [a] && View() == Apply(before, a)
      ensures Valid()
    {
      hide Apply;
      ApplyAllConcat(INIT, was, [a]);
      OneStep(ApplyAll(INIT, was), a);
    }
  }
}
