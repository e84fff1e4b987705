/// `BandwidthState` of `src/bandwidth.rs` and the atomic steps that the TX, RX and status
/// tasks of `src/server.rs` and `src/client.rs` take on it, in every interleaving.
module Bandwidth {
  import opened Basics

  // ---- The shared object, called by one task at a time ----

  class BandwidthState {
    var txBytes: nat
    var rxBytes: nat
    var totalTxBytes: nat
    var totalRxBytes: nat
    var totalLostPackets: nat
    var intervals: nat
    var running: bool
    var byteBudget: nat

    constructor ()
      ensures txBytes == rxBytes == totalTxBytes == totalRxBytes == totalLostPackets == intervals == 0
      ensures running && byteBudget == U64_MAX
    {
      txBytes, rxBytes, totalTxBytes, totalRxBytes, totalLostPackets, intervals := 0, 0, 0, 0, 0, 0;
      running, byteBudget := true, U64_MAX;
    }

    /// `record_interval`
    method RecordInterval(tx: nat, rx: nat, lost: nat)
      modifies this`totalTxBytes, this`totalRxBytes, this`totalLostPackets, this`intervals
      ensures totalTxBytes == old(totalTxBytes) + tx && totalRxBytes == old(totalRxBytes) + rx
      ensures totalLostPackets == old(totalLostPackets) + lost && intervals == old(intervals) + 1
    {
      totalTxBytes := totalTxBytes + tx;
      totalRxBytes := totalRxBytes + rx;
      totalLostPackets := totalLostPackets + lost;
      intervals := intervals + 1;
    }

    /// One tick of `status_report_loop`: the live counters of the active directions move
    /// into the totals, and nothing is lost on the way.
    method StatusTick(serverTx: bool, serverRx: bool, lost: nat)
      modifies this`txBytes, this`rxBytes, this`totalTxBytes, this`totalRxBytes
      modifies this`totalLostPackets, this`intervals
      ensures totalTxBytes + txBytes == old(totalTxBytes + txBytes)
      ensures totalRxBytes + rxBytes == old(totalRxBytes + rxBytes)
      ensures txBytes == (if serverTx then 0 else old(txBytes)) && rxBytes == (if serverRx then 0 else old(rxBytes))
      ensures totalLostPackets == old(totalLostPackets) + lost && intervals == old(intervals) + 1
    {
      var tx, rx := 0, 0;
      if serverTx { tx, txBytes := txBytes, 0; }
      if serverRx { rx, rxBytes := rxBytes, 0; }
      RecordInterval(tx, rx, lost);
    }

    /// `spend_budget` without interference: refuses and stops when the amount is not left.
    method SpendBudget(amount: nat) returns (ok: bool)
      requires byteBudget <= U64_MAX
      modifies this`byteBudget, this`running
      ensures ok <==> old(byteBudget) == U64_MAX || amount <= old(byteBudget)
      ensures byteBudget == if ok && old(byteBudget) < U64_MAX then old(byteBudget) - amount else old(byteBudget)
      ensures running == (old(running) && ok)
    {
      var current := byteBudget;
      if current == U64_MAX { return true; }
      if current < amount {
        running := false;
        return false;
      }
      byteBudget := byteBudget - amount;
      return true;
    }

    /// `set_budget`
    method SetBudget(budget: nat)
      modifies this`byteBudget
      ensures byteBudget == budget
    {
      byteBudget := budget;
    }

    /// `tcp_rx_loop` on its own, over the lengths that the reads return; 0 is the end of the
    /// stream. What is counted is what is paid for: the longest prefix the budget affords.
    method TcpRxLoop(lengths: seq<nat>) returns (accepted: nat)
      requires byteBudget <= U64_MAX
      modifies this`rxBytes, this`byteBudget, this`running
      ensures accepted <= |lengths| && rxBytes == old(rxBytes) + Total(lengths[..accepted])
      ensures old(byteBudget) == U64_MAX ==> byteBudget == U64_MAX
      ensures old(byteBudget) < U64_MAX ==> byteBudget == old(byteBudget) - Total(lengths[..accepted])
      ensures running <==> old(running) && accepted == |lengths|
      ensures old(running) && accepted < |lengths| ==> lengths[accepted] == 0 || byteBudget < lengths[accepted]
    {
      accepted := 0;
      assert lengths[..0] == [];
      while running && accepted < |lengths|
        invariant accepted <= |lengths| && byteBudget <= U64_MAX && rxBytes == old(rxBytes) + Total(lengths[..accepted])
        invariant old(byteBudget) == U64_MAX ==> byteBudget == U64_MAX
        invariant old(byteBudget) < U64_MAX ==> byteBudget == old(byteBudget) - Total(lengths[..accepted])
        invariant running ==> old(running)
        invariant old(running) && !running ==>
                    accepted < |lengths| && (lengths[accepted] == 0 || byteBudget < lengths[accepted])
        invariant !old(running) ==> accepted == 0
        decreases |lengths| - accepted, running
      {
        var n := lengths[accepted];
        if n == 0 {
          running := false;
        } else {
          var ok := SpendBudget(n);
          if ok {
            TotalNext(lengths, accepted);
            rxBytes := rxBytes + n;
            accepted := accepted + 1;
          }
        }
      }
    }

    /// `tcp_tx_loop_inner` on its own, over the outcomes of the writes: a refused write ends
    /// the test after its bytes were paid for.
    method TcpTxLoop(size: nat, writes: seq<bool>) returns (sent: nat, paid: nat)
      requires byteBudget <= U64_MAX
      modifies this`txBytes, this`byteBudget, this`running
      ensures sent <= |writes| && txBytes == old(txBytes) + sent * size
      ensures byteBudget == if old(byteBudget) == U64_MAX then U64_MAX else old(byteBudget) - paid * size
      ensures forall i :: 0 <= i < sent ==> writes[i]
      ensures running <==> old(running) && sent == |writes|
      ensures paid == sent || (paid == sent + 1 && sent < |writes| && !writes[sent])
      ensures old(running) && sent < |writes| && paid == sent ==> byteBudget < size
    {
      sent, paid := 0, 0;
      while running && sent < |writes|
        invariant sent <= |writes| && txBytes == old(txBytes) + sent * size && byteBudget <= U64_MAX
        invariant byteBudget == if old(byteBudget) == U64_MAX then U64_MAX else old(byteBudget) - paid * size
        invariant forall i :: 0 <= i < sent ==> writes[i]
        invariant running ==> old(running) && paid == sent
        invariant !old(running) ==> sent == 0 && paid == 0
        invariant old(running) && !running ==>
                    sent < |writes| && ((paid == sent && byteBudget < size) || (paid == sent + 1 && !writes[sent]))
        decreases |writes| - sent, running
      {
        assert (paid + 1) * size == paid * size + size;
        var ok := SpendBudget(size);
        if ok {
          paid := paid + 1;
          if writes[sent] {
            txBytes := txBytes + size;
            sent := sent + 1;
          } else {
            running := false;
          }
        }
      }
    }
  }

  function Total(amounts: seq<nat>): nat {
    if amounts == [] then 0 else Total(amounts[..|amounts| - 1]) + amounts[|amounts| - 1]
  }

  lemma TotalNext(amounts: seq<nat>, k: nat)
    requires k < |amounts|
    ensures Total(amounts[..k + 1]) == Total(amounts[..k]) + amounts[k]
  {
    assert amounts[..k + 1][..k] == amounts[..k];
  }

  // ---- Many tasks on the shared counters ----

  /// A task between atomic steps: an amount it has found affordable but not yet
  /// subtracted, bytes it has paid for but not counted, and counts it has swapped out.
  datatype Task = Task(loaded: Option<nat>, credit: nat, handTx: nat, handRx: nat)

  const IDLE := Task(None, 0, 0, 0)

  /// The atomics, the tasks, and what happened to every byte so far.
  datatype Run = Run(
    budget: nat, running: bool,
    tx: nat, rx: nat, totalTx: nat, totalRx: nat,
    tasks: seq<Task>,
    spent: nat, addedTx: nat, addedRx: nat, unused: nat, discardedTx: nat, discardedRx: nat)

  function Start(budget: nat, tasks: nat): Run {
    Run(budget, true, 0, 0, 0, 0, seq(tasks, i => IDLE), 0, 0, 0, 0, 0, 0)
  }

  /// One atomic action of one task.
  ///   Load      the first half of `spend_budget`: read the budget and compare
  ///   Subtract  the second half: `fetch_sub`, which wraps
  ///   CountTx/Rx `fetch_add` of at most what was paid for
  ///   GiveUp    a failed write or send: what was paid for is not counted
  ///   TakeTx/Rx `swap(0)` by a status task
  ///   Record    `record_interval` of what was swapped out
  ///   WriteFails a status write fails: what was swapped out is lost and the test stops
  ///   PrintOnly the BOTH-mode tick prints the sent bytes it swapped out and drops them
  datatype Step =
    | Load(t: nat, amount: nat)
    | Subtract(t: nat)
    | CountTx(t: nat, n: nat)
    | CountRx(t: nat, n: nat)
    | GiveUp(t: nat, stop: bool)
    | TakeTx(t: nat)
    | TakeRx(t: nat)
    | Record(t: nat)
    | WriteFails(t: nat)
    | PrintOnly(t: nat)

  predicate NoneLoaded(s: Run) {
    forall i :: 0 <= i < |s.tasks| ==> s.tasks[i].loaded.None?
  }

  /// `fetch_sub` on a u64.
  function Wrapped(budget: nat, amount: nat): nat {
    if amount <= budget then budget - amount else (budget + U64_MAX + 1 - amount) % (U64_MAX + 1)
  }

  /// The state after a step; a step that is not possible changes nothing. With `serial`,
  /// no task loads while another has loaded but not subtracted.
  function Apply(s: Run, a: Step, serial: bool): Run {
    if a.t >= |s.tasks| then s else
      var k := s.tasks[a.t];
      match a
      case Load(t, amount) =>
        if k.loaded.Some? || k.credit > 0 || (serial && !NoneLoaded(s)) then s
        else if s.budget == U64_MAX then
          s.(tasks := s.tasks[t := k.(credit := amount)], spent := s.spent + amount)
        else if s.budget < amount then s.(running := false)
        else s.(tasks := s.tasks[t := k.(loaded := Some(amount))])
      case Subtract(t) =>
        if k.loaded.None? then s
        else
          var amount := k.loaded.value;
          s.(budget := Wrapped(s.budget, amount),
             spent := s.spent + amount,
             tasks := s.tasks[t := k.(loaded := None, credit := k.credit + amount)])
      case CountTx(t, n) =>
        if n > k.credit then s
        else s.(tx := s.tx + n, addedTx := s.addedTx + n, unused := s.unused + k.credit - n,
                tasks := s.tasks[t := k.(credit := 0)])
      case CountRx(t, n) =>
        if n > k.credit then s
        else s.(rx := s.rx + n, addedRx := s.addedRx + n, unused := s.unused + k.credit - n,
                tasks := s.tasks[t := k.(credit := 0)])
      case GiveUp(t, stop) =>
        s.(unused := s.unused + k.credit, running := s.running && !stop, tasks := s.tasks[t := k.(credit := 0)])
      case TakeTx(t) =>
        s.(tx := 0, tasks := s.tasks[t := k.(handTx := k.handTx + s.tx)])
      case TakeRx(t) =>
        s.(rx := 0, tasks := s.tasks[t := k.(handRx := k.handRx + s.rx)])
      case Record(t) =>
        s.(totalTx := s.totalTx + k.handTx, totalRx := s.totalRx + k.handRx,
           tasks := s.tasks[t := k.(handTx := 0, handRx := 0)])
      case WriteFails(t) =>
        s.(discardedTx := s.discardedTx + k.handTx, discardedRx := s.discardedRx + k.handRx,
           running := false, tasks := s.tasks[t := k.(handTx := 0, handRx := 0)])
      case PrintOnly(t) =>
        s.(discardedTx := s.discardedTx + k.handTx, tasks := s.tasks[t := k.(handTx := 0)])
  }

  function ApplyAll(s: Run, steps: seq<Step>, serial: bool): Run
    decreases |steps|
  {
    if steps == [] then s else ApplyAll(Apply(s, steps[0], serial), steps[1..], serial)
  }

  // ---- Sums over the tasks ----

  datatype Field = Credit | HandTx | HandRx

  function Get(k: Task, f: Field): nat {
    match f case Credit => k.credit case HandTx => k.handTx case HandRx => k.handRx
  }

  function Sum(tasks: seq<Task>, f: Field): nat {
    if tasks == [] then 0 else Get(tasks[0], f) + Sum(tasks[1..], f)
  }

  lemma {:induction false} SumUpdate(tasks: seq<Task>, t: nat, k: Task, f: Field)
    requires t < |tasks|
    ensures Sum(tasks[t := k], f) == Sum(tasks, f) - Get(tasks[t], f) + Get(k, f)
  {
    if t == 0 {
      assert tasks[t := k][1..] == tasks[1..];
    } else {
      assert tasks[t := k][1..] == tasks[1..][t - 1 := k];
      SumUpdate(tasks[1..], t - 1, k, f);
    }
  }

  lemma SumsMove(tasks: seq<Task>, t: nat, k: Task)
    requires t < |tasks|
    ensures Sum(tasks[t := k], Credit) == Sum(tasks, Credit) - tasks[t].credit + k.credit
    ensures Sum(tasks[t := k], HandTx) == Sum(tasks, HandTx) - tasks[t].handTx + k.handTx
    ensures Sum(tasks[t := k], HandRx) == Sum(tasks, HandRx) - tasks[t].handRx + k.handRx
  {
    hide Sum;
    SumUpdate(tasks, t, k, Credit);
    SumUpdate(tasks, t, k, HandTx);
    SumUpdate(tasks, t, k, HandRx);
  }

  lemma {:induction false} SumIdle(n: nat, f: Field)
    ensures Sum(seq(n, i => IDLE), f) == 0
  {
    var ts := seq(n, i => IDLE);
    if n > 0 {
      assert ts[1..] == seq(n - 1, i => IDLE);
      SumIdle(n - 1, f);
    }
  }

  // ---- Conservation ----

  /// Every counted byte is in the totals, in the live counter, in a status task's hand,
  /// or was thrown away there; every byte paid for was counted, is still to be counted,
  /// or was not used.
  ghost predicate Conserved(s: Run) {
    && s.addedTx == s.totalTx + s.tx + Sum(s.tasks, HandTx) + s.discardedTx
    && s.addedRx == s.totalRx + s.rx + Sum(s.tasks, HandRx) + s.discardedRx
    && s.spent == s.addedTx + s.addedRx + Sum(s.tasks, Credit) + s.unused
  }

  lemma StepConserves(s: Run, a: Step, serial: bool)
    requires Conserved(s)
    ensures Conserved(Apply(s, a, serial))
  {
    hide Sum;
    if a.t < |s.tasks| {
      var s' := Apply(s, a, serial);
      SumsMove(s.tasks, a.t, s'.tasks[a.t]);
      assert s'.tasks == s.tasks[a.t := s'.tasks[a.t]];
    }
  }

  /// No interleaving loses or duplicates a byte.
  lemma {:induction false} RunConserves(s: Run, steps: seq<Step>, serial: bool)
    requires Conserved(s)
    ensures Conserved(ApplyAll(s, steps, serial))
    decreases |steps|
  {
    hide Apply, Conserved;
    if steps != [] {
      StepConserves(s, steps[0], serial);
      RunConserves(Apply(s, steps[0], serial), steps[1..], serial);
    }
  }

  lemma StartConserved(budget: nat, tasks: nat)
    ensures Conserved(Start(budget, tasks))
  {
    SumIdle(tasks, Credit);
    SumIdle(tasks, HandTx);
    SumIdle(tasks, HandRx);
  }

  ghost predicate NothingDropped(steps: seq<Step>) {
    forall i :: 0 <= i < |steps| ==> !steps[i].WriteFails? && !steps[i].PrintOnly?
  }

  /// Bytes are thrown away only by a failed status write or by the printing tick.
  lemma {:induction false} DiscardedOnlyThere(s: Run, steps: seq<Step>, serial: bool)
    requires NothingDropped(steps)
    ensures var s' := ApplyAll(s, steps, serial); s'.discardedTx == s.discardedTx && s'.discardedRx == s.discardedRx
    decreases |steps|
  {
    if steps != [] { DiscardedOnlyThere(Apply(s, steps[0], serial), steps[1..], serial); }
  }

  /// Without those two, all that was counted is recorded, pending or in hand.
  lemma NothingLost(budget: nat, tasks: nat, steps: seq<Step>, serial: bool)
    requires NothingDropped(steps)
    ensures var s := ApplyAll(Start(budget, tasks), steps, serial);
            && s.addedTx == s.totalTx + s.tx + Sum(s.tasks, HandTx)
            && s.addedRx == s.totalRx + s.rx + Sum(s.tasks, HandRx)
  {
    hide ApplyAll;
    StartConserved(budget, tasks);
    RunConserves(Start(budget, tasks), steps, serial);
    DiscardedOnlyThere(Start(budget, tasks), steps, serial);
  }

  // ---- The budget ----

  /// At most one task is between its load and its subtraction, and it can still afford it.
  ghost predicate BudgetKept(s: Run, initial: nat) {
    && s.budget + s.spent == initial
    && (forall i :: 0 <= i < |s.tasks| && s.tasks[i].loaded.Some? ==> s.tasks[i].loaded.value <= s.budget)
    && (forall i, j :: 0 <= i < j < |s.tasks| ==> s.tasks[i].loaded.None? || s.tasks[j].loaded.None?)
  }

  lemma StepKeepsBudget(s: Run, a: Step, initial: nat)
    requires initial < U64_MAX && BudgetKept(s, initial)
    ensures BudgetKept(Apply(s, a, true), initial)
  {
  }

  lemma {:induction false} RunKeepsBudget(s: Run, steps: seq<Step>, initial: nat)
    requires initial < U64_MAX && BudgetKept(s, initial)
    ensures BudgetKept(ApplyAll(s, steps, true), initial)
    decreases |steps|
  {
    hide Apply, BudgetKept;
    if steps != [] {
      StepKeepsBudget(s, steps[0], initial);
      RunKeepsBudget(Apply(s, steps[0], true), steps[1..], initial);
    }
  }

  /// Recorded <= counted <= spent <= budget, in every run whose spending is serial.
  lemma NoOvershoot(budget: nat, tasks: nat, steps: seq<Step>)
    requires budget < U64_MAX
    ensures var s := ApplyAll(Start(budget, tasks), steps, true);
            s.totalTx + s.totalRx <= s.addedTx + s.addedRx <= s.spent <= budget
  {
    StartConserved(budget, tasks);
    RunConserves(Start(budget, tasks), steps, true);
    RunKeepsBudget(Start(budget, tasks), steps, budget);
  }

  // ---- The methods of the object as steps ----

  /// A task whose load and subtraction nobody interrupts does what `SpendBudget` does.
  lemma SpendAlone(s: Run, t: nat, amount: nat, serial: bool)
    requires t < |s.tasks| && s.tasks[t].loaded.None? && s.tasks[t].credit == 0 && s.budget <= U64_MAX
    requires serial ==> NoneLoaded(s)
    ensures var s' := ApplyAll(s, [Load(t, amount), Subtract(t)], serial);
            var ok := s.budget == U64_MAX || amount <= s.budget;
            && s'.budget == (if ok && s.budget < U64_MAX then s.budget - amount else s.budget)
            && s'.running == (s.running && ok)
            && s'.tasks == (if ok then s.tasks[t := s.tasks[t].(credit := amount)] else s.tasks)
            && s'.spent == (if ok then s.spent + amount else s.spent)
  {
    var s1 := Apply(s, Load(t, amount), serial);
    var s2 := Apply(s1, Subtract(t), serial);
    assert s.tasks[t := s.tasks[t]] == s.tasks;
    assert ApplyAll(s2, [], serial) == s2;
    assert [Load(t, amount), Subtract(t)][1..] == [Subtract(t)] && [Subtract(t)][1..] == [];
    assert ApplyAll(s1, [Subtract(t)], serial) == s2;
  }

  /// A tick that takes both counters and records them does what `StatusTick` does.
  lemma TickAlone(s: Run, t: nat, serial: bool)
    requires t < |s.tasks| && s.tasks[t].handTx == s.tasks[t].handRx == 0
    ensures var s' := ApplyAll(s, [TakeTx(t), TakeRx(t), Record(t)], serial);
            && s'.totalTx == s.totalTx + s.tx && s'.totalRx == s.totalRx + s.rx && s'.tx == s'.rx == 0
            && s'.tasks == s.tasks && s'.budget == s.budget && s'.running == s.running
  {
    var s1 := Apply(s, TakeTx(t), serial);
    var s2 := Apply(s1, TakeRx(t), serial);
    var s3 := Apply(s2, Record(t), serial);
    assert s3.tasks == s.tasks;
    hide Apply;
    assert ApplyAll(s3, [], serial) == s3;
    assert [TakeTx(t), TakeRx(t), Record(t)][1..] == [TakeRx(t), Record(t)];
    assert [TakeRx(t), Record(t)][1..] == [Record(t)] && [Record(t)][1..] == [];
    assert ApplyAll(s2, [Record(t)], serial) == s3;
    assert ApplyAll(s1, [TakeRx(t), Record(t)], serial) == s3;
  }

  // ---- One spending task ----

  ghost predicate OnlySpender(steps: seq<Step>, k: nat) {
    forall i :: 0 <= i < |steps| && steps[i].Load? ==> steps[i].t == k
  }

  ghost predicate OnlyLoaded(s: Run, k: nat) {
    forall i :: 0 <= i < |s.tasks| && i != k ==> s.tasks[i].loaded.None?
  }

  /// With one spending task (one direction, one connection) the code as written is serial.
  lemma {:induction false} OneSpenderIsSerial(s: Run, steps: seq<Step>, k: nat)
    requires OnlySpender(steps, k) && OnlyLoaded(s, k)
    ensures ApplyAll(s, steps, false) == ApplyAll(s, steps, true)
    decreases |steps|
  {
    if steps != [] {
      OneSpenderStep(s, steps[0], k);
      OneSpenderIsSerial(Apply(s, steps[0], true), steps[1..], k);
    }
  }

  lemma OneSpenderStep(s: Run, a: Step, k: nat)
    requires (a.Load? ==> a.t == k) && OnlyLoaded(s, k)
    ensures Apply(s, a, false) == Apply(s, a, true) && OnlyLoaded(Apply(s, a, true), k)
  {
  }

  /// So a run with one spending task never overshoots, whatever the interleaving.
  lemma OneSpenderNoOvershoot(budget: nat, tasks: nat, steps: seq<Step>, k: nat)
    requires budget < U64_MAX && OnlySpender(steps, k)
    ensures var s := ApplyAll(Start(budget, tasks), steps, false);
            s.totalTx + s.totalRx <= s.addedTx + s.addedRx <= s.spent <= budget
  {
    OneSpenderIsSerial(Start(budget, tasks), steps, k);
    NoOvershoot(budget, tasks, steps);
  }

  // ---- What bidirectional TCP tests leave out of the totals ----

  /// In BOTH mode on one connection, task `p` is the tick that swaps the TX counter and
  /// only prints it, and no other task swaps it.
  ghost predicate OnlyPrinterTakesTx(steps: seq<Step>, p: nat) {
    forall i :: 0 <= i < |steps| ==>
      (steps[i].TakeTx? ==> steps[i].t == p) && (steps[i].Record? ==> steps[i].t != p)
  }

  ghost predicate TxOnlyWithPrinter(s: Run, p: nat) {
    s.totalTx == 0 && forall i :: 0 <= i < |s.tasks| && i != p ==> s.tasks[i].handTx == 0
  }

  /// Then no sent byte ever reaches the totals, however many were counted.
  lemma {:induction false} BothModeRecordsNoTx(s: Run, steps: seq<Step>, p: nat, serial: bool)
    requires OnlyPrinterTakesTx(steps, p) && TxOnlyWithPrinter(s, p)
    ensures ApplyAll(s, steps, serial).totalTx == 0
    decreases |steps|
  {
    if steps != [] {
      var s' := Apply(s, steps[0], serial);
      PrinterStep(s, steps[0], p, serial);
      BothModeRecordsNoTx(s', steps[1..], p, serial);
    }
  }

  lemma PrinterStep(s: Run, a: Step, p: nat, serial: bool)
    requires (a.TakeTx? ==> a.t == p) && (a.Record? ==> a.t != p) && TxOnlyWithPrinter(s, p)
    ensures TxOnlyWithPrinter(Apply(s, a, serial), p)
  {
  }
}
