/// Loss accounting of `udp_rx_loop` (`src/server.rs`) and `udp_client_rx_loop`
/// (`src/client.rs`): losses are inferred from 32-bit sequence numbers that wrap.
module Loss {
  import opened Basics

  const WRAP: nat := 0x1_0000_0000

  ghost predicate AllU32(arrivals: seq<nat>) {
    forall i :: 0 <= i < |arrivals| ==> arrivals[i] < WRAP
  }

  /// `last.wrapping_add(1)`
  function Expected(last: nat): nat {
    (last + 1) % WRAP
  }

  /// What one arrival after `last` adds to the counter.
  function Jump(last: nat, s: nat): nat {
    if s > Expected(last) then s - Expected(last) else 0
  }

  function Lost(arrivals: seq<nat>): nat {
    if |arrivals| <= 1 then 0
    else Lost(arrivals[..|arrivals| - 1]) + Jump(arrivals[|arrivals| - 2], arrivals[|arrivals| - 1])
  }

  /// The receive loop's counter.
  method CountLost(arrivals: seq<nat>) returns (lost: nat)
    requires AllU32(arrivals)
    ensures lost == Lost(arrivals)
    ensures lost >= |MissingBelow(arrivals, WRAP)|
  {
    LostAtLeastMissing(arrivals);
    lost := 0;
    var lastSeq: Option<nat> := None;
    for i := 0 to |arrivals|
      invariant lost == Lost(arrivals[..i])
      invariant if i == 0 then lastSeq == None else lastSeq == Some(arrivals[i - 1])
    {
      var s := arrivals[i];
      if lastSeq.Some? {
        var expected := (lastSeq.value + 1) % WRAP;
        if s > expected {
          lost := lost + (s - expected);
        }
      }
      lastSeq := Some(s);
      assert arrivals[..i + 1][..i] == arrivals[..i];
    }
    assert arrivals[..|arrivals|] == arrivals;
  }

  // ---- What the counter counts ----

  /// Number n is passed over when s arrives after `last`.
  predicate Passed(last: nat, s: nat, n: nat) {
    Expected(last) <= n < s
  }

  /// How often number n was passed over.
  function TimesPassed(arrivals: seq<nat>, n: nat): nat {
    if |arrivals| <= 1 then 0
    else TimesPassed(arrivals[..|arrivals| - 1], n)
         + (if Passed(arrivals[|arrivals| - 2], arrivals[|arrivals| - 1], n) then 1 else 0)
  }

  function Largest(arrivals: seq<nat>): nat
    requires arrivals != []
  {
    if |arrivals| == 1 then arrivals[0]
    else var m := Largest(arrivals[..|arrivals| - 1]);
         if arrivals[|arrivals| - 1] > m then arrivals[|arrivals| - 1] else m
  }

  /// From the first number to the largest, but never arrived.
  ghost predicate Missing(arrivals: seq<nat>, n: nat) {
    arrivals != [] && arrivals[0] <= n <= Largest(arrivals) && n !in arrivals
  }

  ghost function MissingBelow(arrivals: seq<nat>, bound: nat): set<nat> {
    set n | 0 <= n < bound && Missing(arrivals, n)
  }

  function SumPassed(arrivals: seq<nat>, bound: nat): nat {
    if bound == 0 then 0 else SumPassed(arrivals, bound - 1) + TimesPassed(arrivals, bound - 1)
  }

  /// A jump counts the numbers it passes over.
  function PassedBelow(last: nat, s: nat, bound: nat): nat {
    if bound == 0 then 0 else PassedBelow(last, s, bound - 1) + if Passed(last, s, bound - 1) then 1 else 0
  }

  lemma {:induction false} JumpCounts(last: nat, s: nat, bound: nat)
    ensures PassedBelow(last, s, bound) == Jump(last, if s < bound then s else bound)
  {
    hide Expected;
    if bound > 0 { JumpCounts(last, s, bound - 1); }
  }

  lemma {:induction false} SumPassedStep(arrivals: seq<nat>, bound: nat)
    requires |arrivals| >= 2
    ensures SumPassed(arrivals, bound) == SumPassed(arrivals[..|arrivals| - 1], bound)
              + PassedBelow(arrivals[|arrivals| - 2], arrivals[|arrivals| - 1], bound)
  {
    hide Passed;
    if bound > 0 { SumPassedStep(arrivals, bound - 1); }
  }

  lemma {:induction false} NothingPassed(arrivals: seq<nat>, bound: nat)
    requires |arrivals| <= 1
    ensures SumPassed(arrivals, bound) == 0
  {
    if bound > 0 { NothingPassed(arrivals, bound - 1); }
  }

  /// The counter is the sum, over all numbers, of how often each was passed over.
  lemma {:induction false} LostIsSumPassed(arrivals: seq<nat>)
    requires AllU32(arrivals)
    ensures Lost(arrivals) == SumPassed(arrivals, WRAP)
    decreases |arrivals|
  {
    hide SumPassed, PassedBelow, Expected;
    if |arrivals| <= 1 {
      NothingPassed(arrivals, WRAP);
    } else {
      var rest := arrivals[..|arrivals| - 1];
      LostIsSumPassed(rest);
      SumPassedStep(arrivals, WRAP);
      JumpCounts(arrivals[|arrivals| - 2], arrivals[|arrivals| - 1], WRAP);
    }
  }

  // ---- Every missing number is passed over ----

  lemma LargestBounds(arrivals: seq<nat>)
    requires arrivals != []
    ensures arrivals[|arrivals| - 1] <= Largest(arrivals)
    ensures Largest(arrivals) in arrivals
  {
    if |arrivals| > 1 {
      var rest := arrivals[..|arrivals| - 1];
      LargestBounds(rest);
      if Largest(arrivals) == Largest(rest) {
        var i :| 0 <= i < |rest| && rest[i] == Largest(rest);
        assert arrivals[i] == Largest(arrivals);
      }
    }
  }

  /// On the way from the first number to the largest, a number that does not arrive is
  /// passed over, also when the numbers wrap in between.
  lemma {:induction false} MissingIsPassed(arrivals: seq<nat>, n: nat)
    requires AllU32(arrivals) && Missing(arrivals, n)
    ensures TimesPassed(arrivals, n) >= 1
    decreases |arrivals|
  {
    if |arrivals| > 1 {
      var rest := arrivals[..|arrivals| - 1];
      var last, s := arrivals[|arrivals| - 2], arrivals[|arrivals| - 1];
      if n <= Largest(rest) {
        assert Missing(rest, n);
        MissingIsPassed(rest, n);
      } else {
        LargestBounds(rest);
        assert last < n < s;
        NoWrap(last);
      }
    }
  }

  lemma NoWrap(last: nat)
    ensures last + 1 < WRAP ==> Expected(last) == last + 1
  {
  }

  /// The sum over a range of numbers is at least the number of missing ones, and equal
  /// exactly when every missing number is passed over once and no other number is.
  ghost predicate ExactAt(arrivals: seq<nat>, n: nat) {
    TimesPassed(arrivals, n) == if Missing(arrivals, n) then 1 else 0
  }

  lemma {:induction false} PassedCoversMissing(arrivals: seq<nat>, bound: nat)
    requires AllU32(arrivals)
    ensures SumPassed(arrivals, bound) >= |MissingBelow(arrivals, bound)|
    ensures SumPassed(arrivals, bound) == |MissingBelow(arrivals, bound)| <==>
              forall n: nat :: n < bound ==> ExactAt(arrivals, n)
  {
    hide TimesPassed, Missing;
    if bound == 0 {
      assert MissingBelow(arrivals, 0) == {};
    } else {
      var n := bound - 1;
      PassedCoversMissing(arrivals, n);
      var before := MissingBelow(arrivals, n);
      if Missing(arrivals, n) {
        MissingIsPassed(arrivals, n);
        assert MissingBelow(arrivals, bound) == before + {n};
      } else {
        assert MissingBelow(arrivals, bound) == before;
      }
      assert (forall i: nat :: i < bound ==> ExactAt(arrivals, i))
        <==> (forall i: nat :: i < n ==> ExactAt(arrivals, i)) && ExactAt(arrivals, n);
    }
  }

  // ---- Exactly when nothing is over-counted ----

  lemma {:induction false} LargestIsBound(arrivals: seq<nat>, i: nat)
    requires i < |arrivals|
    ensures arrivals[i] <= Largest(arrivals)
    decreases |arrivals|
  {
    if i < |arrivals| - 1 { LargestIsBound(arrivals[..|arrivals| - 1], i); }
  }

  /// The jump to arrival i starts at the largest number so far, not at the end of a round,
  /// and no number it passes over ever arrives.
  ghost predicate CleanJump(arrivals: seq<nat>, i: nat)
    requires 0 < i < |arrivals|
  {
    && arrivals[i - 1] + 1 < WRAP && arrivals[i - 1] == Largest(arrivals[..i])
    && forall n: nat :: arrivals[i - 1] < n < arrivals[i] ==> n !in arrivals
  }

  ghost predicate CleanJumps(arrivals: seq<nat>) {
    forall i :: 0 < i < |arrivals| && arrivals[i] > Expected(arrivals[i - 1]) ==> CleanJump(arrivals, i)
  }

  lemma PassedNext(arrivals: seq<nat>, k: nat, n: nat)
    requires 0 < k < |arrivals|
    ensures TimesPassed(arrivals[..k + 1], n)
         == TimesPassed(arrivals[..k], n) + if Passed(arrivals[k - 1], arrivals[k], n) then 1 else 0
  {
    assert arrivals[..k + 1][..k] == arrivals[..k];
  }

  lemma {:induction false} PassedGrows(arrivals: seq<nat>, k: nat, n: nat)
    requires k <= |arrivals|
    ensures TimesPassed(arrivals[..k], n) <= TimesPassed(arrivals, n)
    decreases |arrivals| - k
  {
    if k == |arrivals| {
      assert arrivals[..k] == arrivals;
    } else {
      if k > 0 { PassedNext(arrivals, k, n); }
      PassedGrows(arrivals, k + 1, n);
    }
  }

  /// With clean jumps, what was passed over so far lies below the largest number, above the
  /// first, was passed once and never arrives.
  lemma {:induction false} CleanPassedOnce(arrivals: seq<nat>, k: nat, n: nat)
    requires AllU32(arrivals) && CleanJumps(arrivals) && 0 < k <= |arrivals|
    ensures TimesPassed(arrivals[..k], n) <= 1
    ensures TimesPassed(arrivals[..k], n) == 1 ==> arrivals[0] <= n < Largest(arrivals[..k]) && n !in arrivals
    decreases k
  {
    if k > 1 {
      var last, s := arrivals[k - 2], arrivals[k - 1];
      CleanPassedOnce(arrivals, k - 1, n);
      PassedNext(arrivals, k - 1, n);
      assert arrivals[..k][..k - 1] == arrivals[..k - 1];
      if Passed(last, s, n) {
        assert CleanJump(arrivals, k - 1);
        NoWrap(last);
        LargestIsBound(arrivals[..k - 1], 0);
      }
    }
  }

  lemma CleanIsExact(arrivals: seq<nat>, n: nat)
    requires AllU32(arrivals) && CleanJumps(arrivals)
    ensures ExactAt(arrivals, n)
  {
    if arrivals != [] {
      CleanPassedOnce(arrivals, |arrivals|, n);
      assert arrivals[..|arrivals|] == arrivals;
      if Missing(arrivals, n) { MissingIsPassed(arrivals, n); }
    }
  }

  /// The other way: a number passed by a jump is missing, and was not passed before.
  lemma JumpedOnce(arrivals: seq<nat>, i: nat, n: nat)
    requires AllU32(arrivals) && ExactAt(arrivals, n)
    requires 0 < i < |arrivals| && Passed(arrivals[i - 1], arrivals[i], n)
    ensures Missing(arrivals, n) && TimesPassed(arrivals[..i], n) == 0
  {
    PassedNext(arrivals, i, n);
    PassedGrows(arrivals, i + 1, n);
  }

  lemma ExactIsClean(arrivals: seq<nat>, i: nat)
    requires AllU32(arrivals) && forall n: nat :: n < WRAP ==> ExactAt(arrivals, n)
    requires 0 < i < |arrivals| && arrivals[i] > Expected(arrivals[i - 1])
    ensures CleanJump(arrivals, i)
  {
    hide ExactAt, TimesPassed;
    var last, s := arrivals[i - 1], arrivals[i];
    NoWrap(last);
    if last + 1 == WRAP {
      assert Passed(last, s, 0);
      JumpedOnce(arrivals, i, 0);
    }
    forall n: nat | last < n < s ensures n !in arrivals { JumpedOnce(arrivals, i, n); }
    JumpFromLargest(arrivals, i);
  }

  lemma JumpFromLargest(arrivals: seq<nat>, i: nat)
    requires AllU32(arrivals) && forall n: nat :: n < WRAP ==> ExactAt(arrivals, n)
    requires 0 < i < |arrivals| && arrivals[i] > Expected(arrivals[i - 1]) && arrivals[i - 1] + 1 < WRAP
    ensures arrivals[i - 1] == Largest(arrivals[..i])
  {
    hide ExactAt, TimesPassed;
    var before, last := arrivals[..i], arrivals[i - 1];
    var n := last + 1;
    LargestIsBound(before, i - 1);
    LargestBounds(before);
    NoWrap(last);
    JumpedOnce(arrivals, i, n);
    if last < Largest(before) {
      var k :| 0 <= k < |before| && before[k] == Largest(before);
      assert arrivals[k] == Largest(before);
      assert Missing(before, n);
      MissingIsPassed(before, n);
    }
  }

  /// For every arrival sequence, the counter is at least the number of numbers from the
  /// first to the largest that never arrived; and it is equal exactly when every forward
  /// jump starts at the largest number so far and passes over nothing that ever arrives.
  lemma LostAtLeastMissing(arrivals: seq<nat>)
    requires AllU32(arrivals)
    ensures Lost(arrivals) >= |MissingBelow(arrivals, WRAP)|
    ensures Lost(arrivals) == |MissingBelow(arrivals, WRAP)| <==> CleanJumps(arrivals)
  {
    hide Lost, SumPassed, ExactAt, MissingBelow, CleanJump, Expected;
    LostIsSumPassed(arrivals);
    PassedCoversMissing(arrivals, WRAP);
    if CleanJumps(arrivals) {
      forall n: nat | n < WRAP ensures ExactAt(arrivals, n) { CleanIsExact(arrivals, n); }
    }
    if forall n: nat :: n < WRAP ==> ExactAt(arrivals, n) {
      forall i | 0 < i < |arrivals| && arrivals[i] > Expected(arrivals[i - 1]) ensures CleanJump(arrivals, i) {
        ExactIsClean(arrivals, i);
      }
    }
  }

  /// Reordering over-counts: nothing is missing from 0, 2, 1, 3, and two losses are counted.
  lemma ReorderOverCounts()
    ensures var a := [0, 2, 1, 3]; Lost(a) == 2 && forall n :: !Missing(a, n)
  {
    var a: seq<nat> := [0, 2, 1, 3];
    assert a[..3] == [0, 2, 1] && a[..3][..2] == [0, 2] && a[..3][..2][..1] == [0];
    assert Lost(a[..3][..2]) == 1 && Lost(a[..3]) == 1;
    assert Largest([0, 2]) == 2 && Largest(a[..3]) == 2 && Largest(a) == 3;
    forall n ensures !Missing(a, n) {
      assert a[0] == 0 && a[1] == 2 && a[2] == 1 && a[3] == 3;
    }
  }

  // ---- In order ----

  ghost predicate Increasing(arrivals: seq<nat>) {
    forall i, j :: 0 <= i < j < |arrivals| ==> arrivals[i] < arrivals[j]
  }

  /// In order and without wrap, lost and received together are the numbers spanned.
  lemma {:induction false} InOrderExact(arrivals: seq<nat>)
    requires AllU32(arrivals) && Increasing(arrivals) && arrivals != []
    ensures Lost(arrivals) + |arrivals| == arrivals[|arrivals| - 1] - arrivals[0] + 1
    decreases |arrivals|
  {
    if |arrivals| > 1 {
      var rest := arrivals[..|arrivals| - 1];
      InOrderExact(rest);
      NoWrap(arrivals[|arrivals| - 2]);
    }
  }

  // ---- In order across wraps ----

  /// What the receiver sees of a sender whose own count does not wrap.
  function Seen(sent: seq<nat>): seq<nat> {
    seq(|sent|, i requires 0 <= i < |sent| => sent[i] % WRAP)
  }

  /// A gap that lies within one round of the sequence numbers.
  predicate OneRound(last: nat, s: nat) {
    s == last + 1 || (last + 1) / WRAP == s / WRAP
  }

  lemma JumpAcross(last: nat, s: nat)
    requires last < s
    ensures Jump(last % WRAP, s % WRAP) <= s - last - 1
    ensures Jump(last % WRAP, s % WRAP) == s - last - 1 <==> OneRound(last, s)
  {
    var e := last + 1;
    assert Expected(last % WRAP) == e % WRAP;
    assert e == WRAP * (e / WRAP) + e % WRAP;
    assert s == WRAP * (s / WRAP) + s % WRAP;
    assert e / WRAP <= s / WRAP;
  }

  ghost predicate RoundsKept(sent: seq<nat>) {
    forall i :: 0 < i < |sent| ==> OneRound(sent[i - 1], sent[i])
  }

  lemma RoundsKeptStep(sent: seq<nat>)
    requires |sent| >= 2
    ensures var k := |sent| - 1;
            RoundsKept(sent) <==> RoundsKept(sent[..k]) && OneRound(sent[k - 1], sent[k])
  {
    hide OneRound;
    var k := |sent| - 1;
    if RoundsKept(sent[..k]) && OneRound(sent[k - 1], sent[k]) {
      forall i | 0 < i < |sent| ensures OneRound(sent[i - 1], sent[i]) {
        if i < k { assert sent[i] == sent[..k][i] && sent[i - 1] == sent[..k][i - 1]; }
      }
    }
  }

  lemma SeenStep(sent: seq<nat>)
    requires |sent| >= 2
    ensures var k := |sent| - 1;
            Lost(Seen(sent)) == Lost(Seen(sent[..k])) + Jump(sent[k - 1] % WRAP, sent[k] % WRAP)
  {
    hide Jump;
    var k := |sent| - 1;
    assert Seen(sent)[..k] == Seen(sent[..k]);
  }

  /// When packets arrive in the order sent, the counter never exceeds the true number of
  /// losses, and it misses some exactly when a gap spans the end of a round.
  lemma {:induction false} InOrderAcrossWraps(sent: seq<nat>)
    requires Increasing(sent) && sent != []
    ensures var losses := sent[|sent| - 1] - sent[0] + 1 - |sent|;
            && Lost(Seen(sent)) <= losses
            && (Lost(Seen(sent)) == losses <==> RoundsKept(sent))
    decreases |sent|
  {
    hide Jump, OneRound, RoundsKept;
    if |sent| == 1 {
      assert RoundsKept(sent) by { NoGaps(sent); }
    } else {
      hide Lost, Seen;
      var k := |sent| - 1;
      InOrderAcrossWraps(sent[..k]);
      SeenStep(sent);
      JumpAcross(sent[k - 1], sent[k]);
      RoundsKeptStep(sent);
    }
  }

  lemma NoGaps(sent: seq<nat>)
    requires |sent| == 1
    ensures RoundsKept(sent)
  {
  }
}
