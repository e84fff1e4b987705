/// Pacing of the senders: `calc_send_interval` and `advance_next_send` of
/// `src/bandwidth.rs`, and the paced TX loops of `src/server.rs` and `src/client.rs`.
/// Times are nanoseconds on a monotone clock.
module Pacing {
  import opened Basics

  const SECOND: nat := 1_000_000_000
  const U32_MAX: nat := 0xFFFF_FFFF
  const U16_MAX: nat := 0xFFFF

  // ---- The interval for a speed ----

  /// `calc_send_interval`: None is unlimited; over half a second becomes one second.
  function CalcSendInterval(speed: nat, size: nat): Option<nat> {
    if speed == 0 then None
    else
      var ns := SECOND * (size * 8) / speed;
      if ns > 500_000_000 then Some(SECOND) else Some(if ns < 1 then 1 else ns)
  }

  /// No u64 step wraps, for any u16 packet size.
  lemma NoOverflow(size: nat)
    requires size <= U16_MAX
    ensures SECOND * (size * 8) <= U64_MAX
  {
  }

  lemma DivBounds(n: nat, d: nat)
    requires d > 0
    ensures n / d * d <= n < (n / d + 1) * d
  {
  }

  lemma DivAntitone(n: nat, d: nat, d': nat)
    requires 0 < d <= d'
    ensures n / d' <= n / d
  {
    DivBounds(n, d);
    DivBounds(n, d');
    var (q, q') := (n / d, n / d');
    if q < q' {
      MulLe(q + 1, q', d);
      MulLe(d, d', q');
    }
  }

  lemma MulLe(a: nat, b: nat, k: nat)
    requires a <= b
    ensures a * k <= b * k
  {
  }

  /// The rate the interval allows exceeds the target by less than one part in iv, exactly
  /// when the ideal interval is at most a second.
  lemma RateAbove(speed: nat, size: nat)
    requires speed > 0
    ensures var iv := CalcSendInterval(speed, size).value;
            SECOND * (size * 8) < (iv + 1) * speed <==> SECOND * (size * 8) / speed <= SECOND
  {
    var n := SECOND * (size * 8);
    var q := n / speed;
    var iv := CalcSendInterval(speed, size).value;
    DivBounds(n, speed);
    if q <= SECOND {
      MulLe(q + 1, iv + 1, speed);
    } else {
      MulLe(iv + 1, q, speed);
    }
  }

  /// The interval is longer than the ideal one exactly when that rounds to 0, or lies
  /// between half a second and a second; and then it is at most twice as long, unless it
  /// is the least interval.
  lemma RateBelow(speed: nat, size: nat)
    requires speed > 0
    ensures var iv := CalcSendInterval(speed, size).value;
            var q := SECOND * (size * 8) / speed;
            && 1 <= iv <= SECOND && (iv == 1 || iv * speed <= 2 * (SECOND * (size * 8)))
            && (q > 500_000_000 ==> iv == SECOND)
            && (iv * speed > SECOND * (size * 8) <==> q == 0 || 500_000_000 < q < SECOND)
  {
    var n := SECOND * (size * 8);
    var q := n / speed;
    var iv := CalcSendInterval(speed, size).value;
    DivBounds(n, speed);
    MulLe(iv, if q <= 500_000_000 then iv else 2 * q, speed);
    assert 2 * q * speed == 2 * (q * speed);
    if q >= SECOND { MulLe(iv, q, speed); } else { MulLe(q + 1, SECOND, speed); }
  }

  /// Packets of 65535 bytes at 1048559 bit/s are sent at little more than half the rate.
  lemma AlmostHalfTheRate()
    ensures var iv := CalcSendInterval(1_048_559, 65_535).value;
            1000 * (iv * 1_048_559) > 1999 * (SECOND * (65_535 * 8))
  {
    assert SECOND * (65_535 * 8) / 1_048_559 > 500_000_000;
  }

  /// A faster target never gives a longer interval, across both clamps.
  lemma IntervalAntitone(speed: nat, speed': nat, size: nat)
    requires 0 < speed <= speed'
    ensures CalcSendInterval(speed', size).value <= CalcSendInterval(speed, size).value
  {
    DivAntitone(SECOND * (size * 8), speed, speed');
  }

  // ---- Speed changes reported by the peer ----

  /// `((bytes_received as u64 * 8 * 3) / 2) as u32`
  function AdjustedSpeed(bytes: nat): nat {
    bytes * 8 * 3 / 2 % (U32_MAX + 1)
  }

  /// One and a half times the reported rate as long as the cast does not truncate; and
  /// exactly at multiples of 2^30 bytes it becomes 0, which lifts the limit.
  lemma AdjustedSpeedExact(bytes: nat)
    ensures AdjustedSpeed(bytes) == 12 * bytes <==> bytes <= 357_913_941
    ensures CalcSendInterval(AdjustedSpeed(bytes), 1) == None <==> bytes % 0x4000_0000 == 0
  {
    assert bytes * 8 * 3 / 2 == 12 * bytes;
    var q := bytes / 0x4000_0000;
    var r := bytes % 0x4000_0000;
    assert 12 * bytes == 0x1_0000_0000 * (3 * q) + 12 * r;
    ShiftMod(12 * r, 3 * q);
    TwelveTimes(r);
  }

  /// Otherwise it is off by a multiple of 2^32.
  lemma AdjustedSpeedWraps(bytes: nat)
    ensures AdjustedSpeed(bytes) <= U32_MAX && (12 * bytes - AdjustedSpeed(bytes)) % 0x1_0000_0000 == 0
  {
    assert bytes * 8 * 3 / 2 == 12 * bytes;
  }

  lemma ShiftMod(x: nat, k: nat)
    ensures (0x1_0000_0000 * k + x) % 0x1_0000_0000 == x % 0x1_0000_0000
  {
  }

  lemma TwelveTimes(r: nat)
    requires r < 0x4000_0000
    ensures 12 * r % 0x1_0000_0000 == 0 <==> r == 0
  {
  }

  // ---- One step of the schedule ----

  function Later(a: nat, b: nat): nat {
    if a < b then b else a
  }

  /// `advance_next_send`, with the new value of `next_send` as a result.
  function Advance(nextSend: nat, iv: nat, now: nat): nat {
    var n := nextSend + iv;
    if n + iv < now then now else n
  }

  method AdvanceNextSend(nextSend: nat, iv: nat, now: nat) returns (next: nat, delay: Option<nat>)
    ensures next == Advance(nextSend, iv, now)
    // advances by at least the interval, and is at most one interval behind
    ensures next >= nextSend + iv && next + iv >= now
    // by just the interval, unless that is more than one interval behind; then to now
    ensures nextSend + 2 * iv >= now ==> next == nextSend + iv
    ensures nextSend + 2 * iv < now ==> next == now
    ensures next <= Later(now, nextSend + iv)
    // no sleep for a sender that is an interval late
    ensures delay.None? <==> now >= nextSend + iv
    // the sleep ends at the new time, and takes at most one interval
    ensures delay.None? <==> next <= now
    ensures delay.Some? ==> now + delay.value == next
    ensures delay.Some? && nextSend <= now ==> delay.value <= iv
  {
    next := nextSend + iv;
    if next + iv < now {
      next := now;
    }
    if next > now {
      delay := Some(next - now);
    } else {
      delay := None;
    }
  }

  /// A sender that starts two intervals late sends three packets at once, and then waits.
  lemma ThreeAtOnce(iv: nat)
    requires iv > 0
    ensures Advance(0, iv, 2 * iv) <= 2 * iv
    ensures Advance(Advance(0, iv, 2 * iv), iv, 2 * iv) <= 2 * iv
    ensures Advance(Advance(Advance(0, iv, 2 * iv), iv, 2 * iv), iv, 2 * iv) == 2 * iv + iv
  {
  }

  // ---- The paced loop ----

  /// What one iteration meets: time before the write, during it, a speed change, and time
  /// until the schedule is consulted.
  datatype Turn = Turn(before: nat, write: nat, newSpeed: Option<nat>, after: nat)

  /// The speed in force in iteration k.
  function SpeedAt(speed: nat, turns: seq<Turn>, k: nat): nat
    requires k < |turns|
  {
    if turns[k].newSpeed.Some? then turns[k].newSpeed.value
    else if k == 0 then speed
    else SpeedAt(speed, turns, k - 1)
  }

  function GapOf(interval: Option<nat>): nat {
    if interval.Some? then interval.value else 0
  }

  /// Sum of the first k gaps.
  function Prefix(gaps: seq<nat>, k: nat): nat
    requires k <= |gaps|
  {
    if k == 0 then 0 else Prefix(gaps, k - 1) + gaps[k - 1]
  }

  lemma {:induction false} PrefixAppend(gaps: seq<nat>, g: nat, k: nat)
    requires k <= |gaps|
    ensures Prefix(gaps + [g], k) == Prefix(gaps, k)
  {
    if k > 0 { PrefixAppend(gaps, g, k - 1); }
  }

  /// The leaky bucket: from a paced send i on, send k is no earlier than send i, less its
  /// own interval, plus all intervals in between.
  ghost predicate LeakyBucket(sent: seq<nat>, gaps: seq<nat>) {
    |sent| == |gaps|
    && forall i, k :: 0 <= i < k < |sent| && gaps[i] > 0 ==>
         sent[k] + gaps[i] + Prefix(gaps, i + 1) >= sent[i] + Prefix(gaps, k)
  }

  /// Time from send k to the next, apart from the sleep.
  function Busy(turns: seq<Turn>, k: nat): nat
    requires k + 1 < |turns|
  {
    turns[k].write + turns[k].after + turns[k + 1].before
  }

  /// Between two sends the loop sleeps for at most the interval in force.
  ghost predicate Spaced(sent: seq<nat>, gaps: seq<nat>, turns: seq<Turn>) {
    |sent| == |gaps| <= |turns|
    && forall k :: 0 <= k < |sent| - 1 ==> Busy(turns, k) <= sent[k + 1] - sent[k] <= Busy(turns, k) + gaps[k]
  }

  lemma SpacedNext(sent: seq<nat>, gaps: seq<nat>, turns: seq<Turn>, at: nat, g: nat)
    requires Spaced(sent, gaps, turns) && |sent| < |turns|
    requires var k := |sent| - 1; k >= 0 ==> Busy(turns, k) <= at - sent[k] <= Busy(turns, k) + gaps[k]
    ensures Spaced(sent + [at], gaps + [g], turns)
  {
  }

  ghost predicate Rising(sent: seq<nat>) {
    forall i, k :: 0 <= i < k < |sent| ==> sent[i] <= sent[k]
  }

  /// What the schedule owes to every paced send so far.
  ghost predicate Owed(sent: seq<nat>, gaps: seq<nat>, nextSend: nat) {
    |sent| == |gaps|
    && forall i :: 0 <= i < |sent| && gaps[i] > 0 ==>
         nextSend + gaps[i] + Prefix(gaps, i + 1) >= sent[i] + Prefix(gaps, |gaps|)
  }

  lemma SendKeepsBucket(sent: seq<nat>, gaps: seq<nat>, nextSend: nat, clock: nat, g: nat)
    requires LeakyBucket(sent, gaps) && Owed(sent, gaps, nextSend) && nextSend <= clock
    ensures LeakyBucket(sent + [clock], gaps + [g])
  {
    hide Prefix;
    var (s', g') := (sent + [clock], gaps + [g]);
    forall i, k | 0 <= i < k < |s'| && g'[i] > 0
      ensures s'[k] + g'[i] + Prefix(g', i + 1) >= s'[i] + Prefix(g', k)
    {
      assert s'[i] == sent[i] && g'[i] == gaps[i];
      PrefixAppend(gaps, g, i + 1);
      PrefixAppend(gaps, g, k);
      if k == |sent| { assert s'[k] == clock; } else { assert s'[k] == sent[k]; }
    }
  }

  lemma AdvanceKeepsOwed(sent: seq<nat>, gaps: seq<nat>, nextSend: nat, at: nat, g: nat, next: nat)
    requires Owed(sent, gaps, nextSend)
    requires next >= nextSend + g && (g > 0 ==> next + g >= at)
    ensures Owed(sent + [at], gaps + [g], next)
  {
    var (s', g') := (sent + [at], gaps + [g]);
    PrefixAppend(gaps, g, |gaps|);
    forall i | 0 <= i < |s'| && g'[i] > 0
      ensures next + g'[i] + Prefix(g', i + 1) >= s'[i] + Prefix(g', |g'|)
    {
      if i < |sent| { PrefixAppend(gaps, g, i + 1); }
    }
  }

  // ---- The loop as a function of what it meets ----

  /// The loop between two iterations.
  datatype Pace = Pace(clock: nat, interval: Option<nat>, nextSend: nat)

  /// One iteration: write, pick up a new speed, consult the schedule, sleep.
  function NextPace(p: Pace, turn: Turn, size: nat): Pace {
    var written := p.clock + turn.before + turn.write;
    var now := written + turn.after;
    var interval := if turn.newSpeed.Some? then CalcSendInterval(turn.newSpeed.value, size) else p.interval;
    var nextSend := if turn.newSpeed.Some? then written else p.nextSend;
    if interval.None? then Pace(now, interval, nextSend)
    else
      var next := Advance(nextSend, interval.value, now);
      Pace(if next > now then next else now, interval, next)
  }

  function PaceAfter(start: nat, speed: nat, size: nat, turns: seq<Turn>, k: nat): Pace
    requires k <= |turns|
  {
    if k == 0 then Pace(start, CalcSendInterval(speed, size), start)
    else NextPace(PaceAfter(start, speed, size, turns, k - 1), turns[k - 1], size)
  }

  /// The instant of send k.
  function SentAt(start: nat, speed: nat, size: nat, turns: seq<Turn>, k: nat): nat
    requires k < |turns|
  {
    PaceAfter(start, speed, size, turns, k).clock + turns[k].before
  }

  /// The interval in force after send k, 0 when unlimited.
  function GapAt(start: nat, speed: nat, size: nat, turns: seq<Turn>, k: nat): nat
    requires k < |turns|
  {
    GapOf(PaceAfter(start, speed, size, turns, k + 1).interval)
  }

  function Sends(start: nat, speed: nat, size: nat, turns: seq<Turn>, k: nat): (r: seq<nat>)
    requires k <= |turns|
    ensures |r| == k && forall i :: 0 <= i < k ==> r[i] == SentAt(start, speed, size, turns, i)
  {
    if k == 0 then []
    else Sends(start, speed, size, turns, k - 1) + [SentAt(start, speed, size, turns, k - 1)]
  }

  function Gaps(start: nat, speed: nat, size: nat, turns: seq<Turn>, k: nat): (r: seq<nat>)
    requires k <= |turns|
    ensures |r| == k && forall i :: 0 <= i < k ==> r[i] == GapAt(start, speed, size, turns, i)
  {
    if k == 0 then []
    else Gaps(start, speed, size, turns, k - 1) + [GapAt(start, speed, size, turns, k - 1)]
  }

  lemma NextPaceBounds(p: Pace, turn: Turn, size: nat)
    requires p.nextSend <= p.clock
    ensures var (p', at) := (NextPace(p, turn, size), p.clock + turn.before);
            var gap := GapOf(p'.interval);
            && p'.nextSend <= p'.clock && p'.nextSend >= p.nextSend + gap && (gap > 0 ==> p'.nextSend + gap >= at)
            && at + turn.write + turn.after <= p'.clock <= at + turn.write + turn.after + gap
  {
    hide CalcSendInterval;
  }

  /// Where an iteration starts counting its interval from.
  function Due(p: Pace, turn: Turn): nat {
    if turn.newSpeed.Some? then p.clock + turn.before + turn.write else p.nextSend
  }

  /// One iteration exactly: it lasts until the interval is over, and when it already is, no
  /// longer than its work. A new speed starts its own interval at once.
  lemma NextPaceExact(p: Pace, turn: Turn, size: nat)
    ensures var p' := NextPace(p, turn, size);
            var (gap, now) := (GapOf(p'.interval), p.clock + turn.before + turn.write + turn.after);
            && p'.interval == (if turn.newSpeed.Some? then CalcSendInterval(turn.newSpeed.value, size) else p.interval)
            && (p'.interval.None? ==> p'.clock == now && p'.nextSend == Due(p, turn))
            && (p'.interval.Some? ==>
                  && p'.clock == Later(now, Due(p, turn) + gap)
                  && p'.nextSend == if Due(p, turn) + 2 * gap < now then now else Due(p, turn) + gap)
  {
    hide CalcSendInterval;
  }

  /// The longest an iteration can last.
  function TurnLimit(turn: Turn, gap: nat): nat {
    if turn.newSpeed.Some? then turn.before + turn.write + Later(turn.after, gap)
    else Later(turn.before + turn.write + turn.after, gap)
  }

  function TurnLimits(start: nat, speed: nat, size: nat, turns: seq<Turn>, k: nat): nat
    requires k <= |turns|
  {
    if k == 0 then 0
    else TurnLimits(start, speed, size, turns, k - 1) + TurnLimit(turns[k - 1], GapAt(start, speed, size, turns, k - 1))
  }

  /// The loop keeps up, for every trace: send k comes no later than the sum over the
  /// iterations before it of the longer of their work and their interval.
  lemma {:induction false} KeepsUp(start: nat, speed: nat, size: nat, turns: seq<Turn>, k: nat)
    requires k <= |turns|
    ensures var p := PaceAfter(start, speed, size, turns, k);
            p.nextSend <= p.clock <= start + TurnLimits(start, speed, size, turns, k)
    ensures k < |turns| ==>
              SentAt(start, speed, size, turns, k) <= start + TurnLimits(start, speed, size, turns, k) + turns[k].before
  {
    hide CalcSendInterval, NextPace;
    if k > 0 {
      KeepsUp(start, speed, size, turns, k - 1);
      NextPaceExact(PaceAfter(start, speed, size, turns, k - 1), turns[k - 1], size);
      NextPaceBounds(PaceAfter(start, speed, size, turns, k - 1), turns[k - 1], size);
    }
  }

  /// No new speed, and the work of an iteration fits into the interval.
  predicate Unhindered(turn: Turn, iv: nat) {
    turn.newSpeed.None? && turn.before + turn.write + turn.after <= iv
  }

  /// Then the loop is on time: one iteration for each interval.
  lemma {:induction false} OnTime(start: nat, speed: nat, size: nat, turns: seq<Turn>, k: nat)
    requires k <= |turns| && speed > 0
    requires forall i :: 0 <= i < k ==> Unhindered(turns[i], CalcSendInterval(speed, size).value)
    ensures var iv := CalcSendInterval(speed, size).value;
            PaceAfter(start, speed, size, turns, k) == Pace(start + k * iv, Some(iv), start + k * iv)
  {
    var iv := CalcSendInterval(speed, size).value;
    if k > 0 {
      OnTime(start, speed, size, turns, k - 1);
      assert Unhindered(turns[k - 1], iv);
      hide CalcSendInterval;
      assert k * iv == (k - 1) * iv + iv;
    }
  }

  /// And so reaches its target, exactly unless the interval is longer than the ideal one.
  lemma ReachesTarget(start: nat, speed: nat, size: nat, turns: seq<Turn>, k: nat)
    requires 0 < k <= |turns| && speed > 0
    requires forall i :: 0 <= i < k ==> Unhindered(turns[i], CalcSendInterval(speed, size).value)
    ensures var q := SECOND * (size * 8) / speed;
            var lasted: int := PaceAfter(start, speed, size, turns, k).clock as int - start;
            SECOND * (size * 8) * k >= speed * lasted <==> !(q == 0 || 500_000_000 < q < SECOND)
  {
    hide PaceAfter;
    var iv := CalcSendInterval(speed, size).value;
    hide CalcSendInterval;
    OnTime(start, speed, size, turns, k);
    LongerThanIdeal(speed, size);
    CompareScaled(SECOND * (size * 8), iv, speed, k);
  }

  lemma LongerThanIdeal(speed: nat, size: nat)
    requires speed > 0
    ensures var q := SECOND * (size * 8) / speed;
            CalcSendInterval(speed, size).value * speed > SECOND * (size * 8) <==> q == 0 || 500_000_000 < q < SECOND
  {
    hide CalcSendInterval;
    RateBelow(speed, size);
  }

  lemma CompareScaled(a: nat, iv: nat, speed: nat, k: nat)
    requires k > 0
    ensures a * k >= speed * (k * iv) <==> a >= iv * speed
  {
    assert speed * (k * iv) == (iv * speed) * k;
  }

  /// The gaps are the intervals for the speeds in force.
  lemma {:induction false} GapOfSpeed(start: nat, speed: nat, size: nat, turns: seq<Turn>, k: nat)
    requires k < |turns|
    ensures PaceAfter(start, speed, size, turns, k + 1).interval == CalcSendInterval(SpeedAt(speed, turns, k), size)
  {
    hide CalcSendInterval, Advance;
    if k > 0 { GapOfSpeed(start, speed, size, turns, k - 1); }
    assert PaceAfter(start, speed, size, turns, k + 1)
        == NextPace(PaceAfter(start, speed, size, turns, k), turns[k], size);
  }

  /// The bucket invariant after k iterations.
  ghost predicate Paced(start: nat, speed: nat, size: nat, turns: seq<Turn>, k: nat)
    requires k <= |turns|
  {
    var (sent, gaps) := (Sends(start, speed, size, turns, k), Gaps(start, speed, size, turns, k));
    var p := PaceAfter(start, speed, size, turns, k);
    && p.nextSend <= p.clock && LeakyBucket(sent, gaps) && Owed(sent, gaps, p.nextSend)
    && Rising(sent) && (forall i :: 0 <= i < k ==> sent[i] <= p.clock)
    && Spaced(sent, gaps, turns)
    && (k > 0 ==> var work := sent[k - 1] + turns[k - 1].write + turns[k - 1].after;
                  work <= p.clock <= work + gaps[k - 1])
  }

  lemma {:induction false} LoopIsPaced(start: nat, speed: nat, size: nat, turns: seq<Turn>, k: nat)
    requires k <= |turns|
    ensures Paced(start, speed, size, turns, k)
  {
    hide NextPace, LeakyBucket, Owed, Spaced, GapOf, Prefix, Advance, CalcSendInterval, SpeedAt;
    if k == 0 {
      NothingSent(start, turns);
    } else {
      LoopIsPaced(start, speed, size, turns, k - 1);
      var (sent, gaps) := (Sends(start, speed, size, turns, k - 1), Gaps(start, speed, size, turns, k - 1));
      var p := PaceAfter(start, speed, size, turns, k - 1);
      var (at, gap) := (SentAt(start, speed, size, turns, k - 1), GapAt(start, speed, size, turns, k - 1));
      var p' := PaceAfter(start, speed, size, turns, k);
      NextPaceBounds(p, turns[k - 1], size);
      SendKeepsBucket(sent, gaps, p.nextSend, at, gap);
      SpacedNext(sent, gaps, turns, at, gap);
      AdvanceKeepsOwed(sent, gaps, p.nextSend, at, gap, p'.nextSend);
    }
  }

  lemma NothingSent(start: nat, turns: seq<Turn>)
    ensures LeakyBucket([], []) && Owed([], [], start) && Spaced([], [], turns)
  {
  }

  method TakeTurn(turn: Turn, size: nat, clock0: nat, interval0: Option<nat>, nextSend0: nat)
      returns (at: nat, clock: nat, interval: Option<nat>, nextSend: nat)
    requires nextSend0 <= clock0
    ensures at == clock0 + turn.before
    ensures Pace(clock, interval, nextSend) == NextPace(Pace(clock0, interval0, nextSend0), turn, size)
    ensures nextSend <= clock <= at + turn.write + turn.after + GapOf(interval)
    // when the interval is over before it would sleep, it does not sleep
    ensures Due(Pace(clock0, interval0, nextSend0), turn) + GapOf(interval) <= at + turn.write + turn.after ==>
              clock == at + turn.write + turn.after
  {
    hide CalcSendInterval, Advance;
    clock, interval, nextSend := clock0 + turn.before, interval0, nextSend0;
    at := clock;
    clock := clock + turn.write;
    if turn.newSpeed.Some? {
      interval := CalcSendInterval(turn.newSpeed.value, size);
      nextSend := clock;
    }
    clock := clock + turn.after;
    if interval.Some? {
      var next, delay := AdvanceNextSend(nextSend, interval.value, clock);
      nextSend := next;
      if delay.Some? { clock := clock + delay.value; }
    }
  }

  /// The TX loop: the instants of the sends and the interval in force at each.
  method PacedSends(start: nat, speed: nat, size: nat, turns: seq<Turn>) returns (sent: seq<nat>, gaps: seq<nat>)
    ensures sent == Sends(start, speed, size, turns, |turns|) && gaps == Gaps(start, speed, size, turns, |turns|)
    ensures LeakyBucket(sent, gaps) && Rising(sent) && Spaced(sent, gaps, turns)
    ensures forall k :: 0 <= k < |turns| ==>
              sent[k] <= start + TurnLimits(start, speed, size, turns, k) + turns[k].before
    ensures forall k :: 0 <= k < |turns| ==> gaps[k] == GapOf(CalcSendInterval(SpeedAt(speed, turns, k), size))
  {
    hide CalcSendInterval, NextPace, LeakyBucket, Spaced, Owed, GapOf;
    sent, gaps := [], [];
    var clock: nat := start;
    var interval := CalcSendInterval(speed, size);
    var nextSend: nat := clock;
    for k := 0 to |turns|
      invariant nextSend <= clock && Pace(clock, interval, nextSend) == PaceAfter(start, speed, size, turns, k)
      invariant sent == Sends(start, speed, size, turns, k) && gaps == Gaps(start, speed, size, turns, k)
    {
      var at: nat;
      at, clock, interval, nextSend := TakeTurn(turns[k], size, clock, interval, nextSend);
      sent, gaps := sent + [at], gaps + [GapOf(interval)];
    }
    LoopIsPaced(start, speed, size, turns, |turns|);
    forall k | 0 <= k < |turns|
      ensures gaps[k] == GapOf(CalcSendInterval(SpeedAt(speed, turns, k), size))
      ensures sent[k] <= start + TurnLimits(start, speed, size, turns, k) + turns[k].before
    {
      GapOfSpeed(start, speed, size, turns, k);
      KeepsUp(start, speed, size, turns, k);
    }
  }

  // ---- Fixed interval ----

  lemma {:induction false} PrefixOfConstant(gaps: seq<nat>, iv: nat, i: nat, k: nat)
    requires i <= k <= |gaps| && forall j :: i <= j < k ==> gaps[j] == iv
    ensures Prefix(gaps, k) == Prefix(gaps, i) + (k - i) * iv
  {
    if i < k {
      PrefixOfConstant(gaps, iv, i, k - 1);
      assert (k - i) * iv == (k - 1 - i) * iv + iv;
    }
  }

  /// n sends at a fixed interval, the i-th to the k-th, span at least n - 3 intervals.
  lemma FixedIntervalSpan(sent: seq<nat>, gaps: seq<nat>, iv: nat, i: nat, k: nat)
    requires LeakyBucket(sent, gaps) && iv > 0 && i < k < |sent|
    requires forall j :: i <= j < k ==> gaps[j] == iv
    ensures var n := k - i + 1; sent[i] + (n - 3) * iv <= sent[k]
  {
    hide Prefix;
    PrefixOfConstant(gaps, iv, i, k);
    PrefixOfConstant(gaps, iv, i, i + 1);
    assert sent[k] + iv + Prefix(gaps, i + 1) >= sent[i] + Prefix(gaps, k);
    hide LeakyBucket;
    SpanArithmetic(k - i, iv);
  }

  lemma SpanArithmetic(n: int, iv: int)
    ensures (n + 1 - 3) * iv == n * iv - 2 * iv
  {
  }

  // ---- The rate ----

  datatype Transport = Tcp | Udp

  /// Bytes per send. The TCP loops fix it before the first write, by the speed they start
  /// with; the UDP loops always send one packet.
  function WriteSize(transport: Transport, initial: nat, size: nat): nat {
    if transport == Tcp && initial == 0 then (if size > CHUNK then size else CHUNK) else size
  }

  /// From send i to send k, with `write` bytes each, the bits pass target times duration by
  /// at most the factor (iv + 1) / iv and three sends.
  ghost predicate WithinRate(sent: seq<nat>, speed: nat, size: nat, write: nat, i: nat, k: nat)
    requires speed > 0 && i < k < |sent|
  {
    var iv := CalcSendInterval(speed, size).value;
    var first: int, last: int := sent[i], sent[k];
    SECOND * (write * 8) * ((k - i + 1 - 3) * iv) <= (iv + 1) * speed * (last - first)
  }

  /// A window in which one non-zero speed is in force, with an ideal interval of at most a
  /// second.
  ghost predicate SteadyWindow(initial: nat, size: nat, turns: seq<Turn>, speed: nat, i: nat, k: nat) {
    && i < k < |turns| && 0 < speed <= U32_MAX && SECOND * (size * 8) / speed <= SECOND
    && forall j :: i <= j < k ==> SpeedAt(initial, turns, j) == speed
  }

  lemma BucketRate(sent: seq<nat>, gaps: seq<nat>, speed: nat, size: nat, i: nat, k: nat)
    requires LeakyBucket(sent, gaps) && Rising(sent) && speed > 0 && i < k < |sent|
    requires SECOND * (size * 8) / speed <= SECOND
    requires forall j :: i <= j < k ==> gaps[j] == CalcSendInterval(speed, size).value
    ensures WithinRate(sent, speed, size, size, i, k)
  {
    var iv := CalcSendInterval(speed, size).value;
    hide CalcSendInterval, LeakyBucket;
    RateBelow(speed, size);
    RateAbove(speed, size);
    FixedIntervalSpan(sent, gaps, iv, i, k);
    Scale(SECOND * (size * 8), (iv + 1) * speed, (k - i + 1 - 3) * iv, sent[k] - sent[i]);
  }

  /// When every send is one packet, in any window.
  lemma RateBound(start: nat, initial: nat, size: nat, turns: seq<Turn>, speed: nat, i: nat, k: nat)
    requires SteadyWindow(initial, size, turns, speed, i, k)
    ensures WithinRate(Sends(start, initial, size, turns, |turns|), speed, size, size, i, k)
  {
    hide LeakyBucket, PaceAfter, WithinRate, Owed, Spaced, SpeedAt, Sends, Gaps;
    var (sent, gaps) := (Sends(start, initial, size, turns, |turns|), Gaps(start, initial, size, turns, |turns|));
    LoopIsPaced(start, initial, size, turns, |turns|);
    forall j | i <= j < k ensures gaps[j] == CalcSendInterval(speed, size).value {
      GapOfSpeed(start, initial, size, turns, j);
    }
    BucketRate(sent, gaps, speed, size, i, k);
  }

  lemma Scale(a: nat, b: nat, x: int, y: nat)
    requires a <= b && x <= y
    ensures a * x <= b * y
  {
    if x > 0 {
      assert a * x <= b * x;
      assert b * x <= b * y;
    } else {
      assert a * x <= 0 <= b * y;
    }
  }

  // ---- A TCP loop that started unlimited ----

  /// The writes keep their size when a speed is set later: each carries more than twice
  /// what the interval allows.
  lemma TwiceTheTarget(speed: nat, size: nat)
    requires size <= U16_MAX && 0 < speed <= U32_MAX && SECOND * (size * 8) / speed <= SECOND
    ensures var iv := CalcSendInterval(speed, size).value;
            SECOND * (WriteSize(Tcp, 0, size) * 8) > 2 * ((iv + 1) * speed)
  {
    var n := SECOND * (size * 8);
    var q := n / speed;
    var iv := CalcSendInterval(speed, size).value;
    DivBounds(n, speed);
    if q >= 1 {
      MulLe(iv + 1, 2 * q, speed);
      assert 2 * q * speed == 2 * (q * speed);
    }
  }

  /// With 32768-byte packets and a report that sets 262144000 bit/s, eight times the rate.
  lemma EightTimesTheTarget()
    ensures var iv := CalcSendInterval(262_144_000, 32_768).value;
            iv == 1_000_000 && SECOND * (WriteSize(Tcp, 0, 32_768) * 8) == 8 * (iv * 262_144_000)
  {
  }

  const IDLE_TURN := Turn(0, 0, None, 0)

  /// A report arrives with the first write; after that nothing holds the loop up.
  function ReportAtOnce(speed: nat): seq<Turn> {
    [Turn(0, 0, Some(speed), 0), IDLE_TURN, IDLE_TURN, IDLE_TURN, IDLE_TURN]
  }

  lemma {:induction false} OnSchedule(speed: nat, size: nat, k: nat)
    requires speed > 0 && 1 <= k <= 5
    ensures var iv := CalcSendInterval(speed, size).value;
            PaceAfter(0, 0, size, ReportAtOnce(speed), k) == Pace(k * iv, Some(iv), k * iv)
  {
    var iv := CalcSendInterval(speed, size).value;
    var turns := ReportAtOnce(speed);
    if k == 1 {
      assert PaceAfter(0, 0, size, turns, 0) == Pace(0, None, 0);
    } else {
      OnSchedule(speed, size, k - 1);
      hide CalcSendInterval;
      assert turns[k - 1] == IDLE_TURN;
      assert k * iv == (k - 1) * iv + iv;
    }
  }

  /// So the bound fails for every speed and packet size, within five sends.
  lemma UnlimitedStartExceeds(speed: nat, size: nat)
    requires size <= U16_MAX && 0 < speed <= U32_MAX && SECOND * (size * 8) / speed <= SECOND
    ensures var turns := ReportAtOnce(speed);
            && SteadyWindow(0, size, turns, speed, 0, 4)
            && !WithinRate(Sends(0, 0, size, turns, 5), speed, size, WriteSize(Tcp, 0, size), 0, 4)
  {
    var turns := ReportAtOnce(speed);
    var iv := CalcSendInterval(speed, size).value;
    TwiceTheTarget(speed, size);
    OnSchedule(speed, size, 4);
    assert Sends(0, 0, size, turns, 5)[4] == 4 * iv && Sends(0, 0, size, turns, 5)[0] == 0;
    assert SpeedAt(0, turns, 0) == speed && SpeedAt(0, turns, 1) == speed;
    assert SpeedAt(0, turns, 2) == speed && SpeedAt(0, turns, 3) == speed;
    hide CalcSendInterval, WriteSize, PaceAfter;
    TwiceInFive(SECOND * (WriteSize(Tcp, 0, size) * 8), (iv + 1) * speed, iv);
  }

  lemma TwiceInFive(a: nat, b: nat, iv: nat)
    requires a > 2 * b && iv > 0
    ensures a * (2 * iv) > b * (4 * iv)
  {
    assert b * (4 * iv) == 2 * b * (2 * iv);
    assert a * (2 * iv) > 2 * b * (2 * iv);
  }

  /// The rate holds for a loop: in every run and every such window.
  ghost predicate RateHolds(transport: Transport, initial: nat, size: nat) {
    forall start: nat, turns: seq<Turn>, speed: nat, i: nat, k: nat ::
      SteadyWindow(initial, size, turns, speed, i, k) ==>
        WithinRate(Sends(start, initial, size, turns, |turns|), speed, size, WriteSize(transport, initial, size), i, k)
  }

  /// It holds exactly for UDP loops and for TCP loops that do not start unlimited.
  lemma RateHoldsExactly(transport: Transport, initial: nat, size: nat)
    requires size <= U16_MAX
    ensures RateHolds(transport, initial, size) <==> transport == Udp || initial != 0
  {
    hide CalcSendInterval, WithinRate, Sends, SpeedAt;
    if transport == Udp || initial != 0 {
      forall start: nat, turns: seq<Turn>, speed: nat, i: nat, k: nat
        | SteadyWindow(initial, size, turns, speed, i, k)
        ensures WithinRate(Sends(start, initial, size, turns, |turns|), speed, size, size, i, k)
      {
        RateBound(start, initial, size, turns, speed, i, k);
      }
    } else {
      DivBounds(SECOND * (size * 8), U32_MAX);
      UnlimitedStartExceeds(U32_MAX, size);
      assert |ReportAtOnce(U32_MAX)| == 5;
    }
  }
}
