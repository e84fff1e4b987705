/// The usage tables of `src/server_pro/user_db.rs`: rows keyed by name and date text,
/// the upserts that add to them, and the sums over a day or a sliding window.
module UsageDb {
  import opened Calendar

  /// A row of `usage` (tx, rx) or of `ip_usage` (outbound, inbound).
  datatype Row = Row(key: string, date: string, tx: nat, rx: nat, tests: nat)

  datatype User = User(dailyQuota: int, weeklyQuota: int, enabled: bool)

  /// `date = ?` or `date >= ?`, on texts.
  datatype Window = OnDay(date: string) | Since(date: string)

  predicate InWindow(w: Window, date: string) {
    match w
    case OnDay(d) => date == d
    case Since(d) => !TextLess(date, d)
  }

  /// Insert a row, or add to the row of this key and date.
  function Upsert(rows: seq<Row>, key: string, date: string, tx: nat, rx: nat): seq<Row> {
    if rows == [] then [Row(key, date, tx, rx, 1)]
    else if rows[0].key == key && rows[0].date == date then
      [rows[0].(tx := rows[0].tx + tx, rx := rows[0].rx + rx, tests := rows[0].tests + 1)] + rows[1..]
    else [rows[0]] + Upsert(rows[1..], key, date, tx, rx)
  }

  predicate Selected(r: Row, key: string, w: Window) {
    r.key == key && InWindow(w, r.date)
  }

  /// `COALESCE(SUM(tx_bytes), 0)` over the selected rows.
  function SumTx(rows: seq<Row>, key: string, w: Window): nat {
    if rows == [] then 0
    else (if Selected(rows[0], key, w) then rows[0].tx else 0) + SumTx(rows[1..], key, w)
  }

  function SumRx(rows: seq<Row>, key: string, w: Window): nat {
    if rows == [] then 0
    else (if Selected(rows[0], key, w) then rows[0].rx else 0) + SumRx(rows[1..], key, w)
  }

  // ---- The windows of one day ----

  function Back(today: nat, k: nat): nat {
    if today < k then 0 else today - k
  }

  function Daily(today: nat): Window {
    OnDay(DayText(today))
  }

  /// `date('now', '-7 days')`: eight dates.
  function Weekly(today: nat): Window {
    Since(DayText(Back(today, 7)))
  }

  /// `date('now', '-30 days')`: thirty-one dates.
  function Monthly(today: nat): Window {
    Since(DayText(Back(today, 30)))
  }

  /// The kind of window, so that one window can be followed from day to day.
  datatype Span = DaySpan | WeekSpan | MonthSpan

  function WindowOf(s: Span, today: nat): Window {
    match s
    case DaySpan => Daily(today)
    case WeekSpan => Weekly(today)
    case MonthSpan => Monthly(today)
  }

  /// Today's date is in each of today's windows.
  lemma TodayInWindow(s: Span, today: nat)
    requires today <= LAST_DAY
    ensures InWindow(WindowOf(s, today), DayText(today))
  {
    hide DayText, TextLess;
    DayTextOrder(today, Back(today, 7));
    DayTextOrder(today, Back(today, 30));
  }

  /// Exactly which dates, of the days up to today: today's, today's and the seven before it,
  /// today's and the thirty before it.
  lemma WindowDays(d: nat, today: nat)
    requires d <= today <= LAST_DAY
    ensures InWindow(WindowOf(DaySpan, today), DayText(d)) <==> d == today
    ensures InWindow(WindowOf(WeekSpan, today), DayText(d)) <==> d + 7 >= today
    ensures InWindow(WindowOf(MonthSpan, today), DayText(d)) <==> d + 30 >= today
  {
    hide DayText, TextLess;
    DayTextOrder(d, today);
    DayTextOrder(d, Back(today, 7));
    DayTextOrder(d, Back(today, 30));
  }

  // ---- Effect of an upsert on a sum ----

  /// An upsert adds to exactly the sums that select its key and date.
  lemma {:induction false} UpsertSums(rows: seq<Row>, key: string, date: string, tx: nat, rx: nat, k: string, w: Window)
    ensures var hit := k == key && InWindow(w, date);
            var rows' := Upsert(rows, key, date, tx, rx);
            && SumTx(rows', k, w) == SumTx(rows, k, w) + (if hit then tx else 0)
            && SumRx(rows', k, w) == SumRx(rows, k, w) + (if hit then rx else 0)
  {
    var rows' := Upsert(rows, key, date, tx, rx);
    if rows == [] {
      assert rows'[1..] == [];
    } else if rows[0].key == key && rows[0].date == date {
      assert rows'[1..] == rows[1..];
    } else {
      UpsertSums(rows[1..], key, date, tx, rx, k, w);
      assert rows'[1..] == Upsert(rows[1..], key, date, tx, rx);
    }
  }

  predicate Keyed(r: Row, key: string, date: string) {
    r.key == key && r.date == date
  }

  /// The first row of this key and date gets the amounts and one test more; if there is
  /// none, a row is added. All other rows stay.
  lemma {:induction false} UpsertRow(rows: seq<Row>, key: string, date: string, tx: nat, rx: nat) returns (i: nat)
    ensures i <= |rows| && forall j :: 0 <= j < i ==> !Keyed(rows[j], key, date)
    ensures var rows' := Upsert(rows, key, date, tx, rx);
            if i == |rows| then rows' == rows + [Row(key, date, tx, rx, 1)]
            else Keyed(rows[i], key, date)
                 && rows' == rows[i := Row(key, date, rows[i].tx + tx, rows[i].rx + rx, rows[i].tests + 1)]
  {
    if rows == [] || Keyed(rows[0], key, date) {
      i := 0;
    } else {
      var k := UpsertRow(rows[1..], key, date, tx, rx);
      i := k + 1;
      assert rows == [rows[0]] + rows[1..];
    }
  }

  ghost predicate UniqueKeys(rows: seq<Row>) {
    forall i, j :: 0 <= i < j < |rows| ==> rows[i].key != rows[j].key || rows[i].date != rows[j].date
  }

  /// The UNIQUE(key, date) constraint survives, and only that row changes.
  lemma UpsertKeepsUnique(rows: seq<Row>, key: string, date: string, tx: nat, rx: nat)
    requires UniqueKeys(rows)
    ensures UniqueKeys(Upsert(rows, key, date, tx, rx))
    ensures var rows' := Upsert(rows, key, date, tx, rx);
            && |rows| <= |rows'| <= |rows| + 1
            && (forall i :: 0 <= i < |rows| ==> rows'[i].key == rows[i].key && rows'[i].date == rows[i].date)
            && (|rows'| > |rows| ==> rows'[|rows|].key == key && rows'[|rows|].date == date
                                     && forall i :: 0 <= i < |rows| ==> rows[i].key != key || rows[i].date != date)
  {
    hide Upsert;
    var i := UpsertRow(rows, key, date, tx, rx);
  }

  // ---- No rows from the future, and sliding ----

  ghost predicate DatedBy(date: string, today: nat) {
    exists d: nat :: d <= today && date == DayText(d)
  }

  ghost predicate RowsBy(rows: seq<Row>, today: nat) {
    forall r :: r in rows ==> DatedBy(r.date, today)
  }

  lemma {:induction false} UpsertRowsBy(rows: seq<Row>, key: string, tx: nat, rx: nat, before: nat, today: nat)
    requires before <= today && RowsBy(rows, before)
    ensures RowsBy(Upsert(rows, key, DayText(today), tx, rx), today)
  {
    hide DayText;
    var rows' := Upsert(rows, key, DayText(today), tx, rx);
    assert DatedBy(DayText(today), today);
    forall r | r in rows' ensures DatedBy(r.date, today) {
      UpsertDates(rows, key, DayText(today), tx, rx, r);
      if r.date != DayText(today) {
        var q :| q in rows && q.date == r.date;
        assert DatedBy(q.date, before);
      }
    }
  }

  lemma {:induction false} UpsertDates(rows: seq<Row>, key: string, date: string, tx: nat, rx: nat, r: Row)
    requires r in Upsert(rows, key, date, tx, rx)
    ensures r.date == date || exists q :: q in rows && q.date == r.date
  {
    if rows != [] && !(rows[0].key == key && rows[0].date == date) && r != rows[0] {
      UpsertDates(rows[1..], key, date, tx, rx, r);
      if r.date != date {
        var q :| q in rows[1..] && q.date == r.date;
        assert q in rows;
      }
    }
  }

  lemma {:induction false} SumMonotone(rows: seq<Row>, key: string, w: Window, w': Window)
    requires forall r :: r in rows ==> InWindow(w', r.date) ==> InWindow(w, r.date)
    ensures SumTx(rows, key, w') <= SumTx(rows, key, w)
    ensures SumRx(rows, key, w') <= SumRx(rows, key, w)
  {
    if rows != [] {
      assert rows[0] in rows;
      SumMonotone(rows[1..], key, w, w');
    }
  }

  lemma {:induction false} SumNone(rows: seq<Row>, key: string, w: Window)
    requires forall r :: r in rows ==> !InWindow(w, r.date)
    ensures SumTx(rows, key, w) == 0 && SumRx(rows, key, w) == 0
  {
    if rows != [] {
      assert rows[0] in rows;
      SumNone(rows[1..], key, w);
    }
  }

  /// Moving to a later day without recording never raises a windowed sum: string order of
  /// the dates makes the sliding window slide forward.
  lemma WindowSlides(rows: seq<Row>, key: string, s: Span, day: nat, day': nat)
    requires day <= day' <= LAST_DAY && RowsBy(rows, day)
    ensures SumTx(rows, key, WindowOf(s, day')) <= SumTx(rows, key, WindowOf(s, day))
    ensures SumRx(rows, key, WindowOf(s, day')) <= SumRx(rows, key, WindowOf(s, day))
  {
    hide DayText, TextLess;
    forall r | r in rows && InWindow(WindowOf(s, day'), r.date) ensures InWindow(WindowOf(s, day), r.date) {
      assert DatedBy(r.date, day);
      var d: nat :| d <= day && r.date == DayText(d);
      var k := if s.WeekSpan? then 7 else 30;
      DayTextOrder(d, day');
      DayTextOrder(d, Back(day, k));
      DayTextOrder(d, Back(day', k));
    }
    SumMonotone(rows, key, WindowOf(s, day), WindowOf(s, day'));
  }

  // ---- The database object ----

  class UserDb {
    var users: map<string, User>
    var usage: seq<Row>
    var ipUsage: seq<Row>

    constructor (users: map<string, User>)
      ensures this.users == users && usage == [] && ipUsage == []
    {
      this.users, usage, ipUsage := users, [], [];
    }

    /// `record_usage`
    method RecordUsage(username: string, txBytes: nat, rxBytes: nat, today: nat)
      modifies this`usage
      ensures usage == Upsert(old(usage), username, DayText(today), txBytes, rxBytes)
    {
      usage := Upsert(usage, username, DayText(today), txBytes, rxBytes);
    }

    /// `record_ip_usage`: inbound is what was received, outbound what was sent.
    method RecordIpUsage(ip: string, txBytes: nat, rxBytes: nat, today: nat)
      modifies this`ipUsage
      ensures ipUsage == Upsert(old(ipUsage), ip, DayText(today), txBytes, rxBytes)
    {
      var inbound, outbound := rxBytes, txBytes;
      ipUsage := Upsert(ipUsage, ip, DayText(today), outbound, inbound);
    }
  }
}
