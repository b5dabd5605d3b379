/** The two date rules of the OHLCV validator: duplicate dates (V004) and missing trading days (V005).
    Dates are proleptic ordinals (day 1 is a Monday); `yearOf` maps an ordinal to its year. */
module CalendarGaps {
  import opened Options

  // ---------- the trading calendar ----------

  const COVERED_YEAR := 2026

  datatype Calendar = Calendar(holidays: set<int>, yearOf: int -> int)

  function Weekday(day: int): int {
    (day + 6) % 7
  }

  predicate CoversYear(cal: Calendar, year: int) {
    year == COVERED_YEAR || exists h | h in cal.holidays :: cal.yearOf(h) == year
  }

  /** A date that carries a time of day never equals a plain holiday date, so the holiday test passes it. */
  predicate AnswersTrading(cal: Calendar, stamped: bool, day: int) {
    Weekday(day) < 5 && (stamped || day !in cal.holidays) && CoversYear(cal, cal.yearOf(day))
  }

  predicate IsTradingDay(cal: Calendar, day: int) {
    AnswersTrading(cal, false, day)
  }

  /** Monday to Friday of its week (day 1 is a Monday), in the year 2026 or one with a declared holiday. */
  predicate Working(cal: Calendar, day: int) {
    (day - 1) % 7 <= 4 && (cal.yearOf(day) == 2026 || exists h | h in cal.holidays :: cal.yearOf(h) == cal.yearOf(day))
  }

  /** What the calendar answers: a plain date trades exactly when it is a working day and no holiday, and a
      date with a time of day whenever it is a working day. */
  lemma TradingDayExactly(cal: Calendar, day: int)
    ensures IsTradingDay(cal, day) <==> Working(cal, day) && day !in cal.holidays
    ensures AnswersTrading(cal, true, day) <==> Working(cal, day)
  {
  }

  /** Of any seven days in a row at least two never count. */
  lemma WeekendInEveryWeek(cal: Calendar, first: int) returns (a: int, b: int)
    ensures first <= a < b < first + 7
    ensures forall stamped :: !AnswersTrading(cal, stamped, a) && !AnswersTrading(cal, stamped, b)
  {
    var k := (first - 1) % 7;
    a := if k == 6 then first else first + (5 - k);
    b := if k == 6 then first + 6 else a + 1;
  }

  /** A year nobody declared holidays for is closed, except the one with a built-in table; declaring
      any holiday of it opens its other weekdays. */
  lemma CoverageDecides(cal: Calendar, day: int, holiday: int)
    requires cal.yearOf(day) != 2026 && cal.yearOf(holiday) == cal.yearOf(day) && holiday != day
    requires (day - 1) % 7 <= 4 && forall h | h in cal.holidays :: cal.yearOf(h) != cal.yearOf(day)
    ensures !IsTradingDay(cal, day)
    ensures IsTradingDay(cal.(holidays := cal.holidays + {holiday}), day)
  {
    var declared := cal.(holidays := cal.holidays + {holiday});
    assert holiday in declared.holidays && declared.yearOf(holiday) == declared.yearOf(day);
  }

  // ---------- what the validator reads ----------

  /** How the gap check reads a Date field: a plain date (or ISO text), a date with a time of day, or
      text that is no date. */
  datatype Reading = Plain(day: int) | Stamped(day: int, second: nat) | Unreadable

  /** `text` is the field's string form, by which duplicates are recognised. */
  datatype DateField = Absent | Present(text: string, reading: Reading)

  datatype Mark = Mark(day: int, second: nat)

  datatype Gap = Gap(from: Mark, to: Mark, missing: nat)

  datatype GapReport = NoGaps | Incomparable | Gaps(count: nat, total: nat, listed: seq<Gap>)

  predicate Before(a: Mark, b: Mark) {
    a.day < b.day || (a.day == b.day && a.second < b.second)
  }

  predicate Readable(f: DateField) {
    f.Present? && !f.reading.Unreadable?
  }

  function MarkOf(f: DateField): Mark
    requires Readable(f)
  {
    if f.reading.Plain? then Mark(f.reading.day, 0) else Mark(f.reading.day, f.reading.second)
  }

  function MarksOf(fields: seq<DateField>): seq<Mark> {
    if |fields| == 0 then []
    else
      var n := |fields| - 1;
      MarksOf(fields[..n]) + if Readable(fields[n]) then [MarkOf(fields[n])] else []
  }

  /** Plain dates and timestamps cannot be ordered against each other. */
  predicate Mixed(fields: seq<DateField>) {
    (exists i | 0 <= i < |fields| :: Readable(fields[i]) && fields[i].reading.Plain?) &&
    (exists i | 0 <= i < |fields| :: Readable(fields[i]) && fields[i].reading.Stamped?)
  }

  predicate HasStamp(fields: seq<DateField>) {
    exists i | 0 <= i < |fields| :: Readable(fields[i]) && fields[i].reading.Stamped?
  }

  // ---------- sorting ----------

  predicate Ordered(m: seq<Mark>) {
    |m| > 1 ==> Ordered(m[..|m| - 1]) && !Before(m[|m| - 1], m[|m| - 2])
  }

  function Insert(m: seq<Mark>, x: Mark): (r: seq<Mark>)
    requires Ordered(m)
    ensures |r| == |m| + 1 && r[|m|] == (if |m| > 0 && Before(x, m[|m| - 1]) then m[|m| - 1] else x)
    ensures Ordered(r) && multiset(r) == multiset(m) + multiset{x}
  {
    if |m| == 0 then [x]
    else
      var n := |m| - 1;
      assert m == m[..n] + [m[n]];
      if Before(x, m[n]) then
        var front := Insert(m[..n], x);
        assert (front + [m[n]])[..|m|] == front;
        front + [m[n]]
      else
        assert (m + [x])[..|m|] == m;
        m + [x]
  }

  function Sorted(m: seq<Mark>): (r: seq<Mark>)
    ensures Ordered(r) && multiset(r) == multiset(m)
  {
    if |m| == 0 then []
    else
      assert m == m[..|m| - 1] + [m[|m| - 1]];
      Insert(Sorted(m[..|m| - 1]), m[|m| - 1])
  }

  // ---------- the gap check ----------

  /** The days strictly between two days that answer as trading days. */
  function TradingBetween(cal: Calendar, stamped: bool, from: int, to: int): set<int> {
    set d | from < d < to && AnswersTrading(cal, stamped, d)
  }

  /** The first day the walk from `a` does not visit: it keeps `a`'s time of day and stops at `b`. */
  function WalkEnd(a: Mark, b: Mark): int {
    if a.second < b.second then b.day + 1 else b.day
  }

  function StepsBetween(cal: Calendar, stamped: bool, a: Mark, b: Mark): nat {
    |TradingBetween(cal, stamped, a.day, WalkEnd(a, b))|
  }

  lemma OneMoreDay(cal: Calendar, stamped: bool, from: int, day: int)
    requires from < day
    ensures |TradingBetween(cal, stamped, from, day + 1)| ==
            |TradingBetween(cal, stamped, from, day)| + if AnswersTrading(cal, stamped, day) then 1 else 0
  {
    hide AnswersTrading;
    if AnswersTrading(cal, stamped, day) {
      assert TradingBetween(cal, stamped, from, day + 1) == TradingBetween(cal, stamped, from, day) + {day};
    } else {
      assert TradingBetween(cal, stamped, from, day + 1) == TradingBetween(cal, stamped, from, day);
    }
  }

  function GapsOf(cal: Calendar, stamped: bool, m: seq<Mark>): seq<Gap> {
    if |m| < 2 then []
    else
      var n := |m| - 1;
      var missing := StepsBetween(cal, stamped, m[n - 1], m[n]);
      GapsOf(cal, stamped, m[..n]) + if missing > 0 then [Gap(m[n - 1], m[n], missing)] else []
  }

  function TotalMissing(gaps: seq<Gap>): nat {
    if |gaps| == 0 then 0 else TotalMissing(gaps[..|gaps| - 1]) + gaps[|gaps| - 1].missing
  }

  function Report(gaps: seq<Gap>): GapReport {
    if |gaps| == 0 then NoGaps else Gaps(|gaps|, TotalMissing(gaps), gaps[..Min(5, |gaps|)])
  }

  function ReportOf(fields: seq<DateField>, calendar: Option<Calendar>): GapReport {
    if calendar.None? || |MarksOf(fields)| < 2 then NoGaps
    else if Mixed(fields) then Incomparable
    else Report(GapsOf(calendar.value, HasStamp(fields), Sorted(MarksOf(fields))))
  }

  method CountBetween(cal: Calendar, stamped: bool, a: Mark, b: Mark) returns (expected: nat)
    ensures expected == StepsBetween(cal, stamped, a, b)
  {
    hide AnswersTrading;
    expected := 0;
    var check := Mark(a.day + 1, a.second);
    assert TradingBetween(cal, stamped, a.day, check.day) == {};
    while Before(check, b)
      invariant check.second == a.second && a.day < check.day
      invariant check.day <= WalkEnd(a, b) || check.day == a.day + 1
      invariant expected == |TradingBetween(cal, stamped, a.day, check.day)|
      decreases b.day + 1 - check.day
    {
      OneMoreDay(cal, stamped, a.day, check.day);
      if AnswersTrading(cal, stamped, check.day) {
        expected := expected + 1;
      }
      check := check.(day := check.day + 1);
    }
    assert TradingBetween(cal, stamped, a.day, check.day) == TradingBetween(cal, stamped, a.day, WalkEnd(a, b));
  }

  method ReadDates(fields: seq<DateField>) returns (dates: seq<Mark>, mixed: bool, stamped: bool)
    ensures dates == MarksOf(fields) && mixed == Mixed(fields) && stamped == HasStamp(fields)
  {
    dates := [];
    var plain := false;
    stamped := false;
    for i := 0 to |fields|
      invariant dates == MarksOf(fields[..i])
      invariant plain <==> exists j | 0 <= j < i :: Readable(fields[j]) && fields[j].reading.Plain?
      invariant stamped <==> exists j | 0 <= j < i :: Readable(fields[j]) && fields[j].reading.Stamped?
    {
      assert fields[..i + 1][..i] == fields[..i];
      if Readable(fields[i]) {
        dates := dates + [MarkOf(fields[i])];
        plain := plain || fields[i].reading.Plain?;
        stamped := stamped || fields[i].reading.Stamped?;
      }
    }
    assert fields[..|fields|] == fields;
    mixed := plain && stamped;
  }

  /** Walks the consecutive pairs of the sorted dates. */
  method FindGaps(cal: Calendar, stamped: bool, m: seq<Mark>) returns (r: GapReport)
    requires |m| > 0
    ensures r == Report(GapsOf(cal, stamped, m))
  {
    hide StepsBetween, AnswersTrading;
    var found: seq<Gap> := [];
    var total := 0;
    for i := 0 to |m| - 1
      invariant found == GapsOf(cal, stamped, m[..i + 1])
      invariant total == TotalMissing(found)
    {
      var expected := CountBetween(cal, stamped, m[i], m[i + 1]);
      assert m[..i + 2][..i + 1] == m[..i + 1];
      if expected > 0 {
        var gap := Gap(m[i], m[i + 1], expected);
        assert (found + [gap])[..|found|] == found;
        found := found + [gap];
        total := total + expected;
      }
    }
    assert m[..|m|] == m;
    r := if |found| == 0 then NoGaps else Gaps(|found|, total, found[..Min(5, |found|)]);
  }

  predicate ReadsPlain(fields: seq<DateField>, i: nat) {
    i < |fields| && fields[i].Present? && fields[i].reading.Plain?
  }

  predicate ReadsStamped(fields: seq<DateField>, i: nat) {
    i < |fields| && fields[i].Present? && fields[i].reading.Stamped?
  }

  /** The kinds of dates in terms of single records. */
  lemma KindsExactly(fields: seq<DateField>)
    ensures HasStamp(fields) <==> exists i: nat | i < |fields| :: ReadsStamped(fields, i)
    ensures Mixed(fields) <==> HasStamp(fields) && exists i: nat | i < |fields| :: ReadsPlain(fields, i)
  {
    forall i: nat | i < |fields|
      ensures ReadsStamped(fields, i) <==> Readable(fields[i]) && fields[i].reading.Stamped?
      ensures ReadsPlain(fields, i) <==> Readable(fields[i]) && fields[i].reading.Plain?
    {
    }
    hide Readable, ReadsStamped, ReadsPlain;
    if HasStamp(fields) {
      var i: nat :| i < |fields| && Readable(fields[i]) && fields[i].reading.Stamped?;
      assert ReadsStamped(fields, i);
    }
    if j: nat :| j < |fields| && Readable(fields[j]) && fields[j].reading.Plain? {
      assert ReadsPlain(fields, j);
    }
  }

  lemma {:induction false} MarksAreReadable(fields: seq<DateField>, i: nat, j: nat)
    requires ReadsPlain(fields, i) && ReadsStamped(fields, j)
    ensures |MarksOf(fields)| >= 2
  {
    var n := |fields| - 1;
    if i < n && j < n {
      MarksAreReadable(fields[..n], i, j);
    } else {
      SomeMark(fields[..n], if i < n then i else j);
    }
  }

  lemma {:induction false} SomeMark(fields: seq<DateField>, i: nat)
    requires ReadsPlain(fields, i) || ReadsStamped(fields, i)
    ensures |MarksOf(fields)| >= 1
  {
    if i < |fields| - 1 {
      SomeMark(fields[..|fields| - 1], i);
    }
  }

  method CheckCalendarGaps(fields: seq<DateField>, calendar: Option<Calendar>) returns (r: GapReport)
    ensures r == ReportOf(fields, calendar)
    ensures r.Incomparable? <==> && calendar.Some? && (exists i: nat | i < |fields| :: ReadsPlain(fields, i))
                                 && (exists i: nat | i < |fields| :: ReadsStamped(fields, i))
  {
    KindsExactly(fields);
    if i: nat, j: nat :| i < |fields| && j < |fields| && ReadsPlain(fields, i) && ReadsStamped(fields, j) {
      MarksAreReadable(fields, i, j);
    }
    if |fields| == 0 || calendar.None? {
      return NoGaps;
    }
    var dates, mixed, stamped := ReadDates(fields);
    if |dates| < 2 {
      return NoGaps;
    }
    if mixed {
      return Incomparable;
    }
    r := FindGaps(calendar.value, stamped, Sorted(dates));
  }

  // ---------- what the total means ----------

  function DaysOf(m: seq<Mark>): set<int> {
    if |m| == 0 then {} else DaysOf(m[..|m| - 1]) + {m[|m| - 1].day}
  }

  lemma {:induction false} OrderedDays(m: seq<Mark>)
    requires Ordered(m) && |m| > 0
    ensures forall d | d in DaysOf(m) :: d <= m[|m| - 1].day
    ensures m[0].day <= m[|m| - 1].day && m[|m| - 1].day in DaysOf(m)
  {
    if |m| > 1 {
      OrderedDays(m[..|m| - 1]);
    } else {
      assert DaysOf(m) == DaysOf(m[..0]) + {m[0].day};
    }
  }

  /** Days strictly inside the range that answer as trading days and are not in the list. */
  function MissingDays(cal: Calendar, stamped: bool, m: seq<Mark>): set<int>
    requires |m| > 0
  {
    TradingBetween(cal, stamped, m[0].day, m[|m| - 1].day) - DaysOf(m)
  }

  /** Listed trading days that follow a mark of an earlier day at an earlier time of day; the loop
      steps onto them and counts them although they are in the list. */
  function Revisited(cal: Calendar, stamped: bool, m: seq<Mark>): nat {
    if |m| < 2 then 0
    else
      var n := |m| - 1;
      Revisited(cal, stamped, m[..n]) +
      if m[n - 1].day < m[n].day && m[n - 1].second < m[n].second && AnswersTrading(cal, stamped, m[n].day) then 1
          else 0
  }

  /** For timestamps: the marks on a working day that follow an earlier day at an earlier time of day. */
  function SteppedOnto(cal: Calendar, m: seq<Mark>): set<nat> {
    set i: nat | 0 < i < |m| && m[i - 1].day < m[i].day && m[i - 1].second < m[i].second && Working(cal, m[i].day)
  }

  lemma {:induction false} RevisitedExactly(cal: Calendar, m: seq<Mark>)
    ensures Revisited(cal, true, m) == |SteppedOnto(cal, m)|
  {
    hide AnswersTrading, Working;
    if |m| >= 2 {
      var n := |m| - 1;
      RevisitedExactly(cal, m[..n]);
      TradingDayExactly(cal, m[n].day);
      if m[n - 1].day < m[n].day && m[n - 1].second < m[n].second && Working(cal, m[n].day) {
        assert SteppedOnto(cal, m) == SteppedOnto(cal, m[..n]) + {n};
      } else {
        assert SteppedOnto(cal, m) == SteppedOnto(cal, m[..n]);
      }
    } else {
      assert SteppedOnto(cal, m) == {};
    }
  }

  /** The trading days the walk from one mark to a later one counts: those after its day and before the later
      one's, and that day itself when its time of day is later; a holiday counts for timestamps only. */
  function WalkedDays(cal: Calendar, stamped: bool, a: Mark, b: Mark): set<int> {
    set d | a.day < d <= b.day && (d < b.day || a.second < b.second) && Working(cal, d) &&
            (stamped || d !in cal.holidays)
  }

  /** A counted day lies between mark `i` and the one before it. */
  predicate EndsGap(cal: Calendar, stamped: bool, m: seq<Mark>, i: nat) {
    0 < i < |m| && WalkedDays(cal, stamped, m[i - 1], m[i]) != {}
  }

  /** How many of the first `n` marks end a gap. */
  function GapEnds(cal: Calendar, stamped: bool, m: seq<Mark>, n: nat): nat {
    |set i: nat | i < n && EndsGap(cal, stamped, m, i)|
  }

  /** The k-th gap found is the k-th neighbouring pair with a counted day between, with their number. */
  predicate ListsGap(cal: Calendar, stamped: bool, m: seq<Mark>, k: nat, g: Gap) {
    exists i: nat | i < |m| :: EndsGap(cal, stamped, m, i) && k == GapEnds(cal, stamped, m, i) &&
                               g == Gap(m[i - 1], m[i], |WalkedDays(cal, stamped, m[i - 1], m[i])|)
  }

  lemma GapEndsOfFront(cal: Calendar, stamped: bool, m: seq<Mark>, n: nat, i: nat)
    requires i <= n <= |m|
    ensures GapEnds(cal, stamped, m[..n], i) == GapEnds(cal, stamped, m, i)
    ensures i < n ==> EndsGap(cal, stamped, m[..n], i) == EndsGap(cal, stamped, m, i)
  {
    hide WalkedDays;
    assert (set j: nat | j < i && EndsGap(cal, stamped, m[..n], j)) ==
           (set j: nat | j < i && EndsGap(cal, stamped, m, j));
  }

  lemma ListsLonger(cal: Calendar, stamped: bool, m: seq<Mark>, k: nat, g: Gap)
    requires |m| > 0 && ListsGap(cal, stamped, m[..|m| - 1], k, g)
    ensures ListsGap(cal, stamped, m, k, g)
  {
    hide WalkedDays, GapEnds;
    var front := m[..|m| - 1];
    var i: nat :| i < |front| && EndsGap(cal, stamped, front, i) && k == GapEnds(cal, stamped, front, i) &&
                  g == Gap(front[i - 1], front[i], |WalkedDays(cal, stamped, front[i - 1], front[i])|);
    GapEndsOfFront(cal, stamped, m, |m| - 1, i);
    assert EndsGap(cal, stamped, m, i);
  }

  lemma AnswersExactly(cal: Calendar, stamped: bool, day: int)
    ensures AnswersTrading(cal, stamped, day) <==> Working(cal, day) && (stamped || day !in cal.holidays)
  {
  }

  lemma StepsAreWalked(cal: Calendar, stamped: bool, a: Mark, b: Mark)
    ensures StepsBetween(cal, stamped, a, b) == |WalkedDays(cal, stamped, a, b)|
  {
    hide AnswersTrading, Working;
    forall d ensures AnswersTrading(cal, stamped, d) <==> Working(cal, d) && (stamped || d !in cal.holidays) {
      AnswersExactly(cal, stamped, d);
    }
    assert TradingBetween(cal, stamped, a.day, WalkEnd(a, b)) == WalkedDays(cal, stamped, a, b);
  }

  lemma {:induction false} GapsAreNeighbours(cal: Calendar, stamped: bool, m: seq<Mark>)
    ensures var gaps := GapsOf(cal, stamped, m);
            && |gaps| == GapEnds(cal, stamped, m, |m|)
            && forall k | 0 <= k < |gaps| :: ListsGap(cal, stamped, m, k, gaps[k])
  {
    hide StepsBetween, WalkedDays, ListsGap;
    if |m| < 2 {
      assert (set i: nat | i < |m| && EndsGap(cal, stamped, m, i)) == {};
    } else {
      var n := |m| - 1;
      var front := m[..n];
      var earlier := GapsOf(cal, stamped, front);
      GapsAreNeighbours(cal, stamped, front);
      StepsAreWalked(cal, stamped, m[n - 1], m[n]);
      forall k | 0 <= k < |earlier| ensures ListsGap(cal, stamped, m, k, earlier[k]) {
        ListsLonger(cal, stamped, m, k, earlier[k]);
      }
      LastGap(cal, stamped, m);
    }
  }

  lemma GapEndsStep(cal: Calendar, stamped: bool, m: seq<Mark>, n: nat)
    ensures GapEnds(cal, stamped, m, n + 1) ==
            GapEnds(cal, stamped, m, n) + if EndsGap(cal, stamped, m, n) then 1 else 0
  {
    hide EndsGap;
    var before := set i: nat | i < n && EndsGap(cal, stamped, m, i);
    var after := set i: nat | i < n + 1 && EndsGap(cal, stamped, m, i);
    assert after == if EndsGap(cal, stamped, m, n) then before + {n} else before;
  }

  lemma LastGap(cal: Calendar, stamped: bool, m: seq<Mark>)
    requires |m| >= 2
    ensures var n := |m| - 1;
            var walked := WalkedDays(cal, stamped, m[n - 1], m[n]);
            var before := GapEnds(cal, stamped, m[..n], n);
            && GapEnds(cal, stamped, m, |m|) == before + (if walked != {} then 1 else 0)
            && (walked != {} ==> ListsGap(cal, stamped, m, before, Gap(m[n - 1], m[n], |walked|)))
  {
    hide WalkedDays, GapEnds;
    var n := |m| - 1;
    GapEndsOfFront(cal, stamped, m, n, n);
    GapEndsStep(cal, stamped, m, n);
  }

  /** The report, for dates and timestamps alike, counts every neighbouring pair of the sorted marks with a
      counted day between, and lists the first five of them with the number of their days. */
  lemma ListedGapsExactly(fields: seq<DateField>, cal: Calendar)
    requires ReportOf(fields, Some(cal)).Gaps?
    ensures var r, m, stamped := ReportOf(fields, Some(cal)), Sorted(MarksOf(fields)), HasStamp(fields);
            && r.count == GapEnds(cal, stamped, m, |m|) && |r.listed| == (if r.count < 5 then r.count else 5)
            && forall k | 0 <= k < |r.listed| :: ListsGap(cal, stamped, m, k, r.listed[k])
  {
    hide GapsOf, MarksOf, Ordered, ListsGap, GapEnds;
    GapsAreNeighbours(cal, HasStamp(fields), Sorted(MarksOf(fields)));
  }

  lemma StepsSplit(cal: Calendar, stamped: bool, a: Mark, b: Mark)
    requires !Before(b, a)
    ensures StepsBetween(cal, stamped, a, b) ==
            |TradingBetween(cal, stamped, a.day, b.day)| +
            (if a.day < b.day && a.second < b.second && AnswersTrading(cal, stamped, b.day) then 1 else 0)
  {
    hide AnswersTrading;
    if a.day < b.day {
      OneMoreDay(cal, stamped, a.day, b.day);
    } else {
      assert TradingBetween(cal, stamped, a.day, WalkEnd(a, b)) == {} == TradingBetween(cal, stamped, a.day, b.day);
    }
  }

  lemma RangeSplits(cal: Calendar, stamped: bool, from: int, middle: int, to: int, listed: set<int>)
    requires from <= middle <= to && middle in listed && forall d | d in listed :: d <= middle
    ensures |TradingBetween(cal, stamped, from, to) - (listed + {to})| ==
            |TradingBetween(cal, stamped, from, middle) - listed| + |TradingBetween(cal, stamped, middle, to)|
  {
    hide AnswersTrading;
    var earlier := TradingBetween(cal, stamped, from, middle) - listed;
    var inside := TradingBetween(cal, stamped, middle, to);
    assert TradingBetween(cal, stamped, from, to) - (listed + {to}) == earlier + inside;
    assert earlier !! inside;
  }

  lemma MissingGrows(cal: Calendar, stamped: bool, m: seq<Mark>)
    requires |m| >= 2 && Ordered(m)
    ensures var n := |m| - 1;
            |MissingDays(cal, stamped, m)| ==
            |MissingDays(cal, stamped, m[..n])| + |TradingBetween(cal, stamped, m[n - 1].day, m[n].day)|
  {
    hide AnswersTrading, TradingBetween;
    var n := |m| - 1;
    OrderedDays(m[..n]);
    RangeSplits(cal, stamped, m[0].day, m[n - 1].day, m[n].day, DaysOf(m[..n]));
  }

  /** The sum over consecutive pairs is the number of days missing from the whole list, plus the
      listed days that were stepped onto. */
  lemma {:induction false} TotalIsMissingDays(cal: Calendar, stamped: bool, m: seq<Mark>)
    requires |m| > 0 && Ordered(m)
    ensures TotalMissing(GapsOf(cal, stamped, m)) == |MissingDays(cal, stamped, m)| + Revisited(cal, stamped, m)
  {
    hide AnswersTrading, StepsBetween, TradingBetween, MissingDays;
    if |m| == 1 {
      OneDayMissesNone(cal, stamped, m);
    } else {
      var n := |m| - 1;
      TotalIsMissingDays(cal, stamped, m[..n]);
      StepsSplit(cal, stamped, m[n - 1], m[n]);
      MissingGrows(cal, stamped, m);
      TotalStep(cal, stamped, m);
    }
  }

  lemma OneDayMissesNone(cal: Calendar, stamped: bool, m: seq<Mark>)
    requires |m| == 1
    ensures MissingDays(cal, stamped, m) == {}
  {
    hide AnswersTrading;
    assert TradingBetween(cal, stamped, m[0].day, m[0].day) == {};
  }

  lemma TotalStep(cal: Calendar, stamped: bool, m: seq<Mark>)
    requires |m| >= 2
    ensures var n := |m| - 1;
            TotalMissing(GapsOf(cal, stamped, m)) ==
            TotalMissing(GapsOf(cal, stamped, m[..n])) + StepsBetween(cal, stamped, m[n - 1], m[n])
  {
    hide StepsBetween;
    var n := |m| - 1;
    var gaps := GapsOf(cal, stamped, m[..n]);
    var missing := StepsBetween(cal, stamped, m[n - 1], m[n]);
    if missing > 0 {
      assert (gaps + [Gap(m[n - 1], m[n], missing)])[..|gaps|] == gaps;
    } else {
      assert GapsOf(cal, stamped, m) == gaps;
    }
  }

  lemma SortingKeepsDays(a: seq<Mark>, b: seq<Mark>)
    requires multiset(a) == multiset(b)
    ensures DaysOf(a) == DaysOf(b)
  {
    forall d ensures d in DaysOf(a) <==> d in DaysOf(b) {
      DayListed(a, d);
      DayListed(b, d);
      if i: nat :| i < |a| && a[i].day == d {
        assert a[i] in multiset(b);
      }
      if i: nat :| i < |b| && b[i].day == d {
        assert b[i] in multiset(a);
      }
    }
  }

  lemma {:induction false} DayListed(m: seq<Mark>, day: int)
    ensures day in DaysOf(m) <==> exists i: nat :: i < |m| && m[i].day == day
  {
    if |m| > 0 {
      var n := |m| - 1;
      DayListed(m[..n], day);
      if i: nat :| i < n && m[i].day == day {
        assert m[..n][i].day == day;
      }
    }
  }

  // ---------- what the report means ----------

  function TotalOf(r: GapReport): nat {
    if r.Gaps? then r.total else 0
  }

  predicate SpansFrom(days: set<int>, first: int, last: int) {
    first in days && last in days && forall d | d in days :: first <= d <= last
  }

  lemma OrderedEnds(m: seq<Mark>, first: int, last: int)
    requires Ordered(m) && |m| > 0 && SpansFrom(DaysOf(m), first, last)
    ensures m[0].day == first && m[|m| - 1].day == last
  {
    OrderedDays(m);
    FirstIsEarliest(m);
  }

  lemma {:induction false} FirstIsEarliest(m: seq<Mark>)
    requires Ordered(m) && |m| > 0
    ensures m[0].day in DaysOf(m) && forall d | d in DaysOf(m) :: m[0].day <= d
  {
    if |m| > 1 {
      FirstIsEarliest(m[..|m| - 1]);
      OrderedDays(m);
    } else {
      assert DaysOf(m) == DaysOf(m[..0]) + {m[0].day};
    }
  }

  lemma {:induction false} GapsArePositive(cal: Calendar, stamped: bool, m: seq<Mark>)
    ensures |GapsOf(cal, stamped, m)| > 0 <==> TotalMissing(GapsOf(cal, stamped, m)) > 0
  {
    hide StepsBetween;
    if |m| >= 2 {
      var gaps := GapsOf(cal, stamped, m[..|m| - 1]);
      GapsArePositive(cal, stamped, m[..|m| - 1]);
      var all := GapsOf(cal, stamped, m);
      assert |all| > |gaps| ==> all[..|gaps|] == gaps && all[|gaps|].missing > 0;
      assert |all| == |gaps| ==> all == gaps;
    }
  }

  lemma ReportTotals(fields: seq<DateField>, cal: Calendar, first: int, last: int)
    requires |MarksOf(fields)| >= 2 && !Mixed(fields) && SpansFrom(DaysOf(MarksOf(fields)), first, last)
    ensures var r := ReportOf(fields, Some(cal));
            var stamped := HasStamp(fields);
            && !r.Incomparable? && (r.Gaps? <==> TotalOf(r) > 0)
            && TotalOf(r) == |TradingBetween(cal, stamped, first, last) - DaysOf(MarksOf(fields))|
                             + Revisited(cal, stamped, Sorted(MarksOf(fields)))
  {
    hide AnswersTrading, TradingBetween, Mixed, HasStamp;
    var dates := MarksOf(fields);
    var m := Sorted(dates);
    assert |m| == |multiset(m)| == |multiset(dates)| == |dates|;
    SortingKeepsDays(m, dates);
    OrderedEnds(m, first, last);
    TotalIsMissingDays(cal, HasStamp(fields), m);
    GapsArePositive(cal, HasStamp(fields), m);
  }

  lemma {:induction false} NothingRevisited(cal: Calendar, stamped: bool, m: seq<Mark>)
    ensures Revisited(cal, stamped, m) == 0 <==>
            forall i | 1 <= i < |m| ::
              !(m[i - 1].day < m[i].day && m[i - 1].second < m[i].second && AnswersTrading(cal, stamped, m[i].day))
  {
    hide AnswersTrading;
    if |m| >= 2 {
      NothingRevisited(cal, stamped, m[..|m| - 1]);
    }
  }

  lemma {:induction false} PlainMarksAtMidnight(fields: seq<DateField>, i: nat)
    requires !HasStamp(fields) && i < |MarksOf(fields)|
    ensures MarksOf(fields)[i].second == 0
  {
    var n := |fields| - 1;
    assert Readable(fields[n]) ==> fields[n].reading.Plain?;
    if i < |MarksOf(fields[..n])| {
      PlainMarksAtMidnight(fields[..n], i);
    }
  }

  lemma PlainRevisitsNothing(fields: seq<DateField>, cal: Calendar)
    requires !HasStamp(fields)
    ensures Revisited(cal, false, Sorted(MarksOf(fields))) == 0
  {
    hide AnswersTrading, HasStamp, Revisited, MarksOf, Ordered;
    var dates := MarksOf(fields);
    var m := Sorted(dates);
    forall i | 0 <= i < |m| ensures m[i].second == 0 {
      var j := SameElement(m, dates, i);
      PlainMarksAtMidnight(fields, j);
    }
    NothingRevisited(cal, false, m);
  }

  lemma SameElement(a: seq<Mark>, b: seq<Mark>, i: nat) returns (j: nat)
    requires multiset(a) == multiset(b) && i < |a|
    ensures j < |b| && b[j] == a[i]
  {
    assert a[i] in multiset(b);
    j :| j < |b| && b[j] == a[i];
  }

  /** The working days strictly inside the range that are no holidays and not in the list. */
  function AbsentDays(cal: Calendar, first: int, last: int, days: set<int>): set<int> {
    set d | first < d < last && Working(cal, d) && d !in cal.holidays && d !in days
  }

  lemma AbsentAreUnlisted(cal: Calendar, first: int, last: int, days: set<int>)
    ensures AbsentDays(cal, first, last, days) == TradingBetween(cal, false, first, last) - days
  {
    hide IsTradingDay, AnswersTrading, Working;
    forall d ensures AnswersTrading(cal, false, d) <==> Working(cal, d) && d !in cal.holidays {
      TradingDayExactly(cal, d);
      PlainAnswer(cal, d);
    }
  }

  lemma PlainAnswer(cal: Calendar, day: int)
    ensures IsTradingDay(cal, day) == AnswersTrading(cal, false, day)
  {
  }

  /** Plain dates, in any order and with repeats: the report counts exactly the trading days between
      the earliest and latest date that the list lacks, and is made exactly when there is one. */
  lemma PlainGapsAreExact(fields: seq<DateField>, cal: Calendar, first: int, last: int)
    requires |MarksOf(fields)| >= 2 && SpansFrom(DaysOf(MarksOf(fields)), first, last)
    requires forall i | 0 <= i < |fields| :: !ReadsStamped(fields, i)
    ensures var r := ReportOf(fields, Some(cal));
            var absent := AbsentDays(cal, first, last, DaysOf(MarksOf(fields)));
            && TotalOf(r) == |absent| && (r.Gaps? <==> absent != {}) && (r.NoGaps? <==> absent == {})
  {
    hide *;
    KindsExactly(fields);
    OneKind(fields);
    ReportTotals(fields, cal, first, last);
    PlainRevisitsNothing(fields, cal);
    AbsentAreUnlisted(cal, first, last, DaysOf(MarksOf(fields)));
  }

  lemma OneKind(fields: seq<DateField>)
    requires !HasStamp(fields)
    ensures !Mixed(fields)
  {
  }

  /** Holidays on weekdays of a covered year, strictly inside the range and not in the list. */
  function UnlistedHolidays(cal: Calendar, first: int, last: int, days: set<int>): set<int> {
    set h | h in cal.holidays && first < h < last && h !in days && Working(cal, h)
  }

  lemma HolidaysSplit(cal: Calendar, first: int, last: int, days: set<int>)
    ensures |TradingBetween(cal, true, first, last) - days| ==
            |AbsentDays(cal, first, last, days)| + |UnlistedHolidays(cal, first, last, days)|
  {
    hide Working, AnswersTrading;
    forall d ensures AnswersTrading(cal, true, d) <==> Working(cal, d) {
      TradingDayExactly(cal, d);
    }
    var absent, holidays := AbsentDays(cal, first, last, days), UnlistedHolidays(cal, first, last, days);
    assert TradingBetween(cal, true, first, last) - days == absent + holidays;
    assert absent !! holidays;
  }

  /** Dates that carry a time of day: the count is too high by every unlisted weekday holiday and by
      every listed day stepped onto, and by nothing else; so it is right exactly when there are none. */
  lemma StampedGapsOvercount(fields: seq<DateField>, cal: Calendar, first: int, last: int)
    requires |MarksOf(fields)| >= 2 && SpansFrom(DaysOf(MarksOf(fields)), first, last)
    requires forall i | 0 <= i < |fields| :: !ReadsPlain(fields, i)
    requires exists i: nat | i < |fields| :: ReadsStamped(fields, i)
    ensures var total := TotalOf(ReportOf(fields, Some(cal)));
            var days := DaysOf(MarksOf(fields));
            var absent := AbsentDays(cal, first, last, days);
            var holidays := UnlistedHolidays(cal, first, last, days);
            var stepped := |SteppedOnto(cal, Sorted(MarksOf(fields)))|;
            && total == |absent| + |holidays| + stepped
            && (total == |absent| <==> holidays == {} && stepped == 0)
  {
    hide *;
    KindsExactly(fields);
    ReportTotals(fields, cal, first, last);
    HolidaysSplit(cal, first, last, DaysOf(MarksOf(fields)));
    RevisitedExactly(cal, Sorted(MarksOf(fields)));
  }

  lemma MarksAppend(fields: seq<DateField>, f: DateField)
    requires Readable(f)
    ensures MarksOf(fields + [f]) == MarksOf(fields) + [MarkOf(f)]
  {
    assert (fields + [f])[..|fields|] == fields;
  }

  lemma DaysAppend(m: seq<Mark>, x: Mark)
    ensures DaysOf(m + [x]) == DaysOf(m) + {x.day}
  {
    assert (m + [x])[..|m|] == m;
  }

  lemma TwoMarks(f: DateField, g: DateField)
    requires Readable(f) && Readable(g)
    ensures var marks := MarksOf([f, g]);
            |marks| == 2 && DaysOf(marks) == {MarkOf(f).day, MarkOf(g).day}
  {
    var noFields: seq<DateField>, noMarks: seq<Mark> := [], [];
    assert MarksOf(noFields) == [] && DaysOf(noMarks) == {};
    hide *;
    MarksAppend(noFields, f);
    MarksAppend(noFields + [f], g);
    assert noFields + [f] + [g] == [f, g];
    DaysAppend(noMarks, MarkOf(f));
    DaysAppend(noMarks + [MarkOf(f)], MarkOf(g));
    assert noMarks + [MarkOf(f)] + [MarkOf(g)] == MarksOf([f, g]);
  }

  /** One weekday holiday between two timestamps is reported; between two plain dates it is not. */
  lemma HolidayReportedForTimestamps(text: string, other: string, yearOf: int -> int)
    requires yearOf(2) == COVERED_YEAR
    ensures var cal := Calendar({2}, yearOf);
            && ReportOf([Present(text, Stamped(1, 0)), Present(other, Stamped(3, 0))], Some(cal)).Gaps?
            && ReportOf([Present(text, Plain(1)), Present(other, Plain(3))], Some(cal)) == NoGaps
  {
    var cal := Calendar({2}, yearOf);
    assert Weekday(2) < 5;
    HolidayBetween(Present(text, Stamped(1, 0)), Present(other, Stamped(3, 0)), cal);
    HolidayBetween(Present(text, Plain(1)), Present(other, Plain(3)), cal);
  }

  lemma SameKind(f: DateField, g: DateField)
    requires Readable(f) && Readable(g) && f.reading.Stamped? == g.reading.Stamped?
    ensures HasStamp([f, g]) == f.reading.Stamped? && !Mixed([f, g])
  {
    assert [f, g][0] == f && [f, g][1] == g;
  }

  lemma HolidayBetween(f: DateField, g: DateField, cal: Calendar)
    requires Readable(f) && Readable(g) && f.reading.Stamped? == g.reading.Stamped?
    requires f.reading.day == 1 && g.reading.day == 3
    requires 2 in cal.holidays && AnswersTrading(cal, true, 2)
    ensures var r := ReportOf([f, g], Some(cal)); if f.reading.Stamped? then r.Gaps? else r == NoGaps
  {
    var fields := [f, g];
    assert !IsTradingDay(cal, 2);
    SameKind(f, g);
    TwoMarks(f, g);
    hide ReportOf, MarksOf, DaysOf, Sorted, Revisited, AnswersTrading, Mixed, HasStamp, IsTradingDay;
    if f.reading.Stamped? {
      ReportTotals(fields, cal, 1, 3);
      assert ReadsStamped(fields, 0);
      StampedGapsOvercount(fields, cal, 1, 3);
      assert 2 in UnlistedHolidays(cal, 1, 3, {1, 3});
    } else {
      PlainGapsAreExact(fields, cal, 1, 3);
    }
  }

  // ---------- duplicate dates ----------

  datatype Duplicate = Duplicate(text: string, first: nat, second: nat)

  /** The index of the first field with this text. */
  function FirstWith(fields: seq<DateField>, text: string): (r: Option<nat>)
    ensures r.Some? ==> r.value < |fields| && fields[r.value].Present? && fields[r.value].text == text
    ensures forall i | 0 <= i < |fields| && fields[i].Present? && fields[i].text == text :: r.Some? && r.value <= i
  {
    if |fields| == 0 then None
    else
      var n := |fields| - 1;
      var earlier := FirstWith(fields[..n], text);
      if earlier.Some? then earlier
      else if fields[n].Present? && fields[n].text == text then Some(n)
      else None
  }

  /** One entry for each dated record whose text occurred before, naming the first record with it. */
  function DuplicatesOf(fields: seq<DateField>): seq<Duplicate> {
    if |fields| == 0 then []
    else
      var n := |fields| - 1;
      var f := fields[n];
      DuplicatesOf(fields[..n]) +
      if f.Present? && FirstWith(fields[..n], f.text).Some?
      then [Duplicate(f.text, FirstWith(fields[..n], f.text).value + 1, n + 1)] else []
  }

  lemma FirstWithStep(fields: seq<DateField>, i: nat, text: string)
    requires i < |fields|
    ensures FirstWith(fields[..i + 1], text) ==
            if FirstWith(fields[..i], text).Some? then FirstWith(fields[..i], text)
            else if fields[i].Present? && fields[i].text == text then Some(i)
            else None
  {
    assert fields[..i + 1][..i] == fields[..i];
  }

  /** `seen` maps each text to the one-based index of its first record. */
  ghost predicate Knows(seen: map<string, nat>, fields: seq<DateField>) {
    forall t :: if t in seen then FirstWith(fields, t).Some? && seen[t] == FirstWith(fields, t).value + 1
                else FirstWith(fields, t).None?
  }

  lemma SeenStep(seen: map<string, nat>, fields: seq<DateField>, i: nat)
    requires i < |fields| && Knows(seen, fields[..i])
    ensures var f := fields[i];
            Knows(if f.Present? && f.text !in seen then seen[f.text := i + 1] else seen, fields[..i + 1])
  {
    forall t {
      FirstWithStep(fields, i, t);
    }
    hide FirstWith;
  }

  method CheckDuplicates(fields: seq<DateField>) returns (r: seq<Duplicate>)
    ensures r == DuplicatesOf(fields)
  {
    r := [];
    var seen: map<string, nat> := map[];
    for i := 0 to |fields|
      invariant r == DuplicatesOf(fields[..i])
      invariant Knows(seen, fields[..i])
    {
      assert fields[..i + 1][..i] == fields[..i];
      SeenStep(seen, fields, i);
      if fields[i].Present? {
        var text := fields[i].text;
        if text in seen {
          r := r + [Duplicate(text, seen[text], i + 1)];
        } else {
          seen := seen[text := i + 1];
        }
      }
    }
    assert fields[..|fields|] == fields;
  }

  function DatedCount(fields: seq<DateField>): nat {
    if |fields| == 0 then 0 else DatedCount(fields[..|fields| - 1]) + if fields[|fields| - 1].Present? then 1 else 0
  }

  function TextsOf(fields: seq<DateField>): set<string> {
    if |fields| == 0 then {}
    else
      var f := fields[|fields| - 1];
      TextsOf(fields[..|fields| - 1]) + if f.Present? then {f.text} else {}
  }

  lemma {:induction false} TextKnown(fields: seq<DateField>, text: string)
    ensures text in TextsOf(fields) <==> FirstWith(fields, text).Some?
  {
    if |fields| > 0 {
      TextKnown(fields[..|fields| - 1], text);
    }
  }

  predicate HasText(fields: seq<DateField>, i: nat, text: string) {
    i < |fields| && fields[i].Present? && fields[i].text == text
  }

  /** Each finding names, counted from one, a record and the first one before it with the same text. */
  lemma {:induction false} DuplicatesNameRecords(fields: seq<DateField>, k: nat)
    requires k < |DuplicatesOf(fields)|
    ensures var d := DuplicatesOf(fields)[k];
            && 0 < d.first < d.second <= |fields|
            && HasText(fields, d.first - 1, d.text) && HasText(fields, d.second - 1, d.text)
            && (forall i | 0 <= i < d.first - 1 :: !HasText(fields, i, d.text))
            && (k > 0 ==> DuplicatesOf(fields)[k - 1].second < d.second)
  {
    var n := |fields| - 1;
    var earlier := DuplicatesOf(fields[..n]);
    if k < |earlier| {
      DuplicatesNameRecords(fields[..n], k);
      assert forall i | 0 <= i < n :: HasText(fields[..n], i, earlier[k].text) == HasText(fields, i, earlier[k].text);
    } else if k > 0 {
      DuplicatesNameRecords(fields[..n], k - 1);
    }
  }

  /** V004 is raised once for every dated record beyond the distinct dates, so not at all exactly
      when the dates are distinct. */
  lemma {:induction false} DuplicatesCountRepeats(fields: seq<DateField>)
    ensures |DuplicatesOf(fields)| + |TextsOf(fields)| == DatedCount(fields)
  {
    if |fields| > 0 {
      var n := |fields| - 1;
      DuplicatesCountRepeats(fields[..n]);
      if fields[n].Present? {
        TextKnown(fields[..n], fields[n].text);
        if fields[n].text in TextsOf(fields[..n]) {
          assert TextsOf(fields) == TextsOf(fields[..n]);
        }
      }
    }
  }
}
