/** One person's status for one day, as the daily roster and as the monthly grid compute it. Days are ordinals, instants
    are microseconds, and local time is a fixed offset from them. */
module Absences {
  import opened Basics

  type Day = int
  type EmployeeId = nat

  const DAY: Time := 1440 * MINUTE

  datatype Status = Present | Late | Leave | Duty | Exempt | NotYet | Absent | NotEnrolled | Off

  datatype CountsAs = AsLeave | AsDuty

  datatype Absence = Absence(employee: EmployeeId, start: Day, end: Day, countsAs: CountsAs)

  datatype Scan = Scan(employee: Option<EmployeeId>, time: Time)

  /** `trackedFrom`: the day after the open mapping began, None without one. */
  datatype Person = Person(employee: EmployeeId, branch: string, exempt: bool, trackedFrom: Option<Day>)

  /** Times of day are whole minutes, 0 to 1439. */
  datatype Policy = Policy(offset: int, start: nat, end: nat, lateAfter: nat, workdays: set<int>, holidays: set<Day>) {
    predicate Valid() {
      start < 1440 && end < 1440 && lateAfter < 1440
    }
  }

  function LocalDay(pol: Policy, x: Time): Day {
    (x + pol.offset) / DAY
  }

  function LocalTime(pol: Policy, x: Time): int {
    (x + pol.offset) % DAY
  }

  /** Monday is 1, and the ordinals begin with a Monday. */
  function IsoWeekday(d: Day): (w: int)
    ensures 1 <= w <= 7 && (d - w) % 7 == 0
  {
    if d % 7 == 0 then 7 else d % 7
  }

  predicate IsWorkday(pol: Policy, d: Day) {
    IsoWeekday(d) in pol.workdays && d !in pol.holidays
  }

  /** Nobody is absent until the scan window has closed. */
  predicate BeforeCutoff(pol: Policy, now: Time, d: Day) {
    (LocalDay(pol, now) == d && LocalTime(pol, now) <= pol.end * MINUTE) || LocalDay(pol, now) < d
  }

  predicate Tracked(p: Person, d: Day) {
    p.trackedFrom.Some? && d >= p.trackedFrom.value
  }

  /** classify_person; the first scan is given by its local time of day. */
  function Classify(absence: Option<CountsAs>, exempt: bool, firstScan: Option<int>, workday: bool, lateAfter: int,
                    pending: bool, tracked: bool): Status
  {
    if absence.Some? then (if absence.value.AsLeave? then Leave else Duty)
    else if exempt then Exempt
    else if !tracked then (if workday then NotEnrolled else Off)
    else if firstScan.Some? then (if workday && firstScan.value > lateAfter then Late else Present)
    else if !workday then Off
    else if pending then NotYet
    else Absent
  }

  // ---- The two queries for the first scan ----

  function Earliest(scans: seq<Scan>, keep: Scan -> bool): Option<Time> {
    if scans == [] then None
    else
      var last := scans[|scans| - 1];
      var rest := Earliest(scans[..|scans| - 1], keep);
      if keep(last) && (rest.None? || last.time < rest.value) then Some(last.time) else rest
  }

  /** The least time among the scans kept, None if there are none. */
  lemma {:induction false} EarliestIsLeast(scans: seq<Scan>, keep: Scan -> bool)
    ensures var r := Earliest(scans, keep);
      && (r.None? <==> forall s | s in scans :: !keep(s))
      && (r.Some? ==> exists s :: s in scans && keep(s) && s.time == r.value)
      && (r.Some? ==> forall s | s in scans && keep(s) :: r.value <= s.time)
    decreases |scans|
  {
    if scans != [] {
      EarliestIsLeast(scans[..|scans| - 1], keep);
      assert scans == scans[..|scans| - 1] + [scans[|scans| - 1]];
    }
  }

  lemma {:induction false} EarliestSame(scans: seq<Scan>, f: Scan -> bool, g: Scan -> bool)
    requires forall s | s in scans :: f(s) == g(s)
    ensures Earliest(scans, f) == Earliest(scans, g)
    decreases |scans|
  {
    if scans != [] { EarliestSame(scans[..|scans| - 1], f, g); }
  }

  /** The day's window as two instants, [start, end + 1 minute). */
  predicate InDailyWindow(pol: Policy, e: EmployeeId, d: Day, s: Scan) {
    s.employee == Some(e)
    && d * DAY + pol.start * MINUTE - pol.offset <= s.time < d * DAY + (pol.end + 1) * MINUTE - pol.offset
  }

  /** The month's scans, grouped by local day and filtered by local time of day. */
  predicate InMonthlyWindow(pol: Policy, e: EmployeeId, d: Day, first: Day, next: Day, s: Scan) {
    && s.employee == Some(e) && LocalDay(pol, s.time) == d
    && first * DAY - pol.offset <= s.time < next * DAY - pol.offset
    && pol.start * MINUTE <= LocalTime(pol, s.time) < (pol.end + 1) % 1440 * MINUTE
  }

  function LocalTimeOf(pol: Policy, x: Option<Time>): Option<int> {
    if x.None? then None else Some(LocalTime(pol, x.value))
  }

  function DailyFirst(pol: Policy, e: EmployeeId, d: Day, scans: seq<Scan>): Option<int> {
    LocalTimeOf(pol, Earliest(scans, s => InDailyWindow(pol, e, d, s)))
  }

  function MonthlyFirst(pol: Policy, e: EmployeeId, d: Day, first: Day, next: Day, scans: seq<Scan>): Option<int> {
    LocalTimeOf(pol, Earliest(scans, s => InMonthlyWindow(pol, e, d, first, next, s)))
  }

  lemma WindowsAgree(pol: Policy, e: EmployeeId, d: Day, first: Day, next: Day, s: Scan)
    requires pol.Valid() && pol.end < 1439 && first <= d < next
    ensures InDailyWindow(pol, e, d, s) <==> InMonthlyWindow(pol, e, d, first, next, s)
  {
  }

  lemma FirstScansAgree(pol: Policy, e: EmployeeId, d: Day, first: Day, next: Day, scans: seq<Scan>)
    requires pol.Valid() && first <= d < next
    ensures pol.end < 1439 ==> MonthlyFirst(pol, e, d, first, next, scans) == DailyFirst(pol, e, d, scans)
    ensures pol.end == 1439 ==> MonthlyFirst(pol, e, d, first, next, scans) == None
  {
    if pol.end < 1439 {
      forall s | s in scans
        ensures InDailyWindow(pol, e, d, s) == InMonthlyWindow(pol, e, d, first, next, s)
      {
        WindowsAgree(pol, e, d, first, next, s);
      }
      EarliestSame(scans, s => InDailyWindow(pol, e, d, s), s => InMonthlyWindow(pol, e, d, first, next, s));
    } else {
      EarliestIsLeast(scans, s => InMonthlyWindow(pol, e, d, first, next, s));
    }
  }

  // ---- The two ways to find the absence ----

  predicate Covers(a: Absence, e: EmployeeId, d: Day) {
    a.employee == e && a.start <= d <= a.end
  }

  /** The outer join: a row per recorded absence covering the day, or one row without. */
  function Joined(absences: seq<Absence>, e: EmployeeId, d: Day): seq<Option<CountsAs>> {
    var found := Covering(absences, e, d);
    if found == [] then [None] else found
  }

  function Covering(absences: seq<Absence>, e: EmployeeId, d: Day): seq<Option<CountsAs>> {
    if absences == [] then []
    else (if Covers(absences[0], e, d) then [Some(absences[0].countsAs)] else []) + Covering(absences[1..], e, d)
  }

  /** The month's absences, of which the first covering one is taken. */
  function OfMonth(absences: seq<Absence>, first: Day, next: Day): seq<Absence> {
    if absences == [] then []
    else (if absences[0].end >= first && absences[0].start < next then [absences[0]] else [])
         + OfMonth(absences[1..], first, next)
  }

  function FirstCovering(absences: seq<Absence>, e: EmployeeId, d: Day): Option<CountsAs> {
    if absences == [] then None
    else if Covers(absences[0], e, d) then Some(absences[0].countsAs)
    else FirstCovering(absences[1..], e, d)
  }

  /** The exclusion constraint on recorded absences. */
  predicate NonOverlapping(absences: seq<Absence>) {
    forall i, j | 0 <= i < j < |absences| && absences[i].employee == absences[j].employee ::
      absences[i].end < absences[j].start || absences[j].end < absences[i].start
  }

  lemma {:induction false} NothingElseCovers(absences: seq<Absence>, e: EmployeeId, d: Day)
    requires forall a | a in absences :: !Covers(a, e, d)
    ensures Covering(absences, e, d) == []
    decreases |absences|
  {
    if absences != [] { NothingElseCovers(absences[1..], e, d); }
  }

  /** The month's absences miss none that covers a day of the month. */
  lemma {:induction false} MonthHasCovering(absences: seq<Absence>, e: EmployeeId, d: Day, first: Day, next: Day)
    requires first <= d < next
    ensures FirstCovering(OfMonth(absences, first, next), e, d) == FirstCovering(absences, e, d)
    decreases |absences|
  {
    if absences != [] {
      var rest := OfMonth(absences[1..], first, next);
      MonthHasCovering(absences[1..], e, d, first, next);
      if absences[0].end >= first && absences[0].start < next {
        assert OfMonth(absences, first, next)[0] == absences[0] && OfMonth(absences, first, next)[1..] == rest;
      } else {
        assert OfMonth(absences, first, next) == rest;
      }
    }
  }

  /** Without overlaps a person has one row in the roster, with the absence that a search would find first. */
  lemma {:induction false} OneRowEach(absences: seq<Absence>, e: EmployeeId, d: Day)
    requires NonOverlapping(absences)
    ensures Joined(absences, e, d) == [FirstCovering(absences, e, d)]
    decreases |absences|
  {
    if absences != [] {
      var rest := absences[1..];
      OneRowEach(rest, e, d);
      if Covers(absences[0], e, d) {
        forall a | a in rest
          ensures !Covers(a, e, d)
        {
          var j :| 0 <= j < |rest| && rest[j] == a;
          assert absences[j + 1] == a;
        }
        NothingElseCovers(rest, e, d);
      } else {
        assert Covering(absences, e, d) == Covering(rest, e, d);
      }
    }
  }

  // ---- The two statuses ----

  function DailyStatus(pol: Policy, now: Time, p: Person, absence: Option<CountsAs>, scans: seq<Scan>, d: Day): Status {
    Classify(absence, p.exempt, DailyFirst(pol, p.employee, d, scans), IsWorkday(pol, d), pol.lateAfter * MINUTE,
             BeforeCutoff(pol, now, d), Tracked(p, d))
  }

  predicate Uncounted(countingStart: Option<Day>, d: Day) {
    countingStart.Some? && d < countingStart.value
  }

  /** Leave, duty and exemption on a day off are just a day off. */
  function Folded(s: Status, workday: bool): Status {
    if !workday && (s.Leave? || s.Duty? || s.Exempt?) then Off else s
  }

  function MonthlyStatus(pol: Policy, now: Time, countingStart: Option<Day>, p: Person, absence: Option<CountsAs>,
                         scans: seq<Scan>, d: Day, first: Day, next: Day): Status
  {
    var pending := LocalDay(pol, now) < d || (LocalDay(pol, now) == d && LocalTime(pol, now) <= pol.end * MINUTE)
                   || Uncounted(countingStart, d);
    Folded(Classify(absence, p.exempt, MonthlyFirst(pol, p.employee, d, first, next, scans), IsWorkday(pol, d),
                    pol.lateAfter * MINUTE, pending, Tracked(p, d)),
           IsWorkday(pol, d))
  }

  /** The cutoff is an instant: the end of the scan window on that day, inclusive. */
  lemma CutoffIs(pol: Policy, now: Time, d: Day)
    requires pol.Valid()
    ensures BeforeCutoff(pol, now, d) <==> now + pol.offset <= d * DAY + pol.end * MINUTE
  {
  }

  /** A scan in the window is a scan of that local day whose minute of the day lies between the window's two ends, both
      inclusive. */
  lemma WindowIs(pol: Policy, e: EmployeeId, d: Day, s: Scan)
    requires pol.Valid()
    ensures InDailyWindow(pol, e, d, s) <==>
      s.employee == Some(e) && LocalDay(pol, s.time) == d && pol.start <= LocalTime(pol, s.time) / MINUTE <= pol.end
  {
  }

  /** The absence found is one that covers the day, and is found exactly if there is one. */
  lemma {:induction false} FirstCoveringIs(absences: seq<Absence>, e: EmployeeId, d: Day)
    ensures var r := FirstCovering(absences, e, d);
      && (r.Some? <==> exists a :: a in absences && a.employee == e && a.start <= d && d <= a.end)
      && (r.Some? ==> exists a :: a in absences && a.employee == e && a.start <= d && d <= a.end
                                  && a.countsAs == r.value)
    decreases |absences|
  {
    if absences != [] {
      FirstCoveringIs(absences[1..], e, d);
      assert absences == [absences[0]] + absences[1..];
    }
  }

  /** Everybody's status, each with exactly when it is that. A recorded absence goes first, then exemption, then whether
      the person is tracked at all, and only then the scans. */
  lemma StatusMeans(pol: Policy, now: Time, p: Person, absence: Option<CountsAs>, scans: seq<Scan>, d: Day)
    ensures var s := DailyStatus(pol, now, p, absence, scans, d);
      var workday := IsoWeekday(d) in pol.workdays && d !in pol.holidays;
      var plain := absence.None? && !p.exempt;
      var tracked := plain && p.trackedFrom.Some? && p.trackedFrom.value <= d;
      var seen := exists x :: x in scans && InDailyWindow(pol, p.employee, d, x);
      && (s.Leave? <==> absence == Some(AsLeave)) && (s.Duty? <==> absence == Some(AsDuty))
      && (s.Exempt? <==> absence.None? && p.exempt)
      && (s.NotEnrolled? <==> plain && !tracked && workday)
      && (s.Off? <==> plain && !workday && !(tracked && seen))
      && (s.Present? || s.Late? <==> tracked && seen)
      && (s.Late? ==> workday)
      && (s.NotYet? <==> tracked && !seen && workday && BeforeCutoff(pol, now, d))
      && (s.Absent? <==> tracked && !seen && workday && !BeforeCutoff(pol, now, d))
  {
    EarliestIsLeast(scans, s => InDailyWindow(pol, p.employee, d, s));
  }

  /** Who is late and who is absent on a day: only people held to scanning that day, with no absence recorded, by their
      first scan in the window; and absent only once the window has closed. */
  lemma LateAndAbsentMean(pol: Policy, now: Time, p: Person, absence: Option<CountsAs>, scans: seq<Scan>, d: Day)
    ensures var held := IsWorkday(pol, d) && absence.None? && !p.exempt && Tracked(p, d);
      var s := DailyStatus(pol, now, p, absence, scans, d);
      && (s.Absent? <==>
           held && !BeforeCutoff(pol, now, d) && forall x | x in scans :: !InDailyWindow(pol, p.employee, d, x))
      && (s.Late? <==>
           && held && (exists x :: x in scans && InDailyWindow(pol, p.employee, d, x))
           && exists x :: x in scans && InDailyWindow(pol, p.employee, d, x) && IsFirst(pol, p.employee, d, scans, x)
                          && LocalTime(pol, x.time) > pol.lateAfter * MINUTE)
  {
    EarliestIsLeast(scans, s => InDailyWindow(pol, p.employee, d, s));
  }

  predicate IsFirst(pol: Policy, e: EmployeeId, d: Day, scans: seq<Scan>, x: Scan) {
    forall y | y in scans && InDailyWindow(pol, e, d, y) :: x.time <= y.time
  }

  /** And everybody's cell of the month: the same, but that days off swallow leave, duty and exemption, days before
      counting began are still open, and a window up to 23:59 shows no scans. */
  lemma CellMeans(pol: Policy, now: Time, countingStart: Option<Day>, p: Person, absence: Option<CountsAs>,
                  scans: seq<Scan>, d: Day, first: Day, next: Day)
    requires pol.Valid() && first <= d < next
    ensures var s := MonthlyStatus(pol, now, countingStart, p, absence, scans, d, first, next);
      var workday := IsoWeekday(d) in pol.workdays && d !in pol.holidays;
      var plain := absence.None? && !p.exempt;
      var tracked := plain && p.trackedFrom.Some? && p.trackedFrom.value <= d;
      var seen := pol.end != 1439 && exists x :: x in scans && InDailyWindow(pol, p.employee, d, x);
      var open := BeforeCutoff(pol, now, d) || (countingStart.Some? && d < countingStart.value);
      && (s.Leave? <==> workday && absence == Some(AsLeave)) && (s.Duty? <==> workday && absence == Some(AsDuty))
      && (s.Exempt? <==> workday && absence.None? && p.exempt)
      && (s.NotEnrolled? <==> plain && !tracked && workday)
      && (s.Off? <==> !workday && !(tracked && seen))
      && (s.Present? || s.Late? <==> tracked && seen)
      && (s.NotYet? <==> tracked && !seen && workday && open)
      && (s.Absent? <==> tracked && !seen && workday && !open)
  {
    EarliestIsLeast(scans, s => InDailyWindow(pol, p.employee, d, s));
    FirstScansAgree(pol, p.employee, d, first, next, scans);
  }

  // ---- The grid refines the roster ----

  /** A cell of the grid is the roster's status, folded, except in two cases: an absence on a day before counting began
      is shown as pending, and with a scan window up to 23:59 the grid sees no scan at all. */
  lemma CellAgreesIff(pol: Policy, now: Time, countingStart: Option<Day>, p: Person, absence: Option<CountsAs>,
                      scans: seq<Scan>, d: Day, first: Day, next: Day)
    requires pol.Valid() && first <= d < next
    ensures var daily := DailyStatus(pol, now, p, absence, scans, d);
      MonthlyStatus(pol, now, countingStart, p, absence, scans, d, first, next) == Folded(daily, IsWorkday(pol, d)) <==>
      !(daily.Absent? && Uncounted(countingStart, d)) && !(pol.end == 1439 && (daily.Present? || daily.Late?))
  {
    FirstScansAgree(pol, p.employee, d, first, next, scans);
  }

  /** Every day of the month agrees with the roster for that day, whoever is on the roll, whatever is recorded of them
      and whenever it is asked for. */
  lemma GridRefinesRoster(pol: Policy, now: Time, countingStart: Option<Day>, p: Person, absences: seq<Absence>,
                          scans: seq<Scan>, d: Day, first: Day, next: Day)
    requires pol.Valid() && first <= d < next && NonOverlapping(absences)
    requires pol.end < 1439 && !Uncounted(countingStart, d)
    ensures var rows := Joined(absences, p.employee, d);
      var inMonth := FirstCovering(OfMonth(absences, first, next), p.employee, d);
      && |rows| == 1
      && MonthlyStatus(pol, now, countingStart, p, inMonth, scans, d, first, next)
         == Folded(DailyStatus(pol, now, p, rows[0], scans, d), IsWorkday(pol, d))
  {
    OneRowEach(absences, p.employee, d);
    MonthHasCovering(absences, p.employee, d, first, next);
    CellAgreesIff(pol, now, countingStart, p, Joined(absences, p.employee, d)[0], scans, d, first, next);
  }

  /** For which configurations a day's column agrees for everybody: the window must close before 23:59, and the day must
      be counted unless nobody could be absent on it yet. */
  lemma ColumnAgreesIff(pol: Policy, now: Time, countingStart: Option<Day>, d: Day, first: Day, next: Day)
    requires pol.Valid() && first <= d < next && pol.start <= pol.end
    ensures
      (forall p: Person, absence: Option<CountsAs>, scans: seq<Scan> ::
         MonthlyStatus(pol, now, countingStart, p, absence, scans, d, first, next)
         == Folded(DailyStatus(pol, now, p, absence, scans, d), IsWorkday(pol, d)))
      <==> pol.end < 1439 && (Uncounted(countingStart, d) && IsWorkday(pol, d) ==> BeforeCutoff(pol, now, d))
  {
    forall p: Person, absence: Option<CountsAs>, scans: seq<Scan>
      ensures var daily := DailyStatus(pol, now, p, absence, scans, d);
        MonthlyStatus(pol, now, countingStart, p, absence, scans, d, first, next) == Folded(daily, IsWorkday(pol, d))
        <==>
        !(daily.Absent? && Uncounted(countingStart, d)) && !(pol.end == 1439 && (daily.Present? || daily.Late?))
    {
      CellAgreesIff(pol, now, countingStart, p, absence, scans, d, first, next);
    }
    var p := Person(0, "", false, Some(d));
    var absent := DailyStatus(pol, now, p, None, [], d);
    var scan := Scan(Some(0), d * DAY + pol.start * MINUTE - pol.offset);
    var present := DailyStatus(pol, now, p, None, [scan], d);
    assert absent.Absent? <==> IsWorkday(pol, d) && !BeforeCutoff(pol, now, d);
    EarliestIsLeast([scan], s => InDailyWindow(pol, 0, d, s));
    assert InDailyWindow(pol, 0, d, scan) && scan in [scan];
    assert present.Present? || present.Late?;
  }
}
