/** The loops that fill the daily roster's totals and the monthly grid, with the counts they keep. */
module AbsenceReports {
  import opened Basics
  import opened Absences

  /** A status counter: the code's dictionaries hold all nine statuses from the start. */
  type Counts = map<Status, nat>

  function Count(statuses: seq<Status>, s: Status): nat {
    if statuses == [] then 0
    else Count(statuses[..|statuses| - 1], s) + if statuses[|statuses| - 1] == s then 1 else 0
  }

  predicate CountsOf(c: Counts, statuses: seq<Status>) {
    forall s: Status :: s in c && c[s] == Count(statuses, s)
  }

  function SumOf(c: Counts): nat
    requires forall s: Status :: s in c
  {
    c[Present] + c[Late] + c[Leave] + c[Duty] + c[Exempt] + c[NotYet] + c[Absent] + c[NotEnrolled] + c[Off]
  }

  lemma CountSnoc(statuses: seq<Status>, last: Status, s: Status)
    ensures Count(statuses + [last], s) == Count(statuses, s) + if last == s then 1 else 0
  {
  }

  function Places(statuses: seq<Status>, s: Status): set<nat> {
    set i: nat | i < |statuses| && statuses[i] == s
  }

  lemma PlacesSnoc(statuses: seq<Status>, last: Status, s: Status)
    ensures |Places(statuses + [last], s)| == |Places(statuses, s)| + if last == s then 1 else 0
  {
    var n: nat := |statuses|;
    assert Places(statuses + [last], s) == Places(statuses, s) + if last == s then {n} else {};
  }

  /** A count is the number of places with that status. */
  lemma {:induction false} CountIs(statuses: seq<Status>, s: Status)
    ensures Count(statuses, s) == |Places(statuses, s)|
    decreases |statuses|
  {
    if statuses == [] {
      assert Places(statuses, s) == {};
    } else {
      var front, last := statuses[..|statuses| - 1], statuses[|statuses| - 1];
      CountIs(front, s);
      PlacesSnoc(front, last, s);
      CountSnoc(front, last, s);
      assert statuses == front + [last];
    }
  }

  lemma {:induction false} CountOfBoth(a: seq<Status>, b: seq<Status>, s: Status)
    ensures Count(a + b, s) == Count(a, s) + Count(b, s)
    decreases |b|
  {
    if b == [] {
      assert a + b == a;
    } else {
      CountOfBoth(a, b[..|b| - 1], s);
      assert (a + b)[..|a + b| - 1] == a + b[..|b| - 1];
    }
  }

  function SumCount(statuses: seq<Status>): nat {
    Count(statuses, Present) + Count(statuses, Late) + Count(statuses, Leave) + Count(statuses, Duty)
    + Count(statuses, Exempt) + Count(statuses, NotYet) + Count(statuses, Absent) + Count(statuses, NotEnrolled)
    + Count(statuses, Off)
  }

  /** Every status is counted once, under its own name. */
  lemma {:induction false} CountsAddUp(statuses: seq<Status>)
    ensures SumCount(statuses) == |statuses|
    decreases |statuses|
  {
    if statuses != [] { CountsAddUp(statuses[..|statuses| - 1]); }
  }

  method NewCounts() returns (c: Counts)
    ensures CountsOf(c, [])
  {
    c := map[];
    var all := [Present, Late, Leave, Duty, Exempt, NotYet, Absent, NotEnrolled, Off];
    for i := 0 to |all|
      invariant forall k | 0 <= k < i :: all[k] in c
      invariant forall s | s in c :: c[s] == 0
    {
      c := c[all[i] := 0];
    }
    forall s: Status
      ensures s in c
    {
      var k := if s.Present? then 0 else if s.Late? then 1 else if s.Leave? then 2 else if s.Duty? then 3
               else if s.Exempt? then 4 else if s.NotYet? then 5 else if s.Absent? then 6
               else if s.NotEnrolled? then 7 else 8;
      assert all[k] == s;
    }
  }

  // ---- Branch buckets ----

  /** What one row of a report adds to its branch's bucket. */
  datatype Row = Row(branch: string, statuses: seq<Status>)

  function CountIn(rows: seq<Row>, branch: string, s: Status): nat {
    if rows == [] then 0
    else
      var last := rows[|rows| - 1];
      CountIn(rows[..|rows| - 1], branch, s) + if last.branch == branch then Count(last.statuses, s) else 0
  }

  function Total(rows: seq<Row>, s: Status): nat {
    if rows == [] then 0 else Total(rows[..|rows| - 1], s) + Count(rows[|rows| - 1].statuses, s)
  }

  predicate Listed(rows: seq<Row>, branch: string) {
    exists i :: 0 <= i < |rows| && rows[i].branch == branch
  }

  /** The buckets, with their branches in the order in which they first appear. */
  datatype Buckets = Buckets(order: seq<string>, counts: map<string, Counts>)

  ghost predicate Keyed(b: Buckets) {
    && (forall k :: k in b.order <==> k in b.counts)
    && (forall i, j | 0 <= i < j < |b.order| :: b.order[i] != b.order[j])
  }

  ghost predicate BucketsOf(b: Buckets, rows: seq<Row>) {
    && Keyed(b)
    && (forall k :: k in b.counts <==> Listed(rows, k))
    && (forall k, s: Status | k in b.counts :: s in b.counts[k] && b.counts[k][s] == CountIn(rows, k, s))
  }

  lemma {:induction false} UnlistedIsZero(rows: seq<Row>, branch: string, s: Status)
    requires !Listed(rows, branch)
    ensures CountIn(rows, branch, s) == 0
    decreases |rows|
  {
    if rows != [] { UnlistedIsZero(rows[..|rows| - 1], branch, s); }
  }

  /** setdefault, then adding the row's counts to the branch's bucket. */
  method AddToBucket(b: Buckets, ghost rows: seq<Row>, branch: string, counts: Counts, ghost statuses: seq<Status>)
    returns (c: Buckets)
    requires BucketsOf(b, rows) && CountsOf(counts, statuses)
    ensures BucketsOf(c, rows + [Row(branch, statuses)])
  {
    var order := b.order;
    var bucket;
    if branch in b.counts {
      bucket := b.counts[branch];
    } else {
      bucket := NewCounts();
      order := order + [branch];
    }
    ghost var before := bucket;
    var rest := counts.Keys;
    while rest != {}
      invariant rest <= counts.Keys
      invariant forall s: Status :: s in bucket && s in before
      invariant forall s: Status :: bucket[s] == if s in rest then before[s] else before[s] + counts[s]
    {
      var s :| s in rest;
      bucket := bucket[s := bucket[s] + counts[s]];
      rest := rest - {s};
    }
    c := Buckets(order, b.counts[branch := bucket]);
    AddedIsRight(b, c, rows, Row(branch, statuses));
  }

  lemma AddedIsRight(b: Buckets, c: Buckets, rows: seq<Row>, r: Row)
    requires BucketsOf(b, rows)
    requires c.order == if r.branch in b.counts then b.order else b.order + [r.branch]
    requires c.counts.Keys == b.counts.Keys + {r.branch}
    requires forall k | k in b.counts && k != r.branch :: c.counts[k] == b.counts[k]
    requires forall s: Status ::
      && s in c.counts[r.branch]
      && c.counts[r.branch][s] == (if r.branch in b.counts then b.counts[r.branch][s] else 0) + Count(r.statuses, s)
    ensures BucketsOf(c, rows + [r])
  {
    var all := rows + [r];
    assert all[..|rows|] == rows && all[|rows|] == r;
    forall k
      ensures Listed(all, k) <==> Listed(rows, k) || k == r.branch
    {
      if Listed(rows, k) {
        var i :| 0 <= i < |rows| && rows[i].branch == k;
        assert all[i].branch == k;
      }
    }
    forall k, s: Status | k in c.counts
      ensures s in c.counts[k] && c.counts[k][s] == CountIn(all, k, s)
    {
      if k !in b.counts { UnlistedIsZero(rows, k, s); }
    }
  }

  function SumAt(order: seq<string>, counts: map<string, Counts>, s: Status): nat
    requires forall k | k in order :: k in counts && s in counts[k]
  {
    if order == [] then 0 else SumAt(order[..|order| - 1], counts, s) + counts[order[|order| - 1]][s]
  }

  function SumIn(order: seq<string>, rows: seq<Row>, s: Status): nat {
    if order == [] then 0 else SumIn(order[..|order| - 1], rows, s) + CountIn(rows, order[|order| - 1], s)
  }

  /** One more row is counted under exactly one of the branches. */
  lemma {:induction false} SumInSnoc(order: seq<string>, rows: seq<Row>, r: Row, s: Status)
    requires forall i, j | 0 <= i < j < |order| :: order[i] != order[j]
    ensures SumIn(order, rows + [r], s) == SumIn(order, rows, s) + if r.branch in order then Count(r.statuses, s) else 0
    decreases |order|
  {
    assert (rows + [r])[..|rows|] == rows;
    if order != [] {
      var front, last := order[..|order| - 1], order[|order| - 1];
      assert order == front + [last];
      SumInSnoc(front, rows, r, s);
    }
  }

  lemma {:induction false} NoRowsSum(order: seq<string>, s: Status)
    ensures SumIn(order, [], s) == 0
    decreases |order|
  {
    if order != [] { NoRowsSum(order[..|order| - 1], s); }
  }

  lemma {:induction false} SumInIsTotal(order: seq<string>, rows: seq<Row>, s: Status)
    requires forall i, j | 0 <= i < j < |order| :: order[i] != order[j]
    requires forall r | r in rows :: r.branch in order
    ensures SumIn(order, rows, s) == Total(rows, s)
    decreases |rows|
  {
    if rows == [] {
      NoRowsSum(order, s);
    } else {
      var front, last := rows[..|rows| - 1], rows[|rows| - 1];
      assert rows == front + [last];
      SumInIsTotal(order, front, s);
      SumInSnoc(order, front, last, s);
    }
  }

  lemma {:induction false} SumAtIsSumIn(order: seq<string>, counts: map<string, Counts>, rows: seq<Row>, s: Status)
    requires forall k | k in order :: k in counts && s in counts[k] && counts[k][s] == CountIn(rows, k, s)
    ensures SumAt(order, counts, s) == SumIn(order, rows, s)
    decreases |order|
  {
    if order != [] {
      assert order[|order| - 1] in order;
      SumAtIsSumIn(order[..|order| - 1], counts, rows, s);
    }
  }

  /** The buckets hold everything the rows hold: nothing is lost between branches and nothing counted twice. */
  lemma BucketsConserve(b: Buckets, rows: seq<Row>, s: Status)
    requires BucketsOf(b, rows)
    ensures SumAt(b.order, b.counts, s) == Total(rows, s)
  {
    SumAtIsSumIn(b.order, b.counts, rows, s);
    forall r | r in rows
      ensures r.branch in b.order
    {
      var i :| 0 <= i < |rows| && rows[i] == r;
      assert Listed(rows, r.branch);
    }
    SumInIsTotal(b.order, rows, s);
  }

  // ---- The daily roster ----

  function Shown(branch: string): string {
    if branch == "" then "\U{2014}" else branch
  }

  /** A person with the absence the query joined to it. */
  datatype Entry = Entry(person: Person, absence: Option<CountsAs>)

  function EntryStatus(pol: Policy, now: Time, d: Day, e: Entry, scans: seq<Scan>): Status {
    DailyStatus(pol, now, e.person, e.absence, scans, d)
  }

  /** The statuses of all rows, in order. */
  function Statuses(pol: Policy, now: Time, d: Day, entries: seq<Entry>, scans: seq<Scan>): (r: seq<Status>)
    ensures |r| == |entries|
  {
    if entries == [] then []
    else
      var n := |entries| - 1;
      Statuses(pol, now, d, entries[..n], scans) + [EntryStatus(pol, now, d, entries[n], scans)]
  }

  /** Row k of the roster is the status of its own person, with the absence joined to it. */
  lemma {:induction false} StatusAt(pol: Policy, now: Time, d: Day, entries: seq<Entry>, scans: seq<Scan>, k: nat)
    requires k < |entries|
    ensures Statuses(pol, now, d, entries, scans)[k]
         == DailyStatus(pol, now, entries[k].person, entries[k].absence, scans, d)
    decreases |entries|
  {
    if k < |entries| - 1 { StatusAt(pol, now, d, entries[..|entries| - 1], scans, k); }
  }

  /** The person is listed under that branch; people without one go under a dash. */
  predicate Under(p: Person, branch: string) {
    branch == if p.branch == "" then "\U{2014}" else p.branch
  }

  /** The statuses of a branch's people, in order. */
  function StatusesOf(entries: seq<Entry>, statuses: seq<Status>, branch: string): seq<Status>
    requires |entries| == |statuses|
  {
    if entries == [] then []
    else
      var n := |entries| - 1;
      StatusesOf(entries[..n], statuses[..n], branch) + if Under(entries[n].person, branch) then [statuses[n]] else []
  }

  lemma DailyCountSnoc(entries: seq<Entry>, statuses: seq<Status>, branch: string, s: Status)
    requires |entries| == |statuses| && entries != []
    ensures var n := |entries| - 1;
      CountIn(DailyRows(entries, statuses), branch, s) == CountIn(DailyRows(entries[..n], statuses[..n]), branch, s)
        + if statuses[n] == s && Under(entries[n].person, branch) then 1 else 0
  {
    var n := |entries| - 1;
    var rows, r := DailyRows(entries[..n], statuses[..n]), Row(Shown(entries[n].person.branch), [statuses[n]]);
    assert (rows + [r])[..|rows|] == rows && (rows + [r])[|rows|] == r;
    CountSnoc([], statuses[n], s);
    assert [] + [statuses[n]] == [statuses[n]];
  }

  /** A branch's count is the count over the statuses of its people. */
  lemma {:induction false} DailyCountIs(entries: seq<Entry>, statuses: seq<Status>, branch: string, s: Status)
    requires |entries| == |statuses|
    ensures CountIn(DailyRows(entries, statuses), branch, s) == Count(StatusesOf(entries, statuses, branch), s)
    decreases |entries|
  {
    if entries != [] {
      var n := |entries| - 1;
      var before := StatusesOf(entries[..n], statuses[..n], branch);
      DailyCountIs(entries[..n], statuses[..n], branch, s);
      DailyCountSnoc(entries, statuses, branch, s);
      CountSnoc(before, statuses[n], s);
      assert before + [] == before;
    }
  }

  function DailyRows(entries: seq<Entry>, statuses: seq<Status>): seq<Row>
    requires |entries| == |statuses|
  {
    if entries == [] then []
    else
      var n := |entries| - 1;
      DailyRows(entries[..n], statuses[..n]) + [Row(Shown(entries[n].person.branch), [statuses[n]])]
  }

  method DailyRoster(pol: Policy, now: Time, d: Day, entries: seq<Entry>, scans: seq<Scan>)
    returns (statuses: seq<Status>, totals: Counts, byBranch: Buckets)
    ensures statuses == Statuses(pol, now, d, entries, scans)
    ensures CountsOf(totals, statuses)
    ensures BucketsOf(byBranch, DailyRows(entries, statuses))
  {
    statuses, byBranch := [], Buckets([], map[]);
    totals := NewCounts();
    var i := 0;
    while i < |entries|
      invariant i <= |entries| && |statuses| == i && statuses == Statuses(pol, now, d, entries[..i], scans)
      invariant CountsOf(totals, statuses)
      invariant BucketsOf(byBranch, DailyRows(entries[..i], statuses))
    {
      var status := RowStatus(pol, now, d, entries[i], scans);
      totals := CountOne(totals, statuses, status);
      var one := NewCounts();
      one := CountOne(one, [], status);
      assert [] + [status] == [status];
      byBranch := AddToBucket(byBranch, DailyRows(entries[..i], statuses), Shown(entries[i].person.branch), one,
                              [status]);
      assert entries[..i + 1][..i] == entries[..i] && (statuses + [status])[..i] == statuses;
      statuses := statuses + [status];
      i := i + 1;
    }
    assert entries[..i] == entries;
  }

  method RowStatus(pol: Policy, now: Time, d: Day, e: Entry, scans: seq<Scan>) returns (status: Status)
    ensures status == EntryStatus(pol, now, d, e, scans)
  {
    var p := e.person;
    status := Classify(e.absence, p.exempt, DailyFirst(pol, p.employee, d, scans), IsWorkday(pol, d),
                       pol.lateAfter * MINUTE, BeforeCutoff(pol, now, d), Tracked(p, d));
  }

  method CountOne(counts: Counts, ghost statuses: seq<Status>, status: Status) returns (c: Counts)
    requires CountsOf(counts, statuses)
    ensures CountsOf(c, statuses + [status])
  {
    c := counts[status := counts[status] + 1];
    forall s: Status
      ensures Count(statuses + [status], s) == Count(statuses, s) + if status == s then 1 else 0
    {
      CountSnoc(statuses, status, s);
    }
  }

  lemma {:induction false} DailyTotal(entries: seq<Entry>, statuses: seq<Status>, s: Status)
    requires |entries| == |statuses|
    ensures Total(DailyRows(entries, statuses), s) == Count(statuses, s)
    decreases |entries|
  {
    if entries != [] {
      var n := |entries| - 1;
      DailyTotal(entries[..n], statuses[..n], s);
      CountSnoc([], statuses[n], s);
      assert [] + [statuses[n]] == [statuses[n]];
    }
  }

  /** The roster's totals count every row of the roster once, and its branches together count what the totals count. */
  lemma {:induction false} RosterConserves(entries: seq<Entry>, statuses: seq<Status>, totals: Counts,
                                           byBranch: Buckets, s: Status)
    requires |entries| == |statuses| && CountsOf(totals, statuses) && BucketsOf(byBranch, DailyRows(entries, statuses))
    ensures SumOf(totals) == |entries|
    ensures SumAt(byBranch.order, byBranch.counts, s) == totals[s]
  {
    CountsAddUp(statuses);
    DailyTotal(entries, statuses, s);
    BucketsConserve(byBranch, DailyRows(entries, statuses), s);
  }

  // ---- The monthly grid ----

  datatype Line = Line(days: seq<Status>, counts: Counts)

  /** What the grid is made from. */
  datatype Facts = Facts(pol: Policy, now: Time, countingStart: Option<Day>, absences: seq<Absence>, scans: seq<Scan>,
                         first: Day, next: Day)

  function Cell(f: Facts, p: Person, d: Day): Status {
    MonthlyStatus(f.pol, f.now, f.countingStart, p, FirstCovering(OfMonth(f.absences, f.first, f.next), p.employee, d),
                  f.scans, d, f.first, f.next)
  }

  /** The cells of the first n days. */
  function Cells(f: Facts, p: Person, n: nat): (r: seq<Status>)
    ensures |r| == n
  {
    if n == 0 then [] else Cells(f, p, n - 1) + [Cell(f, p, f.first + n - 1)]
  }

  /** Cell n of a line is the status of that person on the n-th day, with the first absence that covers it. */
  lemma {:induction false} CellAt(f: Facts, p: Person, n: nat, i: nat)
    requires i < n && f.first + n <= f.next
    ensures Cells(f, p, n)[i]
         == MonthlyStatus(f.pol, f.now, f.countingStart, p, FirstCovering(f.absences, p.employee, f.first + i), f.scans,
                          f.first + i, f.first, f.next)
    decreases n
  {
    MonthHasCovering(f.absences, p.employee, f.first + i, f.first, f.next);
    if i < n - 1 { CellAt(f, p, n - 1, i); }
  }

  lemma NextCell(f: Facts, p: Person, n: nat)
    ensures Cells(f, p, n + 1) == Cells(f, p, n) + [Cell(f, p, f.first + n)]
  {
  }

  method DayCell(f: Facts, p: Person, d: Day) returns (status: Status)
    ensures status == Cell(f, p, d)
  {
    var pol := f.pol;
    var countsAs := FirstCovering(OfMonth(f.absences, f.first, f.next), p.employee, d);
    var pending := LocalDay(pol, f.now) < d || (LocalDay(pol, f.now) == d && LocalTime(pol, f.now) <= pol.end * MINUTE);
    if f.countingStart.Some? && d < f.countingStart.value { pending := true; }
    status := Classify(countsAs, p.exempt, MonthlyFirst(pol, p.employee, d, f.first, f.next, f.scans),
                       IsWorkday(pol, d), pol.lateAfter * MINUTE, pending, Tracked(p, d));
    if !IsWorkday(pol, d) && (status.Leave? || status.Duty? || status.Exempt?) { status := Off; }
  }

  predicate IsLine(f: Facts, p: Person, line: Line)
    requires f.first <= f.next
  {
    line.days == Cells(f, p, f.next - f.first) && CountsOf(line.counts, line.days)
  }

  method PersonMonth(f: Facts, p: Person) returns (line: Line)
    requires f.first <= f.next
    ensures IsLine(f, p, line)
  {
    var statuses := [];
    var counts := NewCounts();
    var n := 0;
    while n < f.next - f.first
      invariant n <= f.next - f.first && statuses == Cells(f, p, n) && CountsOf(counts, statuses)
    {
      var status := DayCell(f, p, f.first + n);
      counts := CountOne(counts, statuses, status);
      NextCell(f, p, n);
      statuses := statuses + [status];
      n := n + 1;
    }
    line := Line(statuses, counts);
  }

  function MonthRows(people: seq<Person>, lines: seq<Line>): seq<Row>
    requires |people| == |lines|
  {
    if people == [] then []
    else
      var n := |people| - 1;
      MonthRows(people[..n], lines[..n]) + [Row(Shown(people[n].branch), lines[n].days)]
  }

  /** The cells of a branch's people, line after line. */
  function DaysOf(people: seq<Person>, lines: seq<Line>, branch: string): seq<Status>
    requires |people| == |lines|
  {
    if people == [] then []
    else
      var n := |people| - 1;
      DaysOf(people[..n], lines[..n], branch) + if Under(people[n], branch) then lines[n].days else []
  }

  lemma MonthCountSnoc(people: seq<Person>, lines: seq<Line>, branch: string, s: Status)
    requires |people| == |lines| && people != []
    ensures var n := |people| - 1;
      CountIn(MonthRows(people, lines), branch, s) == CountIn(MonthRows(people[..n], lines[..n]), branch, s)
        + if Under(people[n], branch) then Count(lines[n].days, s) else 0
  {
    var n := |people| - 1;
    var rows, r := MonthRows(people[..n], lines[..n]), Row(Shown(people[n].branch), lines[n].days);
    assert (rows + [r])[..|rows|] == rows && (rows + [r])[|rows|] == r;
  }

  /** A branch's count over the month is the count over the cells of its people. */
  lemma {:induction false} MonthCountIs(people: seq<Person>, lines: seq<Line>, branch: string, s: Status)
    requires |people| == |lines|
    ensures CountIn(MonthRows(people, lines), branch, s) == Count(DaysOf(people, lines, branch), s)
    decreases |people|
  {
    if people != [] {
      var n := |people| - 1;
      var before := DaysOf(people[..n], lines[..n], branch);
      MonthCountIs(people[..n], lines[..n], branch, s);
      MonthCountSnoc(people, lines, branch, s);
      CountOfBoth(before, lines[n].days, s);
      assert before + [] == before;
    }
  }

  method AddLine(b: Buckets, people: seq<Person>, ghost lines: seq<Line>, i: nat, line: Line) returns (c: Buckets)
    requires i < |people| && |lines| == i && CountsOf(line.counts, line.days)
    requires BucketsOf(b, MonthRows(people[..i], lines))
    ensures BucketsOf(c, MonthRows(people[..i + 1], lines + [line]))
  {
    c := AddToBucket(b, MonthRows(people[..i], lines), Shown(people[i].branch), line.counts, line.days);
    assert people[..i + 1][..i] == people[..i] && (lines + [line])[..i] == lines;
  }

  /** Line k is the line of person k. */
  predicate AreLines(f: Facts, people: seq<Person>, lines: seq<Line>)
    requires f.first <= f.next
  {
    |people| == |lines|
    && (people != [] ==>
         var n := |people| - 1;
         AreLines(f, people[..n], lines[..n]) && IsLine(f, people[n], lines[n]))
  }

  method MonthlyReport(f: Facts, people: seq<Person>) returns (lines: seq<Line>, byBranch: Buckets)
    requires f.first <= f.next
    ensures AreLines(f, people, lines)
    ensures BucketsOf(byBranch, MonthRows(people, lines))
  {
    lines, byBranch := [], Buckets([], map[]);
    var i := 0;
    while i < |people|
      invariant i <= |people| && |lines| == i && AreLines(f, people[..i], lines)
      invariant BucketsOf(byBranch, MonthRows(people[..i], lines))
    {
      var line := PersonMonth(f, people[i]);
      byBranch := AddLine(byBranch, people, lines, i, line);
      NextLine(f, people, lines, i, line);
      lines := lines + [line];
      i := i + 1;
    }
    assert people[..i] == people;
  }

  lemma NextLine(f: Facts, people: seq<Person>, lines: seq<Line>, i: nat, line: Line)
    requires f.first <= f.next && i < |people| && AreLines(f, people[..i], lines) && IsLine(f, people[i], line)
    ensures AreLines(f, people[..i + 1], lines + [line])
  {
    assert people[..i + 1][..i] == people[..i] && (lines + [line])[..i] == lines;
  }

  /** Every line is a person's, with its counts. */
  lemma {:induction false} LineOf(f: Facts, people: seq<Person>, lines: seq<Line>, k: nat)
    requires f.first <= f.next && AreLines(f, people, lines) && k < |lines|
    ensures IsLine(f, people[k], lines[k])
    decreases |people|
  {
    var n := |people| - 1;
    if k < n { LineOf(f, people[..n], lines[..n], k); }
  }

  function AllDays(lines: seq<Line>): seq<Status> {
    if lines == [] then [] else AllDays(lines[..|lines| - 1]) + lines[|lines| - 1].days
  }

  lemma {:induction false} MonthTotal(people: seq<Person>, lines: seq<Line>, s: Status)
    requires |people| == |lines|
    ensures Total(MonthRows(people, lines), s) == Count(AllDays(lines), s)
    decreases |lines|
  {
    if lines != [] {
      var n := |lines| - 1;
      MonthTotal(people[..n], lines[..n], s);
      CountOfBoth(AllDays(lines[..n]), lines[n].days, s);
    }
  }

  /** Every line counts each day of the month once, and the branches together count every cell of the grid once. */
  lemma MonthConserves(f: Facts, people: seq<Person>, lines: seq<Line>, byBranch: Buckets, s: Status, k: nat)
    requires f.first <= f.next && AreLines(f, people, lines) && BucketsOf(byBranch, MonthRows(people, lines))
    ensures k < |lines| ==> CountsOf(lines[k].counts, lines[k].days) && SumOf(lines[k].counts) == f.next - f.first
    ensures SumAt(byBranch.order, byBranch.counts, s) == Count(AllDays(lines), s)
    ensures SumCount(AllDays(lines)) == |people| * (f.next - f.first)
  {
    if k < |lines| {
      LineOf(f, people, lines, k);
      CountsAddUp(lines[k].days);
    }
    BucketsConserve(byBranch, MonthRows(people, lines), s);
    MonthTotal(people, lines, s);
    CountsAddUp(AllDays(lines));
    GridSize(f, people, lines);
  }

  lemma OneMoreLine(lines: nat, days: nat)
    ensures (lines + 1) * days == lines * days + days
  {
  }

  lemma {:induction false} GridSize(f: Facts, people: seq<Person>, lines: seq<Line>)
    requires f.first <= f.next && AreLines(f, people, lines)
    ensures |AllDays(lines)| == |people| * (f.next - f.first)
    decreases |people|
  {
    if people != [] {
      var n := |people| - 1;
      GridSize(f, people[..n], lines[..n]);
      OneMoreLine(n, f.next - f.first);
    }
  }
}
