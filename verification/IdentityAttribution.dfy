/** What becomes of stored attributions. A scan is attributed once, when it is stored, and the resolver is asked again
    later; in between mappings are created, and closed at the start of a transaction that may commit much later. */
module IdentityAttribution {
  import opened Basics
  import opened Identity
  import opened IdentityRuns
  import opened IdentityTheorems

  // ---- One closing ----

  /** Exactly when closing a mapping leaves a scan's attribution alone: the scan is earlier than the closing time. A
      terminal clock that runs ahead of the server can store scans that fail this. */
  lemma ClosingKeepsAttributionIffEarlier(t: Tables, m: RowId, c: Time, account: Account, x: Time)
    requires Disjoint(t.mappings) && m < |t.mappings| && t.mappings[m].validTo.None? && t.mappings[m].validFrom < c
    requires Covers(t.mappings[m], account, x)
    ensures var u := t.(mappings := t.mappings[m := Close(t.mappings[m], c)]);
      Resolve(u, account, x) == Resolve(t, account, x) <==> x < c
  {
    var u := t.(mappings := t.mappings[m := Close(t.mappings[m], c)]);
    CoveredOnce(t, account, x, m);
    forall i, j | 0 <= i < j < |u.mappings|
      ensures Compatible(u.mappings[i], u.mappings[j])
    {
      assert Compatible(t.mappings[i], t.mappings[j]);
    }
    if x < c {
      CoveredOnce(u, account, x, m);
    } else if Resolve(u, account, x).Some? {
      var _ := ResolveWitness(u, account, x);
    }
  }

  /** The given rows closed at time c. */
  function ClosedAt(ms: seq<Mapping>, closed: set<RowId>, c: Time): seq<Mapping> {
    seq(|ms|, i requires 0 <= i < |ms| => if i in closed then Close(ms[i], c) else ms[i])
  }

  ghost predicate Attributed(t: Tables, s: Scan) {
    s.employee.Some? ==> Resolve(t, s.account, s.scanTime) == s.employee
  }

  lemma ClosedAtIsDisjoint(ms: seq<Mapping>, closed: set<RowId>, c: Time)
    requires Disjoint(ms)
    requires forall m | m in closed :: m < |ms| && ms[m].validTo.None? && ms[m].validFrom < c
    ensures Disjoint(ClosedAt(ms, closed, c))
  {
    ShrinkingStaysDisjoint(ms, ClosedAt(ms, closed, c), c);
  }

  lemma ScanKeepsOwnerIff(t: Tables, closed: set<RowId>, c: Time, s: Scan)
    requires Disjoint(t.mappings) && s.employee.Some? && Attributed(t, s)
    requires forall m | m in closed :: m < |t.mappings| && t.mappings[m].validTo.None? && t.mappings[m].validFrom < c
    ensures Attributed(t.(mappings := ClosedAt(t.mappings, closed, c)), s) <==>
      forall m | m in closed && Covers(t.mappings[m], s.account, s.scanTime) :: s.scanTime < c
  {
    var u := t.(mappings := ClosedAt(t.mappings, closed, c));
    ClosedAtIsDisjoint(t.mappings, closed, c);
    var k := ResolveWitness(t, s.account, s.scanTime);
    forall m: RowId | m < |t.mappings| && Covers(t.mappings[m], s.account, s.scanTime)
      ensures m == k
    {
      CoveredOnce(t, s.account, s.scanTime, m);
      CoveredOnce(t, s.account, s.scanTime, k);
      assert m in {k};
    }
    if k !in closed || s.scanTime < c {
      CoveredOnce(u, s.account, s.scanTime, k);
    } else if Resolve(u, s.account, s.scanTime).Some? {
      var i := ResolveWitness(u, s.account, s.scanTime);
      assert Covers(t.mappings[i], s.account, s.scanTime);
    }
  }

  /** Closing mappings at any time c, such as the start of a transaction that commits after later scans were stored,
      keeps every stored attribution exactly when no stored scan of a closed mapping is as late as c. */
  lemma ClosingKeepsAttributionsIff(t: Tables, closed: set<RowId>, c: Time)
    requires Disjoint(t.mappings) && forall s | s in t.attendance :: Attributed(t, s)
    requires forall m | m in closed :: m < |t.mappings| && t.mappings[m].validTo.None? && t.mappings[m].validFrom < c
    ensures (forall s | s in t.attendance :: Attributed(t.(mappings := ClosedAt(t.mappings, closed, c)), s)) <==>
      forall s, m |
        s in t.attendance && s.employee.Some? && m in closed && Covers(t.mappings[m], s.account, s.scanTime) ::
        s.scanTime < c
  {
    forall s | s in t.attendance && s.employee.Some?
      ensures Attributed(t.(mappings := ClosedAt(t.mappings, closed, c)), s) <==>
        forall m | m in closed && Covers(t.mappings[m], s.account, s.scanTime) :: s.scanTime < c
    {
      ScanKeepsOwnerIff(t, closed, c, s);
    }
  }

  // ---- Runs ----

  function DepartingRows(t: Tables, employee: EmployeeId): set<RowId> {
    if employee in t.humans && t.humans[employee].active then
      set i | 0 <= i < |t.mappings| && OpenOf(t.mappings[i], employee)
    else {}
  }

  function MissingRows(t: Tables, device: DeviceId, observed: map<string, Option<int>>): set<RowId> {
    set i | 0 <= i < |t.mappings| && ClosedByRoster(t, device, observed, t.mappings[i])
  }

  /** The schema refuses the whole transaction for one interval that would end before it began. */
  function AllOrNone(t: Tables, rows: set<RowId>): set<RowId>
    requires forall i | i in rows :: i < |t.mappings|
  {
    if exists i :: i in rows && t.mappings[i].validFrom >= t.now then {} else rows
  }

  /** The rows that the transaction closes, in the tables it meets. */
  function ClosedRows(hist: seq<Tables>, txn: Txn): (rows: set<RowId>)
    requires |hist| > 0
    ensures forall i | i in rows :: i < |Last(hist).mappings|
  {
    match txn.op
    case Deactivate(employee, lag) =>
      var t := Begun(Arrive(hist, txn.wait), lag);
      AllOrNone(t, DepartingRows(t, employee))
    case RosterReconcile(device, observed, lag) =>
      var t := Begun(Arrive(hist, txn.wait), lag);
      AllOrNone(t, MissingRows(t, device, observed))
    case _ => {}
  }

  /** The transaction closes the mapping that owns the scan, at a time no later than the scan. */
  predicate Cuts(hist: seq<Tables>, txn: Txn, account: Account, x: Time)
    requires |hist| > 0
  {
    exists m :: m in ClosedRows(hist, txn) && Covers(Arrive(hist, txn.wait).mappings[m], account, x)
                && x >= StartOf(hist, txn)
  }

  lemma DeactivationCloses(t: Tables, employee: EmployeeId)
    ensures ApplyDeactivate(t, employee).mappings
         == ClosedAt(t.mappings, AllOrNone(t, DepartingRows(t, employee)), t.now)
  {
    if employee in t.humans && t.humans[employee].active
       && exists i :: 0 <= i < |t.mappings| && OpenOf(t.mappings[i], employee) && t.mappings[i].validFrom >= t.now
    {
      var i :| 0 <= i < |t.mappings| && OpenOf(t.mappings[i], employee) && t.mappings[i].validFrom >= t.now;
      assert i in DepartingRows(t, employee);
    }
  }

  lemma SnapshotCloses(t: Tables, device: DeviceId, observed: map<string, Option<int>>)
    ensures ApplyRoster(t, device, observed).mappings
         == ClosedAt(t.mappings, AllOrNone(t, MissingRows(t, device, observed)), t.now)
  {
    if exists i :: 0 <= i < |t.mappings| && ClosedByRoster(t, device, observed, t.mappings[i])
                   && t.mappings[i].validFrom >= t.now
    {
      var i :| 0 <= i < |t.mappings| && ClosedByRoster(t, device, observed, t.mappings[i])
               && t.mappings[i].validFrom >= t.now;
      assert i in MissingRows(t, device, observed);
    }
  }

  /** Rows of open mappings, or none of them: what is closed had begun. */
  lemma ClosedHadBegun(t: Tables, rows: set<RowId>)
    requires forall i | i in rows :: i < |t.mappings| && t.mappings[i].validTo.None?
    ensures forall i | i in AllOrNone(t, rows) ::
      i < |t.mappings| && t.mappings[i].validTo.None? && t.mappings[i].validFrom < t.now
  {
  }

  lemma ClosesRows(hist: seq<Tables>, txn: Txn)
    requires |hist| > 0 && Closes(txn.op)
    ensures Commit(hist, txn).mappings == ClosedAt(Last(hist).mappings, ClosedRows(hist, txn), StartOf(hist, txn))
    ensures forall m | m in ClosedRows(hist, txn) :: m < |Last(hist).mappings| && Last(hist).mappings[m].validTo.None?
                                                     && Last(hist).mappings[m].validFrom < StartOf(hist, txn)
  {
    var t := Begun(Arrive(hist, txn.wait), txn.op.lag);
    if txn.op.Deactivate? {
      DeactivationCloses(t, txn.op.employee);
      ClosedHadBegun(t, DepartingRows(t, txn.op.employee));
    } else {
      SnapshotCloses(t, txn.op.device, txn.op.observed);
      ClosedHadBegun(t, MissingRows(t, txn.op.device, txn.op.observed));
    }
  }

  /** No other transaction changes a mapping; one may insert a mapping. */
  lemma OthersCloseNothing(hist: seq<Tables>, txn: Txn)
    requires |hist| > 0 && !Closes(txn.op)
    ensures Last(hist).mappings <= Commit(hist, txn).mappings
  {
    if !OwnershipOp(txn.op) { EnrollmentOpTouches(hist, txn); }
  }

  /** Exactly which transactions take a scan's owner away. */
  lemma CommitKeepsOwnerIff(hist: seq<Tables>, txn: Txn, account: Account, x: Time)
    requires Good(hist) && Resolve(Last(hist), account, x).Some?
    ensures Resolve(Commit(hist, txn), account, x) == Resolve(Last(hist), account, x) <==> !Cuts(hist, txn, account, x)
  {
    var s, u := Last(hist), Commit(hist, txn);
    CommitKeeps(hist, txn);
    if Closes(txn.op) {
      var closed, c := ClosedRows(hist, txn), StartOf(hist, txn);
      ClosesRows(hist, txn);
      ScanKeepsOwnerIff(s, closed, c, Scan(account, x, Resolve(s, account, x), 0));
      SameOwnersResolveAlike(s.(mappings := ClosedAt(s.mappings, closed, c)), u, account, x);
    } else {
      OthersCloseNothing(hist, txn);
      var k := ResolveWitness(s, account, x);
      CoveredOnce(u, account, x, k);
    }
  }

  /** The scan has the given owner in all the states from the given one on. */
  ghost predicate OwnerFrom(all: seq<Tables>, from: nat, account: Account, x: Time, owner: Option<EmployeeId>) {
    forall j | from <= j < |all| :: Resolve(all[j], account, x) == owner
  }

  lemma OwnerFromStep(all: seq<Tables>, from: nat, account: Account, x: Time, owner: Option<EmployeeId>)
    requires from < |all|
    ensures OwnerFrom(all, from, account, x, owner) <==>
      Resolve(all[from], account, x) == owner && OwnerFrom(all, from + 1, account, x, owner)
  {
  }

  ghost predicate NeverCut(hist: seq<Tables>, txns: seq<Txn>, account: Account, x: Time)
    requires |hist| > 0
    decreases |txns|
  {
    txns != [] ==>
      !Cuts(hist, txns[0], account, x) && NeverCut(hist + [Commit(hist, txns[0])], txns[1..], account, x)
  }

  /** A scan's owner is the resolver's answer in every state of a run exactly when no transaction of the run closes the
      owning mapping at a time no later than the scan. Nothing else moves it, whatever the transactions read. */
  lemma {:induction false} OwnerStaysIff(hist: seq<Tables>, txns: seq<Txn>, account: Account, x: Time)
    requires Good(hist) && Resolve(Last(hist), account, x).Some?
    ensures OwnerFrom(Run(hist, txns), |hist|, account, x, Resolve(Last(hist), account, x)) <==>
      NeverCut(hist, txns, account, x)
    decreases |txns|
  {
    if txns != [] {
      var u := Commit(hist, txns[0]);
      CommitKeepsOwnerIff(hist, txns[0], account, x);
      CommitExtends(hist, txns[0]);
      RunHead(hist, txns, u);
      OwnerFromStep(Run(hist, txns), |hist|, account, x, Resolve(Last(hist), account, x));
      if !Cuts(hist, txns[0], account, x) { OwnerStaysIff(hist + [u], txns[1..], account, x); }
    }
  }

  /** Every closing of the run begins after x. */
  ghost predicate ClosesAfter(hist: seq<Tables>, txns: seq<Txn>, x: Time)
    requires |hist| > 0
    decreases |txns|
  {
    txns != [] ==>
      && (Closes(txns[0].op) ==> StartOf(hist, txns[0]) > x)
      && ClosesAfter(hist + [Commit(hist, txns[0])], txns[1..], x)
  }

  lemma {:induction false} LateClosingsCutNothing(hist: seq<Tables>, txns: seq<Txn>, account: Account, x: Time)
    requires |hist| > 0 && ClosesAfter(hist, txns, x)
    ensures NeverCut(hist, txns, account, x)
    decreases |txns|
  {
    if txns != [] { LateClosingsCutNothing(hist + [Commit(hist, txns[0])], txns[1..], account, x); }
  }

  /** What is stored is never rewritten, and a scan attributed when it was stored is attributed to the same person for
      good as long as every later closing begins after the scan. */
  lemma AttributionIsPermanent(hist: seq<Tables>, txns: seq<Txn>, row: RowId, j: nat)
    requires Good(hist) && row < |Last(hist).attendance| && |hist| <= j < |hist| + |txns|
    requires Last(hist).attendance[row].employee.Some? && Attributed(Last(hist), Last(hist).attendance[row])
    requires ClosesAfter(hist, txns, Last(hist).attendance[row].scanTime)
    ensures var s, t := Last(hist), Run(hist, txns)[j];
      && row < |t.attendance| && t.attendance[row] == s.attendance[row] && Attributed(t, t.attendance[row])
  {
    var s := Last(hist).attendance[row];
    LateClosingsCutNothing(hist, txns, s.account, s.scanTime);
    OwnerStaysIff(hist, txns, s.account, s.scanTime);
    RunKeeps(hist, txns);
    assert Evolves(Run(hist, txns)[|hist| - 1], Run(hist, txns)[j]);
  }

  // ---- All stored attributions ----

  ghost predicate AllAttributed(t: Tables) {
    forall i | 0 <= i < |t.attendance| :: Attributed(t, t.attendance[i])
  }

  /** The transaction takes no stored scan's owner away. */
  ghost predicate CutsNothing(hist: seq<Tables>, txn: Txn)
    requires |hist| > 0
  {
    forall i | 0 <= i < |Last(hist).attendance| && Last(hist).attendance[i].employee.Some? ::
      !Cuts(hist, txn, Last(hist).attendance[i].account, Last(hist).attendance[i].scanTime)
  }

  /** A scan stored by this very commit is attributed as the resolver answers. */
  lemma IngestedIsAttributed(hist: seq<Tables>, txn: Txn, i: RowId)
    requires Good(hist) && |Last(hist).attendance| <= i < |Commit(hist, txn).attendance|
    ensures Attributed(Commit(hist, txn), Commit(hist, txn).attendance[i])
  {
    if !OwnershipOp(txn.op) {
      EnrollmentOpTouches(hist, txn);
    } else if txn.op.Ingest? {
      var t, u := Arrive(hist, txn.wait), Commit(hist, txn);
      var v := t.(deviceUsers := EnsureDeviceUser(t, txn.op.account));
      CommitKeeps(hist, txn);
      SameOwnersResolveAlike(v, u, txn.op.account, txn.op.at);
    }
  }

  lemma CommitKeepsAttributionsIff(hist: seq<Tables>, txn: Txn)
    requires Good(hist) && AllAttributed(Last(hist))
    ensures AllAttributed(Commit(hist, txn)) <==> CutsNothing(hist, txn)
  {
    var s, u := Last(hist), Commit(hist, txn);
    CommitKeeps(hist, txn);
    forall i | 0 <= i < |s.attendance| && s.attendance[i].employee.Some?
      ensures Attributed(u, u.attendance[i]) <==> !Cuts(hist, txn, s.attendance[i].account, s.attendance[i].scanTime)
    {
      assert Attributed(s, s.attendance[i]) && u.attendance[i] == s.attendance[i];
      CommitKeepsOwnerIff(hist, txn, s.attendance[i].account, s.attendance[i].scanTime);
    }
    forall i | |s.attendance| <= i < |u.attendance|
      ensures Attributed(u, u.attendance[i])
    {
      IngestedIsAttributed(hist, txn, i);
    }
    if AllAttributed(u) {
      forall i | 0 <= i < |s.attendance| && s.attendance[i].employee.Some?
        ensures !Cuts(hist, txn, s.attendance[i].account, s.attendance[i].scanTime)
      {
        assert Attributed(u, u.attendance[i]);
      }
    }
  }

  ghost predicate NothingCut(hist: seq<Tables>, txns: seq<Txn>)
    requires |hist| > 0
    decreases |txns|
  {
    txns != [] ==> CutsNothing(hist, txns[0]) && NothingCut(hist + [Commit(hist, txns[0])], txns[1..])
  }

  ghost predicate AllAttributedFrom(all: seq<Tables>, from: nat) {
    forall j | from <= j < |all| :: AllAttributed(all[j])
  }

  lemma AllAttributedStep(all: seq<Tables>, from: nat)
    requires from < |all|
    ensures AllAttributedFrom(all, from) <==> AllAttributed(all[from]) && AllAttributedFrom(all, from + 1)
  {
  }

  /** Exactly when every stored attribution, old or made during the run, is the resolver's answer in every state of the
      run: when no transaction closes a mapping at a time no later than some scan stored for its owner. */
  lemma {:induction false} AttributionsStandIff(hist: seq<Tables>, txns: seq<Txn>)
    requires Good(hist) && AllAttributed(Last(hist))
    ensures AllAttributedFrom(Run(hist, txns), |hist|) <==> NothingCut(hist, txns)
    decreases |txns|
  {
    if txns != [] {
      var u := Commit(hist, txns[0]);
      CommitKeepsAttributionsIff(hist, txns[0]);
      CommitExtends(hist, txns[0]);
      RunHead(hist, txns, u);
      AllAttributedStep(Run(hist, txns), |hist|);
      if CutsNothing(hist, txns[0]) { AttributionsStandIff(hist + [u], txns[1..]); }
    }
  }
}
