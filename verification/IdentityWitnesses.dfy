/** Runs that show why the conditions in IdentityAtomic are needed. */
module IdentityWitnesses {
  import opened Basics
  import opened Identity
  import opened IdentityRuns
  import opened IdentityTheorems
  import opened IdentityAtomic
  import opened IdentityAttribution

  lemma StartsGood(t: Tables)
    requires Inv(t)
    ensures Good([t])
  {
  }

  lemma TwoSteps(t: Tables, first: Txn, second: Txn)
    ensures Run([t], [first, second]) == [t, Commit([t], first), Commit([t, Commit([t], first)], second)]
  {
    var t1 := Commit([t], first);
    assert [first, second][1..] == [second] && [second][1..] == [];
    assert [t] + [t1] == [t, t1] && [t, t1] + [Commit([t, t1], second)] == [t, t1, Commit([t, t1], second)];
    assert Run([t], [first, second]) == Run([t, t1], [second]);
  }

  const ACCOUNT := Account(1, "1001")

  function Ready(): Tables {
    Tables(100, map[7 := Human(true, true)], map[1 := true], map[ACCOUNT := DeviceUser(true, None, None, 1)],
      [Enrollment(7, ACCOUNT, ReadyForMapping, Some(1), None, Some(60), Some(10), Some("owner"), 60)], [],
      [Scan(ACCOUNT, 10, None, 20)])
  }

  lemma ReadyIsGood()
    ensures Good([Ready()]) && OpenOk(Ready())
  {
    assert Ready().attendance[0].account == ACCOUNT;
    StartsGood(Ready());
  }

  /** The creation meets tables from which the person has gone, having read them before. */
  lemma CreationOnStaleRead(met: Tables)
    requires met.now >= 100 && met == Ready().(now := met.now, humans := map[7 := Human(false, true)])
    ensures var u := ApplyCreateMapping(met, met, Ready(), met, met, met, 0);
      |u.mappings| == 1 && !OpenIsCurrent(u, u.mappings[0])
  {
    ExactScanIsEvidence(met, ACCOUNT, 10, 0);
    assert MayCreateMapping(met, met, Ready(), met, met, 0);
  }

  /** The person's row is read, the person is deactivated, and then the mapping commits: it stays open for somebody who
      has left. Every lock, guard and index of the code is respected. */
  lemma StaleReadLeavesOpenMapping() returns (t: Tables, leave: Txn, create: Txn)
    ensures Good([t]) && OpenOk(t) && leave.op.Deactivate? && create.op.CreateMapping?
    ensures !OpenOk(Last(Run([t], [leave, create])))
  {
    t := Ready();
    ReadyIsGood();
    leave := Txn(Deactivate(7, 0), 0);
    create := Txn(CreateMapping(0, Current, Current, Past(0), Current, Current), 0);
    TwoSteps(t, leave, create);
    var t1 := Commit([t], leave);
    assert t1.mappings == [] && t1.humans == map[7 := Human(false, true)];
    CreationOnStaleRead(Arrive([t, t1], 0));
  }

  // ---- Attributions lost ----

  function Mapped(): Tables {
    Tables(100, map[7 := Human(true, true)], map[1 := true], map[ACCOUNT := DeviceUser(true, None, None, 1)],
      [Enrollment(7, ACCOUNT, Retired, Some(1), None, Some(60), Some(10), Some("owner"), 90)],
      [Mapping(7, ACCOUNT, true, 10, None)], [Scan(ACCOUNT, 10, None, 20)])
  }

  lemma MappedIsGood()
    ensures Good([Mapped()]) && AllAttributed(Mapped())
  {
    assert Mapped().attendance[0].account == ACCOUNT;
    StartsGood(Mapped());
  }

  lemma StoredForOwner(met: Tables, at: Time)
    requires met == Mapped().(now := met.now) && at > 10
    ensures ApplyIngest(met, ACCOUNT, at) == met.(attendance := met.attendance + [Scan(ACCOUNT, at, Some(7), met.now)])
  {
    CoveredOnce(met, ACCOUNT, at, 0);
    assert !Stored(met, ACCOUNT, at);
  }

  /** After a closing no later than the scan nobody owns it. */
  lemma OwnerGone(met: Tables, at: Time)
    requires met == Mapped().(now := met.now, attendance := met.attendance) && 10 < met.now <= at
    ensures Resolve(ApplyDeactivate(met, 7), ACCOUNT, at).None?
  {
    var u := ApplyDeactivate(met, 7);
    assert OpenOf(met.mappings[0], 7);
    assert u.mappings == [Close(Mapped().mappings[0], met.now)];
    if Resolve(u, ACCOUNT, at).Some? { var _ := ResolveWitness(u, ACCOUNT, at); }
  }

  /** Attributed as long as the second scan has its owner. */
  lemma StandsWithOwner(t: Tables, at: Time, stored: Time)
    requires t.attendance == Mapped().attendance + [Scan(ACCOUNT, at, Some(7), stored)]
    ensures AllAttributed(t) <==> Resolve(t, ACCOUNT, at) == Some(7)
  {
    assert Attributed(t, t.attendance[0]);
    assert t.attendance[1] == Scan(ACCOUNT, at, Some(7), stored);
  }

  /** A scan is stored for its owner, and a closing commits that began no later than the scan. */
  lemma AttributionLost(at: Time, wait: nat, lag: nat) returns (store: Txn, leave: Txn)
    requires 10 < 102 + wait - lag <= at
    ensures store == Txn(Ingest(ACCOUNT, at), wait) && leave == Txn(Deactivate(7, lag), 0)
    ensures var s, t := Run([Mapped()], [store, leave])[1], Run([Mapped()], [store, leave])[2];
      s.now == 101 + wait && t.now == 102 + wait && AllAttributed(s) && !AllAttributed(t)
  {
    store, leave := Txn(Ingest(ACCOUNT, at), wait), Txn(Deactivate(7, lag), 0);
    var t := Mapped();
    TwoSteps(t, store, leave);
    StoredForOwner(Arrive([t], wait), at);
    var s := Commit([t], store);
    CoveredOnce(s, ACCOUNT, at, 0);
    StandsWithOwner(s, at, s.now);
    var left := ApplyDeactivate(Begun(Arrive([t, s], 0), lag), 7);
    OwnerGone(Begun(Arrive([t, s], 0), lag), at);
    StandsWithOwner(left.(now := s.now + 1), at, s.now);
    assert Matches(left.(now := s.now + 1), ACCOUNT, at) == Matches(left, ACCOUNT, at);
  }

  /** A deactivation begins, a scan is made, stored and attributed, and then the deactivation commits: by its own
      timestamp it closes the mapping before the scan, and the stored attribution stands alone. */
  lemma EarlyClosingLosesAttribution() returns (t: Tables, store: Txn, leave: Txn)
    ensures Good([t]) && AllAttributed(t) && store.op.Ingest? && leave.op.Deactivate?
    ensures var all := Run([t], [store, leave]);
      && store.op.at < all[1].now < all[2].now && all[2].now - leave.op.lag < store.op.at
      && AllAttributed(all[1]) && !AllAttributed(all[2])
  {
    t := Mapped();
    MappedIsGood();
    store, leave := AttributionLost(105, 9, 8);
  }

  /** A terminal clock ahead of the server: the scan is later than its own ingestion and than the closing. */
  lemma FutureScanLosesAttribution() returns (t: Tables, store: Txn, leave: Txn)
    ensures Good([t]) && AllAttributed(t) && store.op.Ingest? && leave.op.Deactivate? && leave.op.lag == 0
    ensures var all := Run([t], [store, leave]);
      all[2].now < store.op.at && AllAttributed(all[1]) && !AllAttributed(all[2])
  {
    t := Mapped();
    MappedIsGood();
    store, leave := AttributionLost(500, 0, 0);
  }

  // ---- A window of ten minutes, step by step ----

  lemma {:induction false} RunSnoc(hist: seq<Tables>, txns: seq<Txn>, last: Txn)
    requires |hist| > 0
    ensures Run(hist, txns + [last]) == Run(hist, txns) + [Commit(Run(hist, txns), last)]
    decreases |txns|
  {
    if txns == [] {
      assert txns + [last] == [last] && [last][1..] == [];
    } else {
      assert (txns + [last])[1..] == txns[1..] + [last];
      RunSnoc(hist + [Commit(hist, txns[0])], txns[1..], last);
    }
  }

  const UNTIL := 10 * MINUTE + 1

  function Row(status: Status, scanTime: Option<Time>, updatedAt: Time): Enrollment {
    Enrollment(7, ACCOUNT, status, Some(0), None, if status.FingerprintEnrolled? then None else Some(UNTIL), scanTime,
               None, updatedAt)
  }

  function At(now: Time, row: Enrollment, attendance: seq<Scan>): Tables {
    Tables(now, map[7 := Human(true, true)], map[1 := true], map[ACCOUNT := DeviceUser(true, None, None, 1)], [row], [],
           attendance)
  }

  const FIRST := Scan(ACCOUNT, MINUTE, None, MINUTE + 2)
  const SECOND_SCAN := Scan(ACCOUNT, 7 * MINUTE, None, 7 * MINUTE + 4)

  lemma OpensWindow(hist: seq<Tables>)
    requires |hist| > 0 && Last(hist) == At(0, Row(FingerprintEnrolled, None, 0), [])
    ensures Commit(hist, Txn(StartWindow(0, 10, 0, Current), 0)) == At(1, Row(ScanPending, None, 1), [])
  {
    assert Last(hist).enrollments[0 := Row(ScanPending, None, 1)] == [Row(ScanPending, None, 1)];
  }

  /** With no mapping on record a scan is stored for nobody. */
  lemma Stores(hist: seq<Tables>, row: Enrollment, before: seq<Scan>, s: Scan, wait: nat)
    requires |hist| > 0 && Last(hist).now + 1 + wait == s.createdAt && s.account == ACCOUNT && s.employee == None
    requires Last(hist) == At(Last(hist).now, row, before) && forall b | b in before :: b.scanTime != s.scanTime
    ensures Commit(hist, Txn(Ingest(ACCOUNT, s.scanTime), wait)) == At(s.createdAt, row, before + [s])
  {
    var t := Arrive(hist, wait);
    assert Matches(t, ACCOUNT, s.scanTime) == {};
    assert !Stored(t, ACCOUNT, s.scanTime);
    if Resolve(t, ACCOUNT, s.scanTime).Some? { var _ := ResolveWitness(t, ACCOUNT, s.scanTime); }
  }

  lemma Confirms(hist: seq<Tables>)
    requires |hist| > 0 && Last(hist) == At(MINUTE + 2, Row(ScanPending, None, 1), [FIRST])
    ensures Commit(hist, Txn(ConfirmScan(0, Current, Current, Current), 0))
         == At(MINUTE + 3, Row(ScanConfirmed, Some(MINUTE), MINUTE + 3), [FIRST])
  {
    var t := Arrive(hist, 0);
    assert IsEarliest(t, ACCOUNT, 1, UNTIL, 0);
    var k: RowId :| Earliest(t, ACCOUNT, 1, UNTIL) == Some(k) && IsEarliest(t, ACCOUNT, 1, UNTIL, k);
    assert [Row(ScanPending, None, 1)][0 := Row(ScanConfirmed, Some(MINUTE), MINUTE + 3)]
        == [Row(ScanConfirmed, Some(MINUTE), MINUTE + 3)];
  }

  lemma Reconciles(hist: seq<Tables>)
    requires |hist| > 0
    requires Last(hist) == At(7 * MINUTE + 4, Row(ScanConfirmed, Some(MINUTE), MINUTE + 3), [FIRST, SECOND_SCAN])
    ensures var u := Commit(hist, Txn(ReconcileEvidence(0, 1), 0));
      |u.enrollments| == 1 && u.enrollments[0].scanTime == Some(7 * MINUTE)
  {
    var t := Arrive(hist, 0);
    assert InWindow(t, ACCOUNT, UNTIL - 5 * MINUTE, UNTIL, 1);
    assert MayReconcileEvidence(t, 0, 1);
  }

  predicate AllFresh(txns: seq<Txn>) {
    forall i | 0 <= i < |txns| :: Fresh(txns[i].op)
  }

  lemma Extend(t: Tables, txns: seq<Txn>, x: Txn) returns (all: seq<Txn>)
    requires AllFresh(txns) && Fresh(x.op)
    ensures all == txns + [x] && AllFresh(all) && Run([t], all) == Run([t], txns) + [Commit(Run([t], txns), x)]
  {
    all := txns + [x];
    RunSnoc([t], txns, x);
  }

  lemma BeginIsGood()
    ensures Good([At(0, Row(FingerprintEnrolled, None, 0), [])])
  {
    StartsGood(At(0, Row(FingerprintEnrolled, None, 0), []));
  }

  lemma UntilConfirmed(t: Tables) returns (txns: seq<Txn>)
    requires t == At(0, Row(FingerprintEnrolled, None, 0), [])
    ensures |txns| == 3 && AllFresh(txns)
    ensures Last(Run([t], txns)) == At(MINUTE + 3, Row(ScanConfirmed, Some(MINUTE), MINUTE + 3), [FIRST])
  {
    OpensWindow([t]);
    txns := Extend(t, [], Txn(StartWindow(0, 10, 0, Current), 0));
    Stores(Run([t], txns), Row(ScanPending, None, 1), [], FIRST, MINUTE);
    assert [] + [FIRST] == [FIRST];
    txns := Extend(t, txns, Txn(Ingest(ACCOUNT, MINUTE), MINUTE));
    Confirms(Run([t], txns));
    txns := Extend(t, txns, Txn(ConfirmScan(0, Current, Current, Current), 0));
  }

  /** A window longer than the default, every read current: after the scan is confirmed the person scans again, and late
      reconciliation accepts the second scan and moves the evidence. */
  lemma ReconciliationMovesEvidence() returns (t: Tables, txns: seq<Txn>)
    ensures Good([t]) && |txns| == 5 && txns[4].op.ReconcileEvidence? && AllFresh(txns)
    ensures |Run([t], txns)[4].enrollments| == |Run([t], txns)[5].enrollments| == 1
    ensures Run([t], txns)[4].enrollments[0].scanTime == Some(MINUTE)
    ensures Run([t], txns)[5].enrollments[0].scanTime == Some(7 * MINUTE)
  {
    t := At(0, Row(FingerprintEnrolled, None, 0), []);
    BeginIsGood();
    txns := UntilConfirmed(t);
    Stores(Run([t], txns), Row(ScanConfirmed, Some(MINUTE), MINUTE + 3), [FIRST], SECOND_SCAN, 6 * MINUTE);
    assert [FIRST] + [SECOND_SCAN] == [FIRST, SECOND_SCAN];
    txns := Extend(t, txns, Txn(Ingest(ACCOUNT, 7 * MINUTE), 6 * MINUTE));
    var before := Run([t], txns);
    assert |before| == 5 && |before[4].enrollments| == 1 && before[4].enrollments[0].scanTime == Some(MINUTE);
    Reconciles(before);
    txns := Extend(t, txns, Txn(ReconcileEvidence(0, 1), 0));
  }

  function Pending(): Tables {
    Tables(2 * MINUTE, map[7 := Human(true, true)], map[1 := true], map[ACCOUNT := DeviceUser(true, None, None, 1)],
      [Enrollment(7, ACCOUNT, ScanPending, Some(1), None, Some(5 * MINUTE), None, None, 0)], [],
      [Scan(ACCOUNT, MINUTE, None, MINUTE)])
  }

  lemma ConfirmationOnStaleRead(met: Tables)
    requires met.deviceUsers == Pending().deviceUsers && met.attendance == Pending().attendance
    requires |met.enrollments| == 1 && met.enrollments[0].status.ScanPending?
    ensures var u := ApplyConfirmScan(Pending(), met, met, met, 0);
      |u.enrollments| == 1 && u.enrollments[0].scanTime == Some(MINUTE)
      && u.enrollments[0].windowUntil == met.enrollments[0].windowUntil
  {
    assert IsEarliest(met, ACCOUNT, 0, 5 * MINUTE, 0);
    var k :| Earliest(met, ACCOUNT, 0, 5 * MINUTE) == Some(k) && IsEarliest(met, ACCOUNT, 0, 5 * MINUTE, k);
  }

  lemma PendingIsGood()
    ensures Good([Pending()]) && WindowsOk(Pending())
  {
    StartsGood(Pending());
  }

  lemma PendingReopened(reopen: Txn)
    requires reopen == Txn(StartWindow(0, 5, 0, Current), 4 * MINUTE)
    ensures var u := Commit([Pending()], reopen);
      && u.deviceUsers == Pending().deviceUsers && u.attendance == Pending().attendance
      && |u.enrollments| == 1 && u.enrollments[0].status.ScanPending?
      && u.enrollments[0].windowUntil == Some(11 * MINUTE + 1)
  {
  }

  /** The confirmation reads a window, the window is opened again, and the guarded update still finds the row pending:
      the row then stores a scan from before the window it records. */
  lemma ReopenedWindowStoresOldScan() returns (t: Tables, reopen: Txn, confirm: Txn)
    ensures Good([t]) && WindowsOk(t) && Ordinary(reopen.op) && reopen.op.StartWindow? && confirm.op.ConfirmScan?
    ensures var e := Last(Run([t], [reopen, confirm])).enrollments;
      |e| == 1 && e[0].windowUntil.Some? && e[0].scanTime.Some? && e[0].scanTime.value < WindowStart(e[0])
  {
    t := Pending();
    PendingIsGood();
    reopen := Txn(StartWindow(0, 5, 0, Current), 4 * MINUTE);
    confirm := Txn(ConfirmScan(0, Past(0), Current, Current), 0);
    TwoSteps(t, reopen, confirm);
    PendingReopened(reopen);
    var hist := [t, Commit([t], reopen)];
    ConfirmationOnStaleRead(Arrive(hist, 0));
    assert Commit(hist, confirm) == ApplyConfirmScan(t, Arrive(hist, 0), Arrive(hist, 0), Arrive(hist, 0), 0);
  }
}
