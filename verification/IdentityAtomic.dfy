/** Claims that hold when a transaction's reads are current, the exact condition when they are not, and runs that show
    the condition matters. */
module IdentityAtomic {
  import opened Basics
  import opened TerminalIds
  import opened Identity
  import opened IdentityRuns
  import opened IdentityTheorems

  // ---- Reservation ----

  predicate OfPlace(e: Enrollment, employee: EmployeeId, device: DeviceId) {
    e.employee == employee && e.account.device == device
  }

  /** From any tables: an eligible person on an active device is refused exactly when some enrollment of that person on
      that device is in progress by its derived state; otherwise the reservation row is inserted, so neither unique
      index is ever hit. */
  lemma ReserveRefusedIffInProgress(t: Tables, employee: EmployeeId, device: DeviceId, roster: set<string>)
    requires employee in t.humans && t.humans[employee].active && t.humans[employee].productionScope
    requires device in t.devices && t.devices[device]
    ensures |ApplyReserve(t, t, t, t, employee, device, roster).enrollments| == |t.enrollments| <==>
      exists e :: e in t.enrollments && OfPlace(e, employee, device) && LifecycleOf(t, e).InProgress?
  {
    if MayReserve(t, t, employee, device) {
      ReserveInserts(t, employee, device, roster);
      forall e | e in t.enrollments && OfPlace(e, employee, device)
        ensures !LifecycleOf(t, e).InProgress?
      {
        assert ActiveStatus(e.status) ==> CandidateRow(e, employee, device);
      }
    } else {
      var e :| e in t.enrollments && CandidateRow(e, employee, device) && LifecycleOf(t, e).InProgress?;
      assert OfPlace(e, employee, device);
    }
  }

  lemma ReserveInserts(t: Tables, employee: EmployeeId, device: DeviceId, roster: set<string>)
    requires MayReserve(t, t, employee, device)
    ensures var u := ApplyReserve(t, t, t, t, employee, device, roster);
      && |u.enrollments| == |t.enrollments| + 1
      && u.enrollments[..|t.enrollments|] == Healed(t, t, employee, device)
  {
    var healed := Healed(t, t, employee, device);
    HealedRows(t, t, employee, device);
    var ids := UsedIds(t, device);
    var row := NewReservation(employee, Account(device, NextAvailableId(ids, roster)), t.now);
    forall i | 0 <= i < |healed|
      ensures healed[i].account == row.account ==> Reclaimable(healed[i])
      ensures SamePlace(healed[i], row) ==> !ActiveStatus(healed[i].status)
    {
      assert HealStep(t.enrollments[i], healed[i]);
      assert t.enrollments[i] in t.enrollments;
      assert t.enrollments[i].account.device == device && !Reclaimable(t.enrollments[i]) ==>
        t.enrollments[i].account.user in ids;
    }
  }

  /** From any tables: after a successful reservation the new row is the person's only active one on the device, and
      retiring the stale rows changed no enrollment's derived state. */
  lemma ReserveHeals(t: Tables, employee: EmployeeId, device: DeviceId, roster: set<string>)
    requires MayReserve(t, t, employee, device)
    ensures var u := ApplyReserve(t, t, t, t, employee, device, roster);
      && |u.enrollments| == |t.enrollments| + 1
      && (forall i | 0 <= i < |u.enrollments| && OfPlace(u.enrollments[i], employee, device) ::
           ActiveStatus(u.enrollments[i].status) <==> i == |t.enrollments|)
      && (forall i | 0 <= i < |t.enrollments| ::
           LifecycleOf(u, u.enrollments[i]) == LifecycleOf(t, t.enrollments[i]))
  {
  }

  // ---- Open mappings ----

  predicate OpenIsCurrent(t: Tables, m: Mapping) {
    m.verified && m.validTo.None? ==>
      && m.employee in t.humans && t.humans[m.employee].active
      && m.account in t.deviceUsers && t.deviceUsers[m.account].inactiveAt.None?
  }

  /** An open VERIFIED mapping belongs to an active person and to an account the last roster saw. */
  ghost predicate OpenOk(t: Tables) {
    UsersOk(t) && forall i | 0 <= i < |t.mappings| :: OpenIsCurrent(t, t.mappings[i])
  }

  /** The mapping that the transaction is about would be inserted: its checks passed on what it read, and neither the
      index on open mappings nor the guarded retirement of the enrollment stops it. */
  ghost predicate InsertsMapping(hist: seq<Tables>, txn: Txn)
    requires |hist| > 0
  {
    && txn.op.CreateMapping?
    && MayCreateMapping(Look(hist, txn, txn.op.rRow), Look(hist, txn, txn.op.rUser), Look(hist, txn, txn.op.rPerson),
                        Look(hist, txn, txn.op.rScans), Look(hist, txn, txn.op.rConflict), txn.op.id)
    && var met, e := Last(hist), Look(hist, txn, txn.op.rRow).enrollments[txn.op.id];
    && txn.op.id < |met.enrollments| && met.enrollments[txn.op.id].status.ReadyForMapping?
    && forall m | m in met.mappings :: !(m.verified && m.account == e.account && m.validTo.None?)
  }

  predicate PersonAndAccountPresent(t: Tables, e: Enrollment) {
    && e.employee in t.humans && t.humans[e.employee].active
    && e.account in t.deviceUsers && t.deviceUsers[e.account].inactiveAt.None?
  }

  /** Which commits keep it, whatever their reads, told by the tables that the commit meets: all but a mapping inserted
      for a person who is no longer active, or on an account that is no longer present. */
  lemma CommitKeepsOpenIff(hist: seq<Tables>, txn: Txn)
    requires |hist| > 0 && OpenOk(Last(hist))
    ensures OpenOk(Commit(hist, txn)) <==>
      (InsertsMapping(hist, txn) ==>
        PersonAndAccountPresent(Last(hist), Look(hist, txn, txn.op.rRow).enrollments[txn.op.id]))
  {
    var t := Arrive(hist, txn.wait);
    TimeKeepsOpen(Last(hist), t.now);
    if Closes(txn.op) {
      ClosingKeepsOpen(hist, txn);
    } else if txn.op.CreateMapping? {
      CreationKeepsOpenIff(hist, txn);
    } else {
      OthersKeepOpen(hist, txn);
    }
  }

  lemma TimeKeepsOpen(t: Tables, now: Time)
    requires OpenOk(t)
    ensures OpenOk(t.(now := now))
  {
    forall i | 0 <= i < |t.mappings|
      ensures OpenIsCurrent(t.(now := now), t.mappings[i])
    {
      assert OpenIsCurrent(t, t.mappings[i]);
    }
  }

  lemma ClosingKeepsOpen(hist: seq<Tables>, txn: Txn)
    requires |hist| > 0 && OpenOk(Last(hist)) && Closes(txn.op)
    ensures OpenOk(Commit(hist, txn))
  {
    var t := Begun(Arrive(hist, txn.wait), txn.op.lag);
    TimeKeepsOpen(Last(hist), t.now);
    if txn.op.Deactivate? {
      DeactivateKeepsOpen(t, txn.op.employee);
      TimeKeepsOpen(ApplyDeactivate(t, txn.op.employee), Arrive(hist, txn.wait).now);
    } else {
      RosterKeepsOpen(t, txn.op.device, txn.op.observed);
      TimeKeepsOpen(ApplyRoster(t, txn.op.device, txn.op.observed), Arrive(hist, txn.wait).now);
    }
  }

  lemma CreationKeepsOpenIff(hist: seq<Tables>, txn: Txn)
    requires |hist| > 0 && txn.op.CreateMapping? && OpenOk(Arrive(hist, txn.wait))
    ensures OpenOk(Commit(hist, txn)) <==>
      (InsertsMapping(hist, txn) ==>
        PersonAndAccountPresent(Last(hist), Look(hist, txn, txn.op.rRow).enrollments[txn.op.id]))
  {
    var t, u := Arrive(hist, txn.wait), Commit(hist, txn);
    if InsertsMapping(hist, txn) {
      var e := Look(hist, txn, txn.op.rRow).enrollments[txn.op.id];
      assert u.mappings == t.mappings + [Mapping(e.employee, e.account, true, e.scanTime.value, None)];
      AppendedOpen(t, u);
    } else {
      assert u == t;
    }
  }

  lemma AppendedOpen(t: Tables, u: Tables)
    requires OpenOk(t) && u.deviceUsers == t.deviceUsers && u.humans == t.humans
    requires |u.mappings| == |t.mappings| + 1 && u.mappings[..|t.mappings|] == t.mappings
    ensures OpenOk(u) <==> OpenIsCurrent(t, u.mappings[|t.mappings|])
  {
  }

  lemma OthersKeepOpen(hist: seq<Tables>, txn: Txn)
    requires |hist| > 0 && OpenOk(Arrive(hist, txn.wait))
    requires !txn.op.RosterReconcile? && !txn.op.Deactivate? && !txn.op.CreateMapping?
    ensures OpenOk(Commit(hist, txn))
  {
    var t, u := Arrive(hist, txn.wait), Commit(hist, txn);
    if OwnershipOp(txn.op) {
      OthersTouch(hist, txn);
    } else {
      EnrollmentOpTouches(hist, txn);
    }
    AccountsAndPersonsStay(t, u);
  }

  /** Nobody leaves, and accounts are at most added or switched off. */
  ghost predicate Gentle(t: Tables, u: Tables) {
    && u.mappings == t.mappings && UsersOk(u)
    && (forall h | h in t.humans && t.humans[h].active :: h in u.humans && u.humans[h].active)
    && forall a | a in t.deviceUsers :: a in u.deviceUsers && u.deviceUsers[a].inactiveAt == t.deviceUsers[a].inactiveAt
  }

  lemma OthersTouch(hist: seq<Tables>, txn: Txn)
    requires |hist| > 0 && OwnershipOp(txn.op) && UsersOk(Arrive(hist, txn.wait))
    requires !txn.op.RosterReconcile? && !txn.op.Deactivate? && !txn.op.CreateMapping?
    ensures Gentle(Arrive(hist, txn.wait), Commit(hist, txn))
  {
  }

  lemma AccountsAndPersonsStay(t: Tables, u: Tables)
    requires OpenOk(t) && Gentle(t, u)
    ensures OpenOk(u)
  {
  }

  lemma DeactivateKeepsOpen(t: Tables, employee: EmployeeId)
    requires OpenOk(t)
    ensures OpenOk(ApplyDeactivate(t, employee)) && |ApplyDeactivate(t, employee).mappings| == |t.mappings|
  {
    var u := ApplyDeactivate(t, employee);
    forall i | 0 <= i < |u.mappings|
      ensures OpenIsCurrent(u, u.mappings[i])
    {
      assert OpenIsCurrent(t, t.mappings[i]);
    }
  }

  lemma RosterKeepsOpen(t: Tables, device: DeviceId, observed: map<string, Option<int>>)
    requires OpenOk(t)
    ensures OpenOk(ApplyRoster(t, device, observed)) && |ApplyRoster(t, device, observed).mappings| == |t.mappings|
  {
  }

  /** With current reads every commit keeps it. */
  lemma FreshCommitKeepsOpen(hist: seq<Tables>, txn: Txn)
    requires |hist| > 0 && OpenOk(Last(hist)) && Fresh(txn.op)
    ensures OpenOk(Commit(hist, txn))
  {
    CommitKeepsOpenIff(hist, txn);
  }

  /** Over every run of transactions with current reads an open VERIFIED mapping implies an active person and an account
      the roster still shows. */
  lemma {:induction false} OpenMappingsStayCurrent(hist: seq<Tables>, txns: seq<Txn>)
    requires |hist| > 0 && OpenOk(Last(hist)) && forall i | 0 <= i < |txns| :: Fresh(txns[i].op)
    ensures forall i | |hist| <= i < |hist| + |txns| :: OpenOk(Run(hist, txns)[i])
    decreases |txns|
  {
    if txns != [] {
      FreshCommitKeepsOpen(hist, txns[0]);
      var next := hist + [Commit(hist, txns[0])];
      OpenMappingsStayCurrent(next, txns[1..]);
      assert Run(hist, txns)[..|next|] == next;
    }
  }

  /** Every mapping inserted in the run finds its person active and its account present. */
  ghost predicate InsertsForPresentOnly(hist: seq<Tables>, txns: seq<Txn>)
    requires |hist| > 0
    decreases |txns|
  {
    txns != [] ==>
      && (InsertsMapping(hist, txns[0]) ==>
           PersonAndAccountPresent(Last(hist), Look(hist, txns[0], txns[0].op.rRow).enrollments[txns[0].op.id]))
      && InsertsForPresentOnly(hist + [Commit(hist, txns[0])], txns[1..])
  }

  ghost predicate OpenOkFrom(all: seq<Tables>, from: nat) {
    forall i | from <= i < |all| :: OpenOk(all[i])
  }

  lemma OpenOkStep(all: seq<Tables>, from: nat)
    requires from < |all|
    ensures OpenOkFrom(all, from) <==> OpenOk(all[from]) && OpenOkFrom(all, from + 1)
  {
  }

  /** Exactly which runs, whatever their reads, keep it in every state. */
  lemma {:induction false} OpenMappingsStayCurrentIff(hist: seq<Tables>, txns: seq<Txn>)
    requires |hist| > 0 && OpenOk(Last(hist))
    ensures OpenOkFrom(Run(hist, txns), |hist|) <==> InsertsForPresentOnly(hist, txns)
    decreases |txns|
  {
    if txns != [] {
      var u := Commit(hist, txns[0]);
      CommitKeepsOpenIff(hist, txns[0]);
      OpenOkStep(Run(hist, txns), |hist|);
      RunHead(hist, txns, u);
      if OpenOk(u) { OpenMappingsStayCurrentIff(hist + [u], txns[1..]); }
    }
  }

  // ---- Late reconciliation of evidence ----

  /** The stored scan lies in the window that late reconciliation reconstructs. */
  predicate RowWindowOk(t: Tables, e: Enrollment) {
    && e.updatedAt <= t.now
    && (Rank(e.status) <= Rank(ScanPending) ==> e.scanTime.None?)
    && (e.windowUntil.Some? ==> WindowStart(e) <= e.updatedAt)
    && (e.scanTime.Some? ==> e.windowUntil.Some? && WindowStart(e) <= e.scanTime.value <= e.windowUntil.value)
  }

  ghost predicate WindowsOk(t: Tables) {
    forall i | 0 <= i < |t.enrollments| :: RowWindowOk(t, t.enrollments[i])
  }

  /** Current reads, and no controlled-scan window longer than the default. */
  predicate Ordinary(op: Op) {
    Fresh(op) && (op.StartWindow? ==> op.minutes <= DEFAULT_WINDOW_MINUTES)
  }

  /** Exactly when an accepted reconciliation writes back the stored time: when that time lies in the reconstructed
      window, for then the original scan is itself a candidate. */
  lemma ReconciliationKeepsTimeIffInWindow(t: Tables, id: RowId, scan: RowId)
    requires Inv(t) && MayReconcileEvidence(t, id, scan)
    ensures ApplyReconcileEvidence(t, id, scan).enrollments[id].scanTime == t.enrollments[id].scanTime <==>
      WindowStart(t.enrollments[id]) <= t.enrollments[id].scanTime.value <= t.enrollments[id].windowUntil.value
  {
    var original := EvidenceOfRow(t, id);
    var e := t.enrollments[id];
    assert InWindow(t, e.account, WindowStart(e), e.windowUntil.value, original) <==>
      WindowStart(e) <= e.scanTime.value <= e.windowUntil.value;
  }

  lemma ConfirmKeepsWindows(t: Tables, id: RowId)
    requires WindowsOk(t)
    ensures WindowsOk(ApplyConfirmScan(t, t, t, t, id))
  {
  }

  lemma OneRowKeepsWindows(t: Tables, u: Tables, id: RowId)
    requires WindowsOk(t) && id < |t.enrollments| == |u.enrollments| && u.now == t.now
    requires u.enrollments == t.enrollments[id := u.enrollments[id]] && RowWindowOk(u, u.enrollments[id])
    ensures WindowsOk(u)
  {
  }

  lemma RowOpKeepsWindows(t: Tables, u: Tables, op: Op)
    requires WindowsOk(t) && Ordinary(op) && u != t
    requires (op.CreateAccount? && u == ApplyCreateAccount(t, op.id, op.uid))
          || (op.Transition? && u == ApplyTransition(t, t, op.id, op.target))
          || (op.StartWindow? && u == ApplyStartWindow(t, t, op.id, op.minutes, op.lag))
          || (op.ReconcileEvidence? && u == ApplyReconcileEvidence(t, op.id, op.scan))
          || (op.MarkReady? && u == ApplyMarkReady(t, t, t, t, t, op.id, op.operator))
          || (op.CreateMapping? && u == ApplyCreateMapping(t, t, t, t, t, t, op.id))
    ensures WindowsOk(u)
  {
    assert RowWindowOk(t, t.enrollments[op.id]);
    OneRowKeepsWindows(t, u, op.id);
  }

  lemma ReserveKeepsWindows(t: Tables, employee: EmployeeId, device: DeviceId, roster: set<string>)
    requires WindowsOk(t)
    ensures WindowsOk(ApplyReserve(t, t, t, t, employee, device, roster))
  {
    var u := ApplyReserve(t, t, t, t, employee, device, roster);
    if u != t {
      HealedRows(t, t, employee, device);
      forall i | 0 <= i < |u.enrollments|
        ensures RowWindowOk(u, u.enrollments[i])
      {
        if i < |t.enrollments| {
          assert HealStep(t.enrollments[i], u.enrollments[i]) && RowWindowOk(t, t.enrollments[i]);
        }
      }
    }
  }

  /** Reads that are current see everything but the transaction's own timestamp. */
  lemma OrdinaryCommitKeepsWindows(hist: seq<Tables>, txn: Txn)
    requires |hist| > 0 && WindowsOk(Last(hist)) && Ordinary(txn.op)
    ensures WindowsOk(Commit(hist, txn))
  {
    var s, t, u := Last(hist), Arrive(hist, txn.wait), Commit(hist, txn);
    forall i | 0 <= i < |t.enrollments|
      ensures RowWindowOk(t, t.enrollments[i])
    {
      assert RowWindowOk(s, s.enrollments[i]);
    }
    match txn.op
    case Reserve(employee, device, roster, _, _, _) => ReserveKeepsWindows(t, employee, device, roster);
    case ConfirmScan(id, _, _, _) => ConfirmKeepsWindows(t, id);
    case _ => if u.enrollments != t.enrollments { RowOpKeepsWindows(t, u, txn.op); }
  }

  /** The transaction is a late reconciliation of the row, accepted although the stored time lies outside the window it
      reconstructs. */
  ghost predicate Displaces(hist: seq<Tables>, txn: Txn, id: RowId)
    requires |hist| > 0
  {
    && txn.op.ReconcileEvidence? && txn.op.id == id && MayReconcileEvidence(Arrive(hist, txn.wait), id, txn.op.scan)
    && var e := Last(hist).enrollments[id];
    && !(WindowStart(e) <= e.scanTime.value <= e.windowUntil.value)
  }

  /** The row is past its controlled scan. */
  predicate Bound(t: Tables, id: RowId) {
    id < |t.enrollments| && t.enrollments[id].scanTime.Some? && Rank(t.enrollments[id].status) > Rank(ScanPending)
  }

  lemma StaysBound(hist: seq<Tables>, txn: Txn, id: RowId)
    requires Good(hist) && Bound(Last(hist), id)
    ensures Bound(Commit(hist, txn), id)
  {
    CommitKeeps(hist, txn);
    BoundEvolves(Last(hist), Commit(hist, txn), id);
  }

  lemma BoundEvolves(s: Tables, t: Tables, id: RowId)
    requires Evolves(s, t) && Bound(s, id)
    ensures Bound(t, id)
  {
    assert RowEvolves(s.enrollments[id], t.enrollments[id]);
  }

  lemma CommitKeepsTimeIff(hist: seq<Tables>, txn: Txn, id: RowId)
    requires Good(hist) && Bound(Last(hist), id)
    ensures id < |Commit(hist, txn).enrollments|
    ensures Commit(hist, txn).enrollments[id].scanTime == Last(hist).enrollments[id].scanTime <==>
      !Displaces(hist, txn, id)
  {
    if OwnershipOp(txn.op) {
      OwnershipKeepsTime(hist, txn, id);
    } else if txn.op.ReconcileEvidence? {
      var t := Arrive(hist, txn.wait);
      QuietKeeps(Last(hist), t);
      ReconciliationKeepsTimeIff(t, txn.op.id, txn.op.scan, id);
    } else {
      StepsKeepTime(hist, txn, id);
    }
  }

  lemma OwnershipKeepsTime(hist: seq<Tables>, txn: Txn, id: RowId)
    requires |hist| > 0 && OwnershipOp(txn.op) && id < |Last(hist).enrollments|
    ensures id < |Commit(hist, txn).enrollments|
    ensures Commit(hist, txn).enrollments[id].scanTime == Last(hist).enrollments[id].scanTime
  {
  }

  lemma ReconciliationKeepsTimeIff(t: Tables, row: RowId, scan: RowId, id: RowId)
    requires Inv(t) && id < |t.enrollments|
    ensures |ApplyReconcileEvidence(t, row, scan).enrollments| == |t.enrollments|
    ensures ApplyReconcileEvidence(t, row, scan).enrollments[id].scanTime == t.enrollments[id].scanTime <==>
      !(row == id && MayReconcileEvidence(t, id, scan)
        && !(WindowStart(t.enrollments[id]) <= t.enrollments[id].scanTime.value <= t.enrollments[id].windowUntil.value))
  {
    if row == id && MayReconcileEvidence(t, id, scan) { ReconciliationKeepsTimeIffInWindow(t, id, scan); }
  }

  lemma StepsKeepTime(hist: seq<Tables>, txn: Txn, id: RowId)
    requires |hist| > 0 && !OwnershipOp(txn.op) && !txn.op.ReconcileEvidence? && Bound(Last(hist), id)
    ensures id < |Commit(hist, txn).enrollments|
    ensures Commit(hist, txn).enrollments[id].scanTime == Last(hist).enrollments[id].scanTime
  {
  }

  ghost predicate NeverDisplaced(hist: seq<Tables>, txns: seq<Txn>, id: RowId)
    requires |hist| > 0
    decreases |txns|
  {
    txns != [] ==>
      !Displaces(hist, txns[0], id) && NeverDisplaced(hist + [Commit(hist, txns[0])], txns[1..], id)
  }

  /** In all the states from the given one on. */
  predicate SameTimeFrom(all: seq<Tables>, from: nat, id: RowId, x: Option<Time>) {
    forall j | from <= j < |all| :: id < |all[j].enrollments| && all[j].enrollments[id].scanTime == x
  }

  lemma SameTimeStep(all: seq<Tables>, from: nat, id: RowId, x: Option<Time>)
    requires from < |all|
    ensures SameTimeFrom(all, from, id, x) <==>
      (id < |all[from].enrollments| && all[from].enrollments[id].scanTime == x) && SameTimeFrom(all, from + 1, id, x)
  {
  }

  /** Over any run, whatever it reads and however long its windows: the bound scan time stays exactly if no late
      reconciliation of the row is accepted outside the window it reconstructs. */
  lemma {:induction false} EvidenceStaysIff(hist: seq<Tables>, txns: seq<Txn>, id: RowId)
    requires Good(hist) && Bound(Last(hist), id)
    ensures SameTimeFrom(Run(hist, txns), |hist|, id, Last(hist).enrollments[id].scanTime) <==>
      NeverDisplaced(hist, txns, id)
    decreases |txns|
  {
    if txns != [] {
      var u := Commit(hist, txns[0]);
      CommitKeepsTimeIff(hist, txns[0], id);
      StaysBound(hist, txns[0], id);
      CommitExtends(hist, txns[0]);
      SameTimeStep(Run(hist, txns), |hist|, id, Last(hist).enrollments[id].scanTime);
      RunHead(hist, txns, u);
      if !Displaces(hist, txns[0], id) { EvidenceStaysIff(hist + [u], txns[1..], id); }
    }
  }

  lemma OrdinaryCommitKeepsTimes(hist: seq<Tables>, txn: Txn, id: RowId)
    requires Good(hist) && WindowsOk(Last(hist)) && Ordinary(txn.op)
    requires id < |Last(hist).enrollments| && Last(hist).enrollments[id].scanTime.Some?
    ensures id < |Commit(hist, txn).enrollments|
    ensures Commit(hist, txn).enrollments[id].scanTime == Last(hist).enrollments[id].scanTime
  {
    assert RowWindowOk(Last(hist), Last(hist).enrollments[id]);
    CommitKeepsTimeIff(hist, txn, id);
  }

  /** In every run of ordinary transactions a bound scan time never changes again, late reconciliation included. */
  lemma {:induction false} EvidenceNeverMoves(hist: seq<Tables>, txns: seq<Txn>, j: nat, id: RowId)
    requires Good(hist) && WindowsOk(Last(hist)) && forall i | 0 <= i < |txns| :: Ordinary(txns[i].op)
    requires id < |Last(hist).enrollments| && Last(hist).enrollments[id].scanTime.Some?
    requires |hist| <= j < |hist| + |txns|
    ensures id < |Run(hist, txns)[j].enrollments|
    ensures Run(hist, txns)[j].enrollments[id].scanTime == Last(hist).enrollments[id].scanTime
    decreases |txns|
  {
    var next := hist + [Commit(hist, txns[0])];
    OrdinaryCommitKeepsTimes(hist, txns[0], id);
    if j == |hist| {
      assert Run(hist, txns)[..|next|] == next;
    } else {
      CommitExtends(hist, txns[0]);
      OrdinaryCommitKeepsWindows(hist, txns[0]);
      EvidenceNeverMoves(next, txns[1..], j, id);
    }
  }
}
