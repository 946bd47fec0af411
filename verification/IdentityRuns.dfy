/** What every run of the identity operations keeps, when each transaction's unlocked reads may be arbitrarily stale
    and only its locked reads, guarded updates and unique indexes see the tables it commits to. */
module IdentityRuns {
  import opened Basics
  import opened TerminalIds
  import opened Identity

  // ---- Enrollment states over time ----

  function Rank(s: Status): nat {
    match s
    case Reserved => 0
    case TerminalAccountCreated => 1
    case FingerprintPending => 2
    case FingerprintEnrolled => 3
    case ScanPending => 4
    case ScanConfirmed => 5
    case ReadyForMapping => 6
    case Retired => 7
    case Cancelled => 8
  }

  /** Statuses joined by a path of allowed transitions, in closed form. */
  predicate CanReach(a: Status, b: Status) {
    a == b || (!a.Cancelled? && !a.Retired? && (if b.Cancelled? then !a.ReadyForMapping? else Rank(a) < Rank(b)))
  }

  /** The transition table in words: one step up, over the pending fingerprint or not; the controlled scan may be asked
      for again and a confirmed one retired; and whatever is not yet ready for mapping may be cancelled. */
  lemma AllowedIff(a: Status, b: Status)
    ensures b in AllowedTransitions(a) <==>
      || (b.Cancelled? && Rank(a) < Rank(ReadyForMapping))
      || (!b.Cancelled? && Rank(b) == Rank(a) + 1)
      || (a.TerminalAccountCreated? && b.FingerprintEnrolled?)
      || (a.ScanPending? && b.ScanPending?)
      || (a.ScanConfirmed? && b.Retired?)
  {
  }

  ghost predicate IsPath(path: seq<Status>) {
    forall i | 0 <= i < |path| - 1 :: path[i + 1] in AllowedTransitions(path[i])
  }

  function PathTo(a: Status, b: Status): seq<Status>
    requires CanReach(a, b)
    decreases if a == b then 0 else 9 - Rank(a)
  {
    if a == b then [a]
    else if b.Cancelled? then [a, Cancelled]
    else [a] + PathTo(match a
      case Reserved => TerminalAccountCreated
      case TerminalAccountCreated => if b.FingerprintPending? then FingerprintPending else FingerprintEnrolled
      case FingerprintPending => FingerprintEnrolled
      case FingerprintEnrolled => ScanPending
      case ScanPending => ScanConfirmed
      case ScanConfirmed => if b.Retired? then Retired else ReadyForMapping
      case ReadyForMapping => Retired, b)
  }

  lemma {:induction false} PathToIsPath(a: Status, b: Status)
    requires CanReach(a, b)
    ensures |PathTo(a, b)| > 0 && PathTo(a, b)[0] == a && PathTo(a, b)[|PathTo(a, b)| - 1] == b && IsPath(PathTo(a, b))
    decreases if a == b then 0 else 9 - Rank(a)
  {
    if a != b && !b.Cancelled? {
      PathToIsPath(PathTo(a, b)[1], b);
    }
  }

  /** CanReach is exactly reachability in the transition table. */
  lemma {:induction false} CanReachIsPathExistence(a: Status, b: Status)
    ensures CanReach(a, b) <==>
      exists path: seq<Status> :: |path| > 0 && path[0] == a && path[|path| - 1] == b && IsPath(path)
  {
    if CanReach(a, b) {
      PathToIsPath(a, b);
    } else if path: seq<Status> :| |path| > 0 && path[0] == a && path[|path| - 1] == b && IsPath(path) {
      PathStays(path, |path| - 1);
    }
  }

  lemma {:induction false} PathStays(path: seq<Status>, n: nat)
    requires IsPath(path) && n < |path|
    ensures CanReach(path[0], path[n])
  {
    if n > 0 {
      PathStays(path, n - 1);
      assert path[n - 1 + 1] in AllowedTransitions(path[n - 1]);
    }
  }

  // ---- The invariant ----

  predicate SameAccount(a: Enrollment, b: Enrollment) {
    a.account == b.account
  }

  ghost predicate IdsUnique(es: seq<Enrollment>) {
    forall i, j | 0 <= i < j < |es| && SameAccount(es[i], es[j]) :: Reclaimable(es[i]) || Reclaimable(es[j])
  }

  predicate SamePlace(a: Enrollment, b: Enrollment) {
    a.employee == b.employee && a.account.device == b.account.device
  }

  ghost predicate OneActivePerPerson(es: seq<Enrollment>) {
    forall i, j | 0 <= i < j < |es| && SamePlace(es[i], es[j]) ::
      !ActiveStatus(es[i].status) || !ActiveStatus(es[j].status)
  }

  /** Past the reservation the terminal account is on record; from the confirmed scan on, so is the scan. */
  predicate RowOk(t: Tables, e: Enrollment) {
    && (!e.status.Reserved? && !e.status.Cancelled? ==> e.terminalCreatedAt.Some? && e.account in t.deviceUsers)
    && (e.status.ScanConfirmed? || e.status.ReadyForMapping? || e.status.Retired? ==> e.scanTime.Some?)
    && (e.status.ReadyForMapping? ==> e.confirmedBy.Some?)
    && (e.scanTime.Some? ==> Stored(t, e.account, e.scanTime.value))
  }

  ghost predicate EnrollmentsOk(t: Tables) {
    && IdsUnique(t.enrollments) && OneActivePerPerson(t.enrollments)
    && forall i | 0 <= i < |t.enrollments| :: RowOk(t, t.enrollments[i])
  }

  predicate SameScan(a: Scan, b: Scan) {
    a.account == b.account && a.scanTime == b.scanTime
  }

  /** UNIQUE (user_id, device_ip, scan_time), and the foreign key to the terminal account. */
  ghost predicate ScansOk(t: Tables) {
    && (forall i, j | 0 <= i < j < |t.attendance| :: !SameScan(t.attendance[i], t.attendance[j]))
    && forall i | 0 <= i < |t.attendance| ::
         t.attendance[i].account in t.deviceUsers && t.attendance[i].createdAt <= t.now
  }

  predicate UsersOk(t: Tables) {
    forall a | a in t.deviceUsers && t.deviceUsers[a].active :: t.deviceUsers[a].inactiveAt.None?
  }

  predicate EndsBefore(a: Mapping, b: Mapping) {
    a.validTo.Some? && a.validTo.value <= b.validFrom
  }

  predicate Compatible(a: Mapping, b: Mapping) {
    a.verified && b.verified && a.account == b.account ==> EndsBefore(a, b) || EndsBefore(b, a)
  }

  /** Ownership intervals of one account never meet. */
  ghost predicate Disjoint(ms: seq<Mapping>) {
    && (forall i | 0 <= i < |ms| && ms[i].validTo.Some? :: ms[i].validFrom < ms[i].validTo.value)
    && forall i, j | 0 <= i < j < |ms| :: Compatible(ms[i], ms[j])
  }

  ghost predicate Inv(t: Tables) {
    EnrollmentsOk(t) && ScansOk(t) && UsersOk(t) && Disjoint(t.mappings)
  }

  // ---- How tables may change over time ----

  predicate RowEvolves(a: Enrollment, b: Enrollment) {
    && a.employee == b.employee && a.account == b.account && CanReach(a.status, b.status)
    && (a.terminalCreatedAt.Some? ==> b.terminalCreatedAt == a.terminalCreatedAt)
    && (a.scanTime.Some? ==> b.scanTime.Some?)
  }

  /** A mapping only ever changes by being closed. */
  predicate MappingEvolves(a: Mapping, b: Mapping) {
    b == a || (a.validTo.None? && b.validTo.Some? && b.validTo.value > a.validFrom && b == a.(validTo := b.validTo))
  }

  predicate HasRetired(es: seq<Enrollment>, m: Mapping) {
    exists i :: 0 <= i < |es| && es[i].status.Retired? && es[i].account == m.account && es[i].employee == m.employee
  }

  ghost predicate Evolves(s: Tables, t: Tables) {
    && s.now <= t.now
    && s.deviceUsers.Keys <= t.deviceUsers.Keys
    && |s.enrollments| <= |t.enrollments|
    && (forall i | 0 <= i < |s.enrollments| :: RowEvolves(s.enrollments[i], t.enrollments[i]))
    && |s.mappings| <= |t.mappings|
    && (forall i | 0 <= i < |s.mappings| :: MappingEvolves(s.mappings[i], t.mappings[i]))
    && (forall i | |s.mappings| <= i < |t.mappings| && t.mappings[i].verified ::
         HasRetired(t.enrollments, t.mappings[i]))
    && s.attendance <= t.attendance
  }

  lemma EvolvesTransitive(s: Tables, t: Tables, u: Tables)
    requires Evolves(s, t) && Evolves(t, u)
    ensures Evolves(s, u)
  {
  }

  ghost predicate Good(hist: seq<Tables>) {
    && |hist| > 0
    && (forall i | 0 <= i < |hist| :: Inv(hist[i]))
    && forall i, j | 0 <= i <= j < |hist| :: Evolves(hist[i], hist[j])
  }

  function Last(hist: seq<Tables>): Tables
    requires |hist| > 0
  {
    hist[|hist| - 1]
  }

  /** One commit moves each enrollment along at most one allowed transition. */
  predicate OneEdge(s: Tables, t: Tables) {
    && |s.enrollments| <= |t.enrollments|
    && (forall i | 0 <= i < |s.enrollments| ::
         t.enrollments[i].status == s.enrollments[i].status
         || t.enrollments[i].status in AllowedTransitions(s.enrollments[i].status))
    && forall i | |s.enrollments| <= i < |t.enrollments| :: t.enrollments[i].status.Reserved?
  }

  /** What one commit guarantees. */
  ghost predicate Keeps(s: Tables, t: Tables) {
    Inv(t) && Evolves(s, t) && OneEdge(s, t)
  }

  // ---- The resolver ----

  lemma CoveredOnce(t: Tables, account: Account, x: Time, i: RowId)
    requires Disjoint(t.mappings) && i < |t.mappings| && Covers(t.mappings[i], account, x)
    ensures Matches(t, account, x) == {i}
    ensures Resolve(t, account, x) == Some(t.mappings[i].employee)
  {
  }

  lemma ResolveWitness(t: Tables, account: Account, x: Time) returns (i: RowId)
    requires Resolve(t, account, x).Some?
    ensures i < |t.mappings| && Covers(t.mappings[i], account, x)
    ensures Resolve(t, account, x) == Some(t.mappings[i].employee)
  {
    i :| Matches(t, account, x) == {i} && Resolve(t, account, x) == Some(t.mappings[i].employee);
    assert i in Matches(t, account, x);
  }

  // ---- One transaction at a time ----

  /** Only persons, or only the clock, moved. */
  lemma QuietKeeps(s: Tables, t: Tables)
    requires Inv(s) && s.now < t.now
    requires t.deviceUsers == s.deviceUsers && t.enrollments == s.enrollments
    requires t.mappings == s.mappings && t.attendance == s.attendance
    ensures Keeps(s, t)
  {
    forall i | 0 <= i < |t.enrollments|
      ensures RowOk(t, t.enrollments[i])
    {
      assert RowOk(s, s.enrollments[i]);
    }
  }

  /** One enrollment row moved along an allowed transition (or stayed) and kept its obligations. */
  lemma RowUpdateKeeps(s: Tables, t: Tables, id: RowId, e: Enrollment)
    requires Inv(s) && s.now < t.now && id < |s.enrollments|
    requires s.deviceUsers.Keys <= t.deviceUsers.Keys && UsersOk(t)
    requires t.enrollments == s.enrollments[id := e] && t.mappings == s.mappings && t.attendance == s.attendance
    requires RowEvolves(s.enrollments[id], e) && RowOk(t, e)
    requires e.status == s.enrollments[id].status || e.status in AllowedTransitions(s.enrollments[id].status)
    requires e.deviceUid == s.enrollments[id].deviceUid || !e.status.Cancelled?
    requires e.status.Cancelled? ==> e.terminalCreatedAt == s.enrollments[id].terminalCreatedAt
    ensures Keeps(s, t)
  {
    forall i | 0 <= i < |t.enrollments|
      ensures RowOk(t, t.enrollments[i])
    {
      assert RowOk(s, s.enrollments[i]);
    }
  }

  /** Mappings were closed, at whatever time after they began; accounts may have come and gone. */
  lemma ClosingKeeps(s: Tables, t: Tables, c: Time)
    requires Inv(s) && s.now < t.now
    requires s.deviceUsers.Keys <= t.deviceUsers.Keys && UsersOk(t)
    requires t.enrollments == s.enrollments && t.attendance == s.attendance
    requires |t.mappings| == |s.mappings|
    requires forall i | 0 <= i < |s.mappings| :: (t.mappings[i] == s.mappings[i]
      || (s.mappings[i].validTo.None? && s.mappings[i].validFrom < c && t.mappings[i] == Close(s.mappings[i], c)))
    ensures Keeps(s, t)
  {
    forall i | 0 <= i < |t.enrollments|
      ensures RowOk(t, t.enrollments[i])
    {
      assert RowOk(s, s.enrollments[i]);
    }
    forall i, j | 0 <= i < j < |t.mappings|
      ensures Compatible(t.mappings[i], t.mappings[j])
    {
      assert Compatible(s.mappings[i], s.mappings[j]);
    }
  }

  lemma DeactivateKeeps(s: Tables, t: Tables, employee: EmployeeId, lag: nat)
    requires Inv(s) && s.now < t.now && t == s.(now := t.now)
    ensures Keeps(s, ApplyDeactivate(Begun(t, lag), employee).(now := t.now))
  {
    ClosingKeeps(s, ApplyDeactivate(Begun(t, lag), employee).(now := t.now), t.now - lag);
  }

  lemma RosterKeeps(s: Tables, t: Tables, device: DeviceId, observed: map<string, Option<int>>, lag: nat)
    requires Inv(s) && s.now < t.now && t == s.(now := t.now)
    ensures Keeps(s, ApplyRoster(Begun(t, lag), device, observed).(now := t.now))
  {
    ClosingKeeps(s, ApplyRoster(Begun(t, lag), device, observed).(now := t.now), t.now - lag);
  }

  lemma AccountKeeps(s: Tables, t: Tables, a: Account)
    requires Inv(s) && s.now < t.now && t == s.(now := t.now)
    ensures Keeps(s, ApplyRemoveAccount(t, a))
  {
    ClosingKeeps(s, ApplyRemoveAccount(t, a), t.now);
  }

  /** A healed row was ready for mapping and becomes retired; nothing else about it changes. */
  predicate HealStep(a: Enrollment, b: Enrollment) {
    b == a || (a.status.ReadyForMapping? && b == a.(status := Retired, updatedAt := b.updatedAt))
  }

  lemma HealedRows(rows: Tables, t: Tables, employee: EmployeeId, device: DeviceId)
    requires forall e | e in rows.enrollments && CandidateRow(e, employee, device) :: !LifecycleOf(rows, e).InProgress?
    ensures |Healed(rows, t, employee, device)| == |t.enrollments|
    ensures forall i | 0 <= i < |t.enrollments| :: HealStep(t.enrollments[i], Healed(rows, t, employee, device)[i])
  {
  }

  /** Retiring finished rows and inserting a row that meets neither unique index keeps both indexes. */
  lemma InsertKeepsIndexes(es: seq<Enrollment>, healed: seq<Enrollment>, e: Enrollment)
    requires IdsUnique(es) && OneActivePerPerson(es)
    requires |healed| == |es| && forall i | 0 <= i < |es| :: HealStep(es[i], healed[i])
    requires !InsertConflict(healed, e)
    ensures IdsUnique(healed + [e]) && OneActivePerPerson(healed + [e])
  {
    var all := healed + [e];
    forall i, j | 0 <= i < j < |all| && SameAccount(all[i], all[j])
      ensures Reclaimable(all[i]) || Reclaimable(all[j])
    {
      if j < |es| { assert HealStep(es[i], healed[i]) && HealStep(es[j], healed[j]) && SameAccount(es[i], es[j]); }
    }
    forall i, j | 0 <= i < j < |all| && SamePlace(all[i], all[j])
      ensures !ActiveStatus(all[i].status) || !ActiveStatus(all[j].status)
    {
      if j < |es| { assert HealStep(es[i], healed[i]) && HealStep(es[j], healed[j]) && SamePlace(es[i], es[j]); }
    }
  }

  lemma ReserveKeeps(s: Tables, t: Tables, person: Tables, rows: Tables, used: Tables,
                     employee: EmployeeId, device: DeviceId, roster: set<string>)
    requires Inv(s) && s.now < t.now && t == s.(now := t.now)
    ensures Keeps(s, ApplyReserve(person, rows, used, t, employee, device, roster))
  {
    var u := ApplyReserve(person, rows, used, t, employee, device, roster);
    if u == t {
      QuietKeeps(s, u);
    } else {
      var healed := Healed(rows, t, employee, device);
      HealedRows(rows, t, employee, device);
      InsertedKeeps(s, u, healed, u.enrollments[|s.enrollments|]);
    }
  }

  lemma InsertedKeeps(s: Tables, u: Tables, healed: seq<Enrollment>, e: Enrollment)
    requires Inv(s) && s.now < u.now && u == s.(now := u.now, enrollments := healed + [e])
    requires |healed| == |s.enrollments| && forall i | 0 <= i < |healed| :: HealStep(s.enrollments[i], healed[i])
    requires !InsertConflict(healed, e) && e == NewReservation(e.employee, e.account, e.updatedAt)
    ensures Keeps(s, u)
  {
    InsertKeepsIndexes(s.enrollments, healed, e);
    forall i | 0 <= i < |u.enrollments|
      ensures RowOk(u, u.enrollments[i])
    {
      if i < |healed| { assert RowOk(s, s.enrollments[i]) && HealStep(s.enrollments[i], healed[i]); }
    }
    forall i | 0 <= i < |s.enrollments|
      ensures RowEvolves(s.enrollments[i], u.enrollments[i])
    {
      assert HealStep(s.enrollments[i], healed[i]);
    }
  }

  lemma CreateAccountKeeps(s: Tables, t: Tables, id: RowId, uid: Option<int>)
    requires Inv(s) && s.now < t.now && t == s.(now := t.now)
    ensures Keeps(s, ApplyCreateAccount(t, id, uid))
  {
    var u := ApplyCreateAccount(t, id, uid);
    if u == t {
      QuietKeeps(s, u);
    } else {
      assert RowOk(s, s.enrollments[id]);
      RowUpdateKeeps(s, u, id, u.enrollments[id]);
    }
  }

  lemma TransitionKeeps(s: Tables, t: Tables, read: Tables, id: RowId, target: Status)
    requires Inv(s) && s.now < t.now && t == s.(now := t.now)
    ensures Keeps(s, ApplyTransition(read, t, id, target))
  {
    var u := ApplyTransition(read, t, id, target);
    if u == t {
      QuietKeeps(s, u);
    } else {
      assert RowOk(s, s.enrollments[id]);
      RowUpdateKeeps(s, u, id, u.enrollments[id]);
    }
  }

  lemma StartWindowKeeps(s: Tables, t: Tables, read: Tables, id: RowId, minutes: int, lag: nat)
    requires Inv(s) && s.now < t.now && t == s.(now := t.now)
    ensures Keeps(s, ApplyStartWindow(read, t, id, minutes, lag))
  {
    var u := ApplyStartWindow(read, t, id, minutes, lag);
    if u == t {
      QuietKeeps(s, u);
    } else {
      assert RowOk(s, s.enrollments[id]);
      RowUpdateKeeps(s, u, id, u.enrollments[id]);
    }
  }

  lemma ConfirmScanKeeps(s: Tables, t: Tables, row: Tables, user: Tables, scans: Tables, id: RowId)
    requires Inv(s) && s.now < t.now && t == s.(now := t.now)
    requires Evolves(row, t) && Evolves(scans, t)
    ensures Keeps(s, ApplyConfirmScan(row, user, scans, t, id))
  {
    var u := ApplyConfirmScan(row, user, scans, t, id);
    if u == t {
      QuietKeeps(s, u);
    } else {
      var e := row.enrollments[id];
      var k :| Earliest(scans, e.account, e.updatedAt, e.windowUntil.value) == Some(k)
        && IsEarliest(scans, e.account, e.updatedAt, e.windowUntil.value, k);
      assert RowEvolves(e, s.enrollments[id]);
      assert u.attendance[k] == scans.attendance[k];
      assert RowOk(s, s.enrollments[id]);
      RowUpdateKeeps(s, u, id, u.enrollments[id]);
    }
  }

  lemma ReconcileEvidenceKeeps(s: Tables, t: Tables, id: RowId, scan: RowId)
    requires Inv(s) && s.now < t.now && t == s.(now := t.now)
    ensures Keeps(s, ApplyReconcileEvidence(t, id, scan))
  {
    var u := ApplyReconcileEvidence(t, id, scan);
    if u == t {
      QuietKeeps(s, u);
    } else {
      assert RowOk(s, s.enrollments[id]);
      assert u.attendance[scan] == t.attendance[scan];
      RowUpdateKeeps(s, u, id, u.enrollments[id]);
    }
  }

  lemma MarkReadyKeeps(s: Tables, t: Tables, check: Tables, user: Tables, scans: Tables, row: Tables,
                       id: RowId, operator: string)
    requires Inv(s) && s.now < t.now && t == s.(now := t.now)
    ensures Keeps(s, ApplyMarkReady(check, user, scans, row, t, id, operator))
  {
    var u := ApplyMarkReady(check, user, scans, row, t, id, operator);
    if u == t {
      QuietKeeps(s, u);
    } else {
      assert RowOk(s, s.enrollments[id]);
      RowUpdateKeeps(s, u, id, u.enrollments[id]);
    }
  }

  /** The conflict check still holds at the commit although it was made at any earlier time: a mapping inserted since
      would have retired the only enrollment that holds this terminal id, and the guarded update sees that. */
  lemma NoConflictSince(s: Tables, row: Tables, conflict: Tables, id: RowId)
    requires IdsUnique(s.enrollments) && Evolves(row, s) && Evolves(conflict, s)
    requires id < |row.enrollments| && row.enrollments[id].scanTime.Some?
    requires s.enrollments[id].status.ReadyForMapping?
    requires forall m | m in conflict.mappings ::
      !Conflicts(m, row.enrollments[id].account, row.enrollments[id].scanTime.value)
    ensures forall m | m in s.mappings ::
      !Conflicts(m, row.enrollments[id].account, row.enrollments[id].scanTime.value)
  {
    var e := row.enrollments[id];
    assert RowEvolves(e, s.enrollments[id]);
    forall i | 0 <= i < |s.mappings|
      ensures !Conflicts(s.mappings[i], e.account, e.scanTime.value)
    {
      if i < |conflict.mappings| {
        assert MappingEvolves(conflict.mappings[i], s.mappings[i]);
        assert conflict.mappings[i] in conflict.mappings;
      } else if s.mappings[i].verified {
        assert HasRetired(s.enrollments, s.mappings[i]);
        var k :| 0 <= k < |s.enrollments| && s.enrollments[k].status.Retired?
          && s.enrollments[k].account == s.mappings[i].account;
        OneHolder(s.enrollments, id, k);
      }
    }
  }

  /** Two enrollments that both hold an id hold different ids. */
  lemma OneHolder(es: seq<Enrollment>, i: RowId, j: RowId)
    requires IdsUnique(es) && i < |es| && j < |es| && i != j
    requires !Reclaimable(es[i]) && !Reclaimable(es[j])
    ensures es[i].account != es[j].account
  {
  }

  lemma CreateMappingKeeps(s: Tables, t: Tables, row: Tables, user: Tables, person: Tables, scans: Tables,
                           conflict: Tables, id: RowId)
    requires Inv(s) && s.now < t.now && t == s.(now := t.now)
    requires Evolves(row, t) && Evolves(user, t) && Evolves(conflict, t)
    ensures Keeps(s, ApplyCreateMapping(row, user, person, scans, conflict, t, id))
  {
    var u := ApplyCreateMapping(row, user, person, scans, conflict, t, id);
    if u == t {
      QuietKeeps(s, u);
    } else {
      NoConflictSince(t, row, conflict, id);
      assert RowEvolves(row.enrollments[id], s.enrollments[id]);
      MappingInsertedKeeps(s, u, id, u.mappings[|s.mappings|]);
    }
  }

  lemma MappingInsertedKeeps(s: Tables, u: Tables, id: RowId, m: Mapping)
    requires Inv(s) && s.now < u.now && id < |s.enrollments| && s.enrollments[id].status.ReadyForMapping?
    requires m.account == s.enrollments[id].account && m.employee == s.enrollments[id].employee
    requires u == s.(now := u.now, mappings := s.mappings + [m],
      enrollments := s.enrollments[id := s.enrollments[id].(status := Retired, updatedAt := u.now)])
    requires m.validTo.None? && forall x | x in s.mappings :: !Conflicts(x, m.account, m.validFrom)
    ensures Keeps(s, u)
  {
    AppendDisjoint(s.mappings, m);
    forall i | 0 <= i < |u.enrollments|
      ensures RowOk(u, u.enrollments[i])
    {
      assert RowOk(s, s.enrollments[i]);
    }
    assert u.enrollments[id].status.Retired?;
    assert HasRetired(u.enrollments, m);
  }

  lemma AppendDisjoint(ms: seq<Mapping>, m: Mapping)
    requires Disjoint(ms) && m.validTo.None?
    requires forall x | x in ms :: !Conflicts(x, m.account, m.validFrom)
    ensures Disjoint(ms + [m])
  {
    var all := ms + [m];
    forall i, j | 0 <= i < j < |all|
      ensures Compatible(all[i], all[j])
    {
      assert all[i] in ms;
      if j < |ms| { assert Compatible(ms[i], ms[j]); }
    }
  }

  lemma IngestKeeps(s: Tables, t: Tables, account: Account, at: Time)
    requires Inv(s) && s.now < t.now && t == s.(now := t.now)
    ensures Keeps(s, ApplyIngest(t, account, at))
  {
    var u := ApplyIngest(t, account, at);
    forall i | 0 <= i < |u.enrollments|
      ensures RowOk(u, u.enrollments[i])
    {
      assert RowOk(s, s.enrollments[i]);
      if s.enrollments[i].scanTime.Some? { ScanStays(s, u, s.enrollments[i].account, s.enrollments[i].scanTime.value); }
    }
  }

  lemma ScanStays(s: Tables, u: Tables, account: Account, at: Time)
    requires s.attendance <= u.attendance && Stored(s, account, at)
    ensures Stored(u, account, at)
  {
  }

  lemma SameOwnersResolveAlike(s: Tables, u: Tables, account: Account, x: Time)
    requires s.mappings == u.mappings && Disjoint(u.mappings)
    ensures Resolve(u, account, x) == Resolve(s, account, x)
  {
  }

  /** Whatever state an unlocked read saw, the tables met at the commit evolved from it. */
  ghost predicate ReadsEvolve(hist: seq<Tables>, txn: Txn) {
    |hist| > 0 && forall r: Read :: Evolves(Look(hist, txn, r), Arrive(hist, txn.wait))
  }

  lemma ReadsDoEvolve(hist: seq<Tables>, txn: Txn)
    requires Good(hist)
    ensures ReadsEvolve(hist, txn)
  {
  }

  /** Every commit keeps the invariant, whatever earlier states its unlocked reads saw. */
  lemma CommitKeeps(hist: seq<Tables>, txn: Txn)
    requires Good(hist)
    ensures Keeps(Last(hist), Commit(hist, txn))
  {
    ReadsDoEvolve(hist, txn);
    if OwnershipOp(txn.op) { OwnershipOpKeeps(hist, txn); } else { EnrollmentOpKeeps(hist, txn); }
  }

  lemma OwnershipOpKeeps(hist: seq<Tables>, txn: Txn)
    requires ReadsEvolve(hist, txn) && Inv(Last(hist)) && OwnershipOp(txn.op)
    ensures Keeps(Last(hist), Commit(hist, txn))
  {
    var s, t := Last(hist), Arrive(hist, txn.wait);
    match txn.op
    case AddHuman(employee) => QuietKeeps(s, ApplyAddHuman(t, employee));
    case Deactivate(employee, lag) => DeactivateKeeps(s, t, employee, lag);
    case Reactivate(employee) => QuietKeeps(s, ApplyReactivate(t, employee));
    case RosterReconcile(device, observed, lag) => RosterKeeps(s, t, device, observed, lag);
    case RemoveAccount(account) => AccountKeeps(s, t, account);
    case Ingest(account, at) => IngestKeeps(s, t, account, at);
    case CreateMapping(id, rRow, rUser, rPerson, rScans, rConflict) =>
      CreateMappingKeeps(s, t, Look(hist, txn, rRow), Look(hist, txn, rUser), Look(hist, txn, rPerson),
                         Look(hist, txn, rScans), Look(hist, txn, rConflict), id);
  }

  lemma EnrollmentOpKeeps(hist: seq<Tables>, txn: Txn)
    requires ReadsEvolve(hist, txn) && Inv(Last(hist)) && !OwnershipOp(txn.op)
    ensures Keeps(Last(hist), Commit(hist, txn))
  {
    var s, t := Last(hist), Arrive(hist, txn.wait);
    match txn.op
    case Reserve(employee, device, roster, rPerson, rRows, rUsed) =>
      ReserveKeeps(s, t, Look(hist, txn, rPerson), Look(hist, txn, rRows), Look(hist, txn, rUsed), employee, device,
                   roster);
    case CreateAccount(id, uid) => CreateAccountKeeps(s, t, id, uid);
    case Transition(id, target, rRow) => TransitionKeeps(s, t, Look(hist, txn, rRow), id, target);
    case StartWindow(id, minutes, lag, rRow) => StartWindowKeeps(s, t, Look(hist, txn, rRow), id, minutes, lag);
    case ConfirmScan(id, rRow, rUser, rScans) =>
      ConfirmScanKeeps(s, t, Look(hist, txn, rRow), Look(hist, txn, rUser), Look(hist, txn, rScans), id);
    case ReconcileEvidence(id, scan) => ReconcileEvidenceKeeps(s, t, id, scan);
    case MarkReady(id, operator, rCheck, rUser, rScans, rRow) =>
      MarkReadyKeeps(s, t, Look(hist, txn, rCheck), Look(hist, txn, rUser), Look(hist, txn, rScans),
                     Look(hist, txn, rRow), id, operator);
  }

  lemma Extends(hist: seq<Tables>, u: Tables)
    requires Good(hist) && Keeps(Last(hist), u)
    ensures Good(hist + [u])
  {
    forall i, j | 0 <= i <= j < |hist| + 1
      ensures Evolves((hist + [u])[i], (hist + [u])[j])
    {
      if i < j == |hist| { EvolvesTransitive(hist[i], Last(hist), u); }
      else if j == |hist| { assert Evolves(u, u); }
    }
  }

  lemma CommitExtends(hist: seq<Tables>, txn: Txn)
    requires Good(hist)
    ensures Good(hist + [Commit(hist, txn)])
  {
    CommitKeeps(hist, txn);
    Extends(hist, Commit(hist, txn));
  }

  /** Main result: along every run the invariant holds in every state, later states evolve from earlier ones, and each
      step moves an enrollment along at most one allowed transition. */
  lemma {:induction false} RunKeeps(hist: seq<Tables>, txns: seq<Txn>)
    requires Good(hist)
    ensures Good(Run(hist, txns))
    ensures forall i | |hist| <= i < |hist| + |txns| :: OneEdge(Run(hist, txns)[i - 1], Run(hist, txns)[i])
    decreases |txns|
  {
    if txns != [] {
      CommitKeeps(hist, txns[0]);
      CommitExtends(hist, txns[0]);
      var next := hist + [Commit(hist, txns[0])];
      RunKeeps(next, txns[1..]);
      assert Run(hist, txns)[..|hist| + 1] == next;
    }
  }

  /** Enrollment operations leave persons and mappings alone and at most add the enrollment's own account. */
  lemma EnrollmentOpTouches(hist: seq<Tables>, txn: Txn)
    requires |hist| > 0 && !OwnershipOp(txn.op)
    ensures var t, u := Arrive(hist, txn.wait), Commit(hist, txn);
      && u.mappings == t.mappings && u.humans == t.humans && u.attendance == t.attendance
      && (u.deviceUsers == t.deviceUsers || exists a :: u.deviceUsers == EnsureDeviceUser(t, a))
  {
    match txn.op
    case CreateAccount(id, uid) =>
      var t, u := Arrive(hist, txn.wait), Commit(hist, txn);
      if u != t { assert u.deviceUsers == EnsureDeviceUser(t, t.enrollments[id].account); }
    case _ =>
  }
}
