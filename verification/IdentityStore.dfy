/** The identity operations as the code performs them: step by step on mutable tables, each proved to have exactly the
    effect that the run theorems are about. A refused operation leaves every table alone. */
module IdentityStore {
  import opened Basics
  import opened TerminalIds
  import opened Identity
  import opened Roster
  import opened IdentityTheorems
  import opened IdentityAtomic
  import opened IdentityTerms

  datatype Result<+T> = Success(value: T) | Failure(error: Refusal)

  datatype Refusal = NoOperator | NotEligible | AlreadyEnrolling | NotFound | WrongState | NoEvidence
                   | AccountInactive | PersonInactive | Conflicting | BadInterval

  datatype Observed = Observed(user: string, uid: Option<int>)

  datatype Confirmed = Confirmed(mapping: RowId, alreadyCompleted: bool)

  /** The snapshot as a dictionary: entries without an id are dropped, the last entry of an id wins. */
  function ObservedMap(users: seq<Observed>): map<string, Option<int>> {
    if users == [] then map[]
    else
      var u, rest := users[|users| - 1], ObservedMap(users[..|users| - 1]);
      if u.user == "" then rest else rest[u.user := u.uid]
  }

  /** The snapshot has exactly the ids that some entry shows, each with the uid of its last entry. */
  lemma {:induction false} ObservedIs(users: seq<Observed>, name: string)
    ensures name in ObservedMap(users) <==> name != "" && exists i :: 0 <= i < |users| && users[i].user == name
    ensures forall i | 0 <= i < |users| && users[i].user == name && name != "" ::
      (forall j | i < j < |users| :: users[j].user != name) ==> ObservedMap(users)[name] == users[i].uid
    decreases |users|
  {
    if users != [] { ObservedIs(users[..|users| - 1], name); }
  }

  /** The newest VERIFIED mapping of the person on the account. */
  predicate IsNewest(t: Tables, employee: EmployeeId, account: Account, i: RowId) {
    && i < |t.mappings| && t.mappings[i].verified
    && t.mappings[i].employee == employee && t.mappings[i].account == account
    && forall j | i < j < |t.mappings| ::
         !(t.mappings[j].verified && t.mappings[j].employee == employee && t.mappings[j].account == account)
  }

  // ---- Evidence ----

  predicate Nearer(x: Time, a: (RowId, Time), b: (RowId, Time)) {
    var da, db := Abs(a.1 - x), Abs(b.1 - x);
    da < db || (da == db && a.0 <= b.0)
  }

  /** The candidate that is least by distance, then by row id. */
  method PickNearestAttendance(candidates: seq<(RowId, Time)>, x: Time) returns (best: Option<RowId>)
    ensures best.None? <==> candidates == []
    ensures best.Some? ==>
      exists c :: c in candidates && c.0 == best.value && forall d | d in candidates :: Nearer(x, c, d)
  {
    best := None;
    var bestDelta: Option<nat> := None;
    ghost var at: nat := 0;
    for i := 0 to |candidates|
      invariant best.None? <==> i == 0
      invariant bestDelta.None? <==> i == 0
      invariant i > 0 ==> at < i && best == Some(candidates[at].0) && bestDelta == Some(Abs(candidates[at].1 - x))
      invariant i > 0 ==> forall k | 0 <= k < i :: Nearer(x, candidates[at], candidates[k])
    {
      var (id, scanTime) := candidates[i];
      var delta := Abs(scanTime - x);
      if bestDelta.None? || delta < bestDelta.value || (delta == bestDelta.value && id < best.value) {
        best := Some(id);
        bestDelta := Some(delta);
        at := i;
      }
    }
    if candidates != [] {
      assert candidates[at] in candidates;
    }
  }

  // ---- Steps of an enrollment ----

  /** The columns a step sets besides the status. */
  datatype Extra = Extra(windowUntil: Option<Time>, confirmedBy: Option<string>)

  const NOTHING := Extra(None, None)

  /** The tables after a step that reads and updates the row at once. */
  function Transitioned(t: Tables, id: RowId, target: Status, extra: Extra): Tables {
    if !MayTransition(t, t, id, target) then t
    else
      var e := t.enrollments[id];
      t.(enrollments := t.enrollments[id := e.(
        status := target, updatedAt := t.now,
        windowUntil := if extra.windowUntil.Some? then extra.windowUntil else e.windowUntil,
        confirmedBy := if extra.confirmedBy.Some? then extra.confirmedBy else e.confirmedBy)])
  }

  class Store {
    var now: Time
    var humans: map<EmployeeId, Human>
    var devices: map<DeviceId, bool>
    var deviceUsers: map<Account, DeviceUser>
    var enrollments: seq<Enrollment>
    var mappings: seq<Mapping>
    var attendance: seq<Scan>

    function State(): Tables
      reads this
    {
      Tables(now, humans, devices, deviceUsers, enrollments, mappings, attendance)
    }

    constructor (t: Tables)
      ensures State() == t
    {
      now := t.now;
      humans := t.humans;
      devices := t.devices;
      deviceUsers := t.deviceUsers;
      enrollments := t.enrollments;
      mappings := t.mappings;
      attendance := t.attendance;
    }

    /** Fetches the account's scans in the window around x and picks the nearest. */
    method ResolveControlledAttendanceId(account: Account, x: Time) returns (r: Option<RowId>)
      ensures r == Evidence(State(), account, x)
      ensures r.Some? <==> ScanNear(State(), account, x)
      ensures r.Some? ==>
        && r.value < |attendance| && attendance[r.value].account == account
        && forall j | 0 <= j < |attendance| && attendance[j].account == account ::
             var d, n := Abs(attendance[j].scanTime - x), Abs(attendance[r.value].scanTime - x);
             n < d || (n == d && r.value <= j)
    {
      var candidates: seq<(RowId, Time)> := [];
      for i := 0 to |attendance|
        invariant forall c | c in candidates ::
          c.0 < i && Candidate(State(), account, x, c.0) && c.1 == attendance[c.0].scanTime
        invariant forall j: RowId | j < i && Candidate(State(), account, x, j) ::
          (j, attendance[j].scanTime) in candidates
      {
        if Candidate(State(), account, x, i) {
          candidates := candidates + [(i, attendance[i].scanTime)];
        }
      }
      r := PickNearestAttendance(candidates, x);
      NearestIsEvidence(State(), account, x, candidates, r);
    }

    method ReserveNextDeviceUserId(employee: EmployeeId, device: DeviceId, operator: string, roster: set<string>)
      returns (r: Result<RowId>)
      modifies this
      ensures Blank(operator) ==> r.Failure? && State() == old(State())
      ensures !Blank(operator) ==> State() == ApplyReserve(old(State()), old(State()), old(State()), old(State()),
                                                         employee, device, roster)
      ensures r.Success? <==> !Blank(operator) && Eligible(old(State()), employee, device)
      ensures r.Failure? ==> State() == old(State())
      ensures r.Success? ==>
        && r.value == old(|enrollments|)
        && State() == old(State()).(enrollments := enrollments)
        && ReservedFor(old(State()), enrollments, employee, device, roster)
    {
      ReservationIs(State(), employee, device, roster);
      if Blank(operator) {
        return Failure(NoOperator);
      }
      if employee !in humans || !humans[employee].active || !humans[employee].productionScope {
        return Failure(NotEligible);
      }
      if device !in devices || !devices[device] {
        return Failure(NotEligible);
      }
      ghost var t := State();
      var saved := enrollments;
      var busy := RetireFinished(employee, device);
      if busy {
        return Failure(AlreadyEnrolling);
      }
      MayReserveIffEligible(t, employee, device);
      assert MayReserve(t, t, employee, device);
      var id := FindNextAvailableId(UsedIds(State().(enrollments := saved), device), roster);
      assert UsedIds(State().(enrollments := saved), device) == UsedIds(t, device);
      var row := NewReservation(employee, Account(device, id), now);
      if InsertConflict(enrollments, row) {
        // the unique indexes refuse a row only if another reservation commits in between, as in Identity.ApplyReserve
        assert false;
      }
      enrollments := enrollments + [row];
      r := Success(|saved|);
    }

    /** The person's active rows on the device whose work is finished lose their stale status; one in progress stops it
        and undoes it. */
    method RetireFinished(employee: EmployeeId, device: DeviceId) returns (busy: bool)
      modifies `enrollments
      ensures busy <==> exists e ::
        e in old(enrollments) && CandidateRow(e, employee, device) && LifecycleOf(old(State()), e).InProgress?
      ensures enrollments ==
        if busy then old(enrollments) else Healed(old(State()), old(State()), employee, device)
    {
      ghost var t := State();
      var saved := enrollments;
      for i := 0 to |saved|
        invariant State() == t.(enrollments := enrollments) && |enrollments| == |saved|
        invariant forall k | 0 <= k < i && CandidateRow(saved[k], employee, device) ::
          !LifecycleOf(t, saved[k]).InProgress?
        invariant forall k | 0 <= k < i :: enrollments[k] == Healed(t, t, employee, device)[k]
        invariant forall k | i <= k < |saved| :: enrollments[k] == saved[k]
      {
        var e := saved[i];
        if CandidateRow(e, employee, device) {
          var verified := exists m :: m in mappings && m.verified && m.account == e.account && m.employee == e.employee;
          var open := exists m :: m in mappings && m.verified && m.account == e.account && m.employee == e.employee
                                  && m.validTo.None?;
          var present := e.account in deviceUsers && deviceUsers[e.account].active;
          var state := DeriveLifecycle(e.status, present, verified, open);
          assert state == LifecycleOf(t, e);
          if state.InProgress? {
            enrollments := saved;
            assert saved[i] in t.enrollments;
            return true;
          }
          enrollments := enrollments[i := e.(status := Retired, updatedAt := now)];
        }
      }
      busy := false;
    }

    /** Binds the earliest scan of the open window. */
    method ConfirmControlledScan(id: RowId) returns (r: Result<RowId>)
      modifies this
      ensures State() == ApplyConfirmScan(old(State()), old(State()), old(State()), old(State()), id)
      ensures r.Success? <==>
        && id < |old(enrollments)|
        && var e := old(enrollments)[id];
        && e.status.ScanPending? && e.windowUntil.Some? && e.account in old(deviceUsers)
        && old(deviceUsers)[e.account].active
        && exists s ::
             s in old(attendance) && s.account == e.account && e.updatedAt <= s.scanTime <= e.windowUntil.value
      ensures r.Failure? ==> State() == old(State())
      ensures r.Success? ==>
        var e := old(enrollments)[id];
        && r.value < |attendance| && attendance[r.value].account == e.account
        && e.updatedAt <= attendance[r.value].scanTime <= e.windowUntil.value
        && (forall s | s in attendance && s.account == e.account && e.updatedAt <= s.scanTime <= e.windowUntil.value ::
             attendance[r.value].scanTime <= s.scanTime)
        && State() == old(State()).(enrollments := old(enrollments)[id := e.(
             status := ScanConfirmed, scanTime := Some(attendance[r.value].scanTime), updatedAt := now)])
    {
      if id >= |enrollments| {
        return Failure(NotFound);
      }
      var e := enrollments[id];
      if !e.status.ScanPending? || e.windowUntil.None? {
        return Failure(WrongState);
      }
      if e.account !in deviceUsers || !deviceUsers[e.account].active {
        return Failure(AccountInactive);
      }
      var first: Option<RowId> := None;
      for i := 0 to |attendance|
        invariant first.None? ==>
          forall j: RowId | j < i :: !InWindow(State(), e.account, e.updatedAt, e.windowUntil.value, j)
        invariant first.Some? ==>
          first.value < i && InWindow(State(), e.account, e.updatedAt, e.windowUntil.value, first.value)
        invariant first.Some? ==>
          forall j: RowId | j < i && InWindow(State(), e.account, e.updatedAt, e.windowUntil.value, j) ::
            attendance[first.value].scanTime <= attendance[j].scanTime
      {
        if InWindow(State(), e.account, e.updatedAt, e.windowUntil.value, i)
           && (first.None? || attendance[i].scanTime < attendance[first.value].scanTime) {
          first := Some(i);
        }
      }
      if first.None? {
        assert Earliest(State(), e.account, e.updatedAt, e.windowUntil.value).None?;
        forall s | s in attendance && s.account == e.account
          ensures !(e.updatedAt <= s.scanTime <= e.windowUntil.value)
        {
          var j :| 0 <= j < |attendance| && attendance[j] == s;
          assert !InWindow(State(), e.account, e.updatedAt, e.windowUntil.value, j);
        }
        return Failure(NoEvidence);
      }
      EarliestTime(State(), e.account, e.updatedAt, e.windowUntil.value, first.value);
      enrollments := enrollments[id := e.(
        status := ScanConfirmed, scanTime := Some(attendance[first.value].scanTime), updatedAt := now)];
      r := Success(first.value);
    }

    /** Checks in order, inserts, then retires the enrollment; confirming a finished enrollment again only reports the
        mapping it already has. */
    method CreateVerifiedMapping(id: RowId, verifiedBy: string, note: string) returns (r: Result<Confirmed>)
      modifies this
      ensures Blank(verifiedBy) || Blank(note) ==> r.Failure? && State() == old(State())
      ensures !Blank(verifiedBy) && !Blank(note) ==>
        var t := old(State()); State() == ApplyCreateMapping(t, t, t, t, t, t, id)
      ensures r.Success? && !r.value.alreadyCompleted <==>
        !Blank(verifiedBy) && !Blank(note) && Creatable(old(State()), id)
      ensures r.Success? && !r.value.alreadyCompleted ==>
        var e := old(enrollments)[id];
        && r.value.mapping == old(|mappings|)
        && State() == old(State()).(
             mappings := old(mappings) + [Mapping(e.employee, e.account, true, e.scanTime.value, None)],
             enrollments := old(enrollments)[id := e.(status := Retired, updatedAt := now)])
      ensures r.Success? && r.value.alreadyCompleted <==>
        !Blank(verifiedBy) && !Blank(note) && AlreadyMapped(old(State()), id)
      ensures r.Success? && r.value.alreadyCompleted ==>
        IsNewest(State(), enrollments[id].employee, enrollments[id].account, r.value.mapping)
      ensures r.Failure? || r.value.alreadyCompleted ==> State() == old(State())
    {
      if Blank(verifiedBy) || Blank(note) {
        return Failure(NoOperator);
      }
      if id >= |enrollments| {
        return Failure(NotFound);
      }
      var e := enrollments[id];
      if !e.status.ReadyForMapping? && !e.status.Retired? {
        return Failure(WrongState);
      }
      if e.scanTime.None? || e.confirmedBy.None? {
        return Failure(NoEvidence);
      }
      if e.account !in deviceUsers || !deviceUsers[e.account].active {
        return Failure(AccountInactive);
      }
      if e.status.Retired? {
        var i := |mappings|;
        while i > 0
          invariant 0 <= i <= |mappings|
          invariant forall j | i <= j < |mappings| ::
            !(mappings[j].verified && mappings[j].employee == e.employee && mappings[j].account == e.account)
        {
          i := i - 1;
          if mappings[i].verified && mappings[i].employee == e.employee && mappings[i].account == e.account {
            return Success(Confirmed(i, true));
          }
        }
        return Failure(Conflicting);
      }
      if e.employee !in humans || !humans[e.employee].active {
        return Failure(PersonInactive);
      }
      var evidence := ResolveControlledAttendanceId(e.account, e.scanTime.value);
      if evidence.None? {
        return Failure(NoEvidence);
      }
      if exists m :: m in mappings && Conflicts(m, e.account, e.scanTime.value) {
        return Failure(Conflicting);
      }
      mappings := mappings + [Mapping(e.employee, e.account, true, e.scanTime.value, None)];
      enrollments := enrollments[id := e.(status := Retired, updatedAt := now)];
      r := Success(Confirmed(|mappings| - 1, false));
    }

    /** Closes the person's open mappings one by one; the schema refuses to close one before it began. */
    method DeactivateHuman(employee: EmployeeId, operator: string, reason: string) returns (r: Result<seq<RowId>>)
      modifies this
      ensures Blank(operator) || Blank(reason) ==> r.Failure? && State() == old(State())
      ensures !Blank(operator) && !Blank(reason) ==> State() == ApplyDeactivate(old(State()), employee)
      ensures r.Success? <==>
        && !Blank(operator) && !Blank(reason) && employee in old(humans)
        && (old(humans)[employee].active ==>
             forall m | m in old(mappings) && m.verified && m.employee == employee && m.validTo.None? ::
               m.validFrom < now)
      ensures r.Failure? || !old(humans)[employee].active ==> State() == old(State()) && (r.Success? ==> r.value == [])
      ensures r.Success? && old(humans)[employee].active ==>
        && State() == old(State()).(humans := humans, mappings := mappings) && |mappings| == |old(mappings)|
        && humans == old(humans)[employee := old(humans)[employee].(active := false)]
        && forall i | 0 <= i < |mappings| ::
             var m := old(mappings)[i];
             var closes := m.verified && m.employee == employee && m.validTo.None?;
             mappings[i] == (if closes then m.(validTo := Some(now)) else m) && (i in r.value <==> closes)
    {
      if Blank(operator) || Blank(reason) {
        return Failure(NoOperator);
      }
      if employee !in humans {
        return Failure(NotFound);
      }
      if !humans[employee].active {
        return Success([]);
      }
      ghost var t := State();
      var saved, savedHumans := mappings, humans;
      humans := humans[employee := humans[employee].(active := false)];
      var closed: seq<RowId> := [];
      for i := 0 to |saved|
        invariant |mappings| == |saved| && State() == t.(humans := humans, mappings := mappings)
        invariant humans == savedHumans[employee := savedHumans[employee].(active := false)]
        invariant forall k | 0 <= k < i :: !(OpenOf(saved[k], employee) && saved[k].validFrom >= now)
        invariant forall k | 0 <= k < i ::
          mappings[k] == (if OpenOf(saved[k], employee) then Close(saved[k], now) else saved[k])
        invariant forall k | i <= k < |saved| :: mappings[k] == saved[k]
        invariant forall k :: k in closed <==> 0 <= k < i && OpenOf(saved[k], employee)
      {
        if OpenOf(saved[i], employee) {
          if saved[i].validFrom >= now {
            mappings, humans := saved, savedHumans;
            return Failure(BadInterval);
          }
          mappings := mappings[i := Close(saved[i], now)];
          closed := closed + [i];
        }
      }
      r := Success(closed);
    }

    /** The status-guarded update behind every step of an enrollment, to any target, with the columns some steps add. */
    method TransitionTo(id: RowId, target: Status, extra: Extra) returns (r: Result<Status>)
      modifies this
      ensures r.Success? <==> id < old(|enrollments|) && target in AllowedTransitions(old(enrollments)[id].status)
      ensures State() == Transitioned(old(State()), id, target, extra)
      ensures r.Failure? ==> State() == old(State())
      ensures r.Success? ==>
        var e := old(enrollments)[id];
        && r.value == target
        && State() == old(State()).(enrollments := old(enrollments)[id := e.(
             status := target, updatedAt := now,
             windowUntil := if extra.windowUntil.Some? then extra.windowUntil else e.windowUntil,
             confirmedBy := if extra.confirmedBy.Some? then extra.confirmedBy else e.confirmedBy)])
      ensures target in {FingerprintPending, FingerprintEnrolled, Cancelled, Retired} && extra == NOTHING ==>
        State() == ApplyTransition(old(State()), old(State()), id, target)
    {
      if id >= |enrollments| {
        return Failure(NotFound);
      }
      var e := enrollments[id];
      if target !in AllowedTransitions(e.status) {
        return Failure(WrongState);
      }
      if extra.windowUntil.Some? { e := e.(windowUntil := extra.windowUntil); }
      if extra.confirmedBy.Some? { e := e.(confirmedBy := extra.confirmedBy); }
      enrollments := enrollments[id := e.(status := target, updatedAt := now)];
      r := Success(target);
    }

    /** Opens, or opens again, the window in which the controlled scan is to be made. */
    method StartControlledScanWindow(id: RowId, minutes: int, lag: nat) returns (r: Result<Status>)
      modifies this
      ensures State() == ApplyStartWindow(old(State()), old(State()), id, minutes, lag)
      ensures r.Success? <==>
        id < |old(enrollments)| && old(enrollments)[id].status in {FingerprintEnrolled, ScanPending}
      ensures r.Failure? ==> State() == old(State())
      ensures r.Success? ==>
        State() == old(State()).(enrollments := old(enrollments)[id := old(enrollments)[id].(
          status := ScanPending, updatedAt := now,
          windowUntil := Some(now - lag + (if minutes < 1 then 1 else minutes) * MINUTE))])
    {
      var until := now - lag + Max(1, minutes) * MINUTE;
      r := TransitionTo(id, ScanPending, Extra(Some(until), None));
    }

    /** reconcile_controlled_scan_evidence: checks in order, and writes the one column. */
    method ReconcileControlledScanEvidence(id: RowId, scan: RowId, operator: string) returns (r: Result<Time>)
      modifies this
      ensures !Blank(operator) ==> State() == ApplyReconcileEvidence(old(State()), id, scan)
      ensures r.Success? <==> !Blank(operator) && Reconcilable(old(State()), id, scan)
      ensures r.Failure? ==> State() == old(State())
      ensures r.Success? ==>
        && r.value == attendance[scan].scanTime
        && State() == old(State()).(enrollments := old(enrollments)[id := old(enrollments)[id].(
             scanTime := Some(attendance[scan].scanTime), updatedAt := now)])
    {
      ReconcilableIs(State(), id, scan);
      if Blank(operator) {
        return Failure(NoOperator);
      }
      if id >= |enrollments| {
        return Failure(NotFound);
      }
      var e := enrollments[id];
      if e.windowUntil.None? || e.scanTime.None? {
        return Failure(NoEvidence);
      }
      var until := e.windowUntil.value;
      var start := until - DEFAULT_WINDOW_MINUTES * MINUTE;
      if e.account !in deviceUsers || !deviceUsers[e.account].active {
        return Failure(AccountInactive);
      }
      if scan >= |attendance| || attendance[scan].account != e.account
         || !(start <= attendance[scan].scanTime <= until) {
        return Failure(NoEvidence);
      }
      for i := 0 to |attendance|
        invariant forall j: RowId | j < i && InWindow(State(), e.account, start, until, j) :: j == scan
      {
        if attendance[i].account == e.account && start <= attendance[i].scanTime <= until && i != scan {
          assert InWindow(State(), e.account, start, until, i);
          return Failure(NoEvidence);
        }
      }
      if exists m :: m in mappings && Conflicts(m, e.account, attendance[scan].scanTime) {
        return Failure(Conflicting);
      }
      enrollments := enrollments[id := e.(scanTime := Some(attendance[scan].scanTime), updatedAt := now)];
      r := Success(attendance[scan].scanTime);
    }

    /** Operator confirmation: the recorded scan must still resolve before the row may move on. */
    method MarkReadyForMapping(id: RowId, operator: string) returns (r: Result<RowId>)
      modifies this
      ensures var t := old(State()); State() == ApplyMarkReady(t, t, t, t, t, id, operator)
      ensures r.Success? <==>
        && !Blank(operator) && id < |old(enrollments)|
        && var e := old(enrollments)[id];
        && e.status.ScanConfirmed? && e.scanTime.Some? && e.account in old(deviceUsers)
        && ScanNear(old(State()), e.account, e.scanTime.value)
      ensures r.Failure? ==> State() == old(State())
      ensures r.Success? ==>
        && State() == old(State()).(enrollments := old(enrollments)[id := old(enrollments)[id].(
             status := ReadyForMapping, confirmedBy := Some(operator), updatedAt := now)])
        && Some(r.value) == Evidence(old(State()), enrollments[id].account, enrollments[id].scanTime.value)
    {
      if Blank(operator) {
        return Failure(NoOperator);
      }
      if id >= |enrollments| {
        return Failure(NotFound);
      }
      var e := enrollments[id];
      if e.scanTime.None? || e.account !in deviceUsers {
        return Failure(NoEvidence);
      }
      var evidence := ResolveControlledAttendanceId(e.account, e.scanTime.value);
      if evidence.None? {
        return Failure(NoEvidence);
      }
      var moved := TransitionTo(id, ReadyForMapping, Extra(None, Some(operator)));
      r := if moved.Success? then Success(evidence.value) else Failure(WrongState);
    }

    /** One snapshot: read into a dictionary, then the observed accounts, then the missing ones. */
    method ReconcileRosterLifecycle(device: DeviceId, users: seq<Observed>) returns (r: Result<Summary>)
      modifies this
      ensures State() == ApplyRoster(old(State()), device, ObservedMap(users))
      ensures r.Success? <==> Accepted(old(State()), device, ObservedMap(users))
      ensures r.Success? ==> r.value == SummaryOf(old(State()), device, ObservedMap(users))
    {
      ghost var t := State();
      var observed := ReadSnapshot(users);
      var savedUsers, savedMappings := deviceUsers, mappings;
      var newUsers, back, anomalies := ObserveAccounts(t, device, observed);
      var refused, missing, closed := MarkMissing(t, device, observed, savedUsers);
      if refused {
        deviceUsers, mappings := savedUsers, savedMappings;
        RefusedSnapshot(t, device, observed);
        return Failure(BadInterval);
      }
      RosterHalves(t, device, observed);
      r := Success(Summary(|observed|, newUsers, missing, back, anomalies, closed));
    }

    /** Every account in the snapshot is present again, or new. */
    method ObserveAccounts(ghost t: Tables, device: DeviceId, observed: map<string, Option<int>>)
      returns (newUsers: nat, back: nat, anomalies: nat)
      requires deviceUsers == t.deviceUsers
      modifies this`deviceUsers
      ensures deviceUsers == AfterObserving(t, device, observed, observed.Keys)
      ensures newUsers == |NewAccounts(t, device, observed)|
      ensures back == |Reappeared(t, device, observed)|
      ensures anomalies == |UidAnomalies(t, device, observed)|
    {
      newUsers, back, anomalies := 0, 0, 0;
      var known := deviceUsers;
      var rest := observed.Keys;
      NothingDone(t, device, observed);
      while rest != {}
        invariant rest <= observed.Keys
        invariant deviceUsers == AfterObserving(t, device, observed, observed.Keys - rest)
        invariant Summary(0, newUsers, 0, back, anomalies, 0) == ObservedCounts(t, device, observed, rest)
      {
        var name :| name in rest;
        ObservingStep(t, device, observed, rest, name);
        var isNew, isBack, isOdd := ObserveOne(Account(device, name), observed[name], known);
        newUsers := newUsers + isNew;
        back := back + isBack;
        anomalies := anomalies + isOdd;
        rest := rest - {name};
      }
      AllDone(t, device, observed);
    }

    /** One observed account: brought back or kept if known, inserted if new. The counts are each 0 or 1. */
    method ObserveOne(a: Account, uid: Option<int>, known: map<Account, DeviceUser>)
      returns (isNew: nat, isBack: nat, isOdd: nat)
      modifies this`deviceUsers
      ensures deviceUsers == old(deviceUsers)[a :=
        if a in known then Observe(known[a], uid) else DeviceUser(true, None, uid, 1)]
      ensures isNew == if a in known then 0 else 1
      ensures isBack == if a in known && known[a].inactiveAt.Some? then 1 else 0
      ensures isOdd == if a in known && known[a].uid.Some? && uid.Some? && known[a].uid != uid then 1 else 0
    {
      isNew, isBack, isOdd := 0, 0, 0;
      if a in known {
        if known[a].uid.Some? && uid.Some? && known[a].uid != uid {
          isOdd := 1;
        }
        if known[a].inactiveAt.Some? {
          isBack := 1;
        }
        deviceUsers := deviceUsers[a := DeviceUser(true, None, if uid.Some? then uid else known[a].uid,
                                                   known[a].incarnation + isBack)];
      } else {
        deviceUsers := deviceUsers[a := DeviceUser(true, None, uid, 1)];
        isNew := 1;
      }
    }

    /** Closes the account's open VERIFIED mappings now, unless one would end before it began. */
    method CloseMappingsOf(a: Account) returns (refused: bool, closed: nat)
      modifies this`mappings
      ensures closed == |OpenOn(old(mappings), a)|
      ensures refused <==> exists i :: i in OpenOn(old(mappings), a) && old(mappings)[i].validFrom >= now
      ensures refused ==> mappings == old(mappings)
      ensures !refused ==> mappings == ClosedAt(old(mappings), OpenOn(old(mappings), a), now)
    {
      var open := OpenOn(mappings, a);
      closed := |open|;
      refused := exists i :: i in open && mappings[i].validFrom >= now;
      if !refused {
        mappings := ClosedAt(mappings, open, now);
      }
    }

    /** One missing account: inactive from now, its open mapping closed. */
    method MarkOne(ghost t: Tables, device: DeviceId, observed: map<string, Option<int>>, ghost rest: set<Account>,
                   a: Account)
      returns (refused: bool, closed: nat)
      requires a in rest && Missing(t, device, observed, a) && AcceptedBut(t, device, observed, rest) && now == t.now
      requires mappings == AfterClosing(t, device, observed, rest)
      requires deviceUsers == AfterMarking(t, device, observed, rest)
      modifies this`deviceUsers, this`mappings
      ensures refused ==> !Accepted(t, device, observed)
      ensures !refused ==> AcceptedBut(t, device, observed, rest - {a})
      ensures !refused ==> mappings == AfterClosing(t, device, observed, rest - {a})
      ensures !refused ==> deviceUsers == AfterMarking(t, device, observed, rest - {a})
      ensures !refused ==> MissingCounts(t, device, observed, rest - {a})
                           == OneMore(MissingCounts(t, device, observed, rest), closed)
    {
      ghost var before := mappings;
      refused, closed := CloseMappingsOf(a);
      EndingIs(t, device, observed, rest, a);
      if !refused {
        MissingStep(t, device, observed, rest, a, before);
        assert deviceUsers[a] == t.deviceUsers[a];
        deviceUsers := deviceUsers[a := deviceUsers[a].(inactiveAt := Some(now), active := false)];
      }
    }

    /** One account known until now, which the snapshot may or may not show. */
    method MarkIfMissing(ghost t: Tables, device: DeviceId, observed: map<string, Option<int>>,
                         known: map<Account, DeviceUser>, ghost rest: set<Account>, a: Account)
      returns (refused: bool, gone: nat, closed: nat)
      requires a in rest && a.device == device && AcceptedBut(t, device, observed, rest)
      requires a in known && known == t.deviceUsers && now == t.now
      requires mappings == AfterClosing(t, device, observed, rest)
      requires deviceUsers == AfterMarking(t, device, observed, rest)
      modifies this`deviceUsers, this`mappings
      ensures refused ==> !Accepted(t, device, observed)
      ensures !refused ==> AcceptedBut(t, device, observed, rest - {a})
      ensures !refused ==> mappings == AfterClosing(t, device, observed, rest - {a})
      ensures !refused ==> deviceUsers == AfterMarking(t, device, observed, rest - {a})
      ensures !refused ==> var counts := MissingCounts(t, device, observed, rest);
        MissingCounts(t, device, observed, rest - {a})
        == counts.(markedInactive := counts.markedInactive + gone, mappingsClosed := counts.mappingsClosed + closed)
    {
      refused, gone, closed := false, 0, 0;
      if a.user in observed || known[a].inactiveAt.Some? {
        NotMissingStep(t, device, observed, rest, a);
      } else {
        refused, closed := MarkOne(t, device, observed, rest, a);
        gone := 1;
      }
    }

    /** Accounts known until now and not in the snapshot become inactive, and lose their open VERIFIED mapping. */
    method MarkMissing(ghost t: Tables, device: DeviceId, observed: map<string, Option<int>>,
                       known: map<Account, DeviceUser>)
      returns (refused: bool, missing: nat, closed: nat)
      requires known == t.deviceUsers && mappings == t.mappings && now == t.now
      requires deviceUsers == AfterObserving(t, device, observed, observed.Keys)
      modifies this`deviceUsers, this`mappings
      ensures refused <==> !Accepted(t, device, observed)
      ensures !refused ==> deviceUsers == AfterMarking(t, device, observed, {})
      ensures !refused ==> mappings == AfterClosing(t, device, observed, {})
      ensures !refused ==> missing == |MissingAccounts(t, device, observed)|
      ensures !refused ==> closed == |ClosedMappings(t, device, observed)|
    {
      missing, closed := 0, 0;
      var rest := set a | a in known && a.device == device;
      NothingMarked(t, device, observed, rest);
      while rest != {}
        invariant forall a | a in rest :: a in known && a.device == device
        invariant AcceptedBut(t, device, observed, rest)
        invariant mappings == AfterClosing(t, device, observed, rest)
        invariant deviceUsers == AfterMarking(t, device, observed, rest)
        invariant Summary(0, 0, missing, 0, 0, closed) == MissingCounts(t, device, observed, rest)
      {
        var a :| a in rest;
        var gone, endings;
        refused, gone, endings := MarkIfMissing(t, device, observed, known, rest, a);
        if refused {
          return;
        }
        missing := missing + gone;
        closed := closed + endings;
        rest := rest - {a};
      }
      refused := false;
      AllMarked(t, device, observed);
    }

    /** Stores one scan: resolves its person from the mappings of the moment, and skips a scan it already has. */
    method SaveAttendanceLog(account: Account, at: Time) returns (inserted: bool)
      modifies this
      ensures State() == ApplyIngest(old(State()), account, at)
      ensures inserted <==> forall s | s in old(attendance) :: !(s.account == account && s.scanTime == at)
      ensures State() == old(State()).(attendance := attendance, deviceUsers := deviceUsers)
      ensures deviceUsers == if account in old(deviceUsers) then old(deviceUsers)
                             else old(deviceUsers)[account := DeviceUser(true, None, None, 1)]
      ensures !inserted ==> attendance == old(attendance)
      ensures inserted ==>
        && |attendance| == |old(attendance)| + 1
        && attendance == old(attendance) + [Scan(account, at, attendance[|old(attendance)|].employee, now)]
        && forall p: EmployeeId ::
             attendance[|old(attendance)|].employee == Some(p) <==> SoleOwner(mappings, account, at, p)
    {
      if account !in deviceUsers {
        deviceUsers := deviceUsers[account := DeviceUser(true, None, None, 1)];
      }
      assert deviceUsers == EnsureDeviceUser(old(State()), account);
      var employee := ResolveVerifiedEmployeeMapping(account, at);
      inserted := !Stored(State(), account, at);
      if inserted {
        attendance := attendance + [Scan(account, at, employee, now)];
      }
    }

    /** At most two matching rows are looked at: none or several name nobody. */
    method ResolveVerifiedEmployeeMapping(account: Account, at: Time) returns (employee: Option<EmployeeId>)
      ensures employee == Resolve(State(), account, at)
      ensures forall p: EmployeeId :: employee == Some(p) <==> SoleOwner(mappings, account, at, p)
    {
      var rows: seq<RowId> := [];
      var i := 0;
      while i < |mappings| && |rows| < 2
        invariant 0 <= i <= |mappings|
        invariant forall k | k in rows :: k < i && Covers(mappings[k], account, at)
        invariant |rows| < 2 ==> forall k: RowId | k < i && Covers(mappings[k], account, at) :: k in rows
        invariant |rows| == 2 ==> rows[0] != rows[1]
        invariant |rows| <= 2
      {
        if Covers(mappings[i], account, at) {
          rows := rows + [i];
        }
        i := i + 1;
      }
      ghost var matches := Matches(State(), account, at);
      if |rows| == 0 {
        assert matches == {};
        return None;
      }
      if |rows| == 1 {
        assert matches == {rows[0]} by {
          assert forall k | k in matches :: k in rows;
          assert rows[0] in rows;
        }
        OnlyMatch(State(), account, at, rows[0]);
        return Some(mappings[rows[0]].employee);
      }
      assert rows[0] in rows && rows[1] in rows;
      assert rows[0] in matches && rows[1] in matches;
      return None;
    }
  }

  lemma ReconcilableIs(t: Tables, id: RowId, scan: RowId)
    ensures MayReconcileEvidence(t, id, scan) <==> Reconcilable(t, id, scan)
  {
    if id < |t.enrollments| && t.enrollments[id].windowUntil.Some? {
      var e := t.enrollments[id];
      forall j: RowId | j < |t.attendance|
        ensures InWindow(t, e.account, WindowStart(e), e.windowUntil.value, j) <==>
          t.attendance[j].account == e.account
          && e.windowUntil.value - 5 * MINUTE <= t.attendance[j].scanTime <= e.windowUntil.value
      {
      }
    }
  }

  // ---- What a reservation does ----

  /** The derived state in full: what is not unfinished was cancelled, or is complete as long as the account is active
      and a VERIFIED mapping of the person on it is open, and removed from the terminal otherwise. */
  lemma LifecycleMeans(t: Tables, e: Enrollment)
    ensures var state := LifecycleOf(t, e);
      && (state.InProgress? <==> Unfinished(e, t.mappings))
      && (state.WasCancelled? <==> e.status.Cancelled?)
      && (state.Completed? <==>
           && !Unfinished(e, t.mappings) && !e.status.Cancelled?
           && e.account in t.deviceUsers && t.deviceUsers[e.account].active
           && exists m :: m in t.mappings && m.verified && m.employee == e.employee && m.account == e.account
                          && m.validTo.None?)
  {
  }

  lemma MayReserveIffEligible(t: Tables, employee: EmployeeId, device: DeviceId)
    ensures MayReserve(t, t, employee, device) <==> Eligible(t, employee, device)
  {
    forall e | e in t.enrollments
      ensures CandidateRow(e, employee, device) && LifecycleOf(t, e).InProgress? <==>
        e.employee == employee && e.account.device == device && Unfinished(e, t.mappings)
    {
      LifecycleMeans(t, e);
    }
  }

  lemma ReservationIs(t: Tables, employee: EmployeeId, device: DeviceId, roster: set<string>)
    ensures var u := ApplyReserve(t, t, t, t, employee, device, roster);
      && (!Eligible(t, employee, device) ==> u == t)
      && (Eligible(t, employee, device) ==>
           u == t.(enrollments := u.enrollments) && ReservedFor(t, u.enrollments, employee, device, roster))
  {
    MayReserveIffEligible(t, employee, device);
    if Eligible(t, employee, device) {
      ReserveInserts(t, employee, device, roster);
      forall i | 0 <= i < |t.enrollments|
        ensures var e := t.enrollments[i];
          Healed(t, t, employee, device)[i] ==
            if e.employee == employee && e.account.device == device && e.status.ReadyForMapping?
            then e.(status := Retired, updatedAt := t.now) else e
      {
        assert t.enrollments[i] in t.enrollments;
      }
      var blocked := BlockedIds(UsedIds(t, device), roster);
      var n := NextFree(blocked, PRODUCTION_NAMESPACE_START);
      forall user
        ensures user in blocked <==> Taken(t, device, roster, user)
      {
        BlockedIsTaken(t, device, roster, user);
      }
    }
  }

  // ---- What the queries answer ----

  lemma OnlyMatch(t: Tables, account: Account, x: Time, i: RowId)
    requires i < |t.mappings| && Matches(t, account, x) == {i}
    ensures Resolve(t, account, x) == Some(t.mappings[i].employee)
  {
  }

  lemma EarliestTime(t: Tables, account: Account, lo: Time, hi: Time, i: RowId)
    requires IsEarliest(t, account, lo, hi, i)
    ensures Earliest(t, account, lo, hi).Some?
    ensures Earliest(t, account, lo, hi).value < |t.attendance|
    ensures t.attendance[Earliest(t, account, lo, hi).value].scanTime == t.attendance[i].scanTime
  {
  }

  lemma NearestIsEvidence(t: Tables, account: Account, x: Time, candidates: seq<(RowId, Time)>, r: Option<RowId>)
    requires forall c | c in candidates :: Candidate(t, account, x, c.0) && c.1 == t.attendance[c.0].scanTime
    requires forall j: RowId | j < |t.attendance| && Candidate(t, account, x, j) ::
      (j, t.attendance[j].scanTime) in candidates
    requires r.None? <==> candidates == []
    requires r.Some? ==> exists c :: c in candidates && c.0 == r.value && forall d | d in candidates :: Nearer(x, c, d)
    ensures r == Evidence(t, account, x)
  {
    if r.Some? {
      var c :| c in candidates && c.0 == r.value && forall d | d in candidates :: Nearer(x, c, d);
      forall j: RowId | j < |t.attendance| && Candidate(t, account, x, j)
        ensures NearerOrSame(t, x, c.0, j)
      {
        assert Nearer(x, c, (j, t.attendance[j].scanTime));
      }
      assert IsEvidence(t, account, x, c.0);
      forall k: RowId | IsEvidence(t, account, x, k)
        ensures k == c.0
      {
        assert NearerOrSame(t, x, k, c.0) && NearerOrSame(t, x, c.0, k);
      }
    } else {
      assert forall k: RowId | k < |t.attendance| :: !Candidate(t, account, x, k);
    }
  }

  method ReadSnapshot(users: seq<Observed>) returns (observed: map<string, Option<int>>)
    ensures observed == ObservedMap(users)
  {
    observed := map[];
    for i := 0 to |users|
      invariant observed == ObservedMap(users[..i])
    {
      assert users[..i + 1][..i] == users[..i];
      if users[i].user != "" {
        observed := observed[users[i].user := users[i].uid];
      }
    }
    assert users[..|users|] == users;
  }

  // ---- The two passes of a snapshot, part way ----

  /** Accounts already dealt with. */
  function Done(all: set<Account>, rest: set<string>): set<Account> {
    set a | a in all && a.user !in rest
  }

  lemma DoneGrows(all: set<Account>, device: DeviceId, rest: set<string>, name: string)
    requires name in rest && forall a | a in all :: a.device == device
    ensures |Done(all, rest - {name})| == |Done(all, rest)| + if Account(device, name) in all then 1 else 0
  {
    var a := Account(device, name);
    assert Done(all, rest - {name}) == Done(all, rest) + if a in all then {a} else {};
  }

  /** Accounts once the observed names in `done` have been processed. */
  function AfterObserving(t: Tables, device: DeviceId, observed: map<string, Option<int>>, done: set<string>)
    : map<Account, DeviceUser>
    requires done <= observed.Keys
  {
    map a | a in t.deviceUsers.Keys + Accounts(device, done) ::
      if a.device == device && a.user in done then RosterUser(t, device, observed, a) else t.deviceUsers[a]
  }

  /** What has been counted of the accounts already dealt with. */
  function ObservedCounts(t: Tables, device: DeviceId, observed: map<string, Option<int>>, rest: set<string>): Summary {
    Summary(0, |Done(NewAccounts(t, device, observed), rest)|, 0, |Done(Reappeared(t, device, observed), rest)|,
      |Done(UidAnomalies(t, device, observed), rest)|, 0)
  }

  lemma NothingDone(t: Tables, device: DeviceId, observed: map<string, Option<int>>)
    ensures AfterObserving(t, device, observed, observed.Keys - observed.Keys) == t.deviceUsers
    ensures ObservedCounts(t, device, observed, observed.Keys) == Summary(0, 0, 0, 0, 0, 0)
  {
  }

  lemma AllDone(t: Tables, device: DeviceId, observed: map<string, Option<int>>)
    ensures AfterObserving(t, device, observed, observed.Keys - {})
         == AfterObserving(t, device, observed, observed.Keys)
    ensures ObservedCounts(t, device, observed, {}) == Summary(0, |NewAccounts(t, device, observed)|, 0,
      |Reappeared(t, device, observed)|, |UidAnomalies(t, device, observed)|, 0)
  {
    assert observed.Keys - {} == observed.Keys;
    assert Done(NewAccounts(t, device, observed), {}) == NewAccounts(t, device, observed);
    assert Done(Reappeared(t, device, observed), {}) == Reappeared(t, device, observed);
    assert Done(UidAnomalies(t, device, observed), {}) == UidAnomalies(t, device, observed);
  }

  lemma ObservingStep(t: Tables, device: DeviceId, observed: map<string, Option<int>>, rest: set<string>, name: string)
    requires rest <= observed.Keys && name in rest
    ensures var a := Account(device, name);
      && AfterObserving(t, device, observed, observed.Keys - (rest - {name}))
         == AfterObserving(t, device, observed, observed.Keys - rest)[a := RosterUser(t, device, observed, a)]
      && var c, d := ObservedCounts(t, device, observed, rest), ObservedCounts(t, device, observed, rest - {name});
      && d.newUsers == c.newUsers + (if a in t.deviceUsers then 0 else 1)
      && d.reappeared == c.reappeared + (if a in t.deviceUsers && t.deviceUsers[a].inactiveAt.Some? then 1 else 0)
      && d.uidAnomalies == c.uidAnomalies + (if a in t.deviceUsers && t.deviceUsers[a].uid.Some?
           && observed[name].Some? && t.deviceUsers[a].uid != observed[name] then 1 else 0)
  {
    var a, done := Account(device, name), observed.Keys - rest;
    assert observed.Keys - (rest - {name}) == done + {name};
    assert Accounts(device, done + {name}) == Accounts(device, done) + {a};
    DoneGrows(NewAccounts(t, device, observed), device, rest, name);
    DoneGrows(Reappeared(t, device, observed), device, rest, name);
    DoneGrows(UidAnomalies(t, device, observed), device, rest, name);
  }

  /** Accounts once the missing ones outside `rest` have been marked. */
  function AfterMarking(t: Tables, device: DeviceId, observed: map<string, Option<int>>, rest: set<Account>)
    : map<Account, DeviceUser>
  {
    map a | a in t.deviceUsers.Keys + Accounts(device, observed.Keys) ::
      if a in rest && Missing(t, device, observed, a) then t.deviceUsers[a] else RosterUser(t, device, observed, a)
  }

  function AfterClosing(t: Tables, device: DeviceId, observed: map<string, Option<int>>,
                        rest: set<Account>): (r: seq<Mapping>)
    ensures |r| == |t.mappings|
  {
    seq(|t.mappings|, i requires 0 <= i < |t.mappings| =>
      if ClosedByRoster(t, device, observed, t.mappings[i]) && t.mappings[i].account !in rest
      then Close(t.mappings[i], t.now) else t.mappings[i])
  }

  function Ended(t: Tables, device: DeviceId, observed: map<string, Option<int>>, rest: set<Account>): set<RowId> {
    set i | && 0 <= i < |t.mappings| && ClosedByRoster(t, device, observed, t.mappings[i])
            && t.mappings[i].account !in rest
  }

  predicate AcceptedBut(t: Tables, device: DeviceId, observed: map<string, Option<int>>, rest: set<Account>) {
    forall i | 0 <= i < |t.mappings| && ClosedByRoster(t, device, observed, t.mappings[i])
               && t.mappings[i].account !in rest :: t.mappings[i].validFrom < t.now
  }

  function MissingCounts(t: Tables, device: DeviceId, observed: map<string, Option<int>>, rest: set<Account>): Summary {
    Summary(0, 0, |MissingAccounts(t, device, observed) - rest|, 0, 0, |Ended(t, device, observed, rest)|)
  }

  function OneMore(c: Summary, closed: nat): Summary {
    c.(markedInactive := c.markedInactive + 1, mappingsClosed := c.mappingsClosed + closed)
  }

  lemma NothingMarked(t: Tables, device: DeviceId, observed: map<string, Option<int>>, rest: set<Account>)
    requires rest == set a | a in t.deviceUsers && a.device == device
    ensures AcceptedBut(t, device, observed, rest)
    ensures AfterClosing(t, device, observed, rest) == t.mappings
    ensures AfterMarking(t, device, observed, rest) == AfterObserving(t, device, observed, observed.Keys)
    ensures MissingCounts(t, device, observed, rest) == Summary(0, 0, 0, 0, 0, 0)
  {
    assert MissingAccounts(t, device, observed) - rest == {} && Ended(t, device, observed, rest) == {};
  }

  lemma AllMarked(t: Tables, device: DeviceId, observed: map<string, Option<int>>)
    ensures MissingCounts(t, device, observed, {})
      == Summary(0, 0, |MissingAccounts(t, device, observed)|, 0, 0, |ClosedMappings(t, device, observed)|)
    ensures AcceptedBut(t, device, observed, {}) <==> Accepted(t, device, observed)
  {
    assert MissingAccounts(t, device, observed) - {} == MissingAccounts(t, device, observed);
    assert Ended(t, device, observed, {}) == ClosedMappings(t, device, observed);
  }

  lemma NotMissingStep(t: Tables, device: DeviceId, observed: map<string, Option<int>>, rest: set<Account>, a: Account)
    requires a in rest && !Missing(t, device, observed, a)
    ensures AcceptedBut(t, device, observed, rest) ==> AcceptedBut(t, device, observed, rest - {a})
    ensures AfterClosing(t, device, observed, rest - {a}) == AfterClosing(t, device, observed, rest)
    ensures AfterMarking(t, device, observed, rest - {a}) == AfterMarking(t, device, observed, rest)
    ensures MissingCounts(t, device, observed, rest - {a}) == MissingCounts(t, device, observed, rest)
  {
    assert MissingAccounts(t, device, observed) - (rest - {a}) == MissingAccounts(t, device, observed) - rest;
    assert Ended(t, device, observed, rest - {a}) == Ended(t, device, observed, rest);
  }

  /** Rows of the account's open VERIFIED mappings: what the closing update matches. */
  function OpenOn(ms: seq<Mapping>, a: Account): set<RowId> {
    set i | 0 <= i < |ms| && ms[i].verified && ms[i].validTo.None? && ms[i].account == a
  }

  function ClosedAt(ms: seq<Mapping>, rows: set<RowId>, now: Time): seq<Mapping> {
    seq(|ms|, i requires 0 <= i < |ms| => if i in rows then Close(ms[i], now) else ms[i])
  }

  /** Part way, the update of a missing account matches exactly its mappings that the snapshot closes. */
  lemma EndingIs(t: Tables, device: DeviceId, observed: map<string, Option<int>>, rest: set<Account>, a: Account)
    requires a in rest && Missing(t, device, observed, a)
    ensures OpenOn(AfterClosing(t, device, observed, rest), a) == OpenOn(t.mappings, a)
    ensures forall i | i in OpenOn(t.mappings, a) :: AfterClosing(t, device, observed, rest)[i] == t.mappings[i]
    ensures forall i | i in OpenOn(t.mappings, a) :: ClosedByRoster(t, device, observed, t.mappings[i])
  {
  }

  lemma MissingStep(t: Tables, device: DeviceId, observed: map<string, Option<int>>, rest: set<Account>, a: Account,
                    ms: seq<Mapping>)
    requires a in rest && Missing(t, device, observed, a) && AcceptedBut(t, device, observed, rest)
    requires ms == AfterClosing(t, device, observed, rest)
    requires forall i | i in OpenOn(ms, a) :: ms[i].validFrom < t.now
    ensures AcceptedBut(t, device, observed, rest - {a})
    ensures AfterClosing(t, device, observed, rest - {a}) == ClosedAt(ms, OpenOn(ms, a), t.now)
    ensures AfterMarking(t, device, observed, rest - {a})
      == AfterMarking(t, device, observed, rest)[a := t.deviceUsers[a].(inactiveAt := Some(t.now), active := false)]
    ensures MissingCounts(t, device, observed, rest - {a}).markedInactive
      == MissingCounts(t, device, observed, rest).markedInactive + 1
    ensures MissingCounts(t, device, observed, rest - {a}).mappingsClosed
      == MissingCounts(t, device, observed, rest).mappingsClosed + |OpenOn(ms, a)|
  {
    EndingIs(t, device, observed, rest, a);
    MissingStepMarks(t, device, observed, rest, a);
    MissingStepCounts(t, device, observed, rest, a);
    MissingStepCloses(t, device, observed, rest, a);
  }

  lemma MissingStepCloses(t: Tables, device: DeviceId, observed: map<string, Option<int>>, rest: set<Account>,
                          a: Account)
    requires a in rest && Missing(t, device, observed, a)
    ensures AfterClosing(t, device, observed, rest - {a})
      == ClosedAt(AfterClosing(t, device, observed, rest), OpenOn(t.mappings, a), t.now)
  {
  }

  lemma MissingStepMarks(t: Tables, device: DeviceId, observed: map<string, Option<int>>, rest: set<Account>,
                         a: Account)
    requires a in rest && Missing(t, device, observed, a)
    ensures AfterMarking(t, device, observed, rest - {a})
      == AfterMarking(t, device, observed, rest)[a := t.deviceUsers[a].(inactiveAt := Some(t.now), active := false)]
  {
  }

  lemma MissingStepCounts(t: Tables, device: DeviceId, observed: map<string, Option<int>>, rest: set<Account>,
                          a: Account)
    requires a in rest && Missing(t, device, observed, a)
    ensures |MissingAccounts(t, device, observed) - (rest - {a})| == |MissingAccounts(t, device, observed) - rest| + 1
    ensures |Ended(t, device, observed, rest - {a})| == |Ended(t, device, observed, rest)| + |OpenOn(t.mappings, a)|
  {
    assert MissingAccounts(t, device, observed) - (rest - {a}) == MissingAccounts(t, device, observed) - rest + {a};
    assert Ended(t, device, observed, rest - {a}) == Ended(t, device, observed, rest) + OpenOn(t.mappings, a);
    assert Ended(t, device, observed, rest) !! OpenOn(t.mappings, a);
  }

  /** The two passes together are the snapshot's effect. */
  lemma RosterHalves(t: Tables, device: DeviceId, observed: map<string, Option<int>>)
    requires Accepted(t, device, observed)
    ensures ApplyRoster(t, device, observed)
      == t.(deviceUsers := AfterMarking(t, device, observed, {}), mappings := AfterClosing(t, device, observed, {}))
  {
  }

  lemma RefusedSnapshot(t: Tables, device: DeviceId, observed: map<string, Option<int>>)
    requires !Accepted(t, device, observed)
    ensures ApplyRoster(t, device, observed) == t
  {
  }
}
