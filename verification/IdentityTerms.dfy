/** What the identity operations promise, told by the rows alone and independently of how the operations are computed.
    */
module IdentityTerms {
  import opened Basics
  import opened TerminalIds
  import opened Identity

  /** The mapping owns the account at time x: from its first instant on, and up to but not at its last. */
  predicate Owner(m: Mapping, account: Account, x: Time) {
    m.verified && m.account == account && m.validFrom <= x && (m.validTo.Some? ==> x < m.validTo.value)
  }

  /** Precisely one mapping owns the account at x, and it is p's. */
  predicate SoleOwner(ms: seq<Mapping>, account: Account, x: Time, p: EmployeeId) {
    exists i :: 0 <= i < |ms| && Owner(ms[i], account, x) && ms[i].employee == p
      && forall j | 0 <= j < |ms| && Owner(ms[j], account, x) :: j == i
  }

  /** Work on the row is not finished: it is on its way to READY_FOR_MAPPING, or there without a VERIFIED mapping of the
      person on the account, open or closed. */
  predicate Unfinished(e: Enrollment, ms: seq<Mapping>) {
    || e.status in {Reserved, TerminalAccountCreated, FingerprintPending, FingerprintEnrolled, ScanPending,
                    ScanConfirmed}
    || (e.status.ReadyForMapping? && forall m | m in ms :: !(m.verified && m.employee == e.employee
                                                            && m.account == e.account))
  }

  /** Whom, and where, an enrollment may be started for. */
  predicate Eligible(t: Tables, employee: EmployeeId, device: DeviceId) {
    && employee in t.humans && t.humans[employee].active && t.humans[employee].productionScope
    && device in t.devices && t.devices[device]
    && forall e | e in t.enrollments && e.employee == employee && e.account.device == device ::
         !Unfinished(e, t.mappings)
  }

  /** The id is on the device's records, held by an enrollment that is not reclaimable, on its roster, or a legacy one.
      */
  predicate Taken(t: Tables, device: DeviceId, roster: set<string>, user: string) {
    || Account(device, user) in t.deviceUsers || user in roster || user == "1" || user == "2"
    || exists e :: e in t.enrollments && e.account == Account(device, user)
         && (!e.status.Cancelled? || e.terminalCreatedAt.Some? || e.deviceUid.Some?)
  }

  /** The rows after a reservation: the person's finished rows on the device are retired, all others are as they were,
      and the new row is RESERVED, otherwise empty, under the least id from 1001 on that is not taken. */
  ghost predicate ReservedFor(t: Tables, rows: seq<Enrollment>, employee: EmployeeId, device: DeviceId,
                              roster: set<string>)
  {
    && |rows| == |t.enrollments| + 1
    && (forall i | 0 <= i < |t.enrollments| ::
         var e := t.enrollments[i];
         rows[i] == if e.employee == employee && e.account.device == device && e.status.ReadyForMapping?
                    then e.(status := Retired, updatedAt := t.now) else e)
    && exists n: nat ::
         && n >= 1001 && !Taken(t, device, roster, Decimal(n))
         && (forall k: nat | 1001 <= k < n :: Taken(t, device, roster, Decimal(k)))
         && rows[|t.enrollments|]
            == Enrollment(employee, Account(device, Decimal(n)), Reserved, None, None, None, None, None, t.now)
  }

  predicate ScanNear(t: Tables, account: Account, x: Time) {
    exists s :: s in t.attendance && s.account == account && Abs(s.scanTime - x) <= 120 * SECOND
  }

  /** An enrollment whose mapping can be created. */
  predicate Creatable(t: Tables, id: RowId) {
    && id < |t.enrollments|
    && var e := t.enrollments[id];
    && e.status.ReadyForMapping? && e.scanTime.Some? && e.confirmedBy.Some?
    && e.account in t.deviceUsers && t.deviceUsers[e.account].active
    && e.employee in t.humans && t.humans[e.employee].active
    && ScanNear(t, e.account, e.scanTime.value)
    && forall m | m in t.mappings && m.verified && m.account == e.account ::
         m.validTo.Some? && m.validTo.value <= e.scanTime.value
  }

  /** An enrollment whose mapping has been created before. */
  predicate AlreadyMapped(t: Tables, id: RowId) {
    && id < |t.enrollments|
    && var e := t.enrollments[id];
    && e.status.Retired? && e.scanTime.Some? && e.confirmedBy.Some?
    && e.account in t.deviceUsers && t.deviceUsers[e.account].active
    && exists m :: m in t.mappings && m.verified && m.employee == e.employee && m.account == e.account
  }

  /** The scan may replace the one on record: it is the account's only scan in the five minutes before the window's end,
      the account is active, and no VERIFIED mapping of it is open or ends later. */
  predicate Reconcilable(t: Tables, id: RowId, scan: RowId) {
    && id < |t.enrollments| && scan < |t.attendance|
    && var e, s := t.enrollments[id], t.attendance[scan];
    && e.windowUntil.Some? && e.scanTime.Some? && e.account in t.deviceUsers && t.deviceUsers[e.account].active
    && (forall j | 0 <= j < |t.attendance| :: j == scan <==>
         t.attendance[j].account == e.account
         && e.windowUntil.value - 5 * MINUTE <= t.attendance[j].scanTime <= e.windowUntil.value)
    && forall m | m in t.mappings && m.verified && m.account == e.account ::
         m.validTo.Some? && m.validTo.value <= s.scanTime
  }
}
