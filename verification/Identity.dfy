/** The identity tables (persons, terminal accounts, enrollments, mappings, scans) and the database effect of every
    operation that writes them, as functions of the tables. A row's id is its position in its table: rows of
    enrollments, mappings and attendance_logs are only ever inserted and updated. A terminal account is named by its
    unique (device, user id) pair, which stands for device_user_pk. */
module Identity {
  import opened Basics
  import opened TerminalIds

  type EmployeeId = nat
  type DeviceId = nat
  type RowId = nat

  datatype Account = Account(device: DeviceId, user: string)

  datatype Human = Human(active: bool, productionScope: bool)

  datatype DeviceUser = DeviceUser(active: bool, inactiveAt: Option<Time>, uid: Option<int>, incarnation: nat)

  datatype Status =
    | Reserved
    | TerminalAccountCreated
    | FingerprintPending
    | FingerprintEnrolled
    | ScanPending
    | ScanConfirmed
    | ReadyForMapping
    | Cancelled
    | Retired

  datatype Enrollment = Enrollment(
    employee: EmployeeId, account: Account, status: Status,
    terminalCreatedAt: Option<Time>, deviceUid: Option<int>,
    windowUntil: Option<Time>, scanTime: Option<Time>,
    confirmedBy: Option<string>, updatedAt: Time)

  datatype Mapping = Mapping(
    employee: EmployeeId, account: Account, verified: bool,
    validFrom: Time, validTo: Option<Time>)

  datatype Scan = Scan(account: Account, scanTime: Time, employee: Option<EmployeeId>, createdAt: Time)

  datatype Tables = Tables(
    now: Time,
    humans: map<EmployeeId, Human>,
    devices: map<DeviceId, bool>,
    deviceUsers: map<Account, DeviceUser>,
    enrollments: seq<Enrollment>,
    mappings: seq<Mapping>,
    attendance: seq<Scan>)

  // ---- Enrollment states ----

  function AllowedTransitions(s: Status): set<Status> {
    match s
    case Reserved => {TerminalAccountCreated, Cancelled}
    case TerminalAccountCreated => {FingerprintPending, FingerprintEnrolled, Cancelled}
    case FingerprintPending => {FingerprintEnrolled, Cancelled}
    case FingerprintEnrolled => {ScanPending, Cancelled}
    case ScanPending => {ScanPending, ScanConfirmed, Cancelled}
    case ScanConfirmed => {ReadyForMapping, Cancelled, Retired}
    case ReadyForMapping => {Retired}
    case Cancelled => {}
    case Retired => {}
  }

  predicate ActiveStatus(s: Status) {
    !s.Cancelled? && !s.Retired?
  }

  /** A cancelled reservation whose terminal account was never created: its id may be handed out again. */
  predicate Reclaimable(e: Enrollment) {
    e.status.Cancelled? && e.terminalCreatedAt.None? && e.deviceUid.None?
  }

  datatype Lifecycle = InProgress | Completed | RemovedFromTerminal | WasCancelled

  function DeriveLifecycle(status: Status, accountActive: bool, hasVerified: bool, mappingOpen: bool): Lifecycle {
    if status.Cancelled? then WasCancelled
    else if status.Retired? || (status.ReadyForMapping? && hasVerified) then
      if accountActive && hasVerified && mappingOpen then Completed else RemovedFromTerminal
    else InProgress
  }

  /** The joined facts of one enrollment row. The join takes an open VERIFIED mapping first, so "valid_to is null"
      says that some VERIFIED mapping of this person on this account is open. */
  function LifecycleOf(t: Tables, e: Enrollment): Lifecycle {
    DeriveLifecycle(
      e.status,
      e.account in t.deviceUsers && t.deviceUsers[e.account].active,
      exists m :: m in t.mappings && m.verified && m.account == e.account && m.employee == e.employee,
      exists m ::
        m in t.mappings && m.verified && m.account == e.account && m.employee == e.employee && m.validTo.None?)
  }

  // ---- Temporal ownership ----

  /** The mapping owns the account at time x: [validFrom, validTo). */
  predicate Covers(m: Mapping, account: Account, x: Time) {
    && m.verified && m.account == account
    && m.validFrom <= x && (m.validTo.None? || x < m.validTo.value)
  }

  /** The rows the resolver's query matches. */
  function Matches(t: Tables, account: Account, x: Time): set<RowId> {
    set i | 0 <= i < |t.mappings| && Covers(t.mappings[i], account, x)
  }

  /** Exactly one match names the person; none and several both give nobody. */
  ghost function Resolve(t: Tables, account: Account, x: Time): Option<EmployeeId> {
    if exists i :: Matches(t, account, x) == {i} then
      var i :| Matches(t, account, x) == {i};
      assert i in Matches(t, account, x);
      Some(t.mappings[i].employee)
    else None
  }

  // ---- Controlled-scan evidence ----

  const EVIDENCE_WINDOW: Time := 120 * SECOND
  const DEFAULT_WINDOW_MINUTES: nat := 5

  /** Scan i is at least as near to x as scan j, the lower row id winning a tie. */
  predicate NearerOrSame(t: Tables, x: Time, i: RowId, j: RowId)
    requires i < |t.attendance| && j < |t.attendance|
  {
    var di, dj := Abs(t.attendance[i].scanTime - x), Abs(t.attendance[j].scanTime - x);
    di < dj || (di == dj && i <= j)
  }

  /** Rows of the account inside the evidence window around x. */
  predicate Candidate(t: Tables, account: Account, x: Time, i: RowId) {
    && i < |t.attendance| && t.attendance[i].account == account
    && x - EVIDENCE_WINDOW <= t.attendance[i].scanTime <= x + EVIDENCE_WINDOW
  }

  /** i is the evidence row: the nearest candidate. */
  predicate IsEvidence(t: Tables, account: Account, x: Time, i: RowId) {
    && Candidate(t, account, x, i)
    && forall j: RowId | j < |t.attendance| && Candidate(t, account, x, j) :: NearerOrSame(t, x, i, j)
  }

  ghost function Evidence(t: Tables, account: Account, x: Time): Option<RowId> {
    if exists i: RowId :: IsEvidence(t, account, x, i) then
      var i: RowId :| IsEvidence(t, account, x, i);
      Some(i)
    else None
  }

  /** i is the earliest scan of the account in [lo, hi]: ORDER BY scan_time LIMIT 1. */
  predicate InWindow(t: Tables, account: Account, lo: Time, hi: Time, i: RowId) {
    i < |t.attendance| && t.attendance[i].account == account && lo <= t.attendance[i].scanTime <= hi
  }

  predicate IsEarliest(t: Tables, account: Account, lo: Time, hi: Time, i: RowId) {
    && InWindow(t, account, lo, hi, i)
    && forall j: RowId | j < |t.attendance| && InWindow(t, account, lo, hi, j) ::
         t.attendance[i].scanTime <= t.attendance[j].scanTime
  }

  ghost function Earliest(t: Tables, account: Account, lo: Time, hi: Time): Option<RowId> {
    if exists i: RowId :: IsEarliest(t, account, lo, hi, i) then
      var i: RowId :| IsEarliest(t, account, lo, hi, i);
      Some(i)
    else None
  }

  // ---- Operations ----

  /** Where an unlocked SELECT of a transaction looks: at the tables its commit meets, or at any earlier state. */
  datatype Read = Current | Past(index: nat)

  datatype Op =
    | AddHuman(employee: EmployeeId)
    | Deactivate(employee: EmployeeId, lag: nat)
    | Reactivate(employee: EmployeeId)
    | Reserve(employee: EmployeeId, device: DeviceId, roster: set<string>, rPerson: Read, rRows: Read, rUsed: Read)
    | CreateAccount(id: RowId, uid: Option<int>)
    | Transition(id: RowId, target: Status, rRow: Read)
    | StartWindow(id: RowId, minutes: int, lag: nat, rRow: Read)
    | ConfirmScan(id: RowId, rRow: Read, rUser: Read, rScans: Read)
    | ReconcileEvidence(id: RowId, scan: RowId)
    | MarkReady(id: RowId, operator: string, rCheck: Read, rUser: Read, rScans: Read, rRow: Read)
    | CreateMapping(id: RowId, rRow: Read, rUser: Read, rPerson: Read, rScans: Read, rConflict: Read)
    | RosterReconcile(device: DeviceId, observed: map<string, Option<int>>, lag: nat)
    | RemoveAccount(account: Account)
    | Ingest(account: Account, at: Time)

  /** One transaction; `wait` is how much later than the last one it commits, beyond the least clock step. */
  datatype Txn = Txn(op: Op, wait: nat)

  /** The tables as the committing transaction meets them, at its own timestamp. */
  function Arrive(hist: seq<Tables>, wait: nat): Tables
    requires |hist| > 0
  {
    var last := hist[|hist| - 1];
    last.(now := last.now + 1 + wait)
  }

  function Look(hist: seq<Tables>, txn: Txn, r: Read): Tables
    requires |hist| > 0
  {
    if r.Past? && r.index < |hist| then hist[r.index] else Arrive(hist, txn.wait)
  }

  /** The tables at the timestamp of a transaction that began `lag` before it commits: now() is its start. */
  function Begun(t: Tables, lag: nat): Tables {
    t.(now := t.now - lag)
  }

  predicate Closes(op: Op) {
    op.Deactivate? || op.RosterReconcile?
  }

  /** When a transaction that closes mappings began, and so when it closes them. */
  function StartOf(hist: seq<Tables>, txn: Txn): Time
    requires |hist| > 0
  {
    Arrive(hist, txn.wait).now - if Closes(txn.op) then txn.op.lag else 0
  }

  /** Operations on persons, ownership and scans; all others work on one enrollment. */
  predicate OwnershipOp(op: Op) {
    op.AddHuman? || op.Deactivate? || op.Reactivate? || op.RosterReconcile? || op.RemoveAccount? || op.Ingest?
    || op.CreateMapping?
  }

  ghost function Commit(hist: seq<Tables>, txn: Txn): Tables
    requires |hist| > 0
  {
    if OwnershipOp(txn.op) then CommitOwnership(hist, txn) else CommitEnrollment(hist, txn)
  }

  ghost function CommitOwnership(hist: seq<Tables>, txn: Txn): Tables
    requires |hist| > 0 && OwnershipOp(txn.op)
  {
    var t := Arrive(hist, txn.wait);
    match txn.op
    case AddHuman(employee) => ApplyAddHuman(t, employee)
    case Deactivate(employee, lag) => ApplyDeactivate(Begun(t, lag), employee).(now := t.now)
    case Reactivate(employee) => ApplyReactivate(t, employee)
    case RosterReconcile(device, observed, lag) => ApplyRoster(Begun(t, lag), device, observed).(now := t.now)
    case RemoveAccount(account) => ApplyRemoveAccount(t, account)
    case Ingest(account, at) => ApplyIngest(t, account, at)
    case CreateMapping(id, rRow, rUser, rPerson, rScans, rConflict) =>
      ApplyCreateMapping(Look(hist, txn, rRow), Look(hist, txn, rUser), Look(hist, txn, rPerson),
                         Look(hist, txn, rScans), Look(hist, txn, rConflict), t, id)
  }

  ghost function CommitEnrollment(hist: seq<Tables>, txn: Txn): Tables
    requires |hist| > 0 && !OwnershipOp(txn.op)
  {
    var t := Arrive(hist, txn.wait);
    match txn.op
    case Reserve(employee, device, roster, rPerson, rRows, rUsed) =>
      ApplyReserve(Look(hist, txn, rPerson), Look(hist, txn, rRows), Look(hist, txn, rUsed), t, employee, device,
                   roster)
    case CreateAccount(id, uid) => ApplyCreateAccount(t, id, uid)
    case Transition(id, target, rRow) => ApplyTransition(Look(hist, txn, rRow), t, id, target)
    case StartWindow(id, minutes, lag, rRow) => ApplyStartWindow(Look(hist, txn, rRow), t, id, minutes, lag)
    case ConfirmScan(id, rRow, rUser, rScans) =>
      ApplyConfirmScan(Look(hist, txn, rRow), Look(hist, txn, rUser), Look(hist, txn, rScans), t, id)
    case ReconcileEvidence(id, scan) => ApplyReconcileEvidence(t, id, scan)
    case MarkReady(id, operator, rCheck, rUser, rScans, rRow) =>
      ApplyMarkReady(Look(hist, txn, rCheck), Look(hist, txn, rUser), Look(hist, txn, rScans), Look(hist, txn, rRow),
                     t, id, operator)
  }

  // Persons

  function ApplyAddHuman(t: Tables, employee: EmployeeId): Tables {
    if employee in t.humans then t else t.(humans := t.humans[employee := Human(true, true)])
  }

  predicate OpenOf(m: Mapping, employee: EmployeeId) {
    m.employee == employee && m.verified && m.validTo.None?
  }

  /** valid_to := now. The schema refuses an interval that would end before it began, and with it the transaction. */
  function Close(m: Mapping, now: Time): Mapping {
    m.(validTo := Some(now))
  }

  function ApplyDeactivate(t: Tables, employee: EmployeeId): Tables {
    if employee !in t.humans || !t.humans[employee].active then t
    else if exists i :: 0 <= i < |t.mappings| && OpenOf(t.mappings[i], employee) && t.mappings[i].validFrom >= t.now
    then t
    else t.(
      humans := t.humans[employee := t.humans[employee].(active := false)],
      mappings := seq(|t.mappings|, i requires 0 <= i < |t.mappings| =>
        if OpenOf(t.mappings[i], employee) then Close(t.mappings[i], t.now) else t.mappings[i]))
  }

  function ApplyReactivate(t: Tables, employee: EmployeeId): Tables {
    if employee !in t.humans || t.humans[employee].active then t
    else t.(humans := t.humans[employee := t.humans[employee].(active := true)])
  }

  // Enrollment

  predicate CandidateRow(e: Enrollment, employee: EmployeeId, device: DeviceId) {
    e.employee == employee && e.account.device == device && ActiveStatus(e.status)
  }

  /** Ids the allocator must not hand out. */
  function UsedIds(t: Tables, device: DeviceId): set<string> {
    (set a | a in t.deviceUsers && a.device == device :: a.user)
    + (set e | e in t.enrollments && e.account.device == device && !Reclaimable(e) :: e.account.user)
  }

  /** Active rows of the person whose work is finished lose their stale status. */
  function Healed(rows: Tables, t: Tables, employee: EmployeeId, device: DeviceId): seq<Enrollment> {
    seq(|t.enrollments|, i requires 0 <= i < |t.enrollments| =>
      if i < |rows.enrollments| && CandidateRow(rows.enrollments[i], employee, device)
         && t.enrollments[i].status == rows.enrollments[i].status
      then t.enrollments[i].(status := Retired, updatedAt := t.now)
      else t.enrollments[i])
  }

  function NewReservation(employee: EmployeeId, account: Account, now: Time): Enrollment {
    Enrollment(employee, account, Reserved, None, None, None, None, None, now)
  }

  predicate MayReserve(person: Tables, rows: Tables, employee: EmployeeId, device: DeviceId) {
    && employee in person.humans && person.humans[employee].active && person.humans[employee].productionScope
    && device in person.devices && person.devices[device]
    && forall e | e in rows.enrollments && CandidateRow(e, employee, device) :: !LifecycleOf(rows, e).InProgress?
  }

  /** The two partial unique indexes of the enrollments table. */
  predicate InsertConflict(es: seq<Enrollment>, e: Enrollment) {
    exists i :: 0 <= i < |es|
      && ((es[i].account == e.account && !Reclaimable(es[i]))
          || (es[i].employee == e.employee && es[i].account.device == e.account.device && ActiveStatus(es[i].status)))
  }

  function ApplyReserve(person: Tables, rows: Tables, used: Tables, t: Tables,
                              employee: EmployeeId, device: DeviceId, roster: set<string>): Tables
  {
    if !MayReserve(person, rows, employee, device) then t
    else
      var healed := Healed(rows, t, employee, device);
      var row := NewReservation(employee, Account(device, NextAvailableId(UsedIds(used, device), roster)), t.now);
      if InsertConflict(healed, row) then t
      else t.(enrollments := healed + [row])
  }

  function EnsureDeviceUser(t: Tables, account: Account): map<Account, DeviceUser> {
    if account in t.deviceUsers then t.deviceUsers
    else t.deviceUsers[account := DeviceUser(true, None, None, 1)]
  }

  /** What a confirmed terminal account leaves behind; the enrollment row is locked throughout. */
  function ApplyCreateAccount(t: Tables, id: RowId, uid: Option<int>): Tables {
    if id >= |t.enrollments| then t
    else
      var e := t.enrollments[id];
      if !(e.status.Reserved? || e.status.TerminalAccountCreated?) then t
      else t.(
        deviceUsers := EnsureDeviceUser(t, e.account),
        enrollments := t.enrollments[id := e.(
          status := TerminalAccountCreated,
          terminalCreatedAt := if e.terminalCreatedAt.None? then Some(t.now) else e.terminalCreatedAt,
          deviceUid := if e.deviceUid.None? then uid else e.deviceUid,
          updatedAt := t.now)])
  }

  /** The guarded update: it lands only if the row still has the status that was read. */
  predicate MayTransition(read: Tables, t: Tables, id: RowId, target: Status) {
    && id < |read.enrollments| && target in AllowedTransitions(read.enrollments[id].status)
    && id < |t.enrollments| && t.enrollments[id].status == read.enrollments[id].status
  }

  const PLAIN_TARGETS: set<Status> := {FingerprintPending, FingerprintEnrolled, Cancelled, Retired}

  function ApplyTransition(read: Tables, t: Tables, id: RowId, target: Status): Tables {
    if target !in PLAIN_TARGETS || !MayTransition(read, t, id, target) then t
    else t.(enrollments := t.enrollments[id := t.enrollments[id].(status := target, updatedAt := t.now)])
  }

  function Max(a: int, b: int): int {
    if a < b then b else a
  }

  /** The window's end is computed from the caller's clock, `lag` before the transaction's own timestamp. */
  function ApplyStartWindow(read: Tables, t: Tables, id: RowId, minutes: int, lag: nat): Tables {
    if !MayTransition(read, t, id, ScanPending) then t
    else t.(enrollments := t.enrollments[id := t.enrollments[id].(
      status := ScanPending, windowUntil := Some(t.now - lag + Max(1, minutes) * MINUTE), updatedAt := t.now)])
  }

  ghost function ApplyConfirmScan(row: Tables, user: Tables, scans: Tables, t: Tables, id: RowId): Tables {
    if id >= |row.enrollments| || !row.enrollments[id].status.ScanPending? || row.enrollments[id].windowUntil.None?
    then t
    else
      var e := row.enrollments[id];
      if e.account !in user.deviceUsers || !user.deviceUsers[e.account].active then t
      else
        var found := Earliest(scans, e.account, e.updatedAt, e.windowUntil.value);
        if found.None? || id >= |t.enrollments| || !t.enrollments[id].status.ScanPending? then t
        else t.(enrollments := t.enrollments[id := t.enrollments[id].(
          status := ScanConfirmed, scanTime := Some(scans.attendance[found.value].scanTime), updatedAt := t.now)])
  }

  /** The reconstructed window of an enrollment that recorded one. */
  function WindowStart(e: Enrollment): Time
    requires e.windowUntil.Some?
  {
    e.windowUntil.value - DEFAULT_WINDOW_MINUTES * MINUTE
  }

  predicate MayReconcileEvidence(t: Tables, id: RowId, scan: RowId) {
    && id < |t.enrollments| && t.enrollments[id].windowUntil.Some? && t.enrollments[id].scanTime.Some?
    && var e := t.enrollments[id];
    && e.account in t.deviceUsers && t.deviceUsers[e.account].active
    && InWindow(t, e.account, WindowStart(e), e.windowUntil.value, scan)
    && (forall j: RowId | j < |t.attendance| && InWindow(t, e.account, WindowStart(e), e.windowUntil.value, j) ::
         j == scan)
    && forall m | m in t.mappings && m.verified && m.account == e.account ::
         m.validTo.Some? && m.validTo.value <= t.attendance[scan].scanTime
  }

  function ApplyReconcileEvidence(t: Tables, id: RowId, scan: RowId): Tables {
    if !MayReconcileEvidence(t, id, scan) then t
    else t.(enrollments := t.enrollments[id := t.enrollments[id].(
      scanTime := Some(t.attendance[scan].scanTime), updatedAt := t.now)])
  }

  ghost function ApplyMarkReady(check: Tables, user: Tables, scans: Tables, row: Tables, t: Tables,
                                id: RowId, operator: string): Tables
  {
    if Blank(operator) || id >= |check.enrollments| || check.enrollments[id].scanTime.None? then t
    else
      var e := check.enrollments[id];
      if e.account !in user.deviceUsers || Evidence(scans, e.account, e.scanTime.value).None? then t
      else if !MayTransition(row, t, id, ReadyForMapping) then t
      else t.(enrollments := t.enrollments[id := t.enrollments[id].(
        status := ReadyForMapping, confirmedBy := Some(operator), updatedAt := t.now)])
  }

  // Mapping

  /** A VERIFIED mapping of the account that is open or ends after x. */
  predicate Conflicts(m: Mapping, account: Account, x: Time) {
    m.verified && m.account == account && (m.validTo.None? || m.validTo.value > x)
  }

  ghost predicate MayCreateMapping(row: Tables, user: Tables, person: Tables, scans: Tables, conflict: Tables,
                                   id: RowId) {
    && id < |row.enrollments|
    && var e := row.enrollments[id];
    && e.status.ReadyForMapping? && e.scanTime.Some? && e.confirmedBy.Some?
    && e.account in user.deviceUsers && user.deviceUsers[e.account].active
    && e.employee in person.humans && person.humans[e.employee].active
    && Evidence(scans, e.account, e.scanTime.value).Some?
    && forall m | m in conflict.mappings :: !Conflicts(m, e.account, e.scanTime.value)
  }

  ghost function ApplyCreateMapping(row: Tables, user: Tables, person: Tables, scans: Tables, conflict: Tables,
                                    t: Tables, id: RowId): Tables
  {
    if !MayCreateMapping(row, user, person, scans, conflict, id) then t
    else
      var e := row.enrollments[id];
      // the partial unique index on open VERIFIED mappings, then the guarded retirement
      if (exists m :: m in t.mappings && m.verified && m.account == e.account && m.validTo.None?)
         || id >= |t.enrollments| || !t.enrollments[id].status.ReadyForMapping?
      then t
      else t.(
        mappings := t.mappings + [Mapping(e.employee, e.account, true, e.scanTime.value, None)],
        enrollments := t.enrollments[id := t.enrollments[id].(status := Retired, updatedAt := t.now)])
  }

  // Terminal accounts

  function Observe(u: DeviceUser, uid: Option<int>): DeviceUser {
    DeviceUser(true, None, if uid.Some? then uid else u.uid, u.incarnation + if u.inactiveAt.Some? then 1 else 0)
  }

  /** The account was known, present until now, and is missing from the snapshot. */
  predicate Missing(t: Tables, device: DeviceId, observed: map<string, Option<int>>, a: Account) {
    a in t.deviceUsers && a.device == device && a.user !in observed && t.deviceUsers[a].inactiveAt.None?
  }

  predicate ClosedByRoster(t: Tables, device: DeviceId, observed: map<string, Option<int>>, m: Mapping) {
    m.verified && m.validTo.None? && Missing(t, device, observed, m.account)
  }

  function RosterUser(t: Tables, device: DeviceId, observed: map<string, Option<int>>, a: Account): DeviceUser
    requires a in t.deviceUsers || (a.device == device && a.user in observed)
  {
    if a.device == device && a.user in observed then
      if a in t.deviceUsers then Observe(t.deviceUsers[a], observed[a.user])
      else DeviceUser(true, None, observed[a.user], 1)
    else if Missing(t, device, observed, a) then t.deviceUsers[a].(inactiveAt := Some(t.now), active := false)
    else t.deviceUsers[a]
  }

  function RosterMappings(t: Tables, device: DeviceId, observed: map<string, Option<int>>): seq<Mapping> {
    seq(|t.mappings|, i requires 0 <= i < |t.mappings| =>
      if ClosedByRoster(t, device, observed, t.mappings[i]) then Close(t.mappings[i], t.now) else t.mappings[i])
  }

  function Accounts(device: DeviceId, users: set<string>): set<Account> {
    set u | u in users :: Account(device, u)
  }

  function ApplyRoster(t: Tables, device: DeviceId, observed: map<string, Option<int>>): Tables {
    if exists i :: 0 <= i < |t.mappings| && ClosedByRoster(t, device, observed, t.mappings[i])
                   && t.mappings[i].validFrom >= t.now
    then t
    else t.(
      deviceUsers := map a | a in t.deviceUsers.Keys + Accounts(device, observed.Keys) ::
        RosterUser(t, device, observed, a),
      mappings := RosterMappings(t, device, observed))
  }

  function ApplyRemoveAccount(t: Tables, a: Account): Tables {
    if a in t.deviceUsers then t.(deviceUsers := t.deviceUsers[a := t.deviceUsers[a].(active := false)]) else t
  }

  // Scans

  predicate Stored(t: Tables, account: Account, at: Time) {
    exists i :: 0 <= i < |t.attendance| && t.attendance[i].account == account && t.attendance[i].scanTime == at
  }

  /** Attribution happens here, once, from the mappings of the moment. */
  ghost function ApplyIngest(t: Tables, account: Account, at: Time): Tables {
    var u := t.(deviceUsers := EnsureDeviceUser(t, account));
    if Stored(u, account, at) then u
    else u.(attendance := u.attendance + [Scan(account, at, Resolve(u, account, at), t.now)])
  }

  // ---- Runs ----

  /** Every state the tables go through when the transactions commit in this order. */
  ghost function Run(hist: seq<Tables>, txns: seq<Txn>): (all: seq<Tables>)
    requires |hist| > 0
    ensures |all| == |hist| + |txns| && hist <= all
    decreases |txns|
  {
    if txns == [] then hist else Run(hist + [Commit(hist, txns[0])], txns[1..])
  }
}
