/** The single write-session slot: four transactions that each hold the advisory lock for their whole duration, reading
    the timestamp at which they began. Lock order and timestamp order need not agree. */
module WriteSession {
  import opened Basics

  type OperatorId = nat

  datatype CloseReason = Expired | AdminClosed(who: OperatorId)

  datatype Closing = Closing(at: Time, why: CloseReason)

  datatype Session = Session(openedBy: OperatorId, openedAt: Time, expiresAt: Time, reason: string,
                             closing: Option<Closing>)

  /** The table; a session's id is its position. */
  type Rows = seq<Session>

  datatype AuditEvent =
    | SessionExpired(id: nat)
    | SessionOpened(id: nat)
    | OpenFailed(existing: nat)
    | SessionClosed(id: nat)

  /** `now` is the transaction timestamp; open also reads the application's own clock. */
  datatype Txn =
    | Status(now: Time)
    | IsActive(now: Time)
    | Open(now: Time, clock: Time, who: OperatorId, reason: string, minutes: int)
    | Close(now: Time, who: OperatorId)

  datatype Reply =
    | Inactive
    | Active(id: nat, session: Session)
    | Flags(active: bool, justExpired: bool)
    | NowOpen(id: nat)
    | AlreadyActive(existing: nat)
    | NowClosed(id: nat)
    | Invalid                     // blank reason or no positive duration
    | ConstraintViolated          // the new row would not expire after it opened

  predicate Unclosed(s: Session) {
    s.closing.None?
  }

  predicate Due(s: Session, now: Time) {
    Unclosed(s) && s.expiresAt <= now
  }

  /** The first row at or after `from` that no one has closed. */
  function FirstUnclosed(rows: Rows, from: nat): (r: Option<nat>)
    requires from <= |rows|
    ensures r.Some? ==> from <= r.value < |rows| && Unclosed(rows[r.value])
    ensures forall i | from <= i < |rows| && Unclosed(rows[i]) :: r.Some? && r.value <= i
    decreases |rows| - from
  {
    if from == |rows| then None else if Unclosed(rows[from]) then Some(from) else FirstUnclosed(rows, from + 1)
  }

  function FirstDue(rows: Rows, now: Time, from: nat): (r: Option<nat>)
    requires from <= |rows|
    ensures r.Some? ==> from <= r.value < |rows| && Due(rows[r.value], now)
    ensures forall i | from <= i < |rows| && Due(rows[i], now) :: r.Some? && r.value <= i
    decreases |rows| - from
  {
    if from == |rows| then None else if Due(rows[from], now) then Some(from) else FirstDue(rows, now, from + 1)
  }

  function Reaped(s: Session, now: Time): Session {
    if Due(s, now) then s.(closing := Some(Closing(now, Expired))) else s
  }

  /** The reaping UPDATE closes every due row. */
  function Reap(rows: Rows, now: Time): (r: Rows)
    ensures |r| == |rows| && forall i | 0 <= i < |rows| :: r[i] == Reaped(rows[i], now)
  {
    seq(|rows|, i requires 0 <= i < |rows| => Reaped(rows[i], now))
  }

  datatype Effect = Effect(rows: Rows, audit: seq<AuditEvent>, reply: Reply)

  function ReapAudit(expired: Option<nat>): seq<AuditEvent> {
    if expired.Some? then [SessionExpired(expired.value)] else []
  }

  function Read(rows: Rows, t: Txn): Effect
    requires t.Status? || t.IsActive?
  {
    var expired, swept := FirstDue(rows, t.now, 0), Reap(rows, t.now);
    var existing := FirstUnclosed(swept, 0);
    Effect(swept, ReapAudit(expired),
           if t.IsActive? then Flags(existing.Some?, expired.Some?)
           else if existing.Some? then Active(existing.value, swept[existing.value])
           else Inactive)
  }

  function Closed(rows: Rows, t: Txn): Effect
    requires t.Close?
  {
    var expired, swept := FirstDue(rows, t.now, 0), Reap(rows, t.now);
    var existing := FirstUnclosed(swept, 0);
    if existing.None? then Effect(swept, ReapAudit(expired), Inactive)
    else
      var id := existing.value;
      Effect(swept[id := swept[id].(closing := Some(Closing(t.now, AdminClosed(t.who))))],
             ReapAudit(expired) + [SessionClosed(id)], NowClosed(id))
  }

  /** A refused or failing insertion rolls the whole transaction back. */
  function Begun(rows: Rows, t: Txn): Effect
    requires t.Open?
  {
    var expired, swept := FirstDue(rows, t.now, 0), Reap(rows, t.now);
    var existing := FirstUnclosed(swept, 0);
    var expiresAt := t.clock + t.minutes * MINUTE;
    if Blank(t.reason) || t.minutes <= 0 then Effect(rows, [], Invalid)
    else if existing.Some? then
      Effect(rows, ReapAudit(expired) + [OpenFailed(existing.value)], AlreadyActive(existing.value))
    else if expiresAt <= t.now then Effect(rows, [], ConstraintViolated)
    else
      Effect(swept + [Session(t.who, t.now, expiresAt, t.reason, None)],
             ReapAudit(expired) + [SessionOpened(|rows|)], NowOpen(|rows|))
  }

  function Apply(rows: Rows, t: Txn): Effect {
    if t.Open? then Begun(rows, t) else if t.Close? then Closed(rows, t) else Read(rows, t)
  }

  class WriteSessions {
    var rows: Rows
    var audit: seq<AuditEvent>

    constructor ()
      ensures rows == [] && audit == []
    {
      rows, audit := [], [];
    }

    /** _reap_expired: the info of the first row reaped. */
    method ReapExpired(now: Time) returns (expired: Option<nat>)
      modifies `rows
      ensures rows == Reap(old(rows), now) && expired == FirstDue(old(rows), now, 0)
    {
      expired := None;
      var i := 0;
      while i < |rows|
        invariant i <= |rows| == |old(rows)|
        invariant forall j | 0 <= j < |rows| :: rows[j] == if j < i then Reaped(old(rows)[j], now) else old(rows)[j]
        invariant FirstDue(old(rows), now, 0) == if expired.Some? then expired else FirstDue(old(rows), now, i)
      {
        if Due(rows[i], now) {
          if expired.None? { expired := Some(i); }
          rows := rows[i := rows[i].(closing := Some(Closing(now, Expired)))];
        }
        i := i + 1;
      }
    }

    method FetchOpenSession() returns (existing: Option<nat>)
      ensures existing == FirstUnclosed(rows, 0)
    {
      var i := 0;
      while i < |rows|
        invariant i <= |rows| && FirstUnclosed(rows, 0) == FirstUnclosed(rows, i)
      {
        if Unclosed(rows[i]) { return Some(i); }
        i := i + 1;
      }
      return None;
    }

    method AuditExpired(expired: Option<nat>)
      modifies `audit
      ensures audit == old(audit) + ReapAudit(expired)
    {
      if expired.Some? { audit := audit + [SessionExpired(expired.value)]; }
    }

    method GetWriteSessionStatus(now: Time) returns (reply: Reply)
      modifies this
      ensures var e := Apply(old(rows), Status(now));
        rows == e.rows && audit == old(audit) + e.audit && reply == e.reply
    {
      var expired := ReapExpired(now);
      var active := FetchOpenSession();
      AuditExpired(expired);
      reply := if active.Some? then Active(active.value, rows[active.value]) else Inactive;
    }

    method IsWriteSessionActive(now: Time) returns (active: bool, justExpired: bool)
      modifies this
      ensures var e := Apply(old(rows), IsActive(now));
        rows == e.rows && audit == old(audit) + e.audit && Flags(active, justExpired) == e.reply
    {
      var expired := ReapExpired(now);
      var existing := FetchOpenSession();
      AuditExpired(expired);
      active, justExpired := existing.Some?, expired.Some?;
    }

    method OpenWriteSession(now: Time, clock: Time, who: OperatorId, reason: string, minutes: int)
      returns (reply: Reply)
      modifies this
      ensures var e := Apply(old(rows), Open(now, clock, who, reason, minutes));
        rows == e.rows && audit == old(audit) + e.audit && reply == e.reply
    {
      if Blank(reason) || minutes <= 0 { return Invalid; }
      var begun := rows;
      var expired := ReapExpired(now);
      var existing := FetchOpenSession();
      if existing.Some? {
        rows := begun;
        AuditExpired(expired);
        audit := audit + [OpenFailed(existing.value)];
        return AlreadyActive(existing.value);
      }
      var expiresAt := clock + minutes * MINUTE;
      if expiresAt <= now {
        rows := begun;
        return ConstraintViolated;
      }
      rows := rows + [Session(who, now, expiresAt, reason, None)];
      AuditExpired(expired);
      audit := audit + [SessionOpened(|rows| - 1)];
      return NowOpen(|rows| - 1);
    }

    method CloseWriteSession(now: Time, who: OperatorId) returns (reply: Reply)
      modifies this
      ensures var e := Apply(old(rows), Close(now, who));
        rows == e.rows && audit == old(audit) + e.audit && reply == e.reply
    {
      var expired := ReapExpired(now);
      var existing := FetchOpenSession();
      if existing.None? {
        AuditExpired(expired);
        return Inactive;
      }
      var id := existing.value;
      rows := rows[id := rows[id].(closing := Some(Closing(now, AdminClosed(who))))];
      AuditExpired(expired);
      audit := audit + [SessionClosed(id)];
      return NowClosed(id);
    }
  }

  // ---- Runs ----

  datatype World = World(rows: Rows, audit: seq<AuditEvent>)

  function After(w: World, t: Txn): World {
    var e := Apply(w.rows, t);
    World(e.rows, w.audit + e.audit)
  }

  function Run(txns: seq<Txn>): World {
    if txns == [] then World([], []) else After(Run(txns[..|txns| - 1]), txns[|txns| - 1])
  }

  /** Only the newest session can be unclosed. */
  predicate OneSlot(rows: Rows) {
    forall i | 0 <= i < |rows| - 1 :: !Unclosed(rows[i])
  }

  /** How often the audit trail names a session's opening, expiry and close. */
  datatype Tally = Tally(begun: nat, expired: nat, closed: nat) {
    function Plus(t: Tally): Tally {
      Tally(begun + t.begun, expired + t.expired, closed + t.closed)
    }
  }

  function Named(e: AuditEvent, id: nat): Tally {
    match e
    case SessionOpened(n) => if n == id then Tally(1, 0, 0) else Tally(0, 0, 0)
    case SessionExpired(n) => if n == id then Tally(0, 1, 0) else Tally(0, 0, 0)
    case SessionClosed(n) => if n == id then Tally(0, 0, 1) else Tally(0, 0, 0)
    case OpenFailed(_) => Tally(0, 0, 0)
  }

  function TallyOf(audit: seq<AuditEvent>, id: nat): Tally {
    if audit == [] then Tally(0, 0, 0) else TallyOf(audit[..|audit| - 1], id).Plus(Named(audit[|audit| - 1], id))
  }

  /** What a row says should have been audited. */
  function AuditDue(s: Session): Tally {
    if Unclosed(s) then Tally(1, 0, 0) else if s.closing.value.why.Expired? then Tally(1, 1, 0) else Tally(1, 0, 1)
  }

  function Expected(rows: Rows, id: nat): Tally {
    if id < |rows| then AuditDue(rows[id]) else Tally(0, 0, 0)
  }

  ghost predicate Audited(w: World) {
    forall id: nat :: TallyOf(w.audit, id) == Expected(w.rows, id)
  }

  /** A session ends as expired exactly when the closing transaction began at or after its expiry. */
  predicate RightlyClosed(s: Session) {
    && s.openedAt < s.expiresAt
    && (s.closing.Some? ==> (s.closing.value.why.Expired? <==> s.expiresAt <= s.closing.value.at))
  }

  ghost predicate Inv(w: World) {
    OneSlot(w.rows) && Audited(w) && forall i | 0 <= i < |w.rows| :: RightlyClosed(w.rows[i])
  }

  /** With one slot, what was reaped and what is still open exclude each other. */
  lemma ReapedOrOpen(rows: Rows, now: Time)
    requires OneSlot(rows)
    ensures OneSlot(Reap(rows, now))
    ensures FirstDue(rows, now, 0).None? || FirstUnclosed(Reap(rows, now), 0).None?
    ensures forall i | 0 <= i < |rows| && Due(rows[i], now) :: FirstDue(rows, now, 0) == Some(i)
    ensures forall i | 0 <= i < |rows| && Unclosed(rows[i]) && !Due(rows[i], now) ::
      FirstUnclosed(Reap(rows, now), 0) == Some(i)
  {
    var swept := Reap(rows, now);
    forall i | 0 <= i < |rows| && Unclosed(rows[i]) && !Due(rows[i], now)
      ensures FirstUnclosed(swept, 0) == Some(i)
    {
      assert swept[i] == rows[i];
    }
  }

  lemma TallySnoc(audit: seq<AuditEvent>, e: AuditEvent, id: nat)
    ensures TallyOf(audit + [e], id) == TallyOf(audit, id).Plus(Named(e, id))
  {
    assert (audit + [e])[..|audit|] == audit;
  }

  function ReapTally(expired: Option<nat>, id: nat): Tally {
    if expired == Some(id) then Tally(0, 1, 0) else Tally(0, 0, 0)
  }

  lemma TallyReap(audit: seq<AuditEvent>, expired: Option<nat>, id: nat)
    ensures TallyOf(audit + ReapAudit(expired), id) == TallyOf(audit, id).Plus(ReapTally(expired, id))
  {
    if expired.Some? { TallySnoc(audit, SessionExpired(expired.value), id); }
    else { assert audit + ReapAudit(expired) == audit; }
  }

  lemma StepKeepsRows(w: World, t: Txn)
    requires Inv(w)
    ensures OneSlot(After(w, t).rows) && forall i | 0 <= i < |After(w, t).rows| :: RightlyClosed(After(w, t).rows[i])
  {
    ReapedOrOpen(w.rows, t.now);
  }

  lemma ReapedDue(s: Session, now: Time)
    ensures Due(s, now) ==> AuditDue(s) == Tally(1, 0, 0) && AuditDue(Reaped(s, now)) == Tally(1, 1, 0)
    ensures !Due(s, now) ==> Reaped(s, now) == s
  {
  }

  lemma ReapExpected(rows: Rows, now: Time, id: nat)
    requires OneSlot(rows)
    ensures FirstDue(rows, now, 0) == Some(id) ==>
      Expected(rows, id) == Tally(1, 0, 0) && Expected(Reap(rows, now), id) == Tally(1, 1, 0)
    ensures FirstDue(rows, now, 0) != Some(id) ==> Expected(Reap(rows, now), id) == Expected(rows, id)
  {
    if id < |rows| {
      ReapedDue(rows[id], now);
      OnlyDueIsFirst(rows, now, id);
    }
  }

  lemma OnlyDueIsFirst(rows: Rows, now: Time, id: nat)
    requires OneSlot(rows) && id < |rows|
    ensures FirstDue(rows, now, 0) == Some(id) <==> Due(rows[id], now)
  {
    ReapedOrOpen(rows, now);
  }

  /** Nothing but the reaping. */
  lemma SweepKeepsAudited(w: World, now: Time)
    requires Inv(w)
    ensures Audited(Swept(w, now))
  {
    var expired := FirstDue(w.rows, now, 0);
    forall id: nat
      ensures TallyOf(w.audit + ReapAudit(expired), id) == Expected(Reap(w.rows, now), id)
    {
      ReapExpected(w.rows, now, id);
      TallyReap(w.audit, expired, id);
    }
  }

  /** One more event that matches what happened to the table. */
  lemma EventKeepsAudited(w: World, rows: Rows, e: AuditEvent)
    requires Audited(w) && forall id: nat :: Expected(rows, id) == Expected(w.rows, id).Plus(Named(e, id))
    ensures Audited(World(rows, w.audit + [e]))
  {
    forall id: nat
      ensures TallyOf(w.audit + [e], id) == Expected(rows, id)
    {
      TallySnoc(w.audit, e, id);
    }
  }

  /** Row n of `after` is the one row that the tables do not share. */
  predicate DifferAt(rows: Rows, after: Rows, n: nat) {
    n <= |rows| <= |after| <= |rows| + 1 && n < |after|
    && (|after| > |rows| ==> n == |rows|)
    && forall i | 0 <= i < |rows| && i != n :: after[i] == rows[i]
  }

  lemma NamedAt(n: nat, id: nat)
    ensures Named(SessionOpened(n), id) == if n == id then Tally(1, 0, 0) else Tally(0, 0, 0)
    ensures Named(SessionClosed(n), id) == if n == id then Tally(0, 0, 1) else Tally(0, 0, 0)
  {
  }

  lemma SameElsewhere(rows: Rows, after: Rows, n: nat, id: nat)
    requires DifferAt(rows, after, n) && id != n
    ensures Expected(after, id) == Expected(rows, id)
  {
  }

  lemma ClosedExpected(rows: Rows, after: Rows, n: nat, id: nat)
    requires DifferAt(rows, after, n) && n < |rows| && Unclosed(rows[n])
    requires after[n].closing.Some? && after[n].closing.value.why.AdminClosed?
    ensures Expected(after, id) == Expected(rows, id).Plus(Named(SessionClosed(n), id))
  {
    NamedAt(n, id);
    if id != n { SameElsewhere(rows, after, n, id); }
  }

  lemma InsertedExpected(rows: Rows, after: Rows, id: nat)
    requires DifferAt(rows, after, |rows|) && Unclosed(after[|rows|])
    ensures Expected(after, id) == Expected(rows, id).Plus(Named(SessionOpened(|rows|), id))
  {
    NamedAt(|rows|, id);
    if id != |rows| { SameElsewhere(rows, after, |rows|, id); }
  }

  function Swept(w: World, now: Time): World {
    World(Reap(w.rows, now), w.audit + ReapAudit(FirstDue(w.rows, now, 0)))
  }

  lemma ClosedKeepsAudited(w: World, t: Txn)
    requires Inv(w) && t.Close?
    ensures Audited(After(w, t))
  {
    var swept := Swept(w, t.now);
    SweepKeepsAudited(w, t.now);
    var existing := FirstUnclosed(swept.rows, 0);
    if existing.Some? {
      var n := existing.value;
      var closed := swept.rows[n].(closing := Some(Closing(t.now, AdminClosed(t.who))));
      var rows := swept.rows[n := closed];
      forall id: nat
        ensures Expected(rows, id) == Expected(swept.rows, id).Plus(Named(SessionClosed(n), id))
      {
        ClosedExpected(swept.rows, rows, n, id);
      }
      EventKeepsAudited(swept, rows, SessionClosed(n));
      assert After(w, t) == World(rows, swept.audit + [SessionClosed(n)]);
    }
  }

  lemma RefusedKeepsAudited(w: World, t: Txn)
    requires Inv(w) && t.Open? && Apply(w.rows, t).reply.AlreadyActive?
    ensures Audited(After(w, t))
  {
    var swept := Swept(w, t.now);
    var failed := OpenFailed(Apply(w.rows, t).reply.existing);
    SweepKeepsAudited(w, t.now);
    ReapedOrOpen(w.rows, t.now);
    assert swept.rows == w.rows;
    EventKeepsAudited(swept, w.rows, failed);
    assert After(w, t) == World(w.rows, swept.audit + [failed]);
  }

  lemma BegunKeepsAudited(w: World, t: Txn)
    requires Inv(w) && t.Open? && Apply(w.rows, t).reply.NowOpen?
    ensures Audited(After(w, t))
  {
    var swept := Swept(w, t.now);
    var s := Session(t.who, t.now, t.clock + t.minutes * MINUTE, t.reason, None);
    SweepKeepsAudited(w, t.now);
    forall id: nat
      ensures Expected(swept.rows + [s], id) == Expected(swept.rows, id).Plus(Named(SessionOpened(|w.rows|), id))
    {
      InsertedExpected(swept.rows, swept.rows + [s], id);
    }
    EventKeepsAudited(swept, swept.rows + [s], SessionOpened(|w.rows|));
    assert After(w, t) == World(swept.rows + [s], swept.audit + [SessionOpened(|w.rows|)]);
  }

  lemma StepKeepsAudited(w: World, t: Txn)
    requires Inv(w)
    ensures Audited(After(w, t))
  {
    var reply := Apply(w.rows, t).reply;
    if reply.AlreadyActive? { RefusedKeepsAudited(w, t); }
    else if reply.NowOpen? { BegunKeepsAudited(w, t); }
    else if t.Open? { assert After(w, t).audit == w.audit; }
    else if t.Close? { ClosedKeepsAudited(w, t); }
    else { SweepKeepsAudited(w, t.now); }
  }

  lemma {:induction false} RunKeepsInv(txns: seq<Txn>)
    ensures Inv(Run(txns))
    decreases |txns|
  {
    if txns != [] {
      var w, t := Run(txns[..|txns| - 1]), txns[|txns| - 1];
      RunKeepsInv(txns[..|txns| - 1]);
      StepKeepsRows(w, t);
      StepKeepsAudited(w, t);
    }
  }

  // ---- Main results ----

  /** In every run at most one session is unclosed; each session is audited as expired once if it was closed for that
      reason and never otherwise, whoever noticed; and expired it was exactly if its closer began after its expiry. */
  lemma SessionsAreAccountedFor(txns: seq<Txn>, i: nat)
    requires i < |Run(txns).rows|
    ensures var w := Run(txns); var s := w.rows[i];
      && (forall j | 0 <= j < |w.rows| && Unclosed(s) && Unclosed(w.rows[j]) :: i == j)
      && TallyOf(w.audit, i).begun == 1
      && TallyOf(w.audit, i).expired == (if s.closing.Some? && s.expiresAt <= s.closing.value.at then 1 else 0)
      && TallyOf(w.audit, i).expired + TallyOf(w.audit, i).closed == (if Unclosed(s) then 0 else 1)
  {
    RunKeepsInv(txns);
    assert RightlyClosed(Run(txns).rows[i]);
    assert TallyOf(Run(txns).audit, i) == Expected(Run(txns).rows, i);
  }

  /** Activity is reported exactly for an unclosed session that has not expired at the transaction's own timestamp; the
      two flags exclude each other. */
  lemma ActivityIsExact(txns: seq<Txn>, now: Time)
    ensures var rows := Run(txns).rows;
      var running := exists i :: 0 <= i < |rows| && Unclosed(rows[i]) && rows[i].expiresAt > now;
      && (Apply(rows, Status(now)).reply.Active? <==> running)
      && Apply(rows, IsActive(now)).reply.active == running
      && !(Apply(rows, IsActive(now)).reply.active && Apply(rows, IsActive(now)).reply.justExpired)
  {
    RunKeepsInv(txns);
    ReapedOrOpen(Run(txns).rows, now);
  }

  /** An opening that is refused never rolls back a reaping: an expired session and an existing one do not meet. */
  lemma RefusedOpenReapsNothing(txns: seq<Txn>, t: Txn)
    requires t.Open? && Apply(Run(txns).rows, t).reply.AlreadyActive?
    ensures FirstDue(Run(txns).rows, t.now, 0).None? && Reap(Run(txns).rows, t.now) == Run(txns).rows
  {
    RunKeepsInv(txns);
    ReapedOrOpen(Run(txns).rows, t.now);
  }

  /** Opening succeeds exactly when the request is well formed, expires after its own timestamp, and no unexpired
      session is in the slot. */
  lemma {:induction false} OpenSucceedsIff(txns: seq<Txn>, t: Txn)
    requires t.Open?
    ensures Apply(Run(txns).rows, t).reply.NowOpen? <==>
      && !Blank(t.reason) && t.minutes > 0 && t.clock + t.minutes * MINUTE > t.now
      && forall i | 0 <= i < |Run(txns).rows| && Unclosed(Run(txns).rows[i]) :: Run(txns).rows[i].expiresAt <= t.now
  {
    RunKeepsInv(txns);
    ReapedOrOpen(Run(txns).rows, t.now);
  }

  // ---- What each transaction does to the slot ----

  /** Nobody has closed the session and it has time left. */
  predicate Running(s: Session, now: Time) {
    s.closing.None? && now < s.expiresAt
  }

  /** Nobody has closed the session although its time is up. */
  predicate RunOut(s: Session, now: Time) {
    s.closing.None? && s.expiresAt <= now
  }

  /** The row after whatever transaction at `now`: expired if its time is up, closed by `who` if it still runs and
      somebody closes it, and otherwise as it was. */
  predicate RowAfter(s: Session, after: Session, now: Time, who: Option<OperatorId>) {
    after == if RunOut(s, now) then s.(closing := Some(Closing(now, Expired)))
             else if Running(s, now) && who.Some? then s.(closing := Some(Closing(now, AdminClosed(who.value))))
             else s
  }

  /** The audit trail names the session that ran out, if one did. */
  predicate ExpiryAudited(rows: Rows, now: Time, audit: seq<AuditEvent>) {
    && (forall i | 0 <= i < |rows| && RunOut(rows[i], now) :: audit == [SessionExpired(i)])
    && ((forall i | 0 <= i < |rows| :: !RunOut(rows[i], now)) ==> audit == [])
  }

  lemma SweptIs(rows: Rows, now: Time)
    requires OneSlot(rows)
    ensures forall i | 0 <= i < |rows| :: RowAfter(rows[i], Reap(rows, now)[i], now, None)
    ensures ExpiryAudited(rows, now, ReapAudit(FirstDue(rows, now, 0)))
    ensures forall i | 0 <= i < |rows| && Running(rows[i], now) ::
      FirstUnclosed(Reap(rows, now), 0) == Some(i) && FirstDue(rows, now, 0) == None
    ensures (forall i | 0 <= i < |rows| :: !Running(rows[i], now)) ==> FirstUnclosed(Reap(rows, now), 0).None?
  {
    ReapedOrOpen(rows, now);
    forall i | 0 <= i < |rows|
      ensures Due(rows[i], now) == RunOut(rows[i], now)
      ensures (Unclosed(rows[i]) && !Due(rows[i], now)) == Running(rows[i], now)
    {
    }
  }

  /** Status and the activity check, in every run. */
  lemma ReadIs(txns: seq<Txn>, t: Txn)
    requires t.Status? || t.IsActive?
    ensures var rows, e := Run(txns).rows, Apply(Run(txns).rows, t);
      && |e.rows| == |rows| && (forall i | 0 <= i < |rows| :: RowAfter(rows[i], e.rows[i], t.now, None))
      && ExpiryAudited(rows, t.now, e.audit)
      && (t.Status? ==> forall i | 0 <= i < |rows| && Running(rows[i], t.now) :: e.reply == Active(i, rows[i]))
      && (t.Status? && (forall i | 0 <= i < |rows| :: !Running(rows[i], t.now)) ==> e.reply == Inactive)
      && (t.IsActive? ==> e.reply == Flags(exists i :: 0 <= i < |rows| && Running(rows[i], t.now),
                                           exists i :: 0 <= i < |rows| && RunOut(rows[i], t.now)))
  {
    var rows := Run(txns).rows;
    RunKeepsInv(txns);
    SweptIs(rows, t.now);
    forall i | 0 <= i < |rows|
      ensures RowAfter(rows[i], Reap(rows, t.now)[i], t.now, None)
    {
    }
    assert FirstDue(rows, t.now, 0).Some? <==> exists i :: 0 <= i < |rows| && RunOut(rows[i], t.now);
  }

  /** Closing, in every run: the session that runs ends now, by the operator who closes it; nothing else does. */
  lemma CloseIs(txns: seq<Txn>, t: Txn)
    requires t.Close?
    ensures var rows, e := Run(txns).rows, Apply(Run(txns).rows, t);
      && |e.rows| == |rows| && (forall i | 0 <= i < |rows| :: RowAfter(rows[i], e.rows[i], t.now, Some(t.who)))
      && (forall i | 0 <= i < |rows| && Running(rows[i], t.now) ::
           e.reply == NowClosed(i) && e.audit == [SessionClosed(i)])
      && ((forall i | 0 <= i < |rows| :: !Running(rows[i], t.now)) ==>
           e.reply == Inactive && ExpiryAudited(rows, t.now, e.audit))
  {
    var rows := Run(txns).rows;
    RunKeepsInv(txns);
    SweptIs(rows, t.now);
    forall i | 0 <= i < |rows| && Running(rows[i], t.now)
      ensures Reap(rows, t.now)[i] == rows[i]
    {
      assert RowAfter(rows[i], Reap(rows, t.now)[i], t.now, None);
    }
  }

  predicate OpenedBy(rows: Rows, t: Txn, e: Effect)
    requires t.Open?
  {
    && |e.rows| == |rows| + 1 && (forall i | 0 <= i < |rows| :: RowAfter(rows[i], e.rows[i], t.now, None))
    && e.rows[|rows|] == Session(t.who, t.now, t.clock + t.minutes * MINUTE, t.reason, None)
    && e.reply == NowOpen(|rows|) && e.audit != [] && e.audit[|e.audit| - 1] == SessionOpened(|rows|)
    && ExpiryAudited(rows, t.now, e.audit[..|e.audit| - 1])
  }

  lemma OpenedIs(rows: Rows, t: Txn)
    requires OneSlot(rows) && t.Open? && Begun(rows, t).reply.NowOpen?
    ensures OpenedBy(rows, t, Begun(rows, t))
  {
    SweptIs(rows, t.now);
    var e, due := Begun(rows, t), ReapAudit(FirstDue(rows, t.now, 0));
    assert e.audit == due + [SessionOpened(|rows|)] && e.audit[..|e.audit| - 1] == due;
    forall i | 0 <= i < |rows|
      ensures e.rows[i] == Reap(rows, t.now)[i]
    {
    }
  }

  lemma RefusedIs(rows: Rows, t: Txn)
    requires OneSlot(rows) && t.Open?
    ensures var e := Begun(rows, t);
      && (!e.reply.NowOpen? ==> e.rows == rows)
      && (Blank(t.reason) || t.minutes <= 0 <==> e.reply.Invalid?)
      && (forall i | 0 <= i < |rows| && Running(rows[i], t.now) && !e.reply.Invalid? ::
           e.reply == AlreadyActive(i) && e.audit == [OpenFailed(i)])
      && (e.reply.Invalid? || e.reply.ConstraintViolated? ==> e.audit == [])
  {
    SweptIs(rows, t.now);
  }

  /** Opening, in every run: what it inserts, and what it leaves when it is refused. */
  lemma OpenIs(txns: seq<Txn>, t: Txn)
    requires t.Open?
    ensures var rows, e := Run(txns).rows, Apply(Run(txns).rows, t);
      && (!e.reply.NowOpen? ==> e.rows == rows)
      && (Blank(t.reason) || t.minutes <= 0 <==> e.reply.Invalid?)
      && (forall i | 0 <= i < |rows| && Running(rows[i], t.now) && !e.reply.Invalid? ::
           e.reply == AlreadyActive(i) && e.audit == [OpenFailed(i)])
      && (e.reply.Invalid? || e.reply.ConstraintViolated? ==> e.audit == [])
      && (e.reply.NowOpen? ==> OpenedBy(rows, t, e))
  {
    RunKeepsInv(txns);
    RefusedIs(Run(txns).rows, t);
    if Begun(Run(txns).rows, t).reply.NowOpen? { OpenedIs(Run(txns).rows, t); }
  }

  /** What status reports when the newest session is unclosed. */
  lemma StatusOfNewest(rows: Rows, now: Time)
    requires OneSlot(rows) && rows != [] && Unclosed(rows[|rows| - 1])
    ensures var s := rows[|rows| - 1];
      Apply(rows, Status(now)).reply == if now < s.expiresAt then Active(|rows| - 1, s) else Inactive
  {
    ReapedOrOpen(rows, now);
    var s := rows[|rows| - 1];
    var swept := Reap(rows, now);
    assert now < s.expiresAt ==> FirstUnclosed(swept, 0) == Some(|rows| - 1);
    assert now >= s.expiresAt ==> FirstDue(rows, now, 0) == Some(|rows| - 1);
  }

  lemma CloseLeavesNone(rows: Rows, now: Time, who: OperatorId)
    requires OneSlot(rows)
    ensures FirstUnclosed(Apply(rows, Close(now, who)).rows, 0).None?
  {
    ReapedOrOpen(rows, now);
  }

  lemma NoneIsInactive(rows: Rows, now: Time)
    requires FirstUnclosed(rows, 0).None?
    ensures Apply(rows, Status(now)).reply.Inactive?
  {
    var swept := Reap(rows, now);
    forall i | 0 <= i < |swept|
      ensures !Unclosed(swept[i])
    {
      assert !Unclosed(rows[i]);
    }
  }

  /** A session that has been opened is what status reports, until its duration has run out by the reader's timestamp;
      once closed nothing is. */
  lemma OpenThenStatus(txns: seq<Txn>, t: Txn, now: Time, who: OperatorId)
    requires t.Open? && Apply(Run(txns).rows, t).reply.NowOpen?
    ensures var rows := Apply(Run(txns).rows, t).rows; var expiry := t.clock + t.minutes * MINUTE;
      && Apply(rows, Status(now)).reply ==
           (if now < expiry then Active(|rows| - 1, Session(t.who, t.now, expiry, t.reason, None)) else Inactive)
      && Apply(Apply(rows, Close(now, who)).rows, Status(now)).reply.Inactive?
  {
    RunKeepsInv(txns);
    StepKeepsRows(Run(txns), t);
    var rows := Apply(Run(txns).rows, t).rows;
    assert rows[|rows| - 1] == Session(t.who, t.now, t.clock + t.minutes * MINUTE, t.reason, None);
    StatusOfNewest(rows, now);
    CloseLeavesNone(rows, now, who);
    NoneIsInactive(Apply(rows, Close(now, who)).rows, now);
  }

  predicate Monotone(txns: seq<Txn>) {
    forall i, j | 0 <= i < j < |txns| :: txns[i].now <= txns[j].now
  }

  /** Sessions follow one another in time. */
  predicate Successive(rows: Rows, now: Time) {
    && (forall i, j | 0 <= i < j < |rows| :: rows[i].closing.Some? && rows[i].closing.value.at <= rows[j].openedAt)
    && (forall i | 0 <= i < |rows| :: rows[i].openedAt <= now && (rows[i].closing.Some? ==>
          rows[i].openedAt <= rows[i].closing.value.at <= now))
  }

  lemma ReapKeepsSuccessive(rows: Rows, before: Time, now: Time)
    requires OneSlot(rows) && Successive(rows, before) && before <= now
    ensures Successive(Reap(rows, now), now) && OneSlot(Reap(rows, now)) && |Reap(rows, now)| == |rows|
  {
  }

  lemma CloseKeepsSuccessive(rows: Rows, now: Time, who: OperatorId, id: nat)
    requires OneSlot(rows) && Successive(rows, now) && id < |rows| && Unclosed(rows[id])
    ensures Successive(rows[id := rows[id].(closing := Some(Closing(now, AdminClosed(who))))], now)
  {
  }

  lemma InsertKeepsSuccessive(rows: Rows, now: Time, s: Session)
    requires OneSlot(rows) && Successive(rows, now) && FirstUnclosed(rows, 0).None? && s.openedAt == now && Unclosed(s)
    ensures Successive(rows + [s], now)
  {
  }

  lemma StepKeepsSuccessive(rows: Rows, before: Time, t: Txn)
    requires OneSlot(rows) && Successive(rows, before) && before <= t.now
    ensures Successive(Apply(rows, t).rows, t.now)
  {
    ReapKeepsSuccessive(rows, before, t.now);
    var swept := Reap(rows, t.now);
    var e := Apply(rows, t);
    if e.reply.NowClosed? { CloseKeepsSuccessive(swept, t.now, t.who, e.reply.id); }
    if e.reply.NowOpen? { InsertKeepsSuccessive(swept, t.now, e.rows[|rows|]); }
  }

  /** When transactions take the lock in timestamp order, no session opens before the one before it has closed. */
  lemma {:induction false} SessionsDoNotOverlap(txns: seq<Txn>, now: Time)
    requires Monotone(txns) && (txns != [] ==> txns[|txns| - 1].now <= now)
    ensures Successive(Run(txns).rows, now)
    decreases |txns|
  {
    if txns != [] {
      var last := |txns| - 1;
      RunKeepsInv(txns[..last]);
      SessionsDoNotOverlap(txns[..last], txns[last].now);
      StepKeepsSuccessive(Run(txns[..last]).rows, txns[last].now, txns[last]);
    }
  }

  /** On record, no session opened before the one before it was closed. */
  predicate NonOverlapping(rows: Rows) {
    forall i, j | 0 <= i < j < |rows| :: rows[i].closing.Some? && rows[i].closing.value.at <= rows[j].openedAt
  }

  predicate ClosedBy(rows: Rows, now: Time) {
    forall i | 0 <= i < |rows| && rows[i].closing.Some? :: rows[i].closing.value.at <= now
  }

  lemma ReapKeepsOverlaps(rows: Rows, now: Time)
    requires OneSlot(rows)
    ensures OneSlot(Reap(rows, now)) && (NonOverlapping(Reap(rows, now)) <==> NonOverlapping(rows))
    ensures ClosedBy(Reap(rows, now), now) <==> ClosedBy(rows, now)
  {
    var swept := Reap(rows, now);
    forall i | 0 <= i < |rows|
      ensures swept[i].openedAt == rows[i].openedAt && (i < |rows| - 1 ==> swept[i] == rows[i])
    {
      assert swept[i] == Reaped(rows[i], now);
    }
    forall i | 0 <= i < |rows| && swept[i] != rows[i]
      ensures rows[i].closing.None? && swept[i].closing.value.at == now
    {
      assert swept[i] == Reaped(rows[i], now);
    }
  }

  lemma CloseKeepsOverlaps(rows: Rows, id: nat, closed: Session)
    requires OneSlot(rows) && id < |rows| && Unclosed(rows[id]) && closed.openedAt == rows[id].openedAt
    ensures NonOverlapping(rows[id := closed]) <==> NonOverlapping(rows)
  {
    var after := rows[id := closed];
    forall i | 0 <= i < |rows|
      ensures after[i].openedAt == rows[i].openedAt && (i < |rows| - 1 ==> after[i] == rows[i])
    {
    }
  }

  lemma InsertKeepsOverlapsIff(rows: Rows, s: Session)
    requires OneSlot(rows) && FirstUnclosed(rows, 0).None?
    ensures NonOverlapping(rows + [s]) <==> NonOverlapping(rows) && ClosedBy(rows, s.openedAt)
  {
    var after := rows + [s];
    forall i | 0 <= i < |rows|
      ensures after[i] == rows[i] && rows[i].closing.Some?
    {
    }
    assert after[|rows|] == s;
  }

  predicate OpensAfterClosings(rows: Rows, t: Txn) {
    Apply(rows, t).reply.NowOpen? ==> ClosedBy(rows, t.now)
  }

  /** Exactly when a transaction leaves sessions that did not overlap without an overlap: it opens none, or the one it
      opens begins, by its own timestamp, no earlier than any session was closed. */
  lemma KeepsNonOverlappingIff(rows: Rows, t: Txn)
    requires OneSlot(rows)
    ensures NonOverlapping(Apply(rows, t).rows) <==>
      NonOverlapping(rows) && OpensAfterClosings(rows, t)
  {
    var swept := Reap(rows, t.now);
    var e := Apply(rows, t);
    ReapKeepsOverlaps(rows, t.now);
    if e.reply.NowOpen? { InsertKeepsOverlapsIff(swept, e.rows[|rows|]); }
    if e.reply.NowClosed? { CloseKeepsOverlaps(swept, e.reply.id, e.rows[e.reply.id]); }
  }

  /** Every opening of the run came, by its own timestamp, after the closings on record when it was made. */
  predicate AllOpenAfterClosings(txns: seq<Txn>) {
    txns != [] ==>
      var last := |txns| - 1;
      AllOpenAfterClosings(txns[..last]) && OpensAfterClosings(Run(txns[..last]).rows, txns[last])
  }

  /** Exactly which runs leave sessions that overlap on record: those in which an opener, by its own timestamp, began
      before a session that it found closed was closed. */
  lemma {:induction false} NonOverlappingIff(txns: seq<Txn>)
    ensures NonOverlapping(Run(txns).rows) <==> AllOpenAfterClosings(txns)
    decreases |txns|
  {
    if txns != [] {
      var last := |txns| - 1;
      RunKeepsInv(txns[..last]);
      NonOverlappingIff(txns[..last]);
      KeepsNonOverlappingIff(Run(txns[..last]).rows, txns[last]);
    }
  }

  /** One more transaction after a run that reached the given rows. */
  lemma Extend(txns: seq<Txn>, rows: Rows, t: Txn, next: Rows) returns (all: seq<Txn>)
    requires Run(txns).rows == rows && Apply(rows, t).rows == next
    ensures Run(all).rows == next
  {
    all := txns + [t];
    assert all[..|txns|] == txns;
  }

  lemma OpensFree(rows: Rows, t: Txn)
    requires t.Open? && !Blank(t.reason) && t.minutes > 0 && t.clock + t.minutes * MINUTE > t.now
    requires forall s | s in rows :: s.closing.Some?
    ensures Apply(rows, t).rows == rows + [Session(t.who, t.now, t.clock + t.minutes * MINUTE, t.reason, None)]
  {
    assert Reap(rows, t.now) == rows;
  }

  lemma ClosesOnly(s: Session, t: Txn)
    requires t.Close? && Running(s, t.now)
    ensures Apply([s], t).rows == [s.(closing := Some(Closing(t.now, AdminClosed(t.who))))]
  {
    assert Reap([s], t.now) == [s];
  }

  /** Out of order they can: an opener that began before an administrator closed the slot, but got the lock after, opens
      a session that on record overlaps the closed one. */
  lemma OverlapOnRecord() returns (txns: seq<Txn>)
    ensures var rows := Run(txns).rows;
      |rows| == 2 && rows[0].closing.Some? && rows[1].openedAt < rows[0].closing.value.at
  {
    var reason := "x";
    assert !Blank(reason) by { assert 'x' in reason; }
    var first := Session(1, 0, 30 * MINUTE, reason, None);
    var closed := first.(closing := Some(Closing(20, AdminClosed(1))));
    OpensFree([], Open(0, 0, 1, reason, 30));
    txns := Extend([], [], Open(0, 0, 1, reason, 30), [] + [first]);
    assert [] + [first] == [first];
    ClosesOnly(first, Close(20, 1));
    txns := Extend(txns, [first], Close(20, 1), [closed]);
    OpensFree([closed], Open(10, 20, 2, reason, 30));
    txns := Extend(txns, [closed], Open(10, 20, 2, reason, 30),
                   [closed] + [Session(2, 10, 20 + 30 * MINUTE, reason, None)]);
  }
}
