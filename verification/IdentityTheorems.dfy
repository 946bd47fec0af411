/** What the invariants of the identity runs mean for terminal ids, ownership, attribution and evidence. */
module IdentityTheorems {
  import opened Basics
  import opened TerminalIds
  import opened Identity
  import opened IdentityRuns
  import opened IdentityTerms

  // ---- Statuses ----

  /** Between any two states of a run an enrollment's status follows a path of the transition table; once past its
      reservation and not cancelled its terminal account is on record, and once ready for mapping it is confirmed and
      bound to a scan that this terminal account really made. */
  lemma StatusesFollowTheTable(hist: seq<Tables>, txns: seq<Txn>, i: nat, j: nat, id: RowId)
    requires Good(hist) && i <= j < |Run(hist, txns)| && id < |Run(hist, txns)[i].enrollments|
    ensures var s, t := Run(hist, txns)[i], Run(hist, txns)[j];
      && id < |t.enrollments|
      && var a, b := s.enrollments[id], t.enrollments[id];
      && (exists path: seq<Status> ::
           |path| > 0 && path[0] == a.status && path[|path| - 1] == b.status && IsPath(path))
      && (!b.status.Reserved? && !b.status.Cancelled? ==> b.terminalCreatedAt.Some? && b.account in t.deviceUsers)
      && (b.status.ReadyForMapping? ==>
           b.confirmedBy.Some? && b.scanTime.Some? && Stored(t, b.account, b.scanTime.value))
  {
    RunKeeps(hist, txns);
    var s, t := Run(hist, txns)[i], Run(hist, txns)[j];
    assert Evolves(s, t) && Inv(t);
    assert RowEvolves(s.enrollments[id], t.enrollments[id]) && RowOk(t, t.enrollments[id]);
    CanReachIsPathExistence(s.enrollments[id].status, t.enrollments[id].status);
  }

  // ---- Terminal ids ----

  /** In every state of every run, two enrollments that hold a terminal id, created or only reserved, hold different
      ones. */
  lemma HoldersDiffer(hist: seq<Tables>, txns: seq<Txn>, i: nat, id: RowId, other: RowId)
    requires Good(hist) && i < |Run(hist, txns)| && id != other
    requires id < |Run(hist, txns)[i].enrollments| && other < |Run(hist, txns)[i].enrollments|
    requires !Reclaimable(Run(hist, txns)[i].enrollments[id]) && !Reclaimable(Run(hist, txns)[i].enrollments[other])
    ensures Run(hist, txns)[i].enrollments[id].account != Run(hist, txns)[i].enrollments[other].account
  {
    RunKeeps(hist, txns);
    var t := Run(hist, txns)[i];
    assert Inv(t);
    OneHolder(t.enrollments, id, other);
  }

  /** A terminal id whose account was created for one enrollment is never held by another, then or later. */
  lemma TerminalIdsNeverRecycled(hist: seq<Tables>, txns: seq<Txn>, i: nat, j: nat, id: RowId, other: RowId)
    requires Good(hist) && i <= j < |Run(hist, txns)|
    requires id < |Run(hist, txns)[i].enrollments| && other < |Run(hist, txns)[j].enrollments| && id != other
    requires Run(hist, txns)[i].enrollments[id].terminalCreatedAt.Some?
    requires !Reclaimable(Run(hist, txns)[j].enrollments[other])
    ensures Run(hist, txns)[j].enrollments[other].account != Run(hist, txns)[i].enrollments[id].account
  {
    RunKeeps(hist, txns);
    var s, t := Run(hist, txns)[i], Run(hist, txns)[j];
    assert Evolves(s, t) && Inv(t);
    assert RowEvolves(s.enrollments[id], t.enrollments[id]);
    OneHolder(t.enrollments, id, other);
  }

  lemma BlockedIsTaken(t: Tables, device: DeviceId, roster: set<string>, user: string)
    ensures user in BlockedIds(UsedIds(t, device), roster) <==> Taken(t, device, roster, user)
  {
    if Account(device, user) in t.deviceUsers { assert Account(device, user).user == user; }
    if e :| e in t.enrollments && e.account == Account(device, user) && !Reclaimable(e) {
      assert e.account.user == user;
    }
  }

  /** A reservation that succeeds takes the least free production id: at the read it was not taken and every smaller one
      from 1001 on was, and at the commit no enrollment holds it. */
  lemma ReservationTakesLeastFreeId(hist: seq<Tables>, txn: Txn)
    requires Good(hist) && txn.op.Reserve? && |Commit(hist, txn).enrollments| > |Last(hist).enrollments|
    ensures var t, used := Commit(hist, txn), Look(hist, txn, txn.op.rUsed);
      var row := t.enrollments[|Last(hist).enrollments|];
      && row.account.device == txn.op.device && row.employee == txn.op.employee && row.status.Reserved?
      && !Taken(used, txn.op.device, txn.op.roster, row.account.user)
      && (forall i | 0 <= i < |Last(hist).enrollments| && t.enrollments[i].account == row.account ::
           Reclaimable(t.enrollments[i]))
      && exists n: nat ::
           && n >= 1001 && row.account.user == Decimal(n)
           && forall k: nat | 1001 <= k < n :: Taken(used, txn.op.device, txn.op.roster, Decimal(k))
  {
    var used := Look(hist, txn, txn.op.rUsed);
    forall user
      ensures user in BlockedIds(UsedIds(used, txn.op.device), txn.op.roster) <==>
        Taken(used, txn.op.device, txn.op.roster, user)
    {
      BlockedIsTaken(used, txn.op.device, txn.op.roster, user);
    }
    var n := NextFree(BlockedIds(UsedIds(used, txn.op.device), txn.op.roster), PRODUCTION_NAMESPACE_START);
  }

  /** If the operation is a reservation, it reads the used ids no earlier than in state n. */
  predicate ReadsUsedIdsSince(op: Op, n: nat) {
    op.Reserve? ==> op.rUsed.Current? || op.rUsed.index >= n
  }

  /** A commit that inserts an enrollment does not take an account on record when the used ids were read. */
  lemma CommitReservesOffRecord(hist: seq<Tables>, txn: Txn, n: nat, a: Account)
    requires Good(hist) && n < |hist| && a in hist[n].deviceUsers && ReadsUsedIdsSince(txn.op, n)
    ensures var s, u := Last(hist), Commit(hist, txn);
      && |u.enrollments| <= |s.enrollments| + 1
      && (|u.enrollments| > |s.enrollments| ==> u.enrollments[|s.enrollments|].account != a)
  {
    if txn.op.Reserve? {
      assert Evolves(hist[n], Last(hist));
      assert txn.op.rUsed.Past? && txn.op.rUsed.index < |hist| ==> Evolves(hist[n], hist[txn.op.rUsed.index]);
      assert a in Look(hist, txn, txn.op.rUsed).deviceUsers;
      if |Commit(hist, txn).enrollments| > |Last(hist).enrollments| { ReservationTakesLeastFreeId(hist, txn); }
    } else {
      OnlyReservationInserts(hist, txn);
    }
  }

  lemma OnlyReservationInserts(hist: seq<Tables>, txn: Txn)
    requires |hist| > 0 && !txn.op.Reserve?
    ensures |Commit(hist, txn).enrollments| == |Last(hist).enrollments|
  {
    if OwnershipOp(txn.op) { OwnershipInsertsNoRow(hist, txn); } else { StepsInsertNoRow(hist, txn); }
  }

  lemma OwnershipInsertsNoRow(hist: seq<Tables>, txn: Txn)
    requires |hist| > 0 && OwnershipOp(txn.op)
    ensures |CommitOwnership(hist, txn).enrollments| == |Last(hist).enrollments|
  {
  }

  lemma StepsInsertNoRow(hist: seq<Tables>, txn: Txn)
    requires |hist| > 0 && !OwnershipOp(txn.op) && !txn.op.Reserve?
    ensures |CommitEnrollment(hist, txn).enrollments| == |Last(hist).enrollments|
  {
  }

  lemma RunHead(hist: seq<Tables>, txns: seq<Txn>, u: Tables)
    requires |hist| > 0 && txns != [] && u == Commit(hist, txns[0])
    ensures Run(hist, txns) == Run(hist + [u], txns[1..]) && Run(hist, txns)[|hist|] == u
  {
    assert (hist + [u])[|hist|] == u;
  }

  /** The first transaction of the run inserts no row for the account, and rows keep their accounts. */
  lemma FirstReservesOffRecord(hist: seq<Tables>, txns: seq<Txn>, u: Tables, n: nat, a: Account, j: nat, id: RowId)
    requires Good(hist) && n < |hist| && a in hist[n].deviceUsers && txns != [] && ReadsUsedIdsSince(txns[0].op, n)
    requires u == Commit(hist, txns[0]) && |hist| <= j < |hist| + |txns|
    requires |Last(hist).enrollments| <= id < |Run(hist, txns)[j].enrollments|
    ensures Good(hist + [u])
    ensures id < |u.enrollments| ==> Run(hist, txns)[j].enrollments[id].account != a
    ensures id >= |u.enrollments| ==> j > |hist|
  {
    CommitExtends(hist, txns[0]);
    CommitReservesOffRecord(hist, txns[0], n, a);
    RunHead(hist, txns, u);
    SameAccountLater(hist + [u], txns[1..], |hist|, j, id);
  }

  /** An account on record, whether or not somebody holds it, is never reserved by a later transaction that reads the
      used ids once it is there. */
  lemma {:induction false} AccountsOnRecordAreNotReserved(hist: seq<Tables>, txns: seq<Txn>, n: nat,
                                                          a: Account, j: nat, id: RowId)
    requires Good(hist) && n < |hist| && a in hist[n].deviceUsers
    requires forall i | 0 <= i < |txns| :: ReadsUsedIdsSince(txns[i].op, n)
    requires |hist| <= j < |hist| + |txns|
    requires |Last(hist).enrollments| <= id < |Run(hist, txns)[j].enrollments|
    ensures Run(hist, txns)[j].enrollments[id].account != a
    decreases |txns|
  {
    var u := Commit(hist, txns[0]);
    FirstReservesOffRecord(hist, txns, u, n, a, j, id);
    if id >= |u.enrollments| {
      RunHead(hist, txns, u);
      AccountsOnRecordAreNotReserved(hist + [u], txns[1..], n, a, j, id);
    }
  }

  lemma SameAccountLater(hist: seq<Tables>, txns: seq<Txn>, i: nat, j: nat, id: RowId)
    requires Good(hist) && i < |hist| && i <= j < |Run(hist, txns)|
    ensures |hist[i].enrollments| <= |Run(hist, txns)[j].enrollments|
    ensures id < |hist[i].enrollments| ==> Run(hist, txns)[j].enrollments[id].account == hist[i].enrollments[id].account
    ensures i == j ==> Run(hist, txns)[j] == hist[i]
  {
    LaterInRun(hist, txns, i, j);
    if id < |hist[i].enrollments| {
      assert RowEvolves(hist[i].enrollments[id], Run(hist, txns)[j].enrollments[id]);
    }
  }

  ghost predicate OnePerAccount(ms: seq<Mapping>, from: nat) {
    forall i, j | from <= i < j < |ms| && ms[i].verified && ms[j].verified :: ms[i].account != ms[j].account
  }

  lemma CommitKeepsOnePerAccount(hist: seq<Tables>, txn: Txn)
    requires Good(hist) && OnePerAccount(Last(hist).mappings, |hist[0].mappings|)
    ensures OnePerAccount(Commit(hist, txn).mappings, |hist[0].mappings|)
  {
    CommitKeeps(hist, txn);
    var t := Commit(hist, txn);
    if |t.mappings| > |Last(hist).mappings| {
      InsertedForReady(hist, txn);
      InsertKeepsOnePerAccount(hist[0], Last(hist), t, txn.op.id);
    } else {
      InsertKeepsOnePerAccount(hist[0], Last(hist), t, 0);
    }
  }

  /** A mapping on the account of a ready enrollment is the account's first since `first`: an earlier one would have
      left a retired enrollment holding the same id. */
  lemma NoEarlierMapping(first: Tables, s: Tables, id: RowId, i: RowId)
    requires Evolves(first, s) && Inv(s) && |first.mappings| <= i < |s.mappings| && s.mappings[i].verified
    requires id < |s.enrollments| && s.enrollments[id].status.ReadyForMapping?
    ensures s.mappings[i].account != s.enrollments[id].account
  {
    assert HasRetired(s.enrollments, s.mappings[i]);
    var k :| 0 <= k < |s.enrollments| && s.enrollments[k].status.Retired?
      && s.enrollments[k].account == s.mappings[i].account;
    OneHolder(s.enrollments, id, k);
  }

  lemma InsertKeepsOnePerAccount(first: Tables, s: Tables, t: Tables, id: RowId)
    requires Evolves(first, s) && Evolves(s, t) && Inv(s) && OnePerAccount(s.mappings, |first.mappings|)
    requires |t.mappings| > |s.mappings| ==>
      && |t.mappings| == |s.mappings| + 1 && id < |s.enrollments| && s.enrollments[id].status.ReadyForMapping?
      && t.mappings[|s.mappings|].account == s.enrollments[id].account
    ensures OnePerAccount(t.mappings, |first.mappings|)
  {
    forall i, j | |first.mappings| <= i < j < |t.mappings| && t.mappings[i].verified && t.mappings[j].verified
      ensures t.mappings[i].account != t.mappings[j].account
    {
      assert MappingEvolves(s.mappings[i], t.mappings[i]);
      if j < |s.mappings| {
        assert MappingEvolves(s.mappings[j], t.mappings[j]);
      } else {
        NoEarlierMapping(first, s, id, i);
      }
    }
  }

  /** Only create_verified_mapping inserts a mapping, for the account of an enrollment ready at the commit. */
  lemma InsertedForReady(hist: seq<Tables>, txn: Txn)
    requires Good(hist) && |Commit(hist, txn).mappings| > |Last(hist).mappings|
    ensures txn.op.CreateMapping? && txn.op.id < |Last(hist).enrollments|
    ensures Last(hist).enrollments[txn.op.id].status.ReadyForMapping?
    ensures |Commit(hist, txn).mappings| == |Last(hist).mappings| + 1
    ensures Commit(hist, txn).mappings[|Last(hist).mappings|].account == Last(hist).enrollments[txn.op.id].account
  {
    if OwnershipOp(txn.op) { OnlyCreationInserts(hist, txn); } else { EnrollmentOpTouches(hist, txn); }
    ReadsDoEvolve(hist, txn);
    assert Evolves(Look(hist, txn, txn.op.rRow), Arrive(hist, txn.wait));
    assert RowEvolves(Look(hist, txn, txn.op.rRow).enrollments[txn.op.id], Last(hist).enrollments[txn.op.id]);
  }

  lemma OnlyCreationInserts(hist: seq<Tables>, txn: Txn)
    requires |hist| > 0 && OwnershipOp(txn.op) && |Commit(hist, txn).mappings| > |Last(hist).mappings|
    ensures txn.op.CreateMapping?
  {
  }

  /** However the checks of mapping creation interleave with other transactions, a run creates at most one VERIFIED
      mapping per terminal account. */
  lemma {:induction false} OneMappingPerAccount(hist: seq<Tables>, txns: seq<Txn>)
    requires Good(hist) && OnePerAccount(Last(hist).mappings, |hist[0].mappings|)
    ensures OnePerAccount(Last(Run(hist, txns)).mappings, |hist[0].mappings|)
    decreases |txns|
  {
    if txns != [] {
      CommitKeepsOnePerAccount(hist, txns[0]);
      CommitExtends(hist, txns[0]);
      OneMappingPerAccount(hist + [Commit(hist, txns[0])], txns[1..]);
    }
  }

  // ---- Ownership and attribution ----

  /** The resolver's "more than one match" branch is unreachable in every state of every run. */
  lemma ResolverNeverAmbiguous(hist: seq<Tables>, txns: seq<Txn>, i: nat, account: Account, x: Time)
    requires Good(hist) && i < |Run(hist, txns)|
    ensures |Matches(Run(hist, txns)[i], account, x)| <= 1
  {
    RunKeeps(hist, txns);
    var t := Run(hist, txns)[i];
    assert Inv(t);
    AtMostOneMatch(t, account, x);
  }

  lemma AtMostOneMatch(t: Tables, account: Account, x: Time)
    requires Disjoint(t.mappings)
    ensures |Matches(t, account, x)| <= 1
  {
    if m: RowId :| m in Matches(t, account, x) {
      CoveredOnce(t, account, x, m);
    } else {
      assert Matches(t, account, x) == {};
    }
  }

  /** A transaction all of whose reads are current. */
  predicate Fresh(op: Op) {
    match op
    case Reserve(_, _, _, r1, r2, r3) => r1.Current? && r2.Current? && r3.Current?
    case Transition(_, _, r1) => r1.Current?
    case StartWindow(_, _, _, r1) => r1.Current?
    case ConfirmScan(_, r1, r2, r3) => r1.Current? && r2.Current? && r3.Current?
    case MarkReady(_, _, r1, r2, r3, r4) => r1.Current? && r2.Current? && r3.Current? && r4.Current?
    case CreateMapping(_, r1, r2, r3, r4, r5) => r1.Current? && r2.Current? && r3.Current? && r4.Current? && r5.Current?
    case _ => true
  }

  /** Intervals that were disjoint stay so when some are closed after they began. */
  lemma ShrinkingStaysDisjoint(ms: seq<Mapping>, ns: seq<Mapping>, now: Time)
    requires Disjoint(ms) && |ns| == |ms|
    requires forall i | 0 <= i < |ms| ::
      ns[i] == ms[i] || (ms[i].validTo.None? && ms[i].validFrom < now && ns[i] == Close(ms[i], now))
    ensures Disjoint(ns)
  {
    forall i, j | 0 <= i < j < |ns|
      ensures Compatible(ns[i], ns[j])
    {
      assert Compatible(ms[i], ms[j]);
    }
  }

  lemma FreshCommitKeepsDisjoint(hist: seq<Tables>, txn: Txn)
    requires |hist| > 0 && Disjoint(Last(hist).mappings) && Fresh(txn.op)
    ensures Disjoint(Commit(hist, txn).mappings)
  {
    var s, u := Last(hist), Commit(hist, txn);
    if !OwnershipOp(txn.op) {
      EnrollmentOpTouches(hist, txn);
    } else if txn.op.CreateMapping? {
      if u.mappings != s.mappings { AppendDisjoint(s.mappings, u.mappings[|s.mappings|]); }
    } else {
      ShrinkingStaysDisjoint(s.mappings, u.mappings, StartOf(hist, txn));
    }
  }

  /** Disjoint ownership alone is enough, whatever else the tables hold: every sequence of operations with current reads
      keeps it disjoint. */
  lemma {:induction false} DisjointFromAnyTables(hist: seq<Tables>, txns: seq<Txn>)
    requires |hist| > 0 && Disjoint(Last(hist).mappings) && forall i | 0 <= i < |txns| :: Fresh(txns[i].op)
    ensures forall i | |hist| - 1 <= i < |hist| + |txns| :: Disjoint(Run(hist, txns)[i].mappings)
    decreases |txns|
  {
    if txns != [] {
      FreshCommitKeepsDisjoint(hist, txns[0]);
      var next := hist + [Commit(hist, txns[0])];
      DisjointFromAnyTables(next, txns[1..]);
      assert Run(hist, txns)[..|next|] == next;
    }
  }

  /** So the resolver's ambiguity branch stays unreachable from any tables with disjoint ownership. */
  lemma UnambiguousFromAnyTables(hist: seq<Tables>, txns: seq<Txn>, i: nat, account: Account, x: Time)
    requires |hist| > 0 && Disjoint(Last(hist).mappings) && forall k | 0 <= k < |txns| :: Fresh(txns[k].op)
    requires |hist| - 1 <= i < |hist| + |txns|
    ensures |Matches(Run(hist, txns)[i], account, x)| <= 1
  {
    DisjointFromAnyTables(hist, txns);
    AtMostOneMatch(Run(hist, txns)[i], account, x);
  }

  // ---- Evidence ----

  lemma ScansDiffer(t: Tables, i: RowId, j: RowId)
    requires ScansOk(t) && i < |t.attendance| && j < |t.attendance| && i != j
    ensures !SameScan(t.attendance[i], t.attendance[j])
  {
  }

  lemma ExactScanIsEvidence(t: Tables, account: Account, x: Time, i: RowId)
    requires ScansOk(t) && i < |t.attendance| && t.attendance[i].account == account && t.attendance[i].scanTime == x
    ensures Evidence(t, account, x) == Some(i)
  {
    assert IsEvidence(t, account, x, i);
    forall j: RowId | IsEvidence(t, account, x, j)
      ensures j == i
    {
      assert NearerOrSame(t, x, j, i);
      if i != j { ScansDiffer(t, i, j); }
    }
  }

  /** The evidence row of an enrollment is the very scan whose time it stores. */
  lemma EvidenceOfRow(t: Tables, id: RowId) returns (scan: RowId)
    requires Inv(t) && id < |t.enrollments| && t.enrollments[id].scanTime.Some?
    ensures scan < |t.attendance| && t.attendance[scan].account == t.enrollments[id].account
    ensures Some(t.attendance[scan].scanTime) == t.enrollments[id].scanTime
    ensures Evidence(t, t.enrollments[id].account, t.enrollments[id].scanTime.value) == Some(scan)
  {
    var e := t.enrollments[id];
    assert RowOk(t, e);
    scan :| 0 <= scan < |t.attendance| && t.attendance[scan].account == e.account
      && t.attendance[scan].scanTime == e.scanTime.value;
    ExactScanIsEvidence(t, e.account, e.scanTime.value, scan);
  }

  /** A successful confirmation stored the time of the earliest scan it saw in the window it read. */
  lemma ConfirmationStores(hist: seq<Tables>, txn: Txn) returns (scan: RowId)
    requires Good(hist) && txn.op.ConfirmScan? && txn.op.id < |Last(hist).enrollments|
    requires Commit(hist, txn).enrollments[txn.op.id].status != Last(hist).enrollments[txn.op.id].status
    ensures txn.op.id < |Look(hist, txn, txn.op.rRow).enrollments|
    ensures var scans, row := Look(hist, txn, txn.op.rScans), Look(hist, txn, txn.op.rRow).enrollments[txn.op.id];
      && row.windowUntil.Some? && scan < |scans.attendance| && scans.attendance[scan].account == row.account
      && Earliest(scans, row.account, row.updatedAt, row.windowUntil.value) == Some(scan)
      && Commit(hist, txn).enrollments[txn.op.id].account == row.account
      && Commit(hist, txn).enrollments[txn.op.id].scanTime == Some(scans.attendance[scan].scanTime)
  {
    var scans, row := Look(hist, txn, txn.op.rScans), Look(hist, txn, txn.op.rRow).enrollments[txn.op.id];
    ReadsDoEvolve(hist, txn);
    assert Evolves(Look(hist, txn, txn.op.rRow), Arrive(hist, txn.wait));
    assert RowEvolves(row, Last(hist).enrollments[txn.op.id]);
    scan :| Earliest(scans, row.account, row.updatedAt, row.windowUntil.value) == Some(scan)
      && IsEarliest(scans, row.account, row.updatedAt, row.windowUntil.value, scan);
  }

  /** The scan chosen when the controlled scan is confirmed, from however old a read, is what the nearest-scan resolver
      answers from then on, in every state in which the enrollment still stores that time. */
  lemma ConfirmedScanIsTheEvidence(hist: seq<Tables>, txn: Txn, txns: seq<Txn>, j: nat)
    requires Good(hist) && txn.op.ConfirmScan? && txn.op.id < |Last(hist).enrollments|
    requires Commit(hist, txn).enrollments[txn.op.id].status != Last(hist).enrollments[txn.op.id].status
    requires |hist| <= j < |Run(hist + [Commit(hist, txn)], txns)|
    ensures var t := Run(hist + [Commit(hist, txn)], txns)[j];
      txn.op.id < |t.enrollments| && txn.op.id < |Look(hist, txn, txn.op.rRow).enrollments|
    ensures var t, row := Run(hist + [Commit(hist, txn)], txns)[j], Look(hist, txn, txn.op.rRow).enrollments[txn.op.id];
      t.enrollments[txn.op.id].scanTime == Commit(hist, txn).enrollments[txn.op.id].scanTime ==>
      && row.windowUntil.Some? && t.enrollments[txn.op.id].scanTime.Some?
      && Evidence(t, t.enrollments[txn.op.id].account, t.enrollments[txn.op.id].scanTime.value)
         == Earliest(Look(hist, txn, txn.op.rScans), row.account, row.updatedAt, row.windowUntil.value)
  {
    var scan := ConfirmationStores(hist, txn);
    var u := Commit(hist, txn);
    ReadsDoEvolve(hist, txn);
    assert Evolves(Look(hist, txn, txn.op.rScans), Arrive(hist, txn.wait));
    CommitExtends(hist, txn);
    LaterInRun(hist + [u], txns, |hist|, j);
    BoundScan(Look(hist, txn, txn.op.rScans), u, Run(hist + [u], txns)[j], txn.op.id, scan);
  }

  lemma LaterInRun(hist: seq<Tables>, txns: seq<Txn>, i: nat, j: nat)
    requires Good(hist) && i <= j < |Run(hist, txns)|
    ensures Evolves(Run(hist, txns)[i], Run(hist, txns)[j]) && Inv(Run(hist, txns)[j])
    ensures i < |hist| ==> Run(hist, txns)[i] == hist[i]
  {
    RunKeeps(hist, txns);
  }

  lemma BoundScan(scans: Tables, u: Tables, t: Tables, id: RowId, scan: RowId)
    requires scans.attendance <= u.attendance && Evolves(u, t) && Inv(t)
    requires id < |u.enrollments| && scan < |scans.attendance|
    requires scans.attendance[scan].account == u.enrollments[id].account
    requires Some(scans.attendance[scan].scanTime) == u.enrollments[id].scanTime
    ensures t.enrollments[id].scanTime == u.enrollments[id].scanTime ==>
      Evidence(t, t.enrollments[id].account, t.enrollments[id].scanTime.value) == Some(scan)
  {
    assert RowEvolves(u.enrollments[id], t.enrollments[id]);
    assert t.attendance[scan] == scans.attendance[scan];
    ExactScanIsEvidence(t, scans.attendance[scan].account, scans.attendance[scan].scanTime, scan);
  }

  // ---- Eligibility ----

  /** The row is offered to the operator: ready, and its account carries no mapping that would overlap. */
  ghost predicate Offered(t: Tables, id: RowId) {
    && id < |t.enrollments| && t.enrollments[id].status.ReadyForMapping?
    && forall m | m in t.mappings ::
         !Conflicts(m, t.enrollments[id].account, t.enrollments[id].scanTime.GetOr(0))
  }

  /** An offered enrollment is refused only for an inactive account or an inactive person: every other check of
      mapping creation is already settled, and nothing that is not offered can be created. */
  lemma OfferedIsCreatable(t: Tables, id: RowId)
    requires Inv(t)
    ensures MayCreateMapping(t, t, t, t, t, id) <==>
      && Offered(t, id)
      && t.deviceUsers[t.enrollments[id].account].active
      && t.enrollments[id].employee in t.humans && t.humans[t.enrollments[id].employee].active
  {
    if id < |t.enrollments| && t.enrollments[id].status.ReadyForMapping? {
      assert RowOk(t, t.enrollments[id]);
      var _ := EvidenceOfRow(t, id);
    }
  }
}
