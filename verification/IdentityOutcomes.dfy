/** What a committed transaction has done, told by the rows it met: who a stored scan belongs to, from when a mapping
    owns its account, for whom a place was reserved, and who and what is active afterwards. */
module IdentityOutcomes {
  import opened Basics
  import opened TerminalIds
  import opened Identity
  import opened IdentityRuns
  import opened IdentityTheorems
  import opened IdentityTerms

  /** State n of a run is what the transaction makes of those before it. */
  ghost predicate CommittedAt(all: seq<Tables>, n: nat, txn: Txn) {
    0 < n < |all| && all[n] == Commit(all[..n], txn)
  }

  lemma FirstIsCommitted(hist: seq<Tables>, txns: seq<Txn>)
    requires |hist| > 0 && txns != []
    ensures CommittedAt(Run(hist, txns), |hist|, txns[0])
  {
    RunHead(hist, txns, Commit(hist, txns[0]));
    assert Run(hist, txns)[..|hist|] == hist;
  }

  lemma RunTail(hist: seq<Tables>, txns: seq<Txn>) returns (next: seq<Tables>)
    requires |hist| > 0 && txns != []
    ensures |next| == |hist| + 1 && Run(hist, txns) == Run(next, txns[1..])
  {
    next := hist + [Commit(hist, txns[0])];
    RunHead(hist, txns, Commit(hist, txns[0]));
  }

  lemma {:induction false} RunIsCommits(hist: seq<Tables>, txns: seq<Txn>, k: nat, all: seq<Tables>)
    requires |hist| > 0 && k < |txns| && all == Run(hist, txns)
    ensures CommittedAt(all, |hist| + k, txns[k])
    decreases k
  {
    if k == 0 {
      FirstIsCommitted(hist, txns);
    } else {
      var next := RunTail(hist, txns);
      RunIsCommits(next, txns[1..], k - 1, all);
      assert txns[1..][k - 1] == txns[k];
    }
  }

  // ---- Scans ----

  lemma ResolvesToSoleOwner(t: Tables, account: Account, x: Time, p: EmployeeId)
    ensures Resolve(t, account, x) == Some(p) <==> SoleOwner(t.mappings, account, x, p)
  {
    if SoleOwner(t.mappings, account, x, p) {
      var i :| 0 <= i < |t.mappings| && Owner(t.mappings[i], account, x) && t.mappings[i].employee == p
        && forall j | 0 <= j < |t.mappings| && Owner(t.mappings[j], account, x) :: j == i;
      assert Matches(t, account, x) == {i};
    } else if Resolve(t, account, x) == Some(p) {
      var i :| Matches(t, account, x) == {i} && t.mappings[i].employee == p;
      assert i in Matches(t, account, x);
      forall j | 0 <= j < |t.mappings| && Owner(t.mappings[j], account, x)
        ensures j == i
      {
        assert j in Matches(t, account, x);
      }
    }
  }

  /** A commit that appends a scan stores the one scan it was given, for p exactly if precisely one mapping in the
      tables it met owns the account at that time and it is p's. */
  lemma StoredScanIs(hist: seq<Tables>, txn: Txn, i: RowId)
    requires |hist| > 0 && |Last(hist).attendance| <= i < |Commit(hist, txn).attendance|
    ensures txn.op.Ingest? && i == |Last(hist).attendance|
    ensures var s := Commit(hist, txn).attendance[i];
      && s.account == txn.op.account && s.scanTime == txn.op.at
      && forall p: EmployeeId ::
           s.employee == Some(p) <==> SoleOwner(Last(hist).mappings, txn.op.account, txn.op.at, p)
  {
    if !OwnershipOp(txn.op) {
      EnrollmentOpTouches(hist, txn);
    } else if txn.op.Ingest? {
      var t := Arrive(hist, txn.wait);
      var u := t.(deviceUsers := EnsureDeviceUser(t, txn.op.account));
      forall p: EmployeeId
        ensures Resolve(u, txn.op.account, txn.op.at) == Some(p) <==>
          SoleOwner(u.mappings, txn.op.account, txn.op.at, p)
      {
        ResolvesToSoleOwner(u, txn.op.account, txn.op.at, p);
      }
    }
  }

  /** In every run, for every scan stored in it, from any tables and with any reads. */
  lemma StoredScansNameOwners(hist: seq<Tables>, txns: seq<Txn>, k: nat, i: RowId)
    requires |hist| > 0 && k < |txns|
    requires |Run(hist, txns)[|hist| + k - 1].attendance| <= i < |Run(hist, txns)[|hist| + k].attendance|
    ensures var met, s := Run(hist, txns)[|hist| + k - 1], Run(hist, txns)[|hist| + k].attendance[i];
      && txns[k].op == Ingest(s.account, s.scanTime)
      && forall p: EmployeeId :: s.employee == Some(p) <==> SoleOwner(met.mappings, s.account, s.scanTime, p)
  {
    var all := Run(hist, txns);
    RunIsCommits(hist, txns, k, all);
    assert Last(all[..|hist| + k]) == all[|hist| + k - 1];
    StoredScanIs(all[..|hist| + k], txns[k], i);
  }

  // ---- Mappings ----

  /** A commit that inserts a mapping inserts one for the enrollment's person and account, open from its controlled scan
      on; and from that very scan on the resolver names the person at every time. */
  lemma InsertedMappingOwns(hist: seq<Tables>, txn: Txn, x: Time)
    requires Good(hist) && |Commit(hist, txn).mappings| > |Last(hist).mappings|
    ensures txn.op.CreateMapping? && txn.op.id < |Look(hist, txn, txn.op.rRow).enrollments|
    ensures var s, u := Last(hist), Commit(hist, txn);
      var e := Look(hist, txn, txn.op.rRow).enrollments[txn.op.id];
      && e.scanTime.Some? && u.mappings == s.mappings + [Mapping(e.employee, e.account, true, e.scanTime.value, None)]
      && (x >= e.scanTime.value ==> Resolve(u, e.account, x) == Some(e.employee))
      && exists scan :: scan in u.attendance && scan.account == e.account && scan.scanTime == e.scanTime.value
  {
    var u := Commit(hist, txn);
    InsertedForReady(hist, txn);
    CommitKeeps(hist, txn);
    CreatedMapping(hist, txn);
    var read := Look(hist, txn, txn.op.rRow);
    var e := read.enrollments[txn.op.id];
    ReadsDoEvolve(hist, txn);
    ScanOfRead(hist, txn, txn.op.rRow, txn.op.id);
    if x >= e.scanTime.value { CoveredOnce(u, e.account, x, |Last(hist).mappings|); }
  }

  lemma CreatedMapping(hist: seq<Tables>, txn: Txn)
    requires |hist| > 0 && txn.op.CreateMapping? && |Commit(hist, txn).mappings| > |Last(hist).mappings|
    ensures txn.op.id < |Look(hist, txn, txn.op.rRow).enrollments|
    ensures var e := Look(hist, txn, txn.op.rRow).enrollments[txn.op.id];
      && e.scanTime.Some? && Commit(hist, txn).attendance == Last(hist).attendance
      && Commit(hist, txn).mappings
         == Last(hist).mappings + [Mapping(e.employee, e.account, true, e.scanTime.value, None)]
  {
  }

  /** The controlled scan of a row that was read, however long ago, is still on record. */
  lemma ScanOfRead(hist: seq<Tables>, txn: Txn, r: Read, id: RowId)
    requires Good(hist) && id < |Look(hist, txn, r).enrollments| && Look(hist, txn, r).enrollments[id].scanTime.Some?
    ensures var e := Look(hist, txn, r).enrollments[id];
      exists scan :: scan in Last(hist).attendance && scan.account == e.account && scan.scanTime == e.scanTime.value
  {
    var read := Look(hist, txn, r);
    var from := if r.Past? && r.index < |hist| then hist[r.index] else Last(hist);
    assert Inv(from) && Evolves(from, Last(hist));
    assert RowOk(from, read.enrollments[id]);
    var i :| 0 <= i < |from.attendance| && from.attendance[i].account == read.enrollments[id].account
      && from.attendance[i].scanTime == read.enrollments[id].scanTime.value;
    assert Last(hist).attendance[i] == from.attendance[i];
  }

  // ---- Reservations ----

  /** A reservation that inserts a row, whatever its reads: when the person was read it was active and in production
      scope, the device was active, and when the rows were read none of that person on that device was unfinished. */
  lemma ReservedForEligible(hist: seq<Tables>, txn: Txn)
    requires |hist| > 0 && txn.op.Reserve? && |Commit(hist, txn).enrollments| > |Last(hist).enrollments|
    ensures var person, rows := Look(hist, txn, txn.op.rPerson), Look(hist, txn, txn.op.rRows);
      && txn.op.employee in person.humans
      && person.humans[txn.op.employee].active && person.humans[txn.op.employee].productionScope
      && txn.op.device in person.devices && person.devices[txn.op.device]
      && forall e | e in rows.enrollments && e.employee == txn.op.employee && e.account.device == txn.op.device ::
           !Unfinished(e, rows.mappings)
  {
    var rows := Look(hist, txn, txn.op.rRows);
    forall e | e in rows.enrollments && e.employee == txn.op.employee && e.account.device == txn.op.device
      ensures !Unfinished(e, rows.mappings)
    {
      assert ActiveStatus(e.status) ==> CandidateRow(e, txn.op.employee, txn.op.device);
    }
  }

  // ---- Who and what is active ----

  /** After a commit a person is active exactly if it has just been added or reactivated, or was active and has not just
      been deactivated. */
  lemma ActivePersonIff(hist: seq<Tables>, txn: Txn, e: EmployeeId)
    requires |hist| > 0
    ensures var s, u := Last(hist), Commit(hist, txn);
      e in u.humans && u.humans[e].active <==>
        || (txn.op == AddHuman(e) && e !in s.humans) || (txn.op == Reactivate(e) && e in s.humans)
        || (e in s.humans && s.humans[e].active && !Deactivates(hist, txn, e))
  {
    if !OwnershipOp(txn.op) { EnrollmentOpTouches(hist, txn); }
  }

  /** A deactivation of the person that is not refused for an open mapping which begins no earlier than it. */
  predicate Deactivates(hist: seq<Tables>, txn: Txn, e: EmployeeId)
    requires |hist| > 0
  {
    && txn.op.Deactivate? && txn.op.employee == e
    && forall m | m in Last(hist).mappings && m.verified && m.employee == e && m.validTo.None? ::
         m.validFrom < StartOf(hist, txn)
  }
}
