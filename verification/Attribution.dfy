/** Why a stored scan carries no person: the diagnosis that walks the account's VERIFIED intervals in order, against the
    resolver it explains. */
module Attribution {
  import opened Basics
  import opened Identity
  import opened IdentityRuns

  datatype Diagnosis =
    | NoDeviceUser | LegacyUser | NoMapping
    | BeforeValidFrom(next: Mapping)
    | InsideInterval(owner: Mapping)
    | AfterValidTo

  const LEGACY_TEST_USER_IDS: set<string> := {"1", "2"}

  /** The rows of "VERIFIED mappings of this account, ordered by valid_from". */
  ghost predicate IsQueryResult(t: Tables, account: Account, ms: seq<Mapping>) {
    && (forall m :: m in ms <==> m in t.mappings && m.verified && m.account == account)
    && (forall i, j | 0 <= i < j < |ms| :: ms[i].validFrom <= ms[j].validFrom)
  }

  ghost predicate Owned(t: Tables, account: Account, x: Time) {
    exists m :: m in t.mappings && Covers(m, account, x)
  }

  ghost predicate OwnedLater(t: Tables, account: Account, x: Time) {
    exists m :: m in t.mappings && m.verified && m.account == account && x < m.validFrom
  }

  ghost predicate EverOwned(t: Tables, account: Account) {
    exists m :: m in t.mappings && m.verified && m.account == account
  }

  /** _attribution_reasoning: the loop returns at the first interval that has not ended, and each answer means what it
      says of the tables. */
  method AttributionReasoning(t: Tables, account: Option<Account>, ms: seq<Mapping>, x: Time) returns (d: Diagnosis)
    requires account.Some? ==> IsQueryResult(t, account.value, ms)
    ensures d.NoDeviceUser? <==> account.None? || account.value !in t.deviceUsers
    ensures d.LegacyUser? <==> !d.NoDeviceUser? && (account.value.user == "1" || account.value.user == "2")
    ensures d.NoMapping? <==> !d.NoDeviceUser? && !d.LegacyUser? && !EverOwned(t, account.value)
    ensures !d.NoDeviceUser? && !d.LegacyUser? && !d.NoMapping? ==>
      && (d.InsideInterval? <==> Owned(t, account.value, x))
      && (d.BeforeValidFrom? <==> !Owned(t, account.value, x) && OwnedLater(t, account.value, x))
      && (d.AfterValidTo? <==> !Owned(t, account.value, x) && !OwnedLater(t, account.value, x))
    ensures d.InsideInterval? ==> d.owner in t.mappings && Covers(d.owner, account.value, x)
    ensures d.BeforeValidFrom? ==>
      && d.next in t.mappings && d.next.verified && d.next.account == account.value && x < d.next.validFrom
      && forall m | m in t.mappings && m.verified && m.account == account.value && x < m.validFrom ::
           d.next.validFrom <= m.validFrom
  {
    if account.None? || account.value !in t.deviceUsers { return NoDeviceUser; }
    if account.value.user in LEGACY_TEST_USER_IDS { return LegacyUser; }
    if ms == [] { return NoMapping; }
    assert ms[0] in ms;
    var i := 0;
    while i < |ms|
      invariant i <= |ms|
      invariant forall k | 0 <= k < i :: ms[k].validFrom <= x && ms[k].validTo.Some? && ms[k].validTo.value <= x
    {
      var m := ms[i];
      assert m in ms;
      if x < m.validFrom { return BeforeValidFrom(m); }
      if !(m.validTo.Some? && x >= m.validTo.value) { return InsideInterval(m); }
      i := i + 1;
    }
    return AfterValidTo;
  }

  /** In every state of every run the two agree: the scan lies inside an interval exactly when the resolver names a
      person, and it names that interval's owner. */
  lemma InsideIffResolved(hist: seq<Tables>, txns: seq<Txn>, i: nat, account: Account, x: Time)
    requires Good(hist) && i < |Run(hist, txns)|
    ensures var t := Run(hist, txns)[i];
      && (Owned(t, account, x) <==> Resolve(t, account, x).Some?)
      && (forall m | m in t.mappings && Covers(m, account, x) :: Resolve(t, account, x) == Some(m.employee))
  {
    RunKeeps(hist, txns);
    var t := Run(hist, txns)[i];
    assert Inv(t);
    forall m | m in t.mappings && Covers(m, account, x)
      ensures Resolve(t, account, x) == Some(m.employee)
    {
      var k :| 0 <= k < |t.mappings| && t.mappings[k] == m;
      CoveredOnce(t, account, x, k);
    }
    if Resolve(t, account, x).Some? {
      var k :| Matches(t, account, x) == {k};
      assert k in Matches(t, account, x);
      assert t.mappings[k] in t.mappings;
    }
  }
}
