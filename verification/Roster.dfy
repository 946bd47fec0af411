/** Roster reconciliation: what one successful snapshot establishes, and what repeating it does. */
module Roster {
  import opened Basics
  import opened Identity

  // ---- What the summary counts ----

  function NewAccounts(t: Tables, device: DeviceId, observed: map<string, Option<int>>): set<Account> {
    Accounts(device, observed.Keys) - t.deviceUsers.Keys
  }

  function Reappeared(t: Tables, device: DeviceId, observed: map<string, Option<int>>): set<Account> {
    set a | a in t.deviceUsers && a.device == device && a.user in observed && t.deviceUsers[a].inactiveAt.Some?
  }

  function UidAnomalies(t: Tables, device: DeviceId, observed: map<string, Option<int>>): set<Account> {
    set a | a in t.deviceUsers && a.device == device && a.user in observed
      && t.deviceUsers[a].uid.Some? && observed[a.user].Some? && t.deviceUsers[a].uid != observed[a.user]
  }

  function MissingAccounts(t: Tables, device: DeviceId, observed: map<string, Option<int>>): set<Account> {
    set a | a in t.deviceUsers && Missing(t, device, observed, a)
  }

  function ClosedMappings(t: Tables, device: DeviceId, observed: map<string, Option<int>>): set<RowId> {
    set i | 0 <= i < |t.mappings| && ClosedByRoster(t, device, observed, t.mappings[i])
  }

  datatype Summary = Summary(observed: nat, newUsers: nat, markedInactive: nat, reappeared: nat, uidAnomalies: nat,
                             mappingsClosed: nat)

  function SummaryOf(t: Tables, device: DeviceId, observed: map<string, Option<int>>): Summary {
    Summary(|observed.Keys|, |NewAccounts(t, device, observed)|, |MissingAccounts(t, device, observed)|,
      |Reappeared(t, device, observed)|, |UidAnomalies(t, device, observed)|, |ClosedMappings(t, device, observed)|)
  }

  /** No mapping would end before it began, so the snapshot is not refused by the schema. */
  predicate Accepted(t: Tables, device: DeviceId, observed: map<string, Option<int>>) {
    forall i | 0 <= i < |t.mappings| && ClosedByRoster(t, device, observed, t.mappings[i]) ::
      t.mappings[i].validFrom < t.now
  }

  /** After an accepted snapshot the device's accounts that are present are exactly the observed ones, other devices are
      untouched, and no open VERIFIED mapping is left on an account that has just gone missing. */
  lemma SnapshotIsExact(t: Tables, device: DeviceId, observed: map<string, Option<int>>)
    requires Accepted(t, device, observed)
    ensures var u := ApplyRoster(t, device, observed);
      && (set a | a in u.deviceUsers && a.device == device && u.deviceUsers[a].inactiveAt.None?)
         == Accounts(device, observed.Keys)
      && (forall a | a in t.deviceUsers && a.device != device ::
           a in u.deviceUsers && u.deviceUsers[a] == t.deviceUsers[a])
      && (forall a | a in u.deviceUsers && a.device != device :: a in t.deviceUsers)
      && (forall m | m in u.mappings && m.verified && m.validTo.None? ::
           m in t.mappings && m.account !in MissingAccounts(t, device, observed))
  {
  }

  /** What an accepted snapshot makes of an account of the device, and of every other. */
  lemma SnapshotOfAccount(t: Tables, device: DeviceId, observed: map<string, Option<int>>, a: Account)
    requires Accepted(t, device, observed)
    ensures var u := ApplyRoster(t, device, observed);
      var seen := a.device == device && a.user in observed;
      && (a in u.deviceUsers <==> a in t.deviceUsers || seen)
      && (seen && a !in t.deviceUsers ==> u.deviceUsers[a] == DeviceUser(true, None, observed[a.user], 1))
      && (seen && a in t.deviceUsers ==>
           var was := t.deviceUsers[a];
           u.deviceUsers[a] == DeviceUser(true, None, if observed[a.user].Some? then observed[a.user] else was.uid,
                                          was.incarnation + if was.inactiveAt.Some? then 1 else 0))
      && (!seen && a in t.deviceUsers ==>
           var was := t.deviceUsers[a];
           u.deviceUsers[a] == if a.device == device && was.inactiveAt.None?
                               then DeviceUser(false, Some(t.now), was.uid, was.incarnation) else was)
  {
  }

  /** The account was present and is not in the snapshot. */
  predicate Gone(t: Tables, device: DeviceId, observed: map<string, Option<int>>, a: Account) {
    a in t.deviceUsers && a.device == device && t.deviceUsers[a].inactiveAt.None? && a.user !in observed
  }

  /** And of the mappings: the open VERIFIED ones of accounts now gone end now. */
  lemma SnapshotOfMappings(t: Tables, device: DeviceId, observed: map<string, Option<int>>, i: RowId)
    requires Accepted(t, device, observed) && i < |t.mappings|
    ensures var u, m := ApplyRoster(t, device, observed), t.mappings[i];
      && |u.mappings| == |t.mappings|
      && u.mappings[i] == if m.verified && m.validTo.None? && Gone(t, device, observed, m.account)
                          then m.(validTo := Some(t.now)) else m
  {
  }

  /** It is refused, and changes nothing, exactly if one of those has not begun. */
  lemma RefusedIffNotBegun(t: Tables, device: DeviceId, observed: map<string, Option<int>>)
    ensures !Accepted(t, device, observed) <==>
      exists m :: m in t.mappings && m.verified && m.validTo.None? && Gone(t, device, observed, m.account)
        && m.validFrom >= t.now
    ensures !Accepted(t, device, observed) ==> ApplyRoster(t, device, observed) == t
  {
    if m :| m in t.mappings && m.verified && m.validTo.None? && Gone(t, device, observed, m.account)
            && m.validFrom >= t.now
    {
      var i :| 0 <= i < |t.mappings| && t.mappings[i] == m;
      assert ClosedByRoster(t, device, observed, t.mappings[i]);
    }
  }

  function Present(t: Tables, device: DeviceId): set<Account> {
    set a | a in t.deviceUsers && a.device == device && t.deviceUsers[a].inactiveAt.None?
  }

  function OpenRows(t: Tables): set<RowId> {
    set i | 0 <= i < |t.mappings| && t.mappings[i].verified && t.mappings[i].validTo.None?
  }

  function Known(t: Tables): set<Account> {
    t.deviceUsers.Keys
  }

  lemma KnownAfter(t: Tables, device: DeviceId, observed: map<string, Option<int>>)
    requires Accepted(t, device, observed)
    ensures Known(ApplyRoster(t, device, observed)) == t.deviceUsers.Keys + Accounts(device, observed.Keys)
  {
  }

  lemma KnownGrow(t: Tables, device: DeviceId, observed: map<string, Option<int>>)
    requires Accepted(t, device, observed)
    ensures |Known(ApplyRoster(t, device, observed))| == |Known(t)| + |NewAccounts(t, device, observed)|
  {
    var added := NewAccounts(t, device, observed);
    KnownAfter(t, device, observed);
    assert t.deviceUsers.Keys + Accounts(device, observed.Keys) == t.deviceUsers.Keys + added;
    assert t.deviceUsers.Keys !! added;
  }

  lemma PresentAfter(t: Tables, device: DeviceId, observed: map<string, Option<int>>)
    requires Accepted(t, device, observed)
    ensures Present(ApplyRoster(t, device, observed), device) == Accounts(device, observed.Keys)
    ensures Accounts(device, observed.Keys)
         == Present(t, device) - MissingAccounts(t, device, observed) + Reappeared(t, device, observed)
            + NewAccounts(t, device, observed)
  {
  }

  lemma PresentBalance(t: Tables, device: DeviceId, observed: map<string, Option<int>>)
    requires Accepted(t, device, observed)
    ensures |observed.Keys| == |Present(t, device)| - |MissingAccounts(t, device, observed)|
      + |Reappeared(t, device, observed)| + |NewAccounts(t, device, observed)|
  {
    var present, gone := Present(t, device), MissingAccounts(t, device, observed);
    var back, added := Reappeared(t, device, observed), NewAccounts(t, device, observed);
    AsManyAccounts(device, observed.Keys);
    PresentAfter(t, device, observed);
    assert gone <= present && present - gone !! back && present - gone + back !! added;
  }

  lemma OpenRowsLost(t: Tables, device: DeviceId, observed: map<string, Option<int>>)
    requires Accepted(t, device, observed)
    ensures |OpenRows(ApplyRoster(t, device, observed))| == |OpenRows(t)| - |ClosedMappings(t, device, observed)|
  {
    var u, closed := ApplyRoster(t, device, observed), ClosedMappings(t, device, observed);
    assert |u.mappings| == |t.mappings|;
    forall i: RowId | i < |t.mappings|
      ensures i in OpenRows(u) <==> i in OpenRows(t) && i !in closed
    {
      SnapshotOfMappings(t, device, observed, i);
    }
    assert OpenRows(u) == OpenRows(t) - closed && closed <= OpenRows(t);
  }

  /** Known terminal uids that are not what they were. */
  function Overwritten(t: Tables, u: Tables): set<Account> {
    set a | a in t.deviceUsers && a in u.deviceUsers && t.deviceUsers[a].uid.Some?
            && u.deviceUsers[a].uid != t.deviceUsers[a].uid
  }

  lemma AnomaliesAre(t: Tables, device: DeviceId, observed: map<string, Option<int>>)
    requires Accepted(t, device, observed)
    ensures UidAnomalies(t, device, observed) == Overwritten(t, ApplyRoster(t, device, observed))
  {
  }

  /** The summary balances: accounts known and present before, plus what it counts, are those known and present after,
      the open mappings lost are those it counts, and its anomalies are the known uids overwritten. */
  lemma SummaryBalances(t: Tables, device: DeviceId, observed: map<string, Option<int>>)
    requires Accepted(t, device, observed)
    ensures var u, sum := ApplyRoster(t, device, observed), SummaryOf(t, device, observed);
      && |Known(u)| == |Known(t)| + sum.newUsers
      && |Present(u, device)| == sum.observed == |observed.Keys|
      && |Present(u, device)| == |Present(t, device)| - sum.markedInactive + sum.reappeared + sum.newUsers
      && |OpenRows(u)| == |OpenRows(t)| - sum.mappingsClosed
      && sum.uidAnomalies == |Overwritten(t, u)|
  {
    KnownGrow(t, device, observed);
    PresentAfter(t, device, observed);
    AsManyAccounts(device, observed.Keys);
    PresentBalance(t, device, observed);
    OpenRowsLost(t, device, observed);
    AnomaliesAre(t, device, observed);
  }

  lemma {:induction false} AsManyAccounts(device: DeviceId, users: set<string>)
    ensures |Accounts(device, users)| == |users|
  {
    if users != {} {
      var name :| name in users;
      AsManyAccounts(device, users - {name});
      assert Accounts(device, users) == Accounts(device, users - {name}) + {Account(device, name)};
    }
  }

  /** The tables already say what the snapshot says. */
  predicate Reflects(u: Tables, device: DeviceId, observed: map<string, Option<int>>) {
    && (forall name | name in observed :: Account(device, name) in u.deviceUsers)
    && forall a | a in u.deviceUsers && a.device == device ::
         if a.user in observed then
           u.deviceUsers[a].active && u.deviceUsers[a].inactiveAt.None?
           && (observed[a.user].Some? ==> u.deviceUsers[a].uid == observed[a.user])
         else u.deviceUsers[a].inactiveAt.Some?
  }

  lemma SnapshotIsReflected(t: Tables, device: DeviceId, observed: map<string, Option<int>>, later: Time)
    requires Accepted(t, device, observed)
    ensures Reflects(ApplyRoster(t, device, observed).(now := later), device, observed)
  {
  }

  lemma ReflectedCountsNothing(u: Tables, device: DeviceId, observed: map<string, Option<int>>)
    requires Reflects(u, device, observed)
    ensures SummaryOf(u, device, observed) == Summary(|observed.Keys|, 0, 0, 0, 0, 0)
  {
  }

  lemma ReflectedStays(u: Tables, device: DeviceId, observed: map<string, Option<int>>)
    requires Reflects(u, device, observed)
    ensures ApplyRoster(u, device, observed) == u
  {
  }

  /** Taking the same snapshot again finds nothing new, nothing missing, nobody back, no anomaly and nothing to close,
      and leaves every table as it is. */
  lemma RepeatedSnapshotIsQuiet(t: Tables, device: DeviceId, observed: map<string, Option<int>>, later: Time)
    requires Accepted(t, device, observed)
    ensures var u := ApplyRoster(t, device, observed).(now := later);
      SummaryOf(u, device, observed) == Summary(|observed.Keys|, 0, 0, 0, 0, 0) && ApplyRoster(u, device, observed) == u
  {
    SnapshotIsReflected(t, device, observed, later);
    ReflectedCountsNothing(ApplyRoster(t, device, observed).(now := later), device, observed);
    ReflectedStays(ApplyRoster(t, device, observed).(now := later), device, observed);
  }

  // ---- Incarnations over runs ----

  /** The committing transaction is an accepted snapshot in which the account is back. */
  predicate BringsBack(hist: seq<Tables>, txn: Txn, a: Account)
    requires |hist| > 0
  {
    && txn.op.RosterReconcile?
    && var t := Begun(Arrive(hist, txn.wait), txn.op.lag);
    && Accepted(t, txn.op.device, txn.op.observed)
    && a in Reappeared(t, txn.op.device, txn.op.observed)
  }

  ghost function Returns(hist: seq<Tables>, txns: seq<Txn>, a: Account): nat
    requires |hist| > 0
    decreases |txns|
  {
    if txns == [] then 0
    else (if BringsBack(hist, txns[0], a) then 1 else 0) + Returns(hist + [Commit(hist, txns[0])], txns[1..], a)
  }

  lemma CommitCountsReturn(hist: seq<Tables>, txn: Txn, a: Account)
    requires |hist| > 0 && a in hist[|hist| - 1].deviceUsers
    ensures a in Commit(hist, txn).deviceUsers
    ensures Commit(hist, txn).deviceUsers[a].incarnation
      == hist[|hist| - 1].deviceUsers[a].incarnation + if BringsBack(hist, txn, a) then 1 else 0
  {
    match txn.op
    case RosterReconcile(device, observed, lag) =>
      var t := Begun(Arrive(hist, txn.wait), lag);
      if Accepted(t, device, observed) { SnapshotOfAccount(t, device, observed, a); }
      else { RefusedIffNotBegun(t, device, observed); }
    case CreateAccount(_, _) =>
    case RemoveAccount(_) =>
    case Ingest(_, _) =>
    case _ => assert Commit(hist, txn).deviceUsers == hist[|hist| - 1].deviceUsers;
  }

  /** In every run an account's incarnation is its start value plus the number of snapshots that brought it back. */
  lemma {:induction false} IncarnationCountsReturns(hist: seq<Tables>, txns: seq<Txn>, a: Account)
    requires |hist| > 0 && a in hist[|hist| - 1].deviceUsers
    ensures var u := Run(hist, txns)[|hist| + |txns| - 1];
      && a in u.deviceUsers
      && u.deviceUsers[a].incarnation == hist[|hist| - 1].deviceUsers[a].incarnation + Returns(hist, txns, a)
    decreases |txns|
  {
    if txns != [] {
      CommitCountsReturn(hist, txns[0], a);
      IncarnationCountsReturns(hist + [Commit(hist, txns[0])], txns[1..], a);
    }
  }
}
