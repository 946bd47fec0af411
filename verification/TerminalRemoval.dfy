/** Taking fingerprints and accounts off the terminal: read before the write, delete, and read again, because what a
    delete call returns is not trusted. */
module TerminalRemoval {
  import opened Basics
  import opened Identity
  import opened IdentityRuns
  import opened IdentityStore

  datatype Finger = Finger(uid: int, fid: int)

  datatype User = User(id: string, uid: int)

  function FirstUid(users: seq<User>, id: string): (r: Option<int>)
    ensures r.None? <==> forall u | u in users :: u.id != id
    ensures r.Some? ==> exists i ::
      0 <= i < |users| && users[i] == User(id, r.value) && forall j | 0 <= j < i :: users[j].id != id
  {
    if users == [] then None else if users[0].id == id then Some(users[0].uid) else FirstUid(users[1..], id)
  }

  predicate Targeted(f: Finger, uid: int, finger: Option<int>) {
    f.uid == uid && (finger.None? || f.fid == finger.value)
  }

  /** The templates a request is to delete, in the order in which they were read. */
  function Targets(fs: seq<Finger>, uid: int, finger: Option<int>): (r: seq<Finger>)
    ensures forall f :: f in r <==> f in fs && Targeted(f, uid, finger)
  {
    if fs == [] then [] else (if Targeted(fs[0], uid, finger) then [fs[0]] else []) + Targets(fs[1..], uid, finger)
  }

  /** Each targeted template once per reading and in the order read. */
  lemma {:induction false} TargetsInOrder(a: seq<Finger>, b: seq<Finger>, uid: int, finger: Option<int>)
    ensures Targets(a + b, uid, finger) == Targets(a, uid, finger) + Targets(b, uid, finger)
    decreases |a|
  {
    if a == [] {
      assert a + b == b;
    } else {
      var first := if Targeted(a[0], uid, finger) then [a[0]] else [];
      assert a + b == [a[0]] + (a[1..] + b);
      assert Targets(a + b, uid, finger) == first + Targets(a[1..] + b, uid, finger);
      TargetsInOrder(a[1..], b, uid, finger);
    }
  }

  lemma TargetsOfOne(f: Finger, uid: int, finger: Option<int>)
    ensures Targets([f], uid, finger) == if f.uid == uid && (finger.Some? ==> f.fid == finger.value) then [f] else []
  {
    assert [f][1..] == [];
  }

  /** The templates counted are those that a request for all fingers would target. */
  lemma {:induction false} CountIsOfTargets(fs: seq<Finger>, uid: int)
    ensures CountOf(fs, uid) == |Targets(fs, uid, None)|
    decreases |fs|
  {
    if fs != [] { CountIsOfTargets(fs[1..], uid); }
  }

  /** How many templates the account has. */
  function CountOf(fs: seq<Finger>, uid: int): nat {
    if fs == [] then 0 else (if fs[0].uid == uid then 1 else 0) + CountOf(fs[1..], uid)
  }

  lemma {:induction false} CountIsZeroIff(fs: seq<Finger>, uid: int)
    ensures CountOf(fs, uid) == 0 <==> forall f | f in fs :: f.uid != uid
    decreases |fs|
  {
    if fs != [] {
      CountIsZeroIff(fs[1..], uid);
      assert fs == [fs[0]] + fs[1..];
    }
  }

  function Without(fs: seq<Finger>, gone: Finger): (r: seq<Finger>)
    ensures forall f :: f in r <==> f in fs && f != gone
  {
    if fs == [] then [] else (if fs[0] == gone then [] else [fs[0]]) + Without(fs[1..], gone)
  }

  /** What is really on the terminal, and the deletions asked of it. Reads tell the truth or raise; a deletion takes
      away the template or account it names, or nothing, and may raise either way. */
  class Panel {
    var users: seq<User>
    var fingers: seq<Finger>
    ghost var asked: seq<Finger>
    ghost var askedUsers: seq<User>

    constructor (users: seq<User>, fingers: seq<Finger>)
      ensures this.users == users && this.fingers == fingers && asked == [] && askedUsers == []
    {
      this.users, this.fingers := users, fingers;
      asked, askedUsers := [], [];
    }

    method GetUsers() returns (r: Option<seq<User>>)
      ensures r.Some? ==> r.value == users
    {
      var raises: bool := *;
      r := if raises then None else Some(users);
    }

    method GetTemplates() returns (r: Option<seq<Finger>>)
      ensures r.Some? ==> r.value == fingers
    {
      var raises: bool := *;
      r := if raises then None else Some(fingers);
    }

    method DeleteUserTemplate(f: Finger) returns (raised: bool)
      modifies `fingers, `asked
      ensures asked == old(asked) + [f]
      ensures forall g | g != f :: g in fingers <==> g in old(fingers)
      ensures f in fingers ==> f in old(fingers)
    {
      var obeys: bool := *;
      if obeys { fingers := Without(fingers, f); }
      asked := asked + [f];
      raised := *;
    }

    method DeleteUser(u: User) returns (raised: bool)
      modifies `users, `askedUsers
      ensures askedUsers == old(askedUsers) + [u]
      ensures forall v: User | v.id != u.id :: v in users <==> v in old(users)
    {
      var obeys: bool := *;
      if obeys {
        var kept := [];
        for i := 0 to |users|
          invariant forall v :: v in kept <==> v in users[..i] && v.id != u.id
        {
          if users[i].id != u.id { kept := kept + [users[i]]; }
        }
        assert users[..|users|] == users;
        users := kept;
      }
      askedUsers := askedUsers + [u];
      raised := *;
    }
  }

  datatype FingerOutcome =
    | FingersRemoved(removed: seq<Finger>, remaining: nat)
    | AlreadyAbsent(remaining: nat)
    | AccountNotFound
    | Unavailable              // a read before the first deletion raised
    | DeleteRaised
    | FingersUnconfirmed       // the read-back raised or still shows a target

  /** The deletions, one by one, until one raises. */
  method DeleteAll(panel: Panel, targets: seq<Finger>) returns (raised: bool)
    modifies panel
    ensures panel.users == old(panel.users) && panel.askedUsers == old(panel.askedUsers)
    ensures old(panel.asked) <= panel.asked <= old(panel.asked) + targets
    ensures !raised ==> panel.asked == old(panel.asked) + targets
    ensures forall f | f !in targets :: f in panel.fingers <==> f in old(panel.fingers)
    ensures forall f | f in panel.fingers :: f in old(panel.fingers)
  {
    var i := 0;
    while i < |targets|
      invariant i <= |targets| && panel.users == old(panel.users) && panel.askedUsers == old(panel.askedUsers)
      invariant panel.asked == old(panel.asked) + targets[..i]
      invariant forall f | f !in targets :: f in panel.fingers <==> f in old(panel.fingers)
      invariant forall f | f in panel.fingers :: f in old(panel.fingers)
    {
      raised := panel.DeleteUserTemplate(targets[i]);
      i := i + 1;
      if raised { return true; }
    }
    assert targets[..i] == targets;
    return false;
  }

  method CountRemaining(fs: seq<Finger>, uid: int) returns (n: nat)
    ensures n == CountOf(fs, uid)
  {
    n := 0;
    for k := 0 to |fs|
      invariant n + CountOf(fs[k..], uid) == CountOf(fs, uid)
    {
      assert fs[k..][1..] == fs[k + 1..];
      if fs[k].uid == uid { n := n + 1; }
    }
  }

  /** remove_terminal_fingerprint: only the account's own targeted templates are ever asked to go, in the order read,
      and success means that the terminal shows none of them any more. */
  method RemoveFingerprint(panel: Panel, id: string, finger: Option<int>)
    returns (outcome: FingerOutcome, ghost targets: seq<Finger>)
    modifies panel
    ensures panel.users == old(panel.users) && panel.askedUsers == old(panel.askedUsers)
    ensures var uid := FirstUid(old(panel.users), id);
      && targets == (if uid.Some? then Targets(old(panel.fingers), uid.value, finger) else [])
      && (outcome.AccountNotFound? ==> uid.None?)
      && (outcome.FingersRemoved? || outcome.AlreadyAbsent? ==> uid.Some?)
      && (outcome.FingersRemoved? ==> outcome.remaining == CountOf(panel.fingers, uid.value))
    ensures old(panel.asked) <= panel.asked <= old(panel.asked) + targets
    ensures forall f | f !in targets :: f in panel.fingers <==> f in old(panel.fingers)
    ensures outcome.FingersRemoved? ==>
      && targets != [] && panel.asked == old(panel.asked) + targets && outcome.removed == targets
      && (forall f | f in targets :: f !in panel.fingers)
    ensures targets == [] ==>
      && panel.fingers == old(panel.fingers)
      && (outcome.AlreadyAbsent? || outcome.AccountNotFound? || outcome.Unavailable?)
    ensures outcome.AlreadyAbsent? ==> targets == [] && outcome.remaining == 0
    ensures outcome.AlreadyAbsent? ==>
      var uid := FirstUid(panel.users, id).value;
      outcome.remaining == CountOf(panel.fingers, uid) <==>
        finger.None? || forall f | f in panel.fingers :: f.uid != uid
  {
    targets := [];
    var users := panel.GetUsers();
    ghost var account := FirstUid(panel.users, id);
    targets := if account.Some? then Targets(panel.fingers, account.value, finger) else [];
    if users.None? { return Unavailable, targets; }
    var uid := FirstUid(users.value, id);
    if uid.None? { return AccountNotFound, targets; }
    var before := panel.GetTemplates();
    if before.None? { return Unavailable, targets; }
    var fids := Targets(before.value, uid.value, finger);
    if fids == [] {
      AbsentReportIsRightIff(before.value, uid.value, finger);
      return AlreadyAbsent(0), targets;
    }
    var raised := DeleteAll(panel, fids);
    if raised { return DeleteRaised, targets; }
    var after := panel.GetTemplates();
    if after.None? || exists f :: f in after.value && f in fids { return FingersUnconfirmed, targets; }
    var remaining := CountRemaining(after.value, uid.value);
    outcome := FingersRemoved(fids, remaining);
  }

  /** "Already absent" reports that no finger remains. After a request for all fingers that is always so; after a
      request for one it is so exactly when the account has none. */
  lemma {:induction false} AbsentReportIsRightIff(fs: seq<Finger>, uid: int, finger: Option<int>)
    requires Targets(fs, uid, finger) == []
    ensures CountOf(fs, uid) == 0 <==> finger.None? || forall f | f in fs :: f.uid != uid
  {
    CountIsZeroIff(fs, uid);
    forall f | f in fs && finger.None?
      ensures f.uid != uid
    {
      assert f !in Targets(fs, uid, finger);
    }
  }

  /** The report can be wrong: unless a read fails, removing finger 5 of an account that has finger 0 reports that none
      remains, and one does. */
  method AbsentReportCanBeWrong() returns (panel: Panel, outcome: FingerOutcome)
    ensures fresh(panel)
    ensures outcome.Unavailable? || (outcome.AlreadyAbsent? && outcome.remaining == 0)
    ensures FirstUid(panel.users, "7") == Some(1) && CountOf(panel.fingers, 1) == 1
  {
    panel := new Panel([User("7", 1)], [Finger(1, 0)]);
    assert Targets(panel.fingers[1..], 1, Some(5)) == [] && CountOf(panel.fingers[1..], 1) == 0;
    ghost var targets;
    outcome, targets := RemoveFingerprint(panel, "7", Some(5));
  }

  // ---- Accounts ----

  datatype AccountOutcome =
    | AccountRemoved | AccountAbsent | ActiveHumanProtected
    | AccountUnavailable | AccountDeleteRaised | AccountUnconfirmed

  predicate OpenOn(m: Mapping, account: Account) {
    m.verified && m.account == account && m.validTo.None?
  }

  /** An active person holds an open mapping to the account. */
  predicate HeldByActive(t: Tables, account: Account) {
    exists i :: 0 <= i < |t.mappings| && OpenOn(t.mappings[i], account)
      && t.mappings[i].employee in t.humans && t.humans[t.mappings[i].employee].active
  }

  /** remove_terminal_account: the mapping is left for the roster reconcile to close. */
  method RemoveAccount(store: Store, panel: Panel, account: Account, acknowledged: bool)
    returns (outcome: AccountOutcome)
    requires Disjoint(store.mappings)
    modifies store, panel
    ensures panel.fingers == old(panel.fingers) && panel.asked == old(panel.asked)
    ensures outcome.ActiveHumanProtected? <==>
      account in old(store.deviceUsers) && HeldByActive(old(store.State()), account) && !acknowledged
    ensures outcome.ActiveHumanProtected? || outcome.AccountAbsent? ==>
      panel.users == old(panel.users) && panel.askedUsers == old(panel.askedUsers)
    ensures outcome.AccountRemoved? || outcome.AccountAbsent? ==> forall u | u in panel.users :: u.id != account.user
    ensures forall u: User | u.id != account.user :: u in panel.users <==> u in old(panel.users)
    ensures store.State() ==
      if outcome.AccountRemoved? || outcome.AccountAbsent? then ApplyRemoveAccount(old(store.State()), account)
      else old(store.State())
    ensures store.State() == old(store.State()).(deviceUsers :=
      if (outcome.AccountRemoved? || outcome.AccountAbsent?) && account in old(store.deviceUsers)
      then old(store.deviceUsers)[account := old(store.deviceUsers)[account].(active := false)]
      else old(store.deviceUsers))
    ensures outcome.ActiveHumanProtected? <==>
      && account in old(store.deviceUsers) && !acknowledged
      && exists m :: m in old(store.mappings) && m.verified && m.account == account && m.validTo.None?
                     && m.employee in old(store.humans) && old(store.humans)[m.employee].active
    ensures outcome.AccountRemoved? || outcome.AccountDeleteRaised? || outcome.AccountUnconfirmed? ==>
      && |panel.askedUsers| == |old(panel.askedUsers)| + 1
      && panel.askedUsers[..|old(panel.askedUsers)|] == old(panel.askedUsers)
      && panel.askedUsers[|old(panel.askedUsers)|].id == account.user
      && panel.askedUsers[|old(panel.askedUsers)|] in old(panel.users)
    ensures outcome.AccountUnavailable? ==> panel.askedUsers == old(panel.askedUsers)
  {
    if account in store.deviceUsers {
      var i := 0;
      while i < |store.mappings| && !OpenOn(store.mappings[i], account)
        invariant i <= |store.mappings| && forall k | 0 <= k < i :: !OpenOn(store.mappings[k], account)
      {
        i := i + 1;
      }
      if i < |store.mappings| {
        OnlyOneOpen(store.mappings, account, i);
        var e := store.mappings[i].employee;
        if e in store.humans && store.humans[e].active && !acknowledged { return ActiveHumanProtected; }
      }
    }
    var users := panel.GetUsers();
    if users.None? { return AccountUnavailable; }
    assert users.value == old(panel.users);
    var uid := FirstUid(users.value, account.user);
    if uid.None? {
      ReconcileInactive(store, account);
      return AccountAbsent;
    }
    var raised := panel.DeleteUser(User(account.user, uid.value));
    if raised { return AccountDeleteRaised; }
    var after := panel.GetUsers();
    if after.None? || exists u :: u in after.value && u.id == account.user { return AccountUnconfirmed; }
    ReconcileInactive(store, account);
    outcome := AccountRemoved;
  }

  lemma OnlyOneOpen(ms: seq<Mapping>, account: Account, i: nat)
    requires Disjoint(ms) && i < |ms| && OpenOn(ms[i], account)
    ensures forall k | 0 <= k < |ms| && OpenOn(ms[k], account) :: k == i
  {
    forall k | 0 <= k < |ms| && OpenOn(ms[k], account)
      ensures k == i
    {
      var low, high := if k < i then k else i, if k < i then i else k;
      assert low < high ==> Compatible(ms[low], ms[high]);
    }
  }

  method ReconcileInactive(store: Store, account: Account)
    modifies store
    ensures store.State() == ApplyRemoveAccount(old(store.State()), account)
  {
    if account in store.deviceUsers && store.deviceUsers[account].active {
      store.deviceUsers := store.deviceUsers[account := store.deviceUsers[account].(active := false)];
    }
  }
}
