/** Creating or reconciling a terminal account on a terminal whose writes cannot be trusted: set_user may be ignored,
    take effect late, raise, or return anything; a roster read is honest or raises. */
module TerminalAccount {
  import opened Basics
  import opened Identity
  import opened IdentityStore

  const NORMAL_USER := 0

  /** `privilege` is None when the library exposes none that reads as a number. */
  datatype User = User(id: string, privilege: Option<int>, uid: Option<int>)

  datatype Call = Read(roster: Option<seq<User>>) | SetUser(id: string) | Sleep(delay: real)

  function Match(roster: seq<User>, id: string): (r: Option<User>)
    ensures r.None? <==> forall u | u in roster :: u.id != id
    ensures r.Some? ==> r.value in roster && r.value.id == id
  {
    if roster == [] then None else if roster[0].id == id then Some(roster[0]) else Match(roster[1..], id)
  }

  /** The read raised, or showed a roster without the id. */
  predicate Unseen(c: Call, id: string) {
    c.Read? && (c.roster.None? || Match(c.roster.value, id).None?)
  }

  function SetUsers(calls: seq<Call>): nat {
    if calls == [] then 0 else SetUsers(calls[..|calls| - 1]) + if calls[|calls| - 1].SetUser? then 1 else 0
  }

  /** The longest that a call can take: two round trips for a roster read, two for set_user. */
  function CallCost(c: Call, perCall: real): real {
    match c
    case Read(_) => 2.0 * perCall
    case SetUser(_) => 2.0 * perCall
    case Sleep(delay) => delay
  }

  function Cost(calls: seq<Call>, perCall: real): real {
    if calls == [] then 0.0 else Cost(calls[..|calls| - 1], perCall) + CallCost(calls[|calls| - 1], perCall)
  }

  lemma Snoc(calls: seq<Call>, c: Call, perCall: real)
    ensures Cost(calls + [c], perCall) == Cost(calls, perCall) + CallCost(c, perCall)
    ensures SetUsers(calls + [c]) == SetUsers(calls) + if c.SetUser? then 1 else 0
  {
    assert (calls + [c])[..|calls|] == calls;
  }

  lemma CostOfOne(c: Call, perCall: real)
    ensures Cost([c], perCall) == CallCost(c, perCall) && SetUsers([c]) == if c.SetUser? then 1 else 0
  {
    assert [] + [c] == [c];
    Snoc([], c, perCall);
  }

  lemma {:induction false} CostOfBoth(a: seq<Call>, b: seq<Call>, perCall: real)
    ensures Cost(a + b, perCall) == Cost(a, perCall) + Cost(b, perCall) && SetUsers(a + b) == SetUsers(a) + SetUsers(b)
    decreases |b|
  {
    if b == [] {
      assert a + b == a;
    } else {
      CostOfBoth(a, b[..|b| - 1], perCall);
      assert (a + b)[..|a + b| - 1] == a + b[..|b| - 1];
    }
  }

  /** The terminal with what is really on it, and everything done to it so far. */
  class Terminal {
    const perCall: real
    var accounts: map<string, User>
    var late: Option<User>       // accepted, not yet visible
    ghost var calls: seq<Call>
    ghost var elapsed: real

    ghost predicate Valid()
      reads this
    {
      perCall >= 0.0 && (forall id | id in accounts :: accounts[id].id == id)
    }

    constructor (perCall: real, accounts: map<string, User>)
      requires perCall >= 0.0 && forall id | id in accounts :: accounts[id].id == id
      ensures Valid() && calls == []
    {
      this.perCall := perCall;
      this.accounts, late := accounts, None;
      calls, elapsed := [], 0.0;
    }

    ghost method Spend(c: Call)
      requires Valid() && CallCost(c, perCall) >= 0.0
      modifies `calls, `elapsed
      ensures Valid() && calls == old(calls) + [c] && old(elapsed) <= elapsed <= old(elapsed) + CallCost(c, perCall)
    {
      var d: real :| 0.0 <= d <= CallCost(c, perCall);
      calls, elapsed := calls + [c], elapsed + d;
    }

    /** Raises, or shows exactly what is on the terminal; an accepted write may have become visible first. */
    method GetUsers() returns (roster: Option<seq<User>>)
      requires Valid()
      modifies this
      ensures Valid() && calls == old(calls) + [Read(roster)]
      ensures elapsed <= old(elapsed) + CallCost(Read(roster), perCall)
      ensures roster.Some? ==> forall u :: u in roster.value <==> u.id in accounts && accounts[u.id] == u
      ensures accounts == old(accounts)
        || (old(late).Some? && accounts == old(accounts)[old(late).value.id := old(late).value])
    {
      var arrives: bool := *;
      if late.Some? && arrives {
        accounts := accounts[late.value.id := late.value];
        late := None;
      }
      var raises: bool := *;
      if raises {
        roster := None;
      } else {
        var users: seq<User> := [];
        var rest := accounts.Keys;
        while rest != {}
          invariant rest <= accounts.Keys && (forall id | id in accounts :: accounts[id].id == id)
          invariant forall u :: u in users <==> u.id in accounts && u.id !in rest && accounts[u.id] == u
        {
          var id :| id in rest;
          users := users + [accounts[id]];
          rest := rest - {id};
        }
        roster := Some(users);
      }
      Spend(Read(roster));
    }

    /** Ignored, done, or done later; what it returns or raises means nothing. */
    method SetUserOn(id: string) returns (claimed: Option<bool>)
      requires Valid()
      modifies this
      ensures Valid() && calls == old(calls) + [SetUser(id)] && elapsed <= old(elapsed) + CallCost(SetUser(id), perCall)
      ensures forall other | other != id :: other in accounts <==> other in old(accounts)
      ensures forall other | other != id && other in accounts :: accounts[other] == old(accounts)[other]
      ensures accounts == old(accounts) || (id in accounts && accounts[id].privilege == Some(0))
    {
      var uid: int := *;
      var user := User(id, Some(NORMAL_USER), Some(uid));
      var taken: bool := *;
      var visible: bool := *;
      if taken && visible { accounts := accounts[id := user]; }
      else if taken { late := Some(user); }
      claimed := *;
      Spend(SetUser(id));
    }

    method Wait(delay: real)
      requires Valid() && delay >= 0.0
      modifies `calls, `elapsed
      ensures Valid() && calls == old(calls) + [Sleep(delay)] && elapsed <= old(elapsed) + delay
    {
      Spend(Sleep(delay));
    }
  }

  // ---- The read-back loop ----

  /** The calls of a read-back that has come up empty `tried` times: a pause between two reads, none after the last. */
  ghost predicate FailedReads(calls: seq<Call>, id: string, tried: nat, delay: real) {
    if tried == 0 then calls == []
    else if tried == 1 then |calls| == 1 && Unseen(calls[0], id)
    else
      && |calls| >= 2 && Unseen(calls[|calls| - 1], id) && calls[|calls| - 2] == Sleep(delay)
      && FailedReads(calls[..|calls| - 2], id, tried - 1, delay)
  }

  /** A read-back that found the id on its last read. */
  ghost predicate FoundOnRead(calls: seq<Call>, id: string, tried: nat, delay: real, found: User) {
    && tried > 0 && calls != [] && calls[|calls| - 1].Read? && calls[|calls| - 1].roster.Some?
    && Match(calls[|calls| - 1].roster.value, id) == Some(found)
    && if tried == 1 then |calls| == 1
       else
         && |calls| >= 2 && calls[|calls| - 2] == Sleep(delay)
         && FailedReads(calls[..|calls| - 2], id, tried - 1, delay)
  }

  function ReadbackBudget(retries: int, delay: real, perCall: real): real {
    if retries <= 0 then 0.0 else retries as real * 2.0 * perCall + (retries - 1) as real * delay
  }

  lemma OneMoreRead(tried: nat, delay: real, perCall: real)
    requires tried > 1
    ensures ReadbackBudget(tried, delay, perCall) == ReadbackBudget(tried - 1, delay, perCall) + delay + 2.0 * perCall
  {
    var n := tried as real;
    assert (tried - 1) as real == n - 1.0 && (tried - 2) as real == n - 2.0;
    assert n * 2.0 * perCall == (n - 1.0) * 2.0 * perCall + 2.0 * perCall;
    assert (n - 1.0) * delay == (n - 2.0) * delay + delay;
  }

  /** Some calls, a pause and a read. */
  lemma PausedReadCost(calls: seq<Call>, delay: real, perCall: real)
    requires |calls| >= 2 && calls[|calls| - 2] == Sleep(delay) && calls[|calls| - 1].Read?
    ensures Cost(calls, perCall) == Cost(calls[..|calls| - 2], perCall) + delay + 2.0 * perCall
    ensures SetUsers(calls) == SetUsers(calls[..|calls| - 2])
  {
    var n := |calls|;
    Snoc(calls[..n - 2], calls[n - 2], perCall);
    Snoc(calls[..n - 2] + [calls[n - 2]], calls[n - 1], perCall);
    assert calls[..n - 2] + [calls[n - 2]] + [calls[n - 1]] == calls;
  }

  lemma {:induction false} FailedReadsCost(calls: seq<Call>, id: string, tried: nat, delay: real, perCall: real)
    requires FailedReads(calls, id, tried, delay)
    ensures Cost(calls, perCall) == ReadbackBudget(tried, delay, perCall) && SetUsers(calls) == 0
    decreases tried
  {
    if tried == 1 {
      CostOfOne(calls[0], perCall);
      assert calls == [calls[0]];
    } else if tried > 1 {
      FailedReadsCost(calls[..|calls| - 2], id, tried - 1, delay, perCall);
      PausedReadCost(calls, delay, perCall);
      OneMoreRead(tried, delay, perCall);
    }
  }

  lemma FoundOnReadCost(calls: seq<Call>, id: string, tried: nat, delay: real, found: User, perCall: real)
    requires FoundOnRead(calls, id, tried, delay, found)
    ensures Cost(calls, perCall) == ReadbackBudget(tried, delay, perCall) && SetUsers(calls) == 0
  {
    if tried == 1 {
      CostOfOne(calls[0], perCall);
      assert calls == [calls[0]];
    } else {
      FailedReadsCost(calls[..|calls| - 2], id, tried - 1, delay, perCall);
      PausedReadCost(calls, delay, perCall);
      OneMoreRead(tried, delay, perCall);
    }
  }

  function Pause(tried: nat, delay: real): seq<Call> {
    if tried == 0 then [] else [Sleep(delay)]
  }

  /** One more read after `tried` failed ones. */
  lemma NextRead(failed: seq<Call>, id: string, tried: nat, delay: real, roster: Option<seq<User>>, perCall: real)
    requires FailedReads(failed, id, tried, delay)
    ensures var made := failed + Pause(tried, delay) + [Read(roster)]; var found := Match(roster.GetOr([]), id);
      && (if found.Some? then FoundOnRead(made, id, tried + 1, delay, found.value)
          else FailedReads(made, id, tried + 1, delay))
      && Cost(made, perCall) == Cost(failed, perCall) + (if tried == 0 then 0.0 else delay) + 2.0 * perCall
  {
    var made := failed + Pause(tried, delay) + [Read(roster)];
    Snoc(failed + Pause(tried, delay), Read(roster), perCall);
    if tried == 0 {
      assert failed + Pause(tried, delay) == failed;
    } else {
      Snoc(failed, Sleep(delay), perCall);
      assert made[..|made| - 2] == failed;
    }
  }

  /** Reads until the id shows or the attempts are used up; `made` are the calls this took. */
  method BoundedRosterReadback(device: Terminal, id: string, retries: int, delay: real)
    returns (found: Option<User>, ghost made: seq<Call>, ghost tried: nat)
    requires device.Valid() && delay >= 0.0
    modifies device
    ensures device.Valid() && device.calls == old(device.calls) + made
    ensures device.elapsed <= old(device.elapsed) + Cost(made, device.perCall)
    ensures found.None? ==> tried == (if retries > 0 then retries else 0) && FailedReads(made, id, tried, delay)
    ensures found.Some? ==> tried <= retries && FoundOnRead(made, id, tried, delay, found.value)
    ensures found.Some? ==> id in device.accounts && device.accounts[id] == found.value
  {
    var attempt := 0;
    tried := 0;
    ghost var failed: seq<Call> := [];
    while attempt < retries
      invariant tried == attempt && (attempt <= retries || attempt == 0) && device.Valid()
      invariant FailedReads(failed, id, tried, delay)
      invariant device.calls == old(device.calls) + failed + if attempt < retries then Pause(tried, delay) else []
      invariant device.elapsed <= old(device.elapsed) + Cost(failed, device.perCall)
                                  + if 0 < attempt < retries then delay else 0.0
      decreases retries - attempt
    {
      var roster := device.GetUsers();
      NextRead(failed, id, tried, delay, roster, device.perCall);
      made := failed + Pause(tried, delay) + [Read(roster)];
      assert device.calls == old(device.calls) + made;
      tried := tried + 1;
      found := Match(roster.GetOr([]), id);
      if found.Some? { return; }
      failed := made;
      if attempt < retries - 1 { device.Wait(delay); }
      attempt := attempt + 1;
    }
    made := failed;
    found := None;
  }

  /** Everything one call may spend on the terminal, as the timing budget computes it. */
  function CollectorBudget(perCall: real, retries: int, delay: real): real {
    2.0 * perCall + 2.0 * perCall + retries as real * 2.0 * perCall + (retries - 1) as real * delay
  }

  datatype Outcome =
    | Done(reconciled: bool, uid: Option<int>)
    | InvalidName | UnknownEnrollment | WrongState | NoDevice
    | RosterUnavailable          // nothing was written to the terminal
    | Unconfirmed                // set_user was called and never seen to take effect
    | Conflict                   // somebody else's account, or one with a privilege

  predicate MayCreate(s: Status) {
    s.Reserved? || s.TerminalAccountCreated?
  }

  predicate IdentityMatches(u: User) {
    u.privilege == Some(NORMAL_USER)
  }

  /** What a request learns from the terminal. */
  datatype Sight = Seen(user: User) | Unreadable | NeverSeen

  /** The calls of one request: a first read; if it shows no account, one set_user and the read-back. */
  ghost predicate Conversation(calls: seq<Call>, id: string, retries: int, delay: real, sight: Sight) {
    && calls != [] && calls[0].Read?
    && if calls[0].roster.None? then sight == Unreadable && |calls| == 1
       else if Match(calls[0].roster.value, id).Some? then
         sight == Seen(Match(calls[0].roster.value, id).value) && |calls| == 1
       else |calls| >= 2 && calls[1] == SetUser(id) && Readback(calls[2..], id, retries, delay, sight)
  }

  ghost predicate Readback(calls: seq<Call>, id: string, retries: int, delay: real, sight: Sight) {
    match sight
    case Seen(u) => exists tried: nat :: tried <= retries && FoundOnRead(calls, id, tried, delay, u)
    case NeverSeen => FailedReads(calls, id, if retries > 0 then retries else 0, delay)
    case Unreadable => false
  }

  /** The device part of create_or_reconcile_terminal_account. */
  method SeekAccount(device: Terminal, id: string, retries: int, delay: real)
    returns (sight: Sight, mutated: bool, ghost made: seq<Call>)
    requires device.Valid() && delay >= 0.0
    modifies device
    ensures device.Valid() && device.calls == old(device.calls) + made && Conversation(made, id, retries, delay, sight)
    ensures device.elapsed <= old(device.elapsed) + Cost(made, device.perCall)
    ensures sight.Seen? ==> id in device.accounts && device.accounts[id] == sight.user
    ensures mutated <==> |made| >= 2
  {
    mutated := false;
    var roster := device.GetUsers();
    made := [Read(roster)];
    CostOfOne(Read(roster), device.perCall);
    if roster.None? { return Unreadable, mutated, made; }
    var entry := Match(roster.value, id);
    if entry.Some? { return Seen(entry.value), mutated, made; }
    mutated := true;
    var claimed := device.SetUserOn(id);
    ghost var polls: seq<Call>, tried: nat;
    entry, polls, tried := BoundedRosterReadback(device, id, retries, delay);
    made := [Read(roster)] + [SetUser(id)] + polls;
    assert made[2..] == polls;
    CostOfOne(SetUser(id), device.perCall);
    CostOfBoth([Read(roster)], [SetUser(id)], device.perCall);
    CostOfBoth([Read(roster)] + [SetUser(id)], polls, device.perCall);
    assert device.calls == old(device.calls) + made;
    sight := if entry.Some? then Seen(entry.value) else NeverSeen;
  }

  /** A read of the roster that shows the id. */
  predicate Shows(c: Call, id: string) {
    c.Read? && c.roster.Some? && exists u :: u in c.roster.value && u.id == id
  }

  lemma {:induction false} FailedReadsShowNothing(calls: seq<Call>, id: string, tried: nat, delay: real)
    requires FailedReads(calls, id, tried, delay)
    ensures forall c | c in calls :: !Shows(c, id) && !c.SetUser?
    decreases tried
  {
    if tried > 1 { FailedReadsShowNothing(calls[..|calls| - 2], id, tried - 1, delay); }
  }

  lemma FoundReadShows(calls: seq<Call>, id: string, tried: nat, delay: real, found: User)
    requires FoundOnRead(calls, id, tried, delay, found)
    ensures (exists c :: c in calls && Shows(c, id)) && forall c | c in calls :: !c.SetUser?
  {
    assert Shows(calls[|calls| - 1], id);
    if tried > 1 { FailedReadsShowNothing(calls[..|calls| - 2], id, tried - 1, delay); }
  }

  /** What a request learns, told by its calls: the id was seen exactly if a read shows it, and set_user is among them
      exactly if the first read succeeded without it. */
  lemma ConversationShows(calls: seq<Call>, id: string, retries: int, delay: real, sight: Sight)
    requires Conversation(calls, id, retries, delay, sight)
    ensures sight.Seen? <==> exists c :: c in calls && Shows(c, id)
    ensures sight.Unreadable? <==> calls == [Read(None)]
    ensures |calls| >= 2 <==> exists c :: c in calls && c.SetUser?
    ensures |calls| >= 2 <==> SetUser(id) in calls
  {
    if |calls| >= 2 {
      var polls := calls[2..];
      assert calls == [calls[0]] + [calls[1]] + polls;
      match sight {
        case Seen(u) =>
          var tried: nat :| tried <= retries && FoundOnRead(polls, id, tried, delay, u);
          FoundReadShows(polls, id, tried, delay, u);
        case NeverSeen => FailedReadsShowNothing(polls, id, if retries > 0 then retries else 0, delay);
        case Unreadable =>
      }
    } else {
      assert calls == [calls[0]];
      assert sight.Seen? ==> sight.user in calls[0].roster.value && Shows(calls[0], id);
    }
  }

  predicate BeforeDevice(o: Outcome) {
    o.InvalidName? || o.UnknownEnrollment? || o.WrongState? || o.NoDevice?
  }

  /** Success takes an account that was read back with the normal privilege. */
  function Judged(sight: Sight, mutated: bool): Outcome {
    match sight
    case Unreadable => RosterUnavailable
    case NeverSeen => Unconfirmed
    case Seen(u) => if IdentityMatches(u) then Done(!mutated, u.uid) else Conflict
  }

  method CreateOrReconcile(store: Store, id: RowId, nameOk: bool, device: Terminal?, retries: int, delay: real)
    returns (outcome: Outcome, ghost made: seq<Call>, ghost sight: Sight)
    requires device != null ==> device.Valid() && delay >= 0.0
    modifies store, device
    ensures store.State() ==
      if outcome.Done? then ApplyCreateAccount(old(store.State()), id, outcome.uid) else old(store.State())
    ensures var t := old(store.State());
      && (outcome.InvalidName? <==> !nameOk)
      && (outcome.UnknownEnrollment? <==> nameOk && id >= |t.enrollments|)
      && (outcome.WrongState? <==> nameOk && id < |t.enrollments| && !MayCreate(t.enrollments[id].status))
      && (outcome.NoDevice? <==>
           nameOk && id < |t.enrollments| && MayCreate(t.enrollments[id].status) && device == null)
    ensures device != null && !BeforeDevice(outcome) ==>
      && id < |old(store.enrollments)|
      && var target := old(store.enrollments)[id].account.user;
      && Conversation(made, target, retries, delay, sight) && device.calls == old(device.calls) + made
      && device.elapsed <= old(device.elapsed) + Cost(made, device.perCall)
      && outcome == Judged(sight, |made| >= 2)
      && (sight.Seen? ==> target in device.accounts && device.accounts[target] == sight.user)
    ensures device != null && BeforeDevice(outcome) ==> device.calls == old(device.calls)
    ensures store.State() == old(store.State()).(deviceUsers := store.deviceUsers, enrollments := store.enrollments)
    ensures !outcome.Done? ==> store.State() == old(store.State())
    ensures outcome.Done? ==>
      && id < |old(store.enrollments)|
      && var e := old(store.enrollments)[id];
      && e.status in {Reserved, TerminalAccountCreated}
      && store.enrollments == old(store.enrollments)[id := e.(
           status := TerminalAccountCreated, updatedAt := store.now,
           terminalCreatedAt := if e.terminalCreatedAt.Some? then e.terminalCreatedAt else Some(store.now),
           deviceUid := if e.deviceUid.Some? then e.deviceUid else outcome.uid)]
      && store.deviceUsers == if e.account in old(store.deviceUsers) then old(store.deviceUsers)
                              else old(store.deviceUsers)[e.account := DeviceUser(true, None, None, 1)]
    ensures device != null && !BeforeDevice(outcome) ==>
      && id < |old(store.enrollments)|
      && var target := old(store.enrollments)[id].account.user;
      && (outcome.Done? ==>
           && target in device.accounts && device.accounts[target].privilege == Some(0)
           && outcome.uid == device.accounts[target].uid
           && (outcome.reconciled <==> forall c | c in made :: !c.SetUser?))
      && (outcome.Conflict? ==> target in device.accounts && device.accounts[target].privilege != Some(0))
      && (outcome.Done? || outcome.Conflict? <==> exists c :: c in made && Shows(c, target))
      && (outcome.RosterUnavailable? <==> made == [Read(None)])
      && (outcome.Unconfirmed? <==> SetUser(target) in made && forall c | c in made :: !Shows(c, target))
  {
    made, sight := [], Unreadable;
    if !nameOk { return InvalidName, made, sight; }
    if id >= |store.enrollments| { return UnknownEnrollment, made, sight; }
    var e := store.enrollments[id];
    if !MayCreate(e.status) { return Outcome.WrongState, made, sight; }
    if device == null { return NoDevice, made, sight; }
    var seen, mutated;
    seen, mutated, made := SeekAccount(device, e.account.user, retries, delay);
    sight := seen;
    ConversationShows(made, e.account.user, retries, delay, seen);
    match seen {
      case Unreadable => outcome := RosterUnavailable;
      case NeverSeen => outcome := Unconfirmed;
      case Seen(user) =>
        if !IdentityMatches(user) { return Conflict, made, sight; }
        store.deviceUsers := EnsureDeviceUser(store.State(), e.account);
        store.enrollments := store.enrollments[id := e.(
          status := TerminalAccountCreated,
          terminalCreatedAt := if e.terminalCreatedAt.None? then Some(store.now) else e.terminalCreatedAt,
          deviceUid := if e.deviceUid.None? then user.uid else e.deviceUid,
          updatedAt := store.now)];
        outcome := Done(!mutated, user.uid);
    }
  }

  // ---- What every request keeps to ----

  lemma ConversationParts(calls: seq<Call>, perCall: real)
    requires |calls| >= 2 && calls[0].Read? && calls[1].SetUser?
    ensures Cost(calls, perCall) == 4.0 * perCall + Cost(calls[2..], perCall)
    ensures SetUsers(calls) == 1 + SetUsers(calls[2..])
  {
    CostOfOne(calls[0], perCall);
    CostOfOne(calls[1], perCall);
    CostOfBoth([calls[0]], [calls[1]], perCall);
    CostOfBoth([calls[0]] + [calls[1]], calls[2..], perCall);
    assert calls == [calls[0]] + [calls[1]] + calls[2..];
  }

  lemma ReadbackCost(calls: seq<Call>, id: string, retries: int, delay: real, sight: Sight, perCall: real)
    returns (tried: nat)
    requires Readback(calls, id, retries, delay, sight)
    ensures tried <= (if retries > 0 then retries else 0) && (sight.NeverSeen? && retries > 0 ==> tried == retries)
    ensures Cost(calls, perCall) == ReadbackBudget(tried, delay, perCall) && SetUsers(calls) == 0
  {
    if sight.NeverSeen? {
      tried := if retries > 0 then retries else 0;
      FailedReadsCost(calls, id, tried, delay, perCall);
    } else {
      tried :| tried <= retries && FoundOnRead(calls, id, tried, delay, sight.user);
      FoundOnReadCost(calls, id, tried, delay, sight.user, perCall);
    }
  }

  lemma {:induction false} MoreReadsCostMore(few: nat, many: nat, delay: real, perCall: real)
    requires few <= many && delay >= 0.0 && perCall >= 0.0
    ensures ReadbackBudget(few, delay, perCall) <= ReadbackBudget(many, delay, perCall)
    decreases many
  {
    if few < many {
      if many > 1 { OneMoreRead(many, delay, perCall); }
      MoreReadsCostMore(few, many - 1, delay, perCall);
    }
  }

  /** set_user is called at most once in a request, and exactly when the first read succeeded without showing the id. */
  lemma SetUserAtMostOnce(calls: seq<Call>, id: string, retries: int, delay: real, sight: Sight)
    requires Conversation(calls, id, retries, delay, sight)
    ensures SetUsers(calls) ==
      if calls[0].roster.Some? && Match(calls[0].roster.value, id).None? then 1 else 0
  {
    if |calls| >= 2 {
      ConversationParts(calls, 0.0);
      var _ := ReadbackCost(calls[2..], id, retries, delay, sight, 0.0);
    } else {
      CostOfOne(calls[0], 0.0);
      assert calls == [calls[0]];
    }
  }

  lemma ConversationCost(calls: seq<Call>, id: string, retries: int, delay: real, sight: Sight, perCall: real)
    requires Conversation(calls, id, retries, delay, sight) && perCall >= 0.0 && delay >= 0.0
    ensures Cost(calls, perCall) <= 4.0 * perCall + ReadbackBudget(retries, delay, perCall)
    ensures sight.NeverSeen? ==> Cost(calls, perCall) == 4.0 * perCall + ReadbackBudget(retries, delay, perCall)
  {
    var bound := if retries > 0 then retries else 0;
    MoreReadsCostMore(0, bound, delay, perCall);
    if |calls| >= 2 {
      ConversationParts(calls, perCall);
      var tried := ReadbackCost(calls[2..], id, retries, delay, sight, perCall);
      MoreReadsCostMore(tried, bound, delay, perCall);
    } else {
      CostOfOne(calls[0], perCall);
      assert calls == [calls[0]];
    }
  }

  function Silence(tried: nat, delay: real): seq<Call> {
    if tried == 0 then [] else if tried == 1 then [Read(None)]
    else Silence(tried - 1, delay) + [Sleep(delay)] + [Read(None)]
  }

  lemma {:induction false} SilenceFails(id: string, tried: nat, delay: real)
    ensures FailedReads(Silence(tried, delay), id, tried, delay)
    decreases tried
  {
    if tried > 1 {
      SilenceFails(id, tried - 1, delay);
      var s := Silence(tried, delay);
      assert s[..|s| - 2] == Silence(tried - 1, delay);
    }
  }

  lemma SlowestRequest(id: string, perCall: real, retries: int, delay: real) returns (calls: seq<Call>)
    requires perCall >= 0.0 && delay >= 0.0
    ensures Conversation(calls, id, retries, delay, NeverSeen)
    ensures Cost(calls, perCall) == 4.0 * perCall + ReadbackBudget(retries, delay, perCall)
  {
    var tried := if retries > 0 then retries else 0;
    calls := [Read(Some([])), SetUser(id)] + Silence(tried, delay);
    assert calls[2..] == Silence(tried, delay);
    SilenceFails(id, tried, delay);
    ConversationCost(calls, id, retries, delay, NeverSeen, perCall);
  }

  lemma BudgetShortfall(perCall: real, retries: int, delay: real)
    requires perCall > 0.0 && delay >= 0.0 && retries <= 0
    ensures retries == 0 && delay == 0.0 ==> CollectorBudget(perCall, retries, delay) == 4.0 * perCall
    ensures retries < 0 || delay > 0.0 ==> CollectorBudget(perCall, retries, delay) < 4.0 * perCall
  {
    var r := retries as real;
    assert r * 2.0 * perCall <= 0.0 && (r < 0.0 ==> r * 2.0 * perCall < 0.0);
    assert (r - 1.0) * delay <= 0.0 && (delay > 0.0 ==> (r - 1.0) * delay < 0.0);
    assert (retries - 1) as real == r - 1.0;
  }

  /** The timing budget bounds every request exactly when at least one read-back is made (or none is, and no pause is
      charged for it). */
  lemma BudgetHoldsIff(id: string, perCall: real, retries: int, delay: real)
    requires perCall > 0.0 && delay >= 0.0
    ensures retries >= 1 || (retries == 0 && delay == 0.0) <==>
      forall calls, sight :: Conversation(calls, id, retries, delay, sight) ==>
        Cost(calls, perCall) <= CollectorBudget(perCall, retries, delay)
  {
    if retries <= 0 { BudgetShortfall(perCall, retries, delay); }
    forall calls, sight | Conversation(calls, id, retries, delay, sight)
      ensures Cost(calls, perCall) <= 4.0 * perCall + ReadbackBudget(retries, delay, perCall)
    {
      ConversationCost(calls, id, retries, delay, sight, perCall);
    }
    var slowest := SlowestRequest(id, perCall, retries, delay);
  }

  /** With at least one read-back the budget is not a second too long: the slowest request uses all of it. */
  lemma BudgetIsTight(id: string, perCall: real, retries: int, delay: real) returns (calls: seq<Call>)
    requires perCall > 0.0 && delay >= 0.0 && retries >= 1
    ensures Conversation(calls, id, retries, delay, NeverSeen)
    ensures Cost(calls, perCall) == CollectorBudget(perCall, retries, delay)
  {
    calls := SlowestRequest(id, perCall, retries, delay);
  }

  /** A second success for the same enrollment changes nothing but the time of the last update: the first creation time
      stands, and so does the first device uid that was known. */
  lemma RepeatIsIdempotent(t: Tables, id: RowId, uid: Option<int>, later: Time, again: Option<int>)
    requires id < |t.enrollments| && MayCreate(t.enrollments[id].status)
    ensures var once := ApplyCreateAccount(t, id, uid);
      var twice := ApplyCreateAccount(once.(now := later), id, again);
      && twice.deviceUsers == once.deviceUsers && twice.mappings == t.mappings && twice.humans == t.humans
      && twice.enrollments == once.enrollments[id := once.enrollments[id].(
           updatedAt := later,
           deviceUid := if t.enrollments[id].deviceUid.Some? then t.enrollments[id].deviceUid
                        else if uid.Some? then uid else again)]
  {
  }
}
