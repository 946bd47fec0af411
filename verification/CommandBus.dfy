/** The API side's command bus: who may have a command in flight under a key, while callers, the response receiver and
    the clock interleave. Each action is one locked section or one step between two of them. */
module CommandBus {
  import opened Basics

  type CommandId = nat
  type Key = string
  type Response = int

  // ---- The two dictionaries guarded by the lock ----

  datatype Holder = Holder(command: CommandId, expires: Time)

  datatype Keys = Keys(inflight: map<Key, Holder>, owners: map<CommandId, Key>)

  predicate Busy(ks: Keys, key: Key, now: Time) {
    key in ks.inflight && ks.inflight[key].expires > now
  }

  /** Check-and-reserve: an expired holder is forgotten, and `command` holds the key until now + timeout. */
  function Grant(ks: Keys, command: CommandId, key: Key, now: Time, timeout: Time): Keys {
    var owners := if key in ks.inflight then ks.owners - {ks.inflight[key].command} else ks.owners;
    Keys(ks.inflight[key := Holder(command, now + timeout)], owners[command := key])
  }

  /** _release_dedupe_key_for_command: only the command's own entry is dropped. */
  function Free(ks: Keys, command: CommandId): Keys {
    if command !in ks.owners then ks
    else
      var key := ks.owners[command];
      Keys(if key in ks.inflight && ks.inflight[key].command == command then ks.inflight - {key} else ks.inflight,
           ks.owners - {command})
  }

  /** Each dictionary is the inverse of the other. */
  predicate Inverse(ks: Keys) {
    && (forall k | k in ks.inflight :: ks.inflight[k].command in ks.owners && ks.owners[ks.inflight[k].command] == k)
    && (forall c | c in ks.owners :: ks.owners[c] in ks.inflight && ks.inflight[ks.owners[c]].command == c)
  }

  lemma GrantKeepsInverse(ks: Keys, command: CommandId, key: Key, now: Time, timeout: Time)
    requires Inverse(ks) && command !in ks.owners
    ensures Inverse(Grant(ks, command, key, now, timeout))
  {
  }

  /** A response frees exactly the key its own command holds; whoever has taken over another entry is untouched. */
  lemma FreeKeepsOthers(ks: Keys, command: CommandId)
    requires Inverse(ks)
    ensures Inverse(Free(ks, command)) && command !in Free(ks, command).owners
    ensures forall k :: k in Free(ks, command).inflight <==> k in ks.inflight && ks.inflight[k].command != command
    ensures forall k :: k in Free(ks, command).inflight ==> Free(ks, command).inflight[k] == ks.inflight[k]
  {
  }

  class DeviceCommandBus {
    var pending: map<CommandId, Option<Response>>
    var inflightKeys: map<Key, Holder>
    var commandDedupeKeys: map<CommandId, Key>

    function KeysNow(): Keys
      reads this
    {
      Keys(inflightKeys, commandDedupeKeys)
    }

    constructor ()
      ensures pending == map[] && KeysNow() == Keys(map[], map[]) && Inverse(KeysNow())
    {
      pending, inflightKeys, commandDedupeKeys := map[], map[], map[];
    }

    /** The part of execute up to the publication: false means DeviceCommandBusy. */
    method Begin(command: CommandId, dedupeKey: Option<Key>, now: Time, timeout: Time) returns (admitted: bool)
      requires command !in pending
      modifies this
      ensures admitted <==> dedupeKey.None? || !Busy(old(KeysNow()), dedupeKey.value, now)
      ensures !admitted <==>
        dedupeKey.Some? && dedupeKey.value in old(inflightKeys) && old(inflightKeys)[dedupeKey.value].expires > now
      ensures admitted && dedupeKey.Some? ==>
        && inflightKeys == old(inflightKeys)[dedupeKey.value := Holder(command, now + timeout)]
        && command in commandDedupeKeys && commandDedupeKeys[command] == dedupeKey.value
      ensures pending == if admitted then old(pending)[command := None] else old(pending)
      ensures KeysNow() == if admitted && dedupeKey.Some?
                           then Grant(old(KeysNow()), command, dedupeKey.value, now, timeout) else old(KeysNow())
    {
      pending := pending[command := None];
      if dedupeKey.Some? {
        var key := dedupeKey.value;
        if key in inflightKeys {
          var existing := inflightKeys[key];
          if existing.expires > now {
            pending := pending - {command};
            return false;
          }
          commandDedupeKeys := commandDedupeKeys - {existing.command};
        }
        inflightKeys := inflightKeys[key := Holder(command, now + timeout)];
        commandDedupeKeys := commandDedupeKeys[command := key];
      }
      return true;
    }

    method ReleaseDedupeKeyForCommand(command: CommandId)
      modifies `inflightKeys, `commandDedupeKeys
      ensures KeysNow() == Free(old(KeysNow()), command)
    {
      if command in commandDedupeKeys {
        var key := commandDedupeKeys[command];
        commandDedupeKeys := commandDedupeKeys - {command};
        if key in inflightKeys && inflightKeys[key].command == command {
          inflightKeys := inflightKeys - {key};
        }
      }
    }

    /** A response with no other thread in between: on time it reaches the waiter, and either way it frees the key. */
    method OnMessage(command: CommandId, response: Response)
      modifies this
      ensures pending == if command in old(pending) then old(pending)[command := Some(response)] else old(pending)
      ensures KeysNow() == Free(old(KeysNow()), command)
    {
      if command in pending {
        pending := pending[command := Some(response)];
        ReleaseDedupeKeyForCommand(command);
      } else {
        ReleaseDedupeKeyForCommand(command);
      }
    }
  }

  // ---- Threads ----

  datatype Outcome = BusyRefusal | Answered(response: Response) | TimedOut | NotPublished

  datatype Caller =
    | Entered(key: Option<Key>, timeout: Time)   // pending entry made, key not yet looked at
    | Admitted(timeout: Time)
    | Waiting(deadline: Time)
    | Leaving(outcome: Outcome)                  // about to drop its pending entry
    | Left(outcome: Outcome)

  /** The thread that delivers responses. */
  datatype Receiver = Quiet | Matched(command: CommandId, response: Response) | Releasing(command: CommandId)

  datatype Event =
    | Granted(command: CommandId, key: Key, at: Time, expires: Time, since: Time)
    | Refused(command: CommandId, key: Key, at: Time)
    | Delivered(command: CommandId, response: Response)
    | Freed(command: CommandId)

  function Timeout(e: Event): Time
    requires e.Granted?
  {
    e.expires - e.at
  }

  /** `clock` is the monotonic clock that waits go by, `wall` the clock that keys expire by; the log gives a grant's
      time and expiry by the wall, and by the clock since when it holds. */
  datatype State = State(clock: Time, wall: Time, keys: Keys, pending: map<CommandId, Option<Response>>,
                         callers: map<CommandId, Caller>, receiver: Receiver, log: seq<Event>)

  function Init(clock: Time, wall: Time): State {
    State(clock, wall, Keys(map[], map[]), map[], map[], Quiet, [])
  }

  datatype Action =
    | Enter(command: CommandId, key: Option<Key>, timeout: Time)
    | Reserve(command: CommandId)
    | Publish(command: CommandId)
    | PublishFails(command: CommandId)
    | GiveUp(command: CommandId)
    | Wake(command: CommandId)
    | Leave(command: CommandId)
    | Receive(command: CommandId, response: Response)
    | Record
    | Release
    | Tick(elapsed: nat)
    | SetWall(jump: int)

  predicate Enabled(s: State, a: Action) {
    match a
    case Enter(c, _, _) => c !in s.callers
    case Reserve(c) => c in s.callers && s.callers[c].Entered?
    case Publish(c) => c in s.callers && s.callers[c].Admitted?
    case PublishFails(c) => c in s.callers && s.callers[c].Admitted?
    case GiveUp(c) => c in s.callers && s.callers[c].Waiting? && s.clock >= s.callers[c].deadline
                      && !(c in s.pending && s.pending[c].Some?)
    case Wake(c) => c in s.callers && s.callers[c].Waiting? && c in s.pending && s.pending[c].Some?
    case Leave(c) => c in s.callers && s.callers[c].Leaving?
    case Receive(_, _) => s.receiver.Quiet?
    case Record => s.receiver.Matched?
    case Release => s.receiver.Releasing?
    case Tick(_) => true
    case SetWall(_) => true
  }

  function Now(s: State, c: CommandId, caller: Caller): State {
    s.(callers := s.callers[c := caller])
  }

  function Reserved(s: State, c: CommandId): State
    requires Enabled(s, Reserve(c))
  {
    var caller := s.callers[c];
    if caller.key.None? then Now(s, c, Admitted(caller.timeout))
    else if Busy(s.keys, caller.key.value, s.wall) then
      Now(s, c, Left(BusyRefusal)).(pending := s.pending - {c}, log := s.log + [Refused(c, caller.key.value, s.wall)])
    else
      Now(s, c, Admitted(caller.timeout)).(
        keys := Grant(s.keys, c, caller.key.value, s.wall, caller.timeout),
        log := s.log + [GrantOf(s, c, caller.key.value, caller.timeout)])
  }

  function GrantOf(s: State, c: CommandId, key: Key, timeout: Time): (e: Event)
    ensures e.Granted? && e.command == c && e.key == key && e.at == s.wall
    ensures Timeout(e) == timeout && e.since == s.clock
  {
    Granted(c, key, s.wall, s.wall + timeout, s.clock)
  }

  function Perform(s: State, a: Action): State
    requires Enabled(s, a)
  {
    match a
    case Enter(c, key, timeout) => Now(s, c, Entered(key, timeout)).(pending := s.pending[c := None])
    case Reserve(c) => Reserved(s, c)
    case Publish(c) => Now(s, c, Waiting(s.clock + s.callers[c].timeout))
    case PublishFails(c) => Now(s, c, Leaving(NotPublished))
    case GiveUp(c) => Now(s, c, Leaving(TimedOut))
    case Wake(c) => Now(s, c, Leaving(Answered(s.pending[c].value)))
    case Leave(c) => Now(s, c, Left(s.callers[c].outcome)).(pending := s.pending - {c})
    case Receive(c, r) =>
      s.(receiver := if c in s.pending then Matched(c, r) else Releasing(c), log := s.log + [Delivered(c, r)])
    case Record =>
      // A caller that left since the match makes the lookup fail, and the failure is only logged.
      var c := s.receiver.command;
      if c in s.pending then s.(pending := s.pending[c := Some(s.receiver.response)], receiver := Releasing(c))
      else s.(receiver := Quiet)
    case Release =>
      s.(keys := Free(s.keys, s.receiver.command), receiver := Quiet, log := s.log + [Freed(s.receiver.command)])
    case Tick(elapsed) => s.(clock := s.clock + elapsed, wall := s.wall + elapsed)
    case SetWall(jump) => s.(wall := s.wall + jump)
  }

  function Step(s: State, a: Action): State {
    if Enabled(s, a) then Perform(s, a) else s
  }

  function Run(s: State, actions: seq<Action>): State
    decreases |actions|
  {
    if actions == [] then s else Run(Step(s, actions[0]), actions[1..])
  }

  // ---- What the log says about a key ----

  /** The grant at i has not been answered by a handled response. */
  predicate Unfreed(log: seq<Event>, i: nat)
    requires i < |log| && log[i].Granted?
  {
    Freed(log[i].command) !in log[i..]
  }

  /** No later grant has taken the key over. */
  predicate Latest(log: seq<Event>, i: nat)
    requires i < |log| && log[i].Granted?
  {
    forall j | i < j < |log| && log[j].Granted? :: log[j].key != log[i].key
  }

  predicate HoldsAt(log: seq<Event>, i: nat, key: Key, now: Time) {
    i < |log| && log[i].Granted? && log[i].key == key && log[i].expires > now && Unfreed(log, i) && Latest(log, i)
  }

  /** The last grant of the key is neither answered nor expired. */
  predicate Held(log: seq<Event>, key: Key, now: Time) {
    exists i: nat :: i < |log| && HoldsAt(log, i, key, now)
  }

  /** Every decision so far was right by what had happened before it. */
  predicate Decided(log: seq<Event>) {
    forall j: nat | j < |log| ::
      && (log[j].Granted? ==> !Held(log[..j], log[j].key, log[j].at))
      && (log[j].Refused? ==> Held(log[..j], log[j].key, log[j].at))
  }

  predicate KnownOwners(s: State) {
    forall c | c in s.keys.owners :: c in s.callers && !s.callers[c].Entered?
  }

  predicate Backs(log: seq<Event>, i: nat, k: Key, h: Holder) {
    i < |log| && log[i].Granted? && log[i].key == k && log[i].command == h.command && log[i].expires == h.expires
    && Unfreed(log, i) && Latest(log, i)
  }

  /** Behind each held key stands its grant. */
  predicate Backed(ks: Keys, log: seq<Event>) {
    forall k | k in ks.inflight :: exists i: nat :: i < |log| && Backs(log, i, k, ks.inflight[k])
  }

  /** Each unanswered grant that has not been taken over is in the dictionary. */
  predicate Recorded(ks: Keys, log: seq<Event>) {
    forall i: nat | i < |log| && log[i].Granted? && Unfreed(log, i) && Latest(log, i) ::
      log[i].key in ks.inflight && ks.inflight[log[i].key] == Holder(log[i].command, log[i].expires)
  }

  /** The dictionaries tell what the log tells. */
  predicate InStep(ks: Keys, log: seq<Event>) {
    Inverse(ks) && Backed(ks, log) && Recorded(ks, log) && Decided(log)
  }

  /** Responses in flight or handed over were delivered for that very command. */
  predicate Genuine(s: State) {
    && (s.receiver.Matched? ==> Delivered(s.receiver.command, s.receiver.response) in s.log)
    && (forall c | c in s.pending && s.pending[c].Some? :: Delivered(c, s.pending[c].value) in s.log)
    && (forall c | c in s.callers && (s.callers[c].Leaving? || s.callers[c].Left?) && s.callers[c].outcome.Answered? ::
          Delivered(c, s.callers[c].outcome.response) in s.log)
  }

  /** By the monotonic clock a caller waits at least its key's time from the grant on. */
  predicate TimelyGrant(s: State, e: Event)
    requires e.Granted?
  {
    && e.command in s.callers
    && match s.callers[e.command]
       case Entered(_, _) => false
       case Admitted(timeout) => Timeout(e) == timeout && e.since <= s.clock
       case Waiting(deadline) => e.since + Timeout(e) <= deadline
       case Leaving(TimedOut) => e.since + Timeout(e) <= s.clock
       case Left(TimedOut) => e.since + Timeout(e) <= s.clock
       case _ => true
  }

  predicate Timely(s: State) {
    forall i | 0 <= i < |s.log| && s.log[i].Granted? :: TimelyGrant(s, s.log[i])
  }

  predicate CallersOk(s: State) {
    KnownOwners(s) && Genuine(s) && Timely(s)
  }

  predicate Inv(s: State) {
    InStep(s.keys, s.log) && CallersOk(s)
  }

  lemma HeldIffBusy(ks: Keys, log: seq<Event>, now: Time, key: Key)
    requires Backed(ks, log) && Recorded(ks, log)
    ensures Held(log, key, now) <==> Busy(ks, key, now)
  {
    if Busy(ks, key, now) {
      var i: nat :| i < |log| && Backs(log, i, key, ks.inflight[key]);
      assert HoldsAt(log, i, key, now);
    }
  }

  /** One more event leaves earlier grants as they were, unless it frees them. */
  lemma UnfreedAfter(log: seq<Event>, e: Event, i: nat)
    requires i < |log| && log[i].Granted?
    ensures Unfreed(log + [e], i) <==> Unfreed(log, i) && e != Freed(log[i].command)
    ensures Latest(log + [e], i) <==> Latest(log, i) && !(e.Granted? && e.key == log[i].key)
  {
    assert (log + [e])[i..] == log[i..] + [e];
    if Latest(log + [e], i) {
      forall j | i < j < |log| && log[j].Granted?
        ensures log[j].key != log[i].key
      {
        assert (log + [e])[j] == log[j];
      }
      assert (log + [e])[|log|] == e;
    }
  }

  lemma DecidedAfter(log: seq<Event>, e: Event)
    requires Decided(log)
    requires e.Granted? ==> !Held(log, e.key, e.at)
    requires e.Refused? ==> Held(log, e.key, e.at)
    ensures Decided(log + [e])
  {
    forall j: nat | j < |log + [e]|
      ensures (log + [e])[..j] == if j < |log| then log[..j] else log
    {
    }
  }

  /** One more event that is no grant, after which the dictionary has lost only what the event frees. */
  lemma EventKeepsBacked(ks: Keys, us: Keys, log: seq<Event>, e: Event)
    requires Backed(ks, log) && !e.Granted?
    requires forall k | k in us.inflight ::
      k in ks.inflight && us.inflight[k] == ks.inflight[k] && e != Freed(ks.inflight[k].command)
    ensures Backed(us, log + [e])
  {
    forall k | k in us.inflight
      ensures exists i: nat :: i < |log + [e]| && Backs(log + [e], i, k, us.inflight[k])
    {
      var i: nat :| i < |log| && Backs(log, i, k, ks.inflight[k]);
      UnfreedAfter(log, e, i);
      assert Backs(log + [e], i, k, us.inflight[k]);
    }
  }

  lemma EventKeepsRecorded(ks: Keys, us: Keys, log: seq<Event>, e: Event)
    requires Recorded(ks, log) && !e.Granted?
    requires forall k | k in ks.inflight && e != Freed(ks.inflight[k].command) ::
      k in us.inflight && us.inflight[k] == ks.inflight[k]
    ensures Recorded(us, log + [e])
  {
    forall i: nat | i < |log| && log[i].Granted? && Unfreed(log + [e], i) && Latest(log + [e], i)
      ensures Unfreed(log, i) && Latest(log, i) && e != Freed(log[i].command)
    {
      UnfreedAfter(log, e, i);
    }
  }

  lemma EventKeepsInStep(ks: Keys, log: seq<Event>, e: Event)
    requires InStep(ks, log) && (e.Delivered? || (e.Refused? && Busy(ks, e.key, e.at)))
    ensures InStep(ks, log + [e])
  {
    if e.Refused? { HeldIffBusy(ks, log, e.at, e.key); }
    EventKeepsBacked(ks, ks, log, e);
    EventKeepsRecorded(ks, ks, log, e);
    DecidedAfter(log, e);
  }

  lemma FreeKeepsInStep(ks: Keys, log: seq<Event>, c: CommandId)
    requires InStep(ks, log)
    ensures InStep(Free(ks, c), log + [Freed(c)])
  {
    FreeKeepsOthers(ks, c);
    EventKeepsBacked(ks, Free(ks, c), log, Freed(c));
    EventKeepsRecorded(ks, Free(ks, c), log, Freed(c));
    DecidedAfter(log, Freed(c));
  }

  lemma GrantKeepsInStep(ks: Keys, log: seq<Event>, e: Event)
    requires InStep(ks, log) && e.Granted? && !Busy(ks, e.key, e.at) && e.command !in ks.owners
    ensures InStep(Grant(ks, e.command, e.key, e.at, Timeout(e)), log + [e])
  {
    GrantKeepsInverse(ks, e.command, e.key, e.at, Timeout(e));
    HeldIffBusy(ks, log, e.at, e.key);
    DecidedAfter(log, e);
    GrantKeepsBacked(ks, log, e);
    GrantKeepsRecorded(ks, log, e);
  }

  lemma GrantKeepsBacked(ks: Keys, log: seq<Event>, e: Event)
    requires Backed(ks, log) && e.Granted?
    ensures Backed(Grant(ks, e.command, e.key, e.at, Timeout(e)), log + [e])
  {
    var us := Grant(ks, e.command, e.key, e.at, Timeout(e));
    forall k | k in us.inflight
      ensures exists i: nat :: i < |log + [e]| && Backs(log + [e], i, k, us.inflight[k])
    {
      if k == e.key {
        assert (log + [e])[|log|..] == [e];
        assert Backs(log + [e], |log|, k, us.inflight[k]);
      } else {
        var i: nat :| i < |log| && Backs(log, i, k, ks.inflight[k]);
        UnfreedAfter(log, e, i);
        assert Backs(log + [e], i, k, us.inflight[k]);
      }
    }
  }

  lemma GrantKeepsRecorded(ks: Keys, log: seq<Event>, e: Event)
    requires Recorded(ks, log) && e.Granted?
    ensures Recorded(Grant(ks, e.command, e.key, e.at, Timeout(e)), log + [e])
  {
    forall i: nat | i < |log| && log[i].Granted? && Unfreed(log + [e], i) && Latest(log + [e], i)
      ensures Unfreed(log, i) && Latest(log, i) && log[i].key != e.key
    {
      UnfreedAfter(log, e, i);
    }
  }

  lemma ReserveKeepsInStep(s: State, c: CommandId)
    requires InStep(s.keys, s.log) && KnownOwners(s) && Enabled(s, Reserve(c))
    ensures var t := Reserved(s, c); InStep(t.keys, t.log)
  {
    var caller := s.callers[c];
    if caller.key.Some? {
      var key := caller.key.value;
      if Busy(s.keys, key, s.wall) { EventKeepsInStep(s.keys, s.log, Refused(c, key, s.wall)); }
      else { GrantKeepsInStep(s.keys, s.log, GrantOf(s, c, key, caller.timeout)); }
    }
  }

  lemma StepKeepsInStep(s: State, a: Action)
    requires InStep(s.keys, s.log) && KnownOwners(s) && Enabled(s, a)
    ensures var t := Perform(s, a); InStep(t.keys, t.log)
  {
    if a.Reserve? { ReserveKeepsInStep(s, a.command); }
    else if a.Receive? { EventKeepsInStep(s.keys, s.log, Delivered(a.command, a.response)); }
    else if a.Release? { FreeKeepsInStep(s.keys, s.log, s.receiver.command); }
  }

  lemma StepKeepsOwners(s: State, a: Action)
    requires Inverse(s.keys) && KnownOwners(s) && Enabled(s, a)
    ensures KnownOwners(Perform(s, a))
  {
  }

  lemma StepKeepsGenuine(s: State, a: Action)
    requires Genuine(s) && Enabled(s, a)
    ensures Genuine(Perform(s, a))
  {
  }

  lemma StepKeepsTimely(s: State, a: Action)
    requires Timely(s) && Enabled(s, a)
    ensures Timely(Perform(s, a))
  {
  }

  lemma {:induction false} RunKeepsInv(s: State, actions: seq<Action>)
    requires Inv(s)
    ensures Inv(Run(s, actions))
    decreases |actions|
  {
    if actions != [] {
      if Enabled(s, actions[0]) {
        StepKeepsInStep(s, actions[0]);
        StepKeepsOwners(s, actions[0]);
        StepKeepsGenuine(s, actions[0]);
        StepKeepsTimely(s, actions[0]);
      }
      RunKeepsInv(Step(s, actions[0]), actions[1..]);
    }
  }

  // ---- Main results ----

  lemma DictionariesAreInverse(clock: Time, wall: Time, actions: seq<Action>)
    ensures Inverse(Run(Init(clock, wall), actions).keys)
  {
    RunKeepsInv(Init(clock, wall), actions);
  }

  /** In every run, whatever is done to the wall clock, a command is refused exactly when the command last let through
      under its key has been neither answered nor allowed to expire. */
  lemma AdmissionIsExact(clock: Time, wall: Time, actions: seq<Action>, j: nat)
    requires j < |Run(Init(clock, wall), actions).log|
    ensures var log := Run(Init(clock, wall), actions).log;
      && (log[j].Granted? ==> !Held(log[..j], log[j].key, log[j].at))
      && (log[j].Refused? ==> Held(log[..j], log[j].key, log[j].at))
  {
    RunKeepsInv(Init(clock, wall), actions);
  }

  lemma {:induction false} NextGrant(log: seq<Event>, i: nat, j: nat) returns (m: nat)
    requires i < j < |log| && log[i].Granted? && log[j].Granted? && log[i].key == log[j].key
    ensures i < m <= j && log[m].Granted? && log[m].key == log[i].key && Latest(log[..m], i)
    decreases j
  {
    if n :| i < n < j && log[n].Granted? && log[n].key == log[i].key {
      m := NextGrant(log, i, n);
    } else {
      m := j;
    }
  }

  /** Two commands let through under one key are separated by the first one's response, or by its expiry when the key
      was next handed out. */
  lemma GrantsAreSeparated(clock: Time, wall: Time, actions: seq<Action>, i: nat, j: nat)
    requires var log := Run(Init(clock, wall), actions).log;
      i < j < |log| && log[i].Granted? && log[j].Granted? && log[i].key == log[j].key
    ensures var log := Run(Init(clock, wall), actions).log;
      exists m :: i < m <= j
        && (log[m] == Freed(log[i].command)
            || (log[m].Granted? && log[m].key == log[i].key && log[i].expires <= log[m].at))
  {
    RunKeepsInv(Init(clock, wall), actions);
    var log := Run(Init(clock, wall), actions).log;
    var m := NextGrant(log, i, j);
    if log[i].expires > log[m].at {
      assert !HoldsAt(log[..m], i, log[m].key, log[m].at);
      assert Freed(log[i].command) in log[..m][i..];
      var n :| 0 <= n < |log[..m][i..]| && log[..m][i..][n] == Freed(log[i].command);
      assert log[i + n] == Freed(log[i].command);
    }
  }

  /** An answered caller holds a response that was delivered for its own command. */
  lemma AnswersAreGenuine(clock: Time, wall: Time, actions: seq<Action>, c: CommandId)
    requires var s := Run(Init(clock, wall), actions);
      c in s.callers && s.callers[c].Left? && s.callers[c].outcome.Answered?
    ensures var s := Run(Init(clock, wall), actions); Delivered(c, s.callers[c].outcome.response) in s.log
  {
    RunKeepsInv(Init(clock, wall), actions);
  }

  // ---- A key and its caller's wait ----

  /** The key is held by a command whose caller's wait ran out. */
  predicate HeldPastWait(s: State, key: Key) {
    && key in s.keys.inflight && s.keys.inflight[key].command in s.callers
    && s.callers[s.keys.inflight[key].command] == Left(TimedOut)
  }

  /** A caller whose wait ran out leaves an unexpired key behind exactly if the wall clock has gained less than the
      key's time since it was granted, though by the monotonic clock at least that much has passed. */
  lemma TimedOutKeyIff(clock: Time, wall: Time, actions: seq<Action>, key: Key) returns (i: nat)
    requires HeldPastWait(Run(Init(clock, wall), actions), key)
    ensures var s := Run(Init(clock, wall), actions);
      && i < |s.log| && Backs(s.log, i, key, s.keys.inflight[key])
      && s.clock - s.log[i].since >= Timeout(s.log[i])
      && (Busy(s.keys, key, s.wall) <==> s.wall - s.log[i].at < Timeout(s.log[i]))
  {
    RunKeepsInv(Init(clock, wall), actions);
    i := GrantBehind(Run(Init(clock, wall), actions), key);
  }

  lemma GrantBehind(s: State, key: Key) returns (i: nat)
    requires Inv(s) && HeldPastWait(s, key)
    ensures i < |s.log| && Backs(s.log, i, key, s.keys.inflight[key]) && s.clock - s.log[i].since >= Timeout(s.log[i])
  {
    i :| i < |s.log| && Backs(s.log, i, key, s.keys.inflight[key]);
    assert TimelyGrant(s, s.log[i]);
  }

  predicate NeverSetBack(actions: seq<Action>) {
    forall i | 0 <= i < |actions| && actions[i].SetWall? :: actions[i].jump >= 0
  }

  /** The wall clock has gained as much as the monotonic one since every grant. */
  predicate KeptUp(s: State) {
    forall i | 0 <= i < |s.log| && s.log[i].Granted? :: s.wall - s.clock >= s.log[i].at - s.log[i].since
  }

  lemma {:induction false} RunKeepsUp(s: State, actions: seq<Action>)
    requires KeptUp(s) && NeverSetBack(actions)
    ensures KeptUp(Run(s, actions))
    decreases |actions|
  {
    if actions != [] {
      assert actions[0].SetWall? ==> actions[0].jump >= 0;
      assert forall i | 0 <= i < |actions[1..]| :: actions[1..][i] == actions[i + 1];
      RunKeepsUp(Step(s, actions[0]), actions[1..]);
    }
  }

  /** With a wall clock that is never set back the key does not outlive the wait, whatever the interleaving. */
  lemma TimedOutHoldsNothing(clock: Time, wall: Time, actions: seq<Action>, key: Key)
    requires HeldPastWait(Run(Init(clock, wall), actions), key) && NeverSetBack(actions)
    ensures var s := Run(Init(clock, wall), actions); !Busy(s.keys, key, s.wall)
  {
    var i := TimedOutKeyIff(clock, wall, actions, key);
    RunKeepsUp(Init(clock, wall), actions);
  }

  lemma RunCons(s: State, a: Action, rest: seq<Action>)
    ensures Run(s, [a] + rest) == Run(Step(s, a), rest)
  {
  }

  predicate NotFreedSince(before: seq<Event>, log: seq<Event>, c: CommandId) {
    forall i | |before| <= i < |log| :: log[i] != Freed(c)
  }

  /** From s to t the command has been neither answered nor given up, its caller still waits, and another command has
      been let through under its key. */
  predicate TakenOver(s: State, t: State, c: CommandId, key: Key) {
    && c in t.callers && t.callers[c].Waiting? && t.clock < t.callers[c].deadline
    && s.log <= t.log && NotFreedSince(s.log, t.log, c)
    && c in s.callers && t.callers[c] == s.callers[c]
    && key in t.keys.inflight && t.keys.inflight[key].command != c
  }

  /** Nobody touches the wall clock. */
  predicate Steady(actions: seq<Action>) {
    forall i | 0 <= i < |actions| :: !actions[i].SetWall?
  }

  predicate HeldBy(s: State, key: Key, h: Holder) {
    key in s.keys.inflight && s.keys.inflight[key] == h
  }

  lemma StepKeepsHolder(s: State, a: Action, key: Key, h: Holder)
    requires Inverse(s.keys) && KnownOwners(s) && HeldBy(s, key, h) && s.wall < h.expires
    requires NotFreedSince(s.log, Step(s, a).log, h.command)
    ensures HeldBy(Step(s, a), key, h)
  {
    if Enabled(s, a) && a.Release? { assert Step(s, a).log[|s.log|] == Freed(s.receiver.command); }
  }

  /** What is held unexpired and is not freed stays with the same command. */
  lemma {:induction false} RunKeepsHolder(s: State, more: seq<Action>, key: Key, h: Holder)
    requires Inv(s) && Steady(more) && HeldBy(s, key, h)
    requires Run(s, more).wall < h.expires && NotFreedSince(s.log, Run(s, more).log, h.command)
    ensures HeldBy(Run(s, more), key, h)
    decreases |more|
  {
    if more != [] {
      var u := Step(s, more[0]);
      assert Steady([more[0]]) && Steady(more[1..]);
      LogGrows(s, [more[0]]);
      LogGrows(u, more[1..]);
      RunKeepsInv(s, [more[0]]);
      assert Run(s, [more[0]]) == u by { RunCons(s, more[0], []); }
      StepKeepsHolder(s, more[0], key, h);
      RunKeepsHolder(u, more[1..], key, h);
    }
  }

  lemma {:induction false} LogGrows(s: State, more: seq<Action>)
    requires Steady(more)
    ensures var t := Run(s, more); s.log <= t.log && t.wall - t.clock == s.wall - s.clock && s.wall <= t.wall
    decreases |more|
  {
    if more != [] {
      assert !more[0].SetWall?;
      assert forall i | 0 <= i < |more[1..]| :: more[1..][i] == more[i + 1];
      LogGrows(Step(s, more[0]), more[1..]);
    }
  }

  lemma UnusedId(callers: map<CommandId, Caller>) returns (c: CommandId)
    ensures c !in callers
  {
    c := 0;
    var rest := callers.Keys;
    while rest != {}
      invariant rest <= callers.Keys && forall d | d in callers && d !in rest :: d < c
    {
      var d :| d in rest;
      c := if c <= d then d + 1 else c;
      rest := rest - {d};
    }
  }

  /** Without anybody touching the wall clock, the key passes to another command while its caller still waits. */
  predicate TakesOver(s: State, more: seq<Action>, c: CommandId, key: Key) {
    Steady(more) && TakenOver(s, Run(s, more), c, key)
  }

  /** The key expires while its caller still waits. */
  predicate ExpiresFirst(s: State, c: CommandId, key: Key)
    requires key in s.keys.inflight && c in s.callers && s.callers[c].Waiting?
  {
    s.keys.inflight[key].expires - s.wall < s.callers[c].deadline - s.clock
  }

  lemma ExpiredIsTakenOver(s: State, c: CommandId, key: Key) returns (actions: seq<Action>)
    requires key in s.keys.inflight && s.keys.inflight[key].command == c && c in s.callers && s.callers[c].Waiting?
    requires s.clock < s.callers[c].deadline && ExpiresFirst(s, c, key)
    ensures TakesOver(s, actions, c, key)
  {
    var d := UnusedId(s.callers);
    var expires := s.keys.inflight[key].expires;
    var wait: nat := if expires > s.wall then expires - s.wall else 0;
    var s1 := s.(clock := s.clock + wait, wall := s.wall + wait);
    var s2 := Step(s1, Enter(d, Some(key), 0));
    RunCons(s, Tick(wait), [Enter(d, Some(key), 0)] + ([Reserve(d)] + []));
    RunCons(s1, Enter(d, Some(key), 0), [Reserve(d)] + []);
    RunCons(s2, Reserve(d), []);
    actions := [Tick(wait)] + ([Enter(d, Some(key), 0)] + ([Reserve(d)] + []));
    assert Step(s2, Reserve(d)).log == s.log + [Granted(d, key, s1.wall, s1.wall, s1.clock)];
  }

  lemma UnexpiredIsNotTakenOver(s: State, more: seq<Action>, c: CommandId, key: Key)
    requires Inv(s) && key in s.keys.inflight && s.keys.inflight[key].command == c
    requires c in s.callers && s.callers[c].Waiting? && !ExpiresFirst(s, c, key)
    ensures !TakesOver(s, more, c, key)
  {
    if TakesOver(s, more, c, key) {
      LogGrows(s, more);
      RunKeepsHolder(s, more, key, s.keys.inflight[key]);
    }
  }

  /** Exactly when a key can pass to another command while its holder's caller still waits unanswered and the wall clock
      is left alone: when it expires before that wait ends, which is when time went by between reserving the key and
      starting to wait, or the wall clock was set forward. */
  lemma TakenOverDuringWaitIff(clock: Time, wall: Time, schedule: seq<Action>, c: CommandId, key: Key)
    requires var s := Run(Init(clock, wall), schedule);
      && key in s.keys.inflight && s.keys.inflight[key].command == c
      && c in s.callers && s.callers[c].Waiting? && s.clock < s.callers[c].deadline
    ensures var s := Run(Init(clock, wall), schedule);
      (exists more :: TakesOver(s, more, c, key)) <==> ExpiresFirst(s, c, key)
  {
    RunKeepsInv(Init(clock, wall), schedule);
    StateTakenOverIff(Run(Init(clock, wall), schedule), c, key);
  }

  lemma StateTakenOverIff(s: State, c: CommandId, key: Key)
    requires Inv(s) && key in s.keys.inflight && s.keys.inflight[key].command == c
    requires c in s.callers && s.callers[c].Waiting? && s.clock < s.callers[c].deadline
    ensures (exists more :: TakesOver(s, more, c, key)) <==> ExpiresFirst(s, c, key)
  {
    if ExpiresFirst(s, c, key) {
      var more := ExpiredIsTakenOver(s, c, key);
    } else {
      forall more
        ensures !TakesOver(s, more, c, key)
      {
        UnexpiredIsNotTakenOver(s, more, c, key);
      }
    }
  }

  lemma {:induction false} RunSnoc(s: State, actions: seq<Action>, a: Action)
    ensures Run(s, actions + [a]) == Step(Run(s, actions), a)
    decreases |actions|
  {
    if actions == [] {
      assert actions + [a] == [a] && [a][1..] == [];
    } else {
      assert (actions + [a])[1..] == actions[1..] + [a];
      RunSnoc(Step(s, actions[0]), actions[1..], a);
    }
  }

  /** One more action after a run that reached s. */
  lemma Extend(actions: seq<Action>, s: State, a: Action, t: State) returns (all: seq<Action>)
    requires Run(Init(0, 0), actions) == s && Step(s, a) == t
    ensures Run(Init(0, 0), all) == t
  {
    all := actions + [a];
    RunSnoc(Init(0, 0), actions, a);
  }

  function Waiter(key: Key, clock: Time): State {
    State(clock, clock, Keys(map[key := Holder(0, 10)], map[0 := key]), map[0 := None], map[0 := Waiting(clock + 10)],
          Quiet, [Granted(0, key, 0, 10, 0)])
  }

  function Asking(key: Key): State {
    Init(0, 0).(callers := map[0 := Entered(Some(key), 10)], pending := map[0 := None])
  }

  function Holding(key: Key, now: Time): State {
    Waiter(key, now).(callers := map[0 := Admitted(10)])
  }

  lemma FirstAsks(key: Key)
    ensures Step(Init(0, 0), Enter(0, Some(key), 10)) == Asking(key)
  {
  }

  lemma GrantedState(s: State, c: CommandId, key: Key, timeout: Time)
    requires c in s.callers && s.callers[c] == Entered(Some(key), timeout) && !Busy(s.keys, key, s.wall)
    ensures Step(s, Reserve(c)) == Now(s, c, Admitted(timeout)).(
      keys := Grant(s.keys, c, key, s.wall, timeout), log := s.log + [GrantOf(s, c, key, timeout)])
  {
  }

  lemma AskerHolds(key: Key)
    ensures Step(Asking(key), Reserve(0)) == Holding(key, 0)
  {
    var s := Asking(key);
    GrantedState(s, 0, key, 10);
    assert s.callers[0 := Admitted(10)] == map[0 := Admitted(10)];
    assert Grant(s.keys, 0, key, 0, 10) == Keys(map[key := Holder(0, 10)], map[0 := key]);
  }

  lemma HolderWaits(key: Key, delay: nat)
    ensures Step(Holding(key, 0), Tick(delay)) == Holding(key, delay)
    ensures Step(Holding(key, delay), Publish(0)) == Waiter(key, delay)
  {
    assert Holding(key, delay).callers[0 := Waiting(delay + 10)] == Waiter(key, delay).callers;
  }

  /** Command 0 reserves the key at time 0 with a timeout of 10 and starts waiting `delay` later. */
  lemma ReachWaiter(key: Key, delay: nat) returns (actions: seq<Action>)
    ensures Run(Init(0, 0), actions) == Waiter(key, delay)
  {
    FirstAsks(key);
    AskerHolds(key);
    HolderWaits(key, delay);
    actions := Extend([], Init(0, 0), Enter(0, Some(key), 10), Asking(key));
    actions := Extend(actions, Asking(key), Reserve(0), Holding(key, 0));
    actions := Extend(actions, Holding(key, 0), Tick(delay), Holding(key, delay));
    actions := Extend(actions, Holding(key, delay), Publish(0), Waiter(key, delay));
  }

  /** The key does not outlive the caller's own wait: here a second command is let through while the first caller is
      still waiting and nothing has been answered. */
  lemma SecondGrantDuringFirstWait() returns (actions: seq<Action>)
    ensures var s := Run(Init(0, 0), actions);
      && 0 in s.callers && s.callers[0].Waiting? && s.clock < s.callers[0].deadline
      && s.log == [Granted(0, "k", 0, 10, 0), Granted(1, "k", 10, 20, 10)]
  {
    var s := Waiter("k", 1);
    actions := ReachWaiter("k", 1);
    var s1 := s.(clock := 10, wall := 10);
    var s2 := Step(s1, Enter(1, Some("k"), 10));
    actions := Extend(actions, s, Tick(9), s1);
    actions := Extend(actions, s1, Enter(1, Some("k"), 10), s2);
    actions := Extend(actions, s2, Reserve(1), Step(s2, Reserve(1)));
  }

  /** A wall clock set back during the wait leaves the key unexpired when the wait is over. */
  lemma SetBackOutlivesWait() returns (actions: seq<Action>)
    ensures var s := Run(Init(0, 0), actions); HeldPastWait(s, "k") && Busy(s.keys, "k", s.wall)
  {
    var s := Waiter("k", 0);
    actions := ReachWaiter("k", 0);
    var s1 := s.(wall := -5);
    var s2 := s.(clock := 10, wall := 5);
    var s3 := s2.(callers := map[0 := Leaving(TimedOut)]);
    actions := Extend(actions, s, SetWall(-5), s1);
    actions := Extend(actions, s1, Tick(10), s2);
    actions := Extend(actions, s2, GiveUp(0), s3);
    actions := Extend(actions, s3, Leave(0), s3.(callers := map[0 := Left(TimedOut)], pending := map[]));
  }
}
