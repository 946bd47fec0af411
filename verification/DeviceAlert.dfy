/** The timer job that tells the developers once when the scanner has been offline for half an hour, and once when it is
    back. Its state survives between runs; a message that fails to send leaves the state as it was. */
module DeviceAlert {
  import opened Basics

  const ALERT_AFTER: Time := 30 * MINUTE
  const HEALTH_STALE: Time := 300 * SECOND

  datatype Health = Health(updatedAt: Option<Time>, connected: bool)

  datatype AlertState = Clear | Offline(since: Time, alerted: bool)

  datatype Message = Alert | Recovery

  datatype Delivery = Sent | NotConfigured | SendFailed

  /** One run of the job: its clock, the health file if readable, and what becomes of a message if there is one. */
  datatype Run = Run(now: Time, health: Option<Health>, delivery: Delivery)

  predicate IsOnline(h: Option<Health>, now: Time) {
    h.Some? && h.value.updatedAt.Some? && now - h.value.updatedAt.value <= HEALTH_STALE && h.value.connected
  }

  function Decide(s: AlertState, online: bool, now: Time): (AlertState, Option<Message>) {
    if online then (Clear, if s.Offline? && s.alerted then Some(Recovery) else None)
    else if s.Clear? then (Offline(now, false), None)
    else if !s.alerted && now - s.since >= ALERT_AFTER then (Offline(s.since, true), Some(Alert))
    else (s, None)
  }

  /** The message a run finds due. */
  function Due(s: AlertState, r: Run): Option<Message> {
    Decide(s, IsOnline(r.health, r.now), r.now).1
  }

  function After(s: AlertState, r: Run): AlertState {
    if Due(s, r).Some? && r.delivery.SendFailed? then s else Decide(s, IsOnline(r.health, r.now), r.now).0
  }

  class AlertJob {
    var state: AlertState
    var outbox: seq<Message>

    constructor ()
      ensures state == Clear && outbox == []
    {
      state, outbox := Clear, [];
    }

    /** main: load, decide, send, save. */
    method RunOnce(r: Run) returns (exitCode: int)
      modifies this
      ensures state == After(old(state), r)
      ensures var due := Due(old(state), r);
        outbox == old(outbox) + if due.Some? && r.delivery.Sent? then [due.value] else []
      ensures exitCode == 1 <==> Due(old(state), r).Some? && r.delivery.SendFailed?
      ensures exitCode == 0 || exitCode == 1
      ensures var online := r.health.Some? && r.health.value.connected && r.health.value.updatedAt.Some?
                            && r.health.value.updatedAt.value >= r.now - 300 * SECOND;
        var long := old(state).Offline? && r.now - old(state).since >= 30 * MINUTE;
        var told := old(state).Offline? && old(state).alerted;
        var failed := r.delivery.SendFailed?;
        && state == (if online then (if told && failed then old(state) else Clear)
                     else if old(state).Clear? then Offline(r.now, false)
                     else if long && !told && !failed then Offline(old(state).since, true)
                     else old(state))
        && outbox == old(outbox) + (if !r.delivery.Sent? then []
                                    else if online && told then [Recovery]
                                    else if !online && long && !told then [Alert]
                                    else [])
        && (exitCode == 1 <==> failed && (if online then told else long && !told))
    {
      var online := IsOnline(r.health, r.now);
      var (newState, msg) := Decide(state, online, r.now);
      if msg.Some? {
        match r.delivery {
          case Sent => outbox := outbox + [msg.value];
          case NotConfigured =>
          case SendFailed => return 1;
        }
      }
      if newState != state { state := newState; }
      return 0;
    }
  }

  // ---- Histories ----

  function StateAfter(runs: seq<Run>): AlertState {
    if runs == [] then Clear else After(StateAfter(runs[..|runs| - 1]), runs[|runs| - 1])
  }

  /** The message run j finds due. */
  function DueAt(runs: seq<Run>, j: nat): Option<Message>
    requires j < |runs|
  {
    Due(StateAfter(runs[..j]), runs[j])
  }

  /** The messages that moved the state: sent, or dropped because sending is not configured. */
  function Settled(runs: seq<Run>): seq<Message> {
    if runs == [] then []
    else
      var last := |runs| - 1;
      Settled(runs[..last])
      + if DueAt(runs, last).Some? && !runs[last].delivery.SendFailed? then [DueAt(runs, last).value] else []
  }

  function Delivered(runs: seq<Run>): seq<Message> {
    if runs == [] then []
    else
      var last := |runs| - 1;
      Delivered(runs[..last])
      + if DueAt(runs, last).Some? && runs[last].delivery.Sent? then [DueAt(runs, last).value] else []
  }

  predicate Alternating(ms: seq<Message>) {
    forall i | 0 <= i < |ms| :: ms[i] == if i % 2 == 0 then Alert else Recovery
  }

  lemma {:induction false} SettledAlternates(runs: seq<Run>)
    ensures Alternating(Settled(runs))
    ensures |Settled(runs)| % 2 == (if StateAfter(runs).Offline? && StateAfter(runs).alerted then 1 else 0)
    decreases |runs|
  {
    if runs != [] { SettledAlternates(runs[..|runs| - 1]); }
  }

  lemma {:induction false} AllDelivered(runs: seq<Run>)
    requires forall i | 0 <= i < |runs| && DueAt(runs, i).Some? :: !runs[i].delivery.NotConfigured?
    ensures Delivered(runs) == Settled(runs)
    decreases |runs|
  {
    if runs != [] {
      var front := runs[..|runs| - 1];
      forall i | 0 <= i < |front|
        ensures DueAt(front, i) == DueAt(runs, i)
      {
        assert front[..i] == runs[..i];
      }
      AllDelivered(front);
    }
  }

  /** As long as sending is configured whenever something is due, what is sent is an alert, a recovery, an alert, and so
      on, however many sends fail on the way. */
  lemma {:induction false} AlertsAndRecoveriesAlternate(runs: seq<Run>)
    requires forall i | 0 <= i < |runs| && DueAt(runs, i).Some? :: !runs[i].delivery.NotConfigured?
    ensures Alternating(Delivered(runs))
  {
    AllDelivered(runs);
    SettledAlternates(runs);
  }

  predicate Sends(runs: seq<Run>, j: nat)
    requires j < |runs|
  {
    DueAt(runs, j).Some? && runs[j].delivery.Sent?
  }

  /** How many messages were due and dropped because sending was not configured. */
  function Dropped(runs: seq<Run>): nat {
    if runs == [] then 0
    else
      var last := |runs| - 1;
      Dropped(runs[..last]) + if DueAt(runs, last).Some? && runs[last].delivery.NotConfigured? then 1 else 0
  }

  lemma {:induction false} SettledAreSentOrDropped(runs: seq<Run>)
    ensures |Settled(runs)| == |Delivered(runs)| + Dropped(runs)
    decreases |runs|
  {
    if runs != [] { SettledAreSentOrDropped(runs[..|runs| - 1]); }
  }

  /** A message due is the one that keeps the settled messages alternating. */
  lemma DueByParity(runs: seq<Run>)
    requires runs != [] && DueAt(runs, |runs| - 1).Some?
    ensures var front := runs[..|runs| - 1];
      DueAt(runs, |runs| - 1) == Some(if |Settled(front)| % 2 == 0 then Alert else Recovery)
  {
    SettledAlternates(runs[..|runs| - 1]);
  }

  predicate SentAfterEvenDrops(runs: seq<Run>) {
    forall j | 0 <= j < |runs| && Sends(runs, j) :: Dropped(runs[..j]) % 2 == 0
  }

  lemma EvenDropsSnoc(runs: seq<Run>)
    requires runs != []
    ensures var last := |runs| - 1;
      SentAfterEvenDrops(runs) <==>
        SentAfterEvenDrops(runs[..last]) && (Sends(runs, last) ==> Dropped(runs[..last]) % 2 == 0)
  {
    var last := |runs| - 1;
    var front := runs[..last];
    forall j | 0 <= j < last
      ensures runs[..j] == front[..j] && (Sends(runs, j) <==> Sends(front, j))
    {
      assert runs[..j] == front[..j];
    }
  }

  lemma AlternatingSnoc(ms: seq<Message>, m: Message)
    ensures Alternating(ms + [m]) <==> Alternating(ms) && m == if |ms| % 2 == 0 then Alert else Recovery
  {
    assert (ms + [m])[|ms|] == m;
    forall i | 0 <= i < |ms|
      ensures (ms + [m])[i] == ms[i]
    {
    }
  }

  lemma SameParityIff(sent: nat, dropped: nat)
    ensures (sent + dropped) % 2 == sent % 2 <==> dropped % 2 == 0
  {
  }

  /** Exactly when what is sent is an alert, a recovery, an alert, and so on: when every message sent has an even number
      of dropped ones before it. */
  lemma {:induction false} AlternatesIff(runs: seq<Run>)
    ensures Alternating(Delivered(runs)) <==> SentAfterEvenDrops(runs)
    decreases |runs|
  {
    if runs != [] {
      var last := |runs| - 1;
      AlternatesIff(runs[..last]);
      EvenDropsSnoc(runs);
      if Sends(runs, last) {
        DueByParity(runs);
        SettledAreSentOrDropped(runs[..last]);
        AlternatingSnoc(Delivered(runs[..last]), DueAt(runs, last).value);
        SameParityIff(|Delivered(runs[..last])|, Dropped(runs[..last]));
      } else {
        assert Delivered(runs) == Delivered(runs[..last]);
      }
    }
  }

  predicate OfflineDuring(runs: seq<Run>, i: nat, j: nat) {
    j <= |runs| && forall k | i <= k < j :: !IsOnline(runs[k].health, runs[k].now)
  }

  /** The state's outage began at run i: a first run without a state, then offline throughout while no alert is out. */
  predicate Began(runs: seq<Run>, i: nat, s: AlertState) {
    s.Offline? && i < |runs| && runs[i].now == s.since && StateAfter(runs[..i]).Clear?
    && (!s.alerted ==> OfflineDuring(runs, i, |runs|))
  }

  lemma {:induction false} OutageBegan(runs: seq<Run>)
    requires StateAfter(runs).Offline?
    ensures exists i: nat :: Began(runs, i, StateAfter(runs))
    decreases |runs|
  {
    var last := |runs| - 1;
    var front := runs[..last];
    var before := StateAfter(front);
    if before.Clear? {
      assert Began(runs, last, StateAfter(runs));
    } else {
      OutageBegan(front);
      var i: nat :| Began(front, i, before);
      assert front[..i] == runs[..i];
      assert Began(runs, i, StateAfter(runs));
    }
  }

  /** An alert falls due only in an outage of at least half an hour: every run since some run that long ago found the
      scanner offline. */
  lemma AlertMeansLongOutage(runs: seq<Run>, j: nat)
    requires j < |runs| && DueAt(runs, j) == Some(Alert)
    ensures exists i: nat :: i < j && OfflineDuring(runs, i, j + 1) && runs[j].now - runs[i].now >= ALERT_AFTER
  {
    OutageBegan(runs[..j]);
    var i: nat :| Began(runs[..j], i, StateAfter(runs[..j]));
    assert runs[..j][i] == runs[i];
    assert OfflineDuring(runs, i, j + 1) by {
      forall k | i <= k < j + 1
        ensures !IsOnline(runs[k].health, runs[k].now)
      {
        if k < j { assert runs[..j][k] == runs[k]; }
      }
    }
  }

  /** From a clear state, an outage that reaches half an hour finds the alert due at every run until it has been passed
      on; a failed send only postpones it. */
  lemma {:induction false} LongOutageIsAlerted(runs: seq<Run>, i: nat, j: nat)
    requires i < j < |runs| && StateAfter(runs[..i]).Clear? && OfflineDuring(runs, i, j + 1)
    requires forall k | i < k < j && DueAt(runs, k).Some? :: runs[k].delivery.SendFailed?
    ensures StateAfter(runs[..j]) == Offline(runs[i].now, false)
    ensures DueAt(runs, j) == (if runs[j].now - runs[i].now >= ALERT_AFTER then Some(Alert) else None)
    decreases j
  {
    assert runs[..j][..j - 1] == runs[..j - 1];
    if j > i + 1 { LongOutageIsAlerted(runs, i, j - 1); }
  }

  /** An alert that is out stays out, and nothing more is due, for as long as the scanner is offline. */
  lemma {:induction false} AlertedStays(runs: seq<Run>, i: nat, j: nat)
    requires i <= j < |runs| && OfflineDuring(runs, i, j + 1)
    requires StateAfter(runs[..i]).Offline? && StateAfter(runs[..i]).alerted
    ensures StateAfter(runs[..j]) == StateAfter(runs[..i]) && DueAt(runs, j).None?
    decreases j
  {
    if j > i {
      AlertedStays(runs, i, j - 1);
      assert runs[..j][..j - 1] == runs[..j - 1];
    }
  }

  /** Exactly which long outages are announced. An outage begins at run i, the first run or one after the scanner was
      online; when it has reached half an hour and nothing has been passed on since it began, the alert is due unless
      the run before the outage failed to send the recovery from the one before. */
  lemma LongOutageIsAnnouncedIff(runs: seq<Run>, i: nat, j: nat)
    requires i < j < |runs| && OfflineDuring(runs, i, j + 1) && runs[j].now - runs[i].now >= ALERT_AFTER
    requires i == 0 || IsOnline(runs[i - 1].health, runs[i - 1].now)
    requires forall k | i < k < j && DueAt(runs, k).Some? :: runs[k].delivery.SendFailed?
    ensures DueAt(runs, j) == Some(Alert) <==>
      !(i > 0 && DueAt(runs, i - 1).Some? && runs[i - 1].delivery.SendFailed?)
  {
    if i > 0 { assert runs[..i][..i - 1] == runs[..i - 1]; }
    if StateAfter(runs[..i]).Clear? {
      LongOutageIsAlerted(runs, i, j);
    } else {
      AlertedStays(runs, i, j);
    }
  }

  lemma Extend(runs: seq<Run>, r: Run, s: AlertState, out: seq<Message>) returns (all: seq<Run>)
    requires StateAfter(runs) == s && Delivered(runs) == out
    ensures all == runs + [r] && StateAfter(all) == After(s, r) && DueAt(all, |runs|) == Due(s, r)
    ensures Delivered(all) == out + (if Due(s, r).Some? && r.delivery.Sent? then [Due(s, r).value] else [])
  {
    all := runs + [r];
    assert all[..|runs|] == runs;
  }

  /** A message dropped for want of configuration still moves the state: configured in mid-outage, the first thing sent
      is a recovery. */
  lemma RecoveryWithoutAlert() returns (runs: seq<Run>)
    ensures Delivered(runs) == [Recovery]
  {
    runs := Extend([], Run(0, None, NotConfigured), Clear, []);
    runs := Extend(runs, Run(ALERT_AFTER, None, NotConfigured), Offline(0, false), []);
    runs := Extend(runs, Run(2 * ALERT_AFTER, Some(Health(Some(2 * ALERT_AFTER), true)), Sent), Offline(0, true), []);
  }

  /** A failed recovery message joins two outages: the second one, however long, is never announced. */
  lemma FailedRecoveryHidesNextOutage() returns (runs: seq<Run>)
    ensures Delivered(runs) == [Alert] && |runs| == 5
    ensures IsOnline(runs[2].health, runs[2].now) && OfflineDuring(runs, 3, 5)
    ensures runs[4].now - runs[3].now >= ALERT_AFTER && DueAt(runs, 4).None?
  {
    var r0, r1 := Run(0, None, Sent), Run(ALERT_AFTER, None, Sent);
    var r2 := Run(2 * ALERT_AFTER, Some(Health(Some(2 * ALERT_AFTER), true)), SendFailed);
    var r3, r4 := Run(3 * ALERT_AFTER, None, Sent), Run(4 * ALERT_AFTER, None, Sent);
    runs := Extend([], r0, Clear, []);
    runs := Extend(runs, r1, Offline(0, false), []);
    runs := Extend(runs, r2, Offline(0, true), [Alert]);
    runs := Extend(runs, r3, Offline(0, true), [Alert]);
    runs := Extend(runs, r4, Offline(0, true), [Alert]);
  }
}
