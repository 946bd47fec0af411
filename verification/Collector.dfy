/** The collector's state engine: one thread, one handler per state. What the terminal, the database and the operator do
    during a handler is its input. */
module Collector {
  import opened Basics

  datatype Phase =
    | Starting | Connecting | Backfilling | Live | Degraded | FingerprintEnrolling | Backoff | Stopping | Stopped

  /** A queued re-enrollment, with the connection generation whose roster it was checked against. */
  datatype Pending = Pending(user: string, generation: nat)

  /** A call of enroll_user that the terminal saw through. */
  datatype Enrolled = Enrolled(request: Pending, epoch: nat)

  /** `connection` is the generation the open connection belongs to; `backfilled` that of the last completed backfill.
      */
  datatype Engine = Engine(phase: Phase, connection: Option<nat>, generation: nat, pending: Option<Pending>,
                           attempts: nat, stop: bool, backfilled: Option<nat>, enrolled: seq<Enrolled>)

  function Init(): Engine {
    Engine(Starting, None, 0, None, 0, false, None, [])
  }

  /** One value yielded by live_capture: what the loop finds at the safe point, and the scan if it is one. */
  datatype Yield = Yield(stop: bool, reenroll: Option<string>, stable: bool, scan: Option<Scan>)

  datatype Scan = Scan(stored: bool, published: bool)

  /** The stop event can be seen between two chunks of a backfill, which then ends early without an error. */
  datatype Reconciled = Completed | CutShort | Failed

  datatype Input =
    | StopRequested
    | Connect(ok: bool)
    | Backfill(result: Reconciled)
    | Capture(values: seq<Yield>, raises: bool)
    | Enroll(raises: bool)
    | Wait(interrupted: bool)
    | Proceed                     // the handlers without a choice

  // ---- Handlers ----

  /** cleanup_connection. */
  function Cleaned(s: Engine): Engine {
    s.(generation := s.generation + 1, connection := None)
  }

  function Connected(s: Engine, ok: bool): Engine {
    if s.stop then s.(phase := Stopping)
    else if ok then Cleaned(s).(connection := Some(s.generation + 1), phase := Backfilling)
    else Cleaned(s).(phase := Backoff)
  }

  function AfterBackfill(s: Engine, result: Reconciled): Engine {
    if s.stop then s.(phase := Stopping)
    else if s.connection.None? || result.Failed? then s.(phase := Backoff)
    else if result.CutShort? then s.(phase := Live, stop := true)
    else s.(phase := Live, backfilled := s.connection)
  }

  /** One turn of the capture loop, and whether it returns from the handler. */
  function AfterYield(s: Engine, y: Yield): (Engine, bool) {
    if y.stop then (s.(stop := true, phase := Stopping), true)
    else
      var t := s.(pending := if y.reenroll.Some? then Some(Pending(y.reenroll.value, s.generation)) else s.pending,
                  attempts := if y.stable then 0 else s.attempts);
      if y.scan.None? then (t, false)
      else if !y.scan.value.stored then (t.(phase := Backoff), true)
      else if y.scan.value.published then (t.(phase := if t.phase.Degraded? then Live else t.phase), false)
      else (t.(phase := if t.phase.Live? then Degraded else t.phase), false)
  }

  function Captured(s: Engine, values: seq<Yield>, raises: bool): Engine
    decreases |values|
  {
    if values == [] then
      if raises then s.(phase := if s.stop then Stopping else Backoff)
      else if s.pending.Some? then s.(phase := FingerprintEnrolling)
      else s
    else
      var (t, returned) := AfterYield(s, values[0]);
      if returned then t else Captured(t, values[1..], raises)
  }

  function AfterLive(s: Engine, values: seq<Yield>, raises: bool): Engine {
    if s.stop then s.(phase := Stopping) else Captured(s, values, raises)
  }

  function AfterEnrolling(s: Engine, raises: bool): Engine {
    if s.stop then s.(phase := Stopping)
    else if s.pending.None? || s.connection.None? then s.(pending := None, phase := Live)
    else if raises then s.(pending := None, phase := Backoff)
    else s.(pending := None, phase := Live, enrolled := s.enrolled + [Enrolled(s.pending.value, s.connection.value)])
  }

  function AfterBackoff(s: Engine, interrupted: bool): Engine {
    var t := Cleaned(s);
    if s.stop || interrupted then t.(stop := true, phase := Stopping)
    else t.(phase := Connecting, attempts := s.attempts + 1)
  }

  /** run's dispatch on the state; inputs that do not fit the state do nothing. */
  function Step(s: Engine, i: Input): Engine {
    if i.StopRequested? then s.(stop := true)
    else match s.phase
      case Starting => if i.Proceed? then s.(phase := Connecting) else s
      case Connecting => if i.Connect? then Connected(s, i.ok) else s
      case Backfilling => if i.Backfill? then AfterBackfill(s, i.result) else s
      case Live => if i.Capture? then AfterLive(s, i.values, i.raises) else s
      case Degraded => if i.Capture? then AfterLive(s, i.values, i.raises) else s
      case FingerprintEnrolling => if i.Enroll? then AfterEnrolling(s, i.raises) else s
      case Backoff => if i.Wait? then AfterBackoff(s, i.interrupted) else s
      case Stopping => if i.Proceed? then Cleaned(s).(phase := Stopped) else s
      case Stopped => s
  }

  class CollectorStateEngine {
    var phase: Phase
    var connection: Option<nat>
    var generation: nat
    var pending: Option<Pending>
    var attempts: nat
    var stop: bool
    ghost var backfilled: Option<nat>
    ghost var enrolled: seq<Enrolled>

    ghost function State(): Engine
      reads this
    {
      Engine(phase, connection, generation, pending, attempts, stop, backfilled, enrolled)
    }

    constructor ()
      ensures State() == Init()
    {
      phase, connection, generation, pending, attempts, stop := Starting, None, 0, None, 0, false;
      backfilled, enrolled := None, [];
    }

    method CleanupConnection()
      modifies this
      ensures State() == Cleaned(old(State()))
    {
      generation := generation + 1;
      if connection.Some? { connection := None; }
    }

    /** One turn of run's loop: the handler of the current state. */
    method Turn(i: Input)
      modifies this
      ensures State() == Step(old(State()), i)
    {
      if i.StopRequested? { stop := true; }
      else if phase.Starting? { if i.Proceed? { phase := Connecting; } }
      else if phase.Connecting? { if i.Connect? { HandleConnecting(i.ok); } }
      else if phase.Backfilling? { if i.Backfill? { HandleBackfilling(i.result); } }
      else if phase.Live? || phase.Degraded? { if i.Capture? { HandleLive(i.values, i.raises); } }
      else if phase.FingerprintEnrolling? { if i.Enroll? { HandleFingerprintEnrolling(i.raises); } }
      else if phase.Backoff? { if i.Wait? { HandleBackoff(i.interrupted); } }
      else if phase.Stopping? { if i.Proceed? { HandleStopping(); } }
    }

    method HandleStopping()
      modifies this
      ensures State() == Cleaned(old(State())).(phase := Stopped)
      ensures phase.Stopped? && connection == None && generation == old(generation) + 1
      ensures stop == old(stop) && pending == old(pending)
    {
      CleanupConnection();
      phase := Stopped;
    }

    method HandleBackfilling(result: Reconciled)
      modifies this
      ensures State() == AfterBackfill(old(State()), result)
      ensures old(stop) ==> State() == old(State()).(phase := Stopping)
      ensures !old(stop) ==>
        && (phase.Live? <==> connection.Some? && !result.Failed?) && (phase.Live? || phase.Backoff?)
        && stop == (phase.Live? && result.CutShort?)
        && backfilled == (if phase.Live? && result.Completed? then connection else old(backfilled))
      ensures State() == old(State()).(phase := phase, stop := stop, backfilled := backfilled)
    {
      if stop {
        phase := Stopping;
        return;
      }
      if connection.None? || result.Failed? {
        phase := Backoff;
        return;
      }
      if result.CutShort? { stop := true; } else { backfilled := connection; }
      phase := Live;
    }

    method HandleConnecting(ok: bool)
      modifies this
      ensures State() == Connected(old(State()), ok)
      ensures old(stop) ==> State() == old(State()).(phase := Stopping)
      ensures !old(stop) ==>
        State() == old(State()).(generation := old(generation) + 1,
                                 phase := if ok then Backfilling else Backoff,
                                 connection := if ok then Some(old(generation) + 1) else None)
    {
      if stop {
        phase := Stopping;
        return;
      }
      CleanupConnection();
      if ok {
        connection := Some(generation);
        phase := Backfilling;
      } else {
        phase := Backoff;
      }
    }

    /** The capture loop over what the generator yields before it ends or raises. */
    method HandleLive(values: seq<Yield>, raises: bool)
      modifies this
      ensures State() == AfterLive(old(State()), values, raises)
    {
      if stop {
        phase := Stopping;
        return;
      }
      var i := 0;
      while i < |values|
        invariant i <= |values|
        invariant Captured(old(State()), values, raises) == Captured(State(), values[i..], raises)
      {
        var y := values[i];
        assert values[i..][0] == y && values[i..][1..] == values[i + 1..];
        if y.stop {
          stop, phase := true, Stopping;
          return;
        }
        if y.reenroll.Some? { pending := Some(Pending(y.reenroll.value, generation)); }
        if y.stable { attempts := 0; }
        if y.scan.Some? {
          if !y.scan.value.stored {
            phase := Backoff;
            return;
          }
          if y.scan.value.published {
            if phase.Degraded? { phase := Live; }
          } else {
            if phase.Live? { phase := Degraded; }
          }
        }
        i := i + 1;
      }
      if raises {
        phase := if stop then Stopping else Backoff;
      } else if pending.Some? {
        phase := FingerprintEnrolling;
      }
    }

    method HandleFingerprintEnrolling(raises: bool)
      modifies this
      ensures State() == AfterEnrolling(old(State()), raises)
      ensures old(stop) ==> State() == old(State()).(phase := Stopping)
      ensures var ready := old(pending).Some? && connection.Some?;
        !old(stop) ==>
        State() == old(State()).(pending := None, phase := if ready && raises then Backoff else Live,
          enrolled := old(enrolled) + if ready && !raises then [Enrolled(old(pending).value, connection.value)] else [])
    {
      if stop {
        phase := Stopping;
        return;
      }
      var req := pending;
      pending := None;
      if req.None? || connection.None? {
        phase := Live;
        return;
      }
      if raises {
        phase := Backoff;
        return;
      }
      enrolled := enrolled + [Enrolled(req.value, connection.value)];
      phase := Live;
    }

    method HandleBackoff(interrupted: bool)
      modifies this
      ensures State() == AfterBackoff(old(State()), interrupted)
      ensures var stops := old(stop) || interrupted;
        State() == old(State()).(generation := old(generation) + 1, connection := None, stop := stops,
          phase := if stops then Stopping else Connecting, attempts := old(attempts) + if stops then 0 else 1)
    {
      CleanupConnection();
      if stop {
        phase := Stopping;
        return;
      }
      if interrupted {
        stop, phase := true, Stopping;
      } else {
        attempts := attempts + 1;
        phase := Connecting;
      }
    }
  }

  // ---- Runs ----

  function Run(inputs: seq<Input>): Engine {
    if inputs == [] then Init() else Step(Run(inputs[..|inputs| - 1]), inputs[|inputs| - 1])
  }

  predicate Capturing(p: Phase) {
    p.Live? || p.Degraded? || p.FingerprintEnrolling?
  }

  predicate Inv(s: Engine) {
    && (s.connection.Some? ==> s.connection.value == s.generation)
    && (s.phase.Backfilling? || Capturing(s.phase) ==> s.connection.Some?)
    && (Capturing(s.phase) ==> s.backfilled == Some(s.generation) || s.stop)
    && (s.phase.FingerprintEnrolling? ==> s.pending.Some?)
    && (s.phase.Stopped? ==> s.connection.None?)
    && (s.pending.Some? ==> s.pending.value.generation <= s.generation)
    && (s.backfilled.Some? ==> s.backfilled.value <= s.generation)
    && (forall i | 0 <= i < |s.enrolled| :: s.enrolled[i].request.generation <= s.enrolled[i].epoch <= s.generation)
  }

  lemma {:induction false} CapturedKeepsInv(s: Engine, values: seq<Yield>, raises: bool)
    requires Inv(s) && (s.phase.Live? || s.phase.Degraded?)
    ensures Inv(Captured(s, values, raises))
    decreases |values|
  {
    if values != [] && !AfterYield(s, values[0]).1 {
      CapturedKeepsInv(AfterYield(s, values[0]).0, values[1..], raises);
    }
  }

  predicate CapturesIn(s: Engine, i: Input) {
    (s.phase.Live? || s.phase.Degraded?) && i.Capture? && !s.stop
  }

  lemma EnrollingKeepsInv(s: Engine, raises: bool)
    requires Inv(s) && s.phase.FingerprintEnrolling?
    ensures Inv(AfterEnrolling(s, raises))
  {
  }

  lemma ConnectingKeepsInv(s: Engine, ok: bool)
    requires Inv(s) && s.phase.Connecting?
    ensures Inv(Connected(s, ok))
  {
  }

  lemma BackfillingKeepsInv(s: Engine, result: Reconciled)
    requires Inv(s) && s.phase.Backfilling?
    ensures Inv(AfterBackfill(s, result))
  {
  }

  lemma BackoffKeepsInv(s: Engine, interrupted: bool)
    requires Inv(s) && s.phase.Backoff?
    ensures Inv(AfterBackoff(s, interrupted))
  {
  }

  /** All handlers but a capture that gets going. */
  lemma HandlerKeepsInv(s: Engine, i: Input)
    requires Inv(s) && !CapturesIn(s, i)
    ensures Inv(Step(s, i))
  {
    if s.phase.Connecting? && i.Connect? { ConnectingKeepsInv(s, i.ok); }
    else if s.phase.Backfilling? && i.Backfill? { BackfillingKeepsInv(s, i.result); }
    else if s.phase.FingerprintEnrolling? && i.Enroll? { EnrollingKeepsInv(s, i.raises); }
    else if s.phase.Backoff? && i.Wait? { BackoffKeepsInv(s, i.interrupted); }
  }

  lemma StepKeepsInv(s: Engine, i: Input)
    requires Inv(s)
    ensures Inv(Step(s, i))
  {
    if CapturesIn(s, i) { CapturedKeepsInv(s, i.values, i.raises); } else { HandlerKeepsInv(s, i); }
  }

  lemma {:induction false} RunKeepsInv(inputs: seq<Input>)
    ensures Inv(Run(inputs))
    decreases |inputs|
  {
    if inputs != [] {
      RunKeepsInv(inputs[..|inputs| - 1]);
      StepKeepsInv(Run(inputs[..|inputs| - 1]), inputs[|inputs| - 1]);
    }
  }

  /** The handler gets past its look at the stop event and on to capturing or enrolling. */
  predicate Works(s: Engine, i: Input) {
    CapturesIn(s, i) || (s.phase.FingerprintEnrolling? && i.Enroll? && !s.stop)
  }

  /** Whenever the engine captures or enrolls, it does so on the connection of the current generation, and a backfill
      has been completed on that very connection first. */
  lemma CaptureFollowsBackfill(inputs: seq<Input>, i: Input)
    requires Works(Run(inputs), i)
    ensures var s := Run(inputs); s.connection == Some(s.generation) && s.backfilled == s.connection
  {
    RunKeepsInv(inputs);
  }

  lemma {:induction false} StopIsFinal(inputs: seq<Input>, more: seq<Input>)
    requires Run(inputs).stop
    ensures Run(inputs + more).stop
    decreases |more|
  {
    if more == [] {
      assert inputs + more == inputs;
    } else {
      var n := |more| - 1;
      StopIsFinal(inputs, more[..n]);
      assert (inputs + more)[..|inputs| + n] == inputs + more[..n];
    }
  }

  /** A backfill that the stop event cuts short still leads to LIVE, but nothing is captured or enrolled from
      then on. */
  lemma CutShortCapturesNothing(inputs: seq<Input>, more: seq<Input>, i: Input)
    requires Run(inputs).phase.Backfilling? && !Run(inputs).stop
    ensures Run(inputs + [Backfill(CutShort)]).phase.Live?
    ensures var t := Run(inputs + [Backfill(CutShort)] + more);
      && !Works(t, i) && Step(t, i).enrolled == t.enrolled
      && (Capturing(t.phase) ==> Step(t, i) == t || Step(t, i) == t.(phase := Stopping))
  {
    RunKeepsInv(inputs);
    var cut := inputs + [Backfill(CutShort)];
    assert cut[..|inputs|] == inputs;
    StopIsFinal(cut, more);
  }

  /** The guard against entering the enrolling state without a request or a connection never fires. */
  lemma EnrollingHasRequest(inputs: seq<Input>, raises: bool)
    requires Run(inputs).phase.FingerprintEnrolling? && !Run(inputs).stop
    ensures AfterEnrolling(Run(inputs), raises).phase.Backoff? <==> raises
    ensures |AfterEnrolling(Run(inputs), raises).enrolled| == |Run(inputs).enrolled| + (if raises then 0 else 1)
  {
    RunKeepsInv(inputs);
  }

  /** Whether the last scan yielded was published; `before` if there was none. */
  function LastPublished(values: seq<Yield>, before: bool): bool
    decreases |values|
  {
    if values == [] then before
    else LastPublished(values[1..], if values[0].scan.Some? then values[0].scan.value.published else before)
  }

  predicate AllStored(values: seq<Yield>) {
    forall y | y in values :: !y.stop && (y.scan.Some? ==> y.scan.value.stored)
  }

  /** Capture that runs on is DEGRADED exactly while the last scan could not be published; and it goes to enroll exactly
      if some request is pending when the generator ends. */
  lemma {:induction false} DegradedIffLastUnpublished(s: Engine, values: seq<Yield>)
    requires (s.phase.Live? || s.phase.Degraded?) && AllStored(values)
    ensures var t := Captured(s, values, false);
      && (t.phase.FingerprintEnrolling? <==> s.pending.Some? || exists y :: y in values && y.reenroll.Some?)
      && (!t.phase.FingerprintEnrolling? ==>
           t.phase == if LastPublished(values, s.phase.Live?) then Live else Degraded)
    decreases |values|
  {
    if values != [] {
      var t := AfterYield(s, values[0]).0;
      assert values == [values[0]] + values[1..];
      DegradedIffLastUnpublished(t, values[1..]);
    }
  }

  /** The request queued last. */
  function LastRequest(values: seq<Yield>, before: Option<string>): Option<string>
    decreases |values|
  {
    if values == [] then before
    else LastRequest(values[1..], if values[0].reenroll.Some? then values[0].reenroll else before)
  }

  /** What a capture that stores everything leaves besides its phase: the request queued last, under this generation, or
      the one that was waiting; and the count of attempts, reset exactly if the connection was once found stable. */
  lemma {:induction false} CaptureLeaves(s: Engine, values: seq<Yield>, raises: bool)
    requires (s.phase.Live? || s.phase.Degraded?) && AllStored(values)
    ensures var t, last := Captured(s, values, raises), LastRequest(values, None);
      && t == s.(phase := t.phase, pending := t.pending, attempts := t.attempts)
      && t.pending == (if last.Some? then Some(Pending(last.value, s.generation)) else s.pending)
      && t.attempts == (if exists y :: y in values && y.stable then 0 else s.attempts)
    decreases |values|
  {
    if values != [] {
      var t := AfterYield(s, values[0]).0;
      assert values == [values[0]] + values[1..];
      CaptureLeaves(t, values[1..], raises);
      LastRequestFrom(values[1..], values[0].reenroll);
    }
  }

  lemma {:induction false} LastRequestFrom(values: seq<Yield>, before: Option<string>)
    ensures LastRequest(values, before) == if LastRequest(values, None).Some? then LastRequest(values, None) else before
    decreases |values|
  {
    if values != [] {
      LastRequestFrom(values[1..], if values[0].reenroll.Some? then values[0].reenroll else before);
      LastRequestFrom(values[1..], values[0].reenroll);
    }
  }

  /** A scan that could not be stored ends the capture at once, whatever else the generator would yield. */
  lemma {:induction false} UnstoredScanEndsCapture(s: Engine, before: seq<Yield>, y: Yield, rest: seq<Yield>,
                                                   raises: bool)
    requires (s.phase.Live? || s.phase.Degraded?) && AllStored(before)
    requires !y.stop && y.scan.Some? && !y.scan.value.stored
    ensures Captured(s, before + [y] + rest, raises).phase.Backoff?
    decreases |before|
  {
    var all := before + [y] + rest;
    if before == [] {
      assert all[0] == y;
    } else {
      assert all[0] == before[0] && all[1..] == before[1..] + [y] + rest;
      assert before[0] in before;
      UnstoredScanEndsCapture(AfterYield(s, before[0]).0, before[1..], y, rest, raises);
    }
  }

  /** Exactly when a capture ends in BACKOFF: its generator raised, or some scan could not be stored, whatever came
      first having been stored without a stop. */
  lemma {:induction false} CaptureFailsIff(s: Engine, values: seq<Yield>, raises: bool)
    requires (s.phase.Live? || s.phase.Degraded?) && !s.stop
    ensures Captured(s, values, raises).phase.Backoff? <==>
      || (raises && AllStored(values))
      || (exists k :: 0 <= k < |values| && AllStored(values[..k]) && Unstored(values[k]))
    decreases |values|
  {
    if values != [] {
      var y, t := values[0], AfterYield(s, values[0]).0;
      var rest := values[1..];
      assert values == [y] + rest;
      if Unstored(y) {
        assert AllStored(values[..0]) && Unstored(values[0]);
      } else if !y.stop {
        CaptureFailsIff(t, rest, raises);
        forall k | 0 <= k < |rest|
          ensures AllStored(values[..k + 1]) <==> AllStored(rest[..k])
        {
          assert values[..k + 1] == [y] + rest[..k];
        }
        if k :| 0 <= k < |values| && AllStored(values[..k]) && Unstored(values[k]) {
          assert AllStored(rest[..k - 1]) && Unstored(rest[k - 1]);
        }
        if k :| 0 <= k < |rest| && AllStored(rest[..k]) && Unstored(rest[k]) {
          assert AllStored(values[..k + 1]) && Unstored(values[k + 1]);
        }
      } else {
        forall k | 0 < k < |values|
          ensures !AllStored(values[..k])
        {
          assert y in values[..k];
        }
      }
    }
  }

  predicate Unstored(y: Yield) {
    !y.stop && y.scan.Some? && !y.scan.value.stored
  }

  /** A capture that goes on to enroll takes a request checked on its own connection exactly if one was queued during
      it, or was waiting from this connection already. */
  lemma {:induction false} EnrollsOwnRequestIff(s: Engine, values: seq<Yield>)
    requires Inv(s) && (s.phase.Live? || s.phase.Degraded?) && Captured(s, values, false).phase.FingerprintEnrolling?
    ensures var t := Captured(s, values, false);
      && t.generation == s.generation && t.pending.Some?
      && (t.pending.value.generation == s.generation <==>
           || (exists y :: y in values && y.reenroll.Some?)
           || (s.pending.Some? && s.pending.value.generation == s.generation))
    decreases |values|
  {
    if values != [] {
      assert values == [values[0]] + values[1..];
      EnrollsOwnRequestIff(AfterYield(s, values[0]).0, values[1..]);
    }
  }

  // ---- Stale requests ----

  /** A capture on a live connection that ended in BACKOFF and left its request waiting. */
  predicate LeftBehind(inputs: seq<Input>, j: nat) {
    && j < |inputs| && CapturesIn(Run(inputs[..j]), inputs[j])
    && Run(inputs[..j + 1]).phase.Backoff? && Run(inputs[..j + 1]).pending.Some?
  }

  predicate Ending(p: Phase) {
    p.Stopping? || p.Stopped?
  }

  /** Where a waiting request comes from: this connection, or a capture that left it behind. */
  predicate Traced(inputs: seq<Input>) {
    var s := Run(inputs);
    s.pending.Some? ==>
      || Ending(s.phase) || (Capturing(s.phase) && s.pending.value.generation == s.generation)
      || exists j: nat :: j < |inputs| && LeftBehind(inputs, j) && Run(inputs[..j + 1]).pending == s.pending
  }

  lemma {:induction false} CapturedPending(s: Engine, values: seq<Yield>, raises: bool)
    requires s.phase.Live? || s.phase.Degraded?
    ensures var t := Captured(s, values, raises);
      && t.generation == s.generation && (Capturing(t.phase) || t.phase.Backoff? || t.phase.Stopping?)
      && (t.pending == s.pending || (t.pending.Some? && t.pending.value.generation == s.generation))
    decreases |values|
  {
    if values != [] && !AfterYield(s, values[0]).1 { CapturedPending(AfterYield(s, values[0]).0, values[1..], raises); }
  }

  /** A handler that is no capture neither queues a request nor turns an old one into a current one. */
  lemma HandlerPending(s: Engine, i: Input)
    requires !CapturesIn(s, i)
    ensures var t := Step(s, i);
      && (t.pending == s.pending || t.pending.None?)
      && (Capturing(t.phase) && t.pending.Some? ==>
           (Capturing(s.phase) || s.phase.Backfilling?) && t.generation == s.generation)
      && (Capturing(s.phase) && t.pending.Some? ==>
           (Capturing(t.phase) && t.generation == s.generation) || Ending(t.phase))
      && (Ending(s.phase) ==> Ending(t.phase))
  {
  }

  lemma {:induction false} RequestsAreTraced(inputs: seq<Input>)
    ensures Traced(inputs)
    decreases |inputs|
  {
    if inputs != [] {
      var n := |inputs| - 1;
      var front, i := inputs[..n], inputs[n];
      var s, t := Run(front), Run(inputs);
      RequestsAreTraced(front);
      forall j: nat | j < n && LeftBehind(front, j)
        ensures LeftBehind(inputs, j) && front[..j + 1] == inputs[..j + 1]
      {
        assert front[..j] == inputs[..j] && front[..j + 1] == inputs[..j + 1];
      }
      assert inputs[..n + 1] == inputs;
      if CapturesIn(s, i) {
        CapturedPending(s, i.values, i.raises);
        assert t.phase.Backoff? && t.pending.Some? ==> LeftBehind(inputs, n);
      } else {
        HandlerPending(s, i);
      }
    }
  }

  /** Once a connection has failed, whatever is captured again is captured under a later generation. */
  lemma {:induction false} LaterGeneration(inputs: seq<Input>, j: nat)
    requires j <= |inputs| && Run(inputs[..j]).phase.Backoff?
    ensures var s, t := Run(inputs[..j]), Run(inputs);
      t.generation > s.generation || (t.generation == s.generation && t.phase.Backoff?)
    decreases |inputs|
  {
    var n := |inputs| - 1;
    if j < |inputs| {
      assert inputs[..n][..j] == inputs[..j];
      LaterGeneration(inputs[..n], j);
      var s := Run(inputs[..n]);
      if CapturesIn(s, inputs[n]) { CapturedPending(s, inputs[n].values, inputs[n].raises); }
    } else {
      assert inputs[..j] == inputs;
    }
  }

  /** In every run, the request about to be carried out was checked on another connection exactly if it is one that an
      earlier capture left behind when it ended in BACKOFF. */
  lemma StaleRequestIff(inputs: seq<Input>)
    requires Run(inputs).phase.FingerprintEnrolling?
    ensures var s := Run(inputs);
      && s.pending.Some? && s.connection == Some(s.generation)
      && (s.pending.value.generation != s.generation <==>
           exists j: nat :: j < |inputs| && LeftBehind(inputs, j) && Run(inputs[..j + 1]).pending == s.pending)
  {
    RunKeepsInv(inputs);
    RequestsAreTraced(inputs);
    forall j: nat | j < |inputs| && LeftBehind(inputs, j) && Run(inputs[..j + 1]).pending == Run(inputs).pending
      ensures Run(inputs).pending.value.generation < Run(inputs).generation
    {
      RunKeepsInv(inputs[..j + 1]);
      LaterGeneration(inputs, j + 1);
    }
  }

  lemma Extend(inputs: seq<Input>, s: Engine, i: Input, t: Engine) returns (all: seq<Input>)
    requires Run(inputs) == s && Step(s, i) == t
    ensures Run(all) == t
  {
    all := inputs + [i];
    assert all[..|inputs|] == inputs;
  }

  /** A queued re-enrollment outlives its connection: one checked against the roster of a connection that then failed is
      carried out on the next connection. */
  lemma RequestSurvivesReconnect() returns (inputs: seq<Input>)
    ensures var s := Run(inputs); |s.enrolled| == 1 && s.enrolled[0].request.generation < s.enrolled[0].epoch
  {
    var ask := Yield(false, Some("7"), false, None);
    var s0 := Init().(phase := Connecting);
    var s1 := s0.(phase := Backfilling, generation := 1, connection := Some(1));
    var s2 := s1.(phase := Live, backfilled := Some(1));
    var s3 := s2.(phase := Backoff, pending := Some(Pending("7", 1)));
    var s4 := s3.(phase := Connecting, generation := 2, connection := None, attempts := 1);
    var s5 := s4.(phase := Backfilling, generation := 3, connection := Some(3));
    var s6 := s5.(phase := Live, backfilled := Some(3));
    var s7 := s6.(phase := FingerprintEnrolling);
    assert Captured(s2, [ask], true) == s3 by { assert [ask][1..] == []; }
    inputs := Extend([], Init(), Proceed, s0);
    inputs := Extend(inputs, s0, Connect(true), s1);
    inputs := Extend(inputs, s1, Backfill(Completed), s2);
    inputs := Extend(inputs, s2, Capture([ask], true), s3);
    inputs := Extend(inputs, s3, Wait(false), s4);
    inputs := Extend(inputs, s4, Connect(true), s5);
    inputs := Extend(inputs, s5, Backfill(Completed), s6);
    inputs := Extend(inputs, s6, Capture([], false), s7);
    inputs := Extend(inputs, s7, Enroll(false),
                     s7.(phase := Live, pending := None, enrolled := [Enrolled(Pending("7", 1), 3)]));
  }
}
