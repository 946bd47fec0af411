/** The API's fixed-window limiter: one counter per scope and client key, windows of sixty seconds, dropped lazily. */
module RateLimiter {
  import opened Basics

  const WINDOW: real := 60.0

  type Scope = string
  type Key = string

  datatype Window = Window(start: real, count: int)

  type Buckets = map<Scope, map<Key, Window>>

  datatype Reply = Reply(allowed: bool, retryAfter: real)

  datatype Request = Request(scope: Scope, key: Key, perMin: int, now: real)

  predicate Expired(w: Window, now: real) {
    now - w.start >= WINDOW
  }

  function Lookup(bs: Buckets, scope: Scope, key: Key): Option<Window> {
    if scope in bs && key in bs[scope] then Some(bs[scope][key]) else None
  }

  function Put(bs: Buckets, scope: Scope, key: Key, w: Window): Buckets {
    bs[scope := (if scope in bs then bs[scope] else map[])[key := w]]
  }

  function Live(bucket: map<Key, Window>, now: real): map<Key, Window> {
    map k | k in bucket && !Expired(bucket[k], now) :: bucket[k]
  }

  /** Every expired window is gone, and every scope left without one. */
  function Evicted(bs: Buckets, now: real): Buckets {
    map s | s in bs && Live(bs[s], now) != map[] :: Live(bs[s], now)
  }

  function Decide(w: Option<Window>, perMin: int, now: real): Reply {
    if perMin <= 0 || w.None? || Expired(w.value, now) || w.value.count < perMin then Reply(true, 0.0)
    else
      var left := WINDOW - (now - w.value.start);
      Reply(false, if left < 1.0 then 1.0 else left)
  }

  function Next(w: Option<Window>, perMin: int, now: real): Option<Window> {
    if perMin <= 0 then w
    else if w.None? || Expired(w.value, now) then Some(Window(now, 1))
    else if w.value.count < perMin then Some(Window(w.value.start, w.value.count + 1))
    else w
  }

  /** The buckets after a request; `lazy` says whether opening a window sweeps out the expired ones. */
  function Served(bs: Buckets, r: Request, lazy: bool): Buckets {
    var w := Lookup(bs, r.scope, r.key);
    var next := Next(w, r.perMin, r.now);
    if next == w then bs
    else
      var put := Put(bs, r.scope, r.key, next.value);
      if lazy && (w.None? || Expired(w.value, r.now)) then Evicted(put, r.now) else put
  }

  class Limiter {
    var buckets: Buckets

    constructor ()
      ensures buckets == map[]
    {
      buckets := map[];
    }

    /** check_limit; `now` is the reading of the clock, taken before the lock. */
    method CheckLimit(key: Key, scope: Scope, perMin: int, now: real) returns (allowed: bool, retryAfter: real)
      modifies this
      ensures Reply(allowed, retryAfter) == Decide(old(Lookup(buckets, scope, key)), perMin, now)
      ensures buckets == Served(old(buckets), Request(scope, key, perMin, now), true)
      ensures var w := if scope in old(buckets) && key in old(buckets)[scope] then Some(old(buckets)[scope][key])
                       else None;
        && (allowed <==> perMin <= 0 || w.None? || now - w.value.start >= 60.0 || w.value.count < perMin)
        && (!allowed ==> retryAfter >= 1.0 && retryAfter >= 60.0 - (now - w.value.start)
                         && (retryAfter == 1.0 || retryAfter == 60.0 - (now - w.value.start)))
        && (allowed ==> retryAfter == 0.0)
        && (perMin <= 0 || !allowed ==> buckets == old(buckets))
        && (perMin > 0 && allowed ==>
             scope in buckets && key in buckets[scope]
             && buckets[scope][key] == if w.None? || now - w.value.start >= 60.0 then Window(now, 1)
                                       else Window(w.value.start, w.value.count + 1))
    {
      if perMin <= 0 { return true, 0.0; }
      var bucket := map[];
      if scope in buckets { bucket := buckets[scope]; }
      if key !in bucket || now - bucket[key].start >= WINDOW {
        buckets := buckets[scope := bucket[key := Window(now, 1)]];
        Evict(now);
        return true, 0.0;
      }
      var entry := bucket[key];
      if entry.count >= perMin {
        var left := WINDOW - (now - entry.start);
        return false, if left < 1.0 then 1.0 else left;
      }
      buckets := buckets[scope := bucket[key := Window(entry.start, entry.count + 1)]];
      return true, 0.0;
    }

    /** _evict: both loops go over a copy of the keys. */
    method Evict(now: real)
      modifies this
      ensures buckets == Evicted(old(buckets), now)
      ensures forall s | s in buckets :: s in old(buckets) && buckets[s] != map[]
      ensures forall s, k | s in old(buckets) && k in old(buckets)[s] ::
        (s in buckets && k in buckets[s]) <==> now - old(buckets)[s][k].start < 60.0
      ensures forall s, k | s in buckets && k in buckets[s] ::
        k in old(buckets)[s] && buckets[s][k] == old(buckets)[s][k]
    {
      var scopes := buckets.Keys;
      while scopes != {}
        invariant scopes <= old(buckets).Keys && buckets.Keys <= old(buckets).Keys
        invariant forall s | s in scopes :: s in buckets && buckets[s] == old(buckets)[s]
        invariant forall s | s in old(buckets) && s !in scopes ::
          (s in buckets <==> Live(old(buckets)[s], now) != map[])
          && (s in buckets ==> buckets[s] == Live(old(buckets)[s], now))
      {
        var scope :| scope in scopes;
        var bucket := SweepBucket(buckets[scope], now);
        buckets := if bucket == map[] then buckets - {scope} else buckets[scope := bucket];
        scopes := scopes - {scope};
      }
      forall s, k | s in old(buckets) && k in old(buckets)[s]
        ensures k in Live(old(buckets)[s], now) <==> now - old(buckets)[s][k].start < 60.0
        ensures k in Live(old(buckets)[s], now) ==> Live(old(buckets)[s], now) != map[]
      {
      }
    }

    static method SweepBucket(before: map<Key, Window>, now: real) returns (bucket: map<Key, Window>)
      ensures bucket == Live(before, now)
    {
      bucket := before;
      var keys := bucket.Keys;
      while keys != {}
        invariant keys <= before.Keys
        invariant forall k :: k in bucket <==> k in before && (k in keys || !Expired(before[k], now))
        invariant forall k | k in bucket :: bucket[k] == before[k]
      {
        var key :| key in keys;
        if now - bucket[key].start >= WINDOW { bucket := bucket - {key}; }
        keys := keys - {key};
      }
    }
  }

  // ---- Traces ----

  /** Requests in the order in which they take the lock. Each has read the clock before that, so a reading may be older
      than one served earlier; `skew` bounds by how much. */
  predicate InSkew(trace: seq<Request>, skew: real) {
    forall i, j | 0 <= i < j < |trace| :: trace[j].now >= trace[i].now - skew
  }

  function After(trace: seq<Request>, lazy: bool): Buckets {
    if trace == [] then map[]
    else Served(After(trace[..|trace| - 1], lazy), trace[|trace| - 1], lazy)
  }

  function WindowAfter(trace: seq<Request>, lazy: bool, scope: Scope, key: Key): Option<Window> {
    Lookup(After(trace, lazy), scope, key)
  }

  function ReplyAt(trace: seq<Request>, i: nat, lazy: bool): Reply
    requires i < |trace|
  {
    Decide(WindowAfter(trace[..i], lazy, trace[i].scope, trace[i].key), trace[i].perMin, trace[i].now)
  }

  /** A request with a limit that finds no window, or an expired one. */
  predicate Starts(w: Option<Window>, r: Request) {
    r.perMin > 0 && (w.None? || Expired(w.value, r.now))
  }

  predicate Concerns(r: Request, scope: Scope, key: Key) {
    r.scope == scope && r.key == key && r.perMin > 0
  }

  lemma EvictedLookup(bs: Buckets, now: real, scope: Scope, key: Key)
    ensures var w := Lookup(bs, scope, key);
      Lookup(Evicted(bs, now), scope, key) == if w.Some? && !Expired(w.value, now) then w else None
  {
    if scope in bs && key in Live(bs[scope], now) { assert Live(bs[scope], now) != map[]; }
  }

  /** What one request does to a client's window w; `own` is the window of the client that makes it. */
  function Moved(w: Option<Window>, own: Option<Window>, r: Request, scope: Scope, key: Key, lazy: bool)
    : Option<Window>
  {
    if Concerns(r, scope, key) then Next(w, r.perMin, r.now)
    else if lazy && Starts(own, r) && w.Some? && Expired(w.value, r.now) then None
    else w
  }

  lemma ServedLookup(bs: Buckets, r: Request, scope: Scope, key: Key, lazy: bool)
    ensures Lookup(Served(bs, r, lazy), scope, key)
         == Moved(Lookup(bs, scope, key), Lookup(bs, r.scope, r.key), r, scope, key, lazy)
  {
    var w := Lookup(bs, r.scope, r.key);
    var next := Next(w, r.perMin, r.now);
    if next != w { EvictedLookup(Put(bs, r.scope, r.key, next.value), r.now, scope, key); }
  }

  lemma WindowMoves(front: seq<Request>, r: Request, scope: Scope, key: Key, lazy: bool)
    ensures WindowAfter(front + [r], lazy, scope, key)
         == Moved(WindowAfter(front, lazy, scope, key), WindowAfter(front, lazy, r.scope, r.key), r, scope, key, lazy)
  {
    assert (front + [r])[..|front|] == front;
    ServedLookup(After(front, lazy), r, scope, key, lazy);
  }

  // ---- Sweeping ----

  /** One sweep, at the reading of another request, changes a decision exactly when that reading had expired a window
      that is used up and that the request's own reading has not. */
  lemma SweepChangesDecisionIff(w: Option<Window>, other: real, r: Request)
    requires r.perMin > 0
    ensures var swept := if w.Some? && !Expired(w.value, other) then w else None;
      Decide(swept, r.perMin, r.now) != Decide(w, r.perMin, r.now) <==>
        w.Some? && Expired(w.value, other) && !Expired(w.value, r.now) && w.value.count >= r.perMin
  {
  }

  /** In a limiter that keeps all windows: since the client's window was opened, somebody else's request has opened one
      at a reading that expires it. */
  function Overtaken(trace: seq<Request>, scope: Scope, key: Key): bool {
    if trace == [] then false
    else
      var front, r := trace[..|trace| - 1], trace[|trace| - 1];
      var w := WindowAfter(front, false, scope, key);
      if !Starts(WindowAfter(front, false, r.scope, r.key), r) then Overtaken(front, scope, key)
      else !Concerns(r, scope, key) && (Overtaken(front, scope, key) || (w.Some? && Expired(w.value, r.now)))
  }

  /** Request i finds its client's window overtaken, yet by its own older reading not expired. */
  predicate MeetsOvertaken(trace: seq<Request>, i: nat)
    requires i < |trace|
  {
    var w := WindowAfter(trace[..i], false, trace[i].scope, trace[i].key);
    && trace[i].perMin > 0 && Overtaken(trace[..i], trace[i].scope, trace[i].key)
    && w.Some? && !Expired(w.value, trace[i].now)
  }

  predicate NoneMeetsOvertaken(trace: seq<Request>) {
    forall i | 0 <= i < |trace| :: !MeetsOvertaken(trace, i)
  }

  lemma {:induction false} OvertakenHasWindow(trace: seq<Request>, scope: Scope, key: Key)
    requires Overtaken(trace, scope, key)
    ensures var w := WindowAfter(trace, false, scope, key);
      w.Some? && exists j :: 0 <= j < |trace| && Expired(w.value, trace[j].now)
    decreases |trace|
  {
    var front, r := trace[..|trace| - 1], trace[|trace| - 1];
    assert trace == front + [r];
    WindowMoves(front, r, scope, key, false);
    if Overtaken(front, scope, key) {
      OvertakenHasWindow(front, scope, key);
      var w := WindowAfter(front, false, scope, key).value;
      var j :| 0 <= j < |front| && Expired(w, front[j].now);
      assert trace[j] == front[j];
    }
  }

  /** Until a request meets an overtaken window, exactly the overtaken windows are missing. */
  lemma {:induction false} SweptAreOvertaken(trace: seq<Request>, scope: Scope, key: Key)
    requires NoneMeetsOvertaken(trace)
    ensures WindowAfter(trace, true, scope, key)
         == if Overtaken(trace, scope, key) then None else WindowAfter(trace, false, scope, key)
    decreases |trace|
  {
    if trace != [] {
      var n := |trace| - 1;
      var front, r := trace[..n], trace[n];
      assert trace == front + [r];
      assert forall i | 0 <= i < n :: MeetsOvertaken(front, i) == MeetsOvertaken(trace, i) by {
        assert forall i | 0 <= i < n :: front[..i] == trace[..i];
      }
      SweptAreOvertaken(front, scope, key);
      SweptAreOvertaken(front, r.scope, r.key);
      WindowMoves(front, r, scope, key, true);
      WindowMoves(front, r, scope, key, false);
      assert !MeetsOvertaken(trace, n);
      if Overtaken(front, r.scope, r.key) { OvertakenHasWindow(front, r.scope, r.key); }
      if Overtaken(front, scope, key) { OvertakenHasWindow(front, scope, key); }
    }
  }

  lemma MeetsInPrefix(trace: seq<Request>, n: nat, i: nat)
    requires i < n <= |trace|
    ensures MeetsOvertaken(trace[..n], i) == MeetsOvertaken(trace, i)
  {
    assert trace[..n][..i] == trace[..i];
  }

  /** If no request meets an overtaken window, every request gets the reply of a limiter that keeps all windows. */
  lemma EvictionNeverChangesADecision(trace: seq<Request>, i: nat)
    requires NoneMeetsOvertaken(trace) && i < |trace|
    ensures ReplyAt(trace, i, true) == ReplyAt(trace, i, false)
  {
    if trace[i].perMin > 0 { SameWindowToMeet(trace, i); }
  }

  /** Both limiters show the request the same window, or the lazy one none and the other an expired one. */
  lemma SameWindowToMeet(trace: seq<Request>, i: nat)
    requires NoneMeetsOvertaken(trace) && i < |trace| && trace[i].perMin > 0
    ensures var swept := WindowAfter(trace[..i], true, trace[i].scope, trace[i].key);
      var kept := WindowAfter(trace[..i], false, trace[i].scope, trace[i].key);
      swept == kept || (swept.None? && kept.Some? && Expired(kept.value, trace[i].now))
  {
    forall j | 0 <= j < i
      ensures !MeetsOvertaken(trace[..i], j)
    {
      MeetsInPrefix(trace, i, j);
    }
    SweptAreOvertaken(trace[..i], trace[i].scope, trace[i].key);
    if Overtaken(trace[..i], trace[i].scope, trace[i].key) {
      OvertakenHasWindow(trace[..i], trace[i].scope, trace[i].key);
    }
    assert !MeetsOvertaken(trace, i);
  }

  /** The same request made n times. */
  function Copies(r: Request, n: nat): (c: seq<Request>)
    ensures |c| == n && forall i | 0 <= i < n :: c[i] == r
  {
    seq(n, _ => r)
  }

  function Burst(w: Option<Window>, r: Request, n: nat): Option<Window> {
    if n == 0 then w else Next(Burst(w, r, n - 1), r.perMin, r.now)
  }

  lemma {:induction false} BurstWindow(front: seq<Request>, r: Request, n: nat, lazy: bool)
    requires r.perMin > 0
    ensures WindowAfter(front + Copies(r, n), lazy, r.scope, r.key)
         == Burst(WindowAfter(front, lazy, r.scope, r.key), r, n)
  {
    if n == 0 {
      assert front + Copies(r, n) == front;
    } else {
      BurstWindow(front, r, n - 1, lazy);
      assert front + Copies(r, n) == front + Copies(r, n - 1) + [r];
      WindowMoves(front + Copies(r, n - 1), r, r.scope, r.key, lazy);
    }
  }

  /** An expired window makes no difference to a burst. */
  lemma {:induction false} BurstForgets(w: Window, r: Request, n: nat)
    requires r.perMin > 0 && Expired(w, r.now)
    ensures Decide(Burst(None, r, n), r.perMin, r.now) == Decide(Burst(Some(w), r, n), r.perMin, r.now)
    ensures n > 0 ==> Burst(None, r, n) == Burst(Some(w), r, n)
  {
    if n > 0 { BurstForgets(w, r, n - 1); }
  }

  /** A burst fills a new window one by one, and a window that has begun to fill at least as fast. */
  lemma {:induction false} BurstFills(w: Window, r: Request, n: nat)
    requires n < r.perMin && w.count >= 1 && !Expired(w, r.now)
    ensures Burst(None, r, n) == if n == 0 then None else Some(Window(r.now, n))
    ensures var b := Burst(Some(w), r, n);
      b.Some? && b.value.start == w.start && (b.value.count >= r.perMin || b.value.count >= n + 1)
  {
    if n > 0 { BurstFills(w, r, n - 1); }
  }

  lemma {:induction false} CountsArePositive(trace: seq<Request>, lazy: bool, scope: Scope, key: Key)
    ensures var w := WindowAfter(trace, lazy, scope, key); w.Some? ==> w.value.count >= 1
    decreases |trace|
  {
    if trace != [] {
      var front, r := trace[..|trace| - 1], trace[|trace| - 1];
      assert trace == front + [r];
      CountsArePositive(front, lazy, scope, key);
      WindowMoves(front, r, scope, key, lazy);
    }
  }

  /** The reply to the last of n + 1 requests, were request i repeated on the spot. */
  function LastReply(trace: seq<Request>, i: nat, n: nat, lazy: bool): Reply
    requires i < |trace|
  {
    ReplyAt(trace[..i] + Copies(trace[i], n + 1), i + n, lazy)
  }

  predicate BurstAgrees(trace: seq<Request>, i: nat, n: nat)
    requires i < |trace|
  {
    LastReply(trace, i, n, true) == LastReply(trace, i, n, false)
  }

  lemma BurstReply(trace: seq<Request>, i: nat, n: nat, lazy: bool)
    requires i < |trace| && trace[i].perMin > 0
    ensures var w := WindowAfter(trace[..i], lazy, trace[i].scope, trace[i].key);
      LastReply(trace, i, n, lazy) == Decide(Burst(w, trace[i], n), trace[i].perMin, trace[i].now)
  {
    var burst := trace[..i] + Copies(trace[i], n + 1);
    assert burst[..i + n] == trace[..i] + Copies(trace[i], n);
    BurstWindow(trace[..i], trace[i], n, lazy);
  }

  lemma BurstsAgree(trace: seq<Request>, i: nat, n: nat)
    requires NoneMeetsOvertaken(trace) && i < |trace|
    ensures BurstAgrees(trace, i, n)
  {
    if trace[i].perMin > 0 {
      BurstReply(trace, i, n, true);
      BurstReply(trace, i, n, false);
      SameWindowToMeet(trace, i);
      var kept := WindowAfter(trace[..i], false, trace[i].scope, trace[i].key);
      if kept.Some? && Expired(kept.value, trace[i].now) { BurstForgets(kept.value, trace[i], n); }
    }
  }

  lemma {:induction false} FirstMeeting(trace: seq<Request>, i: nat) returns (first: nat)
    requires i < |trace| && MeetsOvertaken(trace, i)
    ensures first < |trace| && MeetsOvertaken(trace, first) && NoneMeetsOvertaken(trace[..first])
    decreases i
  {
    if j :| 0 <= j < i && MeetsOvertaken(trace, j) {
      first := FirstMeeting(trace, j);
    } else {
      first := i;
      forall j | 0 <= j < i
        ensures !MeetsOvertaken(trace[..i], j)
      {
        MeetsInPrefix(trace, i, j);
      }
    }
  }

  /** A burst up to the limit tells a new window from one that has begun to fill. */
  lemma BurstTells(w: Window, r: Request)
    requires r.perMin > 0 && w.count >= 1 && !Expired(w, r.now)
    ensures Decide(Burst(None, r, r.perMin - 1), r.perMin, r.now).allowed
    ensures !Decide(Burst(Some(w), r, r.perMin - 1), r.perMin, r.now).allowed
  {
    BurstFills(w, r, r.perMin - 1);
  }

  /** The first request that meets an overtaken window does not see it at all. */
  lemma MeetsNothing(trace: seq<Request>, i: nat)
    requires i < |trace| && MeetsOvertaken(trace, i) && NoneMeetsOvertaken(trace[..i])
    ensures WindowAfter(trace[..i], true, trace[i].scope, trace[i].key).None?
    ensures var kept := WindowAfter(trace[..i], false, trace[i].scope, trace[i].key);
      kept.Some? && kept.value.count >= 1 && !Expired(kept.value, trace[i].now)
  {
    SweptAreOvertaken(trace[..i], trace[i].scope, trace[i].key);
    CountsArePositive(trace[..i], false, trace[i].scope, trace[i].key);
  }

  lemma MeetingIsSeen(trace: seq<Request>, i: nat)
    requires i < |trace| && MeetsOvertaken(trace, i) && NoneMeetsOvertaken(trace[..i])
    ensures !BurstAgrees(trace, i, trace[i].perMin - 1)
  {
    var r := trace[i];
    var n := r.perMin - 1;
    MeetsNothing(trace, i);
    var w := WindowAfter(trace[..i], false, r.scope, r.key).value;
    BurstTells(w, r);
    assert LastReply(trace, i, n, true).allowed by { BurstReply(trace, i, n, true); }
    assert !LastReply(trace, i, n, false).allowed by { BurstReply(trace, i, n, false); }
  }

  /** Exactly when sweeping is invisible, however often any request of the trace is repeated on the spot: when no
      request meets a window that an earlier served one has expired and its own older reading has not. */
  lemma EvictionIsInvisibleIff(trace: seq<Request>)
    ensures (forall i: nat, n: nat | i < |trace| :: BurstAgrees(trace, i, n)) <==> NoneMeetsOvertaken(trace)
  {
    if NoneMeetsOvertaken(trace) {
      forall i: nat, n: nat | i < |trace|
        ensures BurstAgrees(trace, i, n)
      {
        BurstsAgree(trace, i, n);
      }
    } else {
      var i :| 0 <= i < |trace| && MeetsOvertaken(trace, i);
      var first := FirstMeeting(trace, i);
      MeetingIsSeen(trace, first);
    }
  }

  /** With readings in the order of service it is. */
  lemma InOrderMeetsNone(trace: seq<Request>)
    requires InSkew(trace, 0.0)
    ensures NoneMeetsOvertaken(trace)
  {
    forall i | 0 <= i < |trace|
      ensures !MeetsOvertaken(trace, i)
    {
      if Overtaken(trace[..i], trace[i].scope, trace[i].key) {
        OvertakenHasWindow(trace[..i], trace[i].scope, trace[i].key);
      }
    }
  }

  /** Otherwise a decision can change, however small the skew. */
  lemma EvictionCanChangeADecision(skew: real) returns (trace: seq<Request>)
    requires 0.0 < skew <= WINDOW
    ensures InSkew(trace, skew) && |trace| == 3
    ensures ReplyAt(trace, 2, true).allowed && !ReplyAt(trace, 2, false).allowed
  {
    var first, other, again := Request("s", "c", 1, 0.0), Request("s", "d", 1, WINDOW),
      Request("s", "c", 1, WINDOW - skew);
    trace := [first, other, again];
    WindowMoves([], first, "s", "c", true);
    WindowMoves([], first, "s", "d", true);
    WindowMoves([first], other, "s", "c", true);
    WindowMoves([], first, "s", "c", false);
    WindowMoves([], first, "s", "d", false);
    WindowMoves([first], other, "s", "c", false);
    assert [] + [first] == [first] && [first] + [other] == trace[..2];
  }

  // ---- How much one client gets through ----

  /** The client's limited requests that were let through with readings in [from, from + 60). */
  function Admissions(trace: seq<Request>, scope: Scope, key: Key, from: real): nat {
    if trace == [] then 0
    else
      var last := |trace| - 1;
      Admissions(trace[..last], scope, key, from)
      + if Concerns(trace[last], scope, key) && Inside(trace[last].now, from) && ReplyAt(trace, last, true).allowed
        then 1 else 0
  }

  predicate Inside(now: real, from: real) {
    from <= now < from + WINDOW
  }

  /** The window the client had last, even if it has been swept out. */
  function LastWindow(trace: seq<Request>, scope: Scope, key: Key): Option<Window> {
    if trace == [] then None
    else
      var front, r := trace[..|trace| - 1], trace[|trace| - 1];
      if Concerns(r, scope, key) then Next(WindowAfter(front, true, scope, key), r.perMin, r.now)
      else LastWindow(front, scope, key)
  }

  /** The most admissions of any sixty seconds. */
  function Bound(limit: int, skew: real): int {
    if skew == 0.0 then 2 * limit - 1 else 3 * limit - 1
  }

  /** The most admissions in [from, from + 60) that the last window leaves possible: its own, and those of the windows
      that can have come before it, which started at least 60 - skew apart. */
  function Allowance(w: Option<Window>, limit: int, skew: real, from: real): int {
    if w.None? || w.value.start <= from - WINDOW then 0
    else
      var Window(start, count) := w.value;
      if start < from then (if start <= from - skew then 0 else limit - 1) + count - 1
      else if start < from + WINDOW then
        (if start <= from + WINDOW - 2.0 * skew then limit - 1 else 2 * limit - 1) + count
      else if start < from + WINDOW + skew then 2 * limit - 2 + count
      else Bound(limit, skew)
  }

  /** What is known of a client when the next reading is `now`: its window is the last one, or that has been swept. */
  predicate Bounded(admitted: int, w: Option<Window>, last: Option<Window>, limit: int, skew: real, from: real,
                    now: real)
  {
    && admitted <= Allowance(last, limit, skew, from)
    && (last.Some? ==> 1 <= last.value.count <= limit && last.value.start - skew <= now)
    && (w == last || (w.None? && last.Some? && last.value.start + WINDOW - skew <= now))
  }

  /** One more request of the client, admitted inside the interval or not. */
  lemma RequestStaysBounded(admitted: nat, w: Option<Window>, last: Option<Window>, limit: int, skew: real, from: real,
                            r: Request)
    requires Bounded(admitted, w, last, limit, skew, from, r.now) && 0.0 <= skew <= 15.0 && 0 < r.perMin <= limit
    ensures var next := Next(w, r.perMin, r.now);
      admitted + (if Inside(r.now, from) && Decide(w, r.perMin, r.now).allowed then 1 else 0)
        <= Allowance(next, limit, skew, from)
      && next.Some? && 1 <= next.value.count <= limit
      && (next == w || next.value.start == r.now || (w.Some? && next.value.start == w.value.start))
  {
  }

  lemma {:induction false} TraceStaysBounded(trace: seq<Request>, scope: Scope, key: Key, limit: int, skew: real,
                                             from: real, now: real)
    requires InSkew(trace, skew) && 0.0 <= skew <= 15.0 && forall r | r in trace :: r.now - skew <= now
    requires forall r | r in trace && Concerns(r, scope, key) :: r.perMin <= limit
    ensures Bounded(Admissions(trace, scope, key, from), WindowAfter(trace, true, scope, key),
                    LastWindow(trace, scope, key), limit, skew, from, now)
    decreases |trace|
  {
    if trace != [] {
      var front, r := trace[..|trace| - 1], trace[|trace| - 1];
      assert trace == front + [r];
      WindowMoves(front, r, scope, key, true);
      if Concerns(r, scope, key) {
        TraceStaysBounded(front, scope, key, limit, skew, from, r.now);
        TraceStaysBounded(front, scope, key, limit, skew, from, now);
        RequestStaysBounded(Admissions(front, scope, key, from), WindowAfter(front, true, scope, key),
                            LastWindow(front, scope, key), limit, skew, from, r);
      } else {
        TraceStaysBounded(front, scope, key, limit, skew, from, now);
      }
    }
  }

  lemma AllowanceIsBounded(w: Option<Window>, limit: int, skew: real, from: real)
    requires limit > 0 && 0.0 <= skew <= 15.0 && (w.Some? ==> 1 <= w.value.count <= limit)
    ensures Allowance(w, limit, skew, from) <= Bound(limit, skew)
  {
  }

  /** No sixty seconds, wherever they begin, see more of a client's requests let through than 2 * limit - 1 if readings
      come in the order of service, and than 3 * limit - 1 if they can be up to fifteen seconds out of order. */
  lemma AdmissionsAreBounded(trace: seq<Request>, scope: Scope, key: Key, limit: int, skew: real, from: real)
    requires InSkew(trace, skew) && 0.0 <= skew <= 15.0 && limit > 0
    requires forall r | r in trace && Concerns(r, scope, key) :: r.perMin <= limit
    ensures Admissions(trace, scope, key, from) <= Bound(limit, skew)
  {
    var now := Latest(trace);
    TraceStaysBounded(trace, scope, key, limit, skew, from, now);
    AllowanceIsBounded(LastWindow(trace, scope, key), limit, skew, from);
  }

  function Latest(trace: seq<Request>): (now: real)
    ensures forall r | r in trace :: r.now <= now
  {
    if trace == [] then 0.0
    else
      var front, r := trace[..|trace| - 1], trace[|trace| - 1];
      assert trace == front + [r];
      var rest := Latest(front);
      if rest < r.now then r.now else rest
  }

  // ---- The bound is reached ----

  /** Where the clients "c" and "d" stand after a trace whose readings go up to `top`, and how often "c" was admitted in
      [60, 120). */
  predicate At(trace: seq<Request>, limit: int, skew: real, top: real, c: Option<Window>, d: Option<Window>,
               admitted: int)
  {
    && InSkew(trace, skew) && (forall r | r in trace :: r.now <= top && r.perMin == limit)
    && WindowAfter(trace, true, "s", "c") == c && WindowAfter(trace, true, "s", "d") == d
    && Admissions(trace, "s", "c", WINDOW) == admitted
  }

  lemma AdmissionsGrow(front: seq<Request>, r: Request, scope: Scope, key: Key, from: real)
    ensures Admissions(front + [r], scope, key, from) == Admissions(front, scope, key, from)
      + if Concerns(r, scope, key) && Inside(r.now, from)
           && Decide(WindowAfter(front, true, scope, key), r.perMin, r.now).allowed then 1 else 0
  {
    assert (front + [r])[..|front|] == front;
  }

  lemma OneMoreInSkew(trace: seq<Request>, r: Request, skew: real, top: real)
    requires InSkew(trace, skew) && (forall q | q in trace :: q.now <= top) && r.now >= top - skew
    ensures InSkew(trace + [r], skew)
  {
  }

  lemma NextRequest(trace: seq<Request>, limit: int, skew: real, top: real, c: Option<Window>, d: Option<Window>,
                    admitted: int, key: Key, now: real)
    returns (all: seq<Request>)
    requires At(trace, limit, skew, top, c, d, admitted) && limit > 0 && key in ["c", "d"] && now >= top - skew
    ensures var r, own := Request("s", key, limit, now), if key == "c" then c else d;
      At(all, limit, skew, if now < top then top else now, Moved(c, own, r, "s", "c", true),
         Moved(d, own, r, "s", "d", true),
         admitted + if key == "c" && Inside(now, WINDOW) && Decide(c, limit, now).allowed then 1 else 0)
  {
    var r := Request("s", key, limit, now);
    all := trace + [r];
    OneMoreInSkew(trace, r, skew, top);
    AdmissionsGrow(trace, r, "s", "c", WINDOW);
    WindowMoves(trace, r, "s", "c", true);
    WindowMoves(trace, r, "s", "d", true);
  }

  /** A burst of `n` requests at one moment that the open window has room for is let through whole. */
  lemma {:induction false} BurstFits(trace: seq<Request>, limit: int, skew: real, top: real, w: Window,
                                     d: Option<Window>, admitted: int, n: nat, now: real)
    returns (all: seq<Request>)
    requires At(trace, limit, skew, top, Some(w), d, admitted) && top - skew <= now <= top
    requires !Expired(w, now) && w.count + n <= limit && limit > 0 && Inside(now, WINDOW)
    ensures At(all, limit, skew, top, Some(Window(w.start, w.count + n)), d, admitted + n)
    decreases n
  {
    if n == 0 {
      all := trace;
    } else {
      all := NextRequest(trace, limit, skew, top, Some(w), d, admitted, "c", now);
      all := BurstFits(all, limit, skew, top, Window(w.start, w.count + 1), d, admitted + 1, n - 1, now);
    }
  }

  /** One window used up: a request opens it at `start`, the others come at `late`. */
  lemma FilledWindow(trace: seq<Request>, limit: int, skew: real, top: real, d: Option<Window>, admitted: int,
                     start: real, late: real)
    returns (full: seq<Request>)
    requires At(trace, limit, skew, top, None, d, admitted) && limit > 0 && skew >= 0.0 && top - skew <= start
    requires d.Some? ==> !Expired(d.value, start)
    requires start <= late < start + WINDOW && Inside(late, WINDOW) && late >= top - skew
    ensures At(full, limit, skew, if late < top then top else late, Some(Window(start, limit)), d,
               admitted + limit - if start < WINDOW then 1 else 0)
  {
    var up := if late < top then top else late;
    full := NextRequest(trace, limit, skew, top, None, d, admitted, "c", start);
    var first := admitted + if start < WINDOW then 0 else 1;
    full := BurstFits(full, limit, skew, up, Window(start, 1), d, first, limit - 1, late);
  }

  /** Request of "d" that starts a window and sweeps out the one "c" has used up. */
  lemma SweptByOther(trace: seq<Request>, limit: int, skew: real, top: real, w: Window, d: Option<Window>,
                     admitted: int, now: real)
    returns (all: seq<Request>)
    requires At(trace, limit, skew, top, Some(w), d, admitted) && limit > 0 && now >= top && skew >= 0.0
    requires Expired(w, now) && (d.Some? ==> Expired(d.value, now))
    ensures At(all, limit, skew, now, None, Some(Window(now, 1)), admitted)
  {
    all := NextRequest(trace, limit, skew, top, Some(w), d, admitted, "d", now);
  }

  /** The bound is reached for every limit and skew. In order of service: a late burst in one window, a full one at the
      start of the next. Otherwise "d" runs half the skew ahead and sweeps out each window of "c" that is used up, and
      "c", half the skew behind, gets a third one into the same sixty seconds. */
  lemma BoundIsReached(limit: int, skew: real) returns (trace: seq<Request>)
    requires limit > 0 && 0.0 <= skew <= 15.0
    ensures InSkew(trace, skew) && (forall r | r in trace :: r.perMin == limit)
    ensures Admissions(trace, "s", "c", WINDOW) == Bound(limit, skew)
  {
    if skew == 0.0 {
      trace := FilledWindow([], limit, skew, 0.0, None, 0, 1.0, 60.0);
      trace := NextWindow(trace, limit, 60.0, Window(1.0, limit), limit - 1, 61.0);
    } else {
      var half := skew / 2.0;
      trace := FilledWindow([], limit, skew, 0.0, None, 0, half, 60.0);
      trace := SweptByOther(trace, limit, skew, 60.0, Window(half, limit), None, limit - 1, 60.0 + half);
      var d := Window(60.0 + half, 1);
      trace := FilledWindow(trace, limit, skew, 60.0 + half, Some(d), limit - 1, 60.0, 60.0);
      trace := SweptByOther(trace, limit, skew, 60.0 + half, Window(60.0, limit), Some(d), 2 * limit - 1, 120.0 + half);
      d := Window(120.0 + half, 1);
      trace := FilledWindow(trace, limit, skew, 120.0 + half, Some(d), 2 * limit - 1, 120.0 - half, 120.0 - half);
    }
  }

  /** In order of service: the client itself opens its next window. */
  lemma NextWindow(trace: seq<Request>, limit: int, top: real, w: Window, admitted: int, now: real)
    returns (full: seq<Request>)
    requires At(trace, limit, 0.0, top, Some(w), None, admitted) && limit > 0 && top <= now
    requires Expired(w, now) && Inside(now, WINDOW)
    ensures At(full, limit, 0.0, now, Some(Window(now, limit)), None, admitted + limit)
  {
    full := NextRequest(trace, limit, 0.0, top, Some(w), None, admitted, "c", now);
    full := BurstFits(full, limit, 0.0, now, Window(now, 1), None, admitted + 1, limit - 1, now);
  }

  ghost predicate AllWithin(limit: int, skew: real, bound: int) {
    forall trace, scope, key, from ::
      InSkew(trace, skew) && (forall r | r in trace && Concerns(r, scope, key) :: r.perMin <= limit) ==>
        Admissions(trace, scope, key, from) <= bound
  }

  /** Exactly when any sixty seconds admit at most 2 * limit - 1 requests of a client: when readings are in the order of
      service. The smallest skew breaks it, for every limit. */
  lemma TwiceTheLimitIff(limit: int, skew: real)
    requires limit > 0 && skew >= 0.0
    ensures AllWithin(limit, skew, 2 * limit - 1) <==> skew == 0.0
  {
    if skew == 0.0 {
      forall trace, scope, key, from |
        InSkew(trace, skew) && (forall r | r in trace && Concerns(r, scope, key) :: r.perMin <= limit)
        ensures Admissions(trace, scope, key, from) <= 2 * limit - 1
      {
        AdmissionsAreBounded(trace, scope, key, limit, skew, from);
      }
    } else {
      var trace := BoundIsReached(limit, if skew < 15.0 then skew else 15.0);
      assert InSkew(trace, skew);
      assert Admissions(trace, "s", "c", WINDOW) > 2 * limit - 1;
    }
  }

  // ---- Waiting as told ----

  /** Somebody's request in `others` starts a window, and so a sweep, at a reading of `end` or later. */
  predicate SweepsOut(before: seq<Request>, others: seq<Request>, end: real) {
    exists j | 0 <= j < |others| :: SweepsAt(before, others, end, j)
  }

  predicate SweepsAt(before: seq<Request>, others: seq<Request>, end: real, j: nat)
    requires j < |others|
  {
    && Starts(WindowAfter(before + others[..j], true, others[j].scope, others[j].key), others[j])
    && others[j].now >= end
  }

  /** Requests of others leave the client's window alone, or sweep it out. */
  lemma {:induction false} OthersMaySweep(before: seq<Request>, others: seq<Request>, scope: Scope, key: Key, w: Window)
    requires forall r | r in others :: !Concerns(r, scope, key)
    requires WindowAfter(before, true, scope, key) == Some(w)
    ensures WindowAfter(before + others, true, scope, key)
         == if SweepsOut(before, others, w.start + WINDOW) then None else Some(w)
    decreases |others|
  {
    if others == [] {
      assert before + others == before;
    } else {
      var n := |others| - 1;
      var front, r := others[..n], others[n];
      assert before + others == before + front + [r];
      assert r in others;
      OthersMaySweep(before, front, scope, key, w);
      WindowMoves(before + front, r, scope, key, true);
      var end := w.start + WINDOW;
      forall j | 0 <= j < n
        ensures SweepsAt(before, front, end, j) == SweepsAt(before, others, end, j)
      {
        assert front[..j] == others[..j];
      }
      assert SweepsOut(before, others, end) == (SweepsOut(before, front, end) || SweepsAt(before, others, end, n));
    }
  }

  /** Whatever the readings: a refused client with no competing request in between is let through as soon as it has
      waited the advised time. Advice of more than the one-second floor is exact: coming back any sooner it is refused
      again, unless somebody else's request, with a reading as late as that, has swept its window out. */
  lemma RetryAfterIsRight(trace: seq<Request>, refused: Request, others: seq<Request>, again: Request)
    requires !ReplyAt(trace + [refused], |trace|, true).allowed
    requires forall r | r in others :: !Concerns(r, refused.scope, refused.key)
    requires again.scope == refused.scope && again.key == refused.key && again.perMin == refused.perMin
    ensures var wait := ReplyAt(trace + [refused], |trace|, true).retryAfter;
      var allowed := ReplyAt(trace + [refused] + others + [again], |trace| + 1 + |others|, true).allowed;
      && (again.now >= refused.now + wait ==> allowed)
      && (wait > 1.0 ==>
           (allowed <==>
             || again.now >= refused.now + wait
             || SweepsOut(trace + [refused], others, refused.now + wait)))
  {
    var before, n := trace + [refused], |trace| + 1 + |others|;
    var all := before + others + [again];
    assert before[..|trace|] == trace && all[..n] == before + others;
    WindowMoves(trace, refused, refused.scope, refused.key, true);
    var w := WindowAfter(trace, true, refused.scope, refused.key).value;
    OthersMaySweep(before, others, refused.scope, refused.key, w);
  }
}
