/** Catching up with the terminal's own log: the stored maximum, less an overlap, bounds what is looked at again, and
    the chunks commit one by one, so a backfill can end after any of them. */
module Backfill {
  import opened Basics

  /** What makes an attendance row unique on the one device. */
  datatype ScanKey = ScanKey(user: string, time: Time)

  /** A record in the terminal's memory, in the order it was written. */
  datatype Entry = Malformed | Scan(key: ScanKey)

  type Log = seq<Entry>

  /** The stored attendance rows, oldest insertion first. */
  type Rows = seq<ScanKey>

  function Watermark(rows: Rows): (w: Option<Time>)
    ensures w.None? <==> rows == []
    ensures w.Some? ==> exists k :: k in rows && k.time == w.value
    ensures forall k | k in rows :: w.Some? && k.time <= w.value
  {
    if rows == [] then None
    else
      var last := rows[|rows| - 1];
      var front := rows[..|rows| - 1];
      assert rows == front + [last];
      var rest := Watermark(front);
      if rest.Some? && rest.value >= last.time then rest else Some(last.time)
  }

  function Boundary(rows: Rows, overlap: int): Option<Time> {
    var w := Watermark(rows);
    if w.Some? then Some(w.value - overlap) else None
  }

  predicate IsCandidate(e: Entry, boundary: Option<Time>) {
    e.Scan? && (boundary.None? || e.key.time >= boundary.value)
  }

  function Candidates(log: Log, boundary: Option<Time>): seq<ScanKey> {
    if log == [] then []
    else
      var last := log[|log| - 1];
      Candidates(log[..|log| - 1], boundary) + if IsCandidate(last, boundary) then [last.key] else []
  }

  /** INSERT ... ON CONFLICT DO NOTHING. */
  function Insert(rows: Rows, k: ScanKey): Rows {
    if k in rows then rows else rows + [k]
  }

  function InsertAll(rows: Rows, ks: seq<ScanKey>): Rows {
    if ks == [] then rows else Insert(InsertAll(rows, ks[..|ks| - 1]), ks[|ks| - 1])
  }

  predicate Unique(rows: Rows) {
    forall i, j | 0 <= i < j < |rows| :: rows[i] != rows[j]
  }

  lemma {:induction false} InsertAllHolds(rows: Rows, ks: seq<ScanKey>, k: ScanKey)
    ensures k in InsertAll(rows, ks) <==> k in rows || k in ks
    decreases |ks|
  {
    if ks != [] {
      InsertAllHolds(rows, ks[..|ks| - 1], k);
      assert ks == ks[..|ks| - 1] + [ks[|ks| - 1]];
    }
  }

  lemma {:induction false} InsertAllKeepsUnique(rows: Rows, ks: seq<ScanKey>)
    requires Unique(rows)
    ensures Unique(InsertAll(rows, ks)) && rows <= InsertAll(rows, ks)
    decreases |ks|
  {
    if ks != [] { InsertAllKeepsUnique(rows, ks[..|ks| - 1]); }
  }

  lemma {:induction false} CandidatesAre(log: Log, boundary: Option<Time>, k: ScanKey)
    ensures k in Candidates(log, boundary) <==> Scan(k) in log && IsCandidate(Scan(k), boundary)
    decreases |log|
  {
    if log != [] {
      CandidatesAre(log[..|log| - 1], boundary, k);
      assert log == log[..|log| - 1] + [log[|log| - 1]];
    }
  }

  /** The first n candidates are the candidates of a part of the log. */
  lemma {:induction false} CandidatePrefix(log: Log, boundary: Option<Time>, n: nat) returns (m: nat)
    requires n <= |Candidates(log, boundary)|
    ensures m <= |log| && Candidates(log, boundary)[..n] == Candidates(log[..m], boundary)
    decreases |log|
  {
    if n == |Candidates(log, boundary)| {
      m := |log|;
      assert log[..m] == log;
    } else {
      var front := log[..|log| - 1];
      m := CandidatePrefix(front, boundary, n);
      assert front[..m] == log[..m];
    }
  }

  // ---- The store ----

  function AtMost(n: nat, bound: nat): nat {
    if n <= bound then n else bound
  }

  /** Records processed when the chunk of that index is not reached or not committed. */
  function Processed(total: nat, batch: nat, chunks: nat): nat {
    AtMost(chunks * batch, total)
  }

  function BatchSize(configured: int): (size: nat)
    ensures size >= 1 && size >= configured && (size == 1 || size == configured)
  {
    if configured > 1 then configured else 1
  }

  lemma NextChunk(chunk: nat, batch: nat)
    ensures (chunk + 1) * batch == chunk * batch + batch
  {
  }

  lemma MoreChunks(few: nat, many: nat, batch: nat)
    requires few <= many
    ensures few * batch <= many * batch
  {
  }

  /** Where the loop over chunks ends without a failure is where it was to stop, or the end of the records. */
  lemma LoopEnds(total: nat, batch: nat, chunk: nat, stop: nat, fail: nat)
    requires chunk <= stop && chunk <= fail && (chunk * batch >= total || chunk == stop)
    ensures Processed(total, batch, AtMost(stop, fail)) == AtMost(chunk * batch, total)
    ensures fail < stop ==> fail * batch >= total
  {
    MoreChunks(chunk, AtMost(stop, fail), batch);
    MoreChunks(chunk, fail, batch);
  }

  datatype SaveResult = Saved(inserted: nat, skipped: nat) | Failed

  class AttendanceStore {
    var rows: Rows

    constructor ()
      ensures rows == []
    {
      rows := [];
    }

    /** save_attendance_batch. The stop event is first seen set before chunk `stop`; committing chunk `fail` raises. */
    method SaveAttendanceBatch(records: seq<ScanKey>, configuredBatch: int, stop: nat, fail: nat)
      returns (result: SaveResult)
      requires Unique(rows)
      modifies this
      ensures Unique(rows)
      ensures var batch := BatchSize(configuredBatch);
        var processed := Processed(|records|, batch, AtMost(stop, fail));
        && rows == InsertAll(old(rows), records[..processed])
        && (result.Failed? <==> fail < stop && fail * batch < |records|)
        && (result.Saved? ==> result.inserted + result.skipped == processed && result.inserted == |rows| - |old(rows)|)
    {
      var batch := BatchSize(configuredBatch);
      var insertedTotal, skippedTotal := 0, 0;
      var chunk, i := 0, 0;
      while i < |records| && chunk < stop
        invariant i == chunk * batch && chunk <= stop && chunk <= fail && Unique(rows)
        invariant rows == InsertAll(old(rows), records[..AtMost(i, |records|)])
        invariant insertedTotal + skippedTotal == AtMost(i, |records|)
        invariant insertedTotal == |rows| - |old(rows)|
        decreases stop - chunk
      {
        var saved := rows;
        var inserted, skipped := InsertChunk(records, i, AtMost(i + batch, |records|), old(rows));
        if chunk == fail {
          rows := saved;
          return Failed;
        }
        insertedTotal, skippedTotal := insertedTotal + inserted, skippedTotal + skipped;
        NextChunk(chunk, batch);
        i, chunk := i + batch, chunk + 1;
      }
      LoopEnds(|records|, batch, chunk, stop, fail);
      return Saved(insertedTotal, skippedTotal);
    }

    /** The inner loop: one chunk, record by record. */
    method InsertChunk(records: seq<ScanKey>, start: nat, end: nat, ghost before: Rows)
      returns (inserted: nat, skipped: nat)
      requires start <= end <= |records| && Unique(rows)
      requires rows == InsertAll(before, records[..start])
      modifies this
      ensures rows == InsertAll(before, records[..end]) && Unique(rows)
      ensures inserted + skipped == end - start && inserted == |rows| - |old(rows)|
    {
      inserted, skipped := 0, 0;
      var j := start;
      while j < end
        invariant start <= j <= end && Unique(rows)
        invariant rows == InsertAll(before, records[..j])
        invariant inserted + skipped == j - start && inserted == |rows| - |old(rows)|
      {
        assert records[..j + 1][..j] == records[..j];
        if records[j] !in rows {
          rows := rows + [records[j]];
          inserted := inserted + 1;
        } else {
          skipped := skipped + 1;
        }
        j := j + 1;
      }
    }

    /** handle_backfilling up to its database writes: watermark, filter, save. */
    method HandleBackfilling(log: Log, overlap: int, configuredBatch: int, stop: nat, fail: nat)
      returns (result: SaveResult, malformed: nat, candidateCount: nat)
      requires Unique(rows)
      modifies this
      ensures Unique(rows)
      ensures var batch := BatchSize(configuredBatch);
        rows == Backfilled(log, old(rows), overlap, Processed(candidateCount, batch, AtMost(stop, fail)))
      ensures candidateCount == |Candidates(log, Boundary(old(rows), overlap))|
      ensures malformed == |set i | 0 <= i < |log| && log[i].Malformed?|
    {
      var boundary := Boundary(rows, overlap);
      var candidates := [];
      malformed := 0;
      ghost var bad: set<nat> := {};
      var i := 0;
      while i < |log|
        invariant i <= |log| && candidates == Candidates(log[..i], boundary)
        invariant bad == (set k: nat | k < i && log[k].Malformed?) && malformed == |bad|
      {
        assert log[..i + 1][..i] == log[..i];
        if log[i].Malformed? {
          malformed := malformed + 1;
          bad := bad + {i};
        } else if boundary.None? || log[i].key.time >= boundary.value {
          candidates := candidates + [log[i].key];
        }
        i := i + 1;
      }
      assert log[..i] == log;
      assert bad == set k | 0 <= k < |log| && log[k].Malformed?;
      result := Saved(0, 0);
      candidateCount := |candidates|;
      if candidates != [] {
        result := SaveAttendanceBatch(candidates, configuredBatch, stop, fail);
      }
    }
  }

  /** The store after a backfill that commits the first n candidates. */
  function Backfilled(log: Log, rows: Rows, overlap: int, n: nat): Rows
  {
    var candidates := Candidates(log, Boundary(rows, overlap));
    InsertAll(rows, candidates[..AtMost(n, |candidates|)])
  }

  // ---- Runs ----

  datatype World = World(log: Log, rows: Rows)

  /** The terminal records something that is not captured; or a scan is made and captured live, which stores it at once;
      or a backfill commits `chunks` chunks before it ends (all of them if there are no more). */
  datatype Event = Append(entry: Entry) | Live(key: ScanKey) | Backfill(chunks: nat)

  function Step(w: World, e: Event, overlap: int, batch: nat): World {
    match e
    case Append(entry) => World(w.log + [entry], w.rows)
    case Live(key) => World(w.log + [Scan(key)], Insert(w.rows, key))
    case Backfill(chunks) => World(w.log, Backfilled(w.log, w.rows, overlap, chunks * batch))
  }

  function Run(events: seq<Event>, overlap: int, batch: nat): World {
    if events == [] then World([], [])
    else Step(Run(events[..|events| - 1], overlap, batch), events[|events| - 1], overlap, batch)
  }

  /** No record still unstored is more than the overlap older than the scan. */
  predicate PassesNothingBy(w: World, k: ScanKey, overlap: int) {
    forall e | e in w.log && e.Scan? && e.key !in w.rows && e.key != k :: e.key.time >= k.time - overlap
  }

  /** What every live capture of the run meets. */
  predicate LiveScansPassNothingBy(events: seq<Event>, overlap: int, batch: nat) {
    events != [] ==>
      var front, e := events[..|events| - 1], events[|events| - 1];
      LiveScansPassNothingBy(front, overlap, batch)
      && (e.Live? ==> PassesNothingBy(Run(front, overlap, batch), e.key, overlap))
  }

  /** Everything older than the overlap is stored. */
  predicate Covered(w: World, overlap: int) {
    forall e | e in w.log && e.Scan? ::
      Watermark(w.rows).Some? && e.key.time < Watermark(w.rows).value - overlap ==> e.key in w.rows
  }

  predicate StoredFromLog(w: World) {
    forall k | k in w.rows :: Scan(k) in w.log
  }

  predicate CoversAll(w: World) {
    forall e | e in w.log && e.Scan? :: e.key in w.rows
  }

  /** Record j is more than the overlap older than record i before it, and does not repeat one written by then. */
  predicate Disordered(log: Log, i: nat, j: nat, overlap: int)
    requires i < j < |log|
  {
    log[i].Scan? && log[j].Scan? && log[j].key.time < log[i].key.time - overlap && log[j] !in log[..i + 1]
  }

  predicate InOrder(log: Log, overlap: int) {
    forall i, j | 0 <= i < j < |log| :: !Disordered(log, i, j, overlap)
  }

  lemma InOrderPrefix(log: Log, e: Entry, overlap: int)
    requires InOrder(log + [e], overlap)
    ensures InOrder(log, overlap)
  {
    forall i, j | 0 <= i < j < |log|
      ensures !Disordered(log, i, j, overlap)
    {
      assert !Disordered(log + [e], i, j, overlap);
      assert (log + [e])[..i + 1] == log[..i + 1];
    }
  }

  lemma AppendKeepsCovered(w: World, e: Entry, overlap: int)
    requires Covered(w, overlap) && StoredFromLog(w) && InOrder(w.log + [e], overlap)
    ensures Covered(World(w.log + [e], w.rows), overlap) && StoredFromLog(World(w.log + [e], w.rows))
  {
    var log := w.log + [e];
    var mark := Watermark(w.rows);
    if e.Scan? && mark.Some? && e.key.time < mark.value - overlap {
      var k :| k in w.rows && k.time == mark.value;
      var i :| 0 <= i < |w.log| && w.log[i] == Scan(k);
      assert !Disordered(log, i, |w.log|, overlap);
      assert log[..i + 1] == w.log[..i + 1];
      assert e in w.log;
    }
  }

  lemma BackfillKeepsCovered(w: World, overlap: int, n: nat)
    requires Covered(w, overlap) && StoredFromLog(w) && InOrder(w.log, overlap)
    ensures var t := World(w.log, Backfilled(w.log, w.rows, overlap, n)); Covered(t, overlap) && StoredFromLog(t)
  {
    var boundary := Boundary(w.rows, overlap);
    var all := Candidates(w.log, boundary);
    var m := CandidatePrefix(w.log, boundary, AtMost(n, |all|));
    var done := Candidates(w.log[..m], boundary);
    var rows := Backfilled(w.log, w.rows, overlap, n);
    assert rows == InsertAll(w.rows, done);
    forall k
      ensures k in rows <==> k in w.rows || (Scan(k) in w.log[..m] && IsCandidate(Scan(k), boundary))
    {
      InsertAllHolds(w.rows, done, k);
      CandidatesAre(w.log[..m], boundary, k);
    }
    var mark := Watermark(rows);
    forall e | e in w.log && e.Scan? && mark.Some? && e.key.time < mark.value - overlap
      ensures e.key in rows
    {
      var k :| k in rows && k.time == mark.value;
      if IsCandidate(e, boundary) {
        assert k !in w.rows;
        StandsInPart(w.log, overlap, m, k, e);
      }
    }
  }

  /** A record too old for a scan in the first part of an ordered log stands in that part itself. */
  lemma StandsInPart(log: Log, overlap: int, m: nat, k: ScanKey, e: Entry)
    requires InOrder(log, overlap) && m <= |log| && Scan(k) in log[..m]
    requires e in log && e.Scan? && e.key.time < k.time - overlap
    ensures e in log[..m]
  {
    var j :| 0 <= j < m && log[..m][j] == Scan(k);
    var i :| 0 <= i < |log| && log[i] == e;
    if i >= m {
      assert !Disordered(log, j, i, overlap);
      var n :| 0 <= n < j + 1 && log[..j + 1][n] == e;
      assert log[..m][n] == e;
    } else {
      assert log[..m][i] == e;
    }
  }

  lemma InsertMovesWatermark(rows: Rows, k: ScanKey)
    ensures var mark := Watermark(Insert(rows, k));
      && mark.Some? && k.time <= mark.value
      && (mark.value == k.time || mark == Watermark(rows))
      && (Watermark(rows).Some? ==> Watermark(rows).value <= mark.value)
  {
  }

  /** Live capture stores a scan at once and so may move the watermark past records that were never stored: it keeps the
      guarantee exactly when no unstored record is more than the overlap older than the captured scan. */
  lemma LiveScanKeepsCoveredIff(w: World, k: ScanKey, overlap: int)
    requires Covered(w, overlap)
    ensures Covered(World(w.log + [Scan(k)], Insert(w.rows, k)), overlap) <==> PassesNothingBy(w, k, overlap)
  {
    InsertMovesWatermark(w.rows, k);
    var log, rows := w.log + [Scan(k)], Insert(w.rows, k);
    if PassesNothingBy(w, k, overlap) {
      forall e | e in log && e.Scan? && e.key.time < Watermark(rows).value - overlap
        ensures e.key in rows
      {
        if e.key != k { assert e in w.log; }
      }
    } else {
      var e :| e in w.log && e.Scan? && e.key !in w.rows && e.key != k && e.key.time < k.time - overlap;
      assert e in log && e.key !in rows;
    }
  }

  lemma LiveScanIsStored(w: World, k: ScanKey)
    requires StoredFromLog(w)
    ensures StoredFromLog(World(w.log + [Scan(k)], Insert(w.rows, k)))
  {
  }

  lemma {:induction false} RunStaysCovered(events: seq<Event>, overlap: int, batch: nat)
    requires InOrder(Run(events, overlap, batch).log, overlap) && LiveScansPassNothingBy(events, overlap, batch)
    ensures Covered(Run(events, overlap, batch), overlap) && StoredFromLog(Run(events, overlap, batch))
    decreases |events|
  {
    if events != [] {
      var front, e := events[..|events| - 1], events[|events| - 1];
      var w := Run(front, overlap, batch);
      match e {
        case Append(entry) =>
          InOrderPrefix(w.log, entry, overlap);
          RunStaysCovered(front, overlap, batch);
          AppendKeepsCovered(w, entry, overlap);
        case Live(key) =>
          InOrderPrefix(w.log, Scan(key), overlap);
          RunStaysCovered(front, overlap, batch);
          LiveScanKeepsCoveredIff(w, key, overlap);
          LiveScanIsStored(w, key);
        case Backfill(chunks) =>
          RunStaysCovered(front, overlap, batch);
          BackfillKeepsCovered(w, overlap, chunks * batch);
      }
    }
  }

  /** After every event so far. */
  predicate CoveredThroughout(events: seq<Event>, overlap: int, batch: nat) {
    && Covered(Run(events, overlap, batch), overlap)
    && (events != [] ==> CoveredThroughout(events[..|events| - 1], overlap, batch))
  }

  /** Over an ordered log the guarantee holds after every event exactly if no live capture of the run passes an unstored
      record by. */
  lemma {:induction false} CoveredThroughoutIff(events: seq<Event>, overlap: int, batch: nat)
    requires InOrder(Run(events, overlap, batch).log, overlap)
    ensures CoveredThroughout(events, overlap, batch) <==> LiveScansPassNothingBy(events, overlap, batch)
    decreases |events|
  {
    if LiveScansPassNothingBy(events, overlap, batch) { RunStaysCovered(events, overlap, batch); }
    if events != [] {
      var front, e := events[..|events| - 1], events[|events| - 1];
      var w := Run(front, overlap, batch);
      if !e.Backfill? { InOrderPrefix(w.log, if e.Live? then Scan(e.key) else e.entry, overlap); }
      CoveredThroughoutIff(front, overlap, batch);
      if e.Live? && Covered(w, overlap) { LiveScanKeepsCoveredIff(w, e.key, overlap); }
    }
  }

  /** A backfill that commits every candidate of a covered world leaves nothing out. */
  lemma CompletedCovers(w: World, overlap: int, n: nat)
    requires Covered(w, overlap) && n >= |Candidates(w.log, Boundary(w.rows, overlap))|
    ensures CoversAll(World(w.log, Backfilled(w.log, w.rows, overlap, n)))
  {
    var boundary := Boundary(w.rows, overlap);
    var all := Candidates(w.log, boundary);
    assert all[..|all|] == all;
    forall e | e in w.log && e.Scan?
      ensures e.key in InsertAll(w.rows, all)
    {
      InsertAllHolds(w.rows, all, e.key);
      CandidatesAre(w.log, boundary, e.key);
    }
  }

  /** The world after one completed backfill. */
  function CaughtUp(w: World, overlap: int): World {
    World(w.log, Backfilled(w.log, w.rows, overlap, |Candidates(w.log, Boundary(w.rows, overlap))|))
  }

  /** Whatever was recorded, however often backfills broke off, at any batch size, and with live captures that pass
      nothing by: one completed backfill covers an ordered log. */
  lemma ResumedBackfillCovers(events: seq<Event>, overlap: int, batch: nat)
    requires InOrder(Run(events, overlap, batch).log, overlap) && LiveScansPassNothingBy(events, overlap, batch)
    ensures CoversAll(CaughtUp(Run(events, overlap, batch), overlap))
  {
    RunStaysCovered(events, overlap, batch);
    CatchUpCoversIff(Run(events, overlap, batch), overlap);
  }

  /** From any world whatever: a completed backfill covers the log exactly if everything older than the overlap was
      stored before it. */
  lemma CatchUpCoversIff(w: World, overlap: int)
    ensures CoversAll(CaughtUp(w, overlap)) <==> Covered(w, overlap)
  {
    if Covered(w, overlap) {
      CompletedCovers(w, overlap, |Candidates(w.log, Boundary(w.rows, overlap))|);
    } else {
      var e :| e in w.log && e.Scan? && Watermark(w.rows).Some? && e.key.time < Watermark(w.rows).value - overlap
               && e.key !in w.rows;
      CatchUpMisses(w, overlap, e);
    }
  }

  /** A live capture that passes a record by loses it: even a completed backfill does not bring it back. */
  lemma PassedByIsLost(w: World, k: ScanKey, overlap: int)
    requires Covered(w, overlap) && !PassesNothingBy(w, k, overlap)
    ensures !CoversAll(CaughtUp(World(w.log + [Scan(k)], Insert(w.rows, k)), overlap))
  {
    LiveScanKeepsCoveredIff(w, k, overlap);
    CatchUpCoversIff(World(w.log + [Scan(k)], Insert(w.rows, k)), overlap);
  }

  /** A run that ends in w and whose live captures pass nothing by. */
  predicate Reaches(events: seq<Event>, w: World, overlap: int, batch: nat) {
    Run(events, overlap, batch) == w && LiveScansPassNothingBy(events, overlap, batch)
  }

  lemma OneMoreEvent(events: seq<Event>, w: World, e: Event, t: World, overlap: int, batch: nat)
    returns (all: seq<Event>)
    requires Reaches(events, w, overlap, batch) && !e.Live? && Step(w, e, overlap, batch) == t
    ensures Reaches(all, t, overlap, batch)
  {
    all := events + [e];
    assert all[..|events|] == events;
  }

  lemma HeadFirst(before: Log, log: Log)
    requires log != []
    ensures before + [log[0]] + log[1..] == before + log
  {
  }

  lemma {:induction false} ReachAppended(events: seq<Event>, w: World, log: Log, overlap: int, batch: nat)
    returns (all: seq<Event>)
    requires Reaches(events, w, overlap, batch)
    ensures Reaches(all, World(w.log + log, w.rows), overlap, batch)
    decreases |log|
  {
    if log == [] {
      all := events;
      assert w.log + log == w.log;
    } else {
      var next := World(w.log + [log[0]], w.rows);
      all := OneMoreEvent(events, w, Append(log[0]), next, overlap, batch);
      all := ReachAppended(all, next, log[1..], overlap, batch);
      HeadFirst(w.log, log);
    }
  }

  /** The whole log backfilled from nothing. */
  lemma ReachBackfilled(log: Log, overlap: int, batch: nat) returns (events: seq<Event>, rows: Rows)
    requires batch > 0
    ensures Reaches(events, World(log, rows), overlap, batch)
    ensures forall k :: k in rows <==> Scan(k) in log
  {
    var all := Candidates(log, None);
    rows := InsertAll([], all);
    events := ReachAppended([], World([], []), log, overlap, batch);
    assert [] + log == log;
    MoreThanEnough(|all|, batch);
    assert all[..|all|] == all;
    events := OneMoreEvent(events, World(log, []), Backfill(|all|), World(log, rows), overlap, batch);
    forall k
      ensures k in rows <==> Scan(k) in log
    {
      InsertAllHolds([], all, k);
      CandidatesAre(log, None, k);
    }
  }

  lemma MoreThanEnough(n: nat, batch: nat)
    requires batch > 0
    ensures n * batch >= n
  {
  }

  /** An unstored record below the boundary is not picked up. */
  lemma CatchUpMisses(w: World, overlap: int, e: Entry)
    requires e in w.log && e.Scan? && e.key !in w.rows
    requires Boundary(w.rows, overlap).Some? && e.key.time < Boundary(w.rows, overlap).value
    ensures !CoversAll(CaughtUp(w, overlap))
  {
    var rest := Candidates(w.log, Boundary(w.rows, overlap));
    assert rest[..|rest|] == rest;
    CandidatesAre(w.log, Boundary(w.rows, overlap), e.key);
    InsertAllHolds(w.rows, rest, e.key);
  }

  /** Once the log is stored up to record i, a later record too old for it that did not stand there is lost. */
  lemma StoredUpToLoses(log: Log, overlap: int, i: nat, j: nat, rows: Rows)
    requires i < j < |log| && Disordered(log, i, j, overlap)
    requires forall k :: k in rows <==> Scan(k) in log[..i + 1]
    ensures !CoversAll(CaughtUp(World(log, rows), overlap))
  {
    assert log[..i + 1][i] == Scan(log[i].key);
    assert log[i].key in rows && log[j].key !in rows;
    CatchUpMisses(World(log, rows), overlap, log[j]);
  }

  /** A log that is not in order can lose a record for good even if no backfill breaks off. */
  lemma DisorderLoses(log: Log, overlap: int, batch: nat) returns (events: seq<Event>)
    requires !InOrder(log, overlap) && batch > 0
    ensures Run(events, overlap, batch).log == log && LiveScansPassNothingBy(events, overlap, batch)
    ensures !CoversAll(CaughtUp(Run(events, overlap, batch), overlap))
  {
    var i, j :| 0 <= i < j < |log| && Disordered(log, i, j, overlap);
    var first, later := log[..i + 1], log[i + 1..];
    assert first + later == log;
    var rows;
    events, rows := ReachBackfilled(first, overlap, batch);
    events := ReachAppended(events, World(first, rows), later, overlap, batch);
    StoredUpToLoses(log, overlap, i, j, rows);
  }

  /** Exactly the ordered logs are covered in the end whatever happened on the way, as long as live captures pass
      nothing by. */
  lemma CoverageIffInOrder(log: Log, overlap: int, batch: nat)
    requires batch > 0
    ensures InOrder(log, overlap) <==>
      forall events: seq<Event> ::
        Run(events, overlap, batch).log == log && LiveScansPassNothingBy(events, overlap, batch) ==>
          CoversAll(CaughtUp(Run(events, overlap, batch), overlap))
  {
    if InOrder(log, overlap) {
      forall events: seq<Event> |
        Run(events, overlap, batch).log == log && LiveScansPassNothingBy(events, overlap, batch)
        ensures CoversAll(CaughtUp(Run(events, overlap, batch), overlap))
      {
        ResumedBackfillCovers(events, overlap, batch);
      }
    } else {
      var events := DisorderLoses(log, overlap, batch);
    }
  }
}
