/** Personnel files: a preview classifies every row against the table, a commit writes the rows that are new or changed.
    Rows are parsed records; an id that parses as a UUID is a person together with how the file spells it. */
module PersonnelCsv {
  import opened Basics

  type EmployeeId = nat

  /** Spelling 0 is the canonical text form of the UUID. */
  datatype RawId = Malformed(text: string) | Names(employee: EmployeeId, spelling: nat)

  datatype RawRow = RawRow(employeeId: Option<RawId>, personnelId: string, displayName: string, rank: string,
                           english: string, branch: string, category: string, active: string)

  datatype Human = Human(displayName: string, rank: Option<string>, english: Option<string>, branch: Option<string>,
                         category: Option<string>, personnelId: Option<string>, active: bool)

  /** A row's candidate; an unreadable active value is carried along as None. */
  datatype Data = Data(displayName: string, rank: Option<string>, english: Option<string>, branch: Option<string>,
                       category: Option<string>, personnelId: Option<string>, active: Option<bool>)

  type Table = map<EmployeeId, Human>

  datatype Reason = MissingDisplayName | UnknownRank | DuplicatePersonnelIdInFile | DuplicatePersonnelId
                  | InvalidReference | DuplicateReferenceInFile | ReferenceNotFound

  datatype Verdict =
    | Failed(reason: Reason)
    | New(data: Data, sameName: bool)
    | Update(employee: EmployeeId, data: Data)
    | Unchanged(employee: EmployeeId, data: Data)

  // ---- Text ----

  function StripLeft(s: string): string {
    if s != "" && Space(s[0]) then StripLeft(s[1..]) else s
  }

  function StripRight(s: string): string {
    if s != "" && Space(s[|s| - 1]) then StripRight(s[..|s| - 1]) else s
  }

  function Strip(s: string): string {
    StripRight(StripLeft(s))
  }

  /** Stripping takes the white space off both ends and nothing else. */
  lemma StripIs(s: string)
    ensures exists i, j ::
      0 <= i <= j <= |s| && Strip(s) == s[i..j] && Blank(s[..i]) && Blank(s[j..])
      && (i < j ==> !Space(s[i]) && !Space(s[j - 1]))
  {
    StripLeftIs(s);
    var left := StripLeft(s);
    var i := |s| - |left|;
    StripRightIs(left);
    var j := i + |Strip(s)|;
    assert Strip(s) == left[..|Strip(s)|] == s[i..j] && s[j..] == left[|Strip(s)|..];
    if i < j {
      assert left[0] == s[i] && Strip(s)[j - i - 1] == s[j - 1];
    }
  }

  lemma BlankIffStripped(s: string)
    ensures Blank(s) <==> Strip(s) == ""
  {
    StripLeftIs(s);
    var left := StripLeft(s);
    StripRightIs(left);
    if left == "" {
      assert s[..|s|] == s;
    } else {
      assert s[|s| - |left|] == left[0] && left[0] in s;
      assert Strip(s) + left[|Strip(s)|..] == left;
    }
  }

  lemma {:induction false} StripLeftIs(s: string)
    ensures |StripLeft(s)| <= |s| && StripLeft(s) == s[|s| - |StripLeft(s)|..]
    ensures Blank(s[..|s| - |StripLeft(s)|]) && (StripLeft(s) != "" ==> !Space(StripLeft(s)[0]))
    decreases |s|
  {
    if s != "" && Space(s[0]) {
      StripLeftIs(s[1..]);
      var n := |s| - |StripLeft(s)|;
      assert s[1..][n - 1..] == s[n..] && s[..n] == [s[0]] + s[1..][..n - 1];
    }
  }

  lemma {:induction false} StripRightIs(s: string)
    ensures |StripRight(s)| <= |s| && StripRight(s) == s[..|StripRight(s)|] && Blank(s[|StripRight(s)|..])
    ensures StripRight(s) != "" ==> !Space(StripRight(s)[|StripRight(s)| - 1])
    decreases |s|
  {
    if s != "" && Space(s[|s| - 1]) {
      var front := s[..|s| - 1];
      StripRightIs(front);
      var n := |StripRight(s)|;
      assert front[..n] == s[..n] && s[n..] == front[n..] + [s[|s| - 1]];
    }
  }

  function Lower(s: string): string {
    seq(|s|, i requires 0 <= i < |s| => if 'A' <= s[i] <= 'Z' then (s[i] as int + 32) as char else s[i])
  }

  /** An optional column: blank means absent. */
  function Field(raw: string): Option<string> {
    if Strip(raw) == "" then None else Some(Strip(raw))
  }

  const YES := ["true", "1", "yes", "y",
                "\U{0E43}\U{0E0A}\U{0E49}\U{0E07}\U{0E32}\U{0E19}\U{0E2D}\U{0E22}\U{0E39}\U{0E48}"]
  const NO := ["false", "0", "no", "n",
               "\U{0E22}\U{0E49}\U{0E32}\U{0E22}\U{0E2D}\U{0E2D}\U{0E01}\U{0E41}\U{0E25}\U{0E49}\U{0E27}", ""]

  /** An empty cell means active; a cell of blanks means inactive. */
  function ParseActive(raw: string): Option<bool> {
    if raw == "" then Some(true)
    else
      var v := Lower(Strip(raw));
      if v in YES then Some(true) else if v in NO then Some(false) else None
  }

  /** A row as the classification sees it: whom it names, and its candidate. */
  datatype Row = Row(id: Option<RawId>, data: Data)

  function Read(row: RawRow): Row {
    Row(row.employeeId, Candidate(row))
  }

  function Candidate(row: RawRow): Data {
    Data(Strip(row.displayName), Field(row.rank), Field(row.english), Field(row.branch), Field(row.category),
         Field(row.personnelId), ParseActive(row.active))
  }

  predicate Same(h: Human, d: Data) {
    h.displayName == d.displayName && h.rank == d.rank && h.english == d.english && h.branch == d.branch
    && h.category == d.category && h.personnelId == d.personnelId && Some(h.active) == d.active
  }

  // ---- Classification ----

  datatype Seen = Seen(pids: set<string>, ids: set<RawId>)

  predicate Owns(t: Table, e: EmployeeId, pid: string) {
    e in t && t[e].personnelId == Some(pid)
  }

  /** The table's owner of the personnel id is not, as text, the person the row names. */
  predicate OwnedByOther(t: Table, pid: string, raw: Option<RawId>) {
    exists e :: e in t && Owns(t, e, pid) && raw != Some(Names(e, 0))
  }

  function Judge(t: Table, ranks: set<string>, seen: Seen, row: Row): (Verdict, Seen) {
    var d := row.data;
    if d.displayName == "" then (Failed(MissingDisplayName), seen)
    else if d.rank.Some? && d.rank.value !in ranks then (Failed(UnknownRank), seen)
    else if d.personnelId.Some? && d.personnelId.value in seen.pids then (Failed(DuplicatePersonnelIdInFile), seen)
    else if d.personnelId.Some? && OwnedByOther(t, d.personnelId.value, row.id) then
      (Failed(DuplicatePersonnelId), seen)
    else
      Refer(t, if d.personnelId.Some? then seen.(pids := seen.pids + {d.personnelId.value}) else seen, row)
  }

  function Refer(t: Table, seen: Seen, row: Row): (Verdict, Seen) {
    var d := row.data;
    if row.id.None? then (New(d, exists e :: e in t && t[e].displayName == d.displayName), seen)
    else if row.id.value.Malformed? then (Failed(InvalidReference), seen)
    else if row.id.value in seen.ids then (Failed(DuplicateReferenceInFile), seen)
    else
      var noted := seen.(ids := seen.ids + {row.id.value});
      var e := row.id.value.employee;
      if e !in t then (Failed(ReferenceNotFound), noted)
      else if Same(t[e], d) then (Unchanged(e, d), noted)
      else (Update(e, d), noted)
  }

  function SeenAfter(t: Table, ranks: set<string>, rows: seq<Row>): Seen {
    if rows == [] then Seen({}, {})
    else Judge(t, ranks, SeenAfter(t, ranks, rows[..|rows| - 1]), rows[|rows| - 1]).1
  }

  function Verdicts(t: Table, ranks: set<string>, rows: seq<Row>): (r: seq<Verdict>)
    ensures |r| == |rows|
  {
    if rows == [] then []
    else
      var front := rows[..|rows| - 1];
      Verdicts(t, ranks, front) + [Judge(t, ranks, SeenAfter(t, ranks, front), rows[|rows| - 1]).0]
  }

  datatype Summary = Summary(news: nat, updates: nat, same: nat, errors: nat)

  function Summarize(vs: seq<Verdict>): Summary {
    if vs == [] then Summary(0, 0, 0, 0)
    else
      var s := Summarize(vs[..|vs| - 1]);
      match vs[|vs| - 1]
      case Failed(_) => s.(errors := s.errors + 1)
      case New(_, _) => s.(news := s.news + 1)
      case Update(_, _) => s.(updates := s.updates + 1)
      case Unchanged(_, _) => s.(same := s.same + 1)
  }

  lemma {:induction false} VerdictAt(t: Table, ranks: set<string>, rows: seq<Row>, i: nat)
    requires i < |rows|
    ensures Verdicts(t, ranks, rows)[i] == Judge(t, ranks, SeenAfter(t, ranks, rows[..i]), rows[i]).0
    decreases |rows|
  {
    var n := |rows| - 1;
    if i < n {
      VerdictAt(t, ranks, rows[..n], i);
      assert rows[..n][..i] == rows[..i];
    }
  }

  // ---- Commit ----

  predicate Writes(v: Verdict) {
    v.New? || v.Update?
  }

  function ToHuman(d: Data): Human
    requires d.active.Some?
  {
    Human(d.displayName, d.rank, d.english, d.branch, d.category, d.personnelId, d.active.value)
  }

  /** The columns are not nullable: a row whose active value could not be read makes the statement fail. */
  predicate Writable(vs: seq<Verdict>) {
    forall i | 0 <= i < |vs| && Writes(vs[i]) :: vs[i].data.active.Some?
  }

  function Target(v: Verdict, newId: EmployeeId): EmployeeId
    requires Writes(v)
  {
    if v.New? then newId else v.employee
  }

  function Written(t: Table, v: Verdict, newId: EmployeeId): Table
    requires Writes(v) ==> v.data.active.Some?
  {
    if Writes(v) then t[Target(v, newId) := ToHuman(v.data)] else t
  }

  /** The table after the first k rows; row i would insert under newIds[i]. */
  function Committed(t: Table, vs: seq<Verdict>, newIds: seq<EmployeeId>, k: nat): Table
    requires k <= |vs| == |newIds| && Writable(vs)
  {
    if k == 0 then t else Written(Committed(t, vs, newIds, k - 1), vs[k - 1], newIds[k - 1])
  }

  class Registry {
    var humans: Table

    constructor (t: Table)
      ensures humans == t
    {
      humans := t;
    }

    /** classify_csv_rows: changes nothing. */
    method ClassifyCsvRows(ranks: set<string>, rows: seq<Row>) returns (results: seq<Verdict>, summary: Summary)
      ensures results == Verdicts(humans, ranks, rows) && summary == Summarize(results)
    {
      results := [];
      var seen := Seen({}, {});
      var i := 0;
      while i < |rows|
        invariant i <= |rows| && results == Verdicts(humans, ranks, rows[..i])
        invariant seen == SeenAfter(humans, ranks, rows[..i])
      {
        assert rows[..i + 1][..i] == rows[..i];
        var verdict;
        verdict, seen := ClassifyRow(ranks, seen, rows[i]);
        results := results + [verdict];
        i := i + 1;
      }
      assert rows[..i] == rows;
      summary := Summary(0, 0, 0, 0);
      var j := 0;
      while j < |results|
        invariant j <= |results| && summary == Summarize(results[..j])
      {
        assert results[..j + 1][..j] == results[..j];
        match results[j] {
          case Failed(_) => summary := summary.(errors := summary.errors + 1);
          case New(_, _) => summary := summary.(news := summary.news + 1);
          case Update(_, _) => summary := summary.(updates := summary.updates + 1);
          case Unchanged(_, _) => summary := summary.(same := summary.same + 1);
        }
        j := j + 1;
      }
      assert results[..j] == results;
    }

    /** One turn of the loop, with its early continues. */
    method ClassifyRow(ranks: set<string>, before: Seen, row: Row) returns (verdict: Verdict, seen: Seen)
      ensures (verdict, seen) == Judge(humans, ranks, before, row)
    {
      seen := before;
      var d := row.data;
      if d.displayName == "" { return Failed(MissingDisplayName), seen; }
      if d.rank.Some? && d.rank.value !in ranks { return Failed(UnknownRank), seen; }
      if d.personnelId.Some? {
        var pid := d.personnelId.value;
        if pid in seen.pids { return Failed(DuplicatePersonnelIdInFile), seen; }
        if OwnedByOther(humans, pid, row.id) { return Failed(DuplicatePersonnelId), seen; }
        seen := seen.(pids := seen.pids + {pid});
      }
      if row.id.Some? {
        var raw := row.id.value;
        if raw.Malformed? { return Failed(InvalidReference), seen; }
        if raw in seen.ids { return Failed(DuplicateReferenceInFile), seen; }
        seen := seen.(ids := seen.ids + {raw});
        if raw.employee !in humans { return Failed(ReferenceNotFound), seen; }
        return if Same(humans[raw.employee], d) then Unchanged(raw.employee, d) else Update(raw.employee, d), seen;
      }
      verdict := New(d, exists e :: e in humans && humans[e].displayName == d.displayName);
    }

    /** commit_csv_rows, in one transaction. */
    method CommitCsvRows(ranks: set<string>, rows: seq<Row>, newIds: seq<EmployeeId>)
      returns (ok: bool, created: nat, updated: nat)
      requires |newIds| == |rows|
      modifies this
      ensures var vs := Verdicts(old(humans), ranks, rows);
        && ok == Writable(vs)
        && humans == (if ok then Committed(old(humans), vs, newIds, |vs|) else old(humans))
        && (ok ==> created == Summarize(vs).news && updated == Summarize(vs).updates)
    {
      var results, summary := ClassifyCsvRows(ranks, rows);
      var saved := humans;
      created, updated := 0, 0;
      var k := 0;
      while k < |results|
        invariant k <= |results| && results == Verdicts(saved, ranks, rows) && saved == old(humans)
        invariant Writable(results[..k]) && humans == Committed(saved, results[..k], newIds[..k], k)
        invariant created == Summarize(results[..k]).news && updated == Summarize(results[..k]).updates
      {
        assert results[..k + 1][..k] == results[..k];
        var r := results[k];
        if Writes(r) && r.data.active.None? {
          humans := saved;
          return false, 0, 0;
        }
        NextCommit(saved, results, newIds, k);
        if r.New? {
          humans := humans[newIds[k] := ToHuman(r.data)];
          created := created + 1;
        } else if r.Update? {
          humans := humans[r.employee := ToHuman(r.data)];
          updated := updated + 1;
        }
        k := k + 1;
      }
      assert results[..k] == results && newIds[..k] == newIds;
      ok := true;
    }
  }

  lemma {:induction false} CommitPrefix(t: Table, vs: seq<Verdict>, newIds: seq<EmployeeId>, k: nat, n: nat)
    requires k <= n <= |vs| == |newIds| && Writable(vs[..n])
    ensures Committed(t, vs[..n], newIds[..n], k) == Committed(t, vs[..k], newIds[..k], k)
    decreases k
  {
    if k > 0 {
      CommitPrefix(t, vs, newIds, k - 1, n);
      CommitPrefix(t, vs, newIds, k - 1, k);
    }
  }

  lemma NextCommit(t: Table, vs: seq<Verdict>, newIds: seq<EmployeeId>, k: nat)
    requires k < |vs| == |newIds| && Writable(vs[..k + 1])
    ensures Writable(vs[..k])
    ensures Committed(t, vs[..k + 1], newIds[..k + 1], k + 1)
         == Written(Committed(t, vs[..k], newIds[..k], k), vs[k], newIds[k])
  {
    CommitPrefix(t, vs, newIds, k, k + 1);
  }
}
