/** What an import keeps: unique personnel ids row by row, untouched people, and files that come back unchanged. */
module PersonnelCsvTheorems {
  import opened Basics
  import opened PersonnelCsv

  /** The UNIQUE constraint. */
  predicate Unique(t: Table) {
    forall d, e | d in t && e in t && t[d].personnelId.Some? && t[d].personnelId == t[e].personnelId :: d == e
  }

  /** Generated ids: distinct, and of nobody in the table. */
  predicate FreshIds(t: Table, newIds: seq<EmployeeId>) {
    && (forall i | 0 <= i < |newIds| :: newIds[i] !in t)
    && (forall i, j | 0 <= i < j < |newIds| :: newIds[i] != newIds[j])
  }

  // ---- Facts about accepted rows ----

  /** What acceptance says of one row, given what was seen before it. */
  predicate Accepted(t: Table, before: Seen, row: Row, v: Verdict) {
    && !v.Failed? && v.data == row.data
    && (row.data.personnelId.Some? ==>
         row.data.personnelId.value !in before.pids && !OwnedByOther(t, row.data.personnelId.value, row.id))
    && (v.New? <==> row.id.None?)
    && (!v.New? ==>
         row.id.Some? && row.id.value.Names? && row.id.value.employee == v.employee && row.id.value !in before.ids
         && v.employee in t && (v.Unchanged? <==> Same(t[v.employee], v.data)))
  }

  lemma JudgeAccepts(t: Table, ranks: set<string>, before: Seen, row: Row)
    requires !Judge(t, ranks, before, row).0.Failed?
    ensures Accepted(t, before, row, Judge(t, ranks, before, row).0)
    ensures Judge(t, ranks, before, row).1.pids ==
      before.pids + (if row.data.personnelId.Some? then {row.data.personnelId.value} else {})
    ensures Judge(t, ranks, before, row).1.ids == before.ids + (if row.id.Some? then {row.id.value} else {})
  {
  }

  /** What a row must meet to be accepted, in no particular order. */
  lemma AcceptedIff(t: Table, ranks: set<string>, before: Seen, row: Row)
    ensures !Judge(t, ranks, before, row).0.Failed? <==>
      && row.data.displayName != "" && (row.data.rank.Some? ==> row.data.rank.value in ranks)
      && (row.data.personnelId.Some? ==>
           row.data.personnelId.value !in before.pids && !OwnedByOther(t, row.data.personnelId.value, row.id))
      && (row.id.Some? ==> row.id.value.Names? && row.id.value !in before.ids && row.id.value.employee in t)
  {
  }

  /** Somebody in the table has the row's personnel id, and the row does not name that person as the table would. */
  predicate TakenByOther(t: Table, row: Row) {
    row.data.personnelId.Some?
    && exists e :: e in t && t[e].personnelId == row.data.personnelId && row.id != Some(Names(e, 0))
  }

  /** The person is, field by field, as the row says. */
  predicate SaysOf(h: Human, d: Data) {
    h == Human(d.displayName, d.rank, d.english, d.branch, d.category, d.personnelId, h.active)
    && d.active == Some(h.active)
  }

  /** What is wrong with a row is the first of seven things; otherwise it is new without a reference, unchanged if it
      says what the table says, and an update if not. */
  lemma VerdictIs(t: Table, ranks: set<string>, before: Seen, row: Row)
    ensures var v, d := Judge(t, ranks, before, row).0, row.data;
      var wrong := [d.displayName == "", d.rank.Some? && d.rank.value !in ranks,
                    d.personnelId.Some? && d.personnelId.value in before.pids, TakenByOther(t, row),
                    row.id.Some? && row.id.value.Malformed?, row.id.Some? && row.id.value in before.ids,
                    row.id.Some? && row.id.value.Names? && row.id.value.employee !in t];
      && (v == Failed(MissingDisplayName) <==> FirstAt(wrong, 0))
      && (v == Failed(UnknownRank) <==> FirstAt(wrong, 1))
      && (v == Failed(DuplicatePersonnelIdInFile) <==> FirstAt(wrong, 2))
      && (v == Failed(DuplicatePersonnelId) <==> FirstAt(wrong, 3))
      && (v == Failed(InvalidReference) <==> FirstAt(wrong, 4))
      && (v == Failed(DuplicateReferenceInFile) <==> FirstAt(wrong, 5))
      && (v == Failed(ReferenceNotFound) <==> FirstAt(wrong, 6))
      && (v.New? ==> v.data == d && (v.sameName <==> exists e :: e in t && t[e].displayName == d.displayName))
      && (v.Unchanged? || v.Update? ==>
           && row.id.Some? && row.id.value.Names? && row.id.value.employee == v.employee && v.employee in t
           && v.data == d && (v.Unchanged? <==> SaysOf(t[v.employee], d)))
  {
    assert TakenByOther(t, row) <==>
      row.data.personnelId.Some? && OwnedByOther(t, row.data.personnelId.value, row.id);
  }

  /** What a row leaves to be noticed: its personnel id once that is nobody else's, and its reference once it is one and
      has not been seen, even if the row fails later. */
  lemma SeenIs(t: Table, ranks: set<string>, before: Seen, row: Row)
    ensures var seen, d := Judge(t, ranks, before, row).1, row.data;
      var named := d.displayName != "" && (d.rank.Some? ==> d.rank.value in ranks);
      var free := d.personnelId.Some? ==> d.personnelId.value !in before.pids && !TakenByOther(t, row);
      && (forall p :: p in seen.pids <==> p in before.pids || (named && free && d.personnelId == Some(p)))
      && (forall r :: r in seen.ids <==> r in before.ids || (named && free && row.id == Some(r) && r.Names?))
  {
    assert TakenByOther(t, row) <==>
      row.data.personnelId.Some? && OwnedByOther(t, row.data.personnelId.value, row.id);
  }

  datatype Kind = IsNew | IsUpdate | IsUnchanged | IsFailed

  function KindOf(v: Verdict): Kind {
    if v.New? then IsNew else if v.Update? then IsUpdate else if v.Unchanged? then IsUnchanged else IsFailed
  }

  function Counted(s: Summary, k: Kind): nat {
    match k
    case IsNew => s.news
    case IsUpdate => s.updates
    case IsUnchanged => s.same
    case IsFailed => s.errors
  }

  function RowsOf(vs: seq<Verdict>, k: Kind): set<nat> {
    set i: nat | i < |vs| && KindOf(vs[i]) == k
  }

  lemma RowsOfSnoc(vs: seq<Verdict>, v: Verdict, k: Kind)
    ensures |RowsOf(vs + [v], k)| == |RowsOf(vs, k)| + if KindOf(v) == k then 1 else 0
  {
    var n: nat := |vs|;
    assert RowsOf(vs + [v], k) == RowsOf(vs, k) + if KindOf(v) == k then {n} else {};
  }

  lemma LastIsCounted(vs: seq<Verdict>, k: Kind)
    requires vs != []
    ensures var n := |vs| - 1;
      Counted(Summarize(vs), k) == Counted(Summarize(vs[..n]), k) + if KindOf(vs[n]) == k then 1 else 0
  {
  }

  /** The summary counts the rows that came out as each. */
  lemma {:induction false} SummaryIs(vs: seq<Verdict>, k: Kind)
    ensures Counted(Summarize(vs), k) == |RowsOf(vs, k)|
    decreases |vs|
  {
    if vs == [] {
      assert RowsOf(vs, k) == {};
    } else {
      SummaryIs(vs[..|vs| - 1], k);
      RowsOfSnoc(vs[..|vs| - 1], vs[|vs| - 1], k);
      assert vs == vs[..|vs| - 1] + [vs[|vs| - 1]];
      LastIsCounted(vs, k);
    }
  }

  predicate FirstAt(wrong: seq<bool>, k: nat)
    requires k < |wrong|
  {
    wrong[k] && forall i | 0 <= i < k :: !wrong[i]
  }

  /** A row that is written leaves its person as it says, and nobody else touched. */
  lemma WrittenSays(t: Table, v: Verdict, newId: EmployeeId)
    requires Writes(v) && v.data.active.Some?
    ensures var u, e := Written(t, v, newId), if v.New? then newId else v.employee;
      e in u && SaysOf(u[e], v.data) && u.Keys == t.Keys + {e} && forall d | d in t && d != e :: u[d] == t[d]
  {
  }

  /** How a file's cells are read: stripped, blank ones as absent, and the active column by its words. */
  lemma CellsAreRead(raw: RawRow)
    ensures var d := Read(raw).data;
      && Read(raw).id == raw.employeeId && d.displayName == Strip(raw.displayName)
      && CellIs(raw.rank, d.rank) && CellIs(raw.english, d.english) && CellIs(raw.branch, d.branch)
      && CellIs(raw.category, d.category) && CellIs(raw.personnelId, d.personnelId)
      && (d.active == Some(true) <==> raw.active == "" || ActiveWord(Lower(Strip(raw.active)), true))
      && (d.active == Some(false) <==> raw.active != "" && ActiveWord(Lower(Strip(raw.active)), false))
  {
    BlankIffStripped(raw.rank);
    BlankIffStripped(raw.english);
    BlankIffStripped(raw.branch);
    BlankIffStripped(raw.category);
    BlankIffStripped(raw.personnelId);
    WordsAreApart(Lower(Strip(raw.active)));
  }

  predicate CellIs(raw: string, o: Option<string>) {
    o == if Blank(raw) then None else Some(Strip(raw))
  }

  predicate ActiveWord(v: string, active: bool) {
    if active then
      v == "true" || v == "1" || v == "yes" || v == "y"
      || v == "\U{0E43}\U{0E0A}\U{0E49}\U{0E07}\U{0E32}\U{0E19}\U{0E2D}\U{0E22}\U{0E39}\U{0E48}"
    else
      v == "false" || v == "0" || v == "no" || v == "n" || v == ""
      || v == "\U{0E22}\U{0E49}\U{0E32}\U{0E22}\U{0E2D}\U{0E2D}\U{0E01}\U{0E41}\U{0E25}\U{0E49}\U{0E27}"
  }

  lemma WordsAreApart(v: string)
    ensures v in YES <==> ActiveWord(v, true)
    ensures v in NO <==> ActiveWord(v, false)
    ensures !(ActiveWord(v, true) && ActiveWord(v, false))
  {
    assert YES[0] == "true" && YES[1] == "1" && YES[2] == "yes" && YES[3] == "y";
    assert NO[0] == "false" && NO[1] == "0" && NO[2] == "no" && NO[3] == "n" && NO[5] == "";
    assert YES[4] in YES && NO[4] in NO;
    if ActiveWord(v, true) && v != "" {
      assert v[0] in "t1y\U{0E43}";
    }
    if ActiveWord(v, false) && v != "" {
      assert v[0] in "f0n\U{0E22}";
    }
  }

  lemma JudgeOnlyAdds(t: Table, ranks: set<string>, before: Seen, row: Row)
    ensures before.pids <= Judge(t, ranks, before, row).1.pids && before.ids <= Judge(t, ranks, before, row).1.ids
  {
  }

  lemma {:induction false} SeenGrows(t: Table, ranks: set<string>, rows: seq<Row>, i: nat, j: nat)
    requires i <= j <= |rows|
    ensures SeenAfter(t, ranks, rows[..i]).pids <= SeenAfter(t, ranks, rows[..j]).pids
    ensures SeenAfter(t, ranks, rows[..i]).ids <= SeenAfter(t, ranks, rows[..j]).ids
    decreases j
  {
    if i < j {
      SeenGrows(t, ranks, rows, i, j - 1);
      assert rows[..j][..j - 1] == rows[..j - 1];
      JudgeOnlyAdds(t, ranks, SeenAfter(t, ranks, rows[..j - 1]), rows[j - 1]);
    }
  }

  lemma AcceptedAt(t: Table, ranks: set<string>, rows: seq<Row>, i: nat)
    requires i < |rows| && !Verdicts(t, ranks, rows)[i].Failed?
    ensures Accepted(t, SeenAfter(t, ranks, rows[..i]), rows[i], Verdicts(t, ranks, rows)[i])
    ensures rows[i].data.personnelId.Some? ==>
      rows[i].data.personnelId.value in SeenAfter(t, ranks, rows[..i + 1]).pids
    ensures rows[i].id.Some? ==> rows[i].id.value in SeenAfter(t, ranks, rows[..i + 1]).ids
  {
    VerdictAt(t, ranks, rows, i);
    assert rows[..i + 1][..i] == rows[..i];
    JudgeAccepts(t, ranks, SeenAfter(t, ranks, rows[..i]), rows[i]);
  }

  /** Two accepted rows never carry the same personnel id, nor the same reference. */
  lemma AcceptedDiffer(t: Table, ranks: set<string>, rows: seq<Row>, i: nat, j: nat)
    requires i < j < |rows| && !Verdicts(t, ranks, rows)[i].Failed? && !Verdicts(t, ranks, rows)[j].Failed?
    ensures rows[i].data.personnelId.Some? ==> rows[i].data.personnelId != rows[j].data.personnelId
    ensures rows[i].id.Some? ==> rows[i].id != rows[j].id
  {
    AcceptedAt(t, ranks, rows, i);
    AcceptedAt(t, ranks, rows, j);
    SeenGrows(t, ranks, rows, i + 1, j);
  }

  // ---- Uniqueness at every row ----

  predicate AssignedBy(vs: seq<Verdict>, newIds: seq<EmployeeId>, i: nat, e: EmployeeId, pid: string) {
    i < |vs| && i < |newIds| && Writes(vs[i]) && Target(vs[i], newIds[i]) == e && vs[i].data.personnelId == Some(pid)
  }

  /** A personnel id in the table after k rows was there before for the same person, or one of the rows assigned it. */
  lemma {:induction false} Origin(t: Table, vs: seq<Verdict>, newIds: seq<EmployeeId>, k: nat, e: EmployeeId,
                                  pid: string)
    requires k <= |vs| == |newIds| && Writable(vs) && Owns(Committed(t, vs, newIds, k), e, pid)
    ensures Owns(t, e, pid) || exists i: nat :: i < k && AssignedBy(vs, newIds, i, e, pid)
    decreases k
  {
    if k > 0 {
      if Writes(vs[k - 1]) && Target(vs[k - 1], newIds[k - 1]) == e {
        assert AssignedBy(vs, newIds, k - 1, e, pid);
      } else {
        Origin(t, vs, newIds, k - 1, e, pid);
      }
    }
  }

  /** A row that assigns an id which somebody already had assigns it to that very person. */
  lemma AssignedToOwner(t: Table, ranks: set<string>, rows: seq<Row>, newIds: seq<EmployeeId>, i: nat, d: EmployeeId,
                        e: EmployeeId, pid: string)
    requires |newIds| == |rows| && AssignedBy(Verdicts(t, ranks, rows), newIds, i, e, pid) && Owns(t, d, pid)
    ensures d == e
  {
    AcceptedAt(t, ranks, rows, i);
    var raw := rows[i].id;
    assert raw != Some(Names(d, 0)) ==> OwnedByOther(t, pid, raw);
  }

  lemma AssignedOnce(t: Table, ranks: set<string>, rows: seq<Row>, newIds: seq<EmployeeId>, i: nat, j: nat,
                     d: EmployeeId,
                     e: EmployeeId, pid: string)
    requires |newIds| == |rows|
    requires AssignedBy(Verdicts(t, ranks, rows), newIds, i, d, pid)
    requires AssignedBy(Verdicts(t, ranks, rows), newIds, j, e, pid)
    ensures d == e
  {
    AcceptedAt(t, ranks, rows, i);
    AcceptedAt(t, ranks, rows, j);
    if i < j { AcceptedDiffer(t, ranks, rows, i, j); }
    if j < i { AcceptedDiffer(t, ranks, rows, j, i); }
  }

  /** Written row by row in file order, the table is free of duplicate personnel ids after every single row. */
  lemma UniqueAfterEveryRow(t: Table, ranks: set<string>, rows: seq<Row>, newIds: seq<EmployeeId>, k: nat)
    requires Unique(t) && k <= |rows| == |newIds| && Writable(Verdicts(t, ranks, rows))
    ensures Unique(Committed(t, Verdicts(t, ranks, rows), newIds, k))
  {
    var vs := Verdicts(t, ranks, rows);
    var u := Committed(t, vs, newIds, k);
    forall d, e | d in u && e in u && u[d].personnelId.Some? && u[d].personnelId == u[e].personnelId
      ensures d == e
    {
      var pid := u[d].personnelId.value;
      Origin(t, vs, newIds, k, d, pid);
      Origin(t, vs, newIds, k, e, pid);
      if Owns(t, d, pid) {
        if !Owns(t, e, pid) {
          var j: nat :| j < k && AssignedBy(vs, newIds, j, e, pid);
          AssignedToOwner(t, ranks, rows, newIds, j, d, e, pid);
        }
      } else {
        var i: nat :| i < k && AssignedBy(vs, newIds, i, d, pid);
        if Owns(t, e, pid) {
          AssignedToOwner(t, ranks, rows, newIds, i, e, d, pid);
        } else {
          var j: nat :| j < k && AssignedBy(vs, newIds, j, e, pid);
          AssignedOnce(t, ranks, rows, newIds, i, j, d, e, pid);
        }
      }
    }
  }

  // ---- Who is touched ----

  predicate Named(rows: seq<Row>, e: EmployeeId) {
    exists i :: 0 <= i < |rows| && rows[i].id.Some? && rows[i].id.value.Names? && rows[i].id.value.employee == e
  }

  /** Nobody is removed, only the people a row names are rewritten, and every addition is a row without a reference. */
  lemma {:induction false} OnlyNamedAreTouched(t: Table, ranks: set<string>, rows: seq<Row>, newIds: seq<EmployeeId>,
                                               k: nat)
    requires k <= |rows| == |newIds| && FreshIds(t, newIds) && Writable(Verdicts(t, ranks, rows))
    ensures var u := Committed(t, Verdicts(t, ranks, rows), newIds, k);
      && t.Keys <= u.Keys
      && (forall e | e in t && !Named(rows, e) :: u[e] == t[e])
      && (forall e ::
           e in u && e !in t <==>
           exists i :: 0 <= i < k && Verdicts(t, ranks, rows)[i].New? && newIds[i] == e)
    decreases k
  {
    if k > 0 {
      OnlyNamedAreTouched(t, ranks, rows, newIds, k - 1);
      var v := Verdicts(t, ranks, rows)[k - 1];
      if Writes(v) {
        AcceptedAt(t, ranks, rows, k - 1);
        if v.Update? { assert Named(rows, v.employee); }
      }
    }
  }

  // ---- Committing the same file again ----

  predicate AllReferTo(rows: seq<Row>) {
    forall i | 0 <= i < |rows| :: rows[i].id.Some?
  }

  predicate NoErrors(vs: seq<Verdict>) {
    forall i | 0 <= i < |vs| :: !vs[i].Failed?
  }

  predicate AllUnchanged(vs: seq<Verdict>) {
    forall i | 0 <= i < |vs| :: vs[i].Unchanged?
  }

  predicate SamePerson(a: Row, b: Row) {
    a.id.Some? && b.id.Some? && a.id.value.Names? && b.id.value.Names? && a.id.value.employee == b.id.value.employee
  }

  /** Rows with a personnel id spell their reference canonically, and rows that name one person, which then must spell
      it differently, say the same of it. */
  predicate WellSpelled(rows: seq<Row>) {
    && (forall i | 0 <= i < |rows| && rows[i].data.personnelId.Some? ::
         rows[i].id.Some? && rows[i].id.value.Names? && rows[i].id.value.spelling == 0)
    && (forall i, j | 0 <= i < j < |rows| && SamePerson(rows[i], rows[j]) :: rows[i].data == rows[j].data)
  }

  /** The second time, the first k rows find what they say, and the seen ids evolve as the first time. */
  lemma {:induction false} SecondTime(t: Table, u: Table, ranks: set<string>, rows: seq<Row>, k: nat)
    requires k <= |rows| && NoErrors(Verdicts(t, ranks, rows)) && Unique(u)
    requires AllReferTo(rows) && WellSpelled(rows)
    requires forall i | 0 <= i < |rows| && rows[i].id.value.Names? ::
      rows[i].id.value.employee in u && Same(u[rows[i].id.value.employee], rows[i].data)
    ensures SeenAfter(u, ranks, rows[..k]) == SeenAfter(t, ranks, rows[..k])
    ensures forall i | 0 <= i < k :: Verdicts(u, ranks, rows)[i].Unchanged?
    decreases k
  {
    if k > 0 {
      var i := k - 1;
      SecondTime(t, u, ranks, rows, i);
      assert rows[..k][..i] == rows[..i];
      VerdictAt(t, ranks, rows, i);
      VerdictAt(u, ranks, rows, i);
      var seen := SeenAfter(t, ranks, rows[..i]);
      JudgeAccepts(t, ranks, seen, rows[i]);
      FindsItself(u, ranks, seen, rows[i], Judge(t, ranks, seen, rows[i]).0, t);
    }
  }

  /** An accepted row is unchanged in a table where its person already is as it says. */
  lemma FindsItself(u: Table, ranks: set<string>, seen: Seen, row: Row, first: Verdict, t: Table)
    requires Unique(u) && row.id.Some? && first == Judge(t, ranks, seen, row).0 && !first.Failed?
    requires row.data.personnelId.Some? ==> row.id.value.Names? && row.id.value.spelling == 0
    requires row.id.value.Names? ==> row.id.value.employee in u && Same(u[row.id.value.employee], row.data)
    ensures Judge(u, ranks, seen, row).0.Unchanged? && Judge(u, ranks, seen, row).1 == Judge(t, ranks, seen, row).1
  {
  }

  /** After k rows a named person is as its rows say if one of them has been passed, and as before otherwise. */
  lemma {:induction false} CommittedData(t: Table, ranks: set<string>, rows: seq<Row>, newIds: seq<EmployeeId>,
                                         k: nat, i: nat)
    requires i < |rows| && k <= |rows| == |newIds| && NoErrors(Verdicts(t, ranks, rows)) && AllReferTo(rows)
    requires Writable(Verdicts(t, ranks, rows))
    requires forall j | 0 <= j < |rows| && SamePerson(rows[i], rows[j]) :: rows[j].data == rows[i].data
    ensures rows[i].id.value.Names?
    ensures var u := Committed(t, Verdicts(t, ranks, rows), newIds, k); var e := rows[i].id.value.employee;
      e in u && (Same(u[e], rows[i].data) || (i >= k && e in t && u[e] == t[e]))
    decreases k
  {
    var vs := Verdicts(t, ranks, rows);
    AcceptedAt(t, ranks, rows, i);
    if k > 0 {
      CommittedData(t, ranks, rows, newIds, k - 1, i);
      AcceptedAt(t, ranks, rows, k - 1);
    }
  }

  /** Committing an error-free file of references again: every row comes out unchanged exactly when the file spells its
      references canonically wherever that matters. */
  lemma SecondImportUnchangedIff(t: Table, ranks: set<string>, rows: seq<Row>, newIds: seq<EmployeeId>)
    requires Unique(t) && |newIds| == |rows| && AllReferTo(rows)
    requires NoErrors(Verdicts(t, ranks, rows)) && Writable(Verdicts(t, ranks, rows))
    ensures var u := Committed(t, Verdicts(t, ranks, rows), newIds, |rows|);
      AllUnchanged(Verdicts(u, ranks, rows)) <==> WellSpelled(rows)
  {
    var vs := Verdicts(t, ranks, rows);
    var u := Committed(t, vs, newIds, |rows|);
    UniqueAfterEveryRow(t, ranks, rows, newIds, |rows|);
    if WellSpelled(rows) {
      forall i | 0 <= i < |rows| && rows[i].id.value.Names?
        ensures rows[i].id.value.employee in u && Same(u[rows[i].id.value.employee], rows[i].data)
      {
        AcceptedAt(t, ranks, rows, i);
        CommittedData(t, ranks, rows, newIds, |rows|, i);
      }
      SecondTime(t, u, ranks, rows, |rows|);
    }
    if AllUnchanged(Verdicts(u, ranks, rows)) { UnchangedIsWellSpelled(u, ranks, rows); }
  }

  lemma UnchangedIsWellSpelled(u: Table, ranks: set<string>, rows: seq<Row>)
    requires AllUnchanged(Verdicts(u, ranks, rows))
    ensures WellSpelled(rows)
  {
    forall i | 0 <= i < |rows|
      ensures rows[i].id.Some? && rows[i].id.value.Names? && rows[i].id.value.employee in u
      ensures Same(u[rows[i].id.value.employee], rows[i].data)
      ensures rows[i].data.personnelId.Some? ==> rows[i].id.value.spelling == 0
    {
      AcceptedAt(u, ranks, rows, i);
      var e := rows[i].id.value.employee;
      if rows[i].data.personnelId.Some? { assert Owns(u, e, rows[i].data.personnelId.value); }
    }
  }

  // ---- Export and back ----

  /** A stored text that survives the trip: absent, or neither empty nor padded. */
  predicate Clean(o: Option<string>) {
    o.None? || (o.value != "" && Strip(o.value) == o.value)
  }

  predicate CleanHuman(h: Human, ranks: set<string>) {
    h.displayName != "" && Strip(h.displayName) == h.displayName && Clean(h.rank) && Clean(h.english) && Clean(h.branch)
    && Clean(h.category) && Clean(h.personnelId) && (h.rank.Some? ==> h.rank.value in ranks)
  }

  /** One exported row: the canonical id, and an empty cell for every absent field. */
  function Exported(e: EmployeeId, h: Human): RawRow {
    RawRow(Some(Names(e, 0)), h.personnelId.GetOr(""), h.displayName, h.rank.GetOr(""), h.english.GetOr(""),
           h.branch.GetOr(""), h.category.GetOr(""), if h.active then "true" else "false")
  }

  function ExportAll(t: Table, order: seq<EmployeeId>): (r: seq<Row>)
    requires forall e | e in order :: e in t
    ensures |r| == |order| && forall i | 0 <= i < |order| :: r[i] == Read(Exported(order[i], t[order[i]]))
  {
    seq(|order|, i requires 0 <= i < |order| => assert order[i] in order; Read(Exported(order[i], t[order[i]])))
  }

  lemma FieldRoundTrip(o: Option<string>)
    ensures Field(o.GetOr("")) == o <==> Clean(o)
  {
  }

  lemma ActiveRoundTrip(active: bool)
    ensures ParseActive(if active then "true" else "false") == Some(active)
  {
    assert Strip("true") == "true" && Strip("false") == "false";
    assert Lower("true") == "true" && Lower("false") == "false";
    assert YES[0] == "true" && NO[0] == "false";
    assert "false" != "true" && "false" != "1" && "false" != "yes" && "false" != "y";
    assert "false" !in YES;
  }

  lemma SameAfterTrip(e: EmployeeId, h: Human, ranks: set<string>)
    ensures var d := Read(Exported(e, h)).data;
      && (CleanHuman(h, ranks) <==> Same(h, d) && d.displayName != "" && (d.rank.Some? ==> d.rank.value in ranks))
  {
    FieldRoundTrip(h.rank);
    FieldRoundTrip(h.english);
    FieldRoundTrip(h.branch);
    FieldRoundTrip(h.category);
    FieldRoundTrip(h.personnelId);
    ActiveRoundTrip(h.active);
  }

  /** What the rows of clean records look like. */
  predicate Faithful(t: Table, ranks: set<string>, e: EmployeeId, row: Row) {
    e in t && row.id == Some(Names(e, 0)) && Same(t[e], row.data) && row.data.displayName != ""
    && (row.data.rank.Some? ==> row.data.rank.value in ranks)
  }

  /** Nothing has been seen but the ids of the first k people. */
  predicate SeenOnly(t: Table, order: seq<EmployeeId>, k: nat, seen: Seen)
    requires k <= |order|
  {
    && (forall p | p in seen.pids :: exists i :: 0 <= i < k && Owns(t, order[i], p))
    && (forall r | r in seen.ids :: exists i :: 0 <= i < k && r == Names(order[i], 0))
  }

  lemma SeenOneMore(t: Table, order: seq<EmployeeId>, k: nat, before: Seen, after: Seen, row: Row)
    requires k < |order| && SeenOnly(t, order, k, before)
    requires row.id == Some(Names(order[k], 0)) && order[k] in t && Same(t[order[k]], row.data)
    requires after.pids == before.pids + (if row.data.personnelId.Some? then {row.data.personnelId.value} else {})
    requires after.ids == before.ids + {row.id.value}
    ensures SeenOnly(t, order, k + 1, after)
  {
  }

  /** The next person has not been seen, nor have others taken its personnel id. */
  lemma NobodySeenYet(t: Table, order: seq<EmployeeId>, k: nat, seen: Seen)
    requires k < |order| && SeenOnly(t, order, k, seen)
    requires forall i, j | 0 <= i < j < |order| :: order[i] != order[j]
    ensures Names(order[k], 0) !in seen.ids
    ensures forall p | p in seen.pids :: exists d :: d != order[k] && Owns(t, d, p)
  {
  }

  lemma ExportedIsUnchanged(t: Table, ranks: set<string>, seen: Seen, e: EmployeeId, row: Row)
    requires Unique(t) && Faithful(t, ranks, e, row)
    requires row.id.value !in seen.ids
    requires forall p | p in seen.pids :: exists d :: d != e && Owns(t, d, p)
    ensures Judge(t, ranks, seen, row).0.Unchanged?
  {
  }

  /** The next row of an export is unchanged too, and only that person has been seen more. */
  lemma OneMoreOfExport(t: Table, ranks: set<string>, order: seq<EmployeeId>, k: nat, seen: Seen, row: Row)
    requires Unique(t) && k < |order| && Faithful(t, ranks, order[k], row) && SeenOnly(t, order, k, seen)
    requires forall i, j | 0 <= i < j < |order| :: order[i] != order[j]
    ensures Judge(t, ranks, seen, row).0.Unchanged? && SeenOnly(t, order, k + 1, Judge(t, ranks, seen, row).1)
  {
    NobodySeenYet(t, order, k, seen);
    ExportedIsUnchanged(t, ranks, seen, order[k], row);
    JudgeAccepts(t, ranks, seen, row);
    SeenOneMore(t, order, k, seen, Judge(t, ranks, seen, row).1, row);
  }

  lemma SeenNext(t: Table, ranks: set<string>, rows: seq<Row>, k: nat)
    requires k < |rows|
    ensures SeenAfter(t, ranks, rows[..k + 1]) == Judge(t, ranks, SeenAfter(t, ranks, rows[..k]), rows[k]).1
  {
    assert rows[..k + 1][..k] == rows[..k];
  }

  lemma {:induction false} SeenOfExport(t: Table, ranks: set<string>, order: seq<EmployeeId>, rows: seq<Row>, k: nat)
    requires Unique(t) && k <= |order| == |rows|
    requires forall i | 0 <= i < |order| :: Faithful(t, ranks, order[i], rows[i])
    requires forall i, j | 0 <= i < j < |order| :: order[i] != order[j]
    ensures SeenOnly(t, order, k, SeenAfter(t, ranks, rows[..k]))
    decreases k
  {
    if k > 0 {
      SeenOfExport(t, ranks, order, rows, k - 1);
      SeenNext(t, ranks, rows, k - 1);
      OneMoreOfExport(t, ranks, order, k - 1, SeenAfter(t, ranks, rows[..k - 1]), rows[k - 1]);
    }
  }

  lemma UnchangedInExport(t: Table, ranks: set<string>, order: seq<EmployeeId>, rows: seq<Row>, i: nat)
    requires Unique(t) && i < |order| == |rows|
    requires forall i | 0 <= i < |order| :: Faithful(t, ranks, order[i], rows[i])
    requires forall i, j | 0 <= i < j < |order| :: order[i] != order[j]
    ensures Verdicts(t, ranks, rows)[i].Unchanged?
  {
    SeenOfExport(t, ranks, order, rows, i);
    VerdictAt(t, ranks, rows, i);
    OneMoreOfExport(t, ranks, order, i, SeenAfter(t, ranks, rows[..i]), rows[i]);
  }

  /** An export imported again comes out unchanged throughout exactly when every exported record is clean: trimmed, with
      no empty texts, and with a rank of the catalog. */
  lemma ReimportUnchangedIff(t: Table, ranks: set<string>, order: seq<EmployeeId>)
    requires Unique(t) && forall e | e in order :: e in t
    requires forall i, j | 0 <= i < j < |order| :: order[i] != order[j]
    ensures AllUnchanged(Verdicts(t, ranks, ExportAll(t, order))) <==> forall e | e in order :: CleanHuman(t[e], ranks)
  {
    var rows := ExportAll(t, order);
    if forall e | e in order :: CleanHuman(t[e], ranks) {
      forall i | 0 <= i < |order|
        ensures Faithful(t, ranks, order[i], rows[i])
      {
        assert order[i] in order;
        SameAfterTrip(order[i], t[order[i]], ranks);
      }
      forall i | 0 <= i < |order|
        ensures Verdicts(t, ranks, rows)[i].Unchanged?
      {
        UnchangedInExport(t, ranks, order, rows, i);
      }
    }
    if AllUnchanged(Verdicts(t, ranks, rows)) {
      forall e | e in order
        ensures CleanHuman(t[e], ranks)
      {
        var i :| 0 <= i < |order| && order[i] == e;
        AcceptedAt(t, ranks, rows, i);
        VerdictAt(t, ranks, rows, i);
        SameAfterTrip(e, t[e], ranks);
      }
    }
  }
}
