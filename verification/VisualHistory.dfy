/**
 The append-only visual history of part requests: artifacts, snapshots and their numbered occurrences.
 */
module VisualHistory {
  import opened Wrappers
  import opened SqlGuards

  const HISTORY: seq<TableName> := [VisualArtifacts, VisualSnapshots, VisualOccurrences]

  const OUT_OF_BOUNDS := Unbounded(VisualSnapshots, "snapshot_id", "occurrence_count", "ordinal")

  function Bounded(): Trigger {
    Trigger(BoundedVisualOrdinal, VisualOccurrences, {Insert}, OUT_OF_BOUNDS)
  }

  /** The triggers that are meant to be in force: PostgreSQL needs one per table, SQLite one per table and operation. */
  function Guards(dialect: Dialect): seq<Trigger> {
    if dialect == Postgres then
      [Trigger(Immutable(VisualArtifacts), VisualArtifacts, {Update, Delete}, Always),
       Trigger(Immutable(VisualSnapshots), VisualSnapshots, {Update, Delete}, Always),
       Trigger(Immutable(VisualOccurrences), VisualOccurrences, {Update, Delete}, Always),
       Bounded()]
    else
      [Trigger(ImmutableOn(VisualArtifacts, Update), VisualArtifacts, {Update}, Always),
       Trigger(ImmutableOn(VisualArtifacts, Delete), VisualArtifacts, {Delete}, Always),
       Trigger(ImmutableOn(VisualSnapshots, Update), VisualSnapshots, {Update}, Always),
       Trigger(ImmutableOn(VisualSnapshots, Delete), VisualSnapshots, {Delete}, Always),
       Trigger(ImmutableOn(VisualOccurrences, Update), VisualOccurrences, {Update}, Always),
       Trigger(ImmutableOn(VisualOccurrences, Delete), VisualOccurrences, {Delete}, Always),
       Bounded()]
  }

  /** `guard_statements`: the statements of either dialect install its guards. */
  method GuardStatements(dialect: Dialect) returns (statements: seq<Ddl>)
    ensures Installed(statements) == Guards(dialect)
  {
    statements := [];
    ghost var expected := Guards(dialect);
    if dialect == Postgres {
      InstalledFunction(statements, RejectVisualMutation, Always);
      statements := statements + [CreateFunction(RejectVisualMutation, Always)];
      for i := 0 to |HISTORY|
        invariant Installed(statements) == expected[..i] && BodyOf(statements, RejectVisualMutation) == Always
      {
        InstalledCalling(statements, Immutable(HISTORY[i]), HISTORY[i], {Update, Delete}, RejectVisualMutation);
        statements := statements + [CreateTriggerCalling(Immutable(HISTORY[i]), HISTORY[i], {Update, Delete},
          RejectVisualMutation)];
      }
      InstalledFunction(statements, CheckVisualOrdinal, OUT_OF_BOUNDS);
      statements := statements + [CreateFunction(CheckVisualOrdinal, OUT_OF_BOUNDS)];
      InstalledCalling(statements, BoundedVisualOrdinal, VisualOccurrences, {Insert}, CheckVisualOrdinal);
      statements := statements + [CreateTriggerCalling(BoundedVisualOrdinal, VisualOccurrences, {Insert},
        CheckVisualOrdinal)];
    } else {
      var operations := [Update, Delete];
      for i := 0 to |HISTORY|
        invariant Installed(statements) == expected[..2 * i]
      {
        for j := 0 to |operations|
          invariant Installed(statements) == expected[..2 * i + j]
        {
          InstalledWhen(statements, ImmutableOn(HISTORY[i], operations[j]), HISTORY[i], {operations[j]}, Always);
          statements := statements + [CreateTriggerWhen(ImmutableOn(HISTORY[i], operations[j]), HISTORY[i],
            {operations[j]}, Always)];
        }
      }
      InstalledWhen(statements, BoundedVisualOrdinal, VisualOccurrences, {Insert}, OUT_OF_BOUNDS);
      statements := statements + [CreateTriggerWhen(BoundedVisualOrdinal, VisualOccurrences, {Insert}, OUT_OF_BOUNDS)];
    }
  }

  // ---------------------------------------------------------------- Histories

  predicate OfSnapshot(row: Row, snapshot: int) {
    Get(row, "snapshot_id") == Int(snapshot)
  }

  /** The unique and check constraints on the numbering columns. */
  predicate Admitted(db: Db, change: Change) {
    && KeyFits(db, change)
    && (change.InsertRow? && change.table == VisualSnapshots ==>
          Get(change.row, "occurrence_count").Int? && Get(change.row, "occurrence_count").n >= 0)
    && (change.InsertRow? && change.table == VisualOccurrences ==>
          && Get(change.row, "ordinal").Int? && Get(change.row, "ordinal").n > 0
          && (forall id :: id in Rows(db, VisualOccurrences) ==>
                Distinguished(Rows(db, VisualOccurrences)[id], change.row)))
  }

  /** Two occurrences of one snapshot have different ordinals and different sources. */
  predicate Distinguished(a: Row, b: Row) {
    Get(a, "snapshot_id") == Get(b, "snapshot_id") ==>
      && Get(a, "ordinal") != Get(b, "ordinal")
      && (Get(a, "source_kind") != Get(b, "source_kind") || Get(a, "hotspot_id") != Get(b, "hotspot_id"))
  }

  function Perform(db: Db, dialect: Dialect, change: Change): Option<Db> {
    if Refused(db, Guards(dialect), change) || !Admitted(db, change) then None else Some(Stored(db, change))
  }

  /** The outcome of the row changes of all committed statements, in order; None when one of them cannot happen. */
  function After(db: Db, dialect: Dialect, changes: seq<Change>): Option<Db> {
    if changes == [] then Some(db)
    else
      var before := After(db, dialect, changes[..|changes| - 1]);
      if before.None? then None else Perform(before.value, dialect, changes[|changes| - 1])
  }

  ghost predicate Blank(db: Db) {
    Rows(db, VisualArtifacts) == map[] && Rows(db, VisualSnapshots) == map[] && Rows(db, VisualOccurrences) == map[]
  }

  ghost predicate Reachable(db: Db) {
    exists start, dialect, changes :: Blank(start) && After(start, dialect, changes) == Some(db)
  }

  // ---------------------------------------------------------------- The two dialects agree

  /** What the guards refuse, said without triggers. */
  predicate Forbidden(db: Db, change: Change) {
    change.table in HISTORY
    && (!change.InsertRow? || (change.table == VisualOccurrences && Holds(db, OUT_OF_BOUNDS, change)))
  }

  lemma GuardsRefuseExactly(db: Db, dialect: Dialect, change: Change)
    ensures Refused(db, Guards(dialect), change) <==> Forbidden(db, change)
  {
    var guards := Guards(dialect);
    assert HISTORY[0] == VisualArtifacts && HISTORY[1] == VisualSnapshots && HISTORY[2] == VisualOccurrences;
    if dialect == Postgres {
      assert Refused(db, guards, change) <==>
        Raises(db, guards[0], change) || Raises(db, guards[1], change) || Raises(db, guards[2], change)
          || Raises(db, guards[3], change);
    } else {
      assert Refused(db, guards, change) <==>
        Raises(db, guards[0], change) || Raises(db, guards[1], change) || Raises(db, guards[2], change)
          || Raises(db, guards[3], change)
        || Raises(db, guards[4], change) || Raises(db, guards[5], change) || Raises(db, guards[6], change);
    }
  }

  /** A database under SQLite triggers and one under PostgreSQL triggers go through the same histories. */
  lemma {:induction false} DialectsAgree(db: Db, changes: seq<Change>)
    ensures After(db, Sqlite, changes) == After(db, Postgres, changes)
  {
    if changes != [] {
      DialectsAgree(db, changes[..|changes| - 1]);
      var before := After(db, Sqlite, changes[..|changes| - 1]);
      if before.Some? {
        GuardsRefuseExactly(before.value, Sqlite, changes[|changes| - 1]);
        GuardsRefuseExactly(before.value, Postgres, changes[|changes| - 1]);
      }
    }
  }

  // ---------------------------------------------------------------- Nothing is ever rewritten

  ghost predicate Extends(a: Db, b: Db) {
    forall table, id :: table in HISTORY && id in Rows(a, table) ==>
      id in Rows(b, table) && Rows(b, table)[id] == Rows(a, table)[id]
  }

  lemma PerformExtends(db: Db, dialect: Dialect, change: Change)
    requires Perform(db, dialect, change).Some?
    ensures Extends(db, Perform(db, dialect, change).value)
  {
    GuardsRefuseExactly(db, dialect, change);
  }

  /** Every artifact, snapshot and occurrence stays as it was written. */
  lemma {:induction false} HistoryIsAppendOnly(db: Db, dialect: Dialect, changes: seq<Change>)
    requires After(db, dialect, changes).Some?
    ensures Extends(db, After(db, dialect, changes).value)
  {
    if changes != [] {
      HistoryIsAppendOnly(db, dialect, changes[..|changes| - 1]);
      PerformExtends(After(db, dialect, changes[..|changes| - 1]).value, dialect, changes[|changes| - 1]);
    }
  }

  // ---------------------------------------------------------------- Occurrences are numbered within bounds

  function Count(db: Db, snapshot: int): int
    requires snapshot in Rows(db, VisualSnapshots) && Get(Rows(db, VisualSnapshots)[snapshot], "occurrence_count").Int?
  {
    Get(Rows(db, VisualSnapshots)[snapshot], "occurrence_count").n
  }

  ghost predicate Counted(db: Db) {
    forall id :: id in Rows(db, VisualSnapshots) ==>
      Get(Rows(db, VisualSnapshots)[id], "occurrence_count").Int? && Count(db, id) >= 0
  }

  ghost predicate Numbered(db: Db)
    requires Counted(db)
  {
    forall id :: id in Rows(db, VisualOccurrences) ==>
      var row := Rows(db, VisualOccurrences)[id];
      && Get(row, "snapshot_id").Int? && Get(row, "snapshot_id").n in Rows(db, VisualSnapshots)
      && Get(row, "ordinal").Int? && 1 <= Get(row, "ordinal").n <= Count(db, Get(row, "snapshot_id").n)
  }

  ghost predicate AllDistinguished(db: Db) {
    forall i, j :: i in Rows(db, VisualOccurrences) && j in Rows(db, VisualOccurrences) && i != j ==>
      Distinguished(Rows(db, VisualOccurrences)[i], Rows(db, VisualOccurrences)[j])
  }

  ghost predicate Inv(db: Db) {
    Counted(db) && Numbered(db) && AllDistinguished(db)
  }

  /** The guards let nothing but insertions into the history. */
  lemma OnlyInsertions(db: Db, dialect: Dialect, change: Change)
    requires Perform(db, dialect, change).Some?
    ensures change.table == VisualSnapshots || change.table == VisualOccurrences ==> change.InsertRow?
    ensures change.table == VisualOccurrences ==> !Holds(db, OUT_OF_BOUNDS, change)
  {
    GuardsRefuseExactly(db, dialect, change);
    assert HISTORY[1] == VisualSnapshots && HISTORY[2] == VisualOccurrences;
  }

  lemma PerformKeeps(db: Db, dialect: Dialect, change: Change)
    requires Inv(db) && Perform(db, dialect, change).Some?
    ensures Inv(Perform(db, dialect, change).value)
  {
    OnlyInsertions(db, dialect, change);
    var next := Stored(db, change);
    if change.table == VisualSnapshots {
      assert Counted(next);
      assert Rows(next, VisualOccurrences) == Rows(db, VisualOccurrences);
    } else {
      assert Rows(next, VisualSnapshots) == Rows(db, VisualSnapshots);
      assert Counted(next);
    }
  }

  lemma {:induction false} AfterKeeps(db: Db, dialect: Dialect, changes: seq<Change>)
    requires Inv(db) && After(db, dialect, changes).Some?
    ensures Inv(After(db, dialect, changes).value)
  {
    if changes != [] {
      AfterKeeps(db, dialect, changes[..|changes| - 1]);
      PerformKeeps(After(db, dialect, changes[..|changes| - 1]).value, dialect, changes[|changes| - 1]);
    }
  }

  lemma ReachableInv(db: Db)
    requires Reachable(db)
    ensures Inv(db)
  {
    var start, dialect, changes :| Blank(start) && After(start, dialect, changes) == Some(db);
    AfterKeeps(start, dialect, changes);
  }

  // ---------------------------------------------------------------- The pigeonhole argument

  function OccurrencesOf(db: Db, snapshot: int): set<int> {
    set id | id in Rows(db, VisualOccurrences) && OfSnapshot(Rows(db, VisualOccurrences)[id], snapshot)
  }

  function OrdinalAt(db: Db, id: int): int {
    if id in Rows(db, VisualOccurrences) && Get(Rows(db, VisualOccurrences)[id], "ordinal").Int?
    then Get(Rows(db, VisualOccurrences)[id], "ordinal").n else 0
  }

  function OrdinalsAt(db: Db, ids: set<int>): set<int> {
    set id | id in ids :: OrdinalAt(db, id)
  }

  function UpTo(n: int): (numbers: set<int>)
    ensures |numbers| == if n < 0 then 0 else n
    ensures forall k :: k in numbers <==> 1 <= k <= n
  {
    if n <= 0 then {} else UpTo(n - 1) + {n}
  }

  lemma {:induction false} SubsetIsSmaller(a: set<int>, b: set<int>)
    requires a <= b
    ensures |a| <= |b| && (|a| == |b| ==> a == b)
  {
    assert b == a + (b - a);
    assert |b| == |a| + |b - a|;
  }

  function NumberedUpTo(db: Db, snapshot: int, n: nat): set<int> {
    set id | id in OccurrencesOf(db, snapshot) && 1 <= OrdinalAt(db, id) <= n
  }

  lemma OnlyOneHas(db: Db, snapshot: int, a: int, b: int)
    requires Inv(db) && a in OccurrencesOf(db, snapshot) && b in OccurrencesOf(db, snapshot)
    requires OrdinalAt(db, a) == OrdinalAt(db, b)
    ensures a == b
  {
    hide Counted;
    var x, y := Rows(db, VisualOccurrences)[a], Rows(db, VisualOccurrences)[b];
    assert a == b || Distinguished(x, y);
  }

  /** No ordinal is used twice. */
  lemma {:induction false} DistinctOrdinals(db: Db, snapshot: int, n: nat)
    requires Inv(db)
    ensures |OrdinalsAt(db, NumberedUpTo(db, snapshot, n))| == |NumberedUpTo(db, snapshot, n)|
  {
    hide Inv, OrdinalAt, OccurrencesOf;
    var ids := NumberedUpTo(db, snapshot, n);
    if n == 0 {
      assert ids == {} && OrdinalsAt(db, ids) == {};
    } else {
      var fewer := NumberedUpTo(db, snapshot, n - 1);
      DistinctOrdinals(db, snapshot, n - 1);
      if id :| id in ids && OrdinalAt(db, id) == n {
        forall other | other in ids && OrdinalAt(db, other) == n
          ensures other == id
        {
          OnlyOneHas(db, snapshot, other, id);
        }
        assert ids == fewer + {id};
        assert OrdinalsAt(db, ids) == OrdinalsAt(db, fewer) + {n};
      } else {
        assert ids == fewer;
      }
    }
  }

  lemma OrdinalsMatchOccurrences(db: Db, snapshot: int)
    requires Inv(db) && snapshot in Rows(db, VisualSnapshots)
    ensures |OrdinalsAt(db, OccurrencesOf(db, snapshot))| == |OccurrencesOf(db, snapshot)|
    ensures OrdinalsAt(db, OccurrencesOf(db, snapshot)) <= UpTo(Count(db, snapshot))
  {
    assert NumberedUpTo(db, snapshot, Count(db, snapshot)) == OccurrencesOf(db, snapshot);
    DistinctOrdinals(db, snapshot, Count(db, snapshot));
  }

  /** A snapshot never has more occurrences than it announces; when it has them all, they are numbered 1 to n. */
  lemma OccurrencesFitTheCount(db: Db, snapshot: int)
    requires Reachable(db) && snapshot in Rows(db, VisualSnapshots)
    ensures Inv(db)
    ensures |OccurrencesOf(db, snapshot)| <= Count(db, snapshot)
    ensures |OccurrencesOf(db, snapshot)| == Count(db, snapshot)
       <==> OrdinalsAt(db, OccurrencesOf(db, snapshot)) == UpTo(Count(db, snapshot))
  {
    ReachableInv(db);
    var ids := OccurrencesOf(db, snapshot);
    OrdinalsMatchOccurrences(db, snapshot);
    SubsetIsSmaller(OrdinalsAt(db, ids), UpTo(Count(db, snapshot)));
  }

  /** A complete snapshot takes no further occurrence, whatever the row. */
  lemma CompleteSnapshotsAreClosed(db: Db, dialect: Dialect, snapshot: int, id: int, row: Row)
    requires Reachable(db) && snapshot in Rows(db, VisualSnapshots) && OfSnapshot(row, snapshot)
    requires Inv(db) && |OccurrencesOf(db, snapshot)| == Count(db, snapshot)
    ensures Perform(db, dialect, InsertRow(VisualOccurrences, id, row)).None?
  {
    OccurrencesFitTheCount(db, snapshot);
    var change := InsertRow(VisualOccurrences, id, row);
    GuardsRefuseExactly(db, dialect, change);
    assert HISTORY[2] == VisualOccurrences;
    if Get(row, "ordinal").Int? && Get(row, "ordinal").n in UpTo(Count(db, snapshot)) {
      var taken :| taken in OccurrencesOf(db, snapshot) && OrdinalAt(db, taken) == Get(row, "ordinal").n;
      assert !Distinguished(Rows(db, VisualOccurrences)[taken], row);
    }
  }

  lemma FreeOrdinal(db: Db, snapshot: int) returns (ordinal: int)
    requires Inv(db) && snapshot in Rows(db, VisualSnapshots)
    requires |OccurrencesOf(db, snapshot)| < Count(db, snapshot)
    ensures 1 <= ordinal <= Count(db, snapshot)
    ensures forall id :: id in OccurrencesOf(db, snapshot) ==> OrdinalAt(db, id) != ordinal
  {
    var used, all := OrdinalsAt(db, OccurrencesOf(db, snapshot)), UpTo(Count(db, snapshot));
    OrdinalsMatchOccurrences(db, snapshot);
    if all <= used {
      SubsetIsSmaller(all, used);
      assert false;
    }
    ordinal :| ordinal in all && ordinal !in used;
  }

  /** An incomplete snapshot still has a number for any occurrence from a source it does not have. */
  lemma IncompleteSnapshotsAreOpen(db: Db, dialect: Dialect, snapshot: int, id: int, row: Row) returns (ordinal: int)
    requires Inv(db) && snapshot in Rows(db, VisualSnapshots) && OfSnapshot(row, snapshot)
    requires |OccurrencesOf(db, snapshot)| < Count(db, snapshot)
    requires id !in Rows(db, VisualOccurrences)
    requires forall other :: other in OccurrencesOf(db, snapshot) ==>
               var there := Rows(db, VisualOccurrences)[other];
               Get(there, "source_kind") != Get(row, "source_kind")
                 || Get(there, "hotspot_id") != Get(row, "hotspot_id")
    ensures Perform(db, dialect, InsertRow(VisualOccurrences, id, row["ordinal" := Int(ordinal)])).Some?
  {
    ordinal := FreeOrdinal(db, snapshot);
    var numbered := row["ordinal" := Int(ordinal)];
    var change := InsertRow(VisualOccurrences, id, numbered);
    GuardsRefuseExactly(db, dialect, change);
    assert Get(numbered, "snapshot_id") == Int(snapshot);
    assert Get(numbered, "source_kind") == Get(row, "source_kind")
      && Get(numbered, "hotspot_id") == Get(row, "hotspot_id");
    forall other | other in Rows(db, VisualOccurrences)
      ensures Distinguished(Rows(db, VisualOccurrences)[other], numbered)
    {
      if other in OccurrencesOf(db, snapshot) {
        assert OrdinalAt(db, other) != ordinal;
      }
    }
    assert !Forbidden(db, change);
  }
}
