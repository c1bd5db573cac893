/**
 The database defence of approved part requests, proved over arbitrary SQL.
 */
module RequestEvidence {
  import opened Wrappers
  import opened SqlGuards

  const LOCKED_REQUEST_FIELDS: seq<string> := [
    "machine_id", "repair_id", "repair_kit_id", "repair_kit_mode", "part_name", "part_number", "quantity",
    "reason", "priority", "request_reference", "language", "requested_by_id", "submitted_at", "decided_at",
    "decided_by_id", "decision_note", "department", "created_at", "request_kind"]

  const LOCKED_LINE_FIELDS: seq<string> := [
    "request_id", "catalog_part_id", "position", "part_number", "description", "quantity", "exact_quantity",
    "delivered_quantity", "unit", "reason", "source_document", "source_page", "is_unknown_part", "assembly",
    "note", "linked_catalog_part_id", "linked_by_id", "linked_at", "link_note"]

  /** Every column of a request line but its primary key. */
  const LINE_COLUMNS: set<string> := {
    "request_id", "catalog_part_id", "position", "part_number", "description", "quantity", "exact_quantity", "unit",
    "reason", "source_document", "source_page", "delivered_quantity", "is_unknown_part", "assembly", "note",
    "linked_catalog_part_id", "linked_by_id", "linked_at", "link_note"}

  /** Every column of a request that an approval fixes; the others tell how far its fulfilment is. */
  const REQUEST_COLUMNS: set<string> := {
    "machine_id", "repair_id", "repair_kit_id", "repair_kit_mode", "part_name", "part_number", "quantity", "reason",
    "priority", "created_at", "request_reference", "language", "requested_by_id", "submitted_at", "decided_at",
    "decided_by_id", "decision_note", "department", "request_kind"}

  const OLD_APPROVED := RefersTo(ApprovalSnapshots, Old, "request_id")
  const NEW_APPROVED := RefersTo(ApprovalSnapshots, New, "request_id")

  /** The triggers that are meant to be in force, whatever the dialect. */
  function Guards(): seq<Trigger> {
    [Trigger(Freeze(ApprovalSnapshots, Update), ApprovalSnapshots, {Update}, Always),
     Trigger(Freeze(ApprovalSnapshots, Delete), ApprovalSnapshots, {Delete}, Always),
     Trigger(Freeze(DeliveryEvents, Update), DeliveryEvents, {Update}, Always),
     Trigger(Freeze(DeliveryEvents, Delete), DeliveryEvents, {Delete}, Always),
     Trigger(FreezeRequestFields, PartRequests, {Update},
       Both(KeyIn(ApprovalSnapshots), Different(LOCKED_REQUEST_FIELDS))),
     Trigger(FreezeRequestDelete, PartRequests, {Delete}, KeyIn(ApprovalSnapshots)),
     Trigger(Freeze(RequestLines, Insert), RequestLines, {Insert}, NEW_APPROVED),
     Trigger(Freeze(RequestLines, Delete), RequestLines, {Delete}, OLD_APPROVED),
     Trigger(Freeze(RequestLines, Update), RequestLines, {Update},
       Both(Either(OLD_APPROVED, NEW_APPROVED), Different(LOCKED_LINE_FIELDS))),
     Trigger(Freeze(RequestAttachments, Insert), RequestAttachments, {Insert}, NEW_APPROVED),
     Trigger(Freeze(RequestAttachments, Delete), RequestAttachments, {Delete}, OLD_APPROVED),
     Trigger(Freeze(RequestAttachments, Update), RequestAttachments, {Update}, Either(OLD_APPROVED, NEW_APPROVED)),
     Trigger(FreezeArchive(Update), GeneratedDocuments, {Update}, RefersTo(ApprovalSnapshots, Old, "part_request_id")),
     Trigger(FreezeArchive(Delete), GeneratedDocuments, {Delete}, RefersTo(ApprovalSnapshots, Old, "part_request_id")),
     Trigger(FreezeCounterDelete, NumberCounter, {Delete}, Always),
     Trigger(FreezeCounterReset, NumberCounter, {Update}, NotNext("next_value"))]
  }

  method AddTrigger(dialect: Dialect, ddl: seq<Ddl>, name: GuardName, table: TableName, operation: Operation,
                    condition: Condition)
    returns (longer: seq<Ddl>)
    ensures Installed(longer) == Installed(ddl) + [Trigger(name, table, {operation}, condition)]
  {
    longer := ddl;
    if dialect == Postgres {
      longer := longer + [CreateFunction(name, condition)];
      InstalledFunction(ddl, name, condition);
      InstalledCalling(longer, name, table, {operation}, name);
      longer := longer + [CreateTriggerCalling(name, table, {operation}, name)];
    } else {
      InstalledWhen(ddl, name, table, {operation}, condition);
      longer := longer + [CreateTriggerWhen(name, table, {operation}, condition)];
    }
  }

  /** `statements`: both dialects install the same guards. */
  method Statements(dialect: Dialect) returns (result: seq<Ddl>)
    ensures Installed(result) == Guards()
  {
    hide Guards, Installed;
    InstalledNothing();
    result := FreezeTables(dialect, []);
    result := AddTrigger(dialect, result, FreezeRequestFields, PartRequests, Update,
                         Both(KeyIn(ApprovalSnapshots), Different(LOCKED_REQUEST_FIELDS)));
    result := AddTrigger(dialect, result, FreezeRequestDelete, PartRequests, Delete, KeyIn(ApprovalSnapshots));
    result := FreezeParts(dialect, result);
    result := FreezeArchiveRows(dialect, result);
    result := AddTrigger(dialect, result, FreezeCounterDelete, NumberCounter, Delete, Always);
    result := AddTrigger(dialect, result, FreezeCounterReset, NumberCounter, Update, NotNext("next_value"));
    GuardsInOrder();
  }

  lemma InstalledNothing()
    ensures Installed([]) == []
  {
  }

  lemma GuardsInOrder()
    ensures Guards() ==
      [] + Guards()[..4]
      + [Trigger(FreezeRequestFields, PartRequests, {Update},
        Both(KeyIn(ApprovalSnapshots), Different(LOCKED_REQUEST_FIELDS)))]
      + [Trigger(FreezeRequestDelete, PartRequests, {Delete}, KeyIn(ApprovalSnapshots))]
      + Guards()[6..12] + Guards()[12..14]
      + [Trigger(FreezeCounterDelete, NumberCounter, {Delete}, Always)]
      + [Trigger(FreezeCounterReset, NumberCounter, {Update}, NotNext("next_value"))]
  {
  }

  method FreezeTables(dialect: Dialect, ddl: seq<Ddl>) returns (longer: seq<Ddl>)
    ensures Installed(longer) == Installed(ddl) + Guards()[..4]
  {
    hide Installed;
    longer := ddl;
    var frozen, operations := [ApprovalSnapshots, DeliveryEvents], [Update, Delete];
    ghost var expected := Guards()[..4];
    for i := 0 to |frozen|
      invariant Installed(longer) == Installed(ddl) + expected[..2 * i]
    {
      for j := 0 to |operations|
        invariant Installed(longer) == Installed(ddl) + expected[..2 * i + j]
      {
        longer := AddTrigger(dialect, longer, Freeze(frozen[i], operations[j]), frozen[i], operations[j], Always);
        assert expected[2 * i + j] == Trigger(Freeze(frozen[i], operations[j]), frozen[i], {operations[j]}, Always);
      }
    }
  }

  /** The guards of one table of parts. */
  function PartGuards(table: TableName): seq<Trigger> {
    var condition := Either(OLD_APPROVED, NEW_APPROVED);
    [Trigger(Freeze(table, Insert), table, {Insert}, NEW_APPROVED),
     Trigger(Freeze(table, Delete), table, {Delete}, OLD_APPROVED),
     Trigger(Freeze(table, Update), table, {Update},
             if table == RequestLines then Both(condition, Different(LOCKED_LINE_FIELDS)) else condition)]
  }

  lemma PartsInOrder()
    ensures Guards()[6..12] == PartGuards(RequestLines) + PartGuards(RequestAttachments)
  {
  }

  method FreezeParts(dialect: Dialect, ddl: seq<Ddl>) returns (longer: seq<Ddl>)
    ensures Installed(longer) == Installed(ddl) + Guards()[6..12]
  {
    hide Installed, PartGuards, Guards;
    longer := ddl;
    var guarded := [RequestLines, RequestAttachments];
    ghost var installed: seq<Trigger> := [];
    for i := 0 to |guarded|
      invariant Installed(longer) == Installed(ddl) + installed
      invariant installed == if i == 0 then []
                             else if i == 1 then PartGuards(RequestLines)
                             else PartGuards(RequestLines) + PartGuards(RequestAttachments)
    {
      installed := installed + PartGuards(guarded[i]);
      longer := FreezePart(dialect, longer, guarded[i]);
    }
    PartsInOrder();
  }

  method FreezePart(dialect: Dialect, ddl: seq<Ddl>, table: TableName) returns (longer: seq<Ddl>)
    ensures Installed(longer) == Installed(ddl) + PartGuards(table)
  {
    hide Installed;
    longer := AddTrigger(dialect, ddl, Freeze(table, Insert), table, Insert, NEW_APPROVED);
    longer := AddTrigger(dialect, longer, Freeze(table, Delete), table, Delete, OLD_APPROVED);
    var condition := Either(OLD_APPROVED, NEW_APPROVED);
    if table == RequestLines {
      condition := Both(condition, Different(LOCKED_LINE_FIELDS));
    }
    longer := AddTrigger(dialect, longer, Freeze(table, Update), table, Update, condition);
  }

  method FreezeArchiveRows(dialect: Dialect, ddl: seq<Ddl>) returns (longer: seq<Ddl>)
    ensures Installed(longer) == Installed(ddl) + Guards()[12..14]
  {
    hide Installed;
    longer := ddl;
    var operations := [Update, Delete];
    ghost var expected := Guards()[12..14];
    for j := 0 to |operations|
      invariant Installed(longer) == Installed(ddl) + expected[..j]
    {
      longer := AddTrigger(dialect, longer, FreezeArchive(operations[j]), GeneratedDocuments, operations[j],
                           RefersTo(ApprovalSnapshots, Old, "part_request_id"));
    }
  }

  // ---------------------------------------------------------------- What the schema adds

  /**
   The constraints the argument needs: an approval names a request, and the counter is the single row 1 from 1000 on.
   */
  predicate Admitted(db: Db, change: Change) {
    && KeyFits(db, change)
    && (change.InsertRow? && change.table == ApprovalSnapshots ==> change.id in Rows(db, PartRequests))
    && (change.table == NumberCounter && !change.DeleteRow? ==>
          change.id == 1 && Get(change.row, "next_value").Int? && Get(change.row, "next_value").n >= 1000)
  }

  function Perform(db: Db, change: Change): Option<Db> {
    if Refused(db, Guards(), change) || !Admitted(db, change) then None else Some(Stored(db, change))
  }

  function PerformAll(db: Db, changes: seq<Change>): Option<Db>
    decreases |changes|
  {
    if changes == [] then Some(db)
    else
      var first := Perform(db, changes[0]);
      if first.None? then None else PerformAll(first.value, changes[1..])
  }

  /** A statement, or a transaction of several, changes all its rows or none. */
  function Execute(db: Db, changes: seq<Change>): Db {
    var done := PerformAll(db, changes);
    if done.Some? then done.value else db
  }

  function Run(db: Db, statements: seq<seq<Change>>): Db
    decreases |statements|
  {
    if statements == [] then db else Run(Execute(db, statements[0]), statements[1..])
  }

  // ---------------------------------------------------------------- What stays

  predicate Approved(db: Db, request: int) {
    request in Rows(db, ApprovalSnapshots)
  }

  predicate BelongsTo(db: Db, table: TableName, id: int, column: string, request: int) {
    id in Rows(db, table) && Get(Rows(db, table)[id], column) == Int(request)
  }

  ghost predicate SameColumns(a: Row, b: Row, columns: seq<string>) {
    forall i :: 0 <= i < |columns| ==> Get(a, columns[i]) == Get(b, columns[i])
  }

  /** The snapshot and the locked fields of the request. */
  ghost predicate RequestStays(a: Db, b: Db, request: int) {
    && request in Rows(a, ApprovalSnapshots) && request in Rows(b, ApprovalSnapshots)
    && Rows(b, ApprovalSnapshots)[request] == Rows(a, ApprovalSnapshots)[request]
    && request in Rows(a, PartRequests) && request in Rows(b, PartRequests)
    && SameColumns(Rows(a, PartRequests)[request], Rows(b, PartRequests)[request], LOCKED_REQUEST_FIELDS)
  }

  /** The same lines with the same locked fields, and the same attachments. */
  ghost predicate PartsStay(a: Db, b: Db, request: int) {
    && (forall id :: BelongsTo(a, RequestLines, id, "request_id", request) <==>
          BelongsTo(b, RequestLines, id, "request_id", request))
    && (forall id :: BelongsTo(a, RequestLines, id, "request_id", request) ==>
          SameColumns(Rows(a, RequestLines)[id], Rows(b, RequestLines)[id], LOCKED_LINE_FIELDS))
    && (forall id :: BelongsTo(a, RequestAttachments, id, "request_id", request) <==>
          BelongsTo(b, RequestAttachments, id, "request_id", request))
    && (forall id :: BelongsTo(a, RequestAttachments, id, "request_id", request) ==>
          Rows(b, RequestAttachments)[id] == Rows(a, RequestAttachments)[id])
  }

  /** The archive of generated documents and the delivery events only grow. */
  ghost predicate ArchiveGrows(a: Db, b: Db, request: int) {
    && (forall id :: BelongsTo(a, GeneratedDocuments, id, "part_request_id", request) ==>
          id in Rows(b, GeneratedDocuments) && Rows(b, GeneratedDocuments)[id] == Rows(a, GeneratedDocuments)[id])
    && (forall id :: id in Rows(a, DeliveryEvents) ==>
          id in Rows(b, DeliveryEvents) && Rows(b, DeliveryEvents)[id] == Rows(a, DeliveryEvents)[id])
  }

  ghost predicate EvidenceStays(a: Db, b: Db, request: int) {
    RequestStays(a, b, request) && PartsStay(a, b, request) && ArchiveGrows(a, b, request)
  }

  /** An approval snapshot always has its request. */
  ghost predicate ApprovalsHaveRequests(db: Db) {
    forall request :: Approved(db, request) ==> request in Rows(db, PartRequests)
  }

  lemma NotRefused(db: Db, change: Change, i: nat)
    requires !Refused(db, Guards(), change) && i < |Guards()|
    ensures !Raises(db, Guards()[i], change)
  {
  }

  /** The locked fields of an approved request survive an update that goes through. */
  lemma LockedFieldsSurvive(db: Db, change: Change)
    requires Perform(db, change).Some? && change.UpdateRow? && change.table == PartRequests && Approved(db, change.id)
    ensures SameColumns(Rows(db, PartRequests)[change.id], change.row, LOCKED_REQUEST_FIELDS)
  {
    NotRefused(db, change, 4);
    assert Guards()[4].condition == Both(KeyIn(ApprovalSnapshots), Different(LOCKED_REQUEST_FIELDS));
    assert Update in Guards()[4].operations && !Holds(db, Guards()[4].condition, change);
    assert Holds(db, KeyIn(ApprovalSnapshots), change);
    assert !Holds(db, Different(LOCKED_REQUEST_FIELDS), change);
  }

  lemma PerformKeepsRequest(db: Db, change: Change, request: int)
    requires ApprovalsHaveRequests(db) && Approved(db, request) && Perform(db, change).Some?
    ensures RequestStays(db, Perform(db, change).value, request)
  {
    NotRefused(db, change, 0);
    NotRefused(db, change, 1);
    NotRefused(db, change, 5);
    if change.UpdateRow? && change.table == PartRequests && Approved(db, change.id) {
      LockedFieldsSurvive(db, change);
    }
  }

  lemma PerformKeepsParts(db: Db, change: Change, request: int)
    requires Approved(db, request) && Perform(db, change).Some?
    ensures PartsStay(db, Perform(db, change).value, request)
  {
    hide Guards, PartsStay, Perform;
    if change.table == RequestLines {
      LineChangeKeepsParts(db, change, request);
    } else if change.table == RequestAttachments {
      AttachmentChangeKeepsParts(db, change, request);
    } else {
      OtherChangeKeepsParts(db, change, request);
    }
  }

  lemma OtherChangeKeepsParts(db: Db, change: Change, request: int)
    requires change.table != RequestLines && change.table != RequestAttachments && Perform(db, change).Some?
    ensures PartsStay(db, Perform(db, change).value, request)
  {
    hide Guards;
    var next := Perform(db, change).value;
    assert Rows(next, RequestLines) == Rows(db, RequestLines)
      && Rows(next, RequestAttachments) == Rows(db, RequestAttachments);
  }

  lemma AttachmentChangeKeepsParts(db: Db, change: Change, request: int)
    requires Approved(db, request) && change.table == RequestAttachments && Perform(db, change).Some?
    ensures PartsStay(db, Perform(db, change).value, request)
  {
    hide Guards;
    AttachmentChangeSparesApproved(db, change, request);
    assert Rows(Perform(db, change).value, RequestLines) == Rows(db, RequestLines);
  }

  lemma AttachmentChangeSparesApproved(db: Db, change: Change, request: int)
    requires Approved(db, request) && change.table == RequestAttachments && Perform(db, change).Some?
    ensures !BelongsTo(db, RequestAttachments, change.id, "request_id", request)
    ensures change.DeleteRow? || Get(change.row, "request_id") != Int(request)
  {
    NotRefused(db, change, 9);
    NotRefused(db, change, 10);
    NotRefused(db, change, 11);
    assert Guards()[9].condition == NEW_APPROVED && Guards()[10].condition == OLD_APPROVED;
    assert Guards()[11].condition == Either(OLD_APPROVED, NEW_APPROVED);
    assert change.UpdateRow? ==> !Holds(db, OLD_APPROVED, change) && !Holds(db, NEW_APPROVED, change);
  }

  lemma LineChangeKeepsParts(db: Db, change: Change, request: int)
    requires Approved(db, request) && change.table == RequestLines && Perform(db, change).Some?
    ensures PartsStay(db, Perform(db, change).value, request)
  {
    if change.UpdateRow? {
      LineUpdateKeepsLocked(db, change, request);
    } else {
      NotRefused(db, change, 6);
      NotRefused(db, change, 7);
      assert Guards()[6].condition == NEW_APPROVED && Guards()[7].condition == OLD_APPROVED;
    }
  }

  lemma LineUpdateKeepsLocked(db: Db, change: Change, request: int)
    requires Approved(db, request) && change.table == RequestLines && change.UpdateRow? && Perform(db, change).Some?
    ensures var before := Rows(db, RequestLines)[change.id];
            Get(before, "request_id") == Int(request) || Get(change.row, "request_id") == Int(request) ==>
              SameColumns(before, change.row, LOCKED_LINE_FIELDS)
                && Get(before, "request_id") == Get(change.row, "request_id")
  {
    var before := Rows(db, RequestLines)[change.id];
    NotRefused(db, change, 8);
    assert Guards()[8].condition == Both(Either(OLD_APPROVED, NEW_APPROVED), Different(LOCKED_LINE_FIELDS));
    if Get(before, "request_id") == Int(request) || Get(change.row, "request_id") == Int(request) {
      assert Holds(db, OLD_APPROVED, change) || Holds(db, NEW_APPROVED, change);
      assert Holds(db, Either(OLD_APPROVED, NEW_APPROVED), change);
      assert !Holds(db, Different(LOCKED_LINE_FIELDS), change);
      assert LOCKED_LINE_FIELDS[0] == "request_id";
    }
  }

  lemma PerformGrowsArchive(db: Db, change: Change, request: int)
    requires Approved(db, request) && Perform(db, change).Some?
    ensures ArchiveGrows(db, Perform(db, change).value, request)
  {
    NotRefused(db, change, 2);
    NotRefused(db, change, 3);
    NotRefused(db, change, 12);
    NotRefused(db, change, 13);
  }

  lemma PerformKeepsApprovals(db: Db, change: Change)
    requires ApprovalsHaveRequests(db) && Perform(db, change).Some?
    ensures ApprovalsHaveRequests(Perform(db, change).value)
  {
    var next := Perform(db, change).value;
    forall request | Approved(next, request) ensures request in Rows(next, PartRequests) {
      if Approved(db, request) {
        PerformKeepsRequest(db, change, request);
      }
    }
  }

  lemma PerformKeepsEvidence(db: Db, change: Change, request: int)
    requires ApprovalsHaveRequests(db) && Approved(db, request) && Perform(db, change).Some?
    ensures EvidenceStays(db, Perform(db, change).value, request)
  {
    PerformKeepsRequest(db, change, request);
    PerformKeepsParts(db, change, request);
    PerformGrowsArchive(db, change, request);
  }

  lemma EvidenceTransitive(a: Db, b: Db, c: Db, request: int)
    requires EvidenceStays(a, b, request) && EvidenceStays(b, c, request)
    ensures EvidenceStays(a, c, request)
  {
    assert forall id :: BelongsTo(a, GeneratedDocuments, id, "part_request_id", request) ==>
      BelongsTo(b, GeneratedDocuments, id, "part_request_id", request);
    assert forall id :: BelongsTo(a, RequestLines, id, "request_id", request) ==>
      BelongsTo(b, RequestLines, id, "request_id", request);
    assert forall id :: BelongsTo(a, RequestAttachments, id, "request_id", request) ==>
      BelongsTo(b, RequestAttachments, id, "request_id", request);
  }

  lemma {:induction false} PerformAllKeepsEvidence(db: Db, changes: seq<Change>, request: int)
    requires ApprovalsHaveRequests(db) && Approved(db, request) && PerformAll(db, changes).Some?
    ensures EvidenceStays(db, PerformAll(db, changes).value, request)
    decreases |changes|
  {
    if changes == [] {
      assert RequestStays(db, db, request);
    } else {
      var next := Perform(db, changes[0]).value;
      PerformKeepsApprovals(db, changes[0]);
      PerformKeepsEvidence(db, changes[0], request);
      PerformAllKeepsEvidence(next, changes[1..], request);
      EvidenceTransitive(db, next, PerformAll(db, changes).value, request);
    }
  }

  lemma {:induction false} PerformAllKeepsApprovals(db: Db, changes: seq<Change>)
    requires ApprovalsHaveRequests(db) && PerformAll(db, changes).Some?
    ensures ApprovalsHaveRequests(PerformAll(db, changes).value)
    decreases |changes|
  {
    if changes != [] {
      PerformKeepsApprovals(db, changes[0]);
      PerformAllKeepsApprovals(Perform(db, changes[0]).value, changes[1..]);
    }
  }

  /** Approved evidence is frozen for ever: no sequence of SQL statements whatever changes it. */
  lemma {:induction false} ApprovedEvidenceIsFrozen(db: Db, statements: seq<seq<Change>>, request: int)
    requires ApprovalsHaveRequests(db) && Approved(db, request)
    ensures EvidenceStays(db, Run(db, statements), request)
    decreases |statements|
  {
    if statements == [] {
      assert RequestStays(db, db, request);
    } else {
      var next := Execute(db, statements[0]);
      if PerformAll(db, statements[0]).Some? {
        PerformAllKeepsEvidence(db, statements[0], request);
        PerformAllKeepsApprovals(db, statements[0]);
      }
      ApprovedEvidenceIsFrozen(next, statements[1..], request);
      if PerformAll(db, statements[0]).Some? {
        EvidenceTransitive(db, next, Run(db, statements), request);
      }
    }
  }

  /**
   Over every sequence of statements an approved request keeps its lines whole: none comes, goes or changes a column.
   */
  lemma ApprovedLinesAreFrozen(db: Db, statements: seq<seq<Change>>, request: int, id: int)
    requires ApprovalsHaveRequests(db) && Approved(db, request)
    ensures var end := Run(db, statements);
            && (BelongsTo(end, RequestLines, id, "request_id", request) <==>
                  BelongsTo(db, RequestLines, id, "request_id", request))
            && (BelongsTo(db, RequestLines, id, "request_id", request) ==>
                  forall column :: column in LINE_COLUMNS ==>
                    Get(Rows(end, RequestLines)[id], column) == Get(Rows(db, RequestLines)[id], column))
  {
    hide Run, ArchiveGrows, RequestStays;
    var end := Run(db, statements);
    ApprovedEvidenceIsFrozen(db, statements, request);
    if BelongsTo(db, RequestLines, id, "request_id", request) {
      forall column | column in LINE_COLUMNS
        ensures Get(Rows(end, RequestLines)[id], column) == Get(Rows(db, RequestLines)[id], column)
      {
        LinesAreLockedWhole(column);
      }
    }
  }

  // ---------------------------------------------------------------- Exactly what the guards refuse

  /** The locked fields of a line are all its columns. */
  lemma LinesAreLockedWhole(column: string)
    ensures column in LOCKED_LINE_FIELDS <==> column in LINE_COLUMNS
  {
  }

  lemma LockedRequestColumns(column: string)
    ensures column in LOCKED_REQUEST_FIELDS <==> column in REQUEST_COLUMNS
  {
  }

  /** Some of the columns is not the same in the two rows. */
  ghost predicate SomeChanges(before: Row, after: Row, columns: set<string>) {
    exists column :: column in columns && Get(before, column) != Get(after, column)
  }

  /** The row of a part names an approved request, before the change or after it. */
  ghost predicate NamesApproved(db: Db, change: Change) {
    exists request :: Approved(db, request) && Names(db, change, request)
  }

  ghost predicate Names(db: Db, change: Change, request: int) {
    || (!change.InsertRow? && BelongsTo(db, change.table, change.id, "request_id", request))
    || (!change.DeleteRow? && Get(change.row, "request_id") == Int(request))
  }

  /** The change would alter what an approval, a delivery or the counter of numbers rests on. */
  ghost predicate AltersEvidence(db: Db, change: Change)
    requires KeyFits(db, change)
  {
    var before := if change.InsertRow? then map[] else Rows(db, change.table)[change.id];
    match change.table
    case ApprovalSnapshots => !change.InsertRow?
    case DeliveryEvents => !change.InsertRow?
    case PartRequests =>
      && !change.InsertRow? && Approved(db, change.id)
      && (change.UpdateRow? ==> SomeChanges(before, change.row, REQUEST_COLUMNS))
    case RequestLines =>
      NamesApproved(db, change) && (change.UpdateRow? ==> SomeChanges(before, change.row, LINE_COLUMNS))
    case RequestAttachments => NamesApproved(db, change)
    case GeneratedDocuments =>
      && !change.InsertRow?
      && exists request :: Approved(db, request) && Get(before, "part_request_id") == Int(request)
    case NumberCounter =>
      || change.DeleteRow?
      || (change.UpdateRow? && Get(before, "next_value").Int? && Get(change.row, "next_value").Int?
          && Get(change.row, "next_value").n != Get(before, "next_value").n + 1)
    case _ => false
  }

  lemma DifferentIsSomeChange(db: Db, change: Change, fields: seq<string>, columns: set<string>)
    requires KeyFits(db, change) && change.UpdateRow?
    requires forall column :: column in fields <==> column in columns
    ensures Holds(db, Different(fields), change)
       <==> SomeChanges(Rows(db, change.table)[change.id], change.row, columns)
  {
    var before := Rows(db, change.table)[change.id];
    if SomeChanges(before, change.row, columns) {
      var column :| column in columns && Get(before, column) != Get(change.row, column);
      var i :| 0 <= i < |fields| && fields[i] == column;
      assert Get(NewRow(db, change), fields[i]) != Get(OldRow(db, change), fields[i]);
    }
    if Holds(db, Different(fields), change) {
      var i :| 0 <= i < |fields| && Get(NewRow(db, change), fields[i]) != Get(OldRow(db, change), fields[i]);
      assert fields[i] in columns;
    }
  }

  lemma SidesNameApproved(db: Db, change: Change)
    requires KeyFits(db, change)
    ensures change.InsertRow? ==> (Holds(db, NEW_APPROVED, change) <==> NamesApproved(db, change))
    ensures change.DeleteRow? ==> (Holds(db, OLD_APPROVED, change) <==> NamesApproved(db, change))
    ensures change.UpdateRow? ==>
      (Holds(db, OLD_APPROVED, change) || Holds(db, NEW_APPROVED, change) <==> NamesApproved(db, change))
  {
    if Holds(db, NEW_APPROVED, change) && !change.DeleteRow? {
      assert Names(db, change, Get(change.row, "request_id").n);
    }
    if Holds(db, OLD_APPROVED, change) && !change.InsertRow? {
      assert Names(db, change, Get(Rows(db, change.table)[change.id], "request_id").n);
    }
  }

  /** Only the guards from `first` to `last` watch the table of the change. */
  lemma Watching(db: Db, change: Change, first: nat, last: nat)
    requires first <= last <= 16
    requires forall i :: 0 <= i < 16 && !(first <= i < last) ==> Guards()[i].table != change.table
    ensures Refused(db, Guards(), change) <==> exists i :: first <= i < last && Raises(db, Guards()[i], change)
  {
    hide Guards, Holds;
    assert |Guards()| == 16 by {
      SixteenGuards();
    }
    if Refused(db, Guards(), change) {
      var i :| 0 <= i < |Guards()| && Raises(db, Guards()[i], change);
      assert first <= i < last;
    }
  }

  lemma SixteenGuards()
    ensures |Guards()| == 16
  {
  }

  lemma RequestChangesRefused(db: Db, change: Change)
    requires KeyFits(db, change) && change.table == PartRequests
    ensures Refused(db, Guards(), change) <==> AltersEvidence(db, change)
  {
    Watching(db, change, 4, 6);
    assert Guards()[4].condition == Both(KeyIn(ApprovalSnapshots), Different(LOCKED_REQUEST_FIELDS));
    assert Holds(db, KeyIn(ApprovalSnapshots), change) <==> Approved(db, change.id);
    assert Raises(db, Guards()[4], change) <==>
        change.UpdateRow? && Approved(db, change.id) && Holds(db, Different(LOCKED_REQUEST_FIELDS), change);
    assert Raises(db, Guards()[5], change) <==> change.DeleteRow? && Approved(db, change.id);
    hide Guards, Refused, Raises, SomeChanges;
    if change.UpdateRow? {
      forall column ensures column in LOCKED_REQUEST_FIELDS <==> column in REQUEST_COLUMNS {
        LockedRequestColumns(column);
      }
      DifferentIsSomeChange(db, change, LOCKED_REQUEST_FIELDS, REQUEST_COLUMNS);
    }
  }

  lemma LineChangesRefused(db: Db, change: Change)
    requires KeyFits(db, change) && change.table == RequestLines
    ensures Refused(db, Guards(), change) <==> AltersEvidence(db, change)
  {
    Watching(db, change, 6, 9);
    assert Raises(db, Guards()[6], change) <==> change.InsertRow? && Holds(db, NEW_APPROVED, change);
    assert Raises(db, Guards()[7], change) <==> change.DeleteRow? && Holds(db, OLD_APPROVED, change);
    assert Guards()[8].condition == Both(Either(OLD_APPROVED, NEW_APPROVED), Different(LOCKED_LINE_FIELDS));
    assert Holds(db, Either(OLD_APPROVED, NEW_APPROVED), change) <==>
        Holds(db, OLD_APPROVED, change) || Holds(db, NEW_APPROVED, change);
    assert Raises(db, Guards()[8], change) <==>
        change.UpdateRow? && (Holds(db, OLD_APPROVED, change) || Holds(db, NEW_APPROVED, change))
        && Holds(db, Different(LOCKED_LINE_FIELDS), change);
    hide Guards, Refused, Raises, SomeChanges, NamesApproved, Holds;
    SidesNameApproved(db, change);
    if change.UpdateRow? {
      forall column ensures column in LOCKED_LINE_FIELDS <==> column in LINE_COLUMNS {
        LinesAreLockedWhole(column);
      }
      DifferentIsSomeChange(db, change, LOCKED_LINE_FIELDS, LINE_COLUMNS);
    }
  }

  lemma AttachmentChangesRefused(db: Db, change: Change)
    requires KeyFits(db, change) && change.table == RequestAttachments
    ensures Refused(db, Guards(), change) <==> AltersEvidence(db, change)
  {
    Watching(db, change, 9, 12);
    assert Raises(db, Guards()[9], change) <==> change.InsertRow? && Holds(db, NEW_APPROVED, change);
    assert Raises(db, Guards()[10], change) <==> change.DeleteRow? && Holds(db, OLD_APPROVED, change);
    assert Raises(db, Guards()[11], change) <==>
        change.UpdateRow? && (Holds(db, OLD_APPROVED, change) || Holds(db, NEW_APPROVED, change));
    hide Guards, Refused, Raises, NamesApproved, Holds;
    SidesNameApproved(db, change);
  }

  lemma FrozenChangesRefused(db: Db, change: Change)
    requires KeyFits(db, change) && change.table in {ApprovalSnapshots, DeliveryEvents}
    ensures Refused(db, Guards(), change) <==> AltersEvidence(db, change)
  {
    var first := if change.table == ApprovalSnapshots then 0 else 2;
    Watching(db, change, first, first + 2);
    assert Raises(db, Guards()[first], change) <==> change.UpdateRow?;
    assert Raises(db, Guards()[first + 1], change) <==> change.DeleteRow?;
    hide Guards, Refused, Raises;
  }

  lemma ArchiveChangesRefused(db: Db, change: Change)
    requires KeyFits(db, change) && change.table == GeneratedDocuments
    ensures Refused(db, Guards(), change) <==> AltersEvidence(db, change)
  {
    Watching(db, change, 12, 14);
    var archived := Holds(db, RefersTo(ApprovalSnapshots, Old, "part_request_id"), change);
    assert Raises(db, Guards()[12], change) <==> change.UpdateRow? && archived;
    assert Raises(db, Guards()[13], change) <==> change.DeleteRow? && archived;
    hide Guards, Refused, Raises;
    if archived && !change.InsertRow? {
      assert Approved(db, Get(Rows(db, change.table)[change.id], "part_request_id").n);
    }
  }

  lemma CounterChangesRefused(db: Db, change: Change)
    requires KeyFits(db, change) && change.table == NumberCounter
    ensures Refused(db, Guards(), change) <==> AltersEvidence(db, change)
  {
    Watching(db, change, 14, 16);
    assert Raises(db, Guards()[14], change) <==> change.DeleteRow?;
    assert Raises(db, Guards()[15], change) <==> change.UpdateRow? && Holds(db, NotNext("next_value"), change);
    hide Guards, Refused, Raises;
  }

  lemma UnguardedChangesPass(db: Db, change: Change)
    requires KeyFits(db, change) && change.table in {VisualArtifacts, VisualSnapshots, VisualOccurrences}
    ensures !Refused(db, Guards(), change) && !AltersEvidence(db, change)
  {
    Watching(db, change, 0, 0);
    hide Guards, Refused;
  }

  /** The guards refuse exactly the changes of evidence; every other change that the schema admits goes through. */
  lemma GuardsRefuseExactly(db: Db, change: Change)
    requires KeyFits(db, change)
    ensures Refused(db, Guards(), change) <==> AltersEvidence(db, change)
    ensures Admitted(db, change) ==> (Perform(db, change).None? <==> AltersEvidence(db, change))
  {
    hide Guards, Refused, AltersEvidence;
    match change.table
    case PartRequests => RequestChangesRefused(db, change);
    case RequestLines => LineChangesRefused(db, change);
    case RequestAttachments => AttachmentChangesRefused(db, change);
    case ApprovalSnapshots => FrozenChangesRefused(db, change);
    case DeliveryEvents => FrozenChangesRefused(db, change);
    case GeneratedDocuments => ArchiveChangesRefused(db, change);
    case NumberCounter => CounterChangesRefused(db, change);
    case _ => UnguardedChangesPass(db, change);
  }

  // ---------------------------------------------------------------- The number counter

  ghost predicate CounterInv(db: Db) {
    forall id :: id in Rows(db, NumberCounter) ==>
      id == 1 && Get(Rows(db, NumberCounter)[id], "next_value").Int?
        && Get(Rows(db, NumberCounter)[id], "next_value").n >= 1000
  }

  function NextValue(db: Db): int {
    if 1 in Rows(db, NumberCounter) && Get(Rows(db, NumberCounter)[1], "next_value").Int? then
      Get(Rows(db, NumberCounter)[1], "next_value").n else 0
  }

  /** The changes of a committed statement that touched the counter. */
  function CounterChanges(changes: seq<Change>): nat {
    if changes == [] then 0 else (if changes[0].table == NumberCounter then 1 else 0) + CounterChanges(changes[1..])
  }

  function CommittedCounterChanges(db: Db, statements: seq<seq<Change>>): nat
    decreases |statements|
  {
    if statements == [] then 0
    else
      (if PerformAll(db, statements[0]).Some? then CounterChanges(statements[0]) else 0)
      + CommittedCounterChanges(Execute(db, statements[0]), statements[1..])
  }

  lemma PerformMovesCounter(db: Db, change: Change)
    requires CounterInv(db) && 1 in Rows(db, NumberCounter) && Perform(db, change).Some?
    ensures var next := Perform(db, change).value;
            && CounterInv(next) && 1 in Rows(next, NumberCounter)
            && NextValue(next) == NextValue(db) + if change.table == NumberCounter then 1 else 0
  {
    NotRefused(db, change, 14);
    NotRefused(db, change, 15);
  }

  lemma {:induction false} PerformAllMovesCounter(db: Db, changes: seq<Change>)
    requires CounterInv(db) && 1 in Rows(db, NumberCounter) && PerformAll(db, changes).Some?
    ensures var next := PerformAll(db, changes).value;
            && CounterInv(next) && 1 in Rows(next, NumberCounter)
            && NextValue(next) == NextValue(db) + CounterChanges(changes)
    decreases |changes|
  {
    if changes != [] {
      PerformMovesCounter(db, changes[0]);
      PerformAllMovesCounter(Perform(db, changes[0]).value, changes[1..]);
    }
  }

  /** The counter is never removed, and its value is where it started plus the number of committed changes to it. */
  lemma {:induction false} CounterOnlyMovesByOne(db: Db, statements: seq<seq<Change>>)
    requires CounterInv(db) && 1 in Rows(db, NumberCounter)
    ensures var end := Run(db, statements);
            && 1 in Rows(end, NumberCounter)
            && NextValue(end) == NextValue(db) + CommittedCounterChanges(db, statements)
    decreases |statements|
  {
    if statements != [] {
      if PerformAll(db, statements[0]).Some? {
        PerformAllMovesCounter(db, statements[0]);
      }
      CounterOnlyMovesByOne(Execute(db, statements[0]), statements[1..]);
    }
  }
}
