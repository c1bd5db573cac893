/**
 SQL tables behind row triggers. Any client may send any INSERT, UPDATE or DELETE; the triggers installed by a
 list of DDL statements, together with the schema's constraints, decide which row changes go through. A
 statement changes any number of rows and is rolled back whole when one of them is refused.
 */
module SqlGuards {
  import opened Wrappers

  datatype Value = Null | Int(n: int) | Text(s: string)

  /** A row without its primary key. An absent column is NULL. */
  type Row = map<string, Value>

  type Table = map<int, Row>

  datatype TableName =
    | PartRequests | RequestLines | RequestAttachments | ApprovalSnapshots | DeliveryEvents
    | GeneratedDocuments | NumberCounter | VisualArtifacts | VisualSnapshots | VisualOccurrences

  /** The names of triggers and of the functions they call. */
  datatype GuardName =
    | Freeze(table: TableName, operation: Operation) | FreezeRequestFields | FreezeRequestDelete
    | FreezeArchive(operation: Operation) | FreezeCounterDelete | FreezeCounterReset
    | RejectVisualMutation | CheckVisualOrdinal | BoundedVisualOrdinal
    | Immutable(table: TableName) | ImmutableOn(table: TableName, operation: Operation)

  type Db = map<TableName, Table>

  function Rows(db: Db, table: TableName): Table {
    if table in db then db[table] else map[]
  }

  function Get(row: Row, column: string): Value {
    if column in row then row[column] else Null
  }

  datatype Operation = Insert | Update | Delete

  datatype Side = Old | New

  /** Trigger conditions, over the row before and the row after the change. */
  datatype Condition =
    | Always
    | KeyIn(table: TableName)                                         // the row's own key is a key of `table`
    | RefersTo(table: TableName, side: Side, column: string)          // the column holds a key of `table`
    | Different(columns: seq<string>)                              // some column changes, NULL being a value
    | NotNext(column: string)                                      // the new value is not the old value plus one
    | Unbounded(table: TableName, reference: string, bound: string, column: string)
    | Both(left: Condition, right: Condition)
    | Either(left: Condition, right: Condition)

  datatype Trigger = Trigger(name: GuardName, table: TableName, operations: set<Operation>, condition: Condition)

  datatype Change =
    | InsertRow(table: TableName, id: int, row: Row)
    | UpdateRow(table: TableName, id: int, row: Row)
    | DeleteRow(table: TableName, id: int)

  function OperationOf(change: Change): Operation {
    match change
    case InsertRow(_, _, _) => Insert
    case UpdateRow(_, _, _) => Update
    case DeleteRow(_, _) => Delete
  }

  function OldRow(db: Db, change: Change): Row {
    if change.id in Rows(db, change.table) then Rows(db, change.table)[change.id] else map[]
  }

  function NewRow(db: Db, change: Change): Row {
    if change.DeleteRow? then map[] else change.row
  }

  function SideRow(db: Db, change: Change, side: Side): Row {
    if side == Old then OldRow(db, change) else NewRow(db, change)
  }

  function Holds(db: Db, condition: Condition, change: Change): bool {
    match condition
    case Always => true
    case KeyIn(table) => change.id in Rows(db, table)
    case RefersTo(table, side, column) =>
      var v := Get(SideRow(db, change, side), column);
      v.Int? && v.n in Rows(db, table)
    case Different(columns) =>
      exists i :: 0 <= i < |columns| && Get(NewRow(db, change), columns[i]) != Get(OldRow(db, change), columns[i])
    case NotNext(column) =>
      var before, after := Get(OldRow(db, change), column), Get(NewRow(db, change), column);
      before.Int? && after.Int? && after.n != before.n + 1
    case Unbounded(table, reference, bound, column) =>
      var key, value := Get(NewRow(db, change), reference), Get(NewRow(db, change), column);
      !(key.Int? && value.Int? && key.n in Rows(db, table)
        && Get(Rows(db, table)[key.n], bound).Int? && Get(Rows(db, table)[key.n], bound).n >= value.n)
    case Both(left, right) => Holds(db, left, change) && Holds(db, right, change)
    case Either(left, right) => Holds(db, left, change) || Holds(db, right, change)
  }

  predicate Raises(db: Db, trigger: Trigger, change: Change) {
    trigger.table == change.table && OperationOf(change) in trigger.operations && Holds(db, trigger.condition, change)
  }

  /** Some trigger of the list aborts the change. */
  predicate Refused(db: Db, triggers: seq<Trigger>, change: Change) {
    exists i :: 0 <= i < |triggers| && Raises(db, triggers[i], change)
  }

  function Stored(db: Db, change: Change): Db {
    var table := Rows(db, change.table);
    if change.DeleteRow? then db[change.table := table - {change.id}]
    else db[change.table := table[change.id := change.row]]
  }

  /** Primary keys are unique and never change; an update or deletion names an existing row. */
  predicate KeyFits(db: Db, change: Change) {
    if change.InsertRow? then change.id !in Rows(db, change.table) else change.id in Rows(db, change.table)
  }

  // ---------------------------------------------------------------- DDL

  datatype Dialect = Postgres | Sqlite

  /** PostgreSQL wraps each condition in a function that the trigger calls; SQLite carries it in the trigger. */
  datatype Ddl =
    | CreateFunction(name: GuardName, raisesWhen: Condition)
    | CreateTriggerCalling(name: GuardName, table: TableName, operations: set<Operation>, called: GuardName)
    | CreateTriggerWhen(name: GuardName, table: TableName, operations: set<Operation>, condition: Condition)

  function BodyOf(ddl: seq<Ddl>, name: GuardName): Condition {
    if ddl == [] then Always
    else
      var last := ddl[|ddl| - 1];
      if last.CreateFunction? && last.name == name then last.raisesWhen else BodyOf(ddl[..|ddl| - 1], name)
  }

  /** The triggers in force after running the statements in order. */
  function Installed(ddl: seq<Ddl>): seq<Trigger> {
    if ddl == [] then []
    else
      var before, last := ddl[..|ddl| - 1], ddl[|ddl| - 1];
      match last
      case CreateFunction(_, _) => Installed(before)
      case CreateTriggerCalling(name, table, operations, f) =>
        Installed(before) + [Trigger(name, table, operations, BodyOf(before, f))]
      case CreateTriggerWhen(name, table, operations, condition) =>
        Installed(before) + [Trigger(name, table, operations, condition)]
  }

  lemma InstalledWhen(ddl: seq<Ddl>, name: GuardName, table: TableName, operations: set<Operation>,
                      condition: Condition)
    ensures Installed(ddl + [CreateTriggerWhen(name, table, operations, condition)])
         == Installed(ddl) + [Trigger(name, table, operations, condition)]
  {
    var longer := ddl + [CreateTriggerWhen(name, table, operations, condition)];
    assert longer[..|longer| - 1] == ddl;
  }

  lemma InstalledFunction(ddl: seq<Ddl>, name: GuardName, condition: Condition)
    ensures Installed(ddl + [CreateFunction(name, condition)]) == Installed(ddl)
    ensures BodyOf(ddl + [CreateFunction(name, condition)], name) == condition
  {
    var longer := ddl + [CreateFunction(name, condition)];
    assert longer[..|longer| - 1] == ddl;
  }

  lemma InstalledCalling(ddl: seq<Ddl>, name: GuardName, table: TableName, operations: set<Operation>, f: GuardName)
    ensures var longer := ddl + [CreateTriggerCalling(name, table, operations, f)];
            && Installed(longer) == Installed(ddl) + [Trigger(name, table, operations, BodyOf(ddl, f))]
            && (forall g :: BodyOf(longer, g) == BodyOf(ddl, g))
  {
    var longer := ddl + [CreateTriggerCalling(name, table, operations, f)];
    assert longer[..|longer| - 1] == ddl;
  }
}
