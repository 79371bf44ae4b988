/** The executor of `src/executor.rs`: evaluates a plan against a read-only
    map from table names to sources. A scan returns its source's records; a
    missing table and the unimplemented projection are errors, where the
    original aborts the process. */
module Execution {
  import opened Results
  import opened Planner
  import opened Sources

  /** Table names, matched exactly, to the sources bound to them. */
  type Schemas = map<string, CsvSource>

  datatype ExecError =
    | SchemaNotFound(table: string)   // "Schema for '<table>' not found"
    | SourceFailed(cause: SourceError)
    | Unimplemented                   // `Project` is `todo!()`

  /** A source's outcome as the executor passes it on. */
  function FromSource(r: Result<Records, SourceError>): (e: Result<Records, ExecError>)
    ensures e.Ok? <==> r.Ok?
    ensures e.Ok? ==> e.value == r.value
    ensures e.Err? ==> e.error == SourceFailed(r.error)
  {
    match r
    case Ok(records) => Ok(records)
    case Err(cause) => Err(SourceFailed(cause))
  }

  /** The executor holds the schema map and never changes it: it is a value
      and `Execute` is a function of it. */
  datatype Executor = Executor(schemas: Schemas) {

    function Execute(node: PlanNode): (r: Result<Records, ExecError>)
      ensures r.Ok? ==> node.Scan? && node.from in schemas
      ensures r.Ok? ==> CsvRecords(schemas[node.from]) == Ok(r.value)
      ensures node.Scan? && node.from in schemas ==> r == FromSource(CsvRecords(schemas[node.from]))
      ensures node.Scan? && node.from !in schemas ==> r == Err(SchemaNotFound(node.from))
      ensures node.Project? ==> r == Err(Unimplemented)
    {
      match node
      case Scan(from) =>
        if from !in schemas then Err(SchemaNotFound(from))
        else FromSource(CsvRecords(schemas[from]))
      case Project(_, _) => Err(Unimplemented)
    }
  }

  /** Only the entry for the scanned table matters: executors whose maps
      agree on that one name give the same result. */
  lemma ExecuteReadsOnlyItsTable(e1: Executor, e2: Executor, node: PlanNode)
    requires node.Scan? ==> (node.from in e1.schemas <==> node.from in e2.schemas)
    requires node.Scan? && node.from in e1.schemas ==> e1.schemas[node.from] == e2.schemas[node.from]
    ensures e1.Execute(node) == e2.Execute(node)
  {
  }
}
