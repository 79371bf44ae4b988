/** The planner of `src/planner.rs`: a parsed query becomes a logical plan.
    The plan type has a projection node, but planning only ever builds a scan. */
module Planner {
  import Parser

  datatype PlanNode =
    | Scan(from: string)
    | Project(fields: seq<string>, node: PlanNode)

  /** The table a plan reads, found by descending through projections. */
  function SourceTable(node: PlanNode): string
  {
    match node
    case Scan(from) => from
    case Project(_, child) => SourceTable(child)
  }

  function Plan(query: Parser.Select): (node: PlanNode)
    ensures node.Scan? && !node.Project?
    ensures SourceTable(node) == query.from
  {
    Scan(query.from)
  }
}
