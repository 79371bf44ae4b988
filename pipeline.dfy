/** Properties of the stages composed as `run_query` in `src/main.rs`
    composes them: parse, plan, execute. */
module Pipeline {
  import opened Results
  import opened Whitespace
  import opened Lexer
  import opened Parser
  import opened Planner
  import opened Sources
  import opened Execution

  /** An accepted query plans to a scan of its fourth word. */
  lemma PlanOfParse(input: string)
    requires Parse(input).Ok?
    ensures Plan(Parse(input).value) == Scan(Words(input)[3])
  {
  }

  /** `plan(parse("SELECT * FROM fishes"))`, as in the test in `src/planner.rs`. */
  lemma PlanSelectStarFromFishes()
    ensures Parse("SELECT * FROM fishes").Ok?
    ensures Plan(Parse("SELECT * FROM fishes").value) == Scan("fishes")
  {
    assert IsWord("*") && IsWord("fishes");
    ParseQuery("*", "fishes");
    assert Query("*", "fishes") == "SELECT * FROM fishes";
  }

  /** An accepted query returns the records of the source registered under
      its fourth word, that source's failure, or the missing-schema error
      naming the word. */
  lemma ExecuteParsedQuery(executor: Executor, input: string)
    requires Parse(input).Ok?
    ensures var table := Words(input)[3];
      executor.Execute(Plan(Parse(input).value)) ==
        if table in executor.schemas then FromSource(CsvRecords(executor.schemas[table]))
        else Err(SchemaNotFound(table))
  {
  }

  /** `SELECT * FROM fish` against a map holding a small `fish` table. */
  lemma SelectStarFromFish(executor: Executor)
    requires executor.schemas == map["fish" := CsvSource("Name,Age\r\nRex,3\r\n", ",")]
    ensures Parse("SELECT * FROM fish").Ok?
    ensures executor.Execute(Plan(Parse("SELECT * FROM fish").value)) == Ok(Records(["Name", "Age"], [["Rex", "3"]]))
  {
    ParseSelectStarFromFish();
    RecordsOfSmallFile();
  }

  /** Table names are matched exactly: with only `fish` registered,
      neither `fishes` nor `Fish` is found. */
  lemma TableLookupIsExact(executor: Executor)
    requires executor.schemas.Keys == {"fish"}
    ensures executor.Execute(Scan("fishes")) == Err(SchemaNotFound("fishes"))
    ensures executor.Execute(Scan("Fish")) == Err(SchemaNotFound("Fish"))
  {
  }
}
