# databass query pipeline, modelled in Dafny

This project models the core of databass, a tiny SQL-like query engine written in Rust.
A query string passes through four stages:

- **Lexer** (`src/lexer.rs`): splits the query on whitespace. `SELECT` and `FROM` become keyword tokens. Every other word becomes an identifier carrying the word, `*` included.
- **Parser** (`src/parser.rs`): accepts exactly the token shape `SELECT <identifier> FROM <identifier>` and keeps the last identifier as the table name.
- **Planner** (`src/planner.rs`): turns the parsed query into a `Scan` of that table. The plan type also has a `Project` node, but the planner never builds one.
- **Executor** (`src/executor.rs`): looks the table name up in a read-only map of sources and returns that source's records.

The only source is a CSV source (`src/sources.rs`). The first line of its contents, split on the separator, gives the field names. Every later line, split the same way, gives one row.

Each place where the Rust code aborts the process becomes an `Err` value instead:

- the parser's `panic!` becomes `UnsupportedQuery`;
- the executor's missing schema becomes `SchemaNotFound(table)`;
- `todo!()` for `Project` becomes `Unimplemented`;
- the CSV "No header row" panic becomes `SourceFailed(NoHeaderRow)`.

Files, one module each:

- `results.dfy`: `Option` and `Result`.
- `whitespace.dfy`: Rust's `split_whitespace`. Whitespace is `char::is_whitespace`, the Unicode White_Space set.
- `splitting.dfy`: Rust's `str::split` with a string separator, `str::join`, and `str::lines`.
- `lexer.dfy`, `parser.dfy`, `planner.dfy`, `sources.dfy`, `executor.dfy`: the five core files.
- `pipeline.dfy`: properties of the stages chained together.

Form of the model:

- `lex` builds a vector by pushing inside a loop, so `Lexer.Lex` is a method with a loop. It is proved equal to the function `Lexer.Tokens`, and the parser uses that function.
- `records` advances a `Lines` iterator once to take the header. Here the iterator is the class `Sources.LineCursor`, whose field `rest` is the text not yet consumed. Everything else is functions over values.

Where the code and the engine's intended design disagree, this model follows the code. That design sketches a richer lexer (`*` and `,` tokens, numbers, quoted names), column lists, a working projection, and rows as long as the header. None of these is in the code. In the code, `*` is an ordinary identifier, a column list fails to parse, and rows may be ragged.

Rust library behaviour the model states explicitly:

- `split` with an empty separator yields an empty piece, then each character, then another empty piece, as Rust documents.
- `lines` removes a `"\r"` only when it stands directly before a `"\n"`. A final line with no `"\n"` keeps a trailing `"\r"`, as recent Rust versions do.

## Model

| member | source | states |
|---|---|---|
| Whitespace.Words | src/lexer.rs:10 | every word `split_whitespace` yields is non-empty and contains no whitespace |
| Whitespace.WordsOfSeparated | src/lexer.rs:10 | a non-empty run of whitespace splits the input: the words of `a + w + b` are the words of `a` followed by those of `b` |
| Whitespace.WordsSkipWhitespace | src/lexer.rs:10 | leading whitespace changes no word |
| Whitespace.WordsIgnoreTrailingWhitespace | src/lexer.rs:10 | trailing whitespace changes no word |
| Whitespace.WordsCollapseWhitespace | src/lexer.rs:10 | any non-empty whitespace run between two parts gives the same words as one space |
| Whitespace.NoWordsIffAllWhitespace | src/lexer.rs:10 | there are no words exactly when the input is empty or all whitespace |
| Whitespace.WordsKeepNonWhitespace | src/lexer.rs:10 | the words, concatenated in order, are exactly the input's non-whitespace characters in order |
| Whitespace.WordsOfWord | src/lexer.rs:10 | a single word splits into itself |
| Whitespace.WordsOfUnwords | src/lexer.rs:10 | words joined by single spaces split back into the same words |
| Lexer.Classify | src/lexer.rs:11-15 | a word becomes `Select` iff it is exactly `SELECT`, `From` iff exactly `FROM`, otherwise `Identifier` carrying the word unchanged (lower-case `select` included) |
| Lexer.Spelling | src/lexer.rs:11-15 | classifying the spelling of any token lexing can produce gives that token back |
| Lexer.Tokens | src/lexer.rs:8-19 | one token per word, in order; the k-th token spells the k-th word; every identifier is a non-empty, whitespace-free, non-keyword word |
| Lexer.Lex | src/lexer.rs:8-19 | never fails; returns exactly one token per word, in input order, each the classification of its word |
| Lexer.NoTokensIffBlank | src/lexer.rs:10 | an empty or all-whitespace query yields no tokens, and only such a query does |
| Lexer.TokensIgnoreExtraWhitespace | src/lexer.rs:10 | leading, trailing and repeated whitespace do not change the tokens |
| Lexer.TokensOfUnlex | src/lexer.rs:10-16 | lexing the single-space rendering of well-formed tokens gives those tokens back |
| Lexer.LexSelectStarFromFish | src/lexer.rs:21-34 | `SELECT * FROM fish` lexes to `[Select, Identifier("*"), From, Identifier("fish")]` |
| Parser.Parse | src/parser.rs:8-16 | succeeds iff the query has four words `SELECT`, a non-keyword, `FROM`, a non-keyword; the table is the fourth word verbatim, never a keyword and free of whitespace; every other query is `UnsupportedQuery` |
| Parser.ParseQuery | src/parser.rs:11-13 | `SELECT c FROM t` gives `Select(t)` for any non-keyword words `c`, `t` |
| Parser.ParseIgnoresColumn | src/parser.rs:11 | the second word is ignored: two column words give the same result |
| Parser.ParseRejectsKeywordTable | src/parser.rs:11-14 | a keyword in the table position, as in `SELECT * FROM FROM`, is an error |
| Parser.ParseRejectsKeywordColumn | src/parser.rs:11-14 | a keyword in the column position is an error |
| Parser.ParseRejectsMissingColumn | src/parser.rs:14 | `SELECT FROM t` (three words) is an error |
| Parser.ParseRejectsColumnList | src/parser.rs:14 | `SELECT a, b FROM t` (five words) is an error |
| Parser.ParseRejectsFromFrom | src/parser.rs:14 | `SELECT * FROM FROM` is an error |
| Parser.ParseSelectStarFromFish | src/parser.rs:18-28 | `SELECT * FROM fish` parses to `Select("fish")` |
| Planner.Plan | src/planner.rs:14-16 | planning is total and always gives a `Scan`, never a `Project`, reading exactly `query.from` |
| Pipeline.PlanOfParse | src/planner.rs:14-16 | for every accepted query, the plan is `Scan` of the query's fourth word |
| Pipeline.PlanSelectStarFromFishes | src/planner.rs:23-31 | `plan(parse("SELECT * FROM fishes"))` is `Scan("fishes")` |
| Splitting.Find | src/sources.rs:24 | the leftmost occurrence of the separator, or none if it does not occur |
| Splitting.JoinSplit | src/sources.rs:24 | joining the pieces of a split with the same separator gives back the line, for every separator, the empty one included |
| Splitting.SplitPiecesAvoidSeparator | src/sources.rs:24 | with a non-empty separator, no piece contains the separator |
| Splitting.SplitJoin | src/sources.rs:24 | for a one-character separator, splitting undoes joining pieces that do not contain it |
| Splitting.NextLine | src/sources.rs:22 | one iterator step yields a line with no newline and strictly shortens the remaining text |
| Splitting.Lines | src/sources.rs:21 | there are no lines exactly when the text is empty, and no line contains a newline |
| Splitting.LinesOfCrLf | src/sources.rs:21 | a line ended by `"\r\n"` loses exactly that terminator |
| Splitting.LinesOfLf | src/sources.rs:21 | a line ended by a bare `"\n"` loses only the newline |
| Splitting.LinesOfLast | src/sources.rs:21 | a last line without a newline is kept whole, so a trailing newline adds no empty line |
| Splitting.LinesAsSplit | src/sources.rs:21 | for text with no carriage returns, the lines are `split` on `"\n"` of the text without its final newline |
| Sources.SplitRows | src/sources.rs:26-28 | one row per line, in order, each that line split on the separator |
| Sources.CsvRecords | src/sources.rs:19-30 | "No header row" exactly when the contents are empty; `field_names` is the first line split; `data` has one row per later line, in order, row k being line k+1 split |
| Sources.LineCursor.constructor | src/sources.rs:21 | the iterator starts with the whole contents unconsumed |
| Sources.LineCursor.Next | src/sources.rs:21-22 | yields nothing on empty text; otherwise yields the first line and leaves exactly the lines after it |
| Sources.ReadRecords | src/sources.rs:19-30 | taking the header from the iterator and splitting what is left gives exactly `CsvRecords` |
| Sources.RecordsRejoin | src/sources.rs:24-28 | joining `field_names`, or any row, back with the separator reproduces its line |
| Sources.RecordsFields | src/sources.rs:24-28 | with a non-empty separator, no field contains it, and a blank line gives the single empty field `[""]` |
| Sources.RecordsOfRender | src/sources.rs:21-28 | reading a header and rows written out with a separator and `"\r\n"` line ends gives them back, when no field holds the separator or a newline |
| Sources.RecordsOfSmallFile | src/sources.rs:21-28 | `"Name,Age\r\nRex,3\r\n"` reads as header `[Name, Age]` and the one row `[Rex, 3]` |
| Execution.FromSource | src/executor.rs:20 | a source's records pass through unchanged, and its failure is passed on as `SourceFailed` |
| Execution.Executor.Execute | src/executor.rs:13-23 | records only for a `Scan` of a present name, and then exactly that source's records; a missing name is `SchemaNotFound` naming it; `Project` is `Unimplemented` |
| Execution.ExecuteReadsOnlyItsTable | src/executor.rs:16 | only the entry under the scanned name matters: maps that agree on it give the same result |
| Pipeline.ExecuteParsedQuery | src/executor.rs:15-20 | an accepted query returns the records of the source under its fourth word, that source's failure, or `SchemaNotFound` of that word |
| Pipeline.SelectStarFromFish | src/executor.rs:15-20 | `SELECT * FROM fish` against a one-table map returns that CSV file's header and row |
| Pipeline.TableLookupIsExact | src/executor.rs:16-17 | with only `fish` registered, `fishes` and `Fish` are both `SchemaNotFound` |

## Left out

- The file read in `CsvSource::records` (`read_to_string` of `"data/" + filename`, and the `unwrap` on an I/O failure). This is I/O, so a `CsvSource` here carries the file's contents directly.
- `src/main.rs` (`run_query`, `main`): it wires the map and prints the field names and the first ten rows. That is entry-point plumbing and output. The properties of the chained stages are in `Pipeline`.
- The `Source` trait and its dynamic dispatch, lifetimes and borrowing. The map holds `CsvSource` values, and the executor holds the map by value, so `Execute` cannot change it.
- Projection semantics: `Project` is `todo!()` in the code, so there is no behaviour to model beyond the `Unimplemented` error.
- The panic message texts. Each panic is one error constructor.
- The lazy `map`/`collect` over the rest of the `Lines` iterator. `ReadRecords` splits `Lines(rest)`, the lines that iterator would still yield, in one step.
