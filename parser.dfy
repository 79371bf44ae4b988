/** The parser of `src/parser.rs`: a query is accepted only when it lexes to
    exactly `SELECT <identifier> FROM <identifier>`; the second identifier is
    the table. Any other token sequence is an error, where the original
    aborts the process. */
module Parser {
  import opened Results
  import opened Whitespace
  import Lexer

  datatype Select = Select(from: string)

  /** The one way `parse` fails ("Can only process 'SELECT * FROM <table>'"). */
  datatype ParseError = UnsupportedQuery

  /** The words of an accepted query: four words, `SELECT`, anything but a
      keyword, `FROM`, anything but a keyword. */
  predicate IsSelectStar(words: seq<string>)
  {
    && |words| == 4
    && words[0] == "SELECT"
    && !Lexer.IsKeyword(words[1])
    && words[2] == "FROM"
    && !Lexer.IsKeyword(words[3])
  }

  function Parse(input: string): (r: Result<Select, ParseError>)
    ensures r.Ok? <==> IsSelectStar(Words(input))
    ensures r.Ok? ==> r.value.from == Words(input)[3]
    ensures r.Ok? ==> IsWord(r.value.from) && !Lexer.IsKeyword(r.value.from)
    ensures r.Err? ==> r.error == UnsupportedQuery
  {
    var tokens := Lexer.Tokens(input);
    if |tokens| == 4 && tokens[0] == Lexer.Select && tokens[1].Identifier?
       && tokens[2] == Lexer.From && tokens[3].Identifier?
    then Ok(Select(tokens[3].text))
    else Err(UnsupportedQuery)
  }

  /** The query with column word `column` and table word `table`. */
  function Query(column: string, table: string): string
  {
    "SELECT " + column + " FROM " + table
  }

  lemma {:induction false} WordsOfQuery(column: string, table: string)
    requires IsWord(column) && IsWord(table)
    ensures Words(Query(column, table)) == ["SELECT", column, "FROM", table]
  {
    Lexer.KeywordsAreWords();
    var words := ["SELECT", column, "FROM", table];
    WordsOfUnwords(words);
    assert words[1..] == [column, "FROM", table];
    assert words[1..][1..] == ["FROM", table];
    assert words[1..][1..][1..] == [table];
    assert Unwords(words[1..][1..]) == "FROM" + " " + table;
    assert Unwords(words[1..]) == column + " " + ("FROM" + " " + table);
    assert Unwords(words) == "SELECT" + " " + (column + " " + ("FROM" + " " + table));
    assert "SELECT" + " " + (column + " " + ("FROM" + " " + table)) == Query(column, table) by {
      assert "SELECT" + " " == "SELECT " && " " + "FROM" + " " == " FROM ";
    }
  }

  /** `SELECT c FROM t` is accepted for any non-keyword words `c` and `t`,
      and gives table `t`. */
  lemma ParseQuery(column: string, table: string)
    requires IsWord(column) && IsWord(table)
    requires !Lexer.IsKeyword(column) && !Lexer.IsKeyword(table)
    ensures Parse(Query(column, table)) == Ok(Select(table))
  {
    WordsOfQuery(column, table);
  }

  /** The column word is ignored: any two column words give the same result. */
  lemma ParseIgnoresColumn(column1: string, column2: string, table: string)
    requires IsWord(column1) && IsWord(column2) && IsWord(table)
    requires !Lexer.IsKeyword(column1) && !Lexer.IsKeyword(column2)
    ensures Parse(Query(column1, table)) == Parse(Query(column2, table))
  {
    WordsOfQuery(column1, table);
    WordsOfQuery(column2, table);
  }

  /** A keyword in the table position is rejected, as in `SELECT * FROM FROM`. */
  lemma ParseRejectsKeywordTable(column: string, table: string)
    requires IsWord(column) && Lexer.IsKeyword(table)
    ensures Parse(Query(column, table)).Err?
  {
    Lexer.KeywordsAreWords();
    WordsOfQuery(column, table);
  }

  /** A keyword in the column position is rejected, as in `SELECT FROM FROM t`. */
  lemma ParseRejectsKeywordColumn(column: string, table: string)
    requires Lexer.IsKeyword(column) && IsWord(table)
    ensures Parse(Query(column, table)).Err?
  {
    Lexer.KeywordsAreWords();
    WordsOfQuery(column, table);
  }

  /** `parse("SELECT * FROM fish")`, as in the test at the end of `src/parser.rs`. */
  lemma ParseSelectStarFromFish()
    ensures Parse("SELECT * FROM fish") == Ok(Select("fish"))
  {
    assert IsWord("*") && IsWord("fish");
    ParseQuery("*", "fish");
    assert Query("*", "fish") == "SELECT * FROM fish";
  }

  /** `SELECT FROM t` has no column word: three words, rejected. */
  lemma ParseRejectsMissingColumn(table: string)
    requires IsWord(table)
    ensures Parse("SELECT FROM " + table).Err?
  {
    Lexer.KeywordsAreWords();
    var words := ["SELECT", "FROM", table];
    WordsOfUnwords(words);
    assert words[1..] == ["FROM", table];
    assert words[1..][1..] == [table];
    assert Unwords(words[1..]) == "FROM" + " " + table;
    assert Unwords(words) == "SELECT" + " " + ("FROM" + " " + table);
    assert "SELECT" + " " + ("FROM" + " " + table) == "SELECT FROM " + table by {
      assert "SELECT" + " " + "FROM" + " " == "SELECT FROM ";
    }
  }

  /** A column list such as `SELECT a, b FROM t` lexes to five words and is rejected. */
  lemma ParseRejectsColumnList()
    ensures Parse("SELECT a, b FROM t").Err?
  {
    Lexer.KeywordsAreWords();
    var words := ["SELECT", "a,", "b", "FROM", "t"];
    assert IsWord("a,") && IsWord("b") && IsWord("t");
    WordsOfUnwords(words);
    assert Unwords(words) == "SELECT" + " " + ("a," + " " + ("b" + " " + ("FROM" + " " + "t"))) by {
      assert words[1..] == ["a,", "b", "FROM", "t"];
      assert words[1..][1..] == ["b", "FROM", "t"];
      assert words[1..][1..][1..] == ["FROM", "t"];
      assert words[1..][1..][1..][1..] == ["t"];
    }
    assert "SELECT" + " " + ("a," + " " + ("b" + " " + ("FROM" + " " + "t"))) == "SELECT a, b FROM t";
  }

  /** `SELECT * FROM FROM` is rejected. */
  lemma ParseRejectsFromFrom()
    ensures Parse("SELECT * FROM FROM").Err?
  {
    Lexer.KeywordsAreWords();
    assert IsWord("*");
    ParseRejectsKeywordTable("*", "FROM");
    assert Query("*", "FROM") == "SELECT * FROM FROM";
  }
}
