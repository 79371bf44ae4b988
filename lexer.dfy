/** The lexer of `src/lexer.rs`: every whitespace-separated word of the query
    becomes one token, `SELECT` and `FROM` as keywords, anything else as an
    identifier carrying the word unchanged. */
module Lexer {
  import opened Whitespace

  datatype Token = Select | From | Identifier(text: string)

  /** The words that lex to a keyword token. */
  predicate IsKeyword(w: string)
  {
    w == "SELECT" || w == "FROM"
  }

  /** The token one word lexes to. */
  function Classify(word: string): (t: Token)
    ensures t == Select <==> word == "SELECT"
    ensures t == From <==> word == "FROM"
    ensures t.Identifier? <==> !IsKeyword(word)
    ensures t.Identifier? ==> t.text == word
  {
    if word == "SELECT" then Select
    else if word == "FROM" then From
    else Identifier(word)
  }

  /** The text a token stands for. */
  function Spelling(t: Token): (word: string)
    ensures WellFormed(t) ==> Classify(word) == t
  {
    match t
    case Select => "SELECT"
    case From => "FROM"
    case Identifier(text) => text
  }

  /** A token that lexing can produce: an identifier is a word that is not a keyword. */
  predicate WellFormed(t: Token)
  {
    t.Identifier? ==> IsWord(t.text) && !IsKeyword(t.text)
  }

  /** The token sequence of `input`: one token per word, in order. */
  function Tokens(input: string): (tokens: seq<Token>)
    ensures |tokens| == |Words(input)|
    ensures forall k | 0 <= k < |tokens| :: Spelling(tokens[k]) == Words(input)[k]
    ensures forall k | 0 <= k < |tokens| :: WellFormed(tokens[k])
  {
    var words := Words(input);
    seq(|words|, k requires 0 <= k < |words| => Classify(words[k]))
  }

  /** `lex`: pushes the token of each word of `input` in turn. */
  method Lex(input: string) returns (tokens: seq<Token>)
    ensures |tokens| == |Words(input)|
    ensures forall k | 0 <= k < |tokens| :: tokens[k] == Classify(Words(input)[k])
    ensures tokens == Tokens(input)
  {
    var words := Words(input);
    tokens := [];
    for i := 0 to |words|
      invariant |tokens| == i
      invariant forall k | 0 <= k < i :: tokens[k] == Classify(words[k])
    {
      var token := Classify(words[i]);
      tokens := tokens + [token];
    }
  }

  /** No tokens exactly when the input is empty or all whitespace. */
  lemma NoTokensIffBlank(input: string)
    ensures Tokens(input) == [] <==> AllWhitespace(input)
  {
    NoWordsIffAllWhitespace(input);
  }

  /** Leading and trailing whitespace, and the length of a whitespace run
      between two parts, do not change the tokens. */
  lemma TokensIgnoreExtraWhitespace(a: string, w: string, b: string)
    requires w != [] && AllWhitespace(w)
    ensures Tokens(w + a) == Tokens(a)
    ensures Tokens(a + w) == Tokens(a)
    ensures Tokens(a + w + b) == Tokens(a + " " + b)
  {
    WordsSkipWhitespace(w, a);
    WordsIgnoreTrailingWhitespace(a, w);
    WordsCollapseWhitespace(a, w, b);
  }

  /** The query text of a token sequence: spellings joined by single spaces. */
  function Unlex(tokens: seq<Token>): string
  {
    Unwords(seq(|tokens|, k requires 0 <= k < |tokens| => Spelling(tokens[k])))
  }

  lemma KeywordsAreWords()
    ensures IsWord("SELECT") && IsWord("FROM")
  {
  }

  /** Lexing the text of well-formed tokens gives the tokens back. */
  lemma TokensOfUnlex(tokens: seq<Token>)
    requires forall k | 0 <= k < |tokens| :: WellFormed(tokens[k])
    ensures Tokens(Unlex(tokens)) == tokens
  {
    var spellings := seq(|tokens|, k requires 0 <= k < |tokens| => Spelling(tokens[k]));
    KeywordsAreWords();
    assert forall k | 0 <= k < |spellings| :: IsWord(spellings[k]);
    WordsOfUnwords(spellings);
    var lexed := Tokens(Unlex(tokens));
    assert |lexed| == |tokens|;
    forall k | 0 <= k < |tokens| ensures lexed[k] == tokens[k] {
      assert Classify(Spelling(tokens[k])) == tokens[k];
    }
  }

  /** `lex("SELECT * FROM fish")`, as in the test at the end of `src/lexer.rs`. */
  lemma LexSelectStarFromFish()
    ensures Tokens("SELECT * FROM fish") == [Select, Identifier("*"), From, Identifier("fish")]
  {
    var tokens := [Select, Identifier("*"), From, Identifier("fish")];
    assert IsWord("*") && IsWord("fish");
    TokensOfUnlex(tokens);
    var spellings := ["SELECT", "*", "FROM", "fish"];
    assert seq(|tokens|, k requires 0 <= k < |tokens| => Spelling(tokens[k])) == spellings;
    assert Unwords(spellings) == "SELECT" + " " + ("*" + " " + ("FROM" + " " + "fish")) by {
      assert spellings[1..] == ["*", "FROM", "fish"];
      assert spellings[1..][1..] == ["FROM", "fish"];
      assert spellings[1..][1..][1..] == ["fish"];
    }
    assert "SELECT" + " " + ("*" + " " + ("FROM" + " " + "fish")) == "SELECT * FROM fish";
  }
}
