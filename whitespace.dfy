/** A model of Rust's `str::split_whitespace`: the maximal runs of
    non-whitespace characters of a string, in order. */
module Whitespace {

  /** Rust's `char::is_whitespace`: the characters with the Unicode
      White_Space property. */
  predicate IsWhitespace(c: char)
  {
    || ('\t' <= c <= '\r')   // U+0009 .. U+000D
    || c == ' '
    || c == '\U{0085}'
    || c == '\U{00A0}'
    || c == '\U{1680}'
    || ('\U{2000}' <= c <= '\U{200A}')
    || c == '\U{2028}'
    || c == '\U{2029}'
    || c == '\U{202F}'
    || c == '\U{205F}'
    || c == '\U{3000}'
  }

  predicate AllWhitespace(s: string)
  {
    forall c | c in s :: IsWhitespace(c)
  }

  /** A word as `split_whitespace` yields it: non-empty, no whitespace. */
  predicate IsWord(w: string)
  {
    w != [] && forall c | c in w :: !IsWhitespace(c)
  }

  /** Length of the run of non-whitespace characters that starts `s`. */
  function WordLength(s: string): (n: nat)
    ensures n <= |s|
    ensures forall k | 0 <= k < n :: !IsWhitespace(s[k])
    ensures n < |s| ==> IsWhitespace(s[n])
  {
    if s == [] || IsWhitespace(s[0]) then 0 else 1 + WordLength(s[1..])
  }

  /** The words of `s`, in the order they occur. */
  function Words(s: string): (ws: seq<string>)
    ensures forall k | 0 <= k < |ws| :: IsWord(ws[k])
    decreases |s|
  {
    if s == [] then []
    else if IsWhitespace(s[0]) then Words(s[1..])
    else
      var n := WordLength(s);
      assert IsWord(s[..n]) by {
        forall c | c in s[..n] ensures !IsWhitespace(c) {
          var k :| 0 <= k < n && s[..n][k] == c;
        }
      }
      [s[..n]] + Words(s[n..])
  }

  /** `ws` joined with single spaces. */
  function Unwords(ws: seq<string>): string
  {
    if ws == [] then []
    else if |ws| == 1 then ws[0]
    else ws[0] + " " + Unwords(ws[1..])
  }

  /** All characters of `ws` concatenated. */
  function Flatten(ws: seq<string>): string
  {
    if ws == [] then [] else ws[0] + Flatten(ws[1..])
  }

  /** `s` with every whitespace character removed. */
  function NonWhitespace(s: string): string
  {
    if s == [] then []
    else (if IsWhitespace(s[0]) then [] else [s[0]]) + NonWhitespace(s[1..])
  }

  lemma {:induction false} WordLengthOfAppend(a: string, t: string)
    requires WordLength(a) < |a| || t == [] || IsWhitespace(t[0])
    ensures WordLength(a + t) == WordLength(a)
    decreases |a|
  {
    if a == [] {
      assert a + t == t;
    } else if !IsWhitespace(a[0]) {
      assert (a + t)[1..] == a[1..] + t;
      WordLengthOfAppend(a[1..], t);
    }
  }

  /** Leading whitespace is skipped. */
  lemma {:induction false} WordsSkipWhitespace(w: string, s: string)
    requires AllWhitespace(w)
    ensures Words(w + s) == Words(s)
    decreases |w|
  {
    if w == [] {
      assert w + s == s;
    } else {
      assert w[0] in w;
      assert (w + s)[1..] == w[1..] + s;
      assert AllWhitespace(w[1..]) by {
        forall c | c in w[1..] ensures IsWhitespace(c) { assert c in w; }
      }
      WordsSkipWhitespace(w[1..], s);
    }
  }

  /** A non-empty run of whitespace separates the words on its two sides. */
  lemma {:induction false} WordsOfSeparated(a: string, w: string, b: string)
    requires w != [] && AllWhitespace(w)
    ensures Words(a + w + b) == Words(a) + Words(b)
    decreases |a|
  {
    if a == [] {
      assert a + w + b == w + b;
      WordsSkipWhitespace(w, b);
    } else if IsWhitespace(a[0]) {
      assert (a + w + b)[1..] == a[1..] + w + b;
      WordsOfSeparated(a[1..], w, b);
    } else {
      var n := WordLength(a);
      assert w[0] in w;
      assert a + w + b == a + (w + b);
      WordLengthOfAppend(a, w + b);
      assert (a + w + b)[..n] == a[..n];
      assert (a + w + b)[n..] == a[n..] + w + b;
      WordsOfSeparated(a[n..], w, b);
    }
  }

  lemma WordsOfWord(w: string)
    requires IsWord(w)
    ensures Words(w) == [w]
  {
    assert w[0] in w;
    var n := WordLength(w);
    assert n == |w|;
    assert w[..n] == w && w[n..] == [];
    assert Words(w) == [w[..n]] + Words(w[n..]);
  }
  /** Trailing whitespace is ignored. */
  lemma WordsIgnoreTrailingWhitespace(s: string, w: string)
    requires AllWhitespace(w)
    ensures Words(s + w) == Words(s)
  {
    if w == [] {
      assert s + w == s;
    } else {
      assert s + w + [] == s + w;
      WordsOfSeparated(s, w, []);
    }
  }

  /** Any non-empty run of whitespace between two parts acts as one space. */
  lemma WordsCollapseWhitespace(a: string, w: string, b: string)
    requires w != [] && AllWhitespace(w)
    ensures Words(a + w + b) == Words(a + " " + b)
  {
    WordsOfSeparated(a, w, b);
    WordsOfSeparated(a, " ", b);
  }

  /** There are no words exactly when the string is all whitespace. */
  lemma {:induction false} NoWordsIffAllWhitespace(s: string)
    ensures Words(s) == [] <==> AllWhitespace(s)
    decreases |s|
  {
    if s == [] {
    } else if IsWhitespace(s[0]) {
      NoWordsIffAllWhitespace(s[1..]);
      assert s == [s[0]] + s[1..];
      forall c | c in s ensures c == s[0] || c in s[1..] { }
    } else {
      assert s[0] in s;
    }
  }

  /** The words contain exactly the non-whitespace characters, in order. */
  lemma {:induction false} WordsKeepNonWhitespace(s: string)
    ensures Flatten(Words(s)) == NonWhitespace(s)
    decreases |s|
  {
    if s == [] {
    } else if IsWhitespace(s[0]) {
      WordsKeepNonWhitespace(s[1..]);
    } else {
      var n := WordLength(s);
      WordsKeepNonWhitespace(s[n..]);
      NonWhitespaceOfWord(s[..n], s[n..]);
      assert s == s[..n] + s[n..];
    }
  }

  lemma {:induction false} NonWhitespaceOfWord(w: string, t: string)
    requires forall k | 0 <= k < |w| :: !IsWhitespace(w[k])
    ensures NonWhitespace(w + t) == w + NonWhitespace(t)
    decreases |w|
  {
    if w == [] {
      assert w + t == t;
    } else {
      assert (w + t)[1..] == w[1..] + t;
      NonWhitespaceOfWord(w[1..], t);
    }
  }

  /** Splitting words joined by single spaces gives the words back. */
  lemma {:induction false} WordsOfUnwords(ws: seq<string>)
    requires forall k | 0 <= k < |ws| :: IsWord(ws[k])
    ensures Words(Unwords(ws)) == ws
    decreases |ws|
  {
    if ws == [] {
    } else if |ws| == 1 {
      WordsOfWord(ws[0]);
    } else {
      WordsOfUnwords(ws[1..]);
      WordsOfSeparated(ws[0], " ", Unwords(ws[1..]));
      WordsOfWord(ws[0]);
    }
  }
}
