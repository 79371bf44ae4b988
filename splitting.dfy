/** Models of Rust's `str::split` with a string separator, `str::lines`, and
    the inverse of splitting, joining with a separator. */
module Splitting {
  import opened Results

  /** `sep` occurs in `s` starting at index `i`. */
  predicate OccursAt(s: string, sep: string, i: nat)
  {
    i + |sep| <= |s| && s[i..i + |sep|] == sep
  }

  predicate Contains(s: string, sep: string)
  {
    exists i: nat | i <= |s| :: OccursAt(s, sep, i)
  }

  /** Index of the leftmost occurrence of `sep` in `s`, if any. */
  function Find(s: string, sep: string): (r: Option<nat>)
    ensures r.Some? ==> OccursAt(s, sep, r.value)
    ensures r.Some? ==> forall j: nat | j < r.value :: !OccursAt(s, sep, j)
    ensures r.None? ==> !Contains(s, sep)
    decreases |s|
  {
    if |s| < |sep| then None
    else if s[..|sep|] == sep then Some(0)
    else
      var rest := Find(s[1..], sep);
      ShiftOccurrence(s, sep);
      assert !OccursAt(s, sep, 0);
      assert forall j: nat | 0 < j :: OccursAt(s, sep, j) ==> OccursAt(s[1..], sep, j - 1);
      match rest
      case None => None
      case Some(i) => Some(i + 1)
  }

  /** An occurrence at `j + 1` in `s` is one at `j` in `s[1..]`. */
  lemma ShiftOccurrence(s: string, sep: string)
    requires s != []
    ensures forall j: nat :: OccursAt(s, sep, j + 1) <==> OccursAt(s[1..], sep, j)
  {
    forall j: nat ensures OccursAt(s, sep, j + 1) <==> OccursAt(s[1..], sep, j) {
      if j + 1 + |sep| <= |s| {
        assert s[1..][j..j + |sep|] == s[j + 1..j + 1 + |sep|];
      }
    }
  }

  /** `str::split` with a non-empty separator: cut at each leftmost,
      non-overlapping occurrence of `sep`. */
  function SplitOn(s: string, sep: string): (pieces: seq<string>)
    requires sep != []
    ensures pieces != []
    decreases |s|
  {
    match Find(s, sep)
    case None => [s]
    case Some(i) => [s[..i]] + SplitOn(s[i + |sep|..], sep)
  }

  /** `str::split` with an empty separator: an empty piece, then every
      character on its own, then another empty piece. */
  function SplitChars(s: string): (pieces: seq<string>)
  {
    [""] + seq(|s|, i requires 0 <= i < |s| => [s[i]]) + [""]
  }

  /** Rust's `s.split(sep)` collected into a vector. */
  function Split(s: string, sep: string): (pieces: seq<string>)
  {
    if sep == [] then SplitChars(s) else SplitOn(s, sep)
  }

  /** `pieces.join(sep)`. */
  function Join(pieces: seq<string>, sep: string): string
  {
    if pieces == [] then []
    else if |pieces| == 1 then pieces[0]
    else pieces[0] + sep + Join(pieces[1..], sep)
  }
  /** Splitting and joining back with the same separator is the identity. */
  lemma JoinSplit(s: string, sep: string)
    ensures Join(Split(s, sep), sep) == s
  {
    if sep == [] {
      JoinChars(s);
    } else {
      JoinSplitOn(s, sep);
    }
  }

  lemma {:induction false} JoinChars(s: string)
    ensures Join(SplitChars(s), "") == s
    decreases |s|
  {
    if s == [] {
      assert SplitChars(s) == ["", ""];
    } else {
      JoinChars(s[1..]);
      var ps, qs := SplitChars(s), SplitChars(s[1..]);
      assert ps[2..] == qs[1..];
      assert ps[1..][1..] == ps[2..];
      assert Join(qs, "") == Join(qs[1..], "");
      assert Join(ps[1..], "") == [s[0]] + Join(ps[2..], "");
      assert Join(ps, "") == Join(ps[1..], "");
    }
  }

  lemma {:induction false} JoinSplitOn(s: string, sep: string)
    requires sep != []
    ensures Join(SplitOn(s, sep), sep) == s
    decreases |s|
  {
    match Find(s, sep)
    case None =>
    case Some(i) =>
      var rest := s[i + |sep|..];
      JoinSplitOn(rest, sep);
      assert SplitOn(s, sep) == [s[..i]] + SplitOn(rest, sep);
      assert s == s[..i] + sep + rest;
  }

  /** With a non-empty separator no piece contains the separator. */
  lemma {:induction false} SplitPiecesAvoidSeparator(s: string, sep: string)
    requires sep != []
    ensures forall p | p in Split(s, sep) :: !Contains(p, sep)
    decreases |s|
  {
    match Find(s, sep)
    case None =>
    case Some(i) =>
      SplitPiecesAvoidSeparator(s[i + |sep|..], sep);
      PrefixBeforeFirstOccurrence(s, sep, i);
  }

  lemma PrefixBeforeFirstOccurrence(s: string, sep: string, i: nat)
    requires sep != [] && i <= |s|
    requires forall j: nat | j < i :: !OccursAt(s, sep, j)
    ensures !Contains(s[..i], sep)
  {
    forall j: nat | j <= i && OccursAt(s[..i], sep, j) ensures false {
      assert s[..i][j..j + |sep|] == s[j..j + |sep|];
      assert OccursAt(s, sep, j) && j < i;
    }
  }

  /** For a one-character separator, splitting undoes joining. */
  lemma {:induction false} SplitJoin(pieces: seq<string>, c: char)
    requires pieces != []
    requires forall p | p in pieces :: c !in p
    ensures Split(Join(pieces, [c]), [c]) == pieces
    decreases |pieces|
  {
    assert pieces[0] in pieces;
    if |pieces| == 1 {
      FindAbsent(pieces[0], c);
    } else {
      var rest := Join(pieces[1..], [c]);
      var s := pieces[0] + [c] + rest;
      SplitJoin(pieces[1..], c);
      FindFirst(pieces[0], c, rest);
      assert s[|pieces[0]| + 1..] == rest;
      assert s[..|pieces[0]|] == pieces[0];
    }
  }

  lemma FindAbsent(s: string, c: char)
    requires c !in s
    ensures Find(s, [c]) == None
  {
    OccursAtChar(s, c);
  }

  lemma FindFirst(a: string, c: char, b: string)
    requires c !in a
    ensures Find(a + [c] + b, [c]) == Some(|a|)
  {
    var s := a + [c] + b;
    OccursAtChar(s, c);
    assert s[|a|] == c;
    assert forall j | 0 <= j < |a| :: s[j] == a[j];
  }

  /** A one-character separator occurs exactly where that character is. */
  lemma OccursAtChar(s: string, c: char)
    ensures forall i: nat :: OccursAt(s, [c], i) <==> i < |s| && s[i] == c
  {
    forall i: nat ensures OccursAt(s, [c], i) <==> i < |s| && s[i] == c {
      if i < |s| {
        assert s[i..i + 1] == [s[i]];
      }
    }
  }
  /** Where a single character is first found. */
  lemma FindChar(s: string, c: char)
    ensures Find(s, [c]).None? <==> c !in s
    ensures Find(s, [c]).Some? ==> Find(s, [c]).value < |s| && s[Find(s, [c]).value] == c
    ensures Find(s, [c]).Some? ==> c !in s[..Find(s, [c]).value]
  {
    OccursAtChar(s, c);
    if c in s {
      var k :| 0 <= k < |s| && s[k] == c;
      assert OccursAt(s, [c], k);
    }
  }

  /** `line` without one trailing carriage return. */
  function StripCr(line: string): string
  {
    if line != [] && line[|line| - 1] == '\r' then line[..|line| - 1] else line
  }

  /** One step of Rust's `Lines` iterator on non-empty `s`: the text up to the
      first newline, with one carriage return before that newline removed,
      and the text after the newline. A last line without a newline is
      returned whole, trailing carriage return included. */
  function NextLine(s: string): (r: (string, string))
    requires s != []
    ensures |r.1| < |s|
    ensures '\n' !in r.0
  {
    FindChar(s, '\n');
    match Find(s, "\n")
    case None => (s, [])
    case Some(i) => (StripCr(s[..i]), s[i + 1..])
  }

  /** Rust's `s.lines()` collected into a vector. */
  function Lines(s: string): (lines: seq<string>)
    ensures lines == [] <==> s == []
    ensures forall k | 0 <= k < |lines| :: '\n' !in lines[k]
    decreases |s|
  {
    if s == [] then []
    else
      var (line, rest) := NextLine(s);
      [line] + Lines(rest)
  }

  /** A line ended by "\r\n" loses exactly that terminator. */
  lemma LinesOfCrLf(a: string, b: string)
    requires '\n' !in a
    ensures Lines(a + "\r\n" + b) == [a] + Lines(b)
  {
    var s := a + "\r\n" + b;
    assert s == (a + "\r") + "\n" + b;
    assert '\n' !in a + "\r";
    FindFirst(a + "\r", '\n', b);
    assert s[..|a| + 1] == a + "\r";
    assert s[|a| + 2..] == b;
  }

  /** A line ended by a bare "\n" loses the newline only. */
  lemma LinesOfLf(a: string, b: string)
    requires '\n' !in a
    requires a == [] || a[|a| - 1] != '\r'
    ensures Lines(a + "\n" + b) == [a] + Lines(b)
  {
    var s := a + "\n" + b;
    FindFirst(a, '\n', b);
    assert s[..|a|] == a;
    assert s[|a| + 1..] == b;
  }

  /** A last line without a newline is kept whole. */
  lemma LinesOfLast(a: string)
    requires a != [] && '\n' !in a
    ensures Lines(a) == [a]
  {
    FindAbsent(a, '\n');
  }

  /** `s` without one trailing newline. */
  function DropFinalNewline(s: string): string
  {
    if s != [] && s[|s| - 1] == '\n' then s[..|s| - 1] else s
  }

  /** Without carriage returns, `lines` is `split` on "\n" of the text
      with its final newline (if any) removed. */
  lemma {:induction false} LinesAsSplit(s: string)
    requires s != [] && '\r' !in s
    ensures Lines(s) == Split(DropFinalNewline(s), "\n")
    decreases |s|
  {
    if '\n' !in s {
      LinesOfLast(s);
      FindAbsent(s, '\n');
    } else {
      FindChar(s, '\n');
      var i := Find(s, "\n").value;
      var a, b := s[..i], s[i + 1..];
      assert s == a + "\n" + b;
      LinesNoCr(s, a, b);
      if b == [] {
        assert DropFinalNewline(s) == a;
        FindAbsent(a, '\n');
      } else {
        LinesAsSplit(b);
        DropFinalNewlineAfter(a, b);
        SplitAfterNewline(a, DropFinalNewline(b));
      }
    }
  }

  lemma LinesNoCr(s: string, a: string, b: string)
    requires s == a + "\n" + b && '\r' !in s && '\n' !in a
    ensures Lines(s) == [a] + Lines(b) && '\r' !in b
  {
    if a != [] { assert a[|a| - 1] in s; }
    LinesOfLf(a, b);
    forall c | c in b ensures c in s { }
  }

  lemma DropFinalNewlineAfter(a: string, b: string)
    requires b != []
    ensures DropFinalNewline(a + "\n" + b) == a + "\n" + DropFinalNewline(b)
  {
    var s := a + "\n" + b;
    assert s[|s| - 1] == b[|b| - 1];
    if b[|b| - 1] == '\n' {
      assert s[..|s| - 1] == a + "\n" + b[..|b| - 1];
    }
  }

  lemma SplitAfterNewline(a: string, t: string)
    requires '\n' !in a
    ensures Split(a + "\n" + t, "\n") == [a] + Split(t, "\n")
  {
    var s := a + "\n" + t;
    FindFirst(a, '\n', t);
    assert s[|a| + 1..] == t;
    assert s[..|a|] == a;
  }
}
