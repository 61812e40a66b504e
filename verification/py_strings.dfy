/**
 * The few Python `str` operations the diff pipeline relies on, written out
 * over `seq<char>`: `startswith`/`endswith`, `split('\n')`, `split()`,
 * `lstrip(chars)`, `strip()` and `sep.join(...)`.
 */
module PyStrings {

  /** Python's notion of a whitespace character (`str.isspace` on one code
      point). `str.split()`, `str.strip()` and the regular-expression class
      `\s` all use this same set. */
  predicate IsSpace(c: char) {
    var n := c as int;
    (9 <= n <= 13) || (28 <= n <= 32) || n == 0x85 || n == 0xA0 || n == 0x1680
    || (0x2000 <= n <= 0x200A) || n == 0x2028 || n == 0x2029 || n == 0x202F
    || n == 0x205F || n == 0x3000
  }

  predicate StartsWith(s: string, prefix: string) {
    |prefix| <= |s| && s[..|prefix|] == prefix
  }

  predicate EndsWith(s: string, suffix: string) {
    |suffix| <= |s| && s[|s| - |suffix|..] == suffix
  }

  /** `needle in s` for strings. */
  predicate Contains(s: string, needle: string) {
    exists i :: 0 <= i <= |s| && StartsWith(s[i..], needle)
  }

  // ---------------------------------------------------------------------
  // s.split(c) for a one-character separator, and sep.join(parts)
  // ---------------------------------------------------------------------

  /** `s.split(sep)`: the maximal separator-free pieces, including the empty
      ones; there is always at least one. */
  function SplitOn(s: string, sep: char): (r: seq<string>)
    ensures |r| >= 1
    ensures forall i :: 0 <= i < |r| ==> sep !in r[i]
    decreases |s|
  {
    if |s| == 0 then [""]
    else
      var rest := SplitOn(s[1..], sep);
      if s[0] == sep then [""] + rest
      else [[s[0]] + rest[0]] + rest[1..]
  }

  /** `sep.join(parts)`. */
  function Join(parts: seq<string>, sep: string): string
    decreases |parts|
  {
    if |parts| == 0 then ""
    else if |parts| == 1 then parts[0]
    else parts[0] + sep + Join(parts[1..], sep)
  }

  lemma {:induction false} JoinAppend(parts: seq<string>, last: string, sep: string)
    requires |parts| >= 1
    ensures Join(parts + [last], sep) == Join(parts, sep) + sep + last
    decreases |parts|
  {
    if |parts| == 1 {
      assert (parts + [last])[1..] == [last];
    } else {
      assert (parts + [last])[1..] == parts[1..] + [last];
      JoinAppend(parts[1..], last, sep);
    }
  }

  /** Joining the pieces of a split with the separator gives back the text. */
  lemma {:induction false} JoinSplit(s: string, sep: char)
    ensures Join(SplitOn(s, sep), [sep]) == s
    decreases |s|
  {
    if |s| > 0 {
      var rest := SplitOn(s[1..], sep);
      JoinSplit(s[1..], sep);
      if s[0] == sep {
        assert ([""] + rest)[1..] == rest;
      } else if |rest| > 1 {
        var r := [[s[0]] + rest[0]] + rest[1..];
        assert r[1..] == rest[1..];
        assert Join(rest, [sep]) == rest[0] + [sep] + Join(rest[1..], [sep]);
        assert s == [s[0]] + s[1..];
      } else {
        assert s == [s[0]] + s[1..];
      }
    }
  }

  lemma {:induction false} SplitWithoutSep(s: string, sep: char)
    requires sep !in s
    ensures SplitOn(s, sep) == [s]
    decreases |s|
  {
    if |s| > 0 {
      assert sep !in s[1..] by {
        forall i | 0 <= i < |s| - 1 ensures s[1..][i] != sep { assert s[1..][i] == s[i + 1]; }
      }
      SplitWithoutSep(s[1..], sep);
      assert s == [s[0]] + s[1..];
    }
  }

  lemma {:induction false} SplitAfterPiece(u: string, sep: char, t: string)
    requires sep !in u
    ensures SplitOn(u + [sep] + t, sep) == [u] + SplitOn(t, sep)
    decreases |u|
  {
    var s := u + [sep] + t;
    if |u| == 0 {
      assert s[1..] == t;
    } else {
      assert s[1..] == u[1..] + [sep] + t;
      assert sep !in u[1..] by {
        forall i | 0 <= i < |u| - 1 ensures u[1..][i] != sep { assert u[1..][i] == u[i + 1]; }
      }
      SplitAfterPiece(u[1..], sep, t);
      assert [u[0]] + u[1..] == u;
    }
  }

  /** Splitting a join of separator-free pieces gives back the pieces. */
  lemma {:induction false} SplitJoin(parts: seq<string>, sep: char)
    requires |parts| >= 1
    requires forall i :: 0 <= i < |parts| ==> sep !in parts[i]
    ensures SplitOn(Join(parts, [sep]), sep) == parts
    decreases |parts|
  {
    if |parts| == 1 {
      SplitWithoutSep(parts[0], sep);
    } else {
      SplitJoin(parts[1..], sep);
      SplitAfterPiece(parts[0], sep, Join(parts[1..], [sep]));
      assert [parts[0]] + parts[1..] == parts;
    }
  }

  // ---------------------------------------------------------------------
  // s.split() with no argument
  // ---------------------------------------------------------------------

  /** Length of the run of non-whitespace characters at the start of `s`. */
  function WordLength(s: string): (n: nat)
    ensures n <= |s|
    ensures forall i :: 0 <= i < n ==> !IsSpace(s[i])
    ensures n == |s| || IsSpace(s[n])
    decreases |s|
  {
    if |s| == 0 || IsSpace(s[0]) then 0 else 1 + WordLength(s[1..])
  }

  /** `s.split()`: the maximal runs of non-whitespace characters, in order. */
  function Words(s: string): seq<string>
    decreases |s|
  {
    if |s| == 0 then []
    else if IsSpace(s[0]) then Words(s[1..])
    else
      var n := WordLength(s);
      [s[..n]] + Words(s[n..])
  }

  /** Every token is non-empty and free of whitespace. */
  lemma {:induction false} WordsShape(s: string)
    ensures forall i :: 0 <= i < |Words(s)| ==> |Words(s)[i]| > 0
    ensures forall i, j :: 0 <= i < |Words(s)| && 0 <= j < |Words(s)[i]| ==> !IsSpace(Words(s)[i][j])
    decreases |s|
  {
    if |s| > 0 {
      if IsSpace(s[0]) {
        WordsShape(s[1..]);
      } else {
        WordsShape(s[WordLength(s)..]);
      }
    }
  }

  /** Reference for the last token of `s`, read from the right: skip the
      trailing whitespace, then take the run of non-whitespace before it. */
  function LastWord(s: string): string
    decreases |s|
  {
    if |s| == 0 then ""
    else if IsSpace(s[|s| - 1]) then LastWord(s[..|s| - 1])
    else TrailingRun(s)
  }

  function TrailingRun(s: string): string
    decreases |s|
  {
    if |s| == 0 || IsSpace(s[|s| - 1]) then "" else TrailingRun(s[..|s| - 1]) + [s[|s| - 1]]
  }

  predicate HasSpace(s: string) {
    exists i :: 0 <= i < |s| && IsSpace(s[i])
  }

  predicate AllSpace(s: string) {
    forall i :: 0 <= i < |s| ==> IsSpace(s[i])
  }

  lemma {:induction false} TrailingRunSuffix(u: string, t: string)
    requires HasSpace(t)
    ensures TrailingRun(u + t) == TrailingRun(t)
    decreases |t|
  {
    var s := u + t;
    if !IsSpace(t[|t| - 1]) {
      var t' := t[..|t| - 1];
      assert s[..|s| - 1] == u + t';
      var i :| 0 <= i < |t| && IsSpace(t[i]);
      assert t'[i] == t[i];
      TrailingRunSuffix(u, t');
    }
  }

  lemma {:induction false} LastWordSuffix(u: string, t: string)
    requires HasSpace(t) && !AllSpace(t)
    requires IsSpace(t[0])
    ensures LastWord(u + t) == LastWord(t)
    decreases |t|
  {
    var s := u + t;
    if IsSpace(t[|t| - 1]) {
      var t' := t[..|t| - 1];
      assert s[..|s| - 1] == u + t';
      var i :| 0 <= i < |t| && !IsSpace(t[i]);
      assert i < |t| - 1 && t'[i] == t[i];
      assert t'[0] == t[0];
      LastWordSuffix(u, t');
    } else {
      TrailingRunSuffix(u, t);
    }
  }

  lemma {:induction false} LastWordOfWord(w: string, t: string)
    requires |w| > 0 && forall i :: 0 <= i < |w| ==> !IsSpace(w[i])
    requires AllSpace(t)
    ensures LastWord(w + t) == w
    decreases |t|
  {
    if |t| == 0 {
      assert w + t == w;
      TrailingRunAll(w);
    } else {
      var t' := t[..|t| - 1];
      assert (w + t)[..|w + t| - 1] == w + t';
      LastWordOfWord(w, t');
    }
  }

  lemma {:induction false} TrailingRunAll(w: string)
    requires forall i :: 0 <= i < |w| ==> !IsSpace(w[i])
    ensures TrailingRun(w) == w
    decreases |w|
  {
    if |w| > 0 {
      TrailingRunAll(w[..|w| - 1]);
    }
  }

  /** A run of non-whitespace characters ended by whitespace or by the end
      of the text is read as one token. */
  lemma {:induction false} WordLengthOf(w: string, rest: string)
    requires !HasSpace(w) && (|rest| == 0 || IsSpace(rest[0]))
    ensures WordLength(w + rest) == |w|
    decreases |w|
  {
    if |w| == 0 {
      assert w + rest == rest;
    } else {
      assert (w + rest)[1..] == w[1..] + rest;
      assert !HasSpace(w[1..]) by {
        forall i | 0 <= i < |w| - 1 ensures !IsSpace(w[1..][i]) {
          assert w[1..][i] == w[i + 1];
        }
      }
      WordLengthOf(w[1..], rest);
    }
  }

  /** `split()` of a text that starts with a word takes that word first. */
  lemma WordsCons(w: string, rest: string)
    requires |w| > 0 && !HasSpace(w) && (|rest| == 0 || IsSpace(rest[0]))
    ensures Words(w + rest) == [w] + Words(rest)
  {
    WordLengthOf(w, rest);
    var s := w + rest;
    assert s[0] == w[0];
    assert s[..|w|] == w && s[|w|..] == rest;
  }

  /** `split()` skips leading whitespace. */
  lemma WordsSpace(c: char, rest: string)
    requires IsSpace(c)
    ensures Words([c] + rest) == Words(rest)
  {
    assert ([c] + rest)[1..] == rest;
  }

  lemma {:induction false} WordsOfSpaces(s: string)
    requires AllSpace(s)
    ensures Words(s) == []
    decreases |s|
  {
    if |s| > 0 {
      WordsOfSpaces(s[1..]);
    }
  }

  /** The last token of `s.split()` is the run of non-whitespace characters
      that ends at the last non-whitespace character of `s`. */
  lemma {:induction false} LastOfWords(s: string)
    requires |Words(s)| > 0
    ensures Words(s)[|Words(s)| - 1] == LastWord(s)
    decreases |s|
  {
    if IsSpace(s[0]) {
      LastOfWords(s[1..]);
      WordsNonSpace(s[1..]);
      LastWordSuffixSpace(s[0], s[1..]);
      assert s == [s[0]] + s[1..];
    } else {
      var n := WordLength(s);
      var rest := s[n..];
      assert s == s[..n] + rest;
      if |Words(rest)| == 0 {
        NoWordsAllSpace(rest);
        LastWordOfWord(s[..n], rest);
      } else {
        LastOfWords(rest);
        WordsNonSpace(rest);
        assert IsSpace(rest[0]);
        assert HasSpace(rest) by { assert IsSpace(rest[0]); }
        LastWordSuffix(s[..n], rest);
      }
    }
  }

  lemma {:induction false} LastWordSuffixSpace(c: char, t: string)
    requires IsSpace(c) && !AllSpace(t)
    ensures LastWord([c] + t) == LastWord(t)
    decreases |t|
  {
    var s := [c] + t;
    if IsSpace(t[|t| - 1]) {
      var t' := t[..|t| - 1];
      assert s[..|s| - 1] == [c] + t';
      var i :| 0 <= i < |t| && !IsSpace(t[i]);
      assert i < |t| - 1 && t'[i] == t[i];
      LastWordSuffixSpace(c, t');
    } else {
      TrailingRunSpace(c, t);
    }
  }

  lemma {:induction false} TrailingRunSpace(c: char, t: string)
    requires IsSpace(c)
    ensures TrailingRun([c] + t) == TrailingRun(t)
    decreases |t|
  {
    var s := [c] + t;
    if |t| > 0 && !IsSpace(t[|t| - 1]) {
      assert s[..|s| - 1] == [c] + t[..|t| - 1];
      TrailingRunSpace(c, t[..|t| - 1]);
    }
  }

  lemma {:induction false} NoWordsAllSpace(s: string)
    requires |Words(s)| == 0
    ensures AllSpace(s)
    decreases |s|
  {
    if |s| > 0 {
      NoWordsAllSpace(s[1..]);
      forall i | 0 <= i < |s| ensures IsSpace(s[i]) {
        if i > 0 { assert s[i] == s[1..][i - 1]; }
      }
    }
  }

  lemma {:induction false} WordsNonSpace(s: string)
    requires |Words(s)| > 0
    ensures !AllSpace(s)
  {
    if AllSpace(s) {
      WordsOfSpaces(s);
    }
  }

  // ---------------------------------------------------------------------
  // lstrip(chars), strip()
  // ---------------------------------------------------------------------

  /** `s.lstrip(chars)`: drops every leading character that belongs to
      `chars`, whatever their order (not a prefix removal). */
  function LStripChars(s: string, chars: set<char>): string
    decreases |s|
  {
    if |s| > 0 && s[0] in chars then LStripChars(s[1..], chars) else s
  }

  /** The result is the suffix left after the longest prefix made only of
      characters in `chars`. */
  lemma {:induction false} LStripCharsShape(s: string, chars: set<char>)
    ensures var r := LStripChars(s, chars);
      && |r| <= |s| && r == s[|s| - |r|..]
      && (forall i :: 0 <= i < |s| - |r| ==> s[i] in chars)
      && (|r| > 0 ==> r[0] !in chars)
    decreases |s|
  {
    if |s| > 0 && s[0] in chars {
      LStripCharsShape(s[1..], chars);
      var r := LStripChars(s, chars);
      assert s[1..][|s| - 1 - |r|..] == s[|s| - |r|..];
      forall i | 1 <= i < |s| - |r| ensures s[i] in chars {
        assert s[i] == s[1..][i - 1];
      }
    }
  }

  /** `s.lstrip()` with no argument. */
  function LStripSpace(s: string): string
    decreases |s|
  {
    if |s| > 0 && IsSpace(s[0]) then LStripSpace(s[1..]) else s
  }

  /** The result is the suffix left after the leading whitespace. */
  lemma {:induction false} LStripSpaceShape(s: string)
    ensures var r := LStripSpace(s);
      && |r| <= |s| && r == s[|s| - |r|..]
      && (forall i :: 0 <= i < |s| - |r| ==> IsSpace(s[i]))
      && (|r| > 0 ==> !IsSpace(r[0]))
    decreases |s|
  {
    if |s| > 0 && IsSpace(s[0]) {
      LStripSpaceShape(s[1..]);
      var r := LStripSpace(s);
      assert s[1..][|s| - 1 - |r|..] == s[|s| - |r|..];
      forall i | 1 <= i < |s| - |r| ensures IsSpace(s[i]) {
        assert s[i] == s[1..][i - 1];
      }
    }
  }

  /** `s.rstrip()` with no argument. */
  function RStripSpace(s: string): string
    decreases |s|
  {
    if |s| > 0 && IsSpace(s[|s| - 1]) then RStripSpace(s[..|s| - 1]) else s
  }

  /** The result is the prefix left before the trailing whitespace. */
  lemma {:induction false} RStripSpaceShape(s: string)
    ensures var r := RStripSpace(s);
      && |r| <= |s| && r == s[..|r|]
      && (forall i :: |r| <= i < |s| ==> IsSpace(s[i]))
      && (|r| > 0 ==> !IsSpace(r[|r| - 1]))
    decreases |s|
  {
    if |s| > 0 && IsSpace(s[|s| - 1]) {
      var t := s[..|s| - 1];
      RStripSpaceShape(t);
      var r := RStripSpace(s);
      assert t[..|r|] == s[..|r|];
      forall i | |r| <= i < |s| - 1 ensures IsSpace(s[i]) {
        assert s[i] == t[i];
      }
    }
  }

  /** `s.strip()`. */
  function Strip(s: string): string {
    RStripSpace(LStripSpace(s))
  }

}
