/**
 * `clean_diff`: removes the header-plus-"Binary files" sections of a unified
 * diff with the regular expression `diff --git.*\nBinary files.*\n`, then
 * keeps at most the first 100 lines and marks the cut.
 */
module DiffCleaner {
  import opened PyStrings
  import opened Options

  const DiffHeader: string := "diff --git"
  const BinaryMarker: string := "Binary files"
  const MaxLines: nat := 100
  const TruncationMarker: string := "... (truncated)"

  /** Index of the first '\n' in `s` at or after `from`. */
  function FindNewline(s: string, from: nat): (r: Option<nat>)
    ensures r.Some? ==> from <= r.value < |s| && s[r.value] == '\n'
    ensures r.Some? ==> forall i :: from <= i < r.value ==> s[i] != '\n'
    ensures r.None? ==> forall i :: from <= i < |s| ==> s[i] != '\n'
    decreases |s| - from
  {
    if from >= |s| then None
    else if s[from] == '\n' then Some(from)
    else FindNewline(s, from + 1)
  }

  /** The language of the pattern: a line that starts with `diff --git`,
      then a line that starts with `Binary files`, each ended by '\n'
      (`.` does not match a newline). */
  predicate IsBinarySection(t: string) {
    var ls := SplitOn(t, '\n');
    |ls| == 3 && ls[2] == "" && StartsWith(ls[0], DiffHeader) && StartsWith(ls[1], BinaryMarker)
  }

  /** The literal text `p` occurs in `s` at position `from`. */
  predicate TextAt(s: string, from: nat, p: string) {
    from + |p| <= |s| && forall j :: 0 <= j < |p| ==> s[from + j] == p[j]
  }

  /** End of the second line of a match whose first line ended just
      before `from`: that line must start with `Binary files` and end with
      a '\n'. */
  function MarkerLineEnd(s: string, from: nat): (r: Option<nat>)
    requires from <= |s|
    ensures r.Some? ==> from + |BinaryMarker| + 1 <= r.value <= |s|
  {
    if !TextAt(s, from, BinaryMarker) then None
    else match FindNewline(s, from + |BinaryMarker|)
      case None => None
      case Some(e) => Some(e + 1)
  }

  /** Length of the match of the pattern at the start of `s`, if any. The
      greedy `.*` cannot cross a newline, so each one runs to the next '\n'. */
  function BinarySectionLength(s: string): (r: Option<nat>)
    ensures r.Some? ==> |DiffHeader| + |BinaryMarker| + 2 <= r.value <= |s|
  {
    if !TextAt(s, 0, DiffHeader) then None
    else match FindNewline(s, |DiffHeader|)
      case None => None
      case Some(q) => MarkerLineEnd(s, q + 1)
  }

  lemma FindNewlineIs(s: string, from: nat, q: nat)
    requires from <= q < |s| && s[q] == '\n'
    requires forall i :: from <= i < q ==> s[i] != '\n'
    ensures FindNewline(s, from) == Some(q)
  {
  }

  lemma NoNewlineIn(s: string, lo: int, hi: int)
    requires 0 <= lo <= hi <= |s|
    requires forall i :: lo <= i < hi ==> s[i] != '\n'
    ensures '\n' !in s[lo..hi]
  {
  }

  /** The two-line shape of a match, split on newlines. */
  lemma SectionLines(a: string, b: string)
    requires '\n' !in a && '\n' !in b
    ensures SplitOn(a + "\n" + b + "\n", '\n') == [a, b, ""]
  {
    SplitAfterPiece(b, '\n', "");
    assert b + "\n" == b + ['\n'] + "";
    assert a + "\n" + b + "\n" == a + ['\n'] + (b + ['\n'] + "");
    SplitAfterPiece(a, '\n', b + ['\n'] + "");
  }

  /** Whatever the matcher finds is a word of the pattern's language. */
  lemma BinarySectionSound(s: string)
    requires BinarySectionLength(s).Some?
    ensures IsBinarySection(s[..BinarySectionLength(s).value])
  {
    var q := FindNewline(s, |DiffHeader|).value;
    var e := FindNewline(s, q + 1 + |BinaryMarker|).value;
    SectionAt(s, q, e);
  }

  /** A line of `s` from `lo` to `hi` that starts with a newline-free `p`
      and has no newline after it holds no newline and starts with `p`. */
  lemma LineFrom(s: string, lo: nat, hi: nat, p: string)
    requires lo + |p| <= hi <= |s| && TextAt(s, lo, p) && '\n' !in p
    requires forall i :: lo + |p| <= i < hi ==> s[i] != '\n'
    ensures '\n' !in s[lo..hi] && StartsWith(s[lo..hi], p)
  {
    forall i | lo <= i < lo + |p| ensures s[i] != '\n' {
      assert s[lo + (i - lo)] == p[i - lo];
    }
    NoNewlineIn(s, lo, hi);
    assert s[lo..hi][..|p|] == p;
  }

  /** A newline at or after `lo`, where `s` continues with a newline-free
      `p`, lies past `p`. */
  lemma NewlinePast(s: string, lo: nat, e: nat, p: string)
    requires lo <= e < |s| && s[e] == '\n' && TextAt(s, lo, p) && '\n' !in p
    ensures lo + |p| <= e
  {
    forall i | lo <= i < lo + |p| ensures s[i] != '\n' {
      assert s[lo + (i - lo)] == p[i - lo];
    }
  }

  lemma SectionAt(s: string, q: nat, e: nat)
    requires |DiffHeader| <= q < e < |s| && s[q] == '\n' && s[e] == '\n'
    requires TextAt(s, 0, DiffHeader) && TextAt(s, q + 1, BinaryMarker)
    requires forall i :: |DiffHeader| <= i < q ==> s[i] != '\n'
    requires forall i :: q + 1 + |BinaryMarker| <= i < e ==> s[i] != '\n'
    ensures IsBinarySection(s[..e + 1])
  {
    LineFrom(s, 0, q, DiffHeader);
    NewlinePast(s, q + 1, e, BinaryMarker);
    LineFrom(s, q + 1, e, BinaryMarker);
    var a, b := s[0..q], s[q + 1..e];
    assert s[..q + 1] == a + "\n";
    assert s[q + 1..e + 1] == b + "\n";
    assert s[..e + 1] == s[..q + 1] + s[q + 1..e + 1];
    assert (a + "\n") + (b + "\n") == a + "\n" + b + "\n";
    SectionLines(a, b);
  }

  /** A word of the pattern's language is a header line and a marker line,
      each ended by '\n'. */
  lemma SectionParts(t: string) returns (a: string, b: string)
    requires IsBinarySection(t)
    ensures t == a + "\n" + b + "\n" && '\n' !in a && '\n' !in b
    ensures StartsWith(a, DiffHeader) && StartsWith(b, BinaryMarker)
  {
    var ls := SplitOn(t, '\n');
    JoinSplit(t, '\n');
    a, b := ls[0], ls[1];
    assert ls[1..][1..] == [ls[2]];
    assert Join(ls[1..], "\n") == b + "\n" + ls[2];
  }

  /** The matcher's steps, each taken. */
  lemma MatchFrom(s: string, q: nat, e: nat)
    requires TextAt(s, 0, DiffHeader) && FindNewline(s, |DiffHeader|) == Some(q)
    requires q + 1 <= |s| && TextAt(s, q + 1, BinaryMarker)
    requires FindNewline(s, q + 1 + |BinaryMarker|) == Some(e)
    ensures BinarySectionLength(s) == Some(e + 1)
  {
  }

  /** The first line of a header line `a` and a marker line `b` is the
      matcher's first step. */
  lemma HeaderOfParts(a: string, b: string, rest: string)
    requires '\n' !in a && StartsWith(a, DiffHeader)
    ensures var s := a + "\n" + b + "\n" + rest;
      TextAt(s, 0, DiffHeader) && FindNewline(s, |DiffHeader|) == Some(|a|)
  {
    var s := a + "\n" + b + "\n" + rest;
    forall i | 0 <= i < |a| ensures s[i] == a[i] && s[i] != '\n' {
    }
    assert s[|a|] == '\n';
    FindNewlineIs(s, |DiffHeader|, |a|);
    forall j | 0 <= j < |DiffHeader| ensures s[0 + j] == DiffHeader[j] {
      assert a[..|DiffHeader|][j] == a[j];
    }
  }

  /** The second line is the matcher's second step. */
  lemma MarkerOfParts(a: string, b: string, rest: string)
    requires '\n' !in b && StartsWith(b, BinaryMarker)
    ensures var s := a + "\n" + b + "\n" + rest;
      && |a| + 1 <= |s| && TextAt(s, |a| + 1, BinaryMarker)
      && FindNewline(s, |a| + 1 + |BinaryMarker|) == Some(|a| + 1 + |b|)
  {
    var s := a + "\n" + b + "\n" + rest;
    var k := |a| + 1;
    forall i | 0 <= i < |b| ensures s[k + i] == b[i] && s[k + i] != '\n' {
    }
    assert s[k + |b|] == '\n';
    FindNewlineIs(s, k + |BinaryMarker|, k + |b|);
    forall j | 0 <= j < |BinaryMarker| ensures s[k + j] == BinaryMarker[j] {
      assert b[..|BinaryMarker|][j] == b[j];
    }
  }

  /** Every word of the pattern's language at the start of `s` is what the
      matcher finds, so the match is unique. */
  lemma BinarySectionComplete(s: string, n: nat)
    requires n <= |s| && IsBinarySection(s[..n])
    ensures BinarySectionLength(s) == Some(n)
  {
    var a, b := SectionParts(s[..n]);
    assert s == a + "\n" + b + "\n" + s[n..];
    HeaderOfParts(a, b, s[n..]);
    MarkerOfParts(a, b, s[n..]);
    MatchFrom(s, |a|, |a| + 1 + |b|);
  }

  /** `re.sub(pattern, '', s)`: scanning left to right, each match is
      deleted and the scan resumes after it; other characters are kept. */
  function RemoveBinarySections(s: string): (r: string)
    ensures |r| <= |s|
    decreases |s|
  {
    if |s| == 0 then ""
    else match BinarySectionLength(s)
      case Some(n) => RemoveBinarySections(s[n..])
      case None => [s[0]] + RemoveBinarySections(s[1..])
  }

  /** The match of the pattern starting at position `i` of `s`, if any. */
  function MatchAt(s: string, i: nat): Option<nat>
    requires i <= |s|
  {
    BinarySectionLength(s[i..])
  }

  /** No match of the pattern starts before position `k` of `s`. */
  predicate NoSectionBefore(s: string, k: int)
    requires k <= |s|
  {
    forall i :: 0 <= i < k ==> MatchAt(s, i).None?
  }

  /** The first position of a text with no match before `k > 0` holds no
      match, and neither does the rest of the text before `k`. */
  lemma NoSectionSplit(s: string, k: int)
    requires 0 < k <= |s| && NoSectionBefore(s, k)
    ensures BinarySectionLength(s).None?
    ensures NoSectionBefore(s[1..], k - 1)
  {
    assert MatchAt(s, 0).None?;
    assert s[0..] == s;
    forall i | 0 <= i < k - 1 ensures MatchAt(s[1..], i).None? {
      assert MatchAt(s, i + 1).None?;
      assert s[1..][i..] == s[i + 1..];
    }
  }

  /** Text in front of the first match is copied unchanged. */
  lemma {:induction false} RemoveKeepsPrefix(u: string, v: string)
    requires NoSectionBefore(u + v, |u|)
    ensures RemoveBinarySections(u + v) == u + RemoveBinarySections(v)
    decreases |u|
  {
    var s := u + v;
    if |u| > 0 {
      NoSectionSplit(s, |u|);
      assert s[1..] == u[1..] + v;
      RemoveKeepsPrefix(u[1..], v);
      RemoveStep(s);
      var r := RemoveBinarySections(v);
      assert RemoveBinarySections(s) == [s[0]] + (u[1..] + r);
      assert [s[0]] + (u[1..] + r) == ([s[0]] + u[1..]) + r;
      assert [s[0]] + u[1..] == u;
    } else {
      assert s == v;
    }
  }

  lemma RemoveStep(s: string)
    requires |s| > 0 && BinarySectionLength(s).None?
    ensures RemoveBinarySections(s) == [s[0]] + RemoveBinarySections(s[1..])
  {
  }

  /** A match is deleted as a whole and the scan resumes right after it. */
  lemma RemoveDropsSection(t: string, v: string)
    requires IsBinarySection(t)
    ensures RemoveBinarySections(t + v) == RemoveBinarySections(v)
  {
    var s := t + v;
    assert s[..|t|] == t;
    BinarySectionComplete(s, |t|);
    assert s[|t|..] == v;
  }

  /** Text in which the pattern matches nowhere is left as it is. */
  lemma RemoveWithoutSections(s: string)
    requires NoSectionBefore(s, |s|)
    ensures RemoveBinarySections(s) == s
  {
    assert s + "" == s;
    RemoveKeepsPrefix(s, "");
  }

  /** `clean_diff`. */
  function CleanDiff(diff: string): string {
    var d := RemoveBinarySections(diff);
    var lines := SplitOn(d, '\n');
    if |lines| > MaxLines then Join(lines[..MaxLines], "\n") + "\n" + TruncationMarker
    else d
  }

  /** After the binary sections are gone, a text of more than 100 lines
      becomes exactly its first 100 lines followed by the marker line;
      a shorter one is returned unchanged. */
  lemma CleanDiffLines(diff: string)
    ensures var lines := SplitOn(RemoveBinarySections(diff), '\n');
      if |lines| > MaxLines then SplitOn(CleanDiff(diff), '\n') == lines[..MaxLines] + [TruncationMarker]
      else CleanDiff(diff) == RemoveBinarySections(diff)
  {
    var lines := SplitOn(RemoveBinarySections(diff), '\n');
    if |lines| > MaxLines {
      var kept := lines[..MaxLines] + [TruncationMarker];
      JoinAppend(lines[..MaxLines], TruncationMarker, "\n");
      assert '\n' !in TruncationMarker;
      SplitJoin(kept, '\n');
    }
  }

  /** The cleaned diff never has more than 101 lines, and when it has 101
      the last one is the truncation marker. */
  lemma CleanDiffBounded(diff: string)
    ensures |SplitOn(CleanDiff(diff), '\n')| <= MaxLines + 1
    ensures |SplitOn(CleanDiff(diff), '\n')| == MaxLines + 1 ==>
              SplitOn(CleanDiff(diff), '\n')[MaxLines] == TruncationMarker
  {
    CleanDiffLines(diff);
  }

  /** A diff made only of one binary-file section cleans to the empty text. */
  lemma CleanBinaryOnly(header: string, marker: string)
    requires StartsWith(header, DiffHeader) && '\n' !in header
    requires StartsWith(marker, BinaryMarker) && '\n' !in marker
    ensures CleanDiff(header + "\n" + marker + "\n") == ""
  {
    var t := header + "\n" + marker + "\n";
    SplitAfterPiece(marker, '\n', "");
    assert t == header + ['\n'] + (marker + ['\n'] + "");
    SplitAfterPiece(header, '\n', marker + ['\n'] + "");
    assert t + "" == t;
    RemoveDropsSection(t, "");
  }

}
