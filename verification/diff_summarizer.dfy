/**
 * `summarize_diff`: one pass over the lines of a diff with a "current file"
 * cursor, building an insertion-ordered mapping from path to counters,
 * file type and declaration-like added lines.
 *
 * Each line is first classified (`Classify`). The method `SummarizeDiff`
 * follows the source loop and is proved equal to the fold `Scan` over the
 * classified lines; `Scan` is proved equal to an index-based reference
 * (`Agrees`): the keys are the distinct header paths in order of first
 * appearance, and each file's entry tallies the lines between its LAST
 * valid header and the next valid header.
 */
module DiffSummarizer {
  import opened PyStrings
  import opened Options

  const HeaderPrefix: string := "diff --git"
  const MinHeaderTokens: nat := 4
  /** Characters `lstrip('b/')` removes from the front of the path token. */
  const PathStripChars: set<char> := {'b', '/'}
  const UnknownType: string := "unknown"
  const Keywords: seq<string> :=
    ["def", "class", "import", "from", "const", "let", "var", "function", "interface", "type"]

  datatype FileChangeSummary = FileChangeSummary(
    additions: nat,
    deletions: nat,
    fileType: string,
    importantChanges: seq<string>)

  /** No element occurs twice. */
  predicate Distinct(xs: seq<string>) {
    forall i, j :: 0 <= i < j < |xs| ==> xs[i] != xs[j]
  }

  /** A sequence has at most as many distinct elements as positions. */
  lemma {:induction false} ElementsAtMost(xs: seq<string>)
    ensures |set x | x in xs| <= |xs|
    decreases |xs|
  {
    if |xs| > 0 {
      var n := |xs| - 1;
      ElementsAtMost(xs[..n]);
      assert (set x | x in xs) == (set x | x in xs[..n]) + {xs[n]} by {
        assert xs == xs[..n] + [xs[n]];
      }
    }
  }

  /** A repeated element leaves fewer distinct elements than positions. */
  lemma RepeatShrinks(xs: seq<string>, i: nat, j: nat)
    requires i < j < |xs|
    ensures xs[i] == xs[j] ==> |set x | x in xs| < |xs|
  {
    if xs[i] == xs[j] {
      var ys := xs[..j] + xs[j + 1..];
      forall x | x in xs ensures x in ys {
        var p :| 0 <= p < |xs| && xs[p] == x;
        if p < j {
          assert ys[p] == x;
        } else if p == j {
          assert ys[i] == x;
        } else {
          assert ys[p - 1] == x;
        }
      }
      forall x | x in ys ensures x in xs {
        var p :| 0 <= p < |ys| && ys[p] == x;
        assert x == if p < j then xs[p] else xs[p + 1];
      }
      assert (set x | x in xs) == (set x | x in ys);
      ElementsAtMost(ys);
    }
  }

  /** A Python dict from path to summary: the entries plus the order in
      which their keys were first inserted. */
  datatype Files = Files(keys: seq<string>, entries: map<string, FileChangeSummary>) {

    /** `keys` lists exactly the keys of `entries`, as many as there are. */
    ghost predicate Valid() {
      |keys| == |entries| && forall k :: k in entries <==> k in keys
    }

    /** Each key is listed once. */
    lemma KeysDistinct()
      requires Valid()
      ensures Distinct(keys)
    {
      assert entries.Keys == set x | x in keys;
      forall i, j | 0 <= i < j < |keys| ensures keys[i] != keys[j] {
        RepeatShrinks(keys, i, j);
      }
    }

    /** `d[k] = v`: a new key goes to the end, an existing one keeps its place. */
    function Put(k: string, v: FileChangeSummary): (r: Files)
      requires Valid()
      ensures r.Valid()
      ensures r.entries == entries[k := v]
      ensures r.keys == if k in keys then keys else keys + [k]
    {
      if k in entries then Files(keys, entries[k := v]) else Files(keys + [k], entries[k := v])
    }
  }

  const NoFiles: Files := Files([], map[])

  // ---------------------------------------------------------------------
  // Line classification
  // ---------------------------------------------------------------------

  predicate IsHeader(line: string) {
    StartsWith(line, HeaderPrefix)
  }

  /** A header line with enough whitespace-separated tokens to be tracked. */
  predicate IsValidHeader(line: string) {
    IsHeader(line) && |Words(line)| >= MinHeaderTokens
  }

  /** `parts[-1].lstrip('b/')`. */
  function HeaderKey(line: string): string
    requires IsValidHeader(line)
  {
    var parts := Words(line);
    LStripChars(parts[|parts| - 1], PathStripChars)
  }

  /** `path.split('.')[-1] if '.' in path else 'unknown'` (case kept). */
  function FileType(path: string): string {
    if '.' in path then
      var parts := SplitOn(path, '.');
      parts[|parts| - 1]
    else UnknownType
  }

  predicate IsAddition(line: string) {
    StartsWith(line, "+") && !StartsWith(line, "+++")
  }

  predicate IsDeletion(line: string) {
    StartsWith(line, "-") && !StartsWith(line, "---")
  }

  predicate StartsWithKeyword(s: string) {
    exists i :: 0 <= i < |Keywords| && StartsWith(s, Keywords[i])
  }

  /** `re.match(r'^\+\s*(def|class|...|type)', line)`: after the '+' the
      greedy `\s*` eats all whitespace, and what follows must start with a
      keyword (no word boundary is required). */
  predicate IsDeclaration(line: string) {
    |line| > 0 && line[0] == '+' && StartsWithKeyword(LStripSpace(line[1..]))
  }

  /** `line.lstrip('+').strip()`. */
  function CleanChange(line: string): string {
    Strip(LStripChars(line, {'+'}))
  }

  /** The important change an added line contributes, if any. */
  function RecordedChange(line: string): Option<string> {
    if IsDeclaration(line) && CleanChange(line) != "" then Some(CleanChange(line)) else None
  }

  /** What one line means to the scan, whatever the scan's state. */
  datatype LineKind =
    | ValidHeader(path: string)      // a `diff --git` line with at least 4 tokens
    | MalformedHeader                // a `diff --git` line with fewer tokens
    | Added(recorded: Option<string>) // `+` but not `+++`, with its important change if any
    | Removed                        // `-` but not `---`
    | Context                        // anything else

  function Classify(line: string): LineKind {
    if IsHeader(line) then
      if |Words(line)| >= MinHeaderTokens then ValidHeader(HeaderKey(line)) else MalformedHeader
    else if IsAddition(line) then
      Added(RecordedChange(line))
    else if IsDeletion(line) then Removed
    else Context
  }

  function ClassifyAll(lines: seq<string>): (kinds: seq<LineKind>)
    ensures |kinds| == |lines|
    ensures forall i :: 0 <= i < |lines| ==> kinds[i] == Classify(lines[i])
  {
    seq(|lines|, i requires 0 <= i < |lines| => Classify(lines[i]))
  }

  // ---------------------------------------------------------------------
  // The scan
  // ---------------------------------------------------------------------

  /** The loop state: the dict built so far and `current_file`. */
  datatype ScanState = ScanState(files: Files, cursor: Option<string>)

  /** `current_file` is truthy: set, and not the empty string. */
  predicate Tracking(st: ScanState) {
    st.cursor.Some? && st.cursor.value != ""
  }

  ghost predicate Inv(st: ScanState) {
    st.files.Valid() && (st.cursor.Some? ==> st.cursor.value in st.files.entries)
  }

  function Fresh(path: string): FileChangeSummary {
    FileChangeSummary(0, 0, FileType(path), [])
  }

  function Record(changes: seq<string>, recorded: Option<string>): seq<string> {
    match recorded
    case None => changes
    case Some(c) => changes + [c]
  }

  /** One iteration of the loop body. */
  function Step(st: ScanState, kind: LineKind): ScanState
    requires Inv(st)
  {
    match kind
    case ValidHeader(k) => ScanState(st.files.Put(k, Fresh(k)), Some(k))
    case Added(recorded) =>
      if Tracking(st) then
        var info := st.files.entries[st.cursor.value];
        var info' := info.(additions := info.additions + 1,
                           importantChanges := Record(info.importantChanges, recorded));
        ScanState(st.files.Put(st.cursor.value, info'), st.cursor)
      else st
    case Removed =>
      if Tracking(st) then
        var info := st.files.entries[st.cursor.value];
        ScanState(st.files.Put(st.cursor.value, info.(deletions := info.deletions + 1)), st.cursor)
      else st
    case _ => st
  }

  /** The state after the loop has processed `kinds`, in order. */
  function Scan(kinds: seq<LineKind>): (r: ScanState)
    ensures Inv(r)
    decreases |kinds|
  {
    if |kinds| == 0 then ScanState(NoFiles, None)
    else
      var st := Scan(kinds[..|kinds| - 1]);
      StepInv(st, kinds[|kinds| - 1]);
      Step(st, kinds[|kinds| - 1])
  }

  /** A step keeps the mapping well formed and the cursor among its keys. */
  lemma StepInv(st: ScanState, kind: LineKind)
    requires Inv(st)
    ensures Inv(Step(st, kind))
  {
  }

  function Summarize(diff: string): Files {
    Scan(ClassifyAll(SplitOn(diff, '\n'))).files
  }

  lemma ScanSnoc(kinds: seq<LineKind>, i: nat)
    requires i < |kinds|
    ensures Scan(kinds[..i + 1]) == Step(Scan(kinds[..i]), kinds[i])
  {
    assert kinds[..i + 1][..i] == kinds[..i];
  }

  lemma HeaderStep(st: ScanState, line: string)
    requires Inv(st) && IsHeader(line)
    ensures Step(st, Classify(line)) ==
      if IsValidHeader(line) then ScanState(st.files.Put(HeaderKey(line), Fresh(HeaderKey(line))), Some(HeaderKey(line)))
      else st
  {
  }

  lemma AdditionStep(st: ScanState, line: string)
    requires Inv(st) && Tracking(st) && IsAddition(line)
    ensures var info := st.files.entries[st.cursor.value];
      Step(st, Classify(line)) ==
        ScanState(st.files.Put(st.cursor.value, info.(additions := info.additions + 1,
          importantChanges := Record(info.importantChanges, RecordedChange(line)))), st.cursor)
  {
    assert line[0] != HeaderPrefix[0];
  }

  lemma DeletionStep(st: ScanState, line: string)
    requires Inv(st) && Tracking(st) && IsDeletion(line)
    ensures var info := st.files.entries[st.cursor.value];
      Step(st, Classify(line)) == ScanState(st.files.Put(st.cursor.value, info.(deletions := info.deletions + 1)), st.cursor)
  {
    assert line[0] != HeaderPrefix[0];
  }

  lemma IgnoredStep(st: ScanState, line: string)
    requires Inv(st) && !IsHeader(line)
    requires !(Tracking(st) && (IsAddition(line) || IsDeletion(line)))
    ensures Step(st, Classify(line)) == st
  {
  }

  /** The body of the loop of `summarize_diff`: one line updates the mapping
      and the cursor. */
  method ScanLine(files: Files, current: Option<string>, line: string)
    returns (files': Files, current': Option<string>)
    requires Inv(ScanState(files, current))
    ensures ScanState(files', current') == Step(ScanState(files, current), Classify(line))
  {
    if StartsWith(line, HeaderPrefix) {
      files', current' := ScanHeader(files, current, line);
    } else if current.Some? && current.value != "" && IsAddition(line) {
      files' := ScanAddition(files, current.value, line);
      current' := current;
    } else if current.Some? && current.value != "" && IsDeletion(line) {
      files' := ScanDeletion(files, current.value, line);
      current' := current;
    } else {
      IgnoredStep(ScanState(files, current), line);
      files', current' := files, current;
    }
  }

  /** A `diff --git` line: a new entry and cursor when it has enough tokens. */
  method ScanHeader(files: Files, current: Option<string>, line: string)
    returns (files': Files, current': Option<string>)
    requires Inv(ScanState(files, current)) && IsHeader(line)
    ensures ScanState(files', current') == Step(ScanState(files, current), Classify(line))
  {
    HeaderStep(ScanState(files, current), line);
    var parts := Words(line);
    if |parts| >= MinHeaderTokens {
      var path := LStripChars(parts[|parts| - 1], PathStripChars);
      assert path == HeaderKey(line);
      files', current' := files.Put(path, FileChangeSummary(0, 0, FileType(path), [])), Some(path);
    } else {
      files', current' := files, current;
    }
  }

  /** An added line of the tracked file: one more addition, and its important
      change when it declares something. */
  method ScanAddition(files: Files, current: string, line: string) returns (files': Files)
    requires Inv(ScanState(files, Some(current))) && current != "" && IsAddition(line)
    ensures ScanState(files', Some(current)) == Step(ScanState(files, Some(current)), Classify(line))
  {
    AdditionStep(ScanState(files, Some(current)), line);
    var info := files.entries[current];
    ghost var old_info := info;
    info := info.(additions := info.additions + 1);
    if IsDeclaration(line) {
      var cleanLine := Strip(LStripChars(line, {'+'}));
      if cleanLine != "" {
        info := info.(importantChanges := info.importantChanges + [cleanLine]);
      }
    }
    assert info.importantChanges == Record(old_info.importantChanges, RecordedChange(line));
    files' := files.Put(current, info);
  }

  /** A removed line of the tracked file: one more deletion. */
  method ScanDeletion(files: Files, current: string, line: string) returns (files': Files)
    requires Inv(ScanState(files, Some(current))) && current != "" && IsDeletion(line)
    ensures ScanState(files', Some(current)) == Step(ScanState(files, Some(current)), Classify(line))
  {
    DeletionStep(ScanState(files, Some(current)), line);
    var info := files.entries[current];
    files' := files.Put(current, info.(deletions := info.deletions + 1));
  }

  /** `summarize_diff`. */
  method SummarizeDiff(diff: string) returns (files: Files)
    ensures files == Summarize(diff)
    ensures files.Valid()
  {
    var lines := SplitOn(diff, '\n');
    ghost var kinds := ClassifyAll(lines);
    files := NoFiles;
    var current: Option<string> := None;
    var i := 0;
    while i < |lines|
      invariant 0 <= i <= |lines|
      invariant ScanState(files, current) == Scan(kinds[..i])
    {
      ScanSnoc(kinds, i);
      files, current := ScanLine(files, current, lines[i]);
      i := i + 1;
    }
    assert kinds[..|lines|] == kinds;
  }

  // ---------------------------------------------------------------------
  // Reference definitions over the first n classified lines
  // ---------------------------------------------------------------------

  /** The paths of the valid headers among the first `n` lines, in order,
      repeats included. */
  function HeaderKeys(kinds: seq<LineKind>, n: nat): seq<string>
    requires n <= |kinds|
    decreases n
  {
    if n == 0 then []
    else HeaderKeys(kinds, n - 1) + (if kinds[n - 1].ValidHeader? then [kinds[n - 1].path] else [])
  }

  /** Keeps the first occurrence of each element, in order. */
  function Dedup(xs: seq<string>): seq<string>
    decreases |xs|
  {
    if |xs| == 0 then []
    else
      var d := Dedup(xs[..|xs| - 1]);
      var x := xs[|xs| - 1];
      if x in d then d else d + [x]
  }

  /** Index of the last valid header whose path is `k` among the first `n`
      lines. */
  function LastHeaderOf(kinds: seq<LineKind>, k: string, n: nat): (r: Option<nat>)
    requires n <= |kinds|
    ensures r.Some? ==> r.value < n
    decreases n
  {
    if n == 0 then None
    else if kinds[n - 1] == ValidHeader(k) then Some(n - 1)
    else LastHeaderOf(kinds, k, n - 1)
  }

  /** `LastHeaderOf` finds a valid header for `k` with none after it, and
      finds nothing only when there is none. */
  lemma {:induction false} LastHeaderOfSpec(kinds: seq<LineKind>, k: string, n: nat)
    requires n <= |kinds|
    ensures var r := LastHeaderOf(kinds, k, n);
      && (r.Some? ==> kinds[r.value] == ValidHeader(k))
      && (r.Some? ==> forall j :: r.value < j < n ==> kinds[j] != ValidHeader(k))
      && (r.None? ==> forall j :: 0 <= j < n ==> kinds[j] != ValidHeader(k))
    decreases n
  {
    if n > 0 && kinds[n - 1] != ValidHeader(k) {
      LastHeaderOfSpec(kinds, k, n - 1);
    }
  }

  /** Index of the last valid header of any path among the first `n` lines. */
  function LastHeader(kinds: seq<LineKind>, n: nat): (r: Option<nat>)
    requires n <= |kinds|
    ensures r.Some? ==> r.value < n && kinds[r.value].ValidHeader?
    decreases n
  {
    if n == 0 then None
    else if kinds[n - 1].ValidHeader? then Some(n - 1)
    else LastHeader(kinds, n - 1)
  }

  /** No valid header follows the one `LastHeader` finds, and it finds
      nothing only when there is none. */
  lemma {:induction false} LastHeaderSpec(kinds: seq<LineKind>, n: nat)
    requires n <= |kinds|
    ensures var r := LastHeader(kinds, n);
      && (r.Some? ==> forall j :: r.value < j < n ==> !kinds[j].ValidHeader?)
      && (r.None? ==> forall j :: 0 <= j < n ==> !kinds[j].ValidHeader?)
    decreases n
  {
    if n > 0 && !kinds[n - 1].ValidHeader? {
      LastHeaderSpec(kinds, n - 1);
    }
  }

  /** Index of the first valid header at or after `i` among the first `n`
      lines, or `n` when there is none. */
  function NextHeader(kinds: seq<LineKind>, i: nat, n: nat): (r: nat)
    requires i <= n <= |kinds|
    ensures i <= r <= n
    decreases n - i
  {
    if i == n || kinds[i].ValidHeader? then i else NextHeader(kinds, i + 1, n)
  }

  /** `NextHeader` stops at a valid header, or at the end, and skips none. */
  lemma {:induction false} NextHeaderSpec(kinds: seq<LineKind>, i: nat, n: nat)
    requires i <= n <= |kinds|
    ensures var r := NextHeader(kinds, i, n);
      && (r < n ==> kinds[r].ValidHeader?)
      && (forall j :: i <= j < r ==> !kinds[j].ValidHeader?)
    decreases n - i
  {
    if i < n && !kinds[i].ValidHeader? {
      NextHeaderSpec(kinds, i + 1, n);
    }
  }

  function Additions(seg: seq<LineKind>): nat
    decreases |seg|
  {
    if |seg| == 0 then 0
    else Additions(seg[..|seg| - 1]) + (if seg[|seg| - 1].Added? then 1 else 0)
  }

  function Deletions(seg: seq<LineKind>): nat
    decreases |seg|
  {
    if |seg| == 0 then 0
    else Deletions(seg[..|seg| - 1]) + (if seg[|seg| - 1].Removed? then 1 else 0)
  }

  /** The important changes recorded in a section, in order. */
  function Declarations(seg: seq<LineKind>): seq<string>
    decreases |seg|
  {
    if |seg| == 0 then []
    else
      var n := |seg| - 1;
      Declarations(seg[..n]) + (if seg[n].Added? && seg[n].recorded.Some? then [seg[n].recorded.value] else [])
  }

  /** What one more line of a file's section adds to its tally. */
  function Counted(info: FileChangeSummary, kind: LineKind): FileChangeSummary {
    FileChangeSummary(
      info.additions + (if kind.Added? then 1 else 0),
      info.deletions + (if kind.Removed? then 1 else 0),
      info.fileType,
      if kind.Added? then Record(info.importantChanges, kind.recorded) else info.importantChanges)
  }

  /** The entry that lines `lo` up to `hi` build, line by line, from a
      fresh one. */
  function TallyRange(kinds: seq<LineKind>, path: string, lo: nat, hi: nat): FileChangeSummary
    requires lo <= hi <= |kinds|
    decreases hi - lo
  {
    if hi == lo then Fresh(path) else Counted(TallyRange(kinds, path, lo, hi - 1), kinds[hi - 1])
  }

  /** The tally of a range counts its added and removed lines and lists its
      important changes in order; the file type comes from the path. */
  lemma {:induction false} TallyCounts(kinds: seq<LineKind>, path: string, lo: nat, hi: nat)
    requires lo <= hi <= |kinds|
    ensures TallyRange(kinds, path, lo, hi) ==
      FileChangeSummary(Additions(kinds[lo..hi]), Deletions(kinds[lo..hi]), FileType(path), Declarations(kinds[lo..hi]))
    decreases hi - lo
  {
    if hi > lo {
      TallyCounts(kinds, path, lo, hi - 1);
      var seg := kinds[lo..hi];
      assert seg[..|seg| - 1] == kinds[lo..hi - 1];
      assert seg[|seg| - 1] == kinds[hi - 1];
    }
  }

  /** What the entry of path `k` should hold after the first `n` lines: its
      counts come from the section of its last valid header, except that
      the empty path is never counted into (an empty `current_file` is
      falsy). */
  function Expected(kinds: seq<LineKind>, n: nat, k: string): FileChangeSummary
    requires n <= |kinds| && LastHeaderOf(kinds, k, n).Some?
  {
    var j := LastHeaderOf(kinds, k, n).value;
    if k == "" then Fresh(k) else TallyRange(kinds, k, j + 1, NextHeader(kinds, j + 1, n))
  }

  /** The entry of a non-empty path counts the added and removed lines of
      the section of its last valid header and lists that section's
      important changes in order; its file type comes from the path. */
  lemma ExpectedCounts(kinds: seq<LineKind>, n: nat, k: string)
    requires n <= |kinds| && k != "" && LastHeaderOf(kinds, k, n).Some?
    ensures var j := LastHeaderOf(kinds, k, n).value;
      var seg := kinds[j + 1..NextHeader(kinds, j + 1, n)];
      Expected(kinds, n, k) == FileChangeSummary(Additions(seg), Deletions(seg), FileType(k), Declarations(seg))
  {
    var j := LastHeaderOf(kinds, k, n).value;
    TallyCounts(kinds, k, j + 1, NextHeader(kinds, j + 1, n));
  }

  /** Every expected entry carries the file type of its path. */
  lemma ExpectedType(kinds: seq<LineKind>, n: nat, k: string)
    requires n <= |kinds| && LastHeaderOf(kinds, k, n).Some?
    ensures Expected(kinds, n, k).fileType == FileType(k)
  {
    if k != "" {
      ExpectedCounts(kinds, n, k);
    }
  }

  /** The cursor after the first `n` lines: the path of the last valid
      header, if any. */
  function CursorSpec(kinds: seq<LineKind>, n: nat): Option<string>
    requires n <= |kinds|
  {
    match LastHeader(kinds, n)
    case None => None
    case Some(m) => Some(kinds[m].path)
  }

  ghost predicate EntryAgrees(kinds: seq<LineKind>, n: nat, files: Files, k: string)
    requires n <= |kinds|
  {
    && (k in files.entries <==> LastHeaderOf(kinds, k, n).Some?)
    && (k in files.entries ==> files.entries[k] == Expected(kinds, n, k))
  }

  ghost predicate Agrees(kinds: seq<LineKind>, n: nat, st: ScanState)
    requires n <= |kinds|
  {
    && st.files.keys == Dedup(HeaderKeys(kinds, n))
    && st.cursor == CursorSpec(kinds, n)
    && forall k :: EntryAgrees(kinds, n, st.files, k)
  }

  // ---------------------------------------------------------------------
  // The scan agrees with the reference
  // ---------------------------------------------------------------------

  /** Line `n` is found by `NextHeader` only when no valid header was found
      before it. */
  lemma {:induction false} NextHeaderStep(kinds: seq<LineKind>, i: nat, n: nat)
    requires i <= n < |kinds|
    ensures NextHeader(kinds, i, n + 1) ==
      if NextHeader(kinds, i, n) < n then NextHeader(kinds, i, n)
      else if kinds[n].ValidHeader? then n else n + 1
    decreases n - i
  {
    if i < n && !kinds[i].ValidHeader? {
      NextHeaderStep(kinds, i + 1, n);
    }
  }

  /** A valid header with none after it is the last one, of any path and
      of its own. */
  lemma {:induction false} LastHeaderAt(kinds: seq<LineKind>, j: nat, n: nat)
    requires j < n <= |kinds| && kinds[j].ValidHeader?
    requires forall i :: j < i < n ==> !kinds[i].ValidHeader?
    ensures LastHeader(kinds, n) == Some(j)
    ensures LastHeaderOf(kinds, kinds[j].path, n) == Some(j)
    decreases n
  {
    if j < n - 1 {
      LastHeaderAt(kinds, j, n - 1);
    }
  }

  /** Without a valid header from `i` on, the next one is the end. */
  lemma {:induction false} NextHeaderNone(kinds: seq<LineKind>, i: nat, n: nat)
    requires i <= n <= |kinds| && forall j :: i <= j < n ==> !kinds[j].ValidHeader?
    ensures NextHeader(kinds, i, n) == n
    decreases n - i
  {
    if i < n {
      NextHeaderNone(kinds, i + 1, n);
    }
  }

  /** Only the last valid header has an open section. */
  lemma OpenOnlyAtLast(kinds: seq<LineKind>, n: nat, j: nat)
    requires j < n <= |kinds| && kinds[j].ValidHeader? && NextHeader(kinds, j + 1, n) == n
    ensures LastHeader(kinds, n) == Some(j)
  {
    NextHeaderSpec(kinds, j + 1, n);
    LastHeaderAt(kinds, j, n);
  }

  /** The last valid header's section is open, and it is also the last
      header of its own path. */
  lemma LastIsOpen(kinds: seq<LineKind>, n: nat)
    requires n <= |kinds| && LastHeader(kinds, n).Some?
    ensures NextHeader(kinds, LastHeader(kinds, n).value + 1, n) == n
    ensures LastHeaderOf(kinds, kinds[LastHeader(kinds, n).value].path, n) == LastHeader(kinds, n)
  {
    var m := LastHeader(kinds, n).value;
    LastHeaderSpec(kinds, n);
    NextHeaderNone(kinds, m + 1, n);
    LastHeaderAt(kinds, m, n);
  }

  /** The file being tracked is the one whose section is open. */
  lemma CursorOpen(kinds: seq<LineKind>, n: nat, st: ScanState)
    requires n <= |kinds| && st.cursor == CursorSpec(kinds, n) && Tracking(st)
    ensures LastHeaderOf(kinds, st.cursor.value, n).Some?
    ensures NextHeader(kinds, LastHeaderOf(kinds, st.cursor.value, n).value + 1, n) == n
  {
    LastIsOpen(kinds, n);
  }

  lemma DedupAppend(xs: seq<string>, x: string)
    ensures Dedup(xs + [x]) == if x in Dedup(xs) then Dedup(xs) else Dedup(xs) + [x]
  {
    assert (xs + [x])[..|xs|] == xs;
  }

  /** `Dedup` keeps exactly the elements of its input. */
  lemma {:induction false} DedupMembers(xs: seq<string>)
    ensures forall x :: x in Dedup(xs) <==> x in xs
    decreases |xs|
  {
    if |xs| > 0 {
      var n := |xs| - 1;
      DedupMembers(xs[..n]);
      assert xs == xs[..n] + [xs[n]];
    }
  }

  /** `Dedup` keeps each element once. */
  lemma {:induction false} DedupDistinct(xs: seq<string>)
    ensures Distinct(Dedup(xs))
    decreases |xs|
  {
    if |xs| > 0 {
      DedupDistinct(xs[..|xs| - 1]);
    }
  }

  /** A new valid header for `k` resets its entry and opens its section. */
  lemma EntryAtHeader(kinds: seq<LineKind>, n: nat, st: ScanState, k: string)
    requires n < |kinds| && kinds[n] == ValidHeader(k) && Inv(st)
    ensures EntryAgrees(kinds, n + 1, Step(st, kinds[n]).files, k)
  {
    assert NextHeader(kinds, n + 1, n + 1) == n + 1;
  }

  /** A step leaves alone every entry other than the header's and the cursor's. */
  lemma StepOther(st: ScanState, kind: LineKind, k: string)
    requires Inv(st) && kind != ValidHeader(k) && !(Tracking(st) && st.cursor.value == k)
    ensures k in Step(st, kind).files.entries <==> k in st.files.entries
    ensures k in st.files.entries ==> Step(st, kind).files.entries[k] == st.files.entries[k]
  {
  }

  /** A valid header for another path leaves the entry of `k` alone. */
  lemma HeaderStepOther(st: ScanState, kind: LineKind, k: string)
    requires Inv(st) && kind.ValidHeader? && kind != ValidHeader(k)
    ensures k in Step(st, kind).files.entries <==> k in st.files.entries
    ensures k in st.files.entries ==> Step(st, kind).files.entries[k] == st.files.entries[k]
  {
  }

  /** A line other than a valid header adds to the tracked file's entry
      and to no other. */
  lemma TrackedStep(st: ScanState, kind: LineKind)
    requires Inv(st) && Tracking(st) && !kind.ValidHeader?
    ensures var k := st.cursor.value;
      Step(st, kind).files.entries == st.files.entries[k := Counted(st.files.entries[k], kind)]
  {
    var k := st.cursor.value;
    if !kind.Added? && !kind.Removed? {
      assert Counted(st.files.entries[k], kind) == st.files.entries[k];
      assert st.files.entries[k := st.files.entries[k]] == st.files.entries;
    }
  }

  /** An entry stays in agreement when neither its last header, nor its
      expected value, nor its stored value changes. */
  lemma EntryKept(kinds: seq<LineKind>, n: nat, files: Files, files': Files, k: string)
    requires n < |kinds| && EntryAgrees(kinds, n, files, k)
    requires LastHeaderOf(kinds, k, n + 1) == LastHeaderOf(kinds, k, n)
    requires LastHeaderOf(kinds, k, n).Some? ==> Expected(kinds, n + 1, k) == Expected(kinds, n, k)
    requires k in files'.entries <==> k in files.entries
    requires k in files.entries ==> files'.entries[k] == files.entries[k]
    ensures EntryAgrees(kinds, n + 1, files', k)
  {
  }

  /** When the section of the last header of `k` is already closed, or
      line `n` is a valid header that closes it, that line leaves what the
      entry of `k` should hold alone. */
  lemma ExpectedKept(kinds: seq<LineKind>, n: nat, k: string)
    requires n < |kinds| && kinds[n] != ValidHeader(k) && LastHeaderOf(kinds, k, n).Some?
    requires NextHeader(kinds, LastHeaderOf(kinds, k, n).value + 1, n) < n || kinds[n].ValidHeader?
    ensures LastHeaderOf(kinds, k, n + 1) == LastHeaderOf(kinds, k, n)
    ensures Expected(kinds, n + 1, k) == Expected(kinds, n, k)
  {
    NextHeaderStep(kinds, LastHeaderOf(kinds, k, n).value + 1, n);
  }

  /** A line other than a valid header joins the open section of `k`. */
  lemma ExpectedGrows(kinds: seq<LineKind>, n: nat, k: string)
    requires n < |kinds| && k != "" && !kinds[n].ValidHeader? && LastHeaderOf(kinds, k, n).Some?
    requires NextHeader(kinds, LastHeaderOf(kinds, k, n).value + 1, n) == n
    ensures LastHeaderOf(kinds, k, n + 1) == LastHeaderOf(kinds, k, n)
    ensures Expected(kinds, n + 1, k) == Counted(Expected(kinds, n, k), kinds[n])
  {
    NextHeaderStep(kinds, LastHeaderOf(kinds, k, n).value + 1, n);
  }

  /** An entry whose section is closed does not change. */
  lemma EntryClosed(kinds: seq<LineKind>, n: nat, st: ScanState, k: string)
    requires n < |kinds| && Inv(st) && st.cursor == CursorSpec(kinds, n)
    requires EntryAgrees(kinds, n, st.files, k) && kinds[n] != ValidHeader(k)
    requires LastHeaderOf(kinds, k, n).Some?
    requires NextHeader(kinds, LastHeaderOf(kinds, k, n).value + 1, n) < n
    ensures EntryAgrees(kinds, n + 1, Step(st, kinds[n]).files, k)
  {
    ExpectedKept(kinds, n, k);
    if Tracking(st) {
      CursorOpen(kinds, n, st);
    }
    StepOther(st, kinds[n], k);
    EntryKept(kinds, n, st.files, Step(st, kinds[n]).files, k);
  }

  /** The entry of the last header takes the new line into its tally, or
      is closed by a new valid header. */
  lemma EntryOpen(kinds: seq<LineKind>, n: nat, st: ScanState, k: string)
    requires n < |kinds| && Inv(st) && st.cursor == CursorSpec(kinds, n)
    requires EntryAgrees(kinds, n, st.files, k) && kinds[n] != ValidHeader(k)
    requires LastHeaderOf(kinds, k, n).Some?
    requires NextHeader(kinds, LastHeaderOf(kinds, k, n).value + 1, n) == n
    ensures EntryAgrees(kinds, n + 1, Step(st, kinds[n]).files, k)
  {
    var j := LastHeaderOf(kinds, k, n).value;
    LastHeaderOfSpec(kinds, k, n);
    OpenOnlyAtLast(kinds, n, j);
    if kinds[n].ValidHeader? {
      EntryClosedByHeader(kinds, n, st, k);
    } else {
      EntryGrows(kinds, n, st, k);
    }
  }

  /** The tracked file's entry takes a line other than a valid header into
      its tally; the empty path stays fresh. */
  lemma EntryGrows(kinds: seq<LineKind>, n: nat, st: ScanState, k: string)
    requires n < |kinds| && Inv(st) && st.cursor == Some(k)
    requires EntryAgrees(kinds, n, st.files, k) && !kinds[n].ValidHeader?
    requires LastHeaderOf(kinds, k, n).Some?
    requires NextHeader(kinds, LastHeaderOf(kinds, k, n).value + 1, n) == n
    ensures EntryAgrees(kinds, n + 1, Step(st, kinds[n]).files, k)
  {
    if k == "" {
      assert Step(st, kinds[n]) == st;
    } else {
      ExpectedGrows(kinds, n, k);
      TrackedStep(st, kinds[n]);
    }
  }

  /** A valid header for another path closes the open section. */
  lemma EntryClosedByHeader(kinds: seq<LineKind>, n: nat, st: ScanState, k: string)
    requires n < |kinds| && Inv(st) && EntryAgrees(kinds, n, st.files, k)
    requires kinds[n].ValidHeader? && kinds[n] != ValidHeader(k)
    requires LastHeaderOf(kinds, k, n).Some?
    requires NextHeader(kinds, LastHeaderOf(kinds, k, n).value + 1, n) == n
    ensures EntryAgrees(kinds, n + 1, Step(st, kinds[n]).files, k)
  {
    ExpectedKept(kinds, n, k);
    HeaderStepOther(st, kinds[n], k);
    EntryKept(kinds, n, st.files, Step(st, kinds[n]).files, k);
  }

  /** A path without a valid header so far has no entry, unless this line
      is its header. */
  lemma EntryUnseen(kinds: seq<LineKind>, n: nat, st: ScanState, k: string)
    requires n < |kinds| && Inv(st) && st.cursor == CursorSpec(kinds, n)
    requires EntryAgrees(kinds, n, st.files, k) && kinds[n] != ValidHeader(k)
    requires LastHeaderOf(kinds, k, n).None?
    ensures EntryAgrees(kinds, n + 1, Step(st, kinds[n]).files, k)
  {
    assert k !in st.files.entries;
    if Tracking(st) {
      assert st.cursor.value in st.files.entries;
    }
  }

  /** How one entry evolves over one step. */
  lemma EntryStep(kinds: seq<LineKind>, n: nat, st: ScanState, k: string)
    requires n < |kinds| && Inv(st) && st.cursor == CursorSpec(kinds, n)
    requires EntryAgrees(kinds, n, st.files, k)
    ensures EntryAgrees(kinds, n + 1, Step(st, kinds[n]).files, k)
  {
    if kinds[n] == ValidHeader(k) {
      EntryAtHeader(kinds, n, st, k);
    } else if LastHeaderOf(kinds, k, n).None? {
      EntryUnseen(kinds, n, st, k);
    } else if NextHeader(kinds, LastHeaderOf(kinds, k, n).value + 1, n) < n {
      EntryClosed(kinds, n, st, k);
    } else {
      EntryOpen(kinds, n, st, k);
    }
  }

  /** The keys are the distinct header paths, in order of first appearance. */
  lemma StepKeys(kinds: seq<LineKind>, n: nat, st: ScanState)
    requires n < |kinds| && Inv(st) && st.files.keys == Dedup(HeaderKeys(kinds, n))
    ensures Step(st, kinds[n]).files.keys == Dedup(HeaderKeys(kinds, n + 1))
  {
    var kind := kinds[n];
    match kind
    case ValidHeader(k) =>
      DedupAppend(HeaderKeys(kinds, n), k);
      assert k in st.files.entries <==> k in st.files.keys;
    case _ =>
      assert HeaderKeys(kinds, n + 1) == HeaderKeys(kinds, n) + [];
      assert HeaderKeys(kinds, n) + [] == HeaderKeys(kinds, n);
      if Tracking(st) {
        assert st.cursor.value in st.files.keys;
      }
  }

  lemma StepAgrees(kinds: seq<LineKind>, n: nat, st: ScanState)
    requires n < |kinds| && Inv(st) && Agrees(kinds, n, st)
    ensures Agrees(kinds, n + 1, Step(st, kinds[n]))
  {
    StepKeys(kinds, n, st);
    var next, files := n + 1, Step(st, kinds[n]).files;
    forall k ensures EntryAgrees(kinds, next, files, k) {
      assert EntryAgrees(kinds, n, st.files, k);
      EntryStep(kinds, n, st, k);
    }
  }

  /** The scan of the first `n` lines agrees with the reference on them. */
  lemma {:induction false} ScanAgrees(kinds: seq<LineKind>, n: nat)
    requires n <= |kinds|
    ensures Agrees(kinds, n, Scan(kinds[..n]))
    decreases n
  {
    if n > 0 {
      ScanAgrees(kinds, n - 1);
      ScanSnoc(kinds, n - 1);
      StepAgrees(kinds, n - 1, Scan(kinds[..n - 1]));
    }
  }

  // ---------------------------------------------------------------------
  // What the summary promises
  // ---------------------------------------------------------------------

  /** The keys are the distinct paths of the valid headers in order of first
      appearance; a path has an entry exactly when it has a valid header; the
      entry of a non-empty path tallies the lines between its last valid
      header and the next valid header, and that of the empty path stays
      zero. */
  lemma SummarizeAgrees(diff: string)
    ensures var kinds := ClassifyAll(SplitOn(diff, '\n'));
      Agrees(kinds, |kinds|, Scan(kinds))
  {
    var kinds := ClassifyAll(SplitOn(diff, '\n'));
    ScanAgrees(kinds, |kinds|);
    assert kinds[..|kinds|] == kinds;
  }

  /** Every entry of the summary carries the file type of its path. */
  lemma SummarizeTypes(diff: string)
    ensures var files := Summarize(diff);
      forall k :: k in files.entries ==> files.entries[k].fileType == FileType(k)
  {
    var kinds := ClassifyAll(SplitOn(diff, '\n'));
    SummarizeAgrees(diff);
    var files := Summarize(diff);
    forall k | k in files.entries ensures files.entries[k].fileType == FileType(k) {
      assert EntryAgrees(kinds, |kinds|, files, k);
      ExpectedType(kinds, |kinds|, k);
    }
  }

  lemma {:induction false} NoHeaderKeys(kinds: seq<LineKind>, n: nat)
    requires n <= |kinds| && forall i :: 0 <= i < n ==> !kinds[i].ValidHeader?
    ensures HeaderKeys(kinds, n) == []
    decreases n
  {
    if n > 0 {
      NoHeaderKeys(kinds, n - 1);
    }
  }

  /** Without a valid header line the mapping is empty: lines before the
      first valid header are never counted. */
  lemma SummarizeNoHeaders(diff: string)
    requires forall line :: line in SplitOn(diff, '\n') ==> !IsValidHeader(line)
    ensures Summarize(diff) == NoFiles
  {
    var lines := SplitOn(diff, '\n');
    var kinds := ClassifyAll(lines);
    forall i | 0 <= i < |kinds| ensures !kinds[i].ValidHeader? {
      assert lines[i] in lines;
    }
    NoHeaderKeys(kinds, |kinds|);
    SummarizeAgrees(diff);
    var files := Summarize(diff);
    assert files.keys == [];
    assert files.entries == map[];
  }

  // ---------------------------------------------------------------------
  // What each line means
  // ---------------------------------------------------------------------

  /** A line names a file exactly when it is a valid header; the file is the
      last whitespace token with every leading 'b' and '/' removed. */
  lemma ClassifyHeader(line: string)
    ensures Classify(line).ValidHeader? <==> IsValidHeader(line)
    ensures IsValidHeader(line) ==>
      Classify(line).path == LStripChars(LastWord(line), PathStripChars)
  {
    if IsValidHeader(line) {
      LastOfWords(line);
    }
  }

  /** Because `lstrip('b/')` removes characters and not a prefix, the path
      `b/bar.py` is recorded as `ar.py`. */
  lemma StripsPathLetters()
    ensures LStripChars("b/bar.py", PathStripChars) == "ar.py"
  {
    assert "b/bar.py"[1..] == "/bar.py";
    assert "/bar.py"[1..] == "bar.py";
    assert "bar.py"[1..] == "ar.py";
  }

  /** A line counts as an addition exactly when it starts with '+' but not
      "+++", and as a deletion exactly when it starts with '-' but not "---". */
  lemma ClassifyChange(line: string)
    ensures Classify(line).Added? <==> IsAddition(line)
    ensures Classify(line).Removed? <==> IsDeletion(line)
  {
    if IsAddition(line) || IsDeletion(line) {
      assert line[0] != HeaderPrefix[0];
    }
  }

  /** `re.match(r'^\+\s*(def|class|...)', line)` succeeding with the `\s*`
      ending just before index `n`. */
  predicate DeclarationAt(line: string, n: int) {
    1 <= n <= |line| && line[0] == '+' && AllSpace(line[1..n]) && StartsWithKeyword(line[n..])
  }

  /** Every keyword is a non-empty run of non-whitespace characters. */
  lemma KeywordsSolid()
    ensures forall i :: 0 <= i < |Keywords| ==> |Keywords[i]| > 0
    ensures forall i, j :: 0 <= i < |Keywords| && 0 <= j < |Keywords[i]| ==>
      !IsSpace(Keywords[i][j]) && Keywords[i][j] != '+'
  {
  }

  /** A keyword-led text starts with that keyword's non-space characters. */
  lemma KeywordStart(s: string) returns (w: nat)
    requires StartsWithKeyword(s)
    ensures 0 < w <= |s| && StartsWithKeyword(s[..w])
    ensures forall j :: 0 <= j < w ==> !IsSpace(s[j]) && s[j] != '+'
  {
    KeywordsSolid();
    var i :| 0 <= i < |Keywords| && StartsWith(s, Keywords[i]);
    w := |Keywords[i]|;
    assert s[..w][..w] == Keywords[i];
    forall j | 0 <= j < w ensures !IsSpace(s[j]) && s[j] != '+' {
      assert s[j] == Keywords[i][j];
    }
  }

  /** `lstrip()` stops at the first non-whitespace character. */
  lemma {:induction false} LStripSpaceAt(t: string, m: nat)
    requires m <= |t| && AllSpace(t[..m]) && (m == |t| || !IsSpace(t[m]))
    ensures LStripSpace(t) == t[m..]
    decreases m
  {
    if m > 0 {
      assert IsSpace(t[..m][0]);
      assert t[1..][..m - 1] == t[..m][1..];
      assert t[1..][m - 1..] == t[m..];
      LStripSpaceAt(t[1..], m - 1);
    }
  }

  /** The model of the declaration test agrees with the regular
      expression: it holds exactly when some split of the line matches. */
  lemma DeclarationRegex(line: string)
    ensures IsDeclaration(line) <==> exists n :: DeclarationAt(line, n)
  {
    if IsDeclaration(line) {
      var t := line[1..];
      var u := LStripSpace(t);
      LStripSpaceShape(t);
      var n := 1 + |t| - |u|;
      assert line[n..] == u;
      assert AllSpace(line[1..n]) by {
        forall i | 0 <= i < n - 1 ensures IsSpace(line[1..n][i]) {
          assert line[1..n][i] == t[i];
        }
      }
      assert DeclarationAt(line, n);
    }
    if n :| DeclarationAt(line, n) {
      var t := line[1..];
      var w := KeywordStart(line[n..]);
      assert line[1..n] == t[..n - 1];
      assert line[n..] == t[n - 1..];
      LStripSpaceAt(t, n - 1);
    }
  }

  /** A declaration line cleans to a non-empty text that still starts with
      its keyword: the `if clean_line` guard never rejects one. */
  lemma DeclarationClean(line: string)
    requires IsDeclaration(line)
    ensures CleanChange(line) == Strip(line[1..])
    ensures CleanChange(line) != "" && StartsWithKeyword(CleanChange(line))
  {
    var t := line[1..];
    var u := LStripSpace(t);
    LStripSpaceShape(t);
    var w := KeywordStart(u);
    assert t[0] != '+' by {
      if |t| - |u| > 0 {
        assert IsSpace(t[0]);
      } else {
        assert t == u;
      }
    }
    assert LStripChars(line, {'+'}) == t by {
      assert LStripChars(line, {'+'}) == LStripChars(t, {'+'});
    }
    var r := RStripSpace(u);
    RStripSpaceShape(u);
    assert !IsSpace(u[w - 1]);
    assert r[..w] == u[..w];
    assert r[..w][..w] == r[..w];
  }

  /** An added line contributes an important change exactly when it is a
      declaration line, and what it contributes is the cleaned line. */
  lemma RecordedChangeSpec(line: string)
    ensures RecordedChange(line).Some? <==> IsDeclaration(line)
    ensures RecordedChange(line).Some? ==>
      RecordedChange(line).value == CleanChange(line) && StartsWithKeyword(CleanChange(line))
  {
    if IsDeclaration(line) {
      DeclarationClean(line);
    }
  }

  /** There is no word boundary after the keyword: `+define` counts as `def`. */
  lemma KeywordWithoutBoundary()
    ensures IsDeclaration("+define x")
  {
    assert "+define x"[1..] == "define x";
    assert !IsSpace('d');
    assert StartsWith("define x", Keywords[0]);
  }

  /** The file type is the text after the last '.', case kept, or
      "unknown" when the path has no '.'. */
  lemma FileTypeShape(path: string)
    ensures '.' !in path ==> FileType(path) == UnknownType
    ensures '.' in path ==>
      '.' !in FileType(path) && exists stem :: path == stem + "." + FileType(path)
  {
    if '.' in path {
      var parts := SplitOn(path, '.');
      var n := |parts|;
      JoinSplit(path, '.');
      assert parts == parts[..n - 1] + [parts[n - 1]];
      JoinAppend(parts[..n - 1], parts[n - 1], ".");
      assert path == Join(parts[..n - 1], ".") + "." + FileType(path);
    }
  }

  // ---------------------------------------------------------------------
  // A worked example
  // ---------------------------------------------------------------------

  /** `diff --git a/foo.py b/foo.py`, written as its four tokens. */
  const ExampleHeader: string := "diff --git a/foo.py b/foo.py"
  const ExampleAdded: string := "+def handler():"
  const ExampleRemoved: string := "-def old():"

  /** Four words separated by single spaces split into those words. */
  lemma FourWords(w0: string, w1: string, w2: string, w3: string)
    requires |w0| > 0 && |w1| > 0 && |w2| > 0 && |w3| > 0
    requires !HasSpace(w0) && !HasSpace(w1) && !HasSpace(w2) && !HasSpace(w3)
    ensures Words(w0 + (" " + (w1 + (" " + (w2 + (" " + w3)))))) == [w0, w1, w2, w3]
  {
    var r3 := w3;
    var r2 := w2 + ([' '] + r3);
    var r1 := w1 + ([' '] + r2);
    var r0 := w0 + ([' '] + r1);
    WordsCons(w3, "");
    assert w3 + "" == w3;
    WordsSpace(' ', r3);
    WordsCons(w2, [' '] + r3);
    WordsSpace(' ', r2);
    WordsCons(w1, [' '] + r2);
    WordsSpace(' ', r1);
    WordsCons(w0, [' '] + r1);
  }

  /** The example header is its four words joined by single spaces. */
  lemma ExampleHeaderText()
    ensures ExampleHeader == "diff" + (" " + ("--git" + (" " + ("a/foo.py" + (" " + "b/foo.py")))))
  {
    var tail := " " + ("a/foo.py" + (" " + "b/foo.py"));
    assert tail == " a/foo.py b/foo.py";
    assert ExampleHeader == "diff --git" + " a/foo.py b/foo.py";
  }

  lemma ExampleHeaderWords()
    ensures Words(ExampleHeader) == ["diff", "--git", "a/foo.py", "b/foo.py"]
  {
    assert !HasSpace("diff");
    assert !HasSpace("--git");
    assert !HasSpace("a/foo.py");
    assert !HasSpace("b/foo.py");
    ExampleHeaderText();
    FourWords("diff", "--git", "a/foo.py", "b/foo.py");
  }

  lemma ExampleStrip()
    ensures LStripChars("b/foo.py", PathStripChars) == "foo.py"
  {
    var w := "b/foo.py";
    assert w[1..] == "/foo.py";
    assert w[1..][1..] == "foo.py";
  }

  /** The example's header line names `foo.py`. */
  lemma ExampleHeaderLine()
    ensures Classify(ExampleHeader) == ValidHeader("foo.py")
  {
    ExampleHeaderWords();
    ExampleStrip();
    assert IsHeader(ExampleHeader) by {
      assert ExampleHeader[..|HeaderPrefix|] == HeaderPrefix;
    }
  }

  /** The example's added line is a declaration and records its text. */
  lemma ExampleAddedLine()
    ensures Classify(ExampleAdded) == Added(Some("def handler():"))
  {
    var t := "def handler():";
    assert ExampleAdded[1..] == t;
    assert !IsSpace(t[0]) && t[0] !in {'+'};
    assert StartsWith(t, Keywords[0]);
    assert IsDeclaration(ExampleAdded);
    assert LStripChars(ExampleAdded, {'+'}) == t;
    assert !IsSpace(t[|t| - 1]);
    assert Strip(t) == t;
    assert ExampleAdded[0] != HeaderPrefix[0];
    assert ExampleAdded[..3] != "+++";
  }

  /** The example's removed line is a deletion. */
  lemma ExampleRemovedLine()
    ensures Classify(ExampleRemoved) == Removed
  {
    assert ExampleRemoved[0] != HeaderPrefix[0] && ExampleRemoved[0] != '+';
    assert ExampleRemoved[1] != "---"[1];
  }

  /** `foo.py` has file type "py". */
  lemma ExampleType()
    ensures FileType("foo.py") == "py"
  {
    SplitAfterPiece("foo", '.', "py");
    SplitWithoutSep("py", '.');
    assert "foo.py" == "foo" + ['.'] + "py";
  }

  /** The state after each line of the example. */
  function ExampleState(n: nat): ScanState
    requires n <= 3
  {
    var e := FileChangeSummary(if n >= 2 then 1 else 0, if n == 3 then 1 else 0, "py",
                               if n >= 2 then ["def handler():"] else []);
    if n == 0 then ScanState(NoFiles, None) else ScanState(Files(["foo.py"], map["foo.py" := e]), Some("foo.py"))
  }

  lemma ExampleHeaderStep()
    ensures Inv(ExampleState(0)) && Step(ExampleState(0), ValidHeader("foo.py")) == ExampleState(1)
  {
    ExampleType();
  }

  lemma ExampleAddedStep()
    ensures Inv(ExampleState(1)) && Step(ExampleState(1), Added(Some("def handler():"))) == ExampleState(2)
  {
    var e1, e2 := ExampleState(1).files.entries["foo.py"], ExampleState(2).files.entries["foo.py"];
    assert e1.importantChanges + ["def handler():"] == e2.importantChanges;
    assert map["foo.py" := e1]["foo.py" := e2] == map["foo.py" := e2];
  }

  lemma ExampleRemovedStep()
    ensures Inv(ExampleState(2)) && Step(ExampleState(2), Removed) == ExampleState(3)
  {
    var e2, e3 := ExampleState(2).files.entries["foo.py"], ExampleState(3).files.entries["foo.py"];
    assert map["foo.py" := e2]["foo.py" := e3] == map["foo.py" := e3];
  }

  /** The example's classified lines. */
  predicate ExampleKinds(kinds: seq<LineKind>) {
    && |kinds| == 3 && kinds[0] == ValidHeader("foo.py")
    && kinds[1] == Added(Some("def handler():")) && kinds[2] == Removed
  }

  lemma ScanExampleHeader(kinds: seq<LineKind>)
    requires ExampleKinds(kinds)
    ensures Scan(kinds[..1]) == ExampleState(1)
  {
    assert kinds[..0] == [];
    ScanSnoc(kinds, 0);
    ExampleHeaderStep();
  }

  lemma ScanExampleAdded(kinds: seq<LineKind>)
    requires ExampleKinds(kinds)
    ensures Scan(kinds[..2]) == ExampleState(2)
  {
    ScanExampleHeader(kinds);
    ScanSnoc(kinds, 1);
    ExampleAddedStep();
  }

  /** The scan of the example's classified lines. */
  lemma ScanExample(kinds: seq<LineKind>)
    requires ExampleKinds(kinds)
    ensures Scan(kinds) == ExampleState(3)
  {
    ScanExampleAdded(kinds);
    ExampleRemovedStep();
    assert Scan(kinds) == Step(Scan(kinds[..2]), kinds[2]);
  }

  /** The example diff splits into its three lines. */
  lemma ExampleLines()
    ensures SplitOn(ExampleHeader + "\n" + (ExampleAdded + "\n" + ExampleRemoved), '\n') ==
      [ExampleHeader, ExampleAdded, ExampleRemoved]
  {
    var lines := [ExampleHeader, ExampleAdded, ExampleRemoved];
    assert lines[1..] == [ExampleAdded, ExampleRemoved] && lines[1..][1..] == [ExampleRemoved];
    assert Join(lines[1..], "\n") == ExampleAdded + "\n" + ExampleRemoved;
    SplitJoin(lines, '\n');
  }

  /** A header, one added declaration and one removed line summarise to one
      entry for `foo.py`: one addition, one deletion, type "py" and the
      declaration as its important change. */
  lemma SummarizeExample()
    ensures Summarize(ExampleHeader + "\n" + (ExampleAdded + "\n" + ExampleRemoved)) ==
      Files(["foo.py"], map["foo.py" := FileChangeSummary(1, 1, "py", ["def handler():"])])
  {
    ExampleLines();
    var lines := [ExampleHeader, ExampleAdded, ExampleRemoved];
    ExampleHeaderLine();
    ExampleAddedLine();
    ExampleRemovedLine();
    ScanExample(ClassifyAll(lines));
  }
}
