/**
 * The part of `generate_commit_message` that turns a diff into the values
 * interpolated into the prompt: the aggregate `ChangeSummary` over the
 * per-file summaries, the key changes rendered by `_format_key_changes`,
 * the file types joined with ", " (or "unknown") and the branch and ticket
 * (or "N/A").
 *
 * The ignore matcher built from the repository's ignore rules is a
 * parameter; the constant instruction text around the fields and the call
 * to the language model are not part of this model.
 */
module PromptBuilder {
  import opened PyStrings
  import opened Options
  import opened DiffCleaner
  import opened DiffSummarizer
  import opened ImportanceFilter

  /** At most this many changes are listed per file. */
  const MaxShown: nat := 5
  const BulletPrefix: string := "  - "
  const NotAvailable: string := "N/A"
  /** How an f-string writes Python's `None`. */
  const NoneText: string := "None"
  const TypeSeparator: string := ", "

  /** The items of a dict from file name to its important changes, in
      insertion order. */
  type KeyChanges = seq<(string, seq<string>)>

  // ---------------------------------------------------------------------
  // `_format_key_changes`
  // ---------------------------------------------------------------------

  /** `len(changes[:5])`. */
  function ShownCount(changes: seq<string>): nat {
    if |changes| < MaxShown then |changes| else MaxShown
  }

  /** One `"  - {change}"` line for each of the first `n` changes, in order. */
  function Bullets(changes: seq<string>, n: nat): seq<string>
    requires n <= |changes|
  {
    seq(n, j requires 0 <= j < n => BulletPrefix + changes[j])
  }

  /** The lines one file contributes: nothing for an empty list, otherwise
      its name line and its first changes. */
  function FileBlock(name: string, changes: seq<string>): seq<string> {
    if |changes| == 0 then [] else ["\n" + name + ":"] + Bullets(changes, ShownCount(changes))
  }

  /** The blocks joined end to end. */
  function Flatten(blocks: seq<seq<string>>): seq<string>
    decreases |blocks|
  {
    if |blocks| == 0 then [] else Flatten(blocks[..|blocks| - 1]) + blocks[|blocks| - 1]
  }

  /** The block of each item, in order. */
  function Blocks(kc: KeyChanges): (r: seq<seq<string>>)
    ensures |r| == |kc|
    ensures forall i :: 0 <= i < |kc| ==> r[i] == FileBlock(kc[i].0, kc[i].1)
  {
    seq(|kc|, i requires 0 <= i < |kc| => FileBlock(kc[i].0, kc[i].1))
  }

  /** The `result` list after all items are processed. */
  function KeyChangeLines(kc: KeyChanges): seq<string> {
    Flatten(Blocks(kc))
  }

  function FormattedKeyChanges(kc: KeyChanges): string {
    Join(KeyChangeLines(kc), "\n")
  }

  /** `_format_key_changes(key_changes)`. */
  method FormatKeyChanges(kc: KeyChanges) returns (text: string)
    ensures text == FormattedKeyChanges(kc)
  {
    var result: seq<string> := [];
    for i := 0 to |kc|
      invariant result == KeyChangeLines(kc[..i])
    {
      var (filename, changes) := kc[i];
      assert kc[..i + 1] == kc[..i] + [kc[i]];
      KeyChangeLinesSnoc(kc[..i], kc[i]);
      if |changes| > 0 {
        result := result + ["\n" + filename + ":"];
        result := ExtendBullets(result, changes);
      }
    }
    assert kc[..|kc|] == kc;
    text := Join(result, "\n");
  }

  /** `result.extend(f"  - {change}" for change in changes[:5])`. */
  method ExtendBullets(result: seq<string>, changes: seq<string>) returns (extended: seq<string>)
    ensures extended == result + Bullets(changes, ShownCount(changes))
  {
    extended := result;
    var shown := if |changes| <= MaxShown then changes else changes[..MaxShown];
    for j := 0 to |shown|
      invariant extended == result + Bullets(changes, j)
    {
      assert Bullets(changes, j + 1) == Bullets(changes, j) + [BulletPrefix + shown[j]];
      extended := extended + [BulletPrefix + shown[j]];
    }
  }

  /** A file with changes contributes its name line and then one bullet for
      each of its first `min(5, len)` changes, in order; a file without
      changes contributes nothing. */
  lemma FileBlockShape(name: string, changes: seq<string>)
    ensures |changes| == 0 ==> FileBlock(name, changes) == []
    ensures |changes| > 0 ==>
      var block := FileBlock(name, changes);
      && |block| == 1 + (if |changes| < MaxShown then |changes| else MaxShown)
      && block[0] == "\n" + name + ":"
      && forall j :: 0 <= j < |block| - 1 ==> block[j + 1] == BulletPrefix + changes[j]
  {
    if |changes| > 0 {
      var bullets := Bullets(changes, ShownCount(changes));
      assert FileBlock(name, changes) == ["\n" + name + ":"] + bullets;
    }
  }

  lemma {:induction false} FlattenAppend(x: seq<seq<string>>, y: seq<seq<string>>)
    ensures Flatten(x + y) == Flatten(x) + Flatten(y)
    decreases |y|
  {
    if |y| == 0 {
      assert x + y == x;
    } else {
      var n := |y| - 1;
      var z := x + y;
      assert z[..|z| - 1] == x + y[..n];
      assert z[|z| - 1] == y[n];
      FlattenAppend(x, y[..n]);
      assert Flatten(z) == Flatten(x) + Flatten(y[..n]) + y[n];
    }
  }

  /** The joined blocks are empty exactly when every block is. */
  lemma {:induction false} FlattenEmpty(blocks: seq<seq<string>>)
    ensures Flatten(blocks) == [] <==> forall i :: 0 <= i < |blocks| ==> blocks[i] == []
    decreases |blocks|
  {
    if |blocks| > 0 {
      var n := |blocks| - 1;
      FlattenEmpty(blocks[..n]);
      assert forall i :: 0 <= i < n ==> blocks[..n][i] == blocks[i];
    }
  }

  /** Joining blocks of non-empty lines gives non-empty lines. */
  lemma {:induction false} FlattenNonEmpty(blocks: seq<seq<string>>)
    requires forall i :: 0 <= i < |blocks| ==> "" !in blocks[i]
    ensures "" !in Flatten(blocks)
    decreases |blocks|
  {
    if |blocks| > 0 {
      var n := |blocks| - 1;
      FlattenNonEmpty(blocks[..n]);
      assert Flatten(blocks) == Flatten(blocks[..n]) + blocks[n];
    }
  }

  /** Rendering distributes over concatenation of the items. */
  lemma KeyChangeLinesAppend(a: KeyChanges, b: KeyChanges)
    ensures KeyChangeLines(a + b) == KeyChangeLines(a) + KeyChangeLines(b)
  {
    assert Blocks(a + b) == Blocks(a) + Blocks(b);
    FlattenAppend(Blocks(a), Blocks(b));
  }

  lemma KeyChangeLinesSnoc(kc: KeyChanges, x: (string, seq<string>))
    ensures KeyChangeLines(kc + [x]) == KeyChangeLines(kc) + FileBlock(x.0, x.1)
  {
    KeyChangeLinesAppend(kc, [x]);
    var bs := Blocks([x]);
    assert bs[..0] == [];
    assert Flatten(bs) == Flatten(bs[..0]) + bs[0];
  }

  /** The lines of a non-empty list end with the block of its last item. */
  lemma KeyChangeLinesLast(kc: KeyChanges)
    requires |kc| > 0
    ensures var n := |kc| - 1;
      KeyChangeLines(kc) == KeyChangeLines(kc[..n]) + FileBlock(kc[n].0, kc[n].1)
  {
    var n := |kc| - 1;
    assert kc == kc[..n] + [kc[n]];
    KeyChangeLinesSnoc(kc[..n], kc[n]);
  }

  /** The lines of item `i` sit between those of the items before it and
      those of the items after it. */
  lemma KeyChangeLinesAt(kc: KeyChanges, i: nat)
    requires i < |kc|
    ensures KeyChangeLines(kc) ==
      KeyChangeLines(kc[..i]) + FileBlock(kc[i].0, kc[i].1) + KeyChangeLines(kc[i + 1..])
  {
    assert kc == kc[..i] + [kc[i]] + kc[i + 1..];
    KeyChangeLinesAppend(kc[..i] + [kc[i]], kc[i + 1..]);
    KeyChangeLinesSnoc(kc[..i], kc[i]);
  }

  /** No line is rendered exactly when every list of changes is empty. */
  lemma NoLinesIffEmpty(kc: KeyChanges)
    ensures KeyChangeLines(kc) == [] <==> forall i :: 0 <= i < |kc| ==> |kc[i].1| == 0
  {
    FlattenEmpty(Blocks(kc));
  }

  /** A join of parts is at least as long as its first part. */
  lemma JoinLength(parts: seq<string>, sep: string)
    requires |parts| > 0
    ensures |Join(parts, sep)| >= |parts[0]|
  {
  }

  /** Every rendered line is non-empty. */
  lemma LinesNonEmpty(kc: KeyChanges)
    ensures "" !in KeyChangeLines(kc)
  {
    var bs := Blocks(kc);
    forall i | 0 <= i < |bs| ensures "" !in bs[i] {
      var block := bs[i];
      if |block| > 0 {
        assert block[0] == "\n" + kc[i].0 + ":";
        assert forall j :: 1 <= j < |block| ==> |block[j]| >= |BulletPrefix|;
      }
    }
    FlattenNonEmpty(bs);
  }

  /** The formatted text is empty exactly when no file has a change. */
  lemma FormattedEmptyIff(kc: KeyChanges)
    ensures FormattedKeyChanges(kc) == "" <==> forall i :: 0 <= i < |kc| ==> |kc[i].1| == 0
  {
    NoLinesIffEmpty(kc);
    var lines := KeyChangeLines(kc);
    if |lines| > 0 {
      LinesNonEmpty(kc);
      assert lines[0] in lines;
      JoinLength(lines, "\n");
    }
  }

  /** The items whose lists are not empty, in order. */
  function NonEmptyOnly(kc: KeyChanges): KeyChanges
    decreases |kc|
  {
    if |kc| == 0 then []
    else
      var n := |kc| - 1;
      NonEmptyOnly(kc[..n]) + (if |kc[n].1| > 0 then [kc[n]] else [])
  }

  /** The filter keeps exactly the items whose list is not empty. */
  lemma {:induction false} NonEmptyOnlyMembers(kc: KeyChanges)
    ensures forall p :: p in NonEmptyOnly(kc) <==> p in kc && |p.1| > 0
    decreases |kc|
  {
    if |kc| > 0 {
      var n := |kc| - 1;
      NonEmptyOnlyMembers(kc[..n]);
      assert kc == kc[..n] + [kc[n]];
    }
  }

  /** The filtered lines of a non-empty list end with the block of its last
      item, which is empty when the item's list is. */
  lemma NonEmptyOnlyLast(kc: KeyChanges)
    requires |kc| > 0
    ensures var n := |kc| - 1;
      KeyChangeLines(NonEmptyOnly(kc)) ==
        KeyChangeLines(NonEmptyOnly(kc[..n])) + FileBlock(kc[n].0, kc[n].1)
  {
    var n := |kc| - 1;
    var x := kc[n];
    var front := NonEmptyOnly(kc[..n]);
    if |x.1| > 0 {
      assert NonEmptyOnly(kc) == front + [x];
      KeyChangeLinesSnoc(front, x);
    } else {
      assert front + [] == front;
      assert FileBlock(x.0, x.1) == [];
      assert KeyChangeLines(front) + [] == KeyChangeLines(front);
    }
  }

  /** Dropping the items with empty lists does not change the rendering. */
  lemma {:induction false} DropEmptyLists(kc: KeyChanges)
    ensures KeyChangeLines(NonEmptyOnly(kc)) == KeyChangeLines(kc)
    decreases |kc|
  {
    if |kc| > 0 {
      DropEmptyLists(kc[..|kc| - 1]);
      NonEmptyOnlyLast(kc);
      KeyChangeLinesLast(kc);
    }
  }

  // ---------------------------------------------------------------------
  // The aggregate summary
  // ---------------------------------------------------------------------

  datatype ChangeSummary = ChangeSummary(
    totalFiles: nat,
    totalAdditions: nat,
    totalDeletions: nat,
    fileTypes: set<string>,
    importantFiles: seq<string>,
    keyChanges: KeyChanges)

  function AddedCount(f: FileChangeSummary): nat { f.additions }
  function DeletedCount(f: FileChangeSummary): nat { f.deletions }

  /** `sum(count(f) for f in changes.values())`, in key order. */
  function Total(keys: seq<string>, entries: map<string, FileChangeSummary>,
                 count: FileChangeSummary -> nat): nat
    requires forall k :: k in keys ==> k in entries
    decreases |keys|
  {
    if |keys| == 0 then 0
    else Total(keys[..|keys| - 1], entries, count) + count(entries[keys[|keys| - 1]])
  }

  /** The elements `keep` accepts, in order. */
  function Filter(xs: seq<string>, keep: string -> bool): (r: seq<string>)
    ensures forall x :: x in r <==> x in xs && keep(x)
    decreases |xs|
  {
    if |xs| == 0 then []
    else
      var n := |xs| - 1;
      assert xs == xs[..n] + [xs[n]];
      Filter(xs[..n], keep) + (if keep(xs[n]) then [xs[n]] else [])
  }

  /** The keys of the important files, in order. */
  function ImportantOnly(keys: seq<string>, matcher: Option<string -> bool>): seq<string> {
    Filter(keys, k => IsImportantFile(k, matcher))
  }

  /** `(filename, info['important_changes'])` for each key, in order. */
  function Items(keys: seq<string>, entries: map<string, FileChangeSummary>): (r: KeyChanges)
    requires forall k :: k in keys ==> k in entries
    ensures |r| == |keys|
    ensures forall i :: 0 <= i < |keys| ==> r[i] == (keys[i], entries[keys[i]].importantChanges)
  {
    seq(|keys|, i requires 0 <= i < |keys| => (keys[i], entries[keys[i]].importantChanges))
  }

  /** The `ChangeSummary` of lines 95-113. */
  function BuildSummary(files: Files, matcher: Option<string -> bool>): ChangeSummary
    requires files.Valid()
  {
    var important := ImportantOnly(files.keys, matcher);
    ChangeSummary(
      |files.entries|,
      Total(files.keys, files.entries, AddedCount),
      Total(files.keys, files.entries, DeletedCount),
      set k | k in files.entries :: files.entries[k].fileType,
      important,
      NonEmptyOnly(Items(important, files.entries)))
  }

  /** `len(changes)` is the number of keys. */
  lemma FileCount(files: Files, matcher: Option<string -> bool>)
    requires files.Valid()
    ensures BuildSummary(files, matcher).totalFiles == |files.keys|
  {
  }

  /** A sum is zero exactly when every file counts zero, and no file counts
      more than the sum. */
  lemma {:induction false} TotalBounds(keys: seq<string>, entries: map<string, FileChangeSummary>,
                                       count: FileChangeSummary -> nat)
    requires forall k :: k in keys ==> k in entries
    ensures forall k :: k in keys ==> count(entries[k]) <= Total(keys, entries, count)
    ensures Total(keys, entries, count) == 0 <==> forall k :: k in keys ==> count(entries[k]) == 0
    decreases |keys|
  {
    if |keys| > 0 {
      var n := |keys| - 1;
      assert keys == keys[..n] + [keys[n]];
      TotalBounds(keys[..n], entries, count);
    }
  }

  lemma {:induction false} TotalAppend(a: seq<string>, b: seq<string>,
                                       entries: map<string, FileChangeSummary>, count: FileChangeSummary -> nat)
    requires forall k :: k in a ==> k in entries
    requires forall k :: k in b ==> k in entries
    ensures forall k :: k in a + b ==> k in entries
    ensures Total(a + b, entries, count) == Total(a, entries, count) + Total(b, entries, count)
    decreases |b|
  {
    if |b| == 0 {
      assert a + b == a;
    } else {
      var n := |b| - 1;
      assert (a + b)[..|a + b| - 1] == a + b[..n];
      assert forall k :: k in b[..n] ==> k in b;
      TotalAppend(a, b[..n], entries, count);
    }
  }

  /** Each file's count enters a sum exactly once: the sum is that count
      plus the sums over the files before and after it. */
  lemma TotalAt(keys: seq<string>, entries: map<string, FileChangeSummary>,
                count: FileChangeSummary -> nat, i: nat)
    requires forall k :: k in keys ==> k in entries
    requires i < |keys|
    ensures Total(keys, entries, count) ==
      Total(keys[..i], entries, count) + count(entries[keys[i]]) + Total(keys[i + 1..], entries, count)
  {
    var front, rest := keys[..i], keys[i + 1..];
    assert forall k :: k in front ==> k in keys;
    assert forall k :: k in rest ==> k in keys;
    assert [keys[i]][..0] == [];
    assert Total([keys[i]], entries, count) == count(entries[keys[i]]);
    TotalAppend(front, [keys[i]], entries, count);
    TotalAppend(front + [keys[i]], rest, entries, count);
    assert keys == front + [keys[i]] + rest;
  }

  /** The sums cover every file: each file's counts are at most the
      totals, and a total is zero exactly when every file's count is. */
  lemma SummaryTotals(files: Files, matcher: Option<string -> bool>)
    requires files.Valid()
    ensures var s := BuildSummary(files, matcher);
      && (forall k :: k in files.keys ==> files.entries[k].additions <= s.totalAdditions)
      && (forall k :: k in files.keys ==> files.entries[k].deletions <= s.totalDeletions)
      && (s.totalAdditions == 0 <==> forall k :: k in files.keys ==> files.entries[k].additions == 0)
      && (s.totalDeletions == 0 <==> forall k :: k in files.keys ==> files.entries[k].deletions == 0)
  {
    TotalBounds(files.keys, files.entries, AddedCount);
    TotalBounds(files.keys, files.entries, DeletedCount);
  }

  /** `sub` lists elements of `xs` in the order they occur there. */
  ghost predicate OrderKept(sub: seq<string>, xs: seq<string>) {
    forall i, j :: 0 <= i < j < |sub| ==>
      exists p, q :: 0 <= p < q < |xs| && xs[p] == sub[i] && xs[q] == sub[j]
  }

  lemma OrderKeptAt(sub: seq<string>, xs: seq<string>, i: nat, j: nat) returns (p: nat, q: nat)
    requires OrderKept(sub, xs) && i < j < |sub|
    ensures p < q < |xs| && xs[p] == sub[i] && xs[q] == sub[j]
  {
    var x, y := sub[i], sub[j];
    assert exists p, q :: 0 <= p < q < |xs| && xs[p] == x && xs[q] == y;
    p, q :| 0 <= p < q < |xs| && xs[p] == x && xs[q] == y;
  }

  lemma {:induction false} FilterDistinct(xs: seq<string>, keep: string -> bool)
    requires Distinct(xs)
    ensures Distinct(Filter(xs, keep))
    decreases |xs|
  {
    if |xs| > 0 {
      var n := |xs| - 1;
      var front := xs[..n];
      assert Distinct(front);
      FilterDistinct(front, keep);
      assert xs[n] !in Filter(front, keep);
    }
  }

  lemma {:induction false} FilterOrder(xs: seq<string>, keep: string -> bool)
    ensures OrderKept(Filter(xs, keep), xs)
    decreases |xs|
  {
    if |xs| > 0 {
      var n := |xs| - 1;
      var front := xs[..n];
      FilterOrder(front, keep);
      var sub := Filter(front, keep);
      var sub' := Filter(xs, keep);
      assert sub' == sub + (if keep(xs[n]) then [xs[n]] else []);
      forall i, j | 0 <= i < j < |sub'|
        ensures exists p, q :: 0 <= p < q < |xs| && xs[p] == sub'[i] && xs[q] == sub'[j]
      {
        if j < |sub| {
          var p, q := OrderKeptAt(sub, front, i, j);
          assert xs[p] == sub'[i] && xs[q] == sub'[j];
        } else {
          assert sub[i] in front;
          var p :| 0 <= p < n && front[p] == sub[i];
          assert xs[p] == sub'[i] && xs[n] == sub'[j];
        }
      }
      assert OrderKept(sub', xs);
    }
  }

  /** The important files are exactly the keys the filter accepts, each
      once, in insertion order; the key changes are exactly the important
      files with a non-empty list, paired with that list. */
  lemma SummaryFiles(files: Files, matcher: Option<string -> bool>)
    requires files.Valid()
    ensures var s := BuildSummary(files, matcher);
      && (forall k :: k in s.importantFiles <==> k in files.keys && IsImportantFile(k, matcher))
      && Distinct(s.importantFiles)
      && OrderKept(s.importantFiles, files.keys)
      && forall p :: p in s.keyChanges <==>
           p.0 in s.importantFiles && p.1 == files.entries[p.0].importantChanges && |p.1| > 0
  {
    files.KeysDistinct();
    FilterDistinct(files.keys, k => IsImportantFile(k, matcher));
    FilterOrder(files.keys, k => IsImportantFile(k, matcher));
    var s := BuildSummary(files, matcher);
    var items := Items(s.importantFiles, files.entries);
    NonEmptyOnlyMembers(items);
    forall p ensures p in items <==> p.0 in s.importantFiles && p.1 == files.entries[p.0].importantChanges {
      if p.0 in s.importantFiles && p.1 == files.entries[p.0].importantChanges {
        var i :| 0 <= i < |s.importantFiles| && s.importantFiles[i] == p.0;
        assert items[i] == p;
      }
    }
  }

  /** Filtering out the files without changes before rendering makes no
      difference to the rendered text. */
  lemma KeyChangesRendering(files: Files, matcher: Option<string -> bool>)
    requires files.Valid()
    ensures var s := BuildSummary(files, matcher);
      FormattedKeyChanges(s.keyChanges) == FormattedKeyChanges(Items(s.importantFiles, files.entries))
  {
    var s := BuildSummary(files, matcher);
    DropEmptyLists(Items(s.importantFiles, files.entries));
  }

  /** The file types of a summarised diff are exactly the types of its
      paths. */
  lemma SummaryTypes(diff: string, matcher: Option<string -> bool>)
    ensures var files := Summarize(diff);
      files.Valid() &&
      forall t :: t in BuildSummary(files, matcher).fileTypes <==>
        exists k :: k in files.keys && t == FileType(k)
  {
    SummarizeTypes(diff);
  }

  // ---------------------------------------------------------------------
  // The interpolated fields
  // ---------------------------------------------------------------------

  /** `value or 'N/A'`: a missing or empty value is shown as "N/A". */
  function OrNotAvailable(v: Option<string>): (r: string)
    ensures r != ""
    ensures v.Some? && v.value != "" ==> r == v.value
    ensures v.None? || v.value == "" ==> r == NotAvailable
  {
    if v.Some? && v.value != "" then v.value else NotAvailable
  }

  /** `f"{value}"` for an optional string: `None` is written as "None" and
      any string, the empty one included, as itself. */
  function Interpolated(v: Option<string>): (r: string)
    ensures v.None? ==> r == NoneText
    ensures v.Some? ==> r == v.value
  {
    match v
    case None => NoneText
    case Some(t) => t
  }

  /** The "N/A" form and the raw form of a value agree exactly when a
      non-empty value is given: a missing value reads "N/A" in one and
      "None" in the other, an empty one "N/A" and "". */
  lemma TicketForms(v: Option<string>)
    ensures OrNotAvailable(v) == Interpolated(v) <==> v.Some? && v.value != ""
  {
    if v.None? {
      assert NotAvailable[1] != NoneText[1];
    }
  }

  /** Python's iteration over a set: an order in which each element comes
      exactly once. */
  method EnumerateTypes(types: set<string>) returns (order: seq<string>)
    ensures Distinct(order)
    ensures forall t :: t in order <==> t in types
    ensures |order| == |types|
  {
    order := [];
    var rest := types;
    while rest != {}
      invariant forall t :: t in types <==> t in rest || t in order
      invariant forall t :: t in rest ==> t !in order
      invariant Distinct(order)
      invariant |order| + |rest| == |types|
      decreases |rest|
    {
      var t :| t in rest;
      order := order + [t];
      rest := rest - {t};
    }
  }

  /** `', '.join(types) if types else 'unknown'`, for a given order of the
      set. */
  function FileTypesText(order: seq<string>): string {
    if |order| == 0 then UnknownType else Join(order, TypeSeparator)
  }

  lemma {:induction false} JoinContains(parts: seq<string>, sep: string, i: nat)
    requires i < |parts|
    ensures Contains(Join(parts, sep), parts[i])
    decreases |parts|
  {
    var s := Join(parts, sep);
    if i == 0 {
      assert StartsWith(s[0..], parts[0]) by {
        assert s[0..][..|parts[0]|] == parts[0];
      }
    } else {
      JoinContains(parts[1..], sep, i - 1);
      var rest := Join(parts[1..], sep);
      var p :| 0 <= p <= |rest| && StartsWith(rest[p..], parts[1..][i - 1]);
      var off := |parts[0]| + |sep|;
      assert s == parts[0] + sep + rest;
      assert s[off + p..] == rest[p..];
    }
  }

  /** Every file type is named in the text, and a diff without files shows
      "unknown". */
  lemma FileTypesTextNames(order: seq<string>)
    ensures |order| == 0 ==> FileTypesText(order) == UnknownType
    ensures forall i :: 0 <= i < |order| ==> Contains(FileTypesText(order), order[i])
  {
    forall i | 0 <= i < |order| ensures Contains(FileTypesText(order), order[i]) {
      JoinContains(order, TypeSeparator, i);
    }
  }

  /** The values substituted into the prompt template: the branch and the
      ticket in their "N/A" form (`Branch:` and `Ticket:` lines), and the
      ticket once more as written raw into the footer instruction
      (`Refs: #...`). */
  datatype PromptFields = PromptFields(
    branch: string,
    ticket: string,
    ticketRef: string,
    filesChanged: nat,
    linesAdded: nat,
    linesDeleted: nat,
    fileTypes: string,
    keyChanges: string)

  function Fields(s: ChangeSummary, branch: Option<string>, ticket: Option<string>,
                  typeOrder: seq<string>): PromptFields {
    PromptFields(OrNotAvailable(branch), OrNotAvailable(ticket), Interpolated(ticket), s.totalFiles,
                 s.totalAdditions, s.totalDeletions, FileTypesText(typeOrder),
                 FormattedKeyChanges(s.keyChanges))
  }

  /** The summary of a diff after cleaning it. */
  function DiffSummary(diff: string, matcher: Option<string -> bool>): ChangeSummary {
    BuildSummary(Summarize(CleanDiff(diff)), matcher)
  }

  /** `generate_commit_message` up to the rendering of the prompt: clean,
      summarise, aggregate and format. The order in which the set of file
      types is listed is returned alongside. */
  method PromptContext(diff: string, branch: Option<string>, ticket: Option<string>,
                       matcher: Option<string -> bool>)
    returns (fields: PromptFields, typeOrder: seq<string>)
    ensures var s := DiffSummary(diff, matcher);
      && Distinct(typeOrder)
      && (forall t :: t in typeOrder <==> t in s.fileTypes)
      && |typeOrder| == |s.fileTypes|
      && fields == Fields(s, branch, ticket, typeOrder)
  {
    var cleaned := CleanDiff(diff);
    var changes := SummarizeDiff(cleaned);
    var summary := BuildSummary(changes, matcher);
    var formatted := FormatKeyChanges(summary.keyChanges);
    typeOrder := EnumerateTypes(summary.fileTypes);
    var typesText := if |summary.fileTypes| > 0 then Join(typeOrder, TypeSeparator) else UnknownType;
    fields := PromptFields(OrNotAvailable(branch), OrNotAvailable(ticket), Interpolated(ticket), summary.totalFiles,
                           summary.totalAdditions, summary.totalDeletions, typesText, formatted);
  }

  /** A diff in which no file is named (for instance one made only of
      binary sections) gives zero counts, "unknown" types and no key
      changes. */
  lemma NoFilesFields(diff: string, branch: Option<string>, ticket: Option<string>,
                      matcher: Option<string -> bool>, typeOrder: seq<string>)
    requires Summarize(CleanDiff(diff)).keys == []
    requires |typeOrder| == |DiffSummary(diff, matcher).fileTypes|
    ensures var f := Fields(DiffSummary(diff, matcher), branch, ticket, typeOrder);
      && f.filesChanged == 0 && f.linesAdded == 0 && f.linesDeleted == 0
      && f.fileTypes == UnknownType && f.keyChanges == ""
  {
    var files := Summarize(CleanDiff(diff));
    assert files.entries == map[] by {
      forall k ensures k !in files.entries { }
    }
    FileCount(files, matcher);
    var s := DiffSummary(diff, matcher);
    assert s.fileTypes == {};
  }

  /** A diff made only of one binary-file section names no file: zero
      counts, "unknown" types and no key changes. */
  lemma BinaryOnlyFields(header: string, marker: string, branch: Option<string>, ticket: Option<string>,
                         matcher: Option<string -> bool>, typeOrder: seq<string>)
    requires StartsWith(header, DiffHeader) && '\n' !in header
    requires StartsWith(marker, BinaryMarker) && '\n' !in marker
    requires |typeOrder| == |DiffSummary(header + "\n" + marker + "\n", matcher).fileTypes|
    ensures var f := Fields(DiffSummary(header + "\n" + marker + "\n", matcher), branch, ticket, typeOrder);
      && f.filesChanged == 0 && f.linesAdded == 0 && f.linesDeleted == 0
      && f.fileTypes == UnknownType && f.keyChanges == ""
  {
    var diff := header + "\n" + marker + "\n";
    CleanBinaryOnly(header, marker);
    SummarizeNoHeaders("");
    NoFilesFields(diff, branch, ticket, matcher, typeOrder);
  }

}
