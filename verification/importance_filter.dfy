/**
 * `is_important_file`: a path is left out of the summary's important files
 * when the ignore matcher built from the repository's ignore rules accepts
 * it, or when one of a fixed list of regular expressions is found in it.
 *
 * The matcher is a parameter (`None` when there are no ignore rules). The
 * fixed expressions are literal texts, either anchored at the end with `$`
 * or searched anywhere, so each becomes a suffix or a substring test. In
 * Python's `re`, `$` also matches just before a final '\n', so a suffix
 * pattern also accepts the text followed by one newline.
 */
module ImportanceFilter {
  import opened PyStrings
  import opened Options

  /** One fixed ignore pattern. */
  datatype Pattern =
    | Suffix(text: string)   // `text$`
    | Infix(text: string)    // `text`, anywhere

  const IgnorePatterns: seq<Pattern> := [
    Suffix(".lock"), Suffix(".log"), Suffix(".map"), Infix(".min."),
    Suffix("package-lock.json"), Suffix("yarn.lock"),
    Infix(".git/"), Infix("node_modules/"), Infix("vendor/")
  ]

  /** `re.search(t + '$', name)` for a literal `t`: `$` matches at the end
      of the text and also just before a final newline. */
  predicate EndsAnchored(name: string, t: string) {
    EndsWith(name, t) || EndsWith(name, t + "\n")
  }

  /** `re.search(pattern, name)` finds a match. */
  predicate Found(p: Pattern, name: string) {
    match p
    case Suffix(t) => EndsAnchored(name, t)
    case Infix(t) => Contains(name, t)
  }

  /** `any(re.search(p, name) for p in patterns)`, left to right. */
  function AnyFound(patterns: seq<Pattern>, name: string): bool
    decreases |patterns|
  {
    |patterns| > 0 && (Found(patterns[0], name) || AnyFound(patterns[1..], name))
  }

  /** `is_important_file(filename, gitignore_spec)`. */
  function IsImportantFile(filename: string, matcher: Option<string -> bool>): bool {
    if matcher.Some? && matcher.value(filename) then false
    else if AnyFound(IgnorePatterns, filename) then false
    else true
  }

  /** `AnyFound` holds exactly when some pattern of the list is found. */
  lemma {:induction false} AnyFoundExists(patterns: seq<Pattern>, name: string)
    ensures AnyFound(patterns, name) <==> exists i :: 0 <= i < |patterns| && Found(patterns[i], name)
    decreases |patterns|
  {
    if |patterns| > 0 {
      AnyFoundExists(patterns[1..], name);
      if exists i :: 0 <= i < |patterns| && Found(patterns[i], name) {
        var i :| 0 <= i < |patterns| && Found(patterns[i], name);
        if i > 0 {
          assert patterns[1..][i - 1] == patterns[i];
        }
      }
      if exists i :: 0 <= i < |patterns[1..]| && Found(patterns[1..][i], name) {
        var i :| 0 <= i < |patterns[1..]| && Found(patterns[1..][i], name);
        assert patterns[i + 1] == patterns[1..][i];
      }
    }
  }

  /** The end-anchored part of the ignore list, written out. */
  predicate IgnoredEnding(name: string) {
    || EndsAnchored(name, ".lock") || EndsAnchored(name, ".log") || EndsAnchored(name, ".map")
    || EndsAnchored(name, "package-lock.json") || EndsAnchored(name, "yarn.lock")
  }

  /** The unanchored part of the ignore list, written out. */
  predicate IgnoredPart(name: string) {
    Contains(name, ".min.") || Contains(name, ".git/") || Contains(name, "node_modules/") || Contains(name, "vendor/")
  }

  /** The ignore list written out as one condition on the name. */
  predicate IgnoredName(name: string) {
    IgnoredEnding(name) || IgnoredPart(name)
  }

  /** Each pattern of the list is one of the disjuncts of `IgnoredName`. */
  lemma FoundIsIgnored(i: int, name: string)
    requires 0 <= i < |IgnorePatterns| && Found(IgnorePatterns[i], name)
    ensures IgnoredName(name)
  {
  }

  /** When no pattern of the list is found, no disjunct of `IgnoredName`
      holds. */
  lemma NoneFoundNotIgnored(name: string)
    requires forall i :: 0 <= i < |IgnorePatterns| ==> !Found(IgnorePatterns[i], name)
    ensures !IgnoredName(name)
  {
    assert !Found(IgnorePatterns[0], name) && !Found(IgnorePatterns[1], name);
    assert !Found(IgnorePatterns[2], name) && !Found(IgnorePatterns[3], name);
    assert !Found(IgnorePatterns[4], name) && !Found(IgnorePatterns[5], name);
    assert !Found(IgnorePatterns[6], name) && !Found(IgnorePatterns[7], name);
    assert !Found(IgnorePatterns[8], name);
  }

  lemma IgnoreListIsIgnoredName(name: string)
    ensures AnyFound(IgnorePatterns, name) <==> IgnoredName(name)
  {
    AnyFoundExists(IgnorePatterns, name);
    if AnyFound(IgnorePatterns, name) {
      var i :| 0 <= i < |IgnorePatterns| && Found(IgnorePatterns[i], name);
      FoundIsIgnored(i, name);
    } else {
      NoneFoundNotIgnored(name);
    }
  }

  /** A file is important exactly when the matcher (if any) does not accept
      it and none of the fixed patterns is found in it; the function is
      total, so no name makes it fail. */
  lemma ImportantIff(filename: string, matcher: Option<string -> bool>)
    ensures IsImportantFile(filename, matcher) <==>
      !(matcher.Some? && matcher.value(filename)) && !IgnoredName(filename)
  {
    IgnoreListIsIgnoredName(filename);
  }

  /** A file in a dependency directory is never important. */
  lemma VendoredNotImportant(dir: string, rest: string, matcher: Option<string -> bool>)
    requires dir == "node_modules/" || dir == "vendor/" || dir == ".git/"
    ensures !IsImportantFile(dir + rest, matcher)
  {
    var name := dir + rest;
    assert StartsWith(name[0..], dir) by {
      assert name[0..][..|dir|] == dir;
    }
    assert Contains(name, dir);
    IgnoreListIsIgnoredName(name);
  }

  /** A lock file is never important, whatever directory it is in. */
  lemma LockFileNotImportant(dir: string, matcher: Option<string -> bool>)
    ensures !IsImportantFile(dir + "yarn.lock", matcher)
  {
    var name := dir + "yarn.lock";
    assert name[|name| - |".lock"|..] == ".lock";
    assert Found(IgnorePatterns[0], name);
    AnyFoundExists(IgnorePatterns, name);
  }

  /** A text cannot contain a needle that has a character the text lacks. */
  lemma MissingChar(s: string, needle: string, c: char)
    requires c in needle && c !in s
    ensures !Contains(s, needle)
  {
  }

  /** A text does not end with a suffix whose last character differs from
      its own last character. */
  lemma LastCharDiffers(s: string, suffix: string)
    requires |s| > 0 && |suffix| > 0 && s[|s| - 1] != suffix[|suffix| - 1]
    ensures !EndsWith(s, suffix)
  {
  }

  lemma SourceFileEnding()
    ensures !IgnoredEnding("app.py")
  {
    LastCharDiffers("app.py", ".lock");
    LastCharDiffers("app.py", ".lock" + "\n");
    LastCharDiffers("app.py", ".log");
    LastCharDiffers("app.py", ".log" + "\n");
    LastCharDiffers("app.py", ".map");
    LastCharDiffers("app.py", ".map" + "\n");
    LastCharDiffers("app.py", "package-lock.json");
    LastCharDiffers("app.py", "package-lock.json" + "\n");
    LastCharDiffers("app.py", "yarn.lock");
    LastCharDiffers("app.py", "yarn.lock" + "\n");
  }

  lemma SourceFilePart()
    ensures !IgnoredPart("app.py")
  {
    MissingChar("app.py", ".min.", 'm');
    MissingChar("app.py", ".git/", '/');
    MissingChar("app.py", "node_modules/", '/');
    MissingChar("app.py", "vendor/", '/');
  }

  /** An ordinary source file with no matcher is important. */
  lemma SourceFileImportant()
    ensures IsImportantFile("app.py", None)
  {
    SourceFileEnding();
    SourceFilePart();
    ImportantIff("app.py", None);
  }

}
