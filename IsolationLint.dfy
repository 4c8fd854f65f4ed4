/** `IsolationLinter` of `scripts/ecosystem/isolation_lint.py`: the object that walks the three
    platform trees and records every reference that leaks out of a tree, and derives the exit
    code and the summary. The trees are given as listings (module `LintIssues`, `Entry`); what
    the linter records for them is specified there. */
module IsolationLint {
  import opened Text
  import opened Platforms
  import opened Locations
  import opened LintIssues

  class IsolationLinter {
    /** The resolved workspace, as its path components. */
    const workspace: seq<string>
    var issues: seq<LintIssue>

    /** Every recorded issue is of severity `"high"`. */
    ghost predicate Valid()
      reads this
    {
      AllHigh(issues)
    }

    constructor(workspace: seq<string>)
      ensures Valid()
      ensures this.workspace == workspace && issues == []
    {
      this.workspace := workspace;
      issues := [];
    }

    /** `add_issue`: appends exactly one `"high"` issue, located relative to the workspace when
        the path lies inside it, in full otherwise, and as given when it is a string. */
    method AddIssue(location: Location, detail: Detail)
      requires Valid()
      modifies this
      ensures Valid()
      ensures issues == old(issues) + [HighIssue(Rel(workspace, location), detail)]
    {
      var issue := HighIssue(Rel(workspace, location), detail);
      AllHighAppend(issues, [issue]);
      issues := issues + [issue];
    }

    /** `scan_text_for_foreign_tokens`. */
    method ScanTextForForeignTokens(file: seq<string>, content: string, platform: Platform)
      requires Valid()
      modifies this
      ensures Valid()
      ensures issues == old(issues) + ForeignIssues(Rel(workspace, PathAt(file)), content, platform, 3)
    {
      for n := 0 to |All|
        invariant Valid()
        invariant issues == old(issues) + ForeignIssues(Rel(workspace, PathAt(file)), content, platform, n)
      {
        var other := All[n];
        ForeignIssuesNext(old(issues), Rel(workspace, PathAt(file)), content, platform, n);
        if other != platform && Contains(content, Token(other)) {
          assert Leaks(content, platform, other);
          AddIssue(PathAt(file), ForeignToken(other, platform));
        }
      }
    }

    /** `check_markdown_links`: `escapes` and `present` stand for resolving a target against the
        file's directory and asking whether the result is outside the platform root, or exists. */
    method CheckMarkdownLinks(file: seq<string>, content: string, escapes: string -> bool, present: string -> bool)
      requires Valid()
      modifies this
      ensures Valid()
      ensures issues == old(issues)
        + LinkIssues(Rel(workspace, PathAt(file)), FoundLinks(content), |FoundLinks(content)|, escapes, present)
    {
      var links := Links(content, 0);
      ghost var found := FoundLinks(content);
      ghost var location := Rel(workspace, PathAt(file));
      for n := 0 to |links|
        invariant Valid()
        invariant issues == old(issues) + LinkIssues(location, found, n, escapes, present)
      {
        CheckLink(file, links[n], escapes, present);
        LinkIssuesNext(old(issues), location, found, n, escapes, present);
      }
    }

    /** The body of the loop of `check_markdown_links`, for one captured target. */
    method CheckLink(file: seq<string>, captured: string, escapes: string -> bool, present: string -> bool)
      requires Valid()
      modifies this
      ensures Valid()
      ensures issues == old(issues) + LinkIssue(Rel(workspace, PathAt(file)), Classify(captured), escapes, present)
    {
      var raw := Strip(StripChars(Strip(captured), {'<', '>'}));
      if raw == [] {
        return;
      }
      if SkippedScheme(raw) {
        return;
      }
      var target := Strip(Before(raw, '#'));
      if target == [] {
        return;
      }
      if escapes(target) {
        AddIssue(PathAt(file), EscapingLink(raw));
        return;
      }
      if !present(target) {
        AddIssue(PathAt(file), BrokenLink(raw));
      }
    }

    /** One entry of the walk of `lint_platform`. */
    method LintEntry(platform: Platform, e: Entry)
      requires Valid()
      modifies this
      ensures Valid()
      ensures issues == old(issues) + EntryIssues(workspace, platform, e)
    {
      if !e.isFile {
        return;
      }
      var suffix := EntrySuffix(e);
      if suffix !in TextExtensions {
        return;
      }
      match e.read
      case ReadFailed(reason) =>
        AddIssue(PathAt(e.path), ReadError(reason));
      case Content(text) =>
        LintText(e.path, text, platform, suffix in MarkdownExtensions, e.escapes, e.present);
    }

    /** The checks `lint_platform` runs on a text file it could read. */
    method LintText(file: seq<string>, text: string, platform: Platform, markdown: bool,
                    escapes: string -> bool, present: string -> bool)
      requires Valid()
      modifies this
      ensures Valid()
      ensures issues == old(issues) + TextIssues(Rel(workspace, PathAt(file)), text, platform, markdown, escapes, present)
    {
      ScanTextForForeignTokens(file, text, platform);
      if markdown {
        CheckMarkdownLinks(file, text, escapes, present);
        AppendAssoc(old(issues), ForeignIssues(Rel(workspace, PathAt(file)), text, platform, 3),
          LinkIssues(Rel(workspace, PathAt(file)), FoundLinks(text), |FoundLinks(text)|, escapes, present));
      }
    }

    /** `lint_platform`; `tree` is `None` when the platform directory does not exist, and
        otherwise lists what `rglob("*")` yields, in its order. */
    method LintPlatform(platform: Platform, tree: Option<seq<Entry>>)
      requires Valid()
      modifies this
      ensures Valid()
      ensures issues == old(issues) + PlatformIssues(workspace, platform, tree)
    {
      if tree.None? {
        AddIssue(PathAt(workspace + [Name(platform)]), MissingTree(platform));
        return;
      }
      var entries := tree.value;
      for n := 0 to |entries|
        invariant Valid()
        invariant issues == old(issues) + EntriesIssues(workspace, platform, entries, n)
      {
        LintEntry(platform, entries[n]);
        AppendAssoc(old(issues), EntriesIssues(workspace, platform, entries, n), EntryIssues(workspace, platform, entries[n]));
      }
    }

    /** `run`: lints the platform asked for, or all three, and returns 1 exactly when some issue
        has been recorded. */
    method Run(platform: Option<Platform>, trees: Platform -> Option<seq<Entry>>) returns (code: int)
      requires Valid()
      modifies this
      ensures Valid()
      ensures issues == old(issues) + RunIssues(workspace, Targets(platform), trees, |Targets(platform)|)
      ensures code == 1 <==> issues != []
      ensures code == 0 <==> issues == []
    {
      var targets := if platform.Some? then [platform.value] else All;
      for n := 0 to |targets|
        invariant Valid()
        invariant issues == old(issues) + RunIssues(workspace, targets, trees, n)
      {
        LintPlatform(targets[n], trees(targets[n]));
        AppendAssoc(old(issues), RunIssues(workspace, targets, trees, n),
          PlatformIssues(workspace, targets[n], trees(targets[n])));
      }
      code := if issues != [] then 1 else 0;
    }

    /** `summary()`. */
    function Summary(): (r: LintIssues.Summary)
      reads this
      ensures r.issues == |issues|
      ensures forall c :: c in r.codes <==> exists i :: 0 <= i < |issues| && Code(issues[i].detail) == c
    {
      Summarize(workspace, issues)
    }
  }

  lemma AppendAssoc(a: seq<LintIssue>, b: seq<LintIssue>, c: seq<LintIssue>)
    ensures a + (b + c) == (a + b) + c
  {
  }
}
