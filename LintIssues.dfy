/** What `IsolationLinter` of `scripts/ecosystem/isolation_lint.py` records, as functions of the
    files it visits: the foreign-token scan, the markdown link scan and its classification of
    link targets, the extension filter, and the summary. The class that accumulates the issues
    is in module `IsolationLint`. */
module LintIssues {
  import opened Text
  import opened Order
  import opened Platforms
  import opened Locations
  import opened Identity

  /** What an issue reports. Its code, message and fix texts follow from it. */
  datatype Detail =
    | ForeignToken(other: Platform, own: Platform)
    | EscapingLink(raw: string)
    | BrokenLink(raw: string)
    | ReadError(reason: string)
    | MissingTree(platform: Platform)

  /** `IsolationIssue`: its severity and location, and what it reports. */
  datatype LintIssue = LintIssue(severity: string, location: string, detail: Detail)

  /** Every issue the linter records is `"high"`. */
  function HighIssue(location: string, detail: Detail): LintIssue {
    LintIssue("high", location, detail)
  }

  function Code(d: Detail): string {
    match d
    case ForeignToken(_, _) => "cross_domain_reference"
    case EscapingLink(_) => "link_leaves_platform"
    case BrokenLink(_) => "broken_internal_link"
    case ReadError(_) => "file_read_error"
    case MissingTree(_) => "missing_platform_directory"
  }

  function Message(d: Detail): string {
    match d
    case ForeignToken(other, _) => "Contains foreign platform token '" + Token(other) + "'."
    case EscapingLink(raw) => "Relative link escapes platform root: '" + raw + "'."
    case BrokenLink(raw) => "Broken internal link: '" + raw + "'."
    case ReadError(reason) => "Cannot read file: " + reason
    case MissingTree(p) => "Platform directory '" + Name(p) + "' is missing."
  }

  function Fix(d: Detail): string {
    match d
    case ForeignToken(_, own) => "Rewrite references to use local '" + Token(own) + "' paths only."
    case EscapingLink(_) => "Use links that resolve within the current platform directory."
    case BrokenLink(_) => "Fix the target path or remove the outdated link."
    case ReadError(_) => "Ensure the file is readable and not corrupted."
    case MissingTree(_) => "Restore the missing platform directory."
  }

  /** The issue as `asdict` writes it to the report: severity, code, location, message, fix. */
  function Fields(i: LintIssue): seq<string> {
    [i.severity, Code(i.detail), i.location, Message(i.detail), Fix(i.detail)]
  }

  /** Issues of different kinds have different codes. */
  lemma CodeDeterminesKind(a: Detail, b: Detail)
    requires Code(a) == Code(b)
    ensures a.ForeignToken? == b.ForeignToken? && a.EscapingLink? == b.EscapingLink?
    ensures a.BrokenLink? == b.BrokenLink? && a.ReadError? == b.ReadError? && a.MissingTree? == b.MissingTree?
  {
    assert Code(a)[0] == Code(b)[0];
  }

  predicate AllHigh(issues: seq<LintIssue>) {
    forall i :: 0 <= i < |issues| ==> issues[i].severity == "high"
  }

  lemma AllHighAppend(a: seq<LintIssue>, b: seq<LintIssue>)
    requires AllHigh(a) && AllHigh(b)
    ensures AllHigh(a + b)
  {
    forall i | 0 <= i < |a + b|
      ensures (a + b)[i].severity == "high"
    {
      if i >= |a| {
        assert (a + b)[i] == b[i - |a|];
      }
    }
  }

  // ---------------------------------------------------------------------------------------------
  // Foreign platform tokens

  /** The issue for one foreign token found in a file of `platform`. */
  function ForeignIssue(location: string, other: Platform, platform: Platform): LintIssue {
    HighIssue(location, ForeignToken(other, platform))
  }

  /** Whether the scan reports platform `other` in a file of `platform`: a plain substring test,
      unlike the word-boundary test of the auditor. */
  predicate Leaks(content: string, platform: Platform, other: Platform) {
    other != platform && Contains(content, Token(other))
  }

  /** The platforms among the first `n` of `PLATFORMS` that the scan reports, in that order. */
  function ForeignPlatforms(content: string, platform: Platform, n: nat): seq<Platform>
    requires n <= |All|
  {
    if n == 0 then []
    else ForeignPlatforms(content, platform, n - 1) + (if Leaks(content, platform, All[n - 1]) then [All[n - 1]] else [])
  }

  /** `scan_text_for_foreign_tokens` after its loop has visited the first `n` of `PLATFORMS`. */
  function ForeignIssues(location: string, content: string, platform: Platform, n: nat): seq<LintIssue>
    requires n <= |All|
  {
    if n == 0 then []
    else
      var other := All[n - 1];
      ForeignIssues(location, content, platform, n - 1)
      + (if Leaks(content, platform, other) then [ForeignIssue(location, other, platform)] else [])
  }

  /** The scan records one issue per reported platform, in the same order. */
  lemma {:induction false} ForeignIssuesMatch(location: string, content: string, platform: Platform, n: nat)
    requires n <= |All|
    ensures |ForeignIssues(location, content, platform, n)| == |ForeignPlatforms(content, platform, n)|
    ensures forall i :: 0 <= i < |ForeignIssues(location, content, platform, n)| ==>
      ForeignIssues(location, content, platform, n)[i] == ForeignIssue(location, ForeignPlatforms(content, platform, n)[i], platform)
  {
    if n > 0 {
      ForeignIssuesMatch(location, content, platform, n - 1);
    }
  }

  lemma ForeignIssuesNext(base: seq<LintIssue>, location: string, content: string, platform: Platform, n: nat)
    requires n < |All|
    ensures base + ForeignIssues(location, content, platform, n + 1)
      == base + ForeignIssues(location, content, platform, n)
         + (if Leaks(content, platform, All[n]) then [ForeignIssue(location, All[n], platform)] else [])
  {
    var step := if Leaks(content, platform, All[n]) then [ForeignIssue(location, All[n], platform)] else [];
    assert ForeignIssues(location, content, platform, n + 1) == ForeignIssues(location, content, platform, n) + step;
    assert base + (ForeignIssues(location, content, platform, n) + step) == base + ForeignIssues(location, content, platform, n) + step;
  }

  /** A platform is reported exactly when it is not the file's own and its `name/` occurs in the
      content. */
  lemma {:induction false} ForeignPlatformsExact(content: string, platform: Platform, n: nat, p: Platform)
    requires n <= |All|
    ensures p in ForeignPlatforms(content, platform, n) <==> Rank(p) < n && Leaks(content, platform, p)
  {
    if n > 0 {
      var q := All[n - 1];
      var prev := ForeignPlatforms(content, platform, n - 1);
      var step := if Leaks(content, platform, q) then [q] else [];
      assert ForeignPlatforms(content, platform, n) == prev + step;
      ForeignPlatformsExact(content, platform, n - 1, p);
      assert Rank(q) == n - 1;
      assert Rank(p) == n - 1 ==> p == q;
    }
  }

  /** The reported platforms come in `PLATFORMS` order, so none is reported twice. */
  lemma {:induction false} ForeignPlatformsOrdered(content: string, platform: Platform, n: nat)
    requires n <= |All|
    ensures forall i :: 0 <= i < |ForeignPlatforms(content, platform, n)| ==> Rank(ForeignPlatforms(content, platform, n)[i]) < n
    ensures forall i, j :: 0 <= i < j < |ForeignPlatforms(content, platform, n)| ==>
      Rank(ForeignPlatforms(content, platform, n)[i]) < Rank(ForeignPlatforms(content, platform, n)[j])
  {
    if n > 0 {
      var q := All[n - 1];
      var prev := ForeignPlatforms(content, platform, n - 1);
      var step := if Leaks(content, platform, q) then [q] else [];
      assert ForeignPlatforms(content, platform, n) == prev + step;
      ForeignPlatformsOrdered(content, platform, n - 1);
      assert Rank(q) == n - 1;
      RanksSnoc(prev, step, n);
    }
  }

  lemma RanksSnoc(prev: seq<Platform>, step: seq<Platform>, n: nat)
    requires forall i :: 0 <= i < |prev| ==> Rank(prev[i]) < n - 1
    requires forall i, j :: 0 <= i < j < |prev| ==> Rank(prev[i]) < Rank(prev[j])
    requires forall i :: 0 <= i < |step| ==> Rank(step[i]) == n - 1
    requires |step| <= 1
    ensures forall i :: 0 <= i < |prev + step| ==> Rank((prev + step)[i]) < n
    ensures forall i, j :: 0 <= i < j < |prev + step| ==> Rank((prev + step)[i]) < Rank((prev + step)[j])
  {
    var w := prev + step;
    forall i | 0 <= i < |w|
      ensures Rank(w[i]) < n && (i < |prev| ==> w[i] == prev[i]) && (i >= |prev| ==> w[i] == step[i - |prev|])
    {
      if i >= |prev| {
        assert w[i] == step[i - |prev|];
      }
    }
  }

  /** Every foreign-token issue is a `cross_domain_reference` issue of severity `"high"`. */
  lemma ForeignIssuesKind(location: string, content: string, platform: Platform, n: nat)
    requires n <= |All|
    ensures AllHigh(ForeignIssues(location, content, platform, n))
    ensures forall i :: 0 <= i < |ForeignIssues(location, content, platform, n)| ==>
      ForeignIssues(location, content, platform, n)[i].detail.ForeignToken?
      && ForeignIssues(location, content, platform, n)[i].detail.own == platform
  {
    ForeignIssuesMatch(location, content, platform, n);
  }

  /** A file gets at most two foreign-token issues, since its own platform never counts. */
  lemma ForeignIssuesAtMostTwo(location: string, content: string, platform: Platform)
    ensures |ForeignIssues(location, content, platform, 3)| <= 2
  {
    ForeignPlatformsStep(content, platform, 1);
    ForeignPlatformsStep(content, platform, 2);
    ForeignPlatformsStep(content, platform, 3);
    ForeignIssuesMatch(location, content, platform, 3);
  }

  lemma ForeignPlatformsStep(content: string, platform: Platform, n: nat)
    requires 0 < n <= |All|
    ensures |ForeignPlatforms(content, platform, n)| <= |ForeignPlatforms(content, platform, n - 1)| + 1
    ensures All[n - 1] == platform ==>
      |ForeignPlatforms(content, platform, n)| == |ForeignPlatforms(content, platform, n - 1)|
  {
  }

  // ---------------------------------------------------------------------------------------------
  // Markdown links

  /** The first index at or after `i` holding `c`, or `|s|`. */
  function NextIndex(s: string, i: nat, c: char): (k: nat)
    requires i <= |s|
    ensures i <= k <= |s| && (k < |s| ==> s[k] == c)
    ensures forall j :: i <= j < k ==> s[j] != c
    decreases |s| - i
  {
    if i == |s| || s[i] == c then i else NextIndex(s, i + 1, c)
  }

  /** A match of `\[[^\]]+\]\(([^)]+)\)` starting at `i`, as the bounds of its group. Neither
      bracketed run may be empty, and each ends at the first closing character after it. */
  function LinkAt(s: string, i: nat): (r: Option<(nat, nat)>)
    requires i < |s|
    ensures r.Some? ==> i + 3 < r.value.0 < r.value.1 < |s|
  {
    if s[i] != '[' then None
    else
      var j := NextIndex(s, i + 1, ']');
      if j == i + 1 || j + 2 >= |s| || s[j + 1] != '(' then None
      else
        var k := NextIndex(s, j + 2, ')');
        if k == j + 2 || k == |s| then None else Some((j + 2, k))
  }

  /** The targets `finditer` yields from index `i` on: matches do not overlap, and the search
      goes on after the closing `)` of each. */
  function Links(s: string, i: nat): (r: seq<string>)
    requires i <= |s|
    ensures forall n :: 0 <= n < |r| ==> r[n] != [] && ')' !in r[n]
    decreases |s| - i
  {
    if i == |s| then []
    else match LinkAt(s, i)
      case None => Links(s, i + 1)
      case Some((a, b)) => [s[a..b]] + Links(s, b + 1)
  }

  /** A link written as `[text](target)` is found where it starts, with its target whole. */
  lemma LinkAtWritten(s: string, i: nat, text: string, target: string)
    requires text != [] && ']' !in text && target != [] && ')' !in target
    requires OccursAt(s, "[" + text + "](" + target + ")", i)
    ensures LinkAt(s, i) == Some((i + |text| + 3, i + |text| + 3 + |target|))
    ensures s[i + |text| + 3..i + |text| + 3 + |target|] == target
  {
    var j := i + 1 + |text|;
    var k := j + 2 + |target|;
    LinkChars(s, i, text, target);
    NextIndexAt(s, i + 1, j, ']');
    NextIndexAt(s, j + 2, k, ')');
  }

  /** Where `[text](target)` occurs, the characters `LinkAt` looks for, position by position. */
  lemma LinkChars(s: string, i: nat, text: string, target: string)
    requires text != [] && ']' !in text && target != [] && ')' !in target
    requires OccursAt(s, "[" + text + "](" + target + ")", i)
    ensures var j := i + 1 + |text|; var k := j + 2 + |target|;
      && k < |s| && s[i] == '[' && s[j] == ']' && s[j + 1] == '(' && s[k] == ')'
      && (forall m :: i + 1 <= m < j ==> s[m] != ']')
      && (forall m :: j + 2 <= m < k ==> s[m] != ')')
      && s[j + 2..k] == target
  {
    var w := "[" + text + "](" + target + ")";
    var j := i + 1 + |text|;
    var k := j + 2 + |target|;
    WrittenShape(text, target);
    OccursChars(s, w, i);
    forall m | i + 1 <= m < j
      ensures s[m] != ']'
    {
      assert s[i + (m - i)] == w[m - i];
    }
    assert s[i + (j - i)] == w[j - i] && s[i + (j + 1 - i)] == w[j + 1 - i];
    forall m | j + 2 <= m < k
      ensures s[m] != ')'
    {
      assert s[i + (m - i)] == w[m - i];
    }
    assert s[i + (k - i)] == w[k - i];
    forall m | 0 <= m < |target|
      ensures s[j + 2..k][m] == target[m]
    {
      assert s[i + (|text| + 3 + m)] == w[|text| + 3 + m];
    }
  }

  lemma OccursChars(s: string, w: string, i: int)
    requires OccursAt(s, w, i)
    ensures forall m :: 0 <= m < |w| ==> s[i + m] == w[m]
  {
    forall m | 0 <= m < |w|
      ensures s[i + m] == w[m]
    {
      assert s[i..i + |w|][m] == w[m];
    }
  }

  /** The characters of `[text](target)`, position by position. */
  lemma WrittenShape(text: string, target: string)
    ensures var w := "[" + text + "](" + target + ")";
      && |w| == |text| + |target| + 4
      && w[0] == '[' && w[|text| + 1] == ']' && w[|text| + 2] == '(' && w[|w| - 1] == ')'
      && (forall m :: 1 <= m <= |text| ==> w[m] == text[m - 1])
      && (forall m :: |text| + 3 <= m < |text| + 3 + |target| ==> w[m] == target[m - |text| - 3])
      && w[|text| + 3..|text| + 3 + |target|] == target
  {
  }

  lemma {:induction false} NextIndexAt(s: string, i: nat, k: nat, c: char)
    requires i <= k < |s| && s[k] == c
    requires forall j :: i <= j < k ==> s[j] != c
    ensures NextIndex(s, i, c) == k
    decreases k - i
  {
    if i < k {
      NextIndexAt(s, i + 1, k, c);
    }
  }

  /** The schemes and the fragment prefix that mark a target as not a local path. */
  predicate SkippedScheme(raw: string) {
    StartsWith(raw, "http://") || StartsWith(raw, "https://") || StartsWith(raw, "mailto:")
    || StartsWith(raw, "tel:") || StartsWith(raw, "#")
  }

  /** The path `check_markdown_links` resolves for a target already unwrapped of spaces and
      angle brackets: none for an empty target, an external scheme or a bare fragment, else the
      part before the first `#`, trimmed, when that is not empty. */
  function LocalTarget(raw: string): (r: Option<string>)
    ensures r.Some? ==> r.value != [] && '#' !in r.value && !IsSpace(r.value[0]) && !IsSpace(r.value[|r.value| - 1])
    ensures r.Some? ==> raw != [] && !SkippedScheme(raw)
  {
    if raw == [] || SkippedScheme(raw) then None
    else
      var target := Strip(Before(raw, '#'));
      StripShape(Before(raw, '#'));
      if target == [] then None else Some(target)
  }

  lemma StripShape(s: string)
    ensures '#' !in s ==> '#' !in Strip(s)
    ensures Strip(s) != [] ==> !IsSpace(Strip(s)[0]) && !IsSpace(Strip(s)[|Strip(s)| - 1])
  {
    StripIsSlice(s);
    StripIdempotent(s);
  }

  lemma StripIsSlice(s: string)
    ensures exists a, b :: 0 <= a <= b <= |s| && Strip(s) == s[a..b]
  {
    LStripIsSuffix(s);
    var l := LStrip(s);
    var a := |s| - |l|;
    assert l == s[a..];
    RStripIsPrefix(l);
    var b := a + |RStrip(l)|;
    assert RStrip(l) == l[..|RStrip(l)|] == s[a..b];
  }

  lemma {:induction false} LStripIsSuffix(s: string)
    ensures |LStrip(s)| <= |s| && LStrip(s) == s[|s| - |LStrip(s)|..]
    decreases |s|
  {
    if s != [] && IsSpace(s[0]) {
      LStripIsSuffix(s[1..]);
    }
  }

  lemma {:induction false} RStripIsPrefix(s: string)
    ensures |RStrip(s)| <= |s| && RStrip(s) == s[..|RStrip(s)|]
    decreases |s|
  {
    if s != [] && IsSpace(s[|s| - 1]) {
      RStripIsPrefix(s[..|s| - 1]);
    }
  }

  /** A fragment never changes which path a target resolves to. */
  lemma LocalTargetFragment(t: string, fragment: string)
    requires '#' !in t
    ensures LocalTarget(t + "#" + fragment) == LocalTarget(t)
  {
    var raw := t + "#" + fragment;
    assert raw[|t|] == '#';
    assert '#' in raw;
    assert raw[..|t|] == t;
    BeforeAt(raw, t);
    SchemeOfFragment(t, fragment, "http://");
    SchemeOfFragment(t, fragment, "https://");
    SchemeOfFragment(t, fragment, "mailto:");
    SchemeOfFragment(t, fragment, "tel:");
    SchemeOfFragment(t, fragment, "#");
    if t == [] {
      assert StartsWith(raw, "#");
    }
  }

  lemma BeforeAt(raw: string, t: string)
    requires |t| < |raw| && raw[..|t|] == t && raw[|t|] == '#' && '#' !in t
    ensures Before(raw, '#') == t
  {
    var r := Before(raw, '#');
    assert r == raw[..|r|];
  }

  /** Appending `#...` to a fragment-free target does not change whether it starts with `pre`,
      for a non-empty `pre` whose only possible `#` is its first character. */
  lemma SchemeOfFragment(t: string, fragment: string, pre: string)
    requires '#' !in t && pre != [] && '#' !in pre[1..]
    ensures t != [] ==> (StartsWith(t + "#" + fragment, pre) <==> StartsWith(t, pre))
  {
    var raw := t + "#" + fragment;
    if t != [] && StartsWith(raw, pre) && |pre| > |t| {
      NotAt(pre, |t|);
    }
    if t != [] && StartsWith(raw, pre) && |pre| <= |t| {
      assert t[..|pre|] == raw[..|pre|];
    }
    if StartsWith(t, pre) {
      assert raw[..|pre|] == t[..|pre|];
    }
  }

  lemma NotAt(x: string, k: int)
    requires 1 <= k < |x| && '#' !in x[1..]
    ensures x[k] != '#'
  {
    assert x[1..][k - 1] == x[k];
  }

  /** A target with no fragment, no scheme and not blank is resolved as it is, trimmed. */
  lemma LocalTargetPlain(raw: string)
    requires '#' !in raw && !AllSpace(raw) && !SkippedScheme(raw)
    ensures LocalTarget(raw) == Some(Strip(raw))
  {
    StripBlank(raw);
  }

  /** A found link: the target unwrapped of spaces and angle brackets, as the messages quote
      it, and the path it resolves to, if any. */
  datatype Link = Link(raw: string, target: Option<string>)

  function Classify(captured: string): Link {
    var raw := Unwrapped(captured);
    Link(raw, LocalTarget(raw))
  }

  /** The links of a file's content, classified, in `finditer` order. */
  function FoundLinks(content: string): (r: seq<Link>)
    ensures |r| == |Links(content, 0)|
    ensures forall i :: 0 <= i < |r| ==> r[i] == Classify(Links(content, 0)[i])
  {
    var ls := Links(content, 0);
    seq(|ls|, i requires 0 <= i < |ls| => Classify(ls[i]))
  }

  /** The issue, if any, for one link target of a file: it leaves the platform tree, or it
      points at nothing. `escapes` and `present` stand for resolving the target against the
      file's directory and asking the file system. */
  function LinkIssue(location: string, link: Link, escapes: string -> bool, present: string -> bool): seq<LintIssue>
  {
    var raw := link.raw;
    match link.target
    case None => []
    case Some(target) =>
      if escapes(target) then
        [HighIssue(location, EscapingLink(raw))]
      else if !present(target) then
        [HighIssue(location, BrokenLink(raw))]
      else []
  }

  /** Every issue is about a link that leaves the tree or is broken. */
  predicate LinkKinds(issues: seq<LintIssue>) {
    forall i :: 0 <= i < |issues| ==> issues[i].detail.EscapingLink? || issues[i].detail.BrokenLink?
  }

  /** A link is reported exactly when it resolves to a local path that leaves the platform tree
      or does not exist; leaving the tree is reported in preference to being broken. */
  lemma LinkIssueCases(location: string, link: Link, escapes: string -> bool, present: string -> bool)
    ensures var t := link.target;
      LinkIssue(location, link, escapes, present) != [] <==> t.Some? && (escapes(t.value) || !present(t.value))
    ensures var t := link.target;
      t.Some? && escapes(t.value) ==> LinkIssue(location, link, escapes, present)[0].detail == EscapingLink(link.raw)
    ensures var t := link.target;
      t.Some? && !escapes(t.value) && !present(t.value) ==>
        LinkIssue(location, link, escapes, present)[0].detail == BrokenLink(link.raw)
  {
  }

  lemma LinkIssueShape(location: string, link: Link, escapes: string -> bool, present: string -> bool)
    ensures var r := LinkIssue(location, link, escapes, present);
      |r| <= 1 && AllHigh(r) && LinkKinds(r)
  {
  }

  /** The issues for the first `n` link targets of a file. */
  function LinkIssues(location: string, links: seq<Link>, n: nat, escapes: string -> bool, present: string -> bool): seq<LintIssue>
    requires n <= |links|
  {
    if n == 0 then []
    else LinkIssues(location, links, n - 1, escapes, present) + LinkIssue(location, links[n - 1], escapes, present)
  }

  lemma LinkIssuesNext(base: seq<LintIssue>, location: string, links: seq<Link>, n: nat, escapes: string -> bool, present: string -> bool)
    requires n < |links|
    ensures base + LinkIssues(location, links, n + 1, escapes, present)
      == base + LinkIssues(location, links, n, escapes, present) + LinkIssue(location, links[n], escapes, present)
  {
    var prev := LinkIssues(location, links, n, escapes, present);
    var last := LinkIssue(location, links[n], escapes, present);
    assert LinkIssues(location, links, n + 1, escapes, present) == prev + last;
    assert base + (prev + last) == base + prev + last;
  }

  /** Each link gives at most one issue, every one of them about a link that leaves the tree or
      is broken. */
  lemma {:induction false} LinkIssuesBound(location: string, links: seq<Link>, n: nat, escapes: string -> bool, present: string -> bool)
    requires n <= |links|
    ensures |LinkIssues(location, links, n, escapes, present)| <= n
    ensures AllHigh(LinkIssues(location, links, n, escapes, present))
    ensures LinkKinds(LinkIssues(location, links, n, escapes, present))
  {
    if n > 0 {
      var prev := LinkIssues(location, links, n - 1, escapes, present);
      var last := LinkIssue(location, links[n - 1], escapes, present);
      assert LinkIssues(location, links, n, escapes, present) == prev + last;
      LinkIssuesBound(location, links, n - 1, escapes, present);
      LinkIssueShape(location, links[n - 1], escapes, present);
      AllHighAppend(prev, last);
      LinkKindsAppend(prev, last);
    }
  }

  lemma LinkKindsAppend(a: seq<LintIssue>, b: seq<LintIssue>)
    requires LinkKinds(a) && LinkKinds(b)
    ensures LinkKinds(a + b)
  {
    forall i | 0 <= i < |a + b|
      ensures (a + b)[i].detail.EscapingLink? || (a + b)[i].detail.BrokenLink?
    {
      if i >= |a| {
        assert (a + b)[i] == b[i - |a|];
      }
    }
  }

  /** A link to the web, to a mail address or phone number, or to an anchor of the same file is
      never reported. */
  lemma ExternalLinkIgnored(location: string, captured: string, escapes: string -> bool, present: string -> bool)
    requires SkippedScheme(Unwrapped(captured))
    ensures LinkIssue(location, Classify(captured), escapes, present) == []
  {
  }

  // ---------------------------------------------------------------------------------------------
  // Files of a platform tree

  /** `TEXT_EXTENSIONS`. */
  const TextExtensions: set<string> := {".md", ".mdc", ".txt", ".json", ".yaml", ".yml", ".py", ".sh", ".js", ".ts", ".toml"}

  /** The suffixes whose files also get their links checked. */
  const MarkdownExtensions: set<string> := {".md", ".mdc"}

  /** What `read_text` gives: the content, or the text of the `OSError`. */
  datatype ReadResult = Content(text: string) | ReadFailed(reason: string)

  /** One entry of `platform_root.rglob("*")`: its path, whether it is a file, what reading it
      gives, and how its link targets resolve (outside the tree; present on disk). */
  datatype Entry = Entry(path: seq<string>, isFile: bool, read: ReadResult, escapes: string -> bool, present: string -> bool)

  /** `file_path.suffix.lower()`. */
  function EntrySuffix(e: Entry): string {
    Lower(Suffix(if e.path == [] then [] else e.path[|e.path| - 1]))
  }

  /** Whether `lint_platform` reads the entry at all. */
  predicate Scanned(e: Entry) {
    e.isFile && EntrySuffix(e) in TextExtensions
  }

  function ReadErrorIssue(location: string, reason: string): LintIssue {
    HighIssue(location, ReadError(reason))
  }

  /** Everything `lint_platform` records for one entry of the tree of `platform`. */
  function EntryIssues(workspace: seq<string>, platform: Platform, e: Entry): seq<LintIssue> {
    var location := Rel(workspace, PathAt(e.path));
    if !Scanned(e) then []
    else match e.read
      case ReadFailed(reason) => [ReadErrorIssue(location, reason)]
      case Content(text) => TextIssues(location, text, platform, EntrySuffix(e) in MarkdownExtensions, e.escapes, e.present)
  }

  /** What a readable text file gives: its foreign tokens, then, for markdown, its links. */
  function TextIssues(location: string, text: string, platform: Platform, markdown: bool,
                      escapes: string -> bool, present: string -> bool): seq<LintIssue>
  {
    ForeignIssues(location, text, platform, 3)
    + (if markdown then LinkIssues(location, FoundLinks(text), |FoundLinks(text)|, escapes, present) else [])
  }

  /** Directories and files with other extensions are never reported; a readable file whose
      suffix is not `.md` or `.mdc` gets only the foreign-token scan. */
  lemma EntryIssuesFilter(workspace: seq<string>, platform: Platform, e: Entry)
    ensures !e.isFile || EntrySuffix(e) !in TextExtensions ==> EntryIssues(workspace, platform, e) == []
    ensures Scanned(e) && e.read.Content? && EntrySuffix(e) !in MarkdownExtensions ==>
      EntryIssues(workspace, platform, e) == ForeignIssues(Rel(workspace, PathAt(e.path)), e.read.text, platform, 3)
  {
    if Scanned(e) && e.read.Content? && EntrySuffix(e) !in MarkdownExtensions {
      assert ForeignIssues(Rel(workspace, PathAt(e.path)), e.read.text, platform, 3) + []
        == ForeignIssues(Rel(workspace, PathAt(e.path)), e.read.text, platform, 3);
    }
  }

  /** The suffix test ignores case: `README.MD` is scanned like `README.md`. */
  lemma UpperCaseSuffix(stem: string)
    requires stem != [] && '.' !in stem
    ensures Lower(Suffix(stem + ".MD")) == ".md"
  {
    SuffixOfSimpleName(stem, "MD");
    assert Lower(".MD") == ".md";
  }

  /** Every issue of an entry is `"high"`. */
  lemma EntryIssuesHigh(workspace: seq<string>, platform: Platform, e: Entry)
    ensures AllHigh(EntryIssues(workspace, platform, e))
  {
    if Scanned(e) && e.read.Content? {
      var location := Rel(workspace, PathAt(e.path));
      var links := FoundLinks(e.read.text);
      ForeignIssuesKind(location, e.read.text, platform, 3);
      LinkIssuesBound(location, links, |links|, e.escapes, e.present);
      AllHighAppend(ForeignIssues(location, e.read.text, platform, 3),
        LinkIssues(location, links, |links|, e.escapes, e.present));
    }
  }

  /** The issues for the first `n` entries of a tree. */
  function EntriesIssues(workspace: seq<string>, platform: Platform, entries: seq<Entry>, n: nat): seq<LintIssue>
    requires n <= |entries|
  {
    if n == 0 then []
    else EntriesIssues(workspace, platform, entries, n - 1) + EntryIssues(workspace, platform, entries[n - 1])
  }

  function MissingDirectoryIssue(workspace: seq<string>, platform: Platform): LintIssue {
    HighIssue(Rel(workspace, PathAt(workspace + [Name(platform)])), MissingTree(platform))
  }

  /** `lint_platform`: one issue when the tree is missing (`None`), else the issues of its
      entries in walk order. */
  function PlatformIssues(workspace: seq<string>, platform: Platform, tree: Option<seq<Entry>>): seq<LintIssue> {
    match tree
    case None => [MissingDirectoryIssue(workspace, platform)]
    case Some(entries) => EntriesIssues(workspace, platform, entries, |entries|)
  }

  /** A missing tree is reported at the platform's name relative to the workspace. */
  lemma MissingDirectoryLocation(workspace: seq<string>, platform: Platform)
    ensures PlatformIssues(workspace, platform, None)
      == [HighIssue(Name(platform), MissingTree(platform))]
  {
    var parts := workspace + [Name(platform)];
    assert parts[..|workspace|] == workspace;
    assert parts[|workspace|..] == [Name(platform)];
    assert Join([Name(platform)], "/") == Name(platform);
  }

  /** The platforms `run` lints: the one asked for, or all three in order. */
  function Targets(platform: Option<Platform>): (r: seq<Platform>)
    ensures platform.Some? ==> r == [platform.value]
    ensures platform.None? ==> r == All
  {
    if platform.Some? then [platform.value] else All
  }

  /** The issues of the first `n` targets of a run. */
  function RunIssues(workspace: seq<string>, targets: seq<Platform>, trees: Platform -> Option<seq<Entry>>, n: nat): seq<LintIssue>
    requires n <= |targets|
  {
    if n == 0 then []
    else RunIssues(workspace, targets, trees, n - 1) + PlatformIssues(workspace, targets[n - 1], trees(targets[n - 1]))
  }

  /** A run over one platform reports only what that platform's tree gives. */
  lemma RunOnePlatform(workspace: seq<string>, platform: Platform, trees: Platform -> Option<seq<Entry>>)
    ensures RunIssues(workspace, Targets(Some(platform)), trees, 1) == PlatformIssues(workspace, platform, trees(platform))
  {
  }

  /** A run with a missing platform tree always finds an issue. */
  lemma {:induction false} MissingTreeReported(workspace: seq<string>, targets: seq<Platform>, trees: Platform -> Option<seq<Entry>>, n: nat, k: nat)
    requires k < n <= |targets| && trees(targets[k]).None?
    ensures MissingDirectoryIssue(workspace, targets[k]) in RunIssues(workspace, targets, trees, n)
  {
    var prev := RunIssues(workspace, targets, trees, n - 1);
    var last := PlatformIssues(workspace, targets[n - 1], trees(targets[n - 1]));
    if k < n - 1 {
      MissingTreeReported(workspace, targets, trees, n - 1, k);
      assert (prev + last)[IndexIn(prev, MissingDirectoryIssue(workspace, targets[k]))] == MissingDirectoryIssue(workspace, targets[k]);
    } else {
      assert last == [MissingDirectoryIssue(workspace, targets[k])];
      assert (prev + last)[|prev|] == last[0];
    }
  }

  function IndexIn(s: seq<LintIssue>, x: LintIssue): (i: nat)
    requires x in s
    ensures i < |s| && s[i] == x
  {
    if s[0] == x then 0 else 1 + IndexIn(s[1..], x)
  }

  // ---------------------------------------------------------------------------------------------
  // Summary

  /** The codes of the issues, in order. */
  function Codes(issues: seq<LintIssue>): (r: seq<string>)
    ensures |r| == |issues| && forall i :: 0 <= i < |issues| ==> r[i] == Code(issues[i].detail)
  {
    if issues == [] then [] else Codes(issues[..|issues| - 1]) + [Code(issues[|issues| - 1].detail)]
  }

  /** `summary()`: the workspace, the number of issues, and the sorted distinct codes. */
  datatype Summary = Summary(workspace: string, issues: nat, codes: seq<string>)

  function Summarize(workspace: seq<string>, issues: seq<LintIssue>): (r: Summary)
    ensures r.issues == |issues|
    ensures forall c :: c in r.codes <==> exists i :: 0 <= i < |issues| && Code(issues[i].detail) == c
    ensures forall i, j :: 0 <= i < j < |r.codes| ==> Less(r.codes[i], r.codes[j])
  {
    var cs := Codes(issues);
    CodesMembers(issues);
    Summary(AbsText(workspace), |issues|, SortedUnique(cs))
  }

  lemma CodesMembers(issues: seq<LintIssue>)
    ensures forall c :: c in Codes(issues) <==> exists i :: 0 <= i < |issues| && Code(issues[i].detail) == c
  {
    var cs := Codes(issues);
    forall c
      ensures c in cs <==> exists i :: 0 <= i < |issues| && Code(issues[i].detail) == c
    {
      if c in cs {
        var i :| 0 <= i < |cs| && cs[i] == c;
        assert Code(issues[i].detail) == c;
      }
    }
  }

  /** `1 if self.issues else 0`. */
  function ExitCode(issues: seq<LintIssue>): (code: int)
    ensures code == 1 <==> issues != []
    ensures code == 0 <==> issues == []
  {
    if issues != [] then 1 else 0
  }
}
