/** `scripts/ecosystem/add_mcp_references.py`: adds one block that points at the MCP tools to the
    skill files of the listed skills, after their first heading. Reading and writing the file are
    parameters: the file is given as what reading it gives, and whether writing succeeds as a flag. */
module AddMcpReferences {
  import opened Text
  import opened Platforms
  import opened Frontmatter
  import Identity

  // ---------------------------------------------------------------------------------------------
  // The skills and the reference blocks

  const Context7Skills: set<string> := {
    "nextjs-react-expert", "api-patterns", "testing-patterns", "performance-profiling",
    "seo-fundamentals", "vulnerability-scanner", "deployment-procedures",
    "nodejs-best-practices", "python-patterns", "mcp-builder", "web-design-guidelines",
    "mobile-design"
  }

  const SequentialThinkingSkills: set<string> := {
    "architecture", "systematic-debugging", "problem-solving", "game-development",
    "game-design", "security-auditor", "red-team-tactics", "database-design",
    "subagent-driven-development", "parallel-agents"
  }

  const BothSkills: set<string> := {
    "app-builder", "frontend-design", "backend-development", "performance-optimizer",
    "brainstorming", "research", "plan-writing"
  }

  /** The three blocks a skill can receive. */
  datatype Reference = BothRef | Context7Ref | SequentialRef

  /** `mcp_ref.strip()`: the block without the newlines that open and close its constant, cut
      around its first `MCP Tool`. */
  function Block(r: Reference): string {
    BlockHead(r) + "MCP Tool" + BlockTail(r)
  }

  function BlockHead(r: Reference): string {
    match r
    case Context7Ref => "> **\U{1F4A1} "
    case SequentialRef => "> **\U{1F9E0} "
    case BothRef => "> **\U{1F6E0}\U{FE0F} "
  }

  function BlockTail(r: Reference): string {
    match r
    case Context7Ref =>
      " Available**: Use **Context7** to search for the latest documentation, best practices, and updates. This ensures you're using current standards and approaches."
    case SequentialRef =>
      " Available**: Use **Sequential Thinking** for complex problem-solving in this domain. Break down decisions, debug chains, or design processes into structured reasoning steps."
    case BothRef =>
      "s Available**: \n> - **Context7**: Search for latest documentation and best practices\n> - **Sequential Thinking**: Break down complex problems into structured reasoning steps"
  }

  /** `has_mcp_reference`. */
  predicate HasMcpReference(content: string) {
    Contains(content, "MCP Tool") || Contains(content, "Context7") || Contains(content, "Sequential Thinking")
  }

  /** The reference a skill gets: `BOTH_SKILLS` first, then `CONTEXT7_SKILLS`, then
      `SEQUENTIAL_THINKING_SKILLS`; none for any other skill. */
  function ReferenceFor(skill: string): Option<Reference> {
    if skill in BothSkills then Some(BothRef)
    else if skill in Context7Skills then Some(Context7Ref)
    else if skill in SequentialThinkingSkills then Some(SequentialRef)
    else None
  }

  /** No skill is in two of the lists, so each list alone decides the reference, and a skill in
      none of them gets none. */
  lemma ReferenceChoice(skill: string)
    ensures ReferenceFor(skill) == Some(BothRef) <==> skill in BothSkills
    ensures ReferenceFor(skill) == Some(Context7Ref) <==> skill in Context7Skills
    ensures ReferenceFor(skill) == Some(SequentialRef) <==> skill in SequentialThinkingSkills
    ensures ReferenceFor(skill).None? <==> skill !in BothSkills + Context7Skills + SequentialThinkingSkills
  {
    SkillListsDisjoint();
  }

  lemma SkillListsDisjoint()
    ensures BothSkills !! Context7Skills
    ensures BothSkills !! SequentialThinkingSkills
    ensures Context7Skills !! SequentialThinkingSkills
  {
    BothApartFromContext7();
    BothApartFromSequential();
    Context7ApartFromSequential();
  }

  lemma BothApartFromContext7()
    ensures BothSkills !! Context7Skills
  {
  }

  lemma BothApartFromSequential()
    ensures BothSkills !! SequentialThinkingSkills
  {
  }

  lemma Context7ApartFromSequential()
    ensures Context7Skills !! SequentialThinkingSkills
  {
  }

  /** Every block announces the MCP tools, so a file that has one counts as referenced. */
  lemma BlockIsReference(r: Reference)
    ensures HasMcpReference(Block(r))
  {
    OccursBetween(BlockHead(r), "MCP Tool", BlockTail(r));
  }

  lemma OccursBetween(a: string, p: string, b: string)
    ensures Contains(a + p + b, p)
  {
    var s := a + p + b;
    assert s[|a|..|a| + |p|] == p;
    assert OccursAt(s, p, |a|);
  }

  // ---------------------------------------------------------------------------------------------
  // Splitting off the frontmatter: `re.split(r'^---\s*$', content, 2, re.MULTILINE)`

  /** Where `^---\s*$` matches at `p` under `re.MULTILINE`, if it does: `^` holds at the start of
      the text and after a newline; the greedy `\s*` may run over line ends and gives characters
      back until `$` holds, at the end of the text or before a newline. */
  function SeparatorEnd(s: string, p: nat): (r: Option<nat>)
    requires p <= |s|
    ensures r.Some? ==> (p == 0 || s[p - 1] == '\n') && OccursAt(s, "---", p)
    ensures r.Some? ==> Blank(s, p + 3, r.value) && (r.value == |s| || s[r.value] == '\n')
  {
    if (p == 0 || s[p - 1] == '\n') && OccursAt(s, "---", p) then
      var e := SpaceRunEnd(s, p + 3);
      if e == |s| then Some(e)
      else match LastNewline(s, p + 3, e - 1)
        case None => None
        case Some(n) => Some(n)
    else None
  }

  /** The first match at or after `from`, as its start and end. */
  function FindSeparator(s: string, from: nat): (r: Option<(nat, nat)>)
    requires from <= |s|
    ensures r.Some? ==> from <= r.value.0 <= |s| && SeparatorEnd(s, r.value.0) == Some(r.value.1)
    ensures r.Some? ==> forall p :: from <= p < r.value.0 ==> SeparatorEnd(s, p).None?
    ensures r.None? ==> forall p :: from <= p <= |s| ==> SeparatorEnd(s, p).None?
    decreases |s| - from
  {
    var m := SeparatorEnd(s, from);
    if m.Some? then Some((from, m.value))
    else if from == |s| then None
    else FindSeparator(s, from + 1)
  }

  /** The pieces `re.split` returns with at most two splits, as bounds into the text. */
  function SplitParts(s: string): (parts: seq<string>)
    ensures 1 <= |parts| <= 3
  {
    match FindSeparator(s, 0)
    case None => [s]
    case Some((p1, e1)) =>
      match FindSeparator(s, e1)
      case None => [s[..p1], s[e1..]]
      case Some((p2, e2)) => [s[..p1], s[e1..p2], s[e2..]]
  }

  /** The frontmatter and the body as the script takes them: with three pieces, the first is
      dropped, whatever it holds. */
  function SplitFrontmatterAsWritten(content: string): (string, string) {
    var parts := SplitParts(content);
    if |parts| >= 3 then ("---" + parts[1] + "---\n", parts[2]) else ("", content)
  }

  /** The split the script evidently means: a frontmatter only when the text opens with the
      first `---` line, so that nothing before it is dropped. */
  function SplitFrontmatter(content: string): (string, string) {
    var parts := SplitParts(content);
    if |parts| >= 3 && parts[0] == [] then ("---" + parts[1] + "---\n", parts[2]) else ("", content)
  }

  /** The characters of `s` that are not whitespace, in order. */
  function NonSpace(s: string): string {
    if s == [] then [] else (if IsSpace(s[0]) then [] else [s[0]]) + NonSpace(s[1..])
  }

  lemma {:induction false} NonSpaceAppend(a: string, b: string)
    ensures NonSpace(a + b) == NonSpace(a) + NonSpace(b)
  {
    if a != [] {
      assert (a + b)[0] == a[0];
      assert (a + b)[1..] == a[1..] + b;
      NonSpaceAppend(a[1..], b);
    } else {
      assert a + b == b;
    }
  }

  lemma {:induction false} NonSpaceBlank(s: string)
    requires AllSpace(s)
    ensures NonSpace(s) == []
  {
    if s != [] {
      NonSpaceBlank(s[1..]);
    }
  }

  /** A separator line loses only whitespace when it is written back as `---`. */
  lemma NonSpaceSeparator(s: string, p: nat, e: nat)
    requires p <= |s| && SeparatorEnd(s, p) == Some(e)
    ensures NonSpace(s[p..e]) == "---"
  {
    assert s[p..e] == "---" + s[p + 3..e];
    NonSpaceAppend("---", s[p + 3..e]);
    NonSpaceBlank(s[p + 3..e]);
  }

  lemma NonSpace4(a: string, b: string, c: string, d: string)
    ensures NonSpace(a + b + c + d) == NonSpace(a) + NonSpace(b) + NonSpace(c) + NonSpace(d)
  {
    NonSpaceAppend(a + b + c, d);
    NonSpaceAppend(a + b, c);
    NonSpaceAppend(a, b);
  }

  lemma Fifths(s: string, a: nat, b: nat, c: nat, d: nat)
    requires a <= b <= c <= d <= |s|
    ensures s == s[..a] + (s[a..b] + (s[b..c] + (s[c..d] + s[d..])))
  {
    assert s[c..] == s[c..d] + s[d..];
    assert s[b..] == s[b..c] + s[c..];
    assert s[a..] == s[a..b] + s[b..];
    assert s == s[..a] + s[a..];
  }

  lemma Quarters(s: string, i: nat, j: nat, k: nat)
    requires i <= j <= k <= |s|
    ensures s == s[..i] + s[i..j] + s[j..k] + s[k..]
  {
  }

  lemma NonSpaceFences()
    ensures NonSpace("---") == "---" && NonSpace("---\n") == "---"
  {
    assert "---\n" == "---" + "\n";
    NonSpaceAppend("---", "\n");
  }

  /** Writing the frontmatter back as `---`, the metadata, `---` and a newline keeps the
      non-whitespace characters of a text made of two separators around the metadata. */
  lemma RejoinKeepsText(s: string, e1: nat, p2: nat, e2: nat)
    requires e1 <= p2 <= e2 <= |s|
    requires NonSpace(s[..e1]) == "---" && NonSpace(s[p2..e2]) == "---"
    ensures NonSpace("---" + s[e1..p2] + "---\n" + s[e2..]) == NonSpace(s)
  {
    Quarters(s, e1, p2, e2);
    NonSpace4(s[..e1], s[e1..p2], s[p2..e2], s[e2..]);
    NonSpace4("---", s[e1..p2], "---\n", s[e2..]);
    NonSpaceFences();
  }

  /** The corrected split keeps every non-whitespace character of the text, in order: only the
      whitespace after the two `---` is rewritten. */
  lemma SplitKeepsText(content: string)
    ensures NonSpace(SplitFrontmatter(content).0 + SplitFrontmatter(content).1) == NonSpace(content)
  {
    var parts := SplitParts(content);
    if |parts| >= 3 && parts[0] == [] {
      var (p1, e1) := FindSeparator(content, 0).value;
      var (p2, e2) := FindSeparator(content, e1).value;
      assert p1 == 0;
      assert content[..e1] == content[0..e1];
      NonSpaceSeparator(content, 0, e1);
      NonSpaceSeparator(content, p2, e2);
      assert SplitFrontmatter(content) == ("---" + content[e1..p2] + "---\n", content[e2..]);
      RejoinKeepsText(content, e1, p2, e2);
    } else {
      assert SplitFrontmatter(content).0 + SplitFrontmatter(content).1 == content;
    }
  }

  /** The split as written keeps a text with fewer than two rules whole; otherwise it keeps every
      non-whitespace character except those of the piece before the first rule. */
  lemma SplitAsWrittenDrops(content: string)
    ensures var parts := SplitParts(content);
      && (|parts| < 3 ==> SplitFrontmatterAsWritten(content).0 + SplitFrontmatterAsWritten(content).1 == content)
      && (|parts| >= 3 ==>
            NonSpace(content) == NonSpace(parts[0]) + NonSpace(SplitFrontmatterAsWritten(content).0 + SplitFrontmatterAsWritten(content).1))
  {
    var parts := SplitParts(content);
    if |parts| >= 3 {
      var (p1, e1) := FindSeparator(content, 0).value;
      var (p2, e2) := FindSeparator(content, e1).value;
      NonSpaceSeparator(content, p1, e1);
      NonSpaceSeparator(content, p2, e2);
      assert parts[0] == content[..p1];
      assert SplitFrontmatterAsWritten(content).0 + SplitFrontmatterAsWritten(content).1
        == "---" + content[e1..p2] + "---\n" + content[e2..];
      DropLeading(content, p1, e1, p2, e2);
    }
  }

  /** Rewriting two separators as `---` keeps the non-whitespace characters that follow the
      first one. */
  lemma DropLeading(s: string, p1: nat, e1: nat, p2: nat, e2: nat)
    requires p1 <= e1 <= p2 <= e2 <= |s|
    requires NonSpace(s[p1..e1]) == "---" && NonSpace(s[p2..e2]) == "---"
    ensures NonSpace(s) == NonSpace(s[..p1]) + NonSpace("---" + s[e1..p2] + "---\n" + s[e2..])
  {
    Fifths(s, p1, e1, p2, e2);
    DropLeadingParts(s[..p1], s[p1..e1], s[e1..p2], s[p2..e2], s[e2..]);
  }

  lemma DropLeadingParts(pre: string, a: string, b: string, c: string, e: string)
    requires NonSpace(a) == "---" && NonSpace(c) == "---"
    ensures NonSpace(pre + (a + (b + (c + e)))) == NonSpace(pre) + NonSpace("---" + b + "---\n" + e)
  {
    NonSpace5(pre, a, b, c, e);
    NonSpaceFenced(b, e);
    Regroup5(NonSpace(pre), "---", NonSpace(b), "---", NonSpace(e));
  }

  /** `x + (p + (q + (r + t)))` regrouped as `x + (p + q + r + t)`. */
  lemma Regroup5(x: string, p: string, q: string, r: string, t: string)
    ensures x + (p + (q + (r + t))) == x + (p + q + r + t)
  {
  }

  lemma NonSpace5(pre: string, a: string, b: string, c: string, e: string)
    ensures NonSpace(pre + (a + (b + (c + e)))) == NonSpace(pre) + (NonSpace(a) + (NonSpace(b) + (NonSpace(c) + NonSpace(e))))
  {
    NonSpaceAppend(pre, a + (b + (c + e)));
    NonSpaceAppend(a, b + (c + e));
    NonSpaceAppend(b, c + e);
    NonSpaceAppend(c, e);
  }

  lemma NonSpaceFenced(b: string, e: string)
    ensures NonSpace("---" + b + "---\n" + e) == "---" + NonSpace(b) + "---" + NonSpace(e)
  {
    NonSpace4("---", b, "---\n", e);
    NonSpaceFences();
  }

  /** The split as written keeps the text's non-whitespace characters exactly when the file has
      fewer than two rules or only whitespace before the first one. */
  lemma SplitAsWrittenKeepsIff(content: string)
    ensures var parts := SplitParts(content);
      NonSpace(SplitFrontmatterAsWritten(content).0 + SplitFrontmatterAsWritten(content).1) == NonSpace(content)
      <==> |parts| < 3 || NonSpace(parts[0]) == []
  {
    SplitAsWrittenDrops(content);
  }

  // ---------------------------------------------------------------------------------------------
  // Where the block goes

  /** `line.strip().startswith('# ') or line.strip().startswith('## ')`. */
  predicate IsHeading(line: string) {
    HeadingText(Strip(line))
  }

  /** A stripped line that opens a `#` or `##` heading. */
  predicate HeadingText(t: string) {
    StartsWith(t, "# ") || StartsWith(t, "## ")
  }

  /** The first heading at or after `i`, given the stripped lines. */
  function FirstHeading(ts: seq<string>, i: nat): (r: Option<nat>)
    requires i <= |ts|
    ensures r.Some? ==> i <= r.value < |ts| && HeadingText(ts[r.value])
    ensures r.Some? ==> forall j :: i <= j < r.value ==> !HeadingText(ts[j])
    ensures r.None? ==> forall j :: i <= j < |ts| ==> !HeadingText(ts[j])
    decreases |ts| - i
  {
    if i == |ts| then None else if HeadingText(ts[i]) then Some(i) else FirstHeading(ts, i + 1)
  }

  /** The first line at or after `k` that is not blank, or the end, given the stripped lines. */
  function SkipBlank(ts: seq<string>, k: nat): (r: nat)
    requires k <= |ts|
    ensures k <= r <= |ts|
    ensures forall j :: k <= j < r ==> ts[j] == []
    ensures r < |ts| ==> ts[r] != []
    decreases |ts| - k
  {
    if k == |ts| then k
    else if ts[k] == [] then SkipBlank(ts, k + 1)
    else k
  }

  /** The insertion index: after the first heading and the blank lines that follow it, or the
      top when there is no heading. */
  function InsertIndex(lines: seq<string>): nat {
    var ts := Identity.TrimAll(lines);
    match FirstHeading(ts, 0)
    case None => 0
    case Some(h) => SkipBlank(ts, h + 1)
  }

  /** The block goes at the top of a text without headings; otherwise after the first heading,
      past exactly the blank lines that follow it. */
  lemma InsertIndexSpec(lines: seq<string>)
    ensures InsertIndex(lines) <= |lines|
    ensures (forall j :: 0 <= j < |lines| ==> !IsHeading(lines[j])) ==> InsertIndex(lines) == 0
    ensures forall h :: 0 <= h < |lines| && IsHeading(lines[h]) && (forall j :: 0 <= j < h ==> !IsHeading(lines[j])) ==>
      && h < InsertIndex(lines)
      && (forall j :: h < j < InsertIndex(lines) ==> Strip(lines[j]) == [])
      && (InsertIndex(lines) < |lines| ==> Strip(lines[InsertIndex(lines)]) != [])
  {
    var ts := Identity.TrimAll(lines);
    match FirstHeading(ts, 0)
    case None =>
      assert InsertIndex(lines) == 0;
      forall h | 0 <= h < |lines|
        ensures !IsHeading(lines[h])
      {
        Identity.TrimAllAt(lines, h);
      }
    case Some(h0) =>
      var r := SkipBlank(ts, h0 + 1);
      assert InsertIndex(lines) == r;
      Identity.TrimAllAt(lines, h0);
      forall h | 0 <= h < |lines| && IsHeading(lines[h]) && (forall j :: 0 <= j < h ==> !IsHeading(lines[j]))
        ensures h == h0
      {
        Identity.TrimAllAt(lines, h);
      }
      forall j | h0 < j < r
        ensures Strip(lines[j]) == []
      {
        Identity.TrimAllAt(lines, j);
      }
      if r < |lines| {
        Identity.TrimAllAt(lines, r);
      }
  }

  /** The search of `add_mcp_reference`: a `for` over the lines that stops at the first heading,
      then a `while` past the blank lines after it. */
  method FindInsertIndex(lines: seq<string>) returns (k: nat)
    ensures k == InsertIndex(lines)
  {
    k := 0;
    ghost var ts := Identity.TrimAll(lines);
    for i := 0 to |lines|
      invariant FirstHeading(ts, 0) == FirstHeading(ts, i)
    {
      var t := Strip(lines[i]);
      Identity.TrimAllAt(lines, i);
      if StartsWith(t, "# ") || StartsWith(t, "## ") {
        k := i + 1;
        while k < |lines| && Strip(lines[k]) == []
          invariant i + 1 <= k <= |lines|
          invariant SkipBlank(ts, i + 1) == SkipBlank(ts, k)
          decreases |lines| - k
        {
          Identity.TrimAllAt(lines, k);
          k := k + 1;
        }
        if k < |lines| {
          Identity.TrimAllAt(lines, k);
        }
        assert SkipBlank(ts, k) == k;
        InsertAfterHeading(lines, i);
        return;
      }
    }
    InsertAtTop(lines);
  }

  lemma InsertAfterHeading(lines: seq<string>, h: nat)
    requires FirstHeading(Identity.TrimAll(lines), 0) == Some(h)
    ensures InsertIndex(lines) == SkipBlank(Identity.TrimAll(lines), h + 1)
  {
  }

  lemma InsertAtTop(lines: seq<string>)
    requires FirstHeading(Identity.TrimAll(lines), |lines|) == FirstHeading(Identity.TrimAll(lines), 0)
    ensures InsertIndex(lines) == 0
  {
  }

  // ---------------------------------------------------------------------------------------------
  // The update

  /** The frontmatter, then the body's lines with the block and an empty line put at the
      insertion index. */
  function Insert(front: string, body: string, block: string): string {
    var lines := Split(body, '\n');
    var k := InsertIndex(lines);
    front + Join(lines[..k] + [block, ""] + lines[k..], "\n")
  }

  /** The text the script writes: the file split as written, then the block inserted. */
  function WithBlock(content: string, block: string): string {
    var (front, body) := SplitFrontmatterAsWritten(content);
    Insert(front, body, block)
  }

  /** The text the script evidently means to write: the file split as corrected. */
  function WithBlockIntended(content: string, block: string): string {
    var (front, body) := SplitFrontmatter(content);
    Insert(front, body, block)
  }

  /** What `add_mcp_reference` writes, or `None` when it returns without writing. */
  function McpUpdate(skill: string, content: string): Option<string> {
    if HasMcpReference(content) then None
    else match ReferenceFor(skill)
      case None => None
      case Some(r) => Some(WithBlock(content, Block(r)))
  }

  /** The same update over the corrected split. */
  function McpUpdateIntended(skill: string, content: string): Option<string> {
    if HasMcpReference(content) then None
    else match ReferenceFor(skill)
      case None => None
      case Some(r) => Some(WithBlockIntended(content, Block(r)))
  }

  /** `add_mcp_reference`: `modified` is the boolean it returns, `written` what it wrote. */
  method AddMcpReference(skill: string, file: FileRead, writeOk: bool) returns (modified: bool, written: Option<string>)
    ensures modified <==> written.Some?
    ensures file.Unreadable? || !writeOk ==> written.None?
    ensures file.Read? && writeOk ==> written == McpUpdate(skill, file.text)
  {
    modified, written := false, None;
    if file.Unreadable? {
      return;
    }
    var content := file.text;
    if HasMcpReference(content) {
      return;
    }
    var r;
    match ReferenceFor(skill)
    case None =>
      return;
    case Some(chosen) =>
      r := chosen;
    var newContent := InsertBlock(content, Block(r));
    if !writeOk {
      return;
    }
    modified, written := true, Some(newContent);
  }

  /** The insertion itself: split off the frontmatter, split the body into lines, insert the
      block and then an empty line at the insertion index, and join again. */
  method InsertBlock(content: string, block: string) returns (newContent: string)
    ensures newContent == WithBlock(content, block)
  {
    var (front, body) := SplitFrontmatterAsWritten(content);
    var lines := Split(body, '\n');
    ghost var original := lines;
    var k := FindInsertIndex(lines);
    lines := lines[..k] + [block] + lines[k..];
    lines := lines[..k + 1] + [""] + lines[k + 1..];
    InsertTwice(original, k, block, "");
    newContent := front + Join(lines, "\n");
  }

  /** Inserting `a` at `k` and then `b` at `k + 1` puts the two side by side. */
  lemma InsertTwice(lines: seq<string>, k: nat, a: string, b: string)
    requires k <= |lines|
    ensures var once := lines[..k] + [a] + lines[k..];
      once[..k + 1] + [b] + once[k + 1..] == lines[..k] + [a, b] + lines[k..]
  {
    var once := lines[..k] + [a] + lines[k..];
    assert once[..k + 1] == lines[..k] + [a];
    assert once[k + 1..] == lines[k..];
  }

  /** A file is rewritten only when it has no reference yet and its skill is listed. */
  lemma UpdateSkips(skill: string, content: string)
    ensures McpUpdate(skill, content).None? <==> HasMcpReference(content) || ReferenceFor(skill).None?
    ensures McpUpdateIntended(skill, content).None? <==> McpUpdate(skill, content).None?
  {
  }

  /** The script and the corrected update agree on every file whose first `---` rule opens it,
      and on every file with fewer than two rules. */
  lemma UpdateAgrees(skill: string, content: string)
    requires |SplitParts(content)| < 3 || SplitParts(content)[0] == []
    ensures McpUpdate(skill, content) == McpUpdateIntended(skill, content)
  {
    assert SplitFrontmatterAsWritten(content) == SplitFrontmatter(content);
  }

  lemma ContainsLeft(a: string, b: string, p: string)
    requires Contains(a, p)
    ensures Contains(a + b, p)
  {
    var i :| 0 <= i <= |a| - |p| && OccursAt(a, p, i);
    assert (a + b)[i..i + |p|] == a[i..i + |p|];
    assert OccursAt(a + b, p, i);
  }

  lemma ContainsRight(a: string, b: string, p: string)
    requires Contains(b, p)
    ensures Contains(a + b, p)
  {
    var i :| 0 <= i <= |b| - |p| && OccursAt(b, p, i);
    assert (a + b)[|a| + i..|a| + i + |p|] == b[i..i + |p|];
    assert OccursAt(a + b, p, |a| + i);
  }

  /** Whatever one line holds, the joined text holds too. */
  lemma {:induction false} JoinContains(lines: seq<string>, i: nat, sep: string, p: string)
    requires i < |lines| && Contains(lines[i], p)
    ensures Contains(Join(lines, sep), p)
  {
    if |lines| > 1 {
      if i == 0 {
        ContainsLeft(lines[0], sep + Join(lines[1..], sep), p);
        assert lines[0] + sep + Join(lines[1..], sep) == lines[0] + (sep + Join(lines[1..], sep));
      } else {
        JoinContains(lines[1..], i - 1, sep, p);
        ContainsRight(lines[0] + sep, Join(lines[1..], sep), p);
      }
    }
  }

  /** After one insertion the file holds a reference, so running the script again changes
      nothing; the same holds of the corrected update. */
  lemma SecondRunUnchanged(skill: string, content: string)
    requires McpUpdate(skill, content).Some?
    ensures HasMcpReference(McpUpdate(skill, content).value)
    ensures McpUpdate(skill, McpUpdate(skill, content).value).None?
    ensures HasMcpReference(McpUpdateIntended(skill, content).value)
    ensures McpUpdateIntended(skill, McpUpdateIntended(skill, content).value).None?
  {
    var r := ReferenceFor(skill).value;
    var (f1, b1) := SplitFrontmatterAsWritten(content);
    InsertHasReference(f1, b1, r);
    var (f2, b2) := SplitFrontmatter(content);
    InsertHasReference(f2, b2, r);
  }

  /** Whatever the split, the inserted block makes the text count as referenced. */
  lemma InsertHasReference(front: string, body: string, r: Reference)
    ensures HasMcpReference(Insert(front, body, Block(r)))
  {
    OccursBetween(BlockHead(r), "MCP Tool", BlockTail(r));
    InsertContains(front, body, Block(r), "MCP Tool");
  }

  /** Whatever the block holds, the text it is inserted into holds too. */
  lemma InsertContains(front: string, body: string, block: string, p: string)
    requires Contains(block, p)
    ensures Contains(Insert(front, body, block), p)
  {
    var lines := Split(body, '\n');
    var k := InsertIndex(lines);
    var updated := lines[..k] + [block, ""] + lines[k..];
    assert updated[k] == block;
    JoinContains(updated, k, "\n", p);
    ContainsRight(front, Join(updated, "\n"), p);
  }

  /** The file the script writes is the body's lines with exactly the block and an empty line
      inserted at the insertion index, after the frontmatter as written. A file with fewer than
      two rules is taken whole as the body; otherwise every non-whitespace character is kept
      except those before the first rule, which are lost. */
  lemma UpdateInsertsTwoLines(skill: string, content: string)
    requires McpUpdate(skill, content).Some?
    ensures var (front, body) := SplitFrontmatterAsWritten(content);
      var lines := Split(body, '\n');
      var k := InsertIndex(lines);
      var parts := SplitParts(content);
      && McpUpdate(skill, content).value == front + Join(lines[..k] + [Block(ReferenceFor(skill).value), ""] + lines[k..], "\n")
      && (|parts| < 3 ==> front + Join(lines, "\n") == content)
      && (|parts| >= 3 ==> NonSpace(content) == NonSpace(parts[0]) + NonSpace(front + Join(lines, "\n")))
  {
    var (front, body) := SplitFrontmatterAsWritten(content);
    JoinSplit(body, '\n');
    SplitAsWrittenDrops(content);
  }

  /** The corrected update inserts the same two lines after a frontmatter that together with the
      body keeps every non-whitespace character of the original, in order. */
  lemma UpdateInsertsTwoLinesIntended(skill: string, content: string)
    requires McpUpdateIntended(skill, content).Some?
    ensures var (front, body) := SplitFrontmatter(content);
      var lines := Split(body, '\n');
      var k := InsertIndex(lines);
      && McpUpdateIntended(skill, content).value == front + Join(lines[..k] + [Block(ReferenceFor(skill).value), ""] + lines[k..], "\n")
      && NonSpace(front + Join(lines, "\n")) == NonSpace(content)
  {
    var (front, body) := SplitFrontmatter(content);
    JoinSplit(body, '\n');
    SplitKeepsText(content);
  }

  /** As written, a file without frontmatter but with two `---` rules loses what precedes the
      first rule: here the heading `# T`, which the corrected split keeps. */
  /** A heading above the front matter: the script writes the front matter without the heading
      and puts the block after it, where the intended update keeps the heading and puts the block
      below it. */
  lemma LeadingTextLost(skill: string, s: string)
    requires s == "# T\n---\nx\n---\ny" && ReferenceFor(skill).Some?
    ensures McpUpdate(skill, s) == Some("---\nx\n---\n" + Block(ReferenceFor(skill).value) + "\n\n\ny")
    ensures McpUpdateIntended(skill, s) == Some("# T\n" + Block(ReferenceFor(skill).value) + "\n\n---\nx\n---\ny")
  {
    LostSplit(s);
    NoReferenceInLost(s);
    var b := Block(ReferenceFor(skill).value);
    InsertAfterLostFront("---\nx\n---\n", "\ny", b);
    InsertIntoLost(s, b);
  }

  /** The two splits of the counterexample: as written, the heading is gone; as corrected, the
      text has no front matter at all. */
  lemma LostSplit(s: string)
    requires s == "# T\n---\nx\n---\ny"
    ensures SplitFrontmatterAsWritten(s) == ("---\nx\n---\n", "\ny")
    ensures SplitFrontmatter(s) == ("", s)
  {
    FirstRule(s);
    SecondRule(s);
    assert SplitParts(s) == [s[..4], s[7..10], s[13..]];
    RulePieces(s);
    assert "---" + "\nx\n" + "---\n" == "---\nx\n---\n";
  }

  lemma NoReferenceInLost(s: string)
    requires s == "# T\n---\nx\n---\ny"
    ensures !HasMcpReference(s)
  {
    NoFirstChar(s, "MCP Tool");
    NoFirstChar(s, "Context7");
    NoFirstChar(s, "Sequential Thinking");
  }

  /** A text without the first character of `p` does not contain `p`. */
  lemma NoFirstChar(s: string, p: string)
    requires |p| > 0 && p[0] !in s
    ensures !Contains(s, p)
  {
    forall i | 0 <= i <= |s| - |p|
      ensures !OccursAt(s, p, i)
    {
      assert s[i..i + |p|][0] == s[i] && s[i] in s;
    }
  }

  /** Inserting into the body the script keeps: no heading, so the block goes on top. */
  lemma InsertAfterLostFront(front: string, body: string, b: string)
    requires body == "\ny"
    ensures Insert(front, body, b) == front + b + "\n\n\ny"
  {
    var lines := Split(body, '\n');
    LostTailLines(body);
    LostTailIndex(lines);
    LostTailJoin(lines, b);
    Regroup3(front, b, "\n\n\ny");
  }

  lemma Regroup3(x: string, p: string, q: string)
    ensures x + (p + q) == x + p + q
  {
  }

  lemma LostTailLines(body: string)
    requires body == "\ny"
    ensures Split(body, '\n') == ["", "y"]
  {
    SplitJoin(["", "y"], '\n');
    JoinCons("", ["y"], "\n");
  }

  /** Two lines without a heading: the block goes on top. */
  lemma TopOfTwo(lines: seq<string>)
    requires |lines| == 2 && !IsHeading(lines[0]) && !IsHeading(lines[1])
    ensures InsertIndex(lines) == 0
  {
    var ts := Identity.TrimAll(lines);
    Identity.TrimAllAt(lines, 0);
    Identity.TrimAllAt(lines, 1);
    assert FirstHeading(ts, 2) == None;
    assert FirstHeading(ts, 1) == None;
  }

  lemma LostTailIndex(lines: seq<string>)
    requires lines == ["", "y"]
    ensures InsertIndex(lines) == 0
  {
    PlainLine(lines[0]);
    PlainLine(lines[1]);
    TopOfTwo(lines);
  }

  /** A line with neither `#` nor a space is no heading. */
  lemma PlainLine(l: string)
    requires '#' !in l && ' ' !in l
    ensures !IsHeading(l)
  {
    var a := LStrip(l);
    if Strip(l) != [] {
      assert Strip(l)[0] == a[0] == l[|l| - |a|];
    }
  }

  lemma LostTailJoin(lines: seq<string>, b: string)
    requires lines == ["", "y"]
    ensures Join(lines[..0] + [b, ""] + lines[0..], "\n") == b + "\n\n\ny"
  {
    assert lines[..0] + [b, ""] + lines[0..] == [b, "", "", "y"];
    JoinCons("", ["y"], "\n");
    JoinCons("", ["", "y"], "\n");
    JoinCons(b, ["", "", "y"], "\n");
  }

  /** Inserting into the whole text: the block goes after the heading. */
  lemma InsertIntoLost(s: string, b: string)
    requires s == "# T\n---\nx\n---\ny"
    ensures Insert("", s, b) == "# T\n" + b + "\n\n---\nx\n---\ny"
  {
    var rest := ["---", "x", "---", "y"];
    var lines := Split(s, '\n');
    LostLines(s, rest);
    LostIndex(lines, rest);
    LostJoin(lines, b, rest);
  }

  lemma LostRest(rest: seq<string>)
    requires rest == ["---", "x", "---", "y"]
    ensures Join(rest, "\n") == "---\nx\n---\ny"
  {
    JoinCons("---", ["y"], "\n");
    JoinCons("x", ["---", "y"], "\n");
    JoinCons("---", ["x", "---", "y"], "\n");
  }

  lemma LostLines(s: string, rest: seq<string>)
    requires s == "# T\n---\nx\n---\ny" && rest == ["---", "x", "---", "y"]
    ensures Split(s, '\n') == ["# T"] + rest
  {
    LostRest(rest);
    JoinCons("# T", rest, "\n");
    assert Join(["# T"] + rest, "\n") == s;
    SplitJoin(["# T"] + rest, '\n');
  }

  /** A heading followed by a line with text: the block goes between them. */
  lemma AfterFirstLine(lines: seq<string>)
    requires |lines| >= 2 && IsHeading(lines[0]) && Strip(lines[1]) != []
    ensures InsertIndex(lines) == 1
  {
    var ts := Identity.TrimAll(lines);
    Identity.TrimAllAt(lines, 0);
    Identity.TrimAllAt(lines, 1);
    assert FirstHeading(ts, 0) == Some(0);
  }

  lemma LostIndex(lines: seq<string>, rest: seq<string>)
    requires rest == ["---", "x", "---", "y"] && lines == ["# T"] + rest
    ensures InsertIndex(lines) == 1
  {
    HeadingThenRule(lines);
  }

  /** Lines opening with `# T` and then `---`: the block goes between them. */
  lemma HeadingThenRule(lines: seq<string>)
    requires |lines| >= 2
    requires |lines[0]| == 3 && lines[0][0] == '#' && lines[0][1] == ' ' && lines[0][2] == 'T'
    requires |lines[1]| == 3 && lines[1][0] == '-' && lines[1][2] == '-'
    ensures InsertIndex(lines) == 1
  {
    HeadingStrips(lines[0]);
    RuleStrips(lines[1]);
    AfterFirstLine(lines);
  }

  lemma HeadingStrips(l: string)
    requires |l| == 3 && l[0] == '#' && l[1] == ' ' && l[2] == 'T'
    ensures IsHeading(l)
  {
    HeadingChars(l);
    StripOfStripped(l);
  }

  lemma RuleStrips(l: string)
    requires |l| == 3 && l[0] == '-' && l[2] == '-'
    ensures Strip(l) != []
  {
    RuleChars(l);
    StripOfStripped(l);
  }

  lemma RuleChars(l: string)
    requires |l| == 3 && l[0] == '-' && l[2] == '-'
    ensures !IsSpace(l[0]) && !IsSpace(l[|l| - 1])
  {
  }

  /** `# T` opens a heading and has no space at either end. */
  lemma HeadingChars(l: string)
    requires |l| == 3 && l[0] == '#' && l[1] == ' ' && l[2] == 'T'
    ensures HeadingText(l) && !IsSpace(l[0]) && !IsSpace(l[|l| - 1])
  {
    assert l[..2] == "# ";
  }

  lemma LostJoin(lines: seq<string>, b: string, rest: seq<string>)
    requires rest == ["---", "x", "---", "y"] && lines == ["# T"] + rest
    ensures Join(lines[..1] + [b, ""] + lines[1..], "\n") == "# T\n" + b + "\n\n---\nx\n---\ny"
  {
    assert lines[..1] + [b, ""] + lines[1..] == ["# T"] + ([b] + ([""] + rest));
    LostRest(rest);
    JoinCons("", rest, "\n");
    JoinCons(b, [""] + rest, "\n");
    JoinCons("# T", [b] + ([""] + rest), "\n");
  }

  lemma JoinCons(l: string, ls: seq<string>, sep: string)
    requires |ls| >= 1
    ensures Join([l] + ls, sep) == l + sep + Join(ls, sep)
  {
    assert ([l] + ls)[1..] == ls;
  }

  lemma RulePieces(s: string)
    requires s == "# T\n---\nx\n---\ny"
    ensures s[..4] == "# T\n" && s[7..10] == "\nx\n" && s[13..] == "\ny"
  {
  }

  lemma FirstRule(s: string)
    requires s == "# T\n---\nx\n---\ny"
    ensures FindSeparator(s, 0) == Some((4, 7))
  {
    HeadingIsNoRule(s);
    assert SpaceRunEnd(s, 8) == 8;
    assert SpaceRunEnd(s, 7) == 8;
    assert LastNewline(s, 7, 7) == Some(7);
    assert SeparatorEnd(s, 4) == Some(7);
    assert FindSeparator(s, 4) == Some((4, 7));
  }

  lemma HeadingIsNoRule(s: string)
    requires s == "# T\n---\nx\n---\ny"
    ensures forall p :: 0 <= p < 4 ==> SeparatorEnd(s, p).None?
  {
    assert s[0] == '#' && s[1] == ' ' && s[2] == 'T' && s[3] == '\n' && s[4] == '-';
  }

  lemma SecondRule(s: string)
    requires s == "# T\n---\nx\n---\ny"
    ensures FindSeparator(s, 7) == Some((10, 13))
  {
    assert SeparatorEnd(s, 7).None? && SeparatorEnd(s, 8).None? && SeparatorEnd(s, 9).None?;
    assert SpaceRunEnd(s, 14) == 14;
    assert SpaceRunEnd(s, 13) == 14;
    assert LastNewline(s, 13, 13) == Some(13);
    assert SeparatorEnd(s, 10) == Some(13);
    assert FindSeparator(s, 10) == Some((10, 13));
  }
}
