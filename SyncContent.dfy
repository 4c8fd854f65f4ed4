/** `scripts/ecosystem/sync_content.py`: the `.agent` tree is the source of truth; its bodies are
    copied into `.claude` and `.cursor` with every platform path rewritten for the target, while
    each target file keeps its own frontmatter. */
module SyncContent {
  import opened Text
  import opened Substitute
  import opened Platforms
  import opened Frontmatter

  const SkillMd := "SKILL.md"
  const SkillMdc := "SKILL.mdc"

  /** `re.sub(r'(?<!\w)SKILL\.md(?!\w)', 'SKILL.mdc', s)`. */
  function SkillToMdc(s: string): string {
    Sub(Standalone, SkillMd, SkillMdc, false, s)
  }

  /** `re.sub(r'(?<!\w)SKILL\.mdc(?!\w)', 'SKILL.md', s)`. */
  function SkillToMd(s: string): string {
    Sub(Standalone, SkillMdc, SkillMd, false, s)
  }

  /** The loop of `remap_content_for_platform`: every `.agent/`, `.claude/` and `.cursor/`, in that
      order, becomes the target's own token. */
  function RemapPaths(content: string, target: Platform): string {
    ReplaceTokens(content, All, Token(target))
  }

  lemma RemapPathsKeepsOut(content: string, target: Platform)
    ensures forall p :: p != target ==> !Contains(RemapPaths(content, target), Token(p))
  {
    forall p | p != target
      ensures !Contains(RemapPaths(content, target), Token(p))
    {
      TokenKeepsOutOthers(target, p);
      ReplaceTokensKeepsOut(content, All, Token(target), p);
    }
  }

  /** Neither SKILL rewrite can bring back a platform token. */
  lemma SkillRewritesKeepOut(s: string, p: Platform)
    requires !Contains(s, Token(p))
    ensures !Contains(SkillToMdc(s), Token(p)) && !Contains(SkillToMd(s), Token(p))
  {
    DotMStraddleFree(SkillMdc, p);
    DotMStraddleFree(SkillMd, p);
    KeepOut(Standalone, SkillMd, SkillMdc, false, s, Token(p));
    KeepOut(Standalone, SkillMdc, SkillMd, false, s, Token(p));
  }

  /** `remap_content_for_platform(content, target)`: afterwards no token of another platform is
      left, and no standalone SKILL file name of the other flavour either. */
  function RemapContent(content: string, target: Platform): (r: string)
    ensures forall p :: p != target ==> !Contains(r, Token(p))
    ensures target == Cursor ==> Free(Standalone, SkillMd, false, r)
    ensures target != Cursor ==> Free(Standalone, SkillMdc, false, r)
  {
    var remapped := RemapPaths(content, target);
    RemapPathsKeepsOut(content, target);
    assert forall p :: p != target ==> !Contains(SkillToMdc(remapped), Token(p)) && !Contains(SkillToMd(remapped), Token(p)) by {
      forall p | p != target {
        SkillRewritesKeepOut(remapped, p);
      }
    }
    SubLeavesFree(Standalone, SkillMd, SkillMdc, false, remapped);
    SubLeavesFree(Standalone, SkillMdc, SkillMd, false, remapped);
    if target == Cursor then SkillToMdc(remapped) else SkillToMd(remapped)
  }

  /** Each platform token, the target's own included, is rewritten into the target's token, and
      the text on either side is rewritten as if on its own. */
  lemma RemapPathsAround(a: string, p: Platform, b: string, target: Platform)
    ensures RemapPaths(a + Token(p) + b, target) == RemapPaths(a, target) + Token(target) + RemapPaths(b, target)
  {
    TokenIsTokenLike(target);
    ReplaceTokensAround(a, Token(p), b, All, Token(target), p);
  }

  /** Remapping an already remapped text for the same target changes nothing. */
  lemma RemapIdempotent(content: string, target: Platform)
    ensures RemapContent(RemapContent(content, target), target) == RemapContent(content, target)
  {
    var r := RemapContent(content, target);
    var remapped := RemapPaths(content, target);
    ReplaceTokensUnchanged(r, All, target);
    assert RemapPaths(r, target) == r;
    SubIdempotent(Standalone, SkillMd, SkillMdc, false, remapped);
    SubIdempotent(Standalone, SkillMdc, SkillMd, false, remapped);
  }

  // ---------------------------------------------------------------------------------------------
  // The isolation check

  /** `[name for name in ps if name != target and f'{name}/' in content]`. */
  function ForeignIn(content: string, target: Platform, ps: seq<Platform>): (v: seq<Platform>)
    requires forall i, j :: 0 <= i < j < |ps| ==> Rank(ps[i]) < Rank(ps[j])
    ensures forall p :: p in v <==> p in ps && p != target && Contains(content, Token(p))
    ensures forall i, j :: 0 <= i < j < |v| ==> Rank(v[i]) < Rank(v[j])
    ensures forall i :: 0 <= i < |v| ==> ps != [] && Rank(ps[0]) <= Rank(v[i])
  {
    if ps == [] then []
    else
      var rest := ForeignIn(content, target, ps[1..]);
      if ps[0] != target && Contains(content, Token(ps[0])) then [ps[0]] + rest else rest
  }

  /** The platforms whose tokens the content still mentions, in `PLATFORMS` order. */
  function Violations(content: string, target: Platform): (v: seq<Platform>)
    ensures forall p :: p in v <==> p != target && Contains(content, Token(p))
    ensures forall i, j :: 0 <= i < j < |v| ==> Rank(v[i]) < Rank(v[j])
  {
    ForeignIn(content, target, All)
  }

  function Names(ps: seq<Platform>): (ns: seq<string>)
    ensures |ns| == |ps| && forall i :: 0 <= i < |ps| ==> ns[i] == Name(ps[i])
  {
    if ps == [] then [] else [Name(ps[0])] + Names(ps[1..])
  }

  datatype Checked = Passed | Raised(message: string)

  /** `ensure_platform_isolation(content, target)`: raises `ValueError` naming the offending
      platforms exactly when a foreign token is left. */
  function EnsureIsolation(content: string, target: Platform): (r: Checked)
    ensures r.Passed? <==> forall p :: p != target ==> !Contains(content, Token(p))
    ensures r.Raised? ==>
      r.message == "foreign platform references remain after remap: " + Join(Names(Violations(content, target)), ", ")
  {
    var v := Violations(content, target);
    assert v != [] ==> v[0] in v;
    if v != [] then
      Raised("foreign platform references remain after remap: " + Join(Names(v), ", "))
    else
      Passed
  }

  /** The check that follows every remap never raises. */
  lemma RemapPassesIsolation(content: string, target: Platform)
    ensures EnsureIsolation(RemapContent(content, target), target) == Passed
  {
  }

  // ---------------------------------------------------------------------------------------------
  // Reading and writing frontmatter files

  /** `extract_parts(path)`: the metadata (`None` when the file cannot be read) and the body. */
  function ExtractParts(file: FileRead, load: string -> Loaded): (r: (Option<Metadata>, string))
    ensures file.Unreadable? ==> r == (None, "")
    ensures file.Read? && (!StartsWith(file.text, "---") || Match(file.text).None?) ==> r == (Some([]), file.text)
    ensures file.Read? && r.0.Some? && r.0.value != [] ==>
      Match(file.text).Some? && r.1 == file.text[Match(file.text).value.2 + 1..]
      && load(file.text[Match(file.text).value.0 + 1..Match(file.text).value.1]) == Mapping(r.0.value)
  {
    match file
    case Unreadable => (None, "")
    case Read(content) =>
      if !StartsWith(content, "---") then (Some([]), content)
      else match Match(content)
        case None => (Some([]), content)
        case Some((n1, m, n2)) =>
          match load(content[n1 + 1..m])
          case YamlError => (Some([]), content)
          case Mapping(meta) => (Some(meta), content[n2 + 1..])
  }

  /** `write_file`'s layout: a frontmatter block when there is metadata (`None` and `{}` are both
      falsy), the bare body otherwise. `dump` stands for `yaml.dump`. */
  function FileText(meta: Option<Metadata>, body: string, dump: Metadata -> string): (r: string)
    ensures meta.None? || meta.value == [] ==> r == body
    ensures meta.Some? && meta.value != [] ==> StartsWith(r, "---\n") && |body| <= |r| && r[|r| - |body|..] == body
  {
    if meta.Some? && meta.value != [] then "---\n" + dump(meta.value) + "---\n\n" + body else body
  }

  /** A YAML dump that frontmatter can hold: it ends its last line, starts with a non-space and has
      no line starting with `---`. */
  predicate DumpFits(d: string) {
    d != [] && d[|d| - 1] == '\n' && !IsSpace(d[0]) && !Contains(d, "\n---")
  }

  /** A body that does not start with a blank line, which the closing `\s*\n` would swallow. */
  predicate NoLeadingBlankLine(body: string) {
    LineAfterSpace(body, 0).None?
  }

  lemma NoClosingInsideDump(d: string, rest: string, m: int, n: int)
    requires DumpFits(d) && 4 <= m < 3 + |d|
    ensures !ClosingAt("---\n" + d + rest, m, n)
  {
    var s := "---\n" + d + rest;
    if m + 3 < 3 + |d| {
      assert s[m..m + 4] == d[m - 4..m];
      assert !OccursAt(d, "\n---", m - 4);
    } else {
      assert s[3 + |d|] == '\n';
    }
  }

  lemma OnlyOpening(s: string, d: string, rest: string)
    requires DumpFits(d) && s == "---\n" + d + rest
    ensures forall a :: OpeningAt(s, a) ==> a == 3
  {
    forall a | OpeningAt(s, a)
      ensures a == 3
    {
      assert s[4] == d[0];
      OpeningSecondChar(s, a);
    }
  }

  lemma OpeningSecondChar(s: string, a: int)
    requires OpeningAt(s, a)
    ensures a >= 4 ==> IsSpace(s[4])
  {
    if a >= 4 {
      if a > 4 {
        assert s[3..a][1] == s[4];
      }
    }
  }

  lemma NewlineIntoBody(s: string, pre: string, body: string, c: int)
    requires s == pre + body && NewlineAfterSpace(s, |pre| - 2, c) && c >= |pre|
    ensures NewlineAfterSpace(body, 0, c - |pre|)
  {
    assert body[..c - |pre|] == s[|pre| - 2..c][2..];
  }

  /** Reading back what `write_file` wrote gives the same metadata and body, provided YAML reads
      its own dump back (without the final newline, which the pattern leaves out of the metadata
      group) and the body does not start with a blank line. */
  lemma WriteThenExtract(meta: Metadata, body: string, load: string -> Loaded, dump: Metadata -> string)
    requires meta != [] && DumpFits(dump(meta))
    requires load(dump(meta)[..|dump(meta)| - 1]) == Mapping(meta)
    requires NoLeadingBlankLine(body)
    ensures ExtractParts(Read(FileText(Some(meta), body, dump)), load) == (Some(meta), body)
  {
    var d := dump(meta);
    var L := |d|;
    var s := "---\n" + d + "---\n\n" + body;
    assert FileText(Some(meta), body, dump) == s;
    WrittenMatch(d, body);
    assert s[..3] == "---";
    assert s[4..3 + L] == d[..L - 1];
    assert s[9 + L..] == body;
    ExtractMatched(s, load, meta, 3, 3 + L, 8 + L);
  }

  lemma ExtractMatched(text: string, load: string -> Loaded, meta: Metadata, n1: nat, m: nat, n2: nat)
    requires StartsWith(text, "---") && Match(text).Some? && Match(text).value == (n1, m, n2)
    requires load(text[n1 + 1..m]) == Mapping(meta)
    ensures ExtractParts(Read(text), load) == (Some(meta), text[n2 + 1..])
  {
  }

  /** The frontmatter pattern finds exactly the block `write_file` wrote. */
  lemma WrittenMatch(d: string, body: string)
    requires DumpFits(d) && NoLeadingBlankLine(body)
    ensures Match("---\n" + d + "---\n\n" + body).Some?
    ensures Match("---\n" + d + "---\n\n" + body).value == (3, 3 + |d|, 8 + |d|)
  {
    var L := |d|;
    var rest := "---\n\n" + body;
    var s := "---\n" + d + rest;
    assert s == "---\n" + d + "---\n\n" + body;
    assert s[..3] == "---";
    assert s[3..3] == [];
    assert s[4..4 + L] == d;
    assert s[4 + L..] == rest;
    assert s[4 + L..7 + L] == "---";
    assert s[7 + L..8 + L] == "\n";
    assert Matches(s, 3, 3 + L, 8 + L);
    MatchComplete(s, 3, 3 + L, 8 + L);
    var (a, m, c) := Match(s).value;
    OnlyOpening(s, d, rest);
    forall k | 4 <= k < 3 + L {
      NoClosingInsideDump(d, rest, k, c);
    }
    assert m == 3 + L;
    assert s == ("---\n" + d + "---\n\n") + body;
    if c >= 9 + L {
      NewlineIntoBody(s, "---\n" + d + "---\n\n", body, c);
    }
  }

  // ---------------------------------------------------------------------------------------------
  // One target file of a sync

  datatype TargetFile = Missing | Present(read: FileRead)

  datatype SyncOutcome = NoTarget | NoMetadata | Rejected(message: string) | Written(text: string)

  /** One target of `sync_agent_content`, `sync_skill_content` or `sync_command_content`: an
      existing target keeps its own metadata and gets the source body remapped for its platform.
      Only the skill sync (`requireMetadata`) skips a target whose metadata could not be read. */
  function SyncTarget(sourceBody: string, target: TargetFile, platform: Platform, requireMetadata: bool,
                      load: string -> Loaded, dump: Metadata -> string): (r: SyncOutcome)
    ensures r.NoTarget? <==> target.Missing?
    ensures !r.Rejected?
  {
    match target
    case Missing => NoTarget
    case Present(read) =>
      var meta := ExtractParts(read, load).0;
      if requireMetadata && meta.None? then NoMetadata
      else
        var content := RemapContent(sourceBody, platform);
        match EnsureIsolation(content, platform)
        case Raised(message) => Rejected(message)
        case Passed => Written(FileText(meta, content, dump))
  }

  /** The sync rule: the target keeps its metadata and its body becomes the remapped source body. */
  lemma SyncKeepsMetadata(sourceBody: string, text: string, platform: Platform, requireMetadata: bool,
                          load: string -> Loaded, dump: Metadata -> string)
    requires ExtractParts(Read(text), load).0.Some?
    requires ExtractParts(Read(text), load).0.value != []
    requires DumpFits(dump(ExtractParts(Read(text), load).0.value))
    requires var d := dump(ExtractParts(Read(text), load).0.value);
      load(d[..|d| - 1]) == Mapping(ExtractParts(Read(text), load).0.value)
    requires NoLeadingBlankLine(RemapContent(sourceBody, platform))
    ensures SyncTarget(sourceBody, Present(Read(text)), platform, requireMetadata, load, dump).Written?
    ensures ExtractParts(Read(SyncTarget(sourceBody, Present(Read(text)), platform, requireMetadata, load, dump).text), load)
      == (ExtractParts(Read(text), load).0, RemapContent(sourceBody, platform))
  {
    var meta := ExtractParts(Read(text), load).0.value;
    SyncWritten(sourceBody, Read(text), platform, requireMetadata, load, dump);
    WriteThenExtract(meta, RemapContent(sourceBody, platform), load, dump);
  }

  /** A target whose metadata was read is always written: the remap leaves nothing to reject. */
  lemma SyncWritten(sourceBody: string, read: FileRead, platform: Platform, requireMetadata: bool,
                    load: string -> Loaded, dump: Metadata -> string)
    requires ExtractParts(read, load).0.Some?
    ensures SyncTarget(sourceBody, Present(read), platform, requireMetadata, load, dump)
      == Written(FileText(ExtractParts(read, load).0, RemapContent(sourceBody, platform), dump))
  {
    RemapPassesIsolation(sourceBody, platform);
  }
}
