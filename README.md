# Ecosystem maintenance scripts, modelled in Dafny

The repository keeps three mirrored platform trees of agents, skills, commands and rules:
`.agent/`, `.claude/` and `.cursor/`. A Cursor skill lives in `SKILL.mdc`; every other skill
lives in `SKILL.md`. A handful of Python scripts keep these trees consistent:

- `sync_content.py` copies a body from one platform to the others. It rewrites every foreign
  platform path prefix to the target's own prefix, renames skill files, keeps each target's
  YAML frontmatter, and refuses a result that still names a foreign platform.
- `isolation_lint.py` walks each platform tree. It reports foreign platform tokens, relative
  links that escape the tree or point nowhere, unreadable files and missing trees. It also
  computes a summary and an exit code.
- `ecosystem_audit.py` accumulates issues and per-key counters. It does the following:
  - records descriptor identities per category;
  - flags long lines and long files;
  - compares mirrored skill assets across the three platforms;
  - finds categories whose descriptors have duplicate identity text;
  - exits with 1 exactly when a critical issue was raised.
- `simplify_skills_metadata.py` trims skill frontmatter to a per-platform allow-list and
  reports which keys it removed.
- `add_mcp_references.py` inserts a fixed MCP tool reference block after the first heading of
  selected skills.
- `fix_cross_platform_refs.py` rewrites foreign platform prefixes in one platform's files.
  For Cursor it also renames `/SKILL.md` to `/SKILL.mdc`.
- `remove_agent_frontmatter.py` strips the leading YAML frontmatter from agent files.

The scripts that keep their own mutable state become Dafny classes:

- `EcosystemAudit.EcosystemAuditor` holds the issues list, the counter map and the descriptor
  registry.
- `IsolationLint.IsolationLinter` holds the issues list.

Each method of these classes states its new state in terms of a pure function. The pure
functions live in `AuditIssues` and `LintIssues`. The properties the scripts rely on are
proved there.

The other scripts are pure text transformations. They are modelled as functions with lemmas.
Loops that the source writes as loops stay methods with invariants:

- `Normalize.NormalizeText`;
- `Identity.FirstIdentityLine`;
- `AddMcpReferences.FindInsertIndex`.

Shared building blocks are modelled once:

| module | what it models |
|---|---|
| `Text` | Python's `strip`, `split`, `join`, `splitlines` and `lower` |
| `Substitute` | `str.replace`, and `re.sub` with `\b` / `(?<!\w)` guards |
| `Platforms` | the three platform names and tokens |
| `Frontmatter` | the frontmatter regular expression `^---\s*\n(.*?)\n---\s*\n` with DOTALL |
| `Locations` | `_rel` and `Path.suffix` |
| `Order` | Python's string and tuple ordering, and `sorted(set(...))` |

The file system, YAML and clocks are outside the model:

- A file read is a `FileRead` value, either `Read(text)` or `Unreadable`.
- Whether a write succeeds is a `writeOk` parameter.
- YAML `safe_load` and `safe_dump` are function parameters `load` and `dump`.
- A directory walk is a sequence of `Entry` values. Each entry carries its path, its read
  result and two predicates for link resolution: `escapes` and `present`.

## Model

| member | source | states |
|---|---|---|
| Text.Lower | scripts/ecosystem/isolation_lint.py:124 | `lower()` on ASCII: same length, exactly the letters A–Z mapped to a–z, everything else kept |
| Text.StripIdempotent | scripts/ecosystem/ecosystem_audit.py:151 | `strip()` yields a string with no space at either end, and stripping it again changes nothing |
| Text.StripBlank | scripts/ecosystem/ecosystem_audit.py:177 | `not identity.strip()` holds exactly when the string is all whitespace |
| Text.JoinSplit | scripts/ecosystem/add_mcp_references.py:86 | `'\n'.join(s.split('\n')) == s` for every string |
| Text.SplitJoin | scripts/ecosystem/add_mcp_references.py:103 | splitting the join of separator-free lines gives back the lines |
| Text.NatToStringValue | scripts/ecosystem/ecosystem_audit.py:291 | the decimal rendering of a count reads back as that count |
| Substitute.SubAbsent | scripts/ecosystem/sync_content.py:53-56 | a substitution whose pattern does not occur leaves the text unchanged |
| Substitute.ReplaceWithItself | scripts/ecosystem/sync_content.py:49-50 | replacing a pattern by itself is the identity, so replacing the target's own token is harmless |
| Substitute.KeepOut | scripts/ecosystem/sync_content.py:49-56 | a replacement never creates an occurrence of a token that was absent, given a replacement that cannot form it across a seam |
| Substitute.SubLeavesFree | scripts/ecosystem/sync_content.py:53-56 | after a guarded `re.sub`, no guarded occurrence of the pattern is left |
| Substitute.SubIdempotent | scripts/ecosystem/sync_content.py:53-56 | applying a guarded `re.sub` twice is the same as applying it once |
| Substitute.ReplaceConcat | scripts/ecosystem/ecosystem_audit.py:161-165 | `replace` distributes over concatenation when no match straddles the seam |
| Substitute.ReplaceAround | scripts/ecosystem/ecosystem_audit.py:161-165 | replacing in `a + pat + b` gives the replacement of `a`, then `rep`, then the replacement of `b` |
| Substitute.ReplacePassesThrough | scripts/ecosystem/ecosystem_audit.py:161-165 | a piece that cannot start or end a match passes through a replacement untouched |
| Substitute.ReplaceWhole | scripts/ecosystem/fix_cross_platform_refs.py:25 | replacing a pattern in itself gives exactly the replacement |
| Platforms.Token | scripts/ecosystem/sync_content.py:13 | each platform token is `.` + lower-case letters + `/` |
| Platforms.FromName | scripts/ecosystem/isolation_lint.py:13 | a directory name maps to the platform with that name, and to none exactly when no platform has it |
| Platforms.TokensApart | scripts/ecosystem/sync_content.py:13 | no platform token is a prefix of another, so the order of the rewrite loop does not matter |
| Platforms.ReplaceTokensKeepsOut | scripts/ecosystem/sync_content.py:49-50 | after replacing a set of tokens, none of those tokens remains, and no other absent token appears |
| Platforms.ReplaceTokensAround | scripts/ecosystem/sync_content.py:49-50 | a token in the middle of the text becomes the replacement, and both sides are rewritten independently |
| Platforms.ReplaceTokensUnchanged | scripts/ecosystem/fix_cross_platform_refs.py:20-25 | a text naming no foreign platform is left unchanged by the rewrite to its own token |
| Platforms.ReplaceTokensAbsent | scripts/ecosystem/sync_content.py:49-50 | a text containing none of the tokens is left unchanged |
| Locations.Rel | scripts/ecosystem/ecosystem_audit.py:135-141 | a location given as text is reported as that text |
| Locations.RelInside | scripts/ecosystem/isolation_lint.py:45-52 | a path below the workspace is reported as its relative components joined by `/` |
| Locations.RelWorkspace | scripts/ecosystem/ecosystem_audit.py:135-141 | the workspace itself is reported as `.` |
| Locations.RelOutside | scripts/ecosystem/ecosystem_audit.py:135-141 | a path outside the workspace is reported absolute, starting with `/` |
| Locations.LastDot | scripts/ecosystem/isolation_lint.py:124 | finds the last dot of a name, or reports that there is none |
| Locations.Suffix | scripts/ecosystem/isolation_lint.py:124 | `Path.suffix`: empty, or a dot plus a dot-free tail that ends the name and is shorter than it |
| Locations.SuffixOfDotless | scripts/ecosystem/ecosystem_audit.py:172 | a dot-free name and a hidden name like `.env` have no suffix |
| Locations.SuffixOfSimpleName | scripts/ecosystem/ecosystem_audit.py:172 | `stem.ext` has suffix `.ext` |
| Frontmatter.LineAfterSpace | scripts/ecosystem/sync_content.py:31 | `\s*\n` from a position: the last newline reachable over whitespace, or none |
| Frontmatter.FirstClosing | scripts/ecosystem/sync_content.py:31 | the lazy `.*?` stops at the first closing `\n---\s*\n` |
| Frontmatter.Match | scripts/ecosystem/sync_content.py:31 | a match is an opening line, a closing line, and no earlier closing line between them |
| Frontmatter.MatchComplete | scripts/ecosystem/simplify_skills_metadata.py:27 | whenever any opening/closing pair exists, the match succeeds; it is leftmost and lazy, ties going to the longest `\s*` |
| Frontmatter.BodyShorter | remove_agent_frontmatter.py:22-32 | the text after a match is at least nine characters shorter than the file |
| Frontmatter.Keys | scripts/ecosystem/simplify_skills_metadata.py:103 | the key set of a metadata mapping is exactly its keys |
| Frontmatter.Get | scripts/ecosystem/simplify_skills_metadata.py:45-61 | lookup fails exactly for absent keys, and a found value is listed under that key |
| Normalize.UnifyNewlines | scripts/ecosystem/ecosystem_audit.py:151 | after replacing `\r\n` and `\r`, no carriage return remains |
| Normalize.NormalizeText | scripts/ecosystem/ecosystem_audit.py:150-157 | the loop computes the normalised text |
| Normalize.KeepLines | scripts/ecosystem/ecosystem_audit.py:152-156 | the loop keeps every line except `---` rules, each right-stripped |
| Normalize.KeptLinesClean | scripts/ecosystem/ecosystem_audit.py:153-156 | every kept line is break-free, right-stripped and not a rule |
| Normalize.NormalizedClean | scripts/ecosystem/ecosystem_audit.py:150-157 | normalised text has no carriage return, and each of its lines is clean |
| Normalize.NormalizeIdempotent | scripts/ecosystem/ecosystem_audit.py:150-157 | normalising normalised text changes nothing |
| Normalize.NormalizedText | scripts/ecosystem/ecosystem_audit.py:150-157 | `normalize_text`; the method `NormalizeText` computes it, `NormalizedClean` shows the result is clean, and `NormalizeIdempotent` shows a second pass changes nothing |
| Normalize.MirrorForm | scripts/ecosystem/ecosystem_audit.py:168-169 | the mirror form contains no platform token and no skill file name |
| Normalize.NormalizeForMirror | scripts/ecosystem/ecosystem_audit.py:168-169 | computes the mirror form, which is free of platform tokens |
| PlatformMarkers.Markers | scripts/ecosystem/ecosystem_audit.py:159-166 | marker normalisation removes every platform token and both skill file names |
| PlatformMarkers.MarkersAroundToken | scripts/ecosystem/ecosystem_audit.py:161-163 | a platform token becomes `{platform}/`, and the text on each side is normalised independently |
| PlatformMarkers.MarkersAroundSkill | scripts/ecosystem/ecosystem_audit.py:164-165 | `SKILL.md` or `SKILL.mdc` becomes `SKILL.core`, with each side normalised independently |
| PlatformMarkers.MarkersIgnorePlatform | scripts/ecosystem/ecosystem_audit.py:161-163 | texts that differ only in which platform token they name normalise equally |
| PlatformMarkers.MarkersIgnoreSkillName | scripts/ecosystem/ecosystem_audit.py:164-165 | texts that differ only in `SKILL.md` against `SKILL.mdc` normalise equally |
| PlatformMarkers.MarkersIdempotent | scripts/ecosystem/ecosystem_audit.py:159-166 | normalising markers twice is the same as once |
| PlatformMarkers.CoreKeepsOutTokens | scripts/ecosystem/ecosystem_audit.py:164-165 | the skill-name stage never creates a platform token |
| Identity.FirstUsable | scripts/ecosystem/ecosystem_audit.py:260-270 | the first stripped line that is not blank, a heading, a quote or a bullet |
| Identity.FirstIdentityLine | scripts/ecosystem/ecosystem_audit.py:259-271 | the loop returns the identity line of the body |
| Identity.IdentityLineBlank | scripts/ecosystem/ecosystem_audit.py:259-271 | the identity line is empty exactly when the body is all whitespace |
| Identity.IdentityLineFirstUsable | scripts/ecosystem/ecosystem_audit.py:260-270 | when a usable line exists, the identity is the first one, stripped |
| Identity.IdentityLineFallback | scripts/ecosystem/ecosystem_audit.py:271 | with no usable line, the identity is the first line of the stripped body, or empty for a blank body |
| Identity.ExtractIdentity | scripts/ecosystem/ecosystem_audit.py:273-277 | a non-blank string description wins, stripped; otherwise the body's identity line; empty exactly when both are blank |
| Identity.CleanLinkTarget | scripts/ecosystem/ecosystem_audit.py:318-322 | unwrap `<>` and spaces, keep web URLs whole, otherwise cut at the first space |
| Identity.CleanLinkTargetPlain | scripts/ecosystem/ecosystem_audit.py:318-322 | a target with no spaces or angle brackets is returned as is |
| Order.LessTotal | scripts/ecosystem/ecosystem_audit.py:871-879 | Python string order is total on distinct strings |
| Order.LessTransitive | scripts/ecosystem/ecosystem_audit.py:871-879 | Python string order is transitive |
| Order.LessIrreflexive | scripts/ecosystem/ecosystem_audit.py:871-879 | Python string order is irreflexive |
| Order.KeyLessTotal | scripts/ecosystem/ecosystem_audit.py:871-879 | the (rank, fields) tuple order is total |
| Order.KeyLessTransitive | scripts/ecosystem/ecosystem_audit.py:871-879 | the (rank, fields) tuple order is transitive |
| Order.Sort | scripts/ecosystem/ecosystem_audit.py:871-879 | `sorted(..., key=...)`: a permutation of the input, ordered by the key, and stable: for every key `k`, the elements with key `k` appear in their input order (`WithKey(r, key, k) == WithKey(s, key, k)`) |
| Order.InsertSorted | scripts/ecosystem/ecosystem_audit.py:871-879 | inserting into a sorted list keeps it sorted |
| Order.InsertKeepsKeyOrder | scripts/ecosystem/ecosystem_audit.py:871-879 | inserting into a sorted list places the new element after every element with an equal key, which is what makes `Sort` stable |
| Order.SortedUnique | scripts/ecosystem/isolation_lint.py:153 | `sorted(set(xs))`: the same elements, strictly increasing |
| SyncContent.RemapPaths | scripts/ecosystem/sync_content.py:49-50 | defined as the three-token prefix rewrite; that no foreign token remains is `RemapPathsKeepsOut`, and that every token becomes the target's is `RemapPathsAround` |
| SyncContent.RemapPathsKeepsOut | scripts/ecosystem/sync_content.py:49-50 | after the prefix rewrite, no foreign platform token remains |
| SyncContent.SkillRewritesKeepOut | scripts/ecosystem/sync_content.py:53-56 | the skill file rename never introduces a platform token |
| SyncContent.SkillToMdc | scripts/ecosystem/sync_content.py:53-54 | `re.sub(r'(?<!\w)SKILL\.md(?!\w)', 'SKILL.mdc', ...)`; that it adds no platform token is `SkillRewritesKeepOut`, and that no standalone `SKILL.md` remains for Cursor is in `RemapContent` |
| SyncContent.SkillToMd | scripts/ecosystem/sync_content.py:55-56 | `re.sub(r'(?<!\w)SKILL\.mdc(?!\w)', 'SKILL.md', ...)`; that it adds no platform token is `SkillRewritesKeepOut`, and that no standalone `SKILL.mdc` remains for other targets is in `RemapContent` |
| SyncContent.RemapContent | scripts/ecosystem/sync_content.py:45-58 | the remapped body names no foreign platform, and no standalone skill file name of the other flavour remains |
| SyncContent.RemapPathsAround | scripts/ecosystem/sync_content.py:49-50 | any platform token in the text becomes the target's token, and the rest is rewritten piecewise |
| SyncContent.RemapIdempotent | scripts/ecosystem/sync_content.py:45-58 | remapping an already remapped body changes nothing |
| SyncContent.ForeignIn | scripts/ecosystem/sync_content.py:63 | the foreign platforms found in the text, in platform order |
| SyncContent.Violations | scripts/ecosystem/sync_content.py:61-64 | exactly the other platforms whose token occurs, in platform order |
| SyncContent.EnsureIsolation | scripts/ecosystem/sync_content.py:61-66 | passes exactly when no foreign token occurs; otherwise the message names the violations |
| SyncContent.RemapPassesIsolation | scripts/ecosystem/sync_content.py:117-118 | a remapped body always passes the isolation check, so the raise is unreachable |
| SyncContent.ExtractParts | scripts/ecosystem/sync_content.py:16-42 | read failure, no frontmatter and malformed frontmatter each give their own result; otherwise the metadata is what YAML loads from the matched group |
| SyncContent.WriteThenExtract | scripts/ecosystem/sync_content.py:69-85 | extracting what `write_file` wrote gives back the metadata and the body |
| SyncContent.FileText | scripts/ecosystem/sync_content.py:72-78 | without metadata, or with empty metadata, the text is the body itself; otherwise it opens with `---\n` and ends with the body. Reading it back is `WriteThenExtract` |
| SyncContent.WrittenMatch | scripts/ecosystem/sync_content.py:72-78 | the frontmatter written by `write_file` is matched at the expected positions |
| SyncContent.SyncTarget | scripts/ecosystem/sync_content.py:113-138 | a missing target is skipped, and a present one is never rejected |
| SyncContent.SyncKeepsMetadata | scripts/ecosystem/sync_content.py:113-124 | after a sync the target keeps its own metadata and carries the remapped source body |
| SyncContent.SyncWritten | scripts/ecosystem/sync_content.py:174-199 | the written file is the target's metadata with the remapped source body |
| FixCrossPlatformRefs.Others | scripts/ecosystem/fix_cross_platform_refs.py:20 | exactly the platforms other than the current one |
| FixCrossPlatformRefs.Without | scripts/ecosystem/fix_cross_platform_refs.py:20 | filtering keeps exactly the listed platforms other than the excluded one |
| FixCrossPlatformRefs.FixedTextClean | scripts/ecosystem/fix_cross_platform_refs.py:20-29 | the fixed text names no other platform, and for Cursor has no `/SKILL.md` left |
| FixCrossPlatformRefs.SlashSkillFree | scripts/ecosystem/fix_cross_platform_refs.py:29 | after the Cursor rename, no unguarded `/SKILL.md` remains |
| FixCrossPlatformRefs.FixedTextOmits | scripts/ecosystem/fix_cross_platform_refs.py:20-25 | the fixed text does not contain any other platform's token |
| FixCrossPlatformRefs.SlashSkillKeepsOut | scripts/ecosystem/fix_cross_platform_refs.py:29 | the Cursor rename introduces no platform token |
| FixCrossPlatformRefs.FixFileReferences | scripts/ecosystem/fix_cross_platform_refs.py:10-42 | reports a change exactly when the file was read, the fix changes it and the write succeeds; what it writes is the fixed text |
| FixCrossPlatformRefs.WithoutOwnToken | scripts/ecosystem/fix_cross_platform_refs.py:20-25 | leaving the current platform out of the loop makes no difference |
| FixCrossPlatformRefs.SameAsRemapPaths | scripts/ecosystem/fix_cross_platform_refs.py:20-25 | the prefix rewrite is the same as the sync script's prefix rewrite |
| FixCrossPlatformRefs.FixedAround | scripts/ecosystem/fix_cross_platform_refs.py:20-25 | outside Cursor, any platform token becomes the current one, and each side is fixed independently |
| FixCrossPlatformRefs.UnchangedIff | scripts/ecosystem/fix_cross_platform_refs.py:31-33 | a file is left alone exactly when it names no other platform and, for Cursor, has no `/SKILL.md` |
| FixCrossPlatformRefs.FixTwice | scripts/ecosystem/fix_cross_platform_refs.py:19-33 | running the fix on its own output reports no change |
| RemoveAgentFrontmatter.RemoveFrontmatter | remove_agent_frontmatter.py:10-39 | removes exactly when the file was read, the frontmatter matched and the write succeeded; files without `---` are untouched |
| RemoveAgentFrontmatter.RemovedIsBodyAfterFirstClosing | remove_agent_frontmatter.py:22-28 | the kept text is what follows the first closing rule, and it is strictly shorter |
| RemoveAgentFrontmatter.RemovedWhenClosed | remove_agent_frontmatter.py:22-32 | any file with an opening and a closing rule is rewritten |
| AuditIssues.Bump | scripts/ecosystem/ecosystem_audit.py:131-133 | incrementing a counter raises exactly that key by one |
| AuditIssues.AddCounts | scripts/ecosystem/ecosystem_audit.py:131-133 | each counter rises by the number of the three issue keys it equals |
| AuditIssues.AddCountsExactlyThree | scripts/ecosystem/ecosystem_audit.py:131-133 | with distinct keys, exactly the severity, category and code counters rise by one, and nothing else changes |
| AuditIssues.HitsOnIssueKeys | scripts/ecosystem/ecosystem_audit.py:131-133 | an issue only ever touches `*_issues` and `code_*` counters |
| AuditIssues.TallySnoc | scripts/ecosystem/ecosystem_audit.py:131-133 | counting over one more issue adds that issue's hits |
| AuditIssues.TallyConcat | scripts/ecosystem/ecosystem_audit.py:131-133 | counts over two batches of issues add up |
| AuditIssues.TallyCritical | scripts/ecosystem/ecosystem_audit.py:961 | the `critical_issues` count is positive exactly when some issue is critical by severity or category |
| AuditIssues.HitsCritical | scripts/ecosystem/ecosystem_audit.py:131 | one issue counts towards `critical_issues` exactly when it is critical |
| AuditIssues.SeverityRank | scripts/ecosystem/ecosystem_audit.py:80 | rank 0 is critical and nothing else; unknown severities rank 99 |
| AuditIssues.ReportOrder | scripts/ecosystem/ecosystem_audit.py:871-879 | a permutation of the issues ordered by severity rank, then category, code and location; issues equal in all four keep their recorded order |
| AuditIssues.ReportOrderCriticalFirst | scripts/ecosystem/ecosystem_audit.py:871-879 | if any issue is critical, the report starts with a critical one |
| AuditIssues.Find | scripts/ecosystem/ecosystem_audit.py:181 | finds the identity registered under a name, or none when no entry has that name |
| AuditIssues.Register | scripts/ecosystem/ecosystem_audit.py:174-185 | blank identities and already registered names are ignored; otherwise the stripped identity is recorded and nothing else changes |
| AuditIssues.RegisterWellFormed | scripts/ecosystem/ecosystem_audit.py:174-185 | registration keeps categories distinct, ordered and listed, and names distinct within each category |
| AuditIssues.FindAppend | scripts/ecosystem/ecosystem_audit.py:185 | appending a new name makes it findable and changes no other lookup |
| AuditIssues.RegisterFirstWins | scripts/ecosystem/ecosystem_audit.py:180-185 | the first identity registered for a name is kept, and later ones are ignored |
| AuditIssues.Collapse | scripts/ecosystem/ecosystem_audit.py:797 | `re.sub(r"\s+", " ", ...)`: every whitespace run becomes one space |
| AuditIssues.CollapseIdempotent | scripts/ecosystem/ecosystem_audit.py:797 | collapsing whitespace twice is the same as once |
| AuditIssues.Cleaned | scripts/ecosystem/ecosystem_audit.py:796-800 | only entries with non-empty cleaned text are kept |
| AuditIssues.CleanText | scripts/ecosystem/ecosystem_audit.py:797 | `re.sub(r"\s+", " ", text.strip().lower())`; whitespace collapse is `Collapse` and `CollapseIdempotent`, and the entries kept are those of `Cleaned` |
| AuditIssues.GroupIndex | scripts/ecosystem/ecosystem_audit.py:805-807 | finds the group for a text, or the position after the last group |
| AuditIssues.GroupsSpec | scripts/ecosystem/ecosystem_audit.py:805-807 | grouping by text gives distinct texts, each text's names in input order, and every entry covered |
| AuditIssues.Groups | scripts/ecosystem/ecosystem_audit.py:805-807 | `by_text`: its shape (distinct texts, names in input order, every entry in its group) is `GroupsSpec` |
| AuditIssues.GroupIssuesComplete | scripts/ecosystem/ecosystem_audit.py:809-818 | every reported group yields its duplicate issue |
| AuditIssues.GroupIssuesSound | scripts/ecosystem/ecosystem_audit.py:809-818 | every duplicate issue comes from a reported group |
| AuditIssues.DuplicateFound | scripts/ecosystem/ecosystem_audit.py:805-818 | two entries sharing a cleaned text longer than 20 characters are reported, with all names sharing it |
| AuditIssues.DuplicateSound | scripts/ecosystem/ecosystem_audit.py:805-818 | every duplicate issue is for a text over 20 characters shared by at least two names |
| AuditIssues.DuplicateIssue | scripts/ecosystem/ecosystem_audit.py:811-818 | the medium `duplicate_identity_text` issue located at `category: names`, with the names sorted and distinct; its use is proved in `DuplicateFound` and `DuplicateSound` |
| AuditIssues.DuplicateIssues | scripts/ecosystem/ecosystem_audit.py:795-818 | one category's duplicate issues: complete by `DuplicateFound` and `GroupIssuesComplete`, sound by `DuplicateSound`, `GroupIssuesSound` and `GroupsSound` |
| AuditIssues.GroupsSound | scripts/ecosystem/ecosystem_audit.py:809-818 | issues over the computed groups name a shared long text and all its names |
| AuditIssues.LongLineCount | scripts/ecosystem/ecosystem_audit.py:284 | counts lines over 220 characters; zero exactly when none is that long |
| AuditIssues.ClarityIssues | scripts/ecosystem/ecosystem_audit.py:279-303 | at most two low clarity issues at the file's location; none for an empty body |
| AuditIssues.ClarityTriggers | scripts/ecosystem/ecosystem_audit.py:279-303 | long lines are reported exactly when more than 5 lines exceed 220 characters; long files exactly for commands or rules over 280 lines |
| AuditIssues.Where | scripts/ecosystem/ecosystem_audit.py:481-482 | the platforms that have, or that lack, an asset key |
| AuditIssues.WherePartition | scripts/ecosystem/ecosystem_audit.py:481-482 | every platform is either present or missing for a key |
| AuditIssues.MissingIssues | scripts/ecosystem/ecosystem_audit.py:484-496 | one missing-asset issue per missing platform, in platform order |
| AuditIssues.CompareIssues | scripts/ecosystem/ecosystem_audit.py:498-527 | at most one issue, none below two copies, never a missing-asset issue |
| AuditIssues.CompareIssuesCases | scripts/ecosystem/ecosystem_audit.py:498-527 | with two or more copies, a mismatch issue is raised exactly when the compared forms differ |
| AuditIssues.Mismatch | scripts/ecosystem/ecosystem_audit.py:498-517 | `SKILL` bodies compared after frontmatter and mirror normalisation, all-text assets after mirror normalisation, others byte for byte; `CompareIssuesCases` ties it to the issue |
| AuditIssues.MismatchIssue | scripts/ecosystem/ecosystem_audit.py:519-527 | the high `skill_asset_content_mismatch` issue, or for `SKILL` the `content_mismatch` issue that `compare_mirrored_bodies` reports (lines 394-401), at the joined platform locations; `CompareIssues` proves it is at most one and never a missing issue |
| AuditIssues.AllKeysPresent | scripts/ecosystem/ecosystem_audit.py:476-480 | every key in the union of assets is present on at least one platform |
| AuditIssues.KeyIssuesCount | scripts/ecosystem/ecosystem_audit.py:480-499 | a key gets one issue per missing platform, plus at most one mismatch |
| AuditIssues.KeyIssuesMissingFirst | scripts/ecosystem/ecosystem_audit.py:480-527 | missing-asset issues come first, in platform order, followed only by comparison issues |
| AuditIssues.MissingCount | scripts/ecosystem/ecosystem_audit.py:481-482 | present and missing platforms of a known key add up to three |
| AuditIssues.KeyIssuesShape | scripts/ecosystem/ecosystem_audit.py:480-527 | a key's issues are its missing issues followed by its comparison issues |
| AuditIssues.KeyIssues | scripts/ecosystem/ecosystem_audit.py:480-527 | one key's issues: counted by `KeyIssuesCount`, ordered by `KeyIssuesMissingFirst` and `KeyIssuesShape`, none missing for a key held everywhere by `KeyEverywhere` |
| AuditIssues.AssetIssues | scripts/ecosystem/ecosystem_audit.py:475-527 | every asset key's issues in sorted key order; every key compared is present somewhere by `AllKeysPresent`, and the method `CompareSkillAssets` appends exactly these |
| AuditIssues.KeyEverywhere | scripts/ecosystem/ecosystem_audit.py:484 | a key held by all platforms never yields a missing-asset issue |
| EcosystemAudit.GroupKeysAreNotIssueKeys | scripts/ecosystem/ecosystem_audit.py:412 | the group counters never collide with issue counters |
| EcosystemAudit.EcosystemAuditor.constructor | scripts/ecosystem/ecosystem_audit.py:105-111 | starts with no issues, no counters and no descriptors |
| EcosystemAudit.EcosystemAuditor.AddIssue | scripts/ecosystem/ecosystem_audit.py:113-133 | appends the issue with its location made relative, bumps its severity, category and code counters, and leaves every other counter as it was |
| EcosystemAudit.EcosystemAuditor.SetGroupCount | scripts/ecosystem/ecosystem_audit.py:412 | sets one group counter and leaves issues and descriptors alone |
| EcosystemAudit.EcosystemAuditor.RegisterDescriptor | scripts/ecosystem/ecosystem_audit.py:174-185 | updates the registry as `Register` does, and nothing else |
| EcosystemAudit.EcosystemAuditor.DetectClarityIssues | scripts/ecosystem/ecosystem_audit.py:279-303 | appends exactly the clarity issues of the body, and leaves every counter that is not an issue counter, such as the `*_groups` coverage counters, as it was |
| EcosystemAudit.EcosystemAuditor.RecordLongLines | scripts/ecosystem/ecosystem_audit.py:284-293 | appends the long-lines issue when more than 5 lines are too long, and leaves every counter that is not an issue counter, such as the `*_groups` coverage counters, as it was |
| EcosystemAudit.EcosystemAuditor.RecordLongFile | scripts/ecosystem/ecosystem_audit.py:295-303 | appends the long-file issue for long commands and rules, and leaves every counter that is not an issue counter, such as the `*_groups` coverage counters, as it was |
| EcosystemAudit.EcosystemAuditor.CompareSkillAssets | scripts/ecosystem/ecosystem_audit.py:475-527 | appends the asset issues of every key, in sorted key order, and leaves every counter that is not an issue counter, such as the `*_groups` coverage counters, as it was |
| EcosystemAudit.EcosystemAuditor.RecordKeys | scripts/ecosystem/ecosystem_audit.py:480-527 | the loop over keys appends each key's issues in order, and leaves every counter that is not an issue counter, such as the `*_groups` coverage counters, as it was |
| EcosystemAudit.EcosystemAuditor.RecordKey | scripts/ecosystem/ecosystem_audit.py:481-527 | appends one key's missing and mismatch issues, and leaves every counter that is not an issue counter, such as the `*_groups` coverage counters, as it was |
| EcosystemAudit.EcosystemAuditor.RecordMissing | scripts/ecosystem/ecosystem_audit.py:484-496 | appends one missing-asset issue per missing platform, and leaves every counter that is not an issue counter, such as the `*_groups` coverage counters, as it was |
| EcosystemAudit.EcosystemAuditor.RecordMismatch | scripts/ecosystem/ecosystem_audit.py:498-527 | appends the content mismatch issue when mirrored copies differ, and leaves every counter that is not an issue counter, such as the `*_groups` coverage counters, as it was |
| EcosystemAudit.EcosystemAuditor.AuditUniqueness | scripts/ecosystem/ecosystem_audit.py:794-818 | appends duplicate-identity issues for every category, in registration order, and leaves every counter that is not an issue counter, such as the `*_groups` coverage counters, as it was |
| EcosystemAudit.EcosystemAuditor.RecordDuplicates | scripts/ecosystem/ecosystem_audit.py:796-818 | appends one category's duplicate issues, and leaves every counter that is not an issue counter, such as the `*_groups` coverage counters, as it was |
| EcosystemAudit.EcosystemAuditor.RecordGroup | scripts/ecosystem/ecosystem_audit.py:809-818 | appends a duplicate issue exactly for a reported group, and leaves every counter that is not an issue counter, such as the `*_groups` coverage counters, as it was |
| EcosystemAudit.EcosystemAuditor.ExitCode | scripts/ecosystem/ecosystem_audit.py:961 | 1 exactly when a recorded issue is critical, otherwise 0 |
| LintIssues.CodeDeterminesKind | scripts/ecosystem/isolation_lint.py:66-135 | distinct issue kinds have distinct codes |
| LintIssues.ForeignIssuesMatch | scripts/ecosystem/isolation_lint.py:66-75 | one foreign-token issue per foreign platform found, in order |
| LintIssues.ForeignIssues | scripts/ecosystem/isolation_lint.py:66-75 | the issues of the token scan: one per foreign platform found, in order (`ForeignIssuesMatch`), exactly for the foreign tokens present (`ForeignPlatformsExact`), high with the own platform in the fix (`ForeignIssuesKind`), at most two (`ForeignIssuesAtMostTwo`) |
| LintIssues.ForeignPlatformsExact | scripts/ecosystem/isolation_lint.py:66-69 | a platform is reported exactly when it is another platform and its token occurs |
| LintIssues.ForeignPlatformsOrdered | scripts/ecosystem/isolation_lint.py:66 | reported platforms follow the platform order without repeats |
| LintIssues.ForeignIssuesKind | scripts/ecosystem/isolation_lint.py:70-75 | all foreign issues are high and name the file's own platform in the fix |
| LintIssues.ForeignIssuesAtMostTwo | scripts/ecosystem/isolation_lint.py:66-69 | a file gets at most two foreign-token issues |
| LintIssues.NextIndex | scripts/ecosystem/isolation_lint.py:78 | the first position of a character at or after a point, or the end |
| LintIssues.LinkAt | scripts/ecosystem/isolation_lint.py:78 | a link match at a position captures a non-empty target inside the text |
| LintIssues.Links | scripts/ecosystem/isolation_lint.py:78-79 | every captured target is non-empty and free of `)` |
| LintIssues.LinkAtWritten | scripts/ecosystem/isolation_lint.py:78 | `[text](target)` at a position is matched, capturing exactly `target` |
| LintIssues.LocalTarget | scripts/ecosystem/isolation_lint.py:80-88 | external and anchor links are skipped; a local target is stripped, fragment-free and non-empty |
| LintIssues.LocalTargetFragment | scripts/ecosystem/isolation_lint.py:86 | a `#fragment` does not change the local target |
| LintIssues.LocalTargetPlain | scripts/ecosystem/isolation_lint.py:80-88 | a plain relative target is kept, stripped |
| LintIssues.FoundLinks | scripts/ecosystem/isolation_lint.py:79-80 | one classified link per regex match, in order |
| LintIssues.Classify | scripts/ecosystem/isolation_lint.py:80-88 | strips, unwraps `<>` and strips the captured target, then applies `LocalTarget`; external and anchor links are dropped by `ExternalLinkIgnored`, a fragment is cut by `LocalTargetFragment` |
| LintIssues.LinkIssueCases | scripts/ecosystem/isolation_lint.py:90-108 | a local link is reported exactly when it escapes or is absent; escaping wins over broken |
| LintIssues.LinkIssue | scripts/ecosystem/isolation_lint.py:90-108 | the issue for one classified link: escape before broken, exactly when `LinkIssueCases` says, at most one high issue by `LinkIssueShape` |
| LintIssues.LinkIssueShape | scripts/ecosystem/isolation_lint.py:90-108 | each link yields at most one high escape-or-broken issue |
| LintIssues.LinkIssuesBound | scripts/ecosystem/isolation_lint.py:90-108 | no more link issues than links, all high, all escape-or-broken |
| LintIssues.ExternalLinkIgnored | scripts/ecosystem/isolation_lint.py:83-84 | web, mail, phone and anchor links are never reported |
| LintIssues.EntryIssuesFilter | scripts/ecosystem/isolation_lint.py:121-141 | directories and non-text files yield nothing; non-markdown text yields only token issues |
| LintIssues.TextIssues | scripts/ecosystem/isolation_lint.py:139-141 | the token issues, then for `.md` and `.mdc` the link issues; `EntryIssuesFilter` shows non-markdown text gets only the token issues, and the method `LintText` appends exactly these |
| LintIssues.UpperCaseSuffix | scripts/ecosystem/isolation_lint.py:124 | the suffix test is case-insensitive: `X.MD` counts as markdown |
| LintIssues.EntryIssuesHigh | scripts/ecosystem/isolation_lint.py:53-61 | every issue of a file is high severity |
| LintIssues.MissingDirectoryLocation | scripts/ecosystem/isolation_lint.py:112-119 | a missing platform tree yields one issue located at the platform's own name |
| LintIssues.PlatformIssues | scripts/ecosystem/isolation_lint.py:110-141 | a missing tree gives one issue at the platform's name (`MissingDirectoryLocation`, `MissingTreeReported`); otherwise every entry's issues in walk order, as the method `LintPlatform` appends |
| LintIssues.Targets | scripts/ecosystem/isolation_lint.py:144 | one requested platform, or all three |
| LintIssues.RunOnePlatform | scripts/ecosystem/isolation_lint.py:143-146 | a run for one platform gives exactly that platform's issues |
| LintIssues.MissingTreeReported | scripts/ecosystem/isolation_lint.py:143-146 | every missing target tree is reported |
| LintIssues.Codes | scripts/ecosystem/isolation_lint.py:153 | the code of each issue, in order |
| LintIssues.Summarize | scripts/ecosystem/isolation_lint.py:149-154 | the issue count, and the distinct codes that occur, sorted |
| LintIssues.ExitCode | scripts/ecosystem/isolation_lint.py:147 | 1 exactly when there are issues, otherwise 0 |
| IsolationLint.IsolationLinter.constructor | scripts/ecosystem/isolation_lint.py:38-43 | starts with no issues for the given workspace |
| IsolationLint.IsolationLinter.AddIssue | scripts/ecosystem/isolation_lint.py:45-61 | appends one high issue with its location made relative |
| IsolationLint.IsolationLinter.ScanTextForForeignTokens | scripts/ecosystem/isolation_lint.py:63-75 | the loop over platforms appends exactly the foreign-token issues |
| IsolationLint.IsolationLinter.CheckMarkdownLinks | scripts/ecosystem/isolation_lint.py:77-108 | the loop over matches appends exactly the link issues |
| IsolationLint.IsolationLinter.CheckLink | scripts/ecosystem/isolation_lint.py:80-108 | appends the issue for one captured link |
| IsolationLint.IsolationLinter.LintEntry | scripts/ecosystem/isolation_lint.py:121-141 | appends exactly the issues of one walked entry |
| IsolationLint.IsolationLinter.LintText | scripts/ecosystem/isolation_lint.py:139-141 | appends token issues, then link issues for markdown |
| IsolationLint.IsolationLinter.LintPlatform | scripts/ecosystem/isolation_lint.py:110-141 | appends the missing-tree issue or the issues of every entry |
| IsolationLint.IsolationLinter.Run | scripts/ecosystem/isolation_lint.py:143-147 | lints every target in order; returns 1 exactly when any issue was recorded |
| IsolationLint.IsolationLinter.Summary | scripts/ecosystem/isolation_lint.py:149-154 | counts all recorded issues and lists exactly their codes |
| SimplifySkillsMetadata.ExtractCases | scripts/ecosystem/simplify_skills_metadata.py:14-38 | no metadata exactly for unreadable or unparsable files; files without `---` give empty metadata and the whole text |
| SimplifySkillsMetadata.ExtractMetadataAndContent | scripts/ecosystem/simplify_skills_metadata.py:14-38 | `extract_metadata_and_content`; its four outcomes are `ExtractCases`, its agreement with the sync reader `ExtractAgrees`, and reading back a written file `WriteThenExtract` |
| SimplifySkillsMetadata.ExtractAgrees | scripts/ecosystem/simplify_skills_metadata.py:27-35 | on non-empty metadata, extraction agrees with the sync script's |
| SimplifySkillsMetadata.WriteThenExtract | scripts/ecosystem/simplify_skills_metadata.py:66-83 | extracting what `write_skill_file` wrote gives back the metadata and the body |
| SimplifySkillsMetadata.KeyList | scripts/ecosystem/simplify_skills_metadata.py:71 | the keys of a mapping in their order |
| SimplifySkillsMetadata.PresentKeys | scripts/ecosystem/simplify_skills_metadata.py:44-61 | the allow-listed keys present in the metadata |
| SimplifySkillsMetadata.KeysAppend | scripts/ecosystem/simplify_skills_metadata.py:44-61 | the keys of a concatenation are the union of the keys |
| SimplifySkillsMetadata.KeepKeys | scripts/ecosystem/simplify_skills_metadata.py:44-61 | keeping keys gives exactly the listed keys that are present, with their original values |
| SimplifySkillsMetadata.KeepOrder | scripts/ecosystem/simplify_skills_metadata.py:44-61 | kept keys appear in allow-list order |
| SimplifySkillsMetadata.KeepAgrees | scripts/ecosystem/simplify_skills_metadata.py:44-61 | the result depends only on the allow-listed values |
| SimplifySkillsMetadata.KeepIdempotent | scripts/ecosystem/simplify_skills_metadata.py:44-61 | keeping keys twice is the same as once |
| SimplifySkillsMetadata.SimplifyAllowList | scripts/ecosystem/simplify_skills_metadata.py:40-64 | the agent keeps description and name; Claude and Cursor keep name, description and license; other platforms keep everything |
| SimplifySkillsMetadata.SimplifyMetadata | scripts/ecosystem/simplify_skills_metadata.py:40-64 | `simplify_metadata`; which keys it keeps is `SimplifyAllowList`, their values `SimplifyValues`, their order `SimplifyOrder`, and a second pass changing nothing `SimplifyIdempotent` |
| SimplifySkillsMetadata.SimplifyValues | scripts/ecosystem/simplify_skills_metadata.py:45-61 | every kept key keeps its original value |
| SimplifySkillsMetadata.SimplifyOrder | scripts/ecosystem/simplify_skills_metadata.py:44-61 | kept keys come out in allow-list order |
| SimplifySkillsMetadata.SimplifyIdempotent | scripts/ecosystem/simplify_skills_metadata.py:40-64 | simplifying twice is the same as once |
| SimplifySkillsMetadata.Dropped | scripts/ecosystem/simplify_skills_metadata.py:122 | exactly the keys present before and absent after |
| SimplifySkillsMetadata.UnparsableLeftAlone | scripts/ecosystem/simplify_skills_metadata.py:97-100 | unreadable or unparsable skill files are reported as YAML errors and not written |
| SimplifySkillsMetadata.CleanIff | scripts/ecosystem/simplify_skills_metadata.py:103-114 | a skill is reported already clean exactly when its keys are within the required and optional set |
| SimplifySkillsMetadata.ModifiedReport | scripts/ecosystem/simplify_skills_metadata.py:116-125 | a modified skill lists exactly the removed keys, sorted, and writes the simplified metadata over the same body |
| SimplifySkillsMetadata.ProcessSkill | scripts/ecosystem/simplify_skills_metadata.py:85-125 | `process_skill`: unparsable files are left alone (`UnparsableLeftAlone`), "already clean" exactly for keys within the allowed set (`CleanIff`), otherwise the sorted removed keys and the simplified file (`ModifiedReport`), and a rerun is clean (`RerunClean`) |
| SimplifySkillsMetadata.AgentLicenseQuirk | scripts/ecosystem/simplify_skills_metadata.py:103-123 | an agent skill whose only extra key is license stays; with any other extra key, license is dropped too |
| SimplifySkillsMetadata.RerunClean | scripts/ecosystem/simplify_skills_metadata.py:66-114 | processing a simplified file again reports it clean |
| AddMcpReferences.ReferenceChoice | scripts/ecosystem/add_mcp_references.py:61-68 | each skill list selects its own block, and unlisted skills get none |
| AddMcpReferences.ReferenceFor | scripts/ecosystem/add_mcp_references.py:61-68 | the block a skill gets: `BOTH_SKILLS` first, then `CONTEXT7_SKILLS`, then `SEQUENTIAL_THINKING_SKILLS`; `ReferenceChoice` and `SkillListsDisjoint` show each list decides alone |
| AddMcpReferences.SkillListsDisjoint | scripts/ecosystem/add_mcp_references.py:11-27 | the three skill lists share no skill |
| AddMcpReferences.BlockIsReference | scripts/ecosystem/add_mcp_references.py:29-45 | every inserted block is recognised as an MCP reference |
| AddMcpReferences.HasMcpReference | scripts/ecosystem/add_mcp_references.py:43-45 | `has_mcp_reference`: any of the three marker strings; every inserted block has one (`BlockIsReference`), so a second run skips the file (`SecondRunUnchanged`) |
| AddMcpReferences.SeparatorEnd | scripts/ecosystem/add_mcp_references.py:74 | `^---\s*$` in multiline mode: a rule at a line start, ending at a line end or the end of the text |
| AddMcpReferences.FindSeparator | scripts/ecosystem/add_mcp_references.py:74 | the leftmost separator from a position, or none |
| AddMcpReferences.SplitParts | scripts/ecosystem/add_mcp_references.py:74 | `re.split(..., maxsplit=2)` gives one to three parts |
| AddMcpReferences.SplitKeepsText | scripts/ecosystem/add_mcp_references.py:74-83 | the corrected split, which treats two rules as frontmatter only when the first one opens the file, loses no non-space character of the file |
| AddMcpReferences.SplitAsWrittenDrops | scripts/ecosystem/add_mcp_references.py:74-83 | the split as written keeps a file with fewer than two rules whole; otherwise the rebuilt frontmatter and body hold exactly the file's non-space text minus that of `parts[0]`, the text before the first rule |
| AddMcpReferences.SplitAsWrittenKeepsIff | scripts/ecosystem/add_mcp_references.py:74-83 | the split as written keeps every non-space character exactly when the file has fewer than two rules or only whitespace before the first rule |
| AddMcpReferences.FirstHeading | scripts/ecosystem/add_mcp_references.py:89-92 | the first `#` or `##` heading line, or none |
| AddMcpReferences.SkipBlank | scripts/ecosystem/add_mcp_references.py:93-95 | skips blank lines to the first non-blank line or the end |
| AddMcpReferences.InsertIndexSpec | scripts/ecosystem/add_mcp_references.py:86-96 | insertion is at the top without a heading, else after the first heading and the blank lines after it |
| AddMcpReferences.FindInsertIndex | scripts/ecosystem/add_mcp_references.py:86-96 | the loop finds the insertion index |
| AddMcpReferences.InsertBlock | scripts/ecosystem/add_mcp_references.py:74-103 | the file is split as written, and the two inserts place the block and a blank line at the insertion index of the body |
| AddMcpReferences.InsertTwice | scripts/ecosystem/add_mcp_references.py:99-100 | inserting `a` and then `b` after it equals inserting `[a, b]` |
| AddMcpReferences.AddMcpReference | scripts/ecosystem/add_mcp_references.py:47-112 | writes exactly the as-written update `McpUpdate` for a readable file when the write succeeds, and reports a change exactly when it writes |
| AddMcpReferences.UpdateSkips | scripts/ecosystem/add_mcp_references.py:56-68 | no update exactly when the file already has a reference or the skill is not listed, and the corrected update skips the same files |
| AddMcpReferences.McpUpdate | scripts/ecosystem/add_mcp_references.py:56-103 | the text the script writes, over the split as written: skipped exactly as `UpdateSkips` says, shaped as `UpdateInsertsTwoLines` says, and losing the text before the first rule as `LeadingTextLost` shows |
| AddMcpReferences.UpdateAgrees | scripts/ecosystem/add_mcp_references.py:74-83 | the as-written and the corrected update agree on every file with fewer than two rules or whose first rule opens it |
| AddMcpReferences.SecondRunUnchanged | scripts/ecosystem/add_mcp_references.py:57-58 | the file written by either update has a reference, so a second run leaves it alone |
| AddMcpReferences.UpdateInsertsTwoLines | scripts/ecosystem/add_mcp_references.py:74-103 | the update as written is the kept lines with the block and a blank line inserted; the kept text is the whole file without frontmatter, and otherwise all its non-space text but that of `parts[0]` |
| AddMcpReferences.UpdateInsertsTwoLinesIntended | scripts/ecosystem/add_mcp_references.py:74-103 | the corrected update is the file's lines with the block and a blank line inserted, keeping all non-space text |
| AddMcpReferences.LeadingTextLost | scripts/ecosystem/add_mcp_references.py:74-103 | for a listed skill and `# T\n---\nx\n---\ny`, the script writes `---\nx\n---\n`, the block, then `\n\n\ny`, losing the heading; the corrected update writes the heading, the block and then the untouched rest |

## Left out

- The `main()` drivers, argument parsing, printing and the report writers are not modelled. This covers `write_report`, the JSON and Markdown rendering at `ecosystem_audit.py:881-950`, and the per-run counters printed by the sync, simplify, MCP, fix and remove scripts. They are I/O only.
- The file system is not modelled directly. Reads are `FileRead` values, a write failure is the `writeOk` flag, and directory walks are `Entry` sequences or `AssetMap` values. Link resolution is the `escapes` and `present` predicates. Exceptions are modelled only as read or write failures.
- YAML parsing and dumping are the `load` and `dump` parameters. A `safe_load` that returns a list or a scalar rather than a mapping is not modelled.
- Character classes follow ASCII: `\w` is ASCII word characters and `lower()` maps only A–Z. `\s` and `strip()` use Python's whitespace set. Unicode case folding is not modelled.
- `ecosystem_audit.py` walkers and their helpers are not modelled. This covers `parse_frontmatter` (`ecosystem_audit.py:187-240`), `has_heading`, `check_cross_platform_tokens`, the auditor's own `check_markdown_links`, `compare_mirrored_bodies`, `collect_skill_assets`, `audit_skill_script_usage`, and the directory walks of `audit_agents`, `audit_skills`, `audit_commands` and `audit_rules`. They are file-system walks over the same primitives. Their counters appear only as `SetGroupCount`, and the model takes asset bodies as already parsed.
- `EcosystemAudit.EcosystemAuditor.CompareSkillAssets` takes the assets as already read and parsed, so it leaves out the read and parse issues the source raises again while comparing. For the `SKILL` key, `compare_mirrored_bodies` runs `parse_frontmatter` on every copy once more (`scripts/ecosystem/ecosystem_audit.py:389`). That can add a second `file_read_error`, `malformed_frontmatter`, `frontmatter_not_mapping` or `frontmatter_yaml_error` issue (`scripts/ecosystem/ecosystem_audit.py:187-240`) before the mismatch issue. For binary assets, `file_bytes` adds `file_read_error` for an unreadable copy (`scripts/ecosystem/ecosystem_audit.py:242-254`).
- The SequenceMatcher similarity pass at `ecosystem_audit.py:820-842` is not modelled. It is a floating-point heuristic from the standard library.
- The auditor's `summary()` dictionary is not modelled. The model keeps only the counters it is built from.
- `sync_content.py` drivers are not modelled. `sync_agent_content`, `sync_skill_content` and `sync_command_content` are modelled per target file, by `SyncTarget`. The loops over names and their counters are not.
- `build_release_bundles.py` is not part of this model. It is packaging only.
- `SimplifySkillsMetadata.SimplifyValues` requires distinct keys. A YAML mapping loaded by `safe_load` always has them.
- `AddMcpReferences.SplitKeepsText` and `AddMcpReferences.UpdateInsertsTwoLinesIntended` state that no non-space character is lost or added, not exact whitespace. The frontmatter rebuild writes `---\n` before a body that already begins with a newline, so the updated file gains one blank line after the frontmatter.
- `SyncContent.WriteThenExtract`, `SyncContent.SyncKeepsMetadata` and `SimplifySkillsMetadata.WriteThenExtract` are proved only for a dump that ends in a newline, contains no `\n---` and does not start with a space, and for a body that does not start with a blank line. The greedy `\s*` of the closing rule would otherwise swallow leading blank lines of the body.
- `FixCrossPlatformRefs.FixedAround` is stated only for platforms other than Cursor. For Cursor, the `/SKILL.md` rename may span the seam.

## Findings

| source | as written | input that shows it | evidently intended | confidence | as-written member | corrected member |
|---|---|---|---|---|---|---|
| scripts/ecosystem/add_mcp_references.py:74-83 | `re.split` on `^---\s*$` in multiline mode, with at most two splits, treats any two rule lines as frontmatter and then discards `parts[0]`, the text before the first rule | `# T\n---\nx\n---\ny`: the heading `# T` is dropped from the rewritten file | treat the split as frontmatter only when the file starts with the first rule (`parts[0]` empty), otherwise keep the whole file as body | not executed | AddMcpReferences.LeadingTextLost | AddMcpReferences.UpdateInsertsTwoLinesIntended |
