/** `EcosystemAuditor` of `scripts/ecosystem/ecosystem_audit.py`: the object that accumulates
    issues and metric counters while the audit walks the three platform trees, registers each
    file's identity text, and derives the exit code of `run`. The walks themselves read the file
    system and are not modelled; their inputs (file bodies, asset maps) are parameters here. */
module EcosystemAudit {
  import opened Text
  import opened Order
  import opened Platforms
  import opened Locations
  import opened PlatformMarkers
  import opened Normalize
  import opened Identity
  import opened AuditIssues

  /** The coverage counters that `audit_agents`, `audit_skills`, `audit_commands` and
      `audit_rules` set to the number of groups they found. */
  const GroupKeys: set<string> := {"agent_groups", "skill_groups", "command_groups", "rule_groups"}

  lemma GroupKeysAreNotIssueKeys(k: string)
    requires k in GroupKeys
    ensures !IsIssueKey(k)
  {
    assert k[|k| - 6..] == "groups";
    NotIssueKey(k);
  }

  /** A name ending in `groups` whose third letter is not `d` is neither kind of issue counter. */
  lemma NotIssueKey(k: string)
    requires |k| >= 7 && k[|k| - 6..] == "groups" && k[2] != 'd'
    ensures !IsIssueKey(k)
  {
    assert k[|k| - 7..][1] == k[|k| - 6..][0];
    assert k[..5][2] == k[2];
  }

  /** All duplicate issues of the categories in `cs`, category by category. */
  function CategoriesIssues(d: Descriptors, cs: seq<string>): seq<Issue>
    decreases |cs|
  {
    if cs == [] then []
    else
      var c := cs[|cs| - 1];
      CategoriesIssues(d, cs[..|cs| - 1]) + (if c in d.entries then DuplicateIssues(c, d.entries[c]) else [])
  }

  lemma CategoriesSnoc(d: Descriptors, cs: seq<string>, c: int)
    requires 0 <= c < |cs| && cs[c] in d.entries
    ensures CategoriesIssues(d, cs[..c + 1]) == CategoriesIssues(d, cs[..c]) + DuplicateIssues(cs[c], d.entries[cs[c]])
  {
    assert cs[..c + 1][..c] == cs[..c];
  }

  /** The `duplicate_identity_text` issues of `audit_uniqueness`, in category order. */
  function UniquenessIssues(d: Descriptors): seq<Issue> {
    CategoriesIssues(d, d.order)
  }

  class EcosystemAuditor {
    /** The resolved workspace, as its path components. */
    const workspace: seq<string>
    var issues: seq<Issue>
    var metrics: Counter
    var descriptors: Descriptors

    /** Every issue counter agrees with the issues recorded, and the registry is well formed. */
    ghost predicate Valid()
      reads this
    {
      && (forall k {:trigger Tally(issues, k)} :: IsIssueKey(k) ==> Count(metrics, k) == Tally(issues, k))
      && WellFormed(descriptors)
    }

    constructor(workspace: seq<string>)
      ensures Valid()
      ensures this.workspace == workspace && issues == [] && metrics == map[]
      ensures descriptors == Descriptors([], map[])
    {
      this.workspace := workspace;
      issues := [];
      metrics := map[];
      descriptors := Descriptors([], map[]);
    }

    /** `add_issue`: appends one issue, located relative to the workspace when possible, and
        bumps its severity, category and code counters. */
    method AddIssue(severity: string, category: string, code: string, location: Location, message: string, fix: string)
      requires Valid()
      modifies this
      ensures Valid()
      ensures issues == old(issues) + [Issue(severity, category, code, Rel(workspace, location), message, fix)]
      ensures metrics == AddCounts(old(metrics), severity, category, code)
      ensures descriptors == old(descriptors)
      ensures forall k :: !IsIssueKey(k) ==> Count(metrics, k) == Count(old(metrics), k)
    {
      var issue := Issue(severity, category, code, Rel(workspace, location), message, fix);
      forall k | IsIssueKey(k)
        ensures Tally(issues + [issue], k) == Tally(issues, k) + Hits(k, severity, category, code)
      {
        TallySnoc(issues, issue, k);
      }
      forall k | !IsIssueKey(k)
        ensures Hits(k, severity, category, code) == 0
      {
        HitsOnIssueKeys(k, severity, category, code);
      }
      issues := issues + [issue];
      metrics := Bump(metrics, severity + "_issues");
      metrics := Bump(metrics, category + "_issues");
      metrics := Bump(metrics, "code_" + code);
    }

    /** `self.metrics["agent_groups"] = len(agent_names)` and its three siblings. */
    method SetGroupCount(key: string, n: nat)
      requires Valid() && key in GroupKeys
      modifies this
      ensures Valid()
      ensures metrics == old(metrics)[key := n]
      ensures issues == old(issues) && descriptors == old(descriptors)
    {
      GroupKeysAreNotIssueKeys(key);
      metrics := metrics[key := n];
    }

    /** `register_descriptor`; the platform name the source also receives is unused. */
    method RegisterDescriptor(category: string, name: string, identity: string)
      requires Valid()
      modifies this
      ensures Valid()
      ensures descriptors == Register(old(descriptors), category, name, identity)
      ensures issues == old(issues) && metrics == old(metrics)
    {
      RegisterWellFormed(descriptors, category, name, identity);
      StripBlank(identity);
      var stripped := Strip(identity);
      if stripped == [] {
        return;
      }
      var existing := Entries(descriptors, category);
      if Find(existing, name).Some? {
        return;
      }
      ghost var registered := Recorded(descriptors, category, name, stripped);
      descriptors := Descriptors(Listed(descriptors, category), descriptors.entries[category := existing + [(name, stripped)]]);
      assert descriptors == registered;
    }

    /** `detect_clarity_issues`. */
    method DetectClarityIssues(body: string, category: string, location: Location)
      requires Valid()
      modifies this
      ensures Valid()
      ensures issues == old(issues) + ClarityIssues(body, category, Rel(workspace, location))
      ensures descriptors == old(descriptors)
      ensures forall k :: !IsIssueKey(k) ==> Count(metrics, k) == Count(old(metrics), k)
    {
      var lines := SplitLines(body);
      if |lines| == 0 {
        return;
      }
      RecordLongLines(lines, location);
      RecordLongFile(category, lines, location);
      AppendAssoc(old(issues), LongLinesIssues(lines, Rel(workspace, location)),
        LongFileIssues(category, lines, Rel(workspace, location)));
    }

    /** The `long_lines` check of `detect_clarity_issues`. */
    method RecordLongLines(lines: seq<string>, location: Location)
      requires Valid()
      modifies this
      ensures Valid()
      ensures issues == old(issues) + LongLinesIssues(lines, Rel(workspace, location))
      ensures descriptors == old(descriptors)
      ensures forall k :: !IsIssueKey(k) ==> Count(metrics, k) == Count(old(metrics), k)
    {
      var long := LongLineCount(lines);
      if long > 5 {
        AddIssue("low", "clarity", "long_lines", location,
          "File has " + NatToString(long) + " very long lines (>220 chars).",
          LongLinesFix);
      }
    }

    /** The `overly_long_instructions` check of `detect_clarity_issues`. */
    method RecordLongFile(category: string, lines: seq<string>, location: Location)
      requires Valid()
      modifies this
      ensures Valid()
      ensures issues == old(issues) + LongFileIssues(category, lines, Rel(workspace, location))
      ensures descriptors == old(descriptors)
      ensures forall k :: !IsIssueKey(k) ==> Count(metrics, k) == Count(old(metrics), k)
    {
      if category in {"commands", "rules"} && |lines| > 280 {
        AddIssue("low", "clarity", "overly_long_instructions", location,
          category + " file is very long (" + NatToString(|lines|) + " lines).",
          LongFileFix);
      }
    }

    /** `compare_skill_assets`: for each asset key in sorted order, one issue per platform
        lacking it, then at most one mismatch issue over the platforms that have it. */
    method CompareSkillAssets(skill: string, m: AssetMap)
      requires Valid()
      modifies this
      ensures Valid()
      ensures issues == old(issues) + AssetIssues(workspace, skill, m)
      ensures descriptors == old(descriptors)
      ensures forall k :: !IsIssueKey(k) ==> Count(metrics, k) == Count(old(metrics), k)
    {
      RecordKeys(skill, m, AllKeys(m));
    }

    /** The issues of the asset keys `keys`, one key after the other. */
    method RecordKeys(skill: string, m: AssetMap, keys: seq<string>)
      requires Valid()
      modifies this
      ensures Valid()
      ensures issues == old(issues) + KeysIssues(workspace, skill, m, keys)
      ensures descriptors == old(descriptors)
      ensures forall k :: !IsIssueKey(k) ==> Count(metrics, k) == Count(old(metrics), k)
    {
      var k := 0;
      while k < |keys|
        invariant 0 <= k <= |keys| && Valid() && descriptors == old(descriptors)
        invariant forall k :: !IsIssueKey(k) ==> Count(metrics, k) == Count(old(metrics), k)
        invariant issues == old(issues) + KeysIssues(workspace, skill, m, keys[..k])
      {
        RecordKeyAt(skill, m, keys, k, old(issues));
        k := k + 1;
      }
      assert keys[..|keys|] == keys;
    }

    /** One step of `RecordKeys`: the issues of `keys[k]` follow those of the keys before it. */
    method RecordKeyAt(skill: string, m: AssetMap, keys: seq<string>, k: nat, ghost base: seq<Issue>)
      requires Valid() && k < |keys|
      requires issues == base + KeysIssues(workspace, skill, m, keys[..k])
      modifies this
      ensures Valid()
      ensures issues == base + KeysIssues(workspace, skill, m, keys[..k + 1])
      ensures descriptors == old(descriptors)
      ensures forall k :: !IsIssueKey(k) ==> Count(metrics, k) == Count(old(metrics), k)
    {
      RecordKey(skill, m, keys[k]);
      KeysIssuesNext(base, workspace, skill, m, keys, k);
    }

    /** The issues of one asset key: the missing ones when the key is present somewhere but
        not everywhere, then the comparison. */
    method RecordKey(skill: string, m: AssetMap, key: string)
      requires Valid()
      modifies this
      ensures Valid()
      ensures issues == old(issues) + KeyIssues(workspace, skill, m, key)
      ensures descriptors == old(descriptors)
      ensures forall k :: !IsIssueKey(k) ==> Count(metrics, k) == Count(old(metrics), k)
    {
      var present := Present(m, key);
      var missing := Missing(m, key);
      ghost var head: seq<Issue> := [];
      if |missing| > 0 && |present| > 0 {
        RecordMissing(skill, key, missing);
        head := MissingIssues(workspace, skill, missing, key);
      }
      assert issues == old(issues) + head;
      RecordMismatch(skill, m, key);
      KeyIssuesSplit(workspace, skill, m, key);
      AppendAssoc(old(issues), head, CompareIssues(workspace, skill, m, key));
    }

    /** The missing-asset issues of one key, one per platform in `missing`, each at the path
        where that platform should hold the asset. */
    method RecordMissing(skill: string, key: string, missing: seq<Platform>)
      requires Valid()
      modifies this
      ensures Valid()
      ensures issues == old(issues) + MissingIssues(workspace, skill, missing, key)
      ensures descriptors == old(descriptors)
      ensures forall k :: !IsIssueKey(k) ==> Count(metrics, k) == Count(old(metrics), k)
    {
      var j := 0;
      while j < |missing|
        invariant 0 <= j <= |missing| && Valid() && descriptors == old(descriptors)
        invariant forall k :: !IsIssueKey(k) ==> Count(metrics, k) == Count(old(metrics), k)
        invariant issues == old(issues) + MissingIssues(workspace, skill, missing[..j], key)
      {
        RecordMissingAt(skill, key, missing, j, old(issues));
        j := j + 1;
      }
      assert missing[..|missing|] == missing;
    }

    /** One step of `RecordMissing`: the issue for the platform `missing[j]`. */
    method RecordMissingAt(skill: string, key: string, missing: seq<Platform>, j: nat, ghost base: seq<Issue>)
      requires Valid() && j < |missing|
      requires issues == base + MissingIssues(workspace, skill, missing[..j], key)
      modifies this
      ensures Valid()
      ensures issues == base + MissingIssues(workspace, skill, missing[..j + 1], key)
      ensures descriptors == old(descriptors)
      ensures forall k :: !IsIssueKey(k) ==> Count(metrics, k) == Count(old(metrics), k)
    {
      var p := missing[j];
      AddIssue("high", "mirror", "missing_mirror_asset",
        PathAt(workspace + [Name(p), "skills", skill] + ExpectedName(p, key)),
        "Skill '" + skill + "' is missing mirrored asset '" + key + "'.",
        MissingAssetFix);
      MissingIssuesNext(base, workspace, skill, missing, j, key);
    }

    /** The content comparison of one key over the platforms that have it: `SKILL` bodies and
        text files after mirror normalisation, other files byte for byte. */
    method RecordMismatch(skill: string, m: AssetMap, key: string)
      requires Valid()
      modifies this
      ensures Valid()
      ensures issues == old(issues) + CompareIssues(workspace, skill, m, key)
      ensures descriptors == old(descriptors)
      ensures forall k :: !IsIssueKey(k) ==> Count(metrics, k) == Count(old(metrics), k)
    {
      var present := Present(m, key);
      if |present| < 2 {
        return;
      }
      var files := PresentFiles(m, key);
      CompareIssuesCases(workspace, skill, m, key);
      if Mismatch(key, files) {
        var x := MismatchIssue(workspace, skill, key, present, files);
        AddIssue(x.severity, x.category, x.code, Given(x.location), x.message, x.fix);
      }
    }

    /** `audit_uniqueness`, exact duplicates: per category, in registration order, one issue
        per shared identity text. */
    method AuditUniqueness()
      requires Valid()
      modifies this
      ensures Valid()
      ensures issues == old(issues) + UniquenessIssues(old(descriptors))
      ensures descriptors == old(descriptors)
      ensures forall k :: !IsIssueKey(k) ==> Count(metrics, k) == Count(old(metrics), k)
    {
      var order := descriptors.order;
      var c := 0;
      while c < |order|
        invariant 0 <= c <= |order| && Valid() && descriptors == old(descriptors)
        invariant forall k :: !IsIssueKey(k) ==> Count(metrics, k) == Count(old(metrics), k)
        invariant issues == old(issues) + CategoriesIssues(descriptors, order[..c])
      {
        var category := order[c];
        ghost var done := CategoriesIssues(descriptors, order[..c]);
        RecordDuplicates(category, descriptors.entries[category]);
        assert issues == old(issues) + CategoriesIssues(descriptors, order[..c + 1]) by {
          CategoriesSnoc(descriptors, order, c);
          AppendAssoc(old(issues), done, DuplicateIssues(category, descriptors.entries[category]));
        }
        c := c + 1;
      }
      assert order[..|order|] == order;
    }

    /** The exact-duplicate issues of one category. */
    method RecordDuplicates(category: string, es: seq<(string, string)>)
      requires Valid()
      modifies this
      ensures Valid()
      ensures issues == old(issues) + DuplicateIssues(category, es)
      ensures descriptors == old(descriptors)
      ensures forall k :: !IsIssueKey(k) ==> Count(metrics, k) == Count(old(metrics), k)
    {
      var cleaned := Cleaned(es);
      if |cleaned| < 2 {
        return;
      }
      var groups := Groups(cleaned);
      var g := 0;
      while g < |groups|
        invariant 0 <= g <= |groups| && Valid() && descriptors == old(descriptors)
        invariant forall k :: !IsIssueKey(k) ==> Count(metrics, k) == Count(old(metrics), k)
        invariant issues == old(issues) + GroupIssues(category, groups[..g])
      {
        ghost var done := GroupIssues(category, groups[..g]);
        RecordGroup(category, groups[g]);
        assert issues == old(issues) + GroupIssues(category, groups[..g + 1]) by {
          GroupIssuesSnoc(category, groups, g);
          AppendAssoc(old(issues), done, if Reported(groups[g]) then [DuplicateIssue(category, groups[g].1)] else []);
        }
        g := g + 1;
      }
      assert groups[..|groups|] == groups;
    }

    /** One group of entries sharing a cleaned text: reported when more than one name shares a
        text longer than 20 characters. */
    method RecordGroup(category: string, group: (string, seq<string>))
      requires Valid()
      modifies this
      ensures Valid()
      ensures issues == old(issues) + (if Reported(group) then [DuplicateIssue(category, group.1)] else [])
      ensures descriptors == old(descriptors)
      ensures forall k :: !IsIssueKey(k) ==> Count(metrics, k) == Count(old(metrics), k)
    {
      var (text, names) := group;
      if |names| > 1 && |text| > 20 {
        var x := DuplicateIssue(category, names);
        AddIssue(x.severity, x.category, x.code, Given(x.location), x.message, x.fix);
      }
    }

    /** The exit code of `run`: 1 exactly when some recorded issue is critical. */
    function ExitCode(): (r: int)
      reads this
      requires Valid()
      ensures r == 1 <==> exists i :: 0 <= i < |issues| && Critical(issues[i])
      ensures r == 0 || r == 1
    {
      CriticalKey();
      TallyCritical(issues);
      if Count(metrics, "critical_issues") > 0 then 1 else 0
    }
  }
}
