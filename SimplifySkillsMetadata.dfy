/** `scripts/ecosystem/simplify_skills_metadata.py`: trims the frontmatter of every skill file down
    to the keys its platform accepts. The file system and YAML are parameters: a skill file is
    given as what reading it gives, `load` stands for `yaml.safe_load` and `dump` for `yaml.dump`. */
module SimplifySkillsMetadata {
  import opened Text
  import opened Order
  import opened Platforms
  import opened Frontmatter
  import SyncContent

  // ---------------------------------------------------------------------------------------------
  // Reading a skill file

  /** The metadata group of a matched frontmatter block. */
  function MetadataGroup(text: string): string
    requires Match(text).Some?
  {
    text[Match(text).value.0 + 1..Match(text).value.1]
  }

  /** `extract_metadata_and_content`: `None` when the file cannot be read (with an empty body),
      when the frontmatter does not match or when YAML rejects it (with the whole text); an empty
      mapping and the whole text when there is no frontmatter; else the mapping and the body. */
  function ExtractMetadataAndContent(file: FileRead, load: string -> Loaded): (r: (Option<Metadata>, string))
  {
    match file
    case Unreadable => (None, "")
    case Read(content) =>
      if !StartsWith(content, "---") then (Some([]), content)
      else match Match(content)
        case None => (None, content)
        case Some((n1, m, n2)) =>
          match load(content[n1 + 1..m])
          case YamlError => (None, content)
          case Mapping(meta) => (Some(meta), content[n2 + 1..])
  }

  /** A text that starts like a frontmatter block but that the pattern or YAML rejects. */
  predicate Unparsable(text: string, load: string -> Loaded) {
    StartsWith(text, "---") && (Match(text).None? || load(MetadataGroup(text)).YamlError?)
  }

  /** The metadata is missing exactly when the file is unreadable or its frontmatter unparsable,
      and only an unreadable file loses its text. */
  lemma ExtractCases(file: FileRead, load: string -> Loaded)
    ensures ExtractMetadataAndContent(file, load).0.None? <==> file.Unreadable? || Unparsable(file.text, load)
    ensures file.Read? && ExtractMetadataAndContent(file, load).0.None? ==> ExtractMetadataAndContent(file, load).1 == file.text
    ensures file.Read? && !StartsWith(file.text, "---") ==> ExtractMetadataAndContent(file, load) == (Some([]), file.text)
    ensures ExtractMetadataAndContent(file, load).0.Some? && file.Read? && StartsWith(file.text, "---") ==>
      && Match(file.text).Some?
      && load(MetadataGroup(file.text)) == Mapping(ExtractMetadataAndContent(file, load).0.value)
      && ExtractMetadataAndContent(file, load).1 == file.text[Match(file.text).value.2 + 1..]
  {
  }

  /** Where a frontmatter block with non-empty metadata is found, this reader and the one of
      `sync_content.py` agree. */
  lemma ExtractAgrees(file: FileRead, load: string -> Loaded, meta: Metadata, body: string)
    requires meta != [] && SyncContent.ExtractParts(file, load) == (Some(meta), body)
    ensures ExtractMetadataAndContent(file, load) == (Some(meta), body)
  {
  }

  /** What `write_skill_file` writes is read back as the same metadata and body, under the same
      conditions on YAML and the body as for `sync_content.py`, whose layout it shares. */
  lemma WriteThenExtract(meta: Metadata, body: string, load: string -> Loaded, dump: Metadata -> string)
    requires meta != [] && SyncContent.DumpFits(dump(meta))
    requires load(dump(meta)[..|dump(meta)| - 1]) == Mapping(meta)
    requires SyncContent.NoLeadingBlankLine(body)
    ensures ExtractMetadataAndContent(Read(SyncContent.FileText(Some(meta), body, dump)), load) == (Some(meta), body)
  {
    SyncContent.WriteThenExtract(meta, body, load, dump);
    ExtractAgrees(Read(SyncContent.FileText(Some(meta), body, dump)), load, meta, body);
  }

  // ---------------------------------------------------------------------------------------------
  // Keeping the allowed keys

  /** The keys of a mapping, in order. */
  function KeyList(meta: Metadata): (r: seq<string>)
    ensures |r| == |meta| && forall i :: 0 <= i < |meta| ==> r[i] == meta[i].0
  {
    if meta == [] then [] else [meta[0].0] + KeyList(meta[1..])
  }

  /** `new_meta[key] = metadata[key]` under `if key in metadata`. */
  function Pick(meta: Metadata, key: string): Metadata {
    match Get(meta, key)
    case None => []
    case Some(v) => [(key, v)]
  }

  /** A fresh mapping built by one conditional insert per key of `keys`, in that order. */
  function Keep(meta: Metadata, keys: seq<string>): Metadata {
    if keys == [] then [] else Pick(meta, keys[0]) + Keep(meta, keys[1..])
  }

  /** The keys of `keys` that `meta` has, in the order of `keys`. */
  function PresentKeys(keys: seq<string>, meta: Metadata): (r: seq<string>)
    ensures forall k :: k in r <==> k in keys && k in Keys(meta)
  {
    if keys == [] then []
    else (if keys[0] in Keys(meta) then [keys[0]] else []) + PresentKeys(keys[1..], meta)
  }

  lemma KeysAppend(a: Metadata, b: Metadata)
    ensures Keys(a + b) == Keys(a) + Keys(b)
  {
    forall k | k in Keys(a + b)
      ensures k in Keys(a) + Keys(b)
    {
      var i :| 0 <= i < |a + b| && (a + b)[i].0 == k;
      if i >= |a| {
        assert (a + b)[i] == b[i - |a|];
      }
    }
    forall k | k in Keys(a) + Keys(b)
      ensures k in Keys(a + b)
    {
      if k in Keys(b) {
        var i :| 0 <= i < |b| && b[i].0 == k;
        assert (a + b)[|a| + i] == b[i];
      } else {
        var i :| 0 <= i < |a| && a[i].0 == k;
        assert (a + b)[i] == a[i];
      }
    }
  }

  /** The kept keys are the allowed keys the input has, each with its input value. */
  lemma {:induction false} KeepKeys(meta: Metadata, keys: seq<string>)
    ensures forall k :: k in Keys(Keep(meta, keys)) <==> k in keys && k in Keys(meta)
    ensures forall i :: 0 <= i < |Keep(meta, keys)| ==>
      Get(meta, Keep(meta, keys)[i].0) == Some(Keep(meta, keys)[i].1)
  {
    if keys != [] {
      KeepKeys(meta, keys[1..]);
      var p := Pick(meta, keys[0]);
      var rest := Keep(meta, keys[1..]);
      KeysAppend(p, rest);
      PickFacts(meta, keys[0]);
      assert keys == [keys[0]] + keys[1..];
      ValuesAppend(meta, p, rest);
    }
  }

  /** One conditional insert holds the key when the input has it, with the input's value. */
  lemma PickFacts(meta: Metadata, key: string)
    ensures Keys(Pick(meta, key)) == if key in Keys(meta) then {key} else {}
    ensures forall i :: 0 <= i < |Pick(meta, key)| ==> Get(meta, Pick(meta, key)[i].0) == Some(Pick(meta, key)[i].1)
  {
    if key in Keys(meta) {
      assert Pick(meta, key)[0].0 == key;
    }
  }

  /** Entries that carry the input's values still do once put side by side. */
  lemma ValuesAppend(meta: Metadata, a: Metadata, b: Metadata)
    requires forall i :: 0 <= i < |a| ==> Get(meta, a[i].0) == Some(a[i].1)
    requires forall i :: 0 <= i < |b| ==> Get(meta, b[i].0) == Some(b[i].1)
    ensures forall i :: 0 <= i < |a + b| ==> Get(meta, (a + b)[i].0) == Some((a + b)[i].1)
  {
    forall i | 0 <= i < |a + b|
      ensures Get(meta, (a + b)[i].0) == Some((a + b)[i].1)
    {
      if i >= |a| {
        assert (a + b)[i] == b[i - |a|];
      } else {
        assert (a + b)[i] == a[i];
      }
    }
  }

  /** The kept keys come out in the order of `keys`. */
  lemma {:induction false} KeepOrder(meta: Metadata, keys: seq<string>)
    ensures KeyList(Keep(meta, keys)) == PresentKeys(keys, meta)
  {
    if keys != [] {
      KeepOrder(meta, keys[1..]);
      var p := Pick(meta, keys[0]);
      var rest := Keep(meta, keys[1..]);
      assert KeyList(p + rest) == KeyList(p) + KeyList(rest);
    }
  }

  /** Two mappings that agree on every key of `keys` keep the same thing. */
  lemma {:induction false} KeepAgrees(a: Metadata, b: Metadata, keys: seq<string>)
    requires forall i :: 0 <= i < |keys| ==> Get(a, keys[i]) == Get(b, keys[i])
    ensures Keep(a, keys) == Keep(b, keys)
  {
    if keys != [] {
      assert Get(a, keys[0]) == Get(b, keys[0]);
      KeepAgrees(a, b, keys[1..]);
    }
  }

  /** Keeping twice keeps the same as keeping once. */
  lemma KeepIdempotent(meta: Metadata, keys: seq<string>)
    ensures Keep(Keep(meta, keys), keys) == Keep(meta, keys)
  {
    var r := Keep(meta, keys);
    KeepKeys(meta, keys);
    forall i | 0 <= i < |keys|
      ensures Get(r, keys[i]) == Get(meta, keys[i])
    {
      var k := keys[i];
      if k in Keys(meta) {
        var j :| 0 <= j < |r| && r[j] == (k, Get(r, k).value);
        assert Get(meta, r[j].0) == Some(r[j].1);
      }
    }
    KeepAgrees(r, meta, keys);
  }

  /** The keys `.agent` keeps, in output order. */
  const AgentKeys: seq<string> := ["description", "name"]

  /** The keys `.claude` and `.cursor` keep, in output order. */
  const SharedKeys: seq<string> := ["name", "description", "license"]

  /** The allow-list of a platform, when it has one. */
  function AllowList(platform: string): Option<seq<string>> {
    if platform == ".agent" then Some(AgentKeys)
    else if platform == ".claude" || platform == ".cursor" then Some(SharedKeys)
    else None
  }

  /** `simplify_metadata`. */
  function SimplifyMetadata(meta: Metadata, platform: string): Metadata {
    match AllowList(platform)
    case None => meta
    case Some(keys) => Keep(meta, keys)
  }

  /** For `.agent` the result holds exactly the input's `description` and `name`; for `.claude` and
      `.cursor` exactly its `name`, `description` and `license`; any other platform is left as is. */
  lemma SimplifyAllowList(meta: Metadata, platform: string)
    ensures platform == ".agent" ==>
      forall k :: k in Keys(SimplifyMetadata(meta, platform)) <==> k in Keys(meta) && (k == "description" || k == "name")
    ensures platform == ".claude" || platform == ".cursor" ==>
      forall k :: k in Keys(SimplifyMetadata(meta, platform)) <==>
        k in Keys(meta) && (k == "name" || k == "description" || k == "license")
    ensures AllowList(platform).None? ==> SimplifyMetadata(meta, platform) == meta
  {
    if AllowList(platform).Some? {
      KeepKeys(meta, AllowList(platform).value);
    }
  }

  /** In a mapping with distinct keys, looking up the key of an entry finds that entry's value. */
  lemma GetAt(meta: Metadata, i: int)
    requires DistinctKeys(meta) && 0 <= i < |meta|
    ensures Get(meta, meta[i].0) == Some(meta[i].1)
  {
    var j :| 0 <= j < |meta| && meta[j] == (meta[i].0, Get(meta, meta[i].0).value);
    assert i == j;
  }

  /** Every key of the result keeps its input value (a YAML mapping has distinct keys). */
  lemma SimplifyValues(meta: Metadata, platform: string)
    requires DistinctKeys(meta)
    ensures forall i :: 0 <= i < |SimplifyMetadata(meta, platform)| ==>
      Get(meta, SimplifyMetadata(meta, platform)[i].0) == Some(SimplifyMetadata(meta, platform)[i].1)
  {
    if AllowList(platform).Some? {
      KeepKeys(meta, AllowList(platform).value);
    } else {
      forall i | 0 <= i < |meta|
        ensures Get(meta, meta[i].0) == Some(meta[i].1)
      {
        GetAt(meta, i);
      }
    }
  }

  /** `yaml.dump(..., sort_keys=False)` writes the keys in insertion order: `description` before
      `name` for `.agent`, and `name`, `description`, `license` for `.claude` and `.cursor`. */
  lemma SimplifyOrder(meta: Metadata, platform: string)
    ensures AllowList(platform).Some? ==>
      KeyList(SimplifyMetadata(meta, platform)) == PresentKeys(AllowList(platform).value, meta)
  {
    if AllowList(platform).Some? {
      KeepOrder(meta, AllowList(platform).value);
    }
  }

  /** Simplifying an already simplified mapping changes nothing. */
  lemma SimplifyIdempotent(meta: Metadata, platform: string)
    ensures SimplifyMetadata(SimplifyMetadata(meta, platform), platform) == SimplifyMetadata(meta, platform)
  {
    if AllowList(platform).Some? {
      KeepIdempotent(meta, AllowList(platform).value);
    }
  }

  // ---------------------------------------------------------------------------------------------
  // Processing one skill

  /** The name of a platform's skill file. */
  function SkillFileName(platform: string): string {
    if platform == ".cursor" then "SKILL.mdc" else "SKILL.md"
  }

  function Required(platform: string): set<string> {
    if platform == ".agent" then {"description"} else {"name", "description"}
  }

  function Optional(platform: string): set<string> {
    if platform == ".agent" then {"name", "license"} else {"license"}
  }

  /** `required | optional`. */
  function Expected(platform: string): set<string> {
    Required(platform) + Optional(platform)
  }

  /** The keys `before` has and `after` does not, in the order of `before`. */
  function Dropped(before: Metadata, after: Metadata): (r: seq<string>)
    ensures forall k :: k in r <==> k in Keys(before) && k !in Keys(after)
  {
    if before == [] then []
    else
      assert Keys(before) == {before[0].0} + Keys(before[1..]) by {
        assert before == [before[0]] + before[1..];
        KeysAppend([before[0]], before[1..]);
      }
      (if before[0].0 in Keys(after) then [] else [before[0].0]) + Dropped(before[1..], after)
  }

  /** `', '.join(sorted(set(old_meta.keys()) - set(new_meta.keys())))`. */
  function RemovedList(before: Metadata, after: Metadata): seq<string> {
    SortedUnique(Dropped(before, after))
  }

  /** Whether a skill directory holds its skill file, and what reading it gives. */
  datatype SkillFile = Missing | Present(read: FileRead)

  /** The pair `process_skill` returns, and the text it wrote, if any. */
  datatype Processed = Processed(modified: bool, message: string, written: Option<string>)

  /** `process_skill`; `writeOk` says whether writing the file succeeds. */
  function ProcessSkill(platform: string, file: SkillFile, load: string -> Loaded, dump: Metadata -> string,
                        writeOk: bool): Processed
  {
    match file
    case Missing => Processed(false, "missing " + SkillFileName(platform), None)
    case Present(read) =>
      var (metadata, content) := ExtractMetadataAndContent(read, load);
      if metadata.None? then Processed(false, "YAML error", None)
      else if Keys(metadata.value) <= Expected(platform) then Processed(false, "already clean", None)
      else
        var simplified := SimplifyMetadata(metadata.value, platform);
        if writeOk then
          Processed(true, "removed: " + Join(RemovedList(metadata.value, simplified), ", "),
                    Some(SyncContent.FileText(Some(simplified), content, dump)))
        else Processed(false, "write error", None)
  }

  /** A file whose frontmatter cannot be read is reported as a YAML error and left alone. */
  lemma UnparsableLeftAlone(platform: string, read: FileRead, load: string -> Loaded, dump: Metadata -> string, writeOk: bool)
    requires read.Unreadable? || Unparsable(read.text, load)
    ensures ProcessSkill(platform, Present(read), load, dump, writeOk) == Processed(false, "YAML error", None)
  {
    ExtractCases(read, load);
  }

  /** A skill is "already clean" exactly when its frontmatter reads and every key it holds is
      required or optional for the platform. */
  lemma CleanIff(platform: string, read: FileRead, load: string -> Loaded, dump: Metadata -> string, writeOk: bool)
    ensures ProcessSkill(platform, Present(read), load, dump, writeOk).message == "already clean" <==>
      ExtractMetadataAndContent(read, load).0.Some? && Keys(ExtractMetadataAndContent(read, load).0.value) <= Expected(platform)
  {
    var r := ProcessSkill(platform, Present(read), load, dump, writeOk);
    var meta := ExtractMetadataAndContent(read, load).0;
    if meta.Some? && !(Keys(meta.value) <= Expected(platform)) && writeOk {
      assert r.message[0] == 'r';
    }
  }

  /** Only a modified skill is written; its message lists the removed keys, sorted, which are
      exactly the keys the simplified metadata no longer has, and the file holds the simplified
      metadata and the unchanged body. */
  lemma ModifiedReport(platform: string, read: FileRead, load: string -> Loaded, dump: Metadata -> string, writeOk: bool)
    ensures ProcessSkill(platform, Present(read), load, dump, writeOk).written.Some? <==>
      ProcessSkill(platform, Present(read), load, dump, writeOk).modified
    ensures ProcessSkill(platform, Present(read), load, dump, writeOk).modified ==>
      var (meta, content) := ExtractMetadataAndContent(read, load);
      && meta.Some?
      && var removed := RemovedList(meta.value, SimplifyMetadata(meta.value, platform));
      && ProcessSkill(platform, Present(read), load, dump, writeOk).message == "removed: " + Join(removed, ", ")
      && (forall k :: k in removed <==> k in Keys(meta.value) && k !in Keys(SimplifyMetadata(meta.value, platform)))
      && (forall i, j :: 0 <= i < j < |removed| ==> Less(removed[i], removed[j]))
      && ProcessSkill(platform, Present(read), load, dump, writeOk).written
        == Some(SyncContent.FileText(Some(SimplifyMetadata(meta.value, platform)), content, dump))
  {
  }

  /** For `.agent`, `license` counts as clean, so a skill whose keys are among `description`,
      `name` and `license` keeps its `license`; one that is dirty for another reason has it removed. */
  lemma AgentLicenseQuirk(read: FileRead, load: string -> Loaded, dump: Metadata -> string, writeOk: bool)
    requires ExtractMetadataAndContent(read, load).0.Some?
    requires "license" in Keys(ExtractMetadataAndContent(read, load).0.value)
    ensures var meta := ExtractMetadataAndContent(read, load).0.value;
      Keys(meta) <= {"description", "name", "license"} ==>
        ProcessSkill(".agent", Present(read), load, dump, writeOk) == Processed(false, "already clean", None)
    ensures var meta := ExtractMetadataAndContent(read, load).0.value;
      !(Keys(meta) <= {"description", "name", "license"}) ==>
        && "license" !in Keys(SimplifyMetadata(meta, ".agent"))
        && "license" in RemovedList(meta, SimplifyMetadata(meta, ".agent"))
  {
    var meta := ExtractMetadataAndContent(read, load).0.value;
    assert Expected(".agent") == {"description", "name", "license"};
    SimplifyAllowList(meta, ".agent");
  }

  /** Once a skill has been rewritten, running the script again reports it "already clean", as
      long as YAML reads its own dump back and the body does not start with a blank line. */
  lemma RerunClean(platform: string, read: FileRead, load: string -> Loaded, dump: Metadata -> string,
                   writeOk: bool, meta: Metadata, content: string)
    requires ExtractMetadataAndContent(read, load) == (Some(meta), content)
    requires AllowList(platform).Some?
    requires SimplifyMetadata(meta, platform) != [] && SyncContent.DumpFits(dump(SimplifyMetadata(meta, platform)))
    requires load(dump(SimplifyMetadata(meta, platform))[..|dump(SimplifyMetadata(meta, platform))| - 1])
      == Mapping(SimplifyMetadata(meta, platform))
    requires SyncContent.NoLeadingBlankLine(content)
    ensures ProcessSkill(platform, Present(Read(SyncContent.FileText(Some(SimplifyMetadata(meta, platform)), content, dump))),
                         load, dump, writeOk) == Processed(false, "already clean", None)
  {
    var simplified := SimplifyMetadata(meta, platform);
    WriteThenExtract(simplified, content, load, dump);
    SimplifyAllowList(meta, platform);
    assert Keys(simplified) <= Expected(platform);
  }
}
