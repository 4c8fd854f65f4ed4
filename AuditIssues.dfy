/** The issue records of `scripts/ecosystem/ecosystem_audit.py` and the pure logic around them:
    the metric counters `add_issue` bumps, the report order, the descriptor registry, the
    exact-duplicate grouping of identity texts, the mirror comparison of skill assets and the
    clarity heuristics. The auditor object that holds this state is in `EcosystemAudit`. */
module AuditIssues {
  import opened Text
  import opened Order
  import opened Platforms
  import opened Locations
  import opened PlatformMarkers
  import opened Normalize
  import opened Identity

  datatype Issue = Issue(
    severity: string, category: string, code: string, location: string, message: string, fix: string)

  // The fixed messages and suggested fixes of the issues below.
  const DuplicateMessage := "Multiple files share identical identity/description text."
  const DuplicateFix := "Sharpen scope statements so file routing is unambiguous."
  const LongLinesFix := "Break long lines to improve readability."
  const LongFileFix := "Trim repetitive text and keep operational steps concise."
  const MissingAssetFix := "Mirror this asset in all platforms with matching relative path and content."
  const BodyMismatchFix := "Sync mirrored file bodies and keep only metadata platform-specific."
  const AssetMismatchFix := "Keep mirrored skill assets byte-identical across platforms."

  // ---------------------------------------------------------------------------------------------
  // Metric counters

  /** A `collections.Counter`: a missing key counts zero. */
  type Counter = map<string, nat>

  function Count(m: Counter, k: string): nat {
    if k in m then m[k] else 0
  }

  function Bump(m: Counter, k: string): (r: Counter)
    ensures forall j :: Count(r, j) == Count(m, j) + (if j == k then 1 else 0)
  {
    m[k := Count(m, k) + 1]
  }

  /** How much one issue adds to counter `k`: one for each of its three counter names that is `k`. */
  function Hits(k: string, severity: string, category: string, code: string): nat {
    (if k == severity + "_issues" then 1 else 0)
    + (if k == category + "_issues" then 1 else 0)
    + (if k == "code_" + code then 1 else 0)
  }

  /** The three increments of `add_issue`. */
  function AddCounts(m: Counter, severity: string, category: string, code: string): (r: Counter)
    ensures forall k :: Count(r, k) == Count(m, k) + Hits(k, severity, category, code)
  {
    Bump(Bump(Bump(m, severity + "_issues"), category + "_issues"), "code_" + code)
  }

  /** When its three counter names differ, an issue adds exactly one to each of them and leaves
      every other counter as it was. */
  lemma AddCountsExactlyThree(m: Counter, severity: string, category: string, code: string)
    requires severity != category
    requires "code_" + code != severity + "_issues" && "code_" + code != category + "_issues"
    ensures var r := AddCounts(m, severity, category, code);
      && Count(r, severity + "_issues") == Count(m, severity + "_issues") + 1
      && Count(r, category + "_issues") == Count(m, category + "_issues") + 1
      && Count(r, "code_" + code) == Count(m, "code_" + code) + 1
      && forall k :: k != severity + "_issues" && k != category + "_issues" && k != "code_" + code ==>
           Count(r, k) == Count(m, k)
  {
    SuffixedEqual(severity, category, "_issues");
  }

  /** The counter names `add_issue` uses: totals ending in `_issues` and `code_` counters. */
  predicate IsIssueKey(k: string) {
    EndsWith(k, "_issues") || StartsWith(k, "code_")
  }

  lemma HitsOnIssueKeys(k: string, severity: string, category: string, code: string)
    ensures Hits(k, severity, category, code) > 0 ==> IsIssueKey(k)
  {
    if k == severity + "_issues" {
      assert k[|k| - 7..] == "_issues";
    } else if k == category + "_issues" {
      assert k[|k| - 7..] == "_issues";
    } else if k == "code_" + code {
      assert k[..5] == "code_";
    }
  }

  /** What the issues recorded so far add up to in counter `k`. */
  function Tally(issues: seq<Issue>, k: string): nat
    decreases |issues|
  {
    if issues == [] then 0
    else
      var last := issues[|issues| - 1];
      Tally(issues[..|issues| - 1], k) + Hits(k, last.severity, last.category, last.code)
  }

  lemma TallySnoc(issues: seq<Issue>, x: Issue, k: string)
    ensures Tally(issues + [x], k) == Tally(issues, k) + Hits(k, x.severity, x.category, x.code)
  {
    assert (issues + [x])[..|issues|] == issues;
  }

  lemma TallyConcat(issues: seq<Issue>, more: seq<Issue>, k: string)
    ensures Tally(issues + more, k) == Tally(issues, k) + Tally(more, k)
    decreases |more|
  {
    if more != [] {
      var init := more[..|more| - 1];
      TallyConcat(issues, init, k);
      assert issues + more == (issues + init) + [more[|more| - 1]];
      TallySnoc(issues + init, more[|more| - 1], k);
      assert more == init + [more[|more| - 1]];
      TallySnoc(init, more[|more| - 1], k);
    } else {
      assert issues + more == issues;
    }
  }

  /** An issue that `run` treats as critical: its severity or its category is `critical`. */
  predicate Critical(i: Issue) {
    i.severity == "critical" || i.category == "critical"
  }

  /** `critical_issues` is one of the counters `add_issue` keeps. */
  lemma CriticalKey()
    ensures IsIssueKey("critical_issues")
  {
    assert "critical_issues"[|"critical_issues"| - 7..] == "_issues";
  }

  /** The `critical_issues` counter is positive exactly when some issue is critical. */
  lemma {:induction false} TallyCritical(issues: seq<Issue>)
    ensures Tally(issues, "critical_issues") > 0 <==> exists i :: 0 <= i < |issues| && Critical(issues[i])
    decreases |issues|
  {
    if issues != [] {
      var init := issues[..|issues| - 1];
      var last := issues[|issues| - 1];
      TallyCritical(init);
      HitsCritical(last);
      if exists i :: 0 <= i < |init| && Critical(init[i]) {
        var i :| 0 <= i < |init| && Critical(init[i]);
        assert issues[i] == init[i];
      }
      if exists i :: 0 <= i < |issues| && Critical(issues[i]) {
        var i :| 0 <= i < |issues| && Critical(issues[i]);
        if i < |init| {
          assert init[i] == issues[i];
        }
      }
    }
  }

  lemma HitsCritical(x: Issue)
    ensures Hits("critical_issues", x.severity, x.category, x.code) > 0 <==> Critical(x)
  {
    SuffixedEqual(x.severity, "critical", "_issues");
    SuffixedEqual(x.category, "critical", "_issues");
    assert ("code_" + x.code)[1] == 'o';
  }

  lemma SuffixedEqual(a: string, b: string, suffix: string)
    ensures a + suffix == b + suffix <==> a == b
  {
    if a + suffix == b + suffix {
      assert a == (a + suffix)[..|a|];
      assert b == (b + suffix)[..|b|];
    }
  }

  // ---------------------------------------------------------------------------------------------
  // Report order

  /** `SEVERITY_ORDER.get(severity, 99)`. */
  function SeverityRank(severity: string): (r: int)
    ensures r == 0 <==> severity == "critical"
    ensures r in {0, 1, 2, 3, 99}
  {
    if severity == "critical" then 0
    else if severity == "high" then 1
    else if severity == "medium" then 2
    else if severity == "low" then 3
    else 99
  }

  /** The sort key of the reports: severity rank, then category, code and location. */
  function IssueKey(i: Issue): Key {
    Key(SeverityRank(i.severity), [i.category, i.code, i.location])
  }

  /** The issues in report order: all of them, by severity rank (critical, high, medium, low,
      then any other), ties broken by category, code and location; issues equal in all four keep
      their recorded order, as `sorted` is stable. */
  function ReportOrder(issues: seq<Issue>): (r: seq<Issue>)
    ensures multiset(r) == multiset(issues)
    ensures forall i, j :: 0 <= i < j < |r| ==> SeverityRank(r[i].severity) <= SeverityRank(r[j].severity)
    ensures forall i, j :: 0 <= i < j < |r| && SeverityRank(r[i].severity) == SeverityRank(r[j].severity) ==>
      !FieldsLess([r[j].category, r[j].code, r[j].location], [r[i].category, r[i].code, r[i].location])
    ensures forall k :: WithKey(r, IssueKey, k) == WithKey(issues, IssueKey, k)
  {
    Sort(issues, IssueKey)
  }

  /** When some issue is critical by severity, the report starts with one. */
  lemma ReportOrderCriticalFirst(issues: seq<Issue>, k: int)
    requires 0 <= k < |issues| && issues[k].severity == "critical"
    ensures ReportOrder(issues) != [] && ReportOrder(issues)[0].severity == "critical"
  {
    var r := ReportOrder(issues);
    assert issues[k] in multiset(issues);
    assert issues[k] in multiset(r);
    var j :| 0 <= j < |r| && r[j] == issues[k];
    if j > 0 {
      assert SeverityRank(r[0].severity) <= SeverityRank(r[j].severity);
    }
  }

  // ---------------------------------------------------------------------------------------------
  // Descriptor registry

  /** `category_descriptors`: the categories in the order they were first written, and per
      category its `(name, identity)` entries in insertion order. */
  datatype Descriptors = Descriptors(order: seq<string>, entries: map<string, seq<(string, string)>>)

  /** `entries.get(name)` on one category's entries. */
  function Find(es: seq<(string, string)>, name: string): (r: Option<string>)
    ensures r.Some? ==> exists i :: 0 <= i < |es| && es[i] == (name, r.value)
    ensures r.None? ==> forall i :: 0 <= i < |es| ==> es[i].0 != name
  {
    if es == [] then None
    else if es[0].0 == name then Some(es[0].1)
    else
      var r := Find(es[1..], name);
      if r.Some? then
        var i :| 0 <= i < |es[1..]| && es[1..][i] == (name, r.value);
        assert es[i + 1] == (name, r.value);
        r
      else r
  }

  function Lookup(d: Descriptors, category: string, name: string): Option<string> {
    if category in d.entries then Find(d.entries[category], name) else None
  }

  predicate DistinctNames(es: seq<(string, string)>) {
    forall i, j :: 0 <= i < j < |es| ==> es[i].0 != es[j].0
  }

  /** The shape a registry keeps: each category listed once, exactly the categories that have
      entries, and no name twice within a category. */
  ghost predicate WellFormed(d: Descriptors) {
    && (forall i, j :: 0 <= i < j < |d.order| ==> d.order[i] != d.order[j])
    && (forall c :: c in d.entries <==> c in d.order)
    && (forall c :: c in d.entries ==> DistinctNames(d.entries[c]))
  }

  /** `register_descriptor`: a blank identity is ignored; otherwise the first identity recorded
      for a name within a category wins, and it is stored stripped. */
  function Register(d: Descriptors, category: string, name: string, identity: string): (r: Descriptors)
    ensures AllSpace(identity) || Lookup(d, category, name).Some? ==> r == d
    ensures !AllSpace(identity) && Lookup(d, category, name).None? ==>
      Lookup(r, category, name) == Some(Strip(identity)) && Strip(identity) != []
    ensures forall c, n :: (c, n) != (category, name) ==> Lookup(r, c, n) == Lookup(d, c, n)
  {
    if AllSpace(identity) || Lookup(d, category, name).Some? then d
    else
      StripBlank(identity);
      FindAppend(Entries(d, category), name, Strip(identity));
      Recorded(d, category, name, Strip(identity))
  }

  /** The entries of a category, none when it has no entry yet. */
  function Entries(d: Descriptors, category: string): seq<(string, string)> {
    if category in d.entries then d.entries[category] else []
  }

  /** `by_category.setdefault(category, {})[name] = text`. */
  function Recorded(d: Descriptors, category: string, name: string, v: string): Descriptors {
    Descriptors(Listed(d, category), d.entries[category := Entries(d, category) + [(name, v)]])
  }

  /** The categories in first-registration order once `category` has an entry. */
  function Listed(d: Descriptors, category: string): seq<string> {
    if category in d.entries then d.order else d.order + [category]
  }

  /** Registering keeps a registry well formed. */
  lemma RegisterWellFormed(d: Descriptors, category: string, name: string, identity: string)
    requires WellFormed(d)
    ensures WellFormed(Register(d, category, name, identity))
  {
    if !AllSpace(identity) && Lookup(d, category, name).None? {
      RecordedWellFormed(d, category, name, Strip(identity));
    }
  }

  lemma RecordedWellFormed(d: Descriptors, category: string, name: string, v: string)
    requires WellFormed(d) && Find(Entries(d, category), name).None?
    ensures WellFormed(Recorded(d, category, name, v))
  {
    var es := Entries(d, category);
    FindAppend(es, name, v);
    ListedDistinct(d, category);
    EntriesDistinct(d.entries, es + [(name, v)], Recorded(d, category, name, v).entries, category);
  }

  lemma ListedDistinct(d: Descriptors, category: string)
    requires WellFormed(d)
    ensures var o := Listed(d, category);
      (forall i, j :: 0 <= i < j < |o| ==> o[i] != o[j])
      && forall c :: c in d.entries || c == category <==> c in o
  {
    assert category !in d.entries ==> category !in d.order;
  }

  lemma EntriesDistinct(
    entries: map<string, seq<(string, string)>>, es: seq<(string, string)>,
    updated: map<string, seq<(string, string)>>, category: string)
    requires forall c :: c in entries ==> DistinctNames(entries[c])
    requires DistinctNames(es) && updated == entries[category := es]
    ensures forall c :: c in updated ==> DistinctNames(updated[c])
  {
  }

  /** Appending an entry for a new name makes it findable and leaves the other names alone. */
  lemma FindAppend(es: seq<(string, string)>, name: string, v: string)
    requires Find(es, name).None?
    ensures Find(es + [(name, v)], name) == Some(v)
    ensures forall n :: n != name ==> Find(es + [(name, v)], n) == Find(es, n)
    ensures DistinctNames(es) ==> DistinctNames(es + [(name, v)])
    decreases |es|
  {
    if es != [] {
      assert (es + [(name, v)])[1..] == es[1..] + [(name, v)];
      FindAppend(es[1..], name, v);
    }
  }

  /** A later registration for a name already present changes nothing, whatever its text. */
  lemma RegisterFirstWins(d: Descriptors, category: string, name: string, first: string, later: string)
    requires !AllSpace(first) && Lookup(d, category, name).None?
    ensures var d1 := Register(d, category, name, first);
      Register(d1, category, name, later) == d1 && Lookup(d1, category, name) == Some(Strip(first))
  {
  }

  // ---------------------------------------------------------------------------------------------
  // Exact-duplicate identity texts (`audit_uniqueness`)

  /** `re.sub(r"\s+", " ", s)`: every run of whitespace becomes one space. */
  function Collapse(s: string): (r: string)
    ensures forall i :: 0 <= i < |r| && IsSpace(r[i]) ==> r[i] == ' '
    ensures forall i :: 0 <= i < |r| - 1 ==> !(IsSpace(r[i]) && IsSpace(r[i + 1]))
    ensures s == [] <==> r == []
    ensures s != [] ==> (IsSpace(r[0]) <==> IsSpace(s[0]))
    decreases |s|
  {
    if s == [] then []
    else if IsSpace(s[0]) then
      assert IsSpace(' ');
      var rest := LStrip(s);
      [' '] + Collapse(rest)
    else [s[0]] + Collapse(s[1..])
  }

  /** Collapsing twice is collapsing once. */
  lemma {:induction false} CollapseIdempotent(s: string)
    ensures Collapse(Collapse(s)) == Collapse(s)
    decreases |s|
  {
    var r := Collapse(s);
    if s != [] {
      if IsSpace(s[0]) {
        var rest := LStrip(s);
        CollapseIdempotent(rest);
        var c := Collapse(rest);
        assert r == [' '] + c;
        assert c == [] || !IsSpace(c[0]);
        assert LStrip(r) == c by {
          LStripSkips(r);
          assert r[1..] == c;
          if c != [] {
            LStripKeeps(c);
          }
        }
      } else {
        CollapseIdempotent(s[1..]);
        assert r == [s[0]] + Collapse(s[1..]);
        assert r[1..] == Collapse(s[1..]);
      }
    }
  }

  /** The comparison form of an identity: stripped, lower-cased, whitespace runs collapsed. */
  function CleanText(t: string): string {
    Collapse(Lower(Strip(t)))
  }

  /** `cleaned_descriptors`: the non-blank entries, in order, with their texts cleaned. */
  function Cleaned(es: seq<(string, string)>): (r: seq<(string, string)>)
    ensures |r| <= |es|
    decreases |es|
  {
    if es == [] then []
    else
      var last := es[|es| - 1];
      var init := Cleaned(es[..|es| - 1]);
      if AllSpace(last.1) then init else init + [(last.0, CleanText(last.1))]
  }

  /** The names of the entries whose cleaned text is `t`, in order. */
  function NamesWith(cs: seq<(string, string)>, t: string): seq<string>
    decreases |cs|
  {
    if cs == [] then []
    else
      var last := cs[|cs| - 1];
      NamesWith(cs[..|cs| - 1], t) + (if last.1 == t then [last.0] else [])
  }

  /** Where text `t` sits among the groups, or `|gs|` when it has no group yet. */
  function GroupIndex(gs: seq<(string, seq<string>)>, t: string): (i: nat)
    ensures i <= |gs|
    ensures i < |gs| ==> gs[i].0 == t
    ensures forall j :: 0 <= j < i ==> gs[j].0 != t
    decreases |gs|
  {
    if gs == [] then 0
    else if gs[0].0 == t then 0
    else 1 + GroupIndex(gs[1..], t)
  }

  /** `by_text[text].append(name)` on a dictionary kept in insertion order. */
  function AddToGroup(gs: seq<(string, seq<string>)>, name: string, t: string): seq<(string, seq<string>)> {
    var i := GroupIndex(gs, t);
    if i < |gs| then gs[i := (t, gs[i].1 + [name])] else gs + [(t, [name])]
  }

  /** `by_text`: the cleaned texts in order of first appearance, each with its names. */
  function Groups(cs: seq<(string, string)>): seq<(string, seq<string>)>
    decreases |cs|
  {
    if cs == [] then []
    else
      var last := cs[|cs| - 1];
      AddToGroup(Groups(cs[..|cs| - 1]), last.0, last.1)
  }

  /** No two groups share a text. */
  predicate DistinctTexts(gs: seq<(string, seq<string>)>) {
    forall i, j :: 0 <= i < j < |gs| ==> gs[i].0 != gs[j].0
  }

  /** The group of each text holds exactly the names of the entries with that text, in order. */
  predicate ExactNames(cs: seq<(string, string)>, gs: seq<(string, seq<string>)>) {
    forall i :: 0 <= i < |gs| ==> gs[i].1 == NamesWith(cs, gs[i].0)
  }

  /** Every entry's text has a group. */
  predicate Covered(cs: seq<(string, string)>, gs: seq<(string, seq<string>)>) {
    forall k :: 0 <= k < |cs| ==> GroupIndex(gs, cs[k].1) < |gs|
  }

  /** Each text has one group, the group of a text holds exactly the names of the entries with
      that text, in order, and every entry's text has a group. */
  lemma {:induction false} GroupsSpec(cs: seq<(string, string)>)
    ensures var gs := Groups(cs); DistinctTexts(gs) && ExactNames(cs, gs) && Covered(cs, gs)
    decreases |cs|
  {
    if cs != [] {
      var init := cs[..|cs| - 1];
      var last := cs[|cs| - 1];
      GroupsSpec(init);
      var g0 := Groups(init);
      AddDistinct(g0, last.0, last.1);
      AddCovered(init, g0, last.0, last.1);
      AddExact(init, g0, last.0, last.1);
      InitLast(cs);
    }
  }

  lemma AddDistinct(gs: seq<(string, seq<string>)>, name: string, t: string)
    requires DistinctTexts(gs)
    ensures DistinctTexts(AddToGroup(gs, name, t))
  {
    var r := AddToGroup(gs, name, t);
    forall a, b | 0 <= a < b < |r|
      ensures r[a].0 != r[b].0
    {
      if b < |gs| {
        assert r[a].0 == gs[a].0 && r[b].0 == gs[b].0;
      } else {
        assert r[a] == gs[a] && r[b].0 == t;
      }
    }
  }

  lemma AddCovered(cs: seq<(string, string)>, gs: seq<(string, seq<string>)>, name: string, t: string)
    requires Covered(cs, gs)
    ensures Covered(cs + [(name, t)], AddToGroup(gs, name, t))
  {
    var r := AddToGroup(gs, name, t);
    var w := cs + [(name, t)];
    var i := GroupIndex(gs, t);
    forall k | 0 <= k < |w|
      ensures GroupIndex(r, w[k].1) < |r|
    {
      if k < |cs| {
        assert w[k] == cs[k];
        var j := GroupIndex(gs, cs[k].1);
        assert r[j].0 == gs[j].0;
        GroupIndexBound(r, cs[k].1, j);
      } else {
        GroupIndexBound(r, t, if i < |gs| then i else |gs|);
      }
    }
  }

  lemma AddExact(cs: seq<(string, string)>, gs: seq<(string, seq<string>)>, name: string, t: string)
    requires DistinctTexts(gs) && ExactNames(cs, gs) && Covered(cs, gs)
    ensures ExactNames(cs + [(name, t)], AddToGroup(gs, name, t))
  {
    var r := AddToGroup(gs, name, t);
    var w := cs + [(name, t)];
    var i0 := GroupIndex(gs, t);
    forall i | 0 <= i < |r|
      ensures r[i].1 == NamesWith(w, r[i].0)
    {
      NamesWithSnoc(cs, name, t, r[i].0);
      if i0 == |gs| && i == |gs| {
        forall k | 0 <= k < |cs|
          ensures cs[k].1 != t
        {
          GroupIndexBound(gs, cs[k].1, GroupIndex(gs, cs[k].1));
        }
        NamesWithNone(cs, t);
      } else if i != i0 {
        assert r[i] == gs[i] && gs[i].0 != t;
      }
    }
  }

  lemma NamesWithSnoc(cs: seq<(string, string)>, name: string, t: string, u: string)
    ensures NamesWith(cs + [(name, t)], u) == NamesWith(cs, u) + (if t == u then [name] else [])
  {
    assert (cs + [(name, t)])[..|cs|] == cs;
  }

  lemma GroupNames(cs: seq<(string, string)>, i: int)
    requires 0 <= i < |Groups(cs)|
    ensures Groups(cs)[i].1 == NamesWith(cs, Groups(cs)[i].0)
  {
    GroupsSpec(cs);
  }

  lemma {:induction false} NamesWithNone(cs: seq<(string, string)>, t: string)
    requires forall k :: 0 <= k < |cs| ==> cs[k].1 != t
    ensures NamesWith(cs, t) == []
    decreases |cs|
  {
    if cs != [] {
      NamesWithNone(cs[..|cs| - 1], t);
    }
  }

  lemma GroupIndexBound(gs: seq<(string, seq<string>)>, t: string, j: int)
    requires 0 <= j < |gs| && gs[j].0 == t
    ensures GroupIndex(gs, t) <= j
  {
  }

  /** The issue for one group of names sharing a text. */
  function DuplicateIssue(category: string, names: seq<string>): Issue {
    Issue("medium", "uniqueness", "duplicate_identity_text",
      category + ": " + Join(SortedUnique(names), ", "),
      DuplicateMessage,
      DuplicateFix)
  }

  /** A group is reported when more than one name shares a text longer than 20 characters. */
  predicate Reported(g: (string, seq<string>)) {
    |g.1| > 1 && |g.0| > 20
  }

  function GroupIssues(category: string, gs: seq<(string, seq<string>)>): (r: seq<Issue>)
    ensures |r| <= |gs|
    decreases |gs|
  {
    if gs == [] then []
    else
      var last := gs[|gs| - 1];
      GroupIssues(category, gs[..|gs| - 1]) + (if Reported(last) then [DuplicateIssue(category, last.1)] else [])
  }

  /** Every reported group has its issue. */
  lemma {:induction false} GroupIssuesComplete(category: string, gs: seq<(string, seq<string>)>, i: int)
    requires 0 <= i < |gs| && Reported(gs[i])
    ensures DuplicateIssue(category, gs[i].1) in GroupIssues(category, gs)
    decreases |gs|
  {
    if i < |gs| - 1 {
      assert gs[..|gs| - 1][i] == gs[i];
      GroupIssuesComplete(category, gs[..|gs| - 1], i);
    }
  }

  /** Every issue comes from a reported group. */
  lemma {:induction false} GroupIssuesSound(category: string, gs: seq<(string, seq<string>)>, x: Issue)
    returns (i: int)
    requires x in GroupIssues(category, gs)
    ensures 0 <= i < |gs| && Reported(gs[i]) && x == DuplicateIssue(category, gs[i].1)
    decreases |gs|
  {
    var init := gs[..|gs| - 1];
    GroupIssuesLast(category, gs);
    if x in GroupIssues(category, init) {
      i := GroupIssuesSound(category, init, x);
      assert init[i] == gs[i];
    } else {
      i := |gs| - 1;
    }
  }

  lemma GroupIssuesLast(category: string, gs: seq<(string, seq<string>)>)
    requires GroupIssues(category, gs) != []
    ensures gs != []
    ensures var last := gs[|gs| - 1];
      GroupIssues(category, gs) == GroupIssues(category, gs[..|gs| - 1])
        + (if Reported(last) then [DuplicateIssue(category, last.1)] else [])
  {
  }

  /** The `duplicate_identity_text` issues of one category's descriptors, in group order. */
  function DuplicateIssues(category: string, es: seq<(string, string)>): seq<Issue> {
    var cs := Cleaned(es);
    if |cs| < 2 then [] else GroupIssues(category, Groups(cs))
  }

  /** Two entries whose cleaned texts agree and are longer than 20 characters are reported
      together, in one issue naming every entry with that text. */
  lemma DuplicateFound(category: string, es: seq<(string, string)>, j: int, k: int)
    requires var cs := Cleaned(es); 0 <= j < k < |cs| && cs[j].1 == cs[k].1 && |cs[j].1| > 20
    ensures var cs := Cleaned(es);
      DuplicateIssue(category, NamesWith(cs, cs[j].1)) in DuplicateIssues(category, es)
  {
    var cs := Cleaned(es);
    var t := cs[j].1;
    GroupsSpec(cs);
    var gs := Groups(cs);
    var i := GroupIndex(gs, t);
    NamesWithTwo(cs, t, j, k);
    GroupIssuesComplete(category, gs, i);
  }

  lemma {:induction false} NamesWithTwo(cs: seq<(string, string)>, t: string, j: int, k: int)
    requires 0 <= j < k < |cs| && cs[j].1 == t && cs[k].1 == t
    ensures |NamesWith(cs, t)| > 1
    decreases |cs|
  {
    var init := cs[..|cs| - 1];
    if k < |cs| - 1 {
      NamesWithTwo(init, t, j, k);
    } else {
      assert init[j] == cs[j];
      NamesWithAt(init, t, j);
    }
  }

  lemma {:induction false} NamesWithAt(cs: seq<(string, string)>, t: string, j: int)
    requires 0 <= j < |cs| && cs[j].1 == t
    ensures |NamesWith(cs, t)| > 0
    decreases |cs|
  {
    if j < |cs| - 1 {
      assert cs[..|cs| - 1][j] == cs[j];
      NamesWithAt(cs[..|cs| - 1], t, j);
    }
  }

  /** Conversely, every issue reports a text longer than 20 characters that more than one entry
      shares, and names exactly those entries. */
  lemma DuplicateSound(category: string, es: seq<(string, string)>, x: Issue)
    requires x in DuplicateIssues(category, es)
    ensures exists t {:trigger NamesWith(Cleaned(es), t)} ::
      |t| > 20 && |NamesWith(Cleaned(es), t)| > 1 && x == DuplicateIssue(category, NamesWith(Cleaned(es), t))
  {
    GroupsSound(category, Cleaned(es), x);
  }

  lemma GroupsSound(category: string, cs: seq<(string, string)>, x: Issue)
    requires x in GroupIssues(category, Groups(cs))
    ensures exists t {:trigger NamesWith(cs, t)} ::
      |t| > 20 && |NamesWith(cs, t)| > 1 && x == DuplicateIssue(category, NamesWith(cs, t))
  {
    var i := GroupIssuesSound(category, Groups(cs), x);
    GroupNames(cs, i);
    var t := Groups(cs)[i].0;
    assert |NamesWith(cs, t)| > 1;
  }

  // ---------------------------------------------------------------------------------------------
  // Clarity heuristics (`detect_clarity_issues`)

  /** How many lines are longer than 220 characters. */
  function LongLineCount(lines: seq<string>): (n: nat)
    ensures n <= |lines|
    ensures n == 0 <==> forall i :: 0 <= i < |lines| ==> |lines[i]| <= 220
    decreases |lines|
  {
    if lines == [] then 0
    else
      var init := lines[..|lines| - 1];
      var n := LongLineCount(init);
      assert forall i :: 0 <= i < |init| ==> init[i] == lines[i];
      n + (if |lines[|lines| - 1]| > 220 then 1 else 0)
  }

  function LongLinesIssue(n: nat, location: string): Issue {
    Issue("low", "clarity", "long_lines", location,
      "File has " + NatToString(n) + " very long lines (>220 chars).",
      LongLinesFix)
  }

  function LongFileIssue(category: string, n: nat, location: string): Issue {
    Issue("low", "clarity", "overly_long_instructions", location,
      category + " file is very long (" + NatToString(n) + " lines).",
      LongFileFix)
  }

  /** The clarity issues of one file body: too many very long lines, and, for commands and
      rules, too many lines. */
  function ClarityIssues(body: string, category: string, location: string): (r: seq<Issue>)
    ensures |r| <= 2
    ensures forall i :: 0 <= i < |r| ==> r[i].severity == "low" && r[i].category == "clarity" && r[i].location == location
    ensures body == [] ==> r == []
  {
    var lines := SplitLines(body);
    if lines == [] then [] else LongLinesIssues(lines, location) + LongFileIssues(category, lines, location)
  }

  /** The `long_lines` part of `detect_clarity_issues`. */
  function LongLinesIssues(lines: seq<string>, location: string): seq<Issue> {
    var n := LongLineCount(lines);
    if n > 5 then [LongLinesIssue(n, location)] else []
  }

  /** The `overly_long_instructions` part of `detect_clarity_issues`. */
  function LongFileIssues(category: string, lines: seq<string>, location: string): seq<Issue> {
    if category in {"commands", "rules"} && |lines| > 280 then [LongFileIssue(category, |lines|, location)] else []
  }

  /** A `long_lines` issue is raised exactly when more than five lines exceed 220 characters,
      and it reports their number; short files and files outside commands and rules are never
      flagged as too long. */
  lemma ClarityTriggers(body: string, category: string, location: string)
    ensures var r := ClarityIssues(body, category, location); var lines := SplitLines(body);
      && ((exists i :: 0 <= i < |r| && r[i].code == "long_lines") <==> LongLineCount(lines) > 5)
      && ((exists i :: 0 <= i < |r| && r[i].code == "overly_long_instructions") <==>
            (category == "commands" || category == "rules") && |lines| > 280)
      && (|lines| <= 5 ==> forall i :: 0 <= i < |r| ==> r[i].code != "long_lines")
  {
    var lines := SplitLines(body);
    var r := ClarityIssues(body, category, location);
    if lines != [] {
      assert r == LongLinesIssues(lines, location) + LongFileIssues(category, lines, location);
      CodesOfClarity(lines, category, location);
    } else {
      assert r == [] && LongLineCount(lines) == 0;
    }
    assert |lines| <= 5 ==> LongLineCount(lines) <= 5;
  }

  lemma CodesOfClarity(lines: seq<string>, category: string, location: string)
    ensures var a := LongLinesIssues(lines, location); var b := LongFileIssues(category, lines, location);
      && ((exists i :: 0 <= i < |a + b| && (a + b)[i].code == "long_lines") <==> LongLineCount(lines) > 5)
      && ((exists i :: 0 <= i < |a + b| && (a + b)[i].code == "overly_long_instructions") <==>
            (category == "commands" || category == "rules") && |lines| > 280)
  {
    var a := LongLinesIssues(lines, location);
    var b := LongFileIssues(category, lines, location);
    var r := a + b;
    assert forall i :: 0 <= i < |a| ==> a[i].code == "long_lines";
    assert forall i :: 0 <= i < |b| ==> b[i].code == "overly_long_instructions" != "long_lines";
    forall i | 0 <= i < |r|
      ensures r[i].code == "long_lines" <==> i < |a|
      ensures r[i].code == "overly_long_instructions" <==> i >= |a|
    {
      if i < |a| {
        assert r[i] == a[i];
      } else {
        assert r[i] == b[i - |a|];
      }
    }
    assert |a| > 0 <==> LongLineCount(lines) > 5;
    assert |b| > 0 <==> (category == "commands" || category == "rules") && |lines| > 280;
    if |a| > 0 {
      assert r[0] == a[0];
    }
    if |b| > 0 {
      assert r[|a|] == b[0];
    }
  }

  // ---------------------------------------------------------------------------------------------
  // Mirrored skill assets (`compare_skill_assets`)

  /** One file of a skill directory: its absolute path (as components), its text as read, the
      body after its frontmatter, and its bytes. */
  datatype Asset = Asset(path: seq<string>, text: string, body: string, bytes: seq<bv8>)

  /** `collect_skill_assets` of one platform: asset keys (`SKILL` or a relative path) with their
      files, in the order found. */
  type SkillAssets = seq<(string, Asset)>

  /** `asset_map`: the platforms whose skill directory exists, with their assets. */
  type AssetMap = map<Platform, SkillAssets>

  /** `PLATFORMS[p].skill_file`. */
  function SkillFile(p: Platform): string {
    if p == Cursor then "SKILL.mdc" else "SKILL.md"
  }

  /** `TEXT_EXTENSIONS_FOR_MIRROR`. */
  const MirrorTextExtensions: set<string> := {
    ".md", ".mdc", ".txt", ".json", ".yaml", ".yml", ".toml", ".csv", ".xml", ".html",
    ".py", ".sh", ".js", ".ts", ".ps1", ".puml", ".mmd"
  }

  /** `is_text_file`: the lower-cased suffix of the file name is a mirror text extension. */
  predicate IsTextFile(path: seq<string>) {
    Lower(Suffix(if path == [] then "" else path[|path| - 1])) in MirrorTextExtensions
  }

  function FindAsset(assets: SkillAssets, key: string): Option<Asset>
    decreases |assets|
  {
    if assets == [] then None
    else if assets[0].0 == key then Some(assets[0].1)
    else FindAsset(assets[1..], key)
  }

  predicate Has(m: AssetMap, p: Platform, key: string) {
    p in m && FindAsset(m[p], key).Some?
  }

  /** The platforms of `ps` that have the asset (`want`) or lack it (`!want`), in the order of
      `ps`. */
  function Where(m: AssetMap, key: string, ps: seq<Platform>, want: bool): (r: seq<Platform>)
    ensures forall p :: p in r <==> p in ps && Has(m, p, key) == want
    ensures |r| <= |ps|
    decreases |ps|
  {
    if ps == [] then []
    else (if Has(m, ps[0], key) == want then [ps[0]] else []) + Where(m, key, ps[1..], want)
  }

  /** `present_platforms` and `sorted(missing_platforms)`; `PLATFORMS` is in sorted order. */
  function Present(m: AssetMap, key: string): seq<Platform> {
    Where(m, key, All, true)
  }

  function Missing(m: AssetMap, key: string): seq<Platform> {
    Where(m, key, All, false)
  }

  /** Every platform is either present or missing, so the two counts add up to three. */
  lemma {:induction false} WherePartition(m: AssetMap, key: string, ps: seq<Platform>)
    ensures |Where(m, key, ps, true)| + |Where(m, key, ps, false)| == |ps|
    decreases |ps|
  {
    if ps != [] {
      WherePartition(m, key, ps[1..]);
    }
  }

  /** The key of a `SKILL` file, whose name differs between platforms, or else the asset's
      relative path. */
  function ExpectedName(p: Platform, key: string): seq<string> {
    if key == "SKILL" then [SkillFile(p)] else Split(key, '/')
  }

  /** The issue for a platform that lacks an asset the others have, at the path where the asset
      should be. */
  function MissingIssue(workspace: seq<string>, skill: string, p: Platform, key: string): Issue {
    Issue("high", "mirror", "missing_mirror_asset",
      Rel(workspace, PathAt(workspace + [Name(p), "skills", skill] + ExpectedName(p, key))),
      "Skill '" + skill + "' is missing mirrored asset '" + key + "'.",
      MissingAssetFix)
  }

  function MissingIssues(workspace: seq<string>, skill: string, missing: seq<Platform>, key: string): (r: seq<Issue>)
    ensures |r| == |missing|
    ensures forall i :: 0 <= i < |r| ==> r[i] == MissingIssue(workspace, skill, missing[i], key)
    decreases |missing|
  {
    if missing == [] then []
    else
      var init := missing[..|missing| - 1];
      MissingIssues(workspace, skill, init, key) + [MissingIssue(workspace, skill, missing[|missing| - 1], key)]
  }

  function AssetOf(m: AssetMap, p: Platform, key: string): Asset
    requires Has(m, p, key)
  {
    FindAsset(m[p], key).value
  }

  /** `present_files`: the present platforms' files for one key. */
  lemma MissingIssuesNext(base: seq<Issue>, workspace: seq<string>, skill: string, missing: seq<Platform>, j: int, key: string)
    requires 0 <= j < |missing|
    ensures base + MissingIssues(workspace, skill, missing[..j + 1], key)
      == base + MissingIssues(workspace, skill, missing[..j], key) + [MissingIssue(workspace, skill, missing[j], key)]
  {
    assert missing[..j + 1][..j] == missing[..j];
  }

  function PresentFiles(m: AssetMap, key: string): (r: seq<Asset>)
    ensures |r| == |Present(m, key)|
  {
    FilesOf(m, key, Present(m, key))
  }

  function FilesOf(m: AssetMap, key: string, ps: seq<Platform>): (r: seq<Asset>)
    requires forall p :: p in ps ==> Has(m, p, key)
    ensures |r| == |ps|
    decreases |ps|
  {
    if ps == [] then [] else [AssetOf(m, ps[0], key)] + FilesOf(m, key, ps[1..])
  }

  /** `len(set(values)) <= 1`. */
  predicate AllSame<T(==)>(vs: seq<T>) {
    forall i :: 0 <= i < |vs| ==> vs[i] == vs[0]
  }

  /** The location of a mismatch: `platform:path` for each present file, joined by `, `. */
  function JoinedLocations(workspace: seq<string>, ps: seq<Platform>, files: seq<Asset>): string
    requires |ps| == |files|
  {
    Join(FileLocations(workspace, ps, files), ", ")
  }

  function FileLocations(workspace: seq<string>, ps: seq<Platform>, files: seq<Asset>): (r: seq<string>)
    requires |ps| == |files|
    decreases |ps|
  {
    if ps == [] then []
    else [Name(ps[0]) + ":" + Rel(workspace, PathAt(files[0].path))] + FileLocations(workspace, ps[1..], files[1..])
  }

  /** The mirror forms of the files' bodies (after frontmatter) and of their whole texts. */
  function BodyForms(files: seq<Asset>): (r: seq<string>)
    ensures |r| == |files|
    decreases |files|
  {
    if files == [] then [] else [MirrorForm(files[0].body)] + BodyForms(files[1..])
  }

  function TextForms(files: seq<Asset>): (r: seq<string>)
    ensures |r| == |files|
    decreases |files|
  {
    if files == [] then [] else [MirrorForm(files[0].text)] + TextForms(files[1..])
  }

  function Contents(files: seq<Asset>): (r: seq<seq<bv8>>)
    ensures |r| == |files|
    decreases |files|
  {
    if files == [] then [] else [files[0].bytes] + Contents(files[1..])
  }

  predicate AllText(files: seq<Asset>)
    decreases |files|
  {
    files == [] || (IsTextFile(files[0].path) && AllText(files[1..]))
  }

  /** Whether the present files of a key disagree: `SKILL` bodies and text files after mirror
      normalisation, any other file byte for byte. */
  predicate Mismatch(key: string, files: seq<Asset>) {
    if key == "SKILL" then !AllSame(BodyForms(files))
    else if AllText(files) then !AllSame(TextForms(files))
    else !AllSame(Contents(files))
  }

  function MismatchIssue(workspace: seq<string>, skill: string, key: string, ps: seq<Platform>, files: seq<Asset>): Issue
    requires |ps| == |files|
  {
    var at := JoinedLocations(workspace, ps, files);
    if key == "SKILL" then
      Issue("high", "mirror", "content_mismatch", at,
        "skills '" + skill + "/SKILL' body differs across mirrored files.",
        BodyMismatchFix)
    else
      Issue("high", "mirror", "skill_asset_content_mismatch", at,
        "Skill asset mismatch for '" + skill + "/" + key + "'.",
        AssetMismatchFix)
  }

  /** The issues of one asset key: one per platform lacking it (when some platform has it), then
      a mismatch issue when at least two platforms have it and their files disagree. */
  function KeyIssues(workspace: seq<string>, skill: string, m: AssetMap, key: string): seq<Issue> {
    (if |Present(m, key)| > 0 then MissingIssues(workspace, skill, Missing(m, key), key) else [])
    + CompareIssues(workspace, skill, m, key)
  }

  /** The mismatch part of a key's issues. */
  function CompareIssues(workspace: seq<string>, skill: string, m: AssetMap, key: string): (r: seq<Issue>)
    ensures |r| <= 1
    ensures |Present(m, key)| < 2 ==> r == []
    ensures forall i :: 0 <= i < |r| ==> r[i].code != "missing_mirror_asset"
  {
    var present := Present(m, key);
    if |present| >= 2 && Mismatch(key, PresentFiles(m, key))
    then [MismatchIssue(workspace, skill, key, present, PresentFiles(m, key))] else []
  }

  lemma CompareIssuesCases(workspace: seq<string>, skill: string, m: AssetMap, key: string)
    ensures |Present(m, key)| >= 2 ==>
      CompareIssues(workspace, skill, m, key)
      == (if Mismatch(key, PresentFiles(m, key))
          then [MismatchIssue(workspace, skill, key, Present(m, key), PresentFiles(m, key))] else [])
  {
  }

  /** The keys of every platform's assets, each once, in sorted order. */
  function AllKeys(m: AssetMap): seq<string> {
    SortedUnique(KeysOf(m, All))
  }

  function KeysOf(m: AssetMap, ps: seq<Platform>): seq<string>
    decreases |ps|
  {
    if ps == [] then []
    else KeysIn(m, ps[0]) + KeysOf(m, ps[1..])
  }

  function KeysIn(m: AssetMap, p: Platform): seq<string> {
    if p in m then AssetKeys(m[p]) else []
  }

  function AssetKeys(assets: SkillAssets): (r: seq<string>)
    ensures |r| == |assets| && forall i :: 0 <= i < |r| ==> r[i] == assets[i].0
    decreases |assets|
  {
    if assets == [] then [] else [assets[0].0] + AssetKeys(assets[1..])
  }

  function KeysIssues(workspace: seq<string>, skill: string, m: AssetMap, keys: seq<string>): seq<Issue>
    decreases |keys|
  {
    if keys == [] then []
    else KeysIssues(workspace, skill, m, keys[..|keys| - 1]) + KeyIssues(workspace, skill, m, keys[|keys| - 1])
  }

  lemma KeysIssuesSnoc(workspace: seq<string>, skill: string, m: AssetMap, keys: seq<string>, k: int)
    requires 0 <= k < |keys|
    ensures KeysIssues(workspace, skill, m, keys[..k + 1])
      == KeysIssues(workspace, skill, m, keys[..k]) + KeyIssues(workspace, skill, m, keys[k])
  {
    assert keys[..k + 1][..k] == keys[..k];
  }

  lemma KeysIssuesNext(base: seq<Issue>, workspace: seq<string>, skill: string, m: AssetMap, keys: seq<string>, k: int)
    requires 0 <= k < |keys|
    ensures base + KeysIssues(workspace, skill, m, keys[..k + 1])
      == base + KeysIssues(workspace, skill, m, keys[..k]) + KeyIssues(workspace, skill, m, keys[k])
  {
    KeysIssuesSnoc(workspace, skill, m, keys, k);
    AppendAssoc(base, KeysIssues(workspace, skill, m, keys[..k]), KeyIssues(workspace, skill, m, keys[k]));
  }

  /** The missing part of a key's issues is empty unless some platforms have the key and some
      lack it. */
  lemma KeyIssuesSplit(workspace: seq<string>, skill: string, m: AssetMap, key: string)
    ensures KeyIssues(workspace, skill, m, key)
      == (if |Missing(m, key)| > 0 && |Present(m, key)| > 0 then MissingIssues(workspace, skill, Missing(m, key), key) else [])
         + CompareIssues(workspace, skill, m, key)
  {
  }

  lemma GroupIssuesSnoc(category: string, gs: seq<(string, seq<string>)>, g: int)
    requires 0 <= g < |gs|
    ensures GroupIssues(category, gs[..g + 1])
      == GroupIssues(category, gs[..g]) + (if Reported(gs[g]) then [DuplicateIssue(category, gs[g].1)] else [])
  {
    assert gs[..g + 1][..g] == gs[..g];
  }

  lemma AppendAssoc<T>(a: seq<T>, b: seq<T>, c: seq<T>)
    ensures a + (b + c) == (a + b) + c
  {
  }

  /** All the issues `compare_skill_assets` records for one skill, key by key in sorted order. */
  function AssetIssues(workspace: seq<string>, skill: string, m: AssetMap): seq<Issue> {
    KeysIssues(workspace, skill, m, AllKeys(m))
  }

  /** Every key being compared is present on at least one platform. */
  lemma AllKeysPresent(m: AssetMap, key: string)
    requires key in AllKeys(m)
    ensures |Present(m, key)| >= 1
  {
    var p := KeysOfHas(m, key, All);
    assert p in Present(m, key);
  }

  lemma {:induction false} KeysOfHas(m: AssetMap, key: string, ps: seq<Platform>) returns (p: Platform)
    requires key in KeysOf(m, ps)
    ensures p in ps && Has(m, p, key)
    decreases |ps|
  {
    var here := KeysIn(m, ps[0]);
    if key in here {
      var i :| 0 <= i < |here| && here[i] == key;
      FindAssetAt(m[ps[0]], key, i);
      p := ps[0];
    } else {
      p := KeysOfHas(m, key, ps[1..]);
    }
  }

  lemma {:induction false} FindAssetAt(assets: SkillAssets, key: string, i: int)
    requires 0 <= i < |assets| && assets[i].0 == key
    ensures FindAsset(assets, key).Some?
    decreases |assets|
  {
    if assets[0].0 != key {
      FindAssetAt(assets[1..], key, i - 1);
    }
  }

  /** For a key being compared: one `missing_mirror_asset` issue for each platform without it,
      so three minus the number of platforms with it, and at most one issue more, none at all
      unless at least two platforms have it. */
  lemma KeyIssuesCount(workspace: seq<string>, skill: string, m: AssetMap, key: string)
    requires key in AllKeys(m)
    ensures var r := KeyIssues(workspace, skill, m, key); var missing := Missing(m, key);
      && |missing| == 3 - |Present(m, key)|
      && |missing| <= |r| <= |missing| + 1
      && (|Present(m, key)| < 2 ==> |r| == |missing|)
  {
    MissingCount(m, key);
    KeyIssuesShape(workspace, skill, m, key);
  }

  /** The `missing_mirror_asset` issues of a key come first, one per platform without it, in
      platform order; the issue after them, if any, is of another kind. */
  lemma KeyIssuesMissingFirst(workspace: seq<string>, skill: string, m: AssetMap, key: string)
    requires key in AllKeys(m)
    ensures var r := KeyIssues(workspace, skill, m, key); var missing := Missing(m, key);
      && |missing| <= |r|
      && (forall i :: 0 <= i < |missing| ==> r[i] == MissingIssue(workspace, skill, missing[i], key))
      && (forall i :: |missing| <= i < |r| ==> r[i].code != "missing_mirror_asset")
  {
    MissingCount(m, key);
    var head := MissingIssues(workspace, skill, Missing(m, key), key);
    var tail := CompareIssues(workspace, skill, m, key);
    KeyIssuesShape(workspace, skill, m, key);
    ConcatAt(head, tail);
  }

  lemma MissingCount(m: AssetMap, key: string)
    requires key in AllKeys(m)
    ensures |Present(m, key)| >= 1 && |Missing(m, key)| == 3 - |Present(m, key)|
  {
    AllKeysPresent(m, key);
    WherePartition(m, key, All);
  }

  lemma KeyIssuesShape(workspace: seq<string>, skill: string, m: AssetMap, key: string)
    requires |Present(m, key)| >= 1
    ensures KeyIssues(workspace, skill, m, key)
      == MissingIssues(workspace, skill, Missing(m, key), key) + CompareIssues(workspace, skill, m, key)
  {
  }

  lemma ConcatAt<T>(a: seq<T>, b: seq<T>)
    ensures |a + b| == |a| + |b|
    ensures forall i :: 0 <= i < |a| ==> (a + b)[i] == a[i]
    ensures forall i :: |a| <= i < |a| + |b| ==> (a + b)[i] == b[i - |a|]
  {
  }

  /** A key that every platform has raises no `missing_mirror_asset` issue. */
  lemma KeyEverywhere(workspace: seq<string>, skill: string, m: AssetMap, key: string)
    requires forall p :: Has(m, p, key)
    ensures forall x :: x in KeyIssues(workspace, skill, m, key) ==> x.code != "missing_mirror_asset"
  {
    assert Missing(m, key) == [];
  }
}
