/** The frontmatter pattern `^---\s*\n(.*?)\n---\s*\n(.*)` with `re.DOTALL`, as `re.match` applies it,
    written out as a search that follows the regex engine's backtracking order, together with the
    metadata a frontmatter block holds once YAML has read it. */
module Frontmatter {
  import opened Text

  /** Every character at an index in `[i, j)` is whitespace. */
  predicate Blank(s: string, i: int, j: int) {
    0 <= i <= j <= |s| && forall k :: i <= k < j ==> IsSpace(s[k])
  }

  /** `\s*\n` can run from `i` to the newline at `n`. */
  predicate NewlineAfterSpace(s: string, i: int, n: int) {
    0 <= i <= n < |s| && Blank(s, i, n) && s[n] == '\n'
  }

  /** The opening line `---\s*\n` of the text, ending at the newline at `n1`. */
  predicate OpeningAt(s: string, n1: int) {
    StartsWith(s, "---") && NewlineAfterSpace(s, 3, n1)
  }

  /** A closing line `\n---\s*\n` that begins with the newline at `m` and ends at the newline at `n2`. */
  predicate ClosingAt(s: string, m: int, n2: int) {
    0 <= m && m + 4 <= |s| && s[m] == '\n' && s[m + 1..m + 4] == "---" && NewlineAfterSpace(s, m + 4, n2)
  }

  /** One way the whole pattern can match: the metadata group is `s[n1 + 1..m]` and the body
      group is `s[n2 + 1..]`. */
  predicate Matches(s: string, n1: int, m: int, n2: int) {
    OpeningAt(s, n1) && n1 + 1 <= m && ClosingAt(s, m, n2)
  }

  /** The end of the run of whitespace that starts at `i`. */
  function SpaceRunEnd(s: string, i: nat): (e: nat)
    requires i <= |s|
    ensures i <= e <= |s| && Blank(s, i, e) && (e == |s| || !IsSpace(s[e]))
    decreases |s| - i
  {
    if i < |s| && IsSpace(s[i]) then SpaceRunEnd(s, i + 1) else i
  }

  lemma SpaceRunBound(s: string, i: nat, n: int)
    requires i <= |s| && Blank(s, i, n + 1)
    ensures n < SpaceRunEnd(s, i)
  {
  }

  /** The last newline at an index in `[i, n]`, looking from `n` down. */
  function LastNewline(s: string, i: nat, n: int): (r: Option<nat>)
    requires n < |s|
    ensures r.Some? ==> i <= r.value <= n && s[r.value] == '\n'
    ensures r.Some? ==> forall k :: r.value < k <= n ==> s[k] != '\n'
    ensures r.None? ==> forall k :: i <= k <= n ==> s[k] != '\n'
    decreases n - i
  {
    if n < i then None
    else if s[n] == '\n' then Some(n)
    else LastNewline(s, i, n - 1)
  }

  /** `\s*\n` at `i`, greedy: the newline ending the longest whitespace stretch that ends in one. */
  function LineAfterSpace(s: string, i: nat): (r: Option<nat>)
    requires i <= |s|
    ensures r.Some? ==> NewlineAfterSpace(s, i, r.value)
    ensures r.Some? ==> forall n :: NewlineAfterSpace(s, i, n) ==> n <= r.value
    ensures r.None? ==> forall n :: !NewlineAfterSpace(s, i, n)
  {
    var e := SpaceRunEnd(s, i);
    var r := LastNewline(s, i, e - 1);
    forall n | NewlineAfterSpace(s, i, n)
      ensures n < e
    {
      SpaceRunBound(s, i, n);
    }
    r
  }

  /** The lazy `(.*?)\n---\s*\n`: the first closing line that begins at or after `from`. */
  function FirstClosing(s: string, from: nat): (r: Option<(nat, nat)>)
    ensures r.Some? ==> from <= r.value.0 && ClosingAt(s, r.value.0, r.value.1)
    ensures r.Some? ==> forall n :: ClosingAt(s, r.value.0, n) ==> n <= r.value.1
    ensures r.Some? ==> forall m, n :: from <= m < r.value.0 ==> !ClosingAt(s, m, n)
    ensures r.None? ==> forall m, n :: from <= m ==> !ClosingAt(s, m, n)
    decreases |s| - from
  {
    if from + 4 > |s| then None
    else if s[from] == '\n' && s[from + 1..from + 4] == "---" && LineAfterSpace(s, from + 4).Some? then
      Some((from, LineAfterSpace(s, from + 4).value))
    else FirstClosing(s, from + 1)
  }

  /** Tries the opening newlines from `n` down to index 3, as the greedy `\s*` gives back one
      character at a time, taking the first one after which a closing line exists. */
  function OpenFrom(s: string, n: int): (r: Option<(nat, nat, nat)>)
    requires 2 <= n < |s|
    requires s[..3] == "---" && Blank(s, 3, n + 1)
    ensures r.Some? ==> Matches(s, r.value.0, r.value.1, r.value.2) && r.value.0 <= n
    ensures r.Some? ==> forall n2 :: ClosingAt(s, r.value.1, n2) ==> n2 <= r.value.2
    ensures r.Some? ==> forall m, n2 :: r.value.0 + 1 <= m < r.value.1 ==> !ClosingAt(s, m, n2)
    decreases n
  {
    if n < 3 then None
    else if s[n] == '\n' && FirstClosing(s, n + 1).Some? then
      Some((n, FirstClosing(s, n + 1).value.0, FirstClosing(s, n + 1).value.1))
    else OpenFrom(s, n - 1)
  }

  /** `re.match(r'^---\s*\n(.*?)\n---\s*\n(.*)', s, re.DOTALL)`: the newline ending the opening
      line, the newline that begins the closing line, and the newline that ends it. */
  function Match(s: string): (r: Option<(nat, nat, nat)>)
    ensures r.Some? ==> Matches(s, r.value.0, r.value.1, r.value.2)
    ensures r.Some? ==> forall m, n2 :: r.value.0 + 1 <= m < r.value.1 ==> !ClosingAt(s, m, n2)
  {
    if StartsWith(s, "---") then OpenFrom(s, SpaceRunEnd(s, 3) - 1) else None
  }

  lemma {:induction false} OpenFromComplete(s: string, n: int, n1: int, m: int, n2: int)
    requires 2 <= n < |s| && s[..3] == "---" && Blank(s, 3, n + 1)
    requires Matches(s, n1, m, n2) && n1 <= n
    ensures OpenFrom(s, n).Some? && OpenFrom(s, n).value.0 >= n1
    ensures OpenFrom(s, n).value.0 == n1 ==> OpenFrom(s, n).value.1 <= m
    decreases n
  {
    if !(s[n] == '\n' && FirstClosing(s, n + 1).Some?) && n > n1 {
      OpenFromComplete(s, n - 1, n1, m, n2);
    }
  }

  /** The search finds a match whenever the pattern can match at all, and it prefers what the
      regex engine prefers: the latest opening newline, then the earliest closing line, then the
      longest closing line. */
  lemma MatchComplete(s: string, n1: int, m: int, n2: int)
    requires Matches(s, n1, m, n2)
    ensures Match(s).Some?
    ensures Match(s).value.0 >= n1
    ensures Match(s).value.0 == n1 ==> Match(s).value.1 <= m
    ensures Match(s).value.0 == n1 && Match(s).value.1 == m ==> Match(s).value.2 >= n2
  {
    var n := MatchStart(s, n1);
    OpenFromComplete(s, n, n1, m, n2);
    var o := OpenFrom(s, n);
    if o.value.0 == n1 && o.value.1 == m {
      assert ClosingAt(s, m, n2);
    }
  }

  /** With an opening line ending at `n1`, the search starts at or after `n1`. */
  lemma MatchStart(s: string, n1: int) returns (n: int)
    requires OpeningAt(s, n1)
    ensures n1 <= n < |s| && s[..3] == "---" && Blank(s, 3, n + 1)
    ensures Match(s) == OpenFrom(s, n)
  {
    SpaceRunBound(s, 3, n1);
    n := SpaceRunEnd(s, 3) - 1;
  }

  /** A matched frontmatter block takes at least nine characters (`---\n`, `\n---\n`), so the
      body left after it is strictly shorter than the text. */
  lemma BodyShorter(s: string)
    requires Match(s).Some?
    ensures |s[Match(s).value.2 + 1..]| <= |s| - 9
  {
  }

  // ---------------------------------------------------------------------------------------------
  // Metadata as YAML reads it

  /** A YAML value: a string, or any other value kept by its printed form. */
  datatype Value = Str(text: string) | NonStr(repr: string)

  /** A YAML mapping with its keys in document order. */
  type Metadata = seq<(string, Value)>

  predicate DistinctKeys(meta: Metadata) {
    forall i, j :: 0 <= i < j < |meta| ==> meta[i].0 != meta[j].0
  }

  function Keys(meta: Metadata): (ks: set<string>)
    ensures forall k :: k in ks <==> exists i :: 0 <= i < |meta| && meta[i].0 == k
  {
    set i | 0 <= i < |meta| :: meta[i].0
  }

  /** `meta.get(key)`. */
  function Get(meta: Metadata, key: string): (r: Option<Value>)
    ensures r.None? <==> key !in Keys(meta)
    ensures r.Some? ==> exists i :: 0 <= i < |meta| && meta[i] == (key, r.value)
  {
    if meta == [] then None
    else if meta[0].0 == key then Some(meta[0].1)
    else
      assert forall i :: 1 <= i < |meta| ==> meta[i] == meta[1..][i - 1];
      assert Keys(meta) == {meta[0].0} + Keys(meta[1..]);
      Get(meta[1..], key)
  }

  /** What `yaml.safe_load(text) or {}` gives: a mapping (empty for an empty document) or an error. */
  datatype Loaded = Mapping(meta: Metadata) | YamlError
}
