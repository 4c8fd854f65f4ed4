/** The identity line of a file and the cleaning of a markdown link target, as
    `scripts/ecosystem/ecosystem_audit.py` computes them. */
module Identity {
  import opened Text
  import opened Substitute
  import opened Platforms
  import opened Frontmatter

  // ---------------------------------------------------------------------------------------------
  // Identity lines

  /** A trimmed line that cannot describe a file: blank, a heading, a quote or a list item. */
  predicate Skipped(t: string) {
    t == [] || StartsWith(t, "#") || StartsWith(t, ">") || StartsWith(t, "- ") || StartsWith(t, "* ")
  }

  /** Every line trimmed, in order. */
  function TrimAll(lines: seq<string>): (r: seq<string>)
    ensures |r| == |lines|
  {
    seq(|lines|, j requires 0 <= j < |lines| => Strip(lines[j]))
  }

  lemma TrimAllAt(lines: seq<string>, j: int)
    requires 0 <= j < |lines|
    ensures TrimAll(lines)[j] == Strip(lines[j])
  {
  }

  /** The index of the first trimmed line that is not skipped, or `|ts|`. */
  function FirstUsable(ts: seq<string>): (i: nat)
    ensures i <= |ts|
    ensures forall j :: 0 <= j < i ==> Skipped(ts[j])
    ensures i < |ts| ==> !Skipped(ts[i])
    decreases |ts|
  {
    if ts == [] then 0
    else if !Skipped(ts[0]) then 0
    else 1 + FirstUsable(ts[1..])
  }

  /** What `first_identity_line` returns for a body. */
  function IdentityLine(body: string): string {
    var ts := TrimAll(SplitLines(body));
    var i := FirstUsable(ts);
    if i < |ts| then ts[i] else Fallback(body)
  }

  /** The first line of the stripped body, trimmed, or `""` for a blank body. */
  function Fallback(body: string): string {
    var stripped := Strip(body);
    if stripped == [] then [] else Strip(SplitLines(stripped)[0])
  }

  method FirstIdentityLine(body: string) returns (r: string)
    ensures r == IdentityLine(body)
  {
    var lines := SplitLines(body);
    ghost var ts := TrimAll(lines);
    var i := 0;
    while i < |lines|
      invariant 0 <= i <= FirstUsable(ts)
    {
      var trimmed := Strip(lines[i]);
      TrimAllAt(lines, i);
      FirstUsableStep(ts, i);
      if !Skipped(trimmed) {
        IdentityAt(body, i);
        return trimmed;
      }
      i := i + 1;
    }
    IdentityAt(body, i);
    r := Fallback(body);
  }

  /** Scanning on from a line no later than the first usable one. */
  lemma FirstUsableStep(ts: seq<string>, i: int)
    requires 0 <= i < |ts| && i <= FirstUsable(ts)
    ensures Skipped(ts[i]) ==> i + 1 <= FirstUsable(ts)
    ensures !Skipped(ts[i]) ==> FirstUsable(ts) == i
  {
  }

  lemma IdentityAt(body: string, i: int)
    requires i == FirstUsable(TrimAll(SplitLines(body)))
    ensures IdentityLine(body) == if i < |SplitLines(body)| then TrimAll(SplitLines(body))[i] else Fallback(body)
  {
  }

  /** The first usable line is the one before which every line is skipped. */
  lemma FirstUsableAt(ts: seq<string>, i: int)
    requires 0 <= i <= |ts|
    requires forall j :: 0 <= j < i ==> Skipped(ts[j])
    requires i < |ts| ==> !Skipped(ts[i])
    ensures FirstUsable(ts) == i
  {
  }

  /** The identity line is empty exactly when the body is blank. */
  lemma IdentityLineBlank(body: string)
    ensures IdentityLine(body) == [] <==> AllSpace(body)
  {
    if AllSpace(body) {
      IdentityOfBlank(body);
    } else {
      IdentityOfNonBlank(body);
    }
  }

  lemma IdentityOfBlank(body: string)
    requires AllSpace(body)
    ensures IdentityLine(body) == []
  {
    var lines := SplitLines(body);
    var ts := TrimAll(lines);
    SplitLinesBlank(body);
    forall j | 0 <= j < |ts|
      ensures Skipped(ts[j])
    {
      TrimAllAt(lines, j);
      StripBlank(lines[j]);
    }
    FirstUsableAt(ts, |ts|);
    StripBlank(body);
  }

  lemma IdentityOfNonBlank(body: string)
    requires !AllSpace(body)
    ensures IdentityLine(body) != []
  {
    var ts := TrimAll(SplitLines(body));
    if FirstUsable(ts) == |ts| {
      StripBlank(body);
      StripIdempotent(body);
      FirstLineOfStripped(Strip(body));
    }
  }

  /** The first line of a non-blank stripped text is not blank once trimmed. */
  lemma FirstLineOfStripped(s: string)
    requires s != [] && !IsSpace(s[0])
    ensures Strip(SplitLines(s)[0]) != []
  {
    LineBreakIsSpace(s[0]);
    var first := SplitLines(s)[0];
    assert first == s[..LineEnd(s)] && first[0] == s[0];
    LStripKeeps(first);
    StripBlank(first);
  }

  /** Every line of a blank text is blank. */
  lemma {:induction false} SplitLinesBlank(s: string)
    requires AllSpace(s)
    ensures forall j :: 0 <= j < |SplitLines(s)| ==> AllSpace(SplitLines(s)[j])
    decreases |s|
  {
    if s != [] {
      var k := LineEnd(s);
      if k < |s| {
        var next := if s[k] == '\r' && k + 1 < |s| && s[k + 1] == '\n' then k + 2 else k + 1;
        AllSpaceSlice(s, 0, k);
        AllSpaceSlice(s, next, |s|);
        SplitLinesBlank(s[next..]);
        SplitLinesCons(s, k, next);
      }
    }
  }

  lemma AllSpaceSlice(s: string, a: int, b: int)
    requires 0 <= a <= b <= |s| && AllSpace(s)
    ensures AllSpace(s[a..b])
  {
    assert forall j :: 0 <= j < b - a ==> s[a..b][j] == s[a + j];
  }

  lemma SplitLinesCons(s: string, k: int, next: int)
    requires s != [] && k == LineEnd(s) < |s|
    requires next == if s[k] == '\r' && k + 1 < |s| && s[k + 1] == '\n' then k + 2 else k + 1
    requires AllSpace(s[..k])
    requires forall j :: 0 <= j < |SplitLines(s[next..])| ==> AllSpace(SplitLines(s[next..])[j])
    ensures forall j :: 0 <= j < |SplitLines(s)| ==> AllSpace(SplitLines(s)[j])
  {
    var ls := SplitLines(s);
    assert ls == [s[..k]] + SplitLines(s[next..]);
    forall j | 0 <= j < |ls|
      ensures AllSpace(ls[j])
    {
      if j > 0 {
        assert ls[j] == SplitLines(s[next..])[j - 1];
      }
    }
  }

  /** The first usable line wins: when every line before line `i` is skipped once trimmed and
      line `i` is not, the identity line is line `i` trimmed, itself not skipped and stripped. */
  lemma IdentityLineFirstUsable(body: string, i: int)
    requires 0 <= i < |SplitLines(body)|
    requires forall j :: 0 <= j < i ==> Skipped(Strip(SplitLines(body)[j]))
    requires !Skipped(Strip(SplitLines(body)[i]))
    ensures IdentityLine(body) == Strip(SplitLines(body)[i])
    ensures !Skipped(IdentityLine(body)) && Strip(IdentityLine(body)) == IdentityLine(body)
  {
    var lines := SplitLines(body);
    var ts := TrimAll(lines);
    forall j | 0 <= j <= i
      ensures ts[j] == Strip(lines[j])
    {
      TrimAllAt(lines, j);
    }
    FirstUsableAt(ts, i);
    StripIdempotent(lines[i]);
  }

  /** With no usable line, a non-blank body falls back to its first non-blank line, trimmed. */
  lemma IdentityLineFallback(body: string)
    requires forall j :: 0 <= j < |SplitLines(body)| ==> Skipped(Strip(SplitLines(body)[j]))
    ensures AllSpace(body) ==> IdentityLine(body) == []
    ensures !AllSpace(body) ==> Strip(body) != [] && IdentityLine(body) == Strip(SplitLines(Strip(body))[0])
  {
    var lines := SplitLines(body);
    var ts := TrimAll(lines);
    forall j | 0 <= j < |ts|
      ensures Skipped(ts[j])
    {
      TrimAllAt(lines, j);
    }
    FirstUsableAt(ts, |ts|);
    StripBlank(body);
  }

  /** `extract_identity`: a non-blank string `description`, stripped, else the identity line. */
  function ExtractIdentity(meta: Metadata, body: string): (r: string)
    ensures match Get(meta, "description")
      case Some(Str(d)) => !AllSpace(d) ==> r == Strip(d)
      case _ => true
    ensures r == [] <==> !UsableDescription(meta) && AllSpace(body)
    ensures !UsableDescription(meta) ==> r == IdentityLine(body)
  {
    IdentityLineBlank(body);
    match Get(meta, "description")
    case Some(Str(d)) =>
      StripBlank(d);
      if Strip(d) != [] then Strip(d) else IdentityLine(body)
    case _ => IdentityLine(body)
  }

  predicate UsableDescription(meta: Metadata) {
    match Get(meta, "description")
    case Some(Str(d)) => !AllSpace(d)
    case _ => false
  }

  // ---------------------------------------------------------------------------------------------
  // Link targets

  /** The target trimmed of whitespace, then of `<` and `>`, then of whitespace again. */
  function Unwrapped(t: string): string {
    Strip(StripChars(Strip(t), {'<', '>'}))
  }

  predicate IsWebUrl(t: string) {
    StartsWith(t, "http://") || StartsWith(t, "https://")
  }

  /** `clean_link_target`: an unwrapped target that is not a web URL is cut at its first space. */
  function CleanLinkTarget(t: string): (r: string)
    ensures StartsWith(Unwrapped(t), r)
    ensures r == [] || !IsSpace(r[0])
    ensures IsWebUrl(Unwrapped(t)) || ' ' !in Unwrapped(t) ==> r == Unwrapped(t)
    ensures !IsWebUrl(Unwrapped(t)) ==> ' ' !in r
    ensures !IsWebUrl(Unwrapped(t)) && ' ' in Unwrapped(t) ==> Unwrapped(t)[|r|] == ' '
  {
    var target := Unwrapped(t);
    StripIdempotent(StripChars(Strip(t), {'<', '>'}));
    if ' ' in target && !IsWebUrl(target) then Before(target, ' ') else target
  }

  /** A target with no whitespace and no angle brackets is kept as it is. */
  lemma CleanLinkTargetPlain(t: string)
    requires forall i :: 0 <= i < |t| ==> !IsSpace(t[i]) && t[i] != '<' && t[i] != '>'
    ensures CleanLinkTarget(t) == t
  {
    StripOfStripped(t);
    assert StripChars(t, {'<', '>'}) == t;
    assert ' ' !in t by {
      assert IsSpace(' ');
    }
  }
}
