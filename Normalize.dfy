/** `normalize_text` and `normalize_for_mirror` of `scripts/ecosystem/ecosystem_audit.py`: line
    endings unified, `---` rules dropped, trailing whitespace removed, the whole text stripped. */
module Normalize {
  import opened Text
  import opened Substitute
  import opened Platforms
  import opened Frontmatter
  import opened PlatformMarkers

  // ---------------------------------------------------------------------------------------------
  // normalize_text

  predicate NoCR(s: string) {
    forall i :: 0 <= i < |s| ==> s[i] != '\r'
  }

  /** `content.replace("\r\n", "\n").replace("\r", "\n")`. */
  function UnifyNewlines(content: string): (r: string)
    ensures NoCR(r)
  {
    var r := Replace(Replace(content, "\r\n", "\n"), "\r", "\n");
    ReplaceCharOut(Replace(content, "\r\n", "\n"), '\r', "\n");
    r
  }

  lemma {:induction false} ReplaceCharOut(s: string, c: char, rep: string)
    requires c !in rep
    ensures forall i :: 0 <= i < |Replace(s, [c], rep)| ==> Replace(s, [c], rep)[i] != c
    decreases |s|
  {
    if s != [] {
      PlainIgnoresPrev([c], rep, if s[0] == c then IsWordChar(c) else IsWordChar(s[0]), s[1..]);
      ReplaceCharOut(s[1..], c, rep);
      if s[0] == c {
        assert s[|[c]|..] == s[1..];
      }
    }
  }

  /** A line as `normalize_text` leaves it: on one line and without `\r`, not a `---` rule, and
      without trailing whitespace. */
  predicate CleanLine(l: string) {
    NoBreak(l) && Strip(l) != "---" && RStrip(l) == l
  }

  predicate NoBreak(l: string) {
    forall i :: 0 <= i < |l| ==> l[i] != '\n' && l[i] != '\r'
  }

  predicate AllClean(ls: seq<string>) {
    forall k {:trigger CleanLine(ls[k])} :: 0 <= k < |ls| ==> CleanLine(ls[k])
  }

  lemma StripKeepsNoCR(s: string)
    requires NoCR(s)
    ensures NoCR(LStrip(s)) && NoCR(RStrip(s)) && NoCR(Strip(s))
  {
    var l := LStrip(s);
    SuffixNoCR(s, l);
    PrefixNoCR(s, RStrip(s));
    PrefixNoCR(l, RStrip(l));
  }

  lemma SuffixNoCR(s: string, t: string)
    requires NoCR(s) && |t| <= |s| && t == s[|s| - |t|..]
    ensures NoCR(t)
  {
    forall i | 0 <= i < |t|
      ensures t[i] != '\r'
    {
      assert t[i] == s[|s| - |t| + i];
    }
  }

  lemma PrefixNoCR(s: string, t: string)
    requires NoCR(s) && |t| <= |s| && t == s[..|t|]
    ensures NoCR(t)
  {
    forall i | 0 <= i < |t|
      ensures t[i] != '\r'
    {
      assert t[i] == s[i];
    }
  }

  lemma {:induction false} SplitKeepsNoCR(s: string)
    requires NoCR(s)
    ensures forall k :: 0 <= k < |Split(s, '\n')| ==> NoBreak(Split(s, '\n')[k])
    decreases |s|
  {
    var parts := Split(s, '\n');
    if '\n' in s {
      var i := IndexOf(s, '\n');
      SplitKeepsNoCR(s[i + 1..]);
      assert forall j :: 0 <= j < i ==> s[..i][j] == s[j] && s[j] != '\n';
    } else {
      assert forall j :: 0 <= j < |s| ==> s[j] != '\n';
    }
  }

  /** The loop of `normalize_text`: lines whose stripped form is `---` are dropped, the others
      lose their trailing whitespace. */
  function KeptLines(lines: seq<string>): (r: seq<string>)
    ensures |r| <= |lines|
  {
    if lines == [] then []
    else
      var line := lines[|lines| - 1];
      var init := KeptLines(lines[..|lines| - 1]);
      if Strip(line) == "---" then init else init + [RStrip(line)]
  }

  /** Lines on one line each come out of the loop clean. */
  lemma {:induction false} KeptLinesClean(lines: seq<string>)
    requires forall k :: 0 <= k < |lines| ==> NoBreak(lines[k])
    ensures AllClean(KeptLines(lines))
    decreases |lines|
  {
    if lines != [] {
      var init := lines[..|lines| - 1];
      var line := lines[|lines| - 1];
      NoBreakInit(lines, init);
      KeptLinesClean(init);
      if Strip(line) != "---" {
        RStripClean(line);
        AllCleanSnoc(KeptLines(init), RStrip(line));
      }
    }
  }

  lemma NoBreakInit(lines: seq<string>, init: seq<string>)
    requires lines != [] && forall k :: 0 <= k < |lines| ==> NoBreak(lines[k])
    requires init == lines[..|lines| - 1]
    ensures forall k :: 0 <= k < |init| ==> NoBreak(init[k])
  {
    assert forall k :: 0 <= k < |init| ==> init[k] == lines[k];
  }

  lemma AllCleanSnoc(ls: seq<string>, l: string)
    requires AllClean(ls) && CleanLine(l)
    ensures AllClean(ls + [l])
  {
    var w := ls + [l];
    forall k | 0 <= k < |w|
      ensures CleanLine(w[k])
    {
      if k < |ls| {
        assert w[k] == ls[k];
      }
    }
  }

  lemma RStripClean(line: string)
    requires NoBreak(line) && Strip(line) != "---"
    ensures CleanLine(RStrip(line))
  {
    StripOfRStrip(line);
    RStripOfStripped(RStrip(line));
    RStripNoBreak(line);
  }

  lemma RStripNoBreak(line: string)
    requires NoBreak(line)
    ensures NoBreak(RStrip(line))
  {
    NoBreakSlice(line, 0, |RStrip(line)|);
  }

  /** A piece of a line without breaks has none either. */
  lemma NoBreakSlice(l: string, a: nat, b: nat)
    requires NoBreak(l) && a <= b <= |l|
    ensures NoBreak(l[a..b])
  {
    forall i | 0 <= i < b - a
      ensures l[a..b][i] != '\n' && l[a..b][i] != '\r'
    {
      assert l[a..b][i] == l[a + i];
    }
  }

  /** `normalize_text(content)`. */
  function NormalizedText(content: string): string {
    var stripped := Strip(UnifyNewlines(content));
    Strip(Join(KeptLines(Split(stripped, '\n')), "\n"))
  }

  method NormalizeText(content: string) returns (r: string)
    ensures r == NormalizedText(content)
  {
    var stripped := Strip(Replace(Replace(content, "\r\n", "\n"), "\r", "\n"));
    var kept := KeepLines(Split(stripped, '\n'));
    r := Strip(Join(kept, "\n"));
  }

  /** The loop of `normalize_text` over the lines of the stripped text. */
  method KeepLines(lines: seq<string>) returns (kept: seq<string>)
    ensures kept == KeptLines(lines)
  {
    kept := [];
    var i := 0;
    while i < |lines|
      invariant 0 <= i <= |lines|
      invariant kept == KeptLines(lines[..i])
    {
      var line := lines[i];
      KeptLinesStep(lines, i);
      if Strip(line) != "---" {
        kept := kept + [RStrip(line)];
      }
      i := i + 1;
    }
    assert lines[..|lines|] == lines;
  }

  lemma KeptLinesStep(lines: seq<string>, i: int)
    requires 0 <= i < |lines|
    ensures KeptLines(lines[..i + 1]) ==
      if Strip(lines[i]) == "---" then KeptLines(lines[..i]) else KeptLines(lines[..i]) + [RStrip(lines[i])]
  {
    assert lines[..i + 1][..i] == lines[..i];
  }

  // The lines of the normalised text

  /** `lstrip()` of a text made of lines: leading blank lines go, and the first line that is not
      blank loses its leading whitespace. */
  function DropBlankHead(ls: seq<string>): (r: seq<string>)
    requires AllClean(ls)
    ensures AllClean(r)
  {
    if ls == [] then []
    else if ls[0] == [] then DropBlankHead(ls[1..])
    else
      LStripClean(ls[0]);
      AllCleanCons(LStrip(ls[0]), ls[1..]);
      [LStrip(ls[0])] + ls[1..]
  }

  /** `rstrip()` of a text made of lines without trailing whitespace: trailing blank lines go. */
  function DropBlankTail(ls: seq<string>): (r: seq<string>)
    requires AllClean(ls)
    ensures AllClean(r)
  {
    if ls == [] then []
    else if ls[|ls| - 1] == [] then DropBlankTail(ls[..|ls| - 1])
    else ls
  }

  lemma AllCleanCons(l: string, ls: seq<string>)
    requires CleanLine(l) && AllClean(ls)
    ensures AllClean([l] + ls)
  {
    var w := [l] + ls;
    forall k | 0 <= k < |w|
      ensures CleanLine(w[k])
    {
      if k > 0 {
        assert w[k] == ls[k - 1];
      }
    }
  }

  lemma LStripClean(l: string)
    requires l != [] && CleanLine(l)
    ensures LStrip(l) != [] && CleanLine(LStrip(l))
  {
    StripOfLStrip(l);
    LStripKeepsLast(l);
    RStripOfStripped(LStrip(l));
    LStripNoBreak(l);
  }

  lemma LStripKeepsLast(l: string)
    requires l != [] && RStrip(l) == l
    ensures LStrip(l) != [] && LStrip(l)[|LStrip(l)| - 1] == l[|l| - 1] && !IsSpace(l[|l| - 1])
  {
    var r := LStrip(l);
    LStripRemovesSpace(l);
    assert !IsSpace(l[|l| - 1]);
    assert |r| > 0;
    assert r[|r| - 1] == l[|l| - 1];
  }

  lemma LStripNoBreak(l: string)
    requires NoBreak(l)
    ensures NoBreak(LStrip(l))
  {
    var r := LStrip(l);
    NoBreakSlice(l, |l| - |r|, |l|);
    assert l[|l| - |r|..|l|] == r;
  }

  /** Left-stripping a text whose front carries no trailing whitespace keeps the rest. */
  lemma {:induction false} LStripConcat(x: string, y: string)
    requires x != [] && !IsSpace(x[|x| - 1])
    ensures LStrip(x + y) == LStrip(x) + y
    decreases |x|
  {
    if IsSpace(x[0]) {
      assert (x + y)[1..] == x[1..] + y;
      LStripConcat(x[1..], y);
    }
  }

  lemma {:induction false} LStripJoin(ls: seq<string>)
    requires AllClean(ls)
    ensures LStrip(Join(ls, "\n")) == Join(DropBlankHead(ls), "\n")
    decreases |ls|
  {
    if ls == [] {
      return;
    }
    AllCleanTail(ls);
    if |ls| == 1 {
      LStripJoinSingle(ls);
    } else if ls[0] == [] {
      LStripJoin(ls[1..]);
      LStripJoinBlankHead(ls);
    } else {
      LStripJoinTextHead(ls);
    }
  }

  lemma LStripJoinSingle(ls: seq<string>)
    requires |ls| == 1 && AllClean(ls)
    ensures LStrip(Join(ls, "\n")) == Join(DropBlankHead(ls), "\n")
  {
    assert Join(ls, "\n") == ls[0];
    if ls[0] != [] {
      assert DropBlankHead(ls) == [LStrip(ls[0])];
      assert Join([LStrip(ls[0])], "\n") == LStrip(ls[0]);
    } else {
      assert ls[1..] == [];
      assert DropBlankHead(ls) == DropBlankHead([]) == [];
    }
  }

  lemma LStripJoinBlankHead(ls: seq<string>)
    requires |ls| > 1 && AllClean(ls) && AllClean(ls[1..]) && ls[0] == []
    requires LStrip(Join(ls[1..], "\n")) == Join(DropBlankHead(ls[1..]), "\n")
    ensures LStrip(Join(ls, "\n")) == Join(DropBlankHead(ls), "\n")
  {
    var rest := Join(ls[1..], "\n");
    assert Join(ls, "\n") == "\n" + rest;
    assert IsSpace('\n');
    LStripSkips("\n" + rest);
    assert ("\n" + rest)[1..] == rest;
  }

  lemma LStripJoinTextHead(ls: seq<string>)
    requires |ls| > 1 && AllClean(ls) && ls[0] != []
    ensures LStrip(Join(ls, "\n")) == Join(DropBlankHead(ls), "\n")
  {
    HeadEndsInText(ls);
    DropTextHead(ls);
    LStripConsJoin(ls[0], ls[1..]);
    assert [ls[0]] + ls[1..] == ls;
  }

  lemma HeadEndsInText(ls: seq<string>)
    requires AllClean(ls) && ls != [] && ls[0] != []
    ensures !IsSpace(ls[0][|ls[0]| - 1])
  {
    assert CleanLine(ls[0]);
  }

  lemma DropTextHead(ls: seq<string>)
    requires AllClean(ls) && ls != [] && ls[0] != []
    ensures DropBlankHead(ls) == [LStrip(ls[0])] + ls[1..]
  {
  }

  lemma LStripConsJoin(l: string, tail: seq<string>)
    requires l != [] && tail != [] && !IsSpace(l[|l| - 1])
    ensures LStrip(Join([l] + tail, "\n")) == Join([LStrip(l)] + tail, "\n")
  {
    var rest := Join(tail, "\n");
    var ls := [l] + tail;
    var h := [LStrip(l)] + tail;
    assert ls[1..] == tail && h[1..] == tail;
    assert Join(ls, "\n") == l + ("\n" + rest);
    LStripConcat(l, "\n" + rest);
    assert Join(h, "\n") == LStrip(l) + ("\n" + rest);
  }

  lemma AllCleanTail(ls: seq<string>)
    requires ls != [] && AllClean(ls)
    ensures AllClean(ls[1..])
  {
    forall k | 0 <= k < |ls| - 1
      ensures CleanLine(ls[1..][k])
    {
      assert CleanLine(ls[k + 1]);
    }
  }

  lemma {:induction false} JoinSnoc(ls: seq<string>, l: string, sep: string)
    requires ls != []
    ensures Join(ls + [l], sep) == Join(ls, sep) + sep + l
    decreases |ls|
  {
    var w := ls + [l];
    assert w[1..] == ls[1..] + [l];
    if |ls| > 1 {
      JoinSnoc(ls[1..], l, sep);
    }
  }

  lemma {:induction false} RStripJoin(ls: seq<string>)
    requires AllClean(ls)
    ensures RStrip(Join(ls, "\n")) == Join(DropBlankTail(ls), "\n")
    decreases |ls|
  {
    if ls == [] {
      return;
    }
    var last := ls[|ls| - 1];
    var init := ls[..|ls| - 1];
    assert ls == init + [last];
    assert CleanLine(last);
    if |ls| == 1 {
      assert Join(ls, "\n") == last;
      RStripOfStripped(last);
    } else {
      JoinSnoc(init, last, "\n");
      var j := Join(init, "\n");
      assert Join(ls, "\n") == j + "\n" + last;
      if last == [] {
        assert j + "\n" + last == j + "\n";
        assert (j + "\n")[..|j|] == j;
        assert IsSpace('\n');
        RStripJoin(init);
      } else {
        assert !IsSpace(last[|last| - 1]);
        RStripOfStripped(j + "\n" + last);
      }
    }
  }

  lemma {:induction false} JoinNoCR(ls: seq<string>)
    requires forall k :: 0 <= k < |ls| ==> NoBreak(ls[k])
    ensures NoCR(Join(ls, "\n"))
    decreases |ls|
  {
    if |ls| > 1 {
      JoinNoCR(ls[1..]);
      var j := Join(ls[1..], "\n");
      assert Join(ls, "\n") == ls[0] + "\n" + j;
    }
  }

  lemma NoBreakFree(ls: seq<string>)
    requires forall k :: 0 <= k < |ls| ==> NoBreak(ls[k])
    ensures forall k :: 0 <= k < |ls| ==> '\n' !in ls[k]
  {
    forall k | 0 <= k < |ls|
      ensures '\n' !in ls[k]
    {
      assert forall i :: 0 <= i < |ls[k]| ==> ls[k][i] != '\n';
    }
  }

  /** Stripping the joined clean lines leaves a text without `\r` whose lines are clean. */
  lemma StripJoinClean(kept: seq<string>)
    requires AllClean(kept)
    ensures var r := Strip(Join(kept, "\n")); NoCR(r) && AllClean(Split(r, '\n'))
  {
    StripJoin(kept);
    JoinClean(DropBlankTail(DropBlankHead(kept)));
  }

  /** Stripping joined clean lines is dropping the blank lines at both ends. */
  lemma StripJoin(kept: seq<string>)
    requires AllClean(kept)
    ensures Strip(Join(kept, "\n")) == Join(DropBlankTail(DropBlankHead(kept)), "\n")
  {
    LStripJoin(kept);
    RStripJoin(DropBlankHead(kept));
  }

  /** Joined clean lines split back into themselves. */
  lemma JoinClean(t: seq<string>)
    requires AllClean(t)
    ensures NoCR(Join(t, "\n")) && AllClean(Split(Join(t, "\n"), '\n'))
  {
    AllCleanNoBreak(t);
    JoinNoCR(t);
    if t == [] {
      assert Split([], '\n') == [[]];
      assert CleanLine([]);
    } else {
      NoBreakFree(t);
      SplitJoin(t, '\n');
    }
  }

  lemma AllCleanNoBreak(ls: seq<string>)
    requires AllClean(ls)
    ensures forall k :: 0 <= k < |ls| ==> NoBreak(ls[k])
  {
    forall k | 0 <= k < |ls|
      ensures NoBreak(ls[k])
    {
      assert CleanLine(ls[k]);
    }
  }

  /** The normalised text has no `\r`, and each of its lines is clean: not a `---` rule and
      without trailing whitespace. */
  lemma NormalizedClean(content: string)
    ensures NoCR(NormalizedText(content))
    ensures AllClean(Split(NormalizedText(content), '\n'))
  {
    var stripped := Strip(UnifyNewlines(content));
    StripKeepsNoCR(UnifyNewlines(content));
    SplitKeepsNoCR(stripped);
    var kept := KeptLines(Split(stripped, '\n'));
    KeptLinesClean(Split(stripped, '\n'));
    StripJoinClean(kept);
  }

  lemma {:induction false} KeptLinesOfClean(ls: seq<string>)
    requires AllClean(ls)
    ensures KeptLines(ls) == ls
    decreases |ls|
  {
    if ls != [] {
      var init := ls[..|ls| - 1];
      AllCleanInit(ls);
      KeptLinesOfClean(init);
      KeptCleanLast(ls, init);
    }
  }

  lemma KeptCleanLast(ls: seq<string>, init: seq<string>)
    requires ls != [] && init == ls[..|ls| - 1] && CleanLine(ls[|ls| - 1])
    requires KeptLines(init) == init
    ensures KeptLines(ls) == ls
  {
    var l := ls[|ls| - 1];
    assert Strip(l) != "---" && RStrip(l) == l;
    assert KeptLines(ls) == init + [l];
    InitLast(ls);
  }

  lemma AllCleanInit(ls: seq<string>)
    requires ls != [] && AllClean(ls)
    ensures AllClean(ls[..|ls| - 1]) && CleanLine(ls[|ls| - 1])
  {
    var init := ls[..|ls| - 1];
    forall k | 0 <= k < |init|
      ensures CleanLine(init[k])
    {
      assert init[k] == ls[k];
    }
  }

  lemma NoCRFree(s: string)
    requires NoCR(s)
    ensures !Contains(s, "\r\n") && !Contains(s, "\r")
  {
    forall i | 0 <= i <= |s| - 1
      ensures !OccursAt(s, "\r\n", i) && !OccursAt(s, "\r", i)
    {
      assert s[i..i + 1][0] == s[i];
      if i + 2 <= |s| {
        assert s[i..i + 2][0] == s[i];
      }
    }
  }

  lemma UnifyOfNoCR(s: string)
    requires NoCR(s)
    ensures UnifyNewlines(s) == s
  {
    NoCRFree(s);
    SubAbsent(Plain, "\r\n", "\n", false, s);
    SubAbsent(Plain, "\r", "\n", false, s);
  }

  /** A text without `\r`, equal to its own `strip()`, whose lines are clean, is left as it is. */
  lemma NormalizedOfClean(r: string)
    requires NoCR(r) && Strip(r) == r && AllClean(Split(r, '\n'))
    ensures NormalizedText(r) == r
  {
    UnifyOfNoCR(r);
    var lines := Split(r, '\n');
    StripKeepsNoCR(r);
    SplitKeepsNoCR(r);
    KeptLinesOfClean(lines);
    JoinSplit(r, '\n');
  }

  /** Normalising twice gives the same text as normalising once. */
  lemma NormalizeIdempotent(content: string)
    ensures NormalizedText(NormalizedText(content)) == NormalizedText(content)
  {
    var r := NormalizedText(content);
    NormalizedClean(content);
    var stripped := Strip(UnifyNewlines(content));
    StripIdempotent(Join(KeptLines(Split(stripped, '\n')), "\n"));
    NormalizedOfClean(r);
  }

  // ---------------------------------------------------------------------------------------------
  // The mirror form: normalised text with platform markers unified

  /** What `normalize_for_mirror` computes: two mirrored files match when these are equal. */
  function MirrorForm(content: string): (r: string)
    ensures forall p :: !Contains(r, Token(p))
    ensures !Contains(r, SkillMd) && !Contains(r, SkillMdc)
  {
    Markers(NormalizedText(content))
  }

  method NormalizeForMirror(content: string) returns (r: string)
    ensures r == MirrorForm(content)
    ensures forall p :: !Contains(r, Token(p))
  {
    var normalized := NormalizeText(content);
    r := Markers(normalized);
  }
}
