/** Left-to-right, non-overlapping substitution of a literal pattern, as done by Python's
    `str.replace` and by `re.sub` with the three literal patterns the scripts use:
    a bare literal, a literal followed by `(?!\w)`, and a literal between `(?<!\w)` and `(?!\w)`.
    The lookbehind looks at the character before the match in the ORIGINAL text, which the
    scanner carries along as `prevWord`. */
module Substitute {
  import opened Text

  datatype Guard =
    | Plain          // `str.replace(pat, rep)` or `re.sub(re.escape(pat), rep, s)`
    | NotBeforeWord  // `re.sub(pat + r'(?!\w)', rep, s)`
    | Standalone     // `re.sub(r'(?<!\w)' + pat + r'(?!\w)', rep, s)`

  /** The pattern matches at the front of `s`; `prevWord` tells whether the character just
      before `s` in the original text is a word character (false at the start of the text). */
  predicate MatchesAt(g: Guard, pat: string, prevWord: bool, s: string) {
    StartsWith(s, pat) &&
    match g
    case Plain => true
    case NotBeforeWord => |s| == |pat| || !IsWordChar(s[|pat|])
    case Standalone => !prevWord && (|s| == |pat| || !IsWordChar(s[|pat|]))
  }

  function Sub(g: Guard, pat: string, rep: string, prevWord: bool, s: string): string
    requires pat != []
    decreases |s|
  {
    if s == [] then []
    else if MatchesAt(g, pat, prevWord, s) then rep + Sub(g, pat, rep, IsWordChar(pat[|pat| - 1]), s[|pat|..])
    else [s[0]] + Sub(g, pat, rep, IsWordChar(s[0]), s[1..])
  }

  /** `s.replace(pat, rep)`. */
  function Replace(s: string, pat: string, rep: string): string
    requires pat != []
  {
    Sub(Plain, pat, rep, false, s)
  }

  /** No occurrence of `q` begins inside `rep` and runs on into what follows it, and `q` does not
      occur inside `rep`: a replacement text that cannot make `q` appear. */
  ghost predicate StraddleFree(rep: string, q: string) {
    forall j :: 0 <= j < |rep| ==> !StartsWith(rep[j..], q) && !StartsWith(q, rep[j..])
  }

  /** Inserting `rep` where `pat` matched cannot create a new match right there. */
  predicate RepStable(pat: string, rep: string) {
    if |rep| >= |pat| then rep[..|pat|] != pat || (|rep| > |pat| && IsWordChar(rep[|pat|]))
    else pat[..|rep|] != rep || IsWordChar(pat[|rep|])
  }

  // ---------------------------------------------------------------------------------------------
  // Basic facts

  lemma PlainIgnoresPrev(pat: string, rep: string, pw: bool, s: string)
    requires pat != []
    ensures Sub(Plain, pat, rep, pw, s) == Replace(s, pat, rep)
    decreases |s|
  {
    if s != [] {
      if MatchesAt(Plain, pat, pw, s) {
        PlainIgnoresPrev(pat, rep, IsWordChar(pat[|pat| - 1]), s[|pat|..]);
        PlainIgnoresPrev(pat, rep, false, s[|pat|..]);
      } else {
        PlainIgnoresPrev(pat, rep, IsWordChar(s[0]), s[1..]);
        PlainIgnoresPrev(pat, rep, false, s[1..]);
      }
    }
  }

  /** A token absent from a text is absent from each of its suffixes. */
  lemma NotContainsSuffix(s: string, q: string, k: nat)
    requires k <= |s| && !Contains(s, q)
    ensures !Contains(s[k..], q)
  {
    forall i | 0 <= i <= |s[k..]| - |q|
      ensures !OccursAt(s[k..], q, i)
    {
      assert s[k..][i..i + |q|] == s[k + i..k + i + |q|];
      assert !OccursAt(s, q, k + i);
    }
  }

  /** A text in which the pattern does not occur is left as it is. */
  lemma {:induction false} SubAbsent(g: Guard, pat: string, rep: string, pw: bool, s: string)
    requires pat != [] && !Contains(s, pat)
    ensures Sub(g, pat, rep, pw, s) == s
    decreases |s|
  {
    if s != [] {
      assert !OccursAt(s, pat, 0);
      NotContainsSuffix(s, pat, 1);
      SubAbsent(g, pat, rep, IsWordChar(s[0]), s[1..]);
    }
  }

  /** Replacing a pattern with itself changes nothing. */
  lemma {:induction false} ReplaceWithItself(pat: string, pw: bool, s: string)
    requires pat != []
    ensures Sub(Plain, pat, pat, pw, s) == s
    decreases |s|
  {
    if s != [] {
      if MatchesAt(Plain, pat, pw, s) {
        ReplaceWithItself(pat, IsWordChar(pat[|pat| - 1]), s[|pat|..]);
        assert s == s[..|pat|] + s[|pat|..];
      } else {
        ReplaceWithItself(pat, IsWordChar(s[0]), s[1..]);
      }
    }
  }

  lemma BeforeStep(s: string, c: char)
    requires s != [] && s[0] != c
    ensures Before(s, c) == [s[0]] + Before(s[1..], c)
  {
    if c in s {
      assert c in s[1..];
      assert IndexOf(s, c) == 1 + IndexOf(s[1..], c);
      assert s[..IndexOf(s, c)] == [s[0]] + s[1..][..IndexOf(s[1..], c)];
    } else {
      assert c !in s[1..];
      assert s == [s[0]] + s[1..];
    }
  }

  /** The result is empty exactly when the text is, and starts with the text's first character or
      with the replacement's. */
  lemma SubHead(g: Guard, pat: string, rep: string, pw: bool, s: string)
    requires pat != [] && rep != []
    ensures var r := Sub(g, pat, rep, pw, s);
      (s == [] <==> r == []) && (s != [] ==> r[0] == s[0] || r[0] == rep[0])
  {
  }

  /** The scanner copies the text unchanged up to the first character that could begin a match,
      and at that character it writes either that character or the first one of `rep`. */
  lemma {:induction false} SubPrefix(g: Guard, pat: string, rep: string, pw: bool, s: string)
    requires pat != [] && rep != []
    ensures var b := Before(s, pat[0]); var out := Sub(g, pat, rep, pw, s);
      StartsWith(out, b)
      && (|b| == |s| ==> out == s)
      && (|b| < |s| ==> |out| > |b| && (out[|b|] == pat[0] || out[|b|] == rep[0]))
    decreases |s|
  {
    var b := Before(s, pat[0]);
    var out := Sub(g, pat, rep, pw, s);
    if s == [] {
    } else if s[0] == pat[0] {
      assert pat[0] in s;
      assert b == [];
    } else {
      BeforeStep(s, pat[0]);
      assert !MatchesAt(g, pat, pw, s);
      var out1 := Sub(g, pat, rep, IsWordChar(s[0]), s[1..]);
      SubPrefix(g, pat, rep, IsWordChar(s[0]), s[1..]);
      assert out == [s[0]] + out1;
      assert s == [s[0]] + s[1..];
      PrefixCons(s[0], s[1..], Before(s[1..], pat[0]), out1, pat[0], rep[0]);
    }
  }

  /** The facts `SubPrefix` states, carried over when one character is put in front of the text,
      of its part before the pattern's first character and of the result. */
  lemma PrefixCons(c: char, t: string, b: string, out: string, x: char, y: char)
    requires StartsWith(out, b)
    requires |b| == |t| ==> out == t
    requires |b| < |t| ==> |out| > |b| && (out[|b|] == x || out[|b|] == y)
    ensures StartsWith([c] + out, [c] + b)
    ensures |[c] + b| == |[c] + t| ==> [c] + out == [c] + t
    ensures |[c] + b| < |[c] + t| ==> |[c] + out| > |[c] + b| && (([c] + out)[|[c] + b|] == x || ([c] + out)[|[c] + b|] == y)
  {
    assert ([c] + out)[..|[c] + b|] == [c] + out[..|b|];
  }

  // ---------------------------------------------------------------------------------------------
  // No new occurrence

  lemma StraddleFreeConcat(rep: string, tail: string, q: string)
    requires StraddleFree(rep, q) && !Contains(tail, q)
    ensures forall i :: 0 <= i < |rep| ==> !OccursAt(rep + tail, q, i)
  {
    forall i | 0 <= i < |rep|
      ensures !OccursAt(rep + tail, q, i)
    {
      var w := rep + tail;
      if i + |q| <= |rep| {
        assert w[i..i + |q|] == rep[i..][..|q|];
      } else if i + |q| <= |w| {
        assert w[i..i + |q|][..|rep| - i] == rep[i..];
      }
    }
  }

  lemma NotContainsConcat(x: string, tail: string, q: string)
    requires !Contains(tail, q)
    requires forall i :: 0 <= i < |x| ==> !OccursAt(x + tail, q, i)
    ensures !Contains(x + tail, q)
  {
    forall i | 0 <= i <= |x + tail| - |q|
      ensures !OccursAt(x + tail, q, i)
    {
      if i >= |x| {
        assert (x + tail)[i..i + |q|] == tail[i - |x|..i - |x| + |q|];
        assert !OccursAt(tail, q, i - |x|);
      }
    }
  }

  /** Substitution does not make a token `q` appear, provided neither the first character of the
      pattern nor that of the replacement can sit inside `q`, and the replacement cannot straddle
      into an occurrence of `q`. When the pattern is `q` itself and every occurrence is replaced
      (`Plain`), the result is free of `q` whatever the input. */
  lemma {:induction false} KeepOut(g: Guard, pat: string, rep: string, pw: bool, s: string, q: string)
    requires pat != [] && rep != [] && |q| >= 2
    requires forall j :: 1 <= j < |q| - 1 ==> q[j] != pat[0] && q[j] != rep[0]
    requires q[|q| - 1] == rep[0] ==> rep[0] == pat[0]
    requires StraddleFree(rep, q)
    requires (g == Plain && q == pat) || !Contains(s, q)
    ensures !Contains(Sub(g, pat, rep, pw, s), q)
    decreases |s|
  {
    if s == [] {
      return;
    }
    if MatchesAt(g, pat, pw, s) {
      var rest := s[|pat|..];
      if !(g == Plain && q == pat) {
        NotContainsSuffix(s, q, |pat|);
      }
      KeepOut(g, pat, rep, IsWordChar(pat[|pat| - 1]), rest, q);
      var tail := Sub(g, pat, rep, IsWordChar(pat[|pat| - 1]), rest);
      StraddleFreeConcat(rep, tail, q);
      NotContainsConcat(rep, tail, q);
    } else {
      var rest := s[1..];
      if !(g == Plain && q == pat) {
        NotContainsSuffix(s, q, 1);
      }
      KeepOut(g, pat, rep, IsWordChar(s[0]), rest, q);
      var tail := Sub(g, pat, rep, IsWordChar(s[0]), rest);
      var out := [s[0]] + tail;
      assert !OccursAt(s, q, 0);
      CopiedHeadKeepsOut(g, pat, rep, s, q);
      NotContainsConcat([s[0]], tail, q);
    }
  }

  /** Copying the first character of `s` cannot start an occurrence of `q` that `s` lacked. */
  lemma CopiedHeadKeepsOut(g: Guard, pat: string, rep: string, s: string, q: string)
    requires pat != [] && rep != [] && |q| >= 2 && s != []
    requires forall j :: 1 <= j < |q| - 1 ==> q[j] != pat[0] && q[j] != rep[0]
    requires q[|q| - 1] == rep[0] ==> rep[0] == pat[0]
    requires !OccursAt(s, q, 0)
    ensures !OccursAt([s[0]] + Sub(g, pat, rep, IsWordChar(s[0]), s[1..]), q, 0)
  {
    var rest := s[1..];
    var tail := Sub(g, pat, rep, IsWordChar(s[0]), rest);
    SubPrefix(g, pat, rep, IsWordChar(s[0]), rest);
    var b := Before(rest, pat[0]);
    SharedPrefix(tail, rest, b);
    CopyKeepsOut(pat, rep, s, tail, |b|, q);
  }

  /** The core of `CopiedHeadKeepsOut`, over what `SubPrefix` tells of the copied tail: it agrees
      with `s[1..]` before index `k`, and at `k` it holds the first character of `pat` or `rep`. */
  lemma CopyKeepsOut(pat: string, rep: string, s: string, tail: string, k: int, q: string)
    requires pat != [] && rep != [] && |q| >= 2 && s != [] && 0 <= k <= |s| - 1 && k <= |tail|
    requires forall j :: 1 <= j < |q| - 1 ==> q[j] != pat[0] && q[j] != rep[0]
    requires q[|q| - 1] == rep[0] ==> rep[0] == pat[0]
    requires !OccursAt(s, q, 0)
    requires forall j :: 0 <= j < k ==> tail[j] == s[1..][j]
    requires k == |s| - 1 ==> tail == s[1..]
    requires k < |s| - 1 ==> |tail| > k && (tail[k] == pat[0] || tail[k] == rep[0]) && s[1..][k] == pat[0]
    ensures !OccursAt([s[0]] + tail, q, 0)
  {
    var out := [s[0]] + tail;
    if k == |s| - 1 {
      assert out == s;
    } else if |out| >= |q| {
      assert out[k + 1] == tail[k];
      if k + 1 < |q| - 1 || (k + 1 == |q| - 1 && tail[k] != q[k + 1]) {
        assert out[0..|q|][k + 1] != q[k + 1];
      } else {
        CopiedPrefix(s, tail, |q|);
      }
    }
  }

  /** Two texts that start with the same text agree on it. */
  lemma SharedPrefix(a: string, b: string, p: string)
    requires StartsWith(a, p) && StartsWith(b, p)
    ensures forall j :: 0 <= j < |p| ==> a[j] == b[j]
  {
    forall j | 0 <= j < |p|
      ensures a[j] == b[j]
    {
      assert a[..|p|][j] == b[..|p|][j];
    }
  }

  /** `[s[0]] + tail` agrees with `s` on its first `n` characters when `tail` copies the first
      `n - 1` characters of `s[1..]`. */
  lemma CopiedPrefix(s: string, tail: string, n: int)
    requires 1 <= n <= |s| && n - 1 <= |tail|
    requires forall j :: 0 <= j < n - 1 ==> tail[j] == s[1..][j]
    ensures ([s[0]] + tail)[0..n] == s[0..n]
  {
    var out := [s[0]] + tail;
    forall j | 0 <= j < n
      ensures out[j] == s[j]
    {
      if j > 0 {
        assert out[j] == tail[j - 1] == s[1..][j - 1];
      }
    }
  }

  // ---------------------------------------------------------------------------------------------
  // Idempotence of the guarded substitutions

  lemma MatchesAtAgree(g: Guard, pat: string, pw: bool, x: string, y: string)
    requires pat != []
    requires |x| > |pat| && |y| > |pat| && x[..|pat| + 1] == y[..|pat| + 1]
    ensures MatchesAt(g, pat, pw, x) == MatchesAt(g, pat, pw, y)
  {
    assert x[..|pat|] == x[..|pat| + 1][..|pat|];
    assert y[..|pat|] == y[..|pat| + 1][..|pat|];
    assert x[|pat|] == x[..|pat| + 1][|pat|];
    assert y[|pat|] == y[..|pat| + 1][|pat|];
  }

  /** A replacement that cannot be matched again when followed by a non-word character. */
  lemma RepNotMatched(g: Guard, pat: string, rep: string, pw: bool, x: string)
    requires g != Plain && pat != [] && rep != []
    requires RepStable(pat, rep)
    requires x == [] || !IsWordChar(x[0])
    ensures !MatchesAt(g, pat, pw, rep + x)
  {
    var w := rep + x;
    if |rep| >= |pat| {
      assert w[..|pat|] == rep[..|pat|];
      if |rep| > |pat| {
        assert w[|pat|] == rep[|pat|];
      }
    } else if |w| >= |pat| {
      assert w[..|pat|][..|rep|] == rep;
      assert w[..|pat|][|rep|] == x[0];
    }
  }

  /** Copying the first character of `s`, where no match starts, does not make one start there. */
  lemma CopiedHeadNotMatched(g: Guard, pat: string, rep: string, pw: bool, s: string)
    requires pat != [] && rep != [] && rep[0] == pat[0] && s != []
    requires forall j :: 1 <= j < |pat| ==> pat[j] != pat[0]
    requires !MatchesAt(g, pat, pw, s)
    ensures !MatchesAt(g, pat, pw, [s[0]] + Sub(g, pat, rep, IsWordChar(s[0]), s[1..]))
  {
    var rest := s[1..];
    var tail := Sub(g, pat, rep, IsWordChar(s[0]), rest);
    SubPrefix(g, pat, rep, IsWordChar(s[0]), rest);
    var b := Before(rest, pat[0]);
    SharedPrefix(tail, rest, b);
    CopyNotMatched(g, pat, pw, s, tail, |b|);
  }

  /** The core of `CopiedHeadNotMatched`, over what `SubPrefix` tells of the copied tail. */
  lemma CopyNotMatched(g: Guard, pat: string, pw: bool, s: string, tail: string, k: int)
    requires pat != [] && s != [] && 0 <= k <= |s| - 1 && k <= |tail|
    requires forall j :: 1 <= j < |pat| ==> pat[j] != pat[0]
    requires !MatchesAt(g, pat, pw, s)
    requires forall j :: 0 <= j < k ==> tail[j] == s[1..][j]
    requires k == |s| - 1 ==> tail == s[1..]
    requires k < |s| - 1 ==> |tail| > k && tail[k] == pat[0] && s[1..][k] == pat[0]
    ensures !MatchesAt(g, pat, pw, [s[0]] + tail)
  {
    var out := [s[0]] + tail;
    if k == |s| - 1 {
      assert out == s;
    } else if k < |pat| - 1 {
      assert out[k + 1] == tail[k];
      if |out| >= |pat| {
        assert out[..|pat|][k + 1] != pat[k + 1];
      }
    } else {
      CopiedPrefix(s, tail, |pat| + 1);
      assert out[..|pat| + 1] == out[0..|pat| + 1];
      MatchesAtAgree(g, pat, pw, out, s);
    }
  }

  /** No position of `s` is a match: the text as `re.search` would find no occurrence in it. */
  predicate Free(g: Guard, pat: string, prevWord: bool, s: string)
    requires pat != []
    decreases |s|
  {
    s == [] || (!MatchesAt(g, pat, prevWord, s) && Free(g, pat, IsWordChar(s[0]), s[1..]))
  }

  /** Substitution leaves a text without matches as it is. */
  lemma {:induction false} SubOfFree(g: Guard, pat: string, rep: string, pw: bool, s: string)
    requires pat != [] && Free(g, pat, pw, s)
    ensures Sub(g, pat, rep, pw, s) == s
    decreases |s|
  {
    if s != [] {
      SubOfFree(g, pat, rep, IsWordChar(s[0]), s[1..]);
    }
  }

  /** A piece with no match at its front and no character that could begin one, followed by a
      text without matches, gives a text without matches. */
  lemma {:induction false} FreeConcat(g: Guard, pat: string, pw: bool, x: string, y: string)
    requires pat != [] && x != []
    requires !MatchesAt(g, pat, pw, x + y)
    requires forall j :: 1 <= j < |x| ==> x[j] != pat[0]
    requires Free(g, pat, IsWordChar(x[|x| - 1]), y)
    ensures Free(g, pat, pw, x + y)
    decreases |x|
  {
    var w := x + y;
    assert w[1..] == x[1..] + y;
    if |x| > 1 {
      var x' := x[1..];
      assert x'[0] == x[1] != pat[0];
      FreeConcat(g, pat, IsWordChar(x[0]), x', y);
    } else {
      assert w[1..] == y;
    }
  }

  /** After a guarded substitution no match is left, as long as the replacement cannot be matched
      again and keeps the word-ness of the pattern's last character. */
  lemma {:induction false} SubLeavesFree(g: Guard, pat: string, rep: string, pw: bool, s: string)
    requires g != Plain && pat != [] && rep != [] && rep[0] == pat[0]
    requires forall j :: 1 <= j < |pat| ==> pat[j] != pat[0]
    requires forall j :: 1 <= j < |rep| ==> rep[j] != pat[0]
    requires RepStable(pat, rep)
    requires IsWordChar(rep[|rep| - 1]) == IsWordChar(pat[|pat| - 1])
    ensures Free(g, pat, pw, Sub(g, pat, rep, pw, s))
    decreases |s|
  {
    if s == [] {
      return;
    }
    if MatchesAt(g, pat, pw, s) {
      var wp := IsWordChar(pat[|pat| - 1]);
      var rest := s[|pat|..];
      var tail := Sub(g, pat, rep, wp, rest);
      SubPrefix(g, pat, rep, wp, rest);
      assert rest != [] ==> tail != [] && tail[0] == rest[0] && !IsWordChar(tail[0]);
      RepNotMatched(g, pat, rep, pw, tail);
      SubLeavesFree(g, pat, rep, wp, rest);
      FreeConcat(g, pat, pw, rep, tail);
    } else {
      var w0 := IsWordChar(s[0]);
      var tail := Sub(g, pat, rep, w0, s[1..]);
      CopiedHeadNotMatched(g, pat, rep, pw, s);
      SubLeavesFree(g, pat, rep, w0, s[1..]);
      assert ([s[0]] + tail)[1..] == tail;
    }
  }

  /** Hence the guarded substitutions can be applied twice to no further effect. */
  lemma SubIdempotent(g: Guard, pat: string, rep: string, pw: bool, s: string)
    requires g != Plain && pat != [] && rep != [] && rep[0] == pat[0]
    requires forall j :: 1 <= j < |pat| ==> pat[j] != pat[0]
    requires forall j :: 1 <= j < |rep| ==> rep[j] != pat[0]
    requires RepStable(pat, rep)
    requires IsWordChar(rep[|rep| - 1]) == IsWordChar(pat[|pat| - 1])
    ensures Sub(g, pat, rep, pw, Sub(g, pat, rep, pw, s)) == Sub(g, pat, rep, pw, s)
  {
    SubLeavesFree(g, pat, rep, pw, s);
    SubOfFree(g, pat, rep, pw, Sub(g, pat, rep, pw, s));
  }

  // ---------------------------------------------------------------------------------------------
  // Substitution over a concatenation

  /** No occurrence of `pat` in `x + y` begins in `x` and ends in `y`. */
  ghost predicate NoStraddle(x: string, y: string, pat: string) {
    forall i :: 0 <= i < |x| && i + |pat| > |x| ==> !OccursAt(x + y, pat, i)
  }

  /** Dropping `d` characters from the front keeps a seam free of straddling occurrences. */
  lemma NoStraddleDrop(x: string, y: string, pat: string, d: int)
    requires 0 < d <= |x| && NoStraddle(x, y, pat)
    ensures NoStraddle(x[d..], y, pat)
  {
    var w := x + y;
    assert x[d..] + y == w[d..];
    forall i | 0 <= i < |x[d..]| && i + |pat| > |x[d..]|
      ensures !OccursAt(x[d..] + y, pat, i)
    {
      if i + |pat| <= |w| - d {
        assert w[d..][i..i + |pat|] == w[i + d..i + d + |pat|];
        assert !OccursAt(w, pat, i + d);
      }
    }
  }

  /** One step of `str.replace`: the replacement or the first character, then the rest. */
  lemma ReplaceFront(pat: string, rep: string, w: string)
    requires pat != [] && w != []
    ensures var d := if StartsWith(w, pat) then |pat| else 1;
      Replace(w, pat, rep) == (if StartsWith(w, pat) then rep else [w[0]]) + Replace(w[d..], pat, rep)
  {
    var d := if StartsWith(w, pat) then |pat| else 1;
    var pw := if StartsWith(w, pat) then IsWordChar(pat[|pat| - 1]) else IsWordChar(w[0]);
    PlainIgnoresPrev(pat, rep, pw, w[d..]);
  }

  /** When no occurrence crosses the seam, `str.replace` works on each side separately. */
  lemma {:induction false} ReplaceConcat(pat: string, rep: string, x: string, y: string)
    requires pat != [] && NoStraddle(x, y, pat)
    ensures Replace(x + y, pat, rep) == Replace(x, pat, rep) + Replace(y, pat, rep)
    decreases |x|
  {
    if x == [] {
      assert x + y == y;
      return;
    }
    var d := SeamStep(pat, x, y);
    NoStraddleDrop(x, y, pat, d);
    ReplaceConcat(pat, rep, x[d..], y);
    ReplaceConcatStep(pat, rep, x, y, d);
  }

  /** How far the scanner advances at the front of `x + y`: past the pattern when it matches
      there (which then lies inside `x`), else by one character. */
  lemma SeamStep(pat: string, x: string, y: string) returns (d: int)
    requires pat != [] && x != [] && NoStraddle(x, y, pat)
    ensures 0 < d <= |x|
    ensures d == if StartsWith(x + y, pat) then |pat| else 1
    ensures StartsWith(x + y, pat) <==> StartsWith(x, pat)
  {
    var w := x + y;
    assert |pat| > |x| ==> !OccursAt(w, pat, 0);
    if |pat| <= |x| {
      assert w[..|pat|] == x[..|pat|];
    }
    d := if StartsWith(w, pat) then |pat| else 1;
  }

  lemma ReplaceConcatStep(pat: string, rep: string, x: string, y: string, d: int)
    requires pat != [] && x != [] && 0 < d <= |x|
    requires d == if StartsWith(x + y, pat) then |pat| else 1
    requires StartsWith(x + y, pat) <==> StartsWith(x, pat)
    requires Replace(x[d..] + y, pat, rep) == Replace(x[d..], pat, rep) + Replace(y, pat, rep)
    ensures Replace(x + y, pat, rep) == Replace(x, pat, rep) + Replace(y, pat, rep)
  {
    var w := x + y;
    var front := if StartsWith(x, pat) then rep else [x[0]];
    ReplaceFront(pat, rep, w);
    ReplaceFront(pat, rep, x);
    assert w[0] == x[0] && w[d..] == x[d..] + y;
    Regroup(Replace(w, pat, rep), Replace(x, pat, rep), front, Replace(x[d..], pat, rep), Replace(y, pat, rep));
  }

  /** `f + (c + e)` regrouped as `(f + c) + e`. */
  lemma Regroup(a: string, b: string, f: string, c: string, e: string)
    requires a == f + (c + e) && b == f + c
    ensures a == b + e
  {
  }

  /** A seam is safe on its left when the first character after it cannot continue `pat`. */
  lemma NoStraddleLeft(x: string, y: string, pat: string)
    requires y != [] && forall j :: 1 <= j < |pat| ==> pat[j] != y[0]
    ensures NoStraddle(x, y, pat)
  {
    forall i | 0 <= i < |x| && i + |pat| > |x|
      ensures !OccursAt(x + y, pat, i)
    {
      if i + |pat| <= |x + y| {
        assert (x + y)[i..i + |pat|][|x| - i] == y[0];
      }
    }
  }

  /** A seam is safe on its right when no tail of `x` that is shorter than `pat` begins `pat`,
      the text ends at the seam, or the first character after it does not continue the tail. */
  lemma NoStraddleRight(x: string, y: string, pat: string)
    requires forall j :: 0 <= j < |x| && |x| - j < |pat| ==>
      !StartsWith(pat, x[j..]) || y == [] || pat[|x| - j] != y[0]
    ensures NoStraddle(x, y, pat)
  {
    forall i | 0 <= i < |x| && i + |pat| > |x|
      ensures !OccursAt(x + y, pat, i)
    {
      if i + |pat| <= |x + y| {
        assert (x + y)[i..i + |pat|][..|x| - i] == x[i..];
        assert (x + y)[i..i + |pat|][|x| - i] == y[0];
      }
    }
  }

  /** `str.replace` on a text cut in three, where no occurrence crosses either cut, works on each
      piece separately. */
  lemma ReplaceAround(pat: string, rep: string, a: string, x: string, b: string)
    requires pat != [] && x != []
    requires forall j :: 1 <= j < |pat| ==> pat[j] != x[0]
    requires forall j :: 0 <= j < |x| && |x| - j < |pat| ==>
      !StartsWith(pat, x[j..]) || b == [] || pat[|x| - j] != b[0]
    ensures Replace(a + x + b, pat, rep) == Replace(a, pat, rep) + Replace(x, pat, rep) + Replace(b, pat, rep)
  {
    NoStraddleLeft(a, x + b, pat);
    assert a + x + b == a + (x + b);
    ReplaceConcat(pat, rep, a, x + b);
    NoStraddleRight(x, b, pat);
    ReplaceConcat(pat, rep, x, b);
  }

  /** A piece that holds no first character of the pattern, and whose own first character cannot
      continue the pattern, passes through `str.replace` untouched. */
  lemma ReplacePassesThrough(pat: string, rep: string, a: string, x: string, b: string)
    requires pat != [] && x != []
    requires forall j :: 0 <= j < |x| ==> x[j] != pat[0]
    requires forall j :: 1 <= j < |pat| ==> pat[j] != x[0]
    ensures Replace(a + x + b, pat, rep) == Replace(a, pat, rep) + x + Replace(b, pat, rep)
  {
    forall j | 0 <= j < |x|
      ensures !StartsWith(pat, x[j..])
    {
      assert x[j..][0] == x[j];
    }
    ReplaceAround(pat, rep, a, x, b);
    NotContainedByFirstChar(x, pat);
    SubAbsent(Plain, pat, rep, false, x);
  }

  /** A pattern whose first character appears nowhere else in `x`, and which `x` does not start
      with, does not occur in `x`. */
  lemma NotContainedByFirstChar(x: string, pat: string)
    requires pat != []
    requires forall j :: 1 <= j < |x| ==> x[j] != pat[0]
    requires !StartsWith(x, pat)
    ensures !Contains(x, pat)
  {
    forall i | 0 <= i <= |x| - |pat|
      ensures !OccursAt(x, pat, i)
    {
      if i > 0 {
        assert x[i..i + |pat|][0] == x[i];
      }
    }
  }

  lemma ReplaceWhole(pat: string, rep: string)
    requires pat != []
    ensures Replace(pat, pat, rep) == rep
  {
    assert StartsWith(pat, pat);
    assert pat[|pat|..] == [];
    assert Sub(Plain, pat, rep, IsWordChar(pat[|pat| - 1]), []) == [];
  }
}
