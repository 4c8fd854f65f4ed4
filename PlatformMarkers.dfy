/** The platform-marker normalisation of `scripts/ecosystem/ecosystem_audit.py`: every platform
    directory token and both skill file names are replaced by one neutral marker, so that the
    platform variants of a mirrored file compare equal. */
module PlatformMarkers {
  import opened Text
  import opened Substitute
  import opened Platforms
  import opened Frontmatter

  // normalize_platform_markers

  const PlatformMarker := "{platform}/"
  const SkillMdc := "SKILL.mdc"
  const SkillMd := "SKILL.md"
  const SkillCore := "SKILL.core"

  /** The two SKILL rewrites that follow the platform tokens: `SKILL.mdc`, then `SKILL.md`, both
      become `SKILL.core`. */
  function SkillNames(s: string): string {
    Replace(Replace(s, SkillMdc, SkillCore), SkillMd, SkillCore)
  }

  /** `normalize_platform_markers(content)`: no platform token and no SKILL file name is left. */
  function Markers(content: string): (r: string)
    ensures forall p :: !Contains(r, Token(p))
    ensures !Contains(r, SkillMd) && !Contains(r, SkillMdc)
  {
    var paths := ReplaceTokens(content, All, PlatformMarker);
    var r := SkillNames(paths);
    forall p
      ensures !Contains(r, Token(p))
    {
      MarkerKeepsOut(p);
      ReplaceTokensKeepsOut(content, All, PlatformMarker, p);
      CoreKeepsOutTokens(paths, p);
    }
    CoreKeepsOutSkill(Replace(paths, SkillMdc, SkillCore));
    MdcHoldsMd(r);
    r
  }

  lemma MarkerKeepsOut(p: Platform)
    ensures KeepsOut(PlatformMarker, p)
  {
    var q := Token(p);
    forall j | 0 <= j < |PlatformMarker|
      ensures !StartsWith(PlatformMarker[j..], q) && !StartsWith(q, PlatformMarker[j..])
    {
      assert PlatformMarker[j..][0] == PlatformMarker[j] != '.';
    }
  }

  lemma MarkerIsTokenLike()
    ensures TokenLike(PlatformMarker)
  {
    forall q
      ensures !StartsWith(PlatformMarker, Token(q)) && !StartsWith(Token(q), PlatformMarker)
    {
      assert PlatformMarker[0] != Token(q)[0];
    }
  }

  /** Neither SKILL rewrite can bring back a platform token. */
  lemma CoreKeepsOutTokens(s: string, p: Platform)
    requires !Contains(s, Token(p))
    ensures !Contains(SkillNames(s), Token(p))
  {
    var q := Token(p);
    forall j | 0 <= j < |SkillCore|
      ensures !StartsWith(SkillCore[j..], q) && !StartsWith(q, SkillCore[j..])
    {
      var t := SkillCore[j..];
      assert t[0] == SkillCore[j];
      if j == 5 {
        assert t[1] == 'c' && t[2] == 'o';
        assert q[1] != 'c' || q[2] != 'o';
      }
    }
    KeepOut(Plain, SkillMdc, SkillCore, false, s, q);
    KeepOut(Plain, SkillMd, SkillCore, false, Replace(s, SkillMdc, SkillCore), q);
  }

  /** Once every `SKILL.md` has become `SKILL.core`, none is left. */
  lemma CoreKeepsOutSkill(s: string)
    ensures !Contains(Replace(s, SkillMd, SkillCore), SkillMd)
  {
    forall j | 0 <= j < |SkillCore|
      ensures !StartsWith(SkillCore[j..], SkillMd) && !StartsWith(SkillMd, SkillCore[j..])
    {
      assert SkillCore[j..][0] == SkillCore[j];
      if j == 0 {
        assert SkillCore[..|SkillMd|][6] != SkillMd[6];
      }
    }
    KeepOut(Plain, SkillMd, SkillCore, false, s, SkillMd);
  }

  /** `SKILL.mdc` holds `SKILL.md`: a text free of the shorter name is free of the longer one. */
  lemma MdcHoldsMd(s: string)
    requires !Contains(s, SkillMd)
    ensures !Contains(s, SkillMdc)
  {
    forall i | 0 <= i <= |s| - |SkillMdc|
      ensures !OccursAt(s, SkillMdc, i)
    {
      assert !OccursAt(s, SkillMd, i);
      assert s[i..i + |SkillMdc|][..|SkillMd|] == s[i..i + |SkillMd|];
    }
  }

  /** `SKILL.md` and `SKILL.mdc` start with a character no pattern continues and run into no
      token. */
  lemma SkillNameInert(x: string)
    requires x == SkillMd || x == SkillMdc
    ensures x != [] && x[0] != '/' && !('a' <= x[0] <= 'z')
    ensures forall q :: StraddleFree(x, Token(q))
  {
    forall q
      ensures StraddleFree(x, Token(q))
    {
      DotMStraddleFree(x, q);
    }
  }

  /** Each platform token is rewritten into the marker, and the text on either side is
      normalised as if on its own. */
  lemma {:induction false} MarkersAroundToken(a: string, p: Platform, b: string)
    ensures Markers(a + Token(p) + b) == Markers(a) + PlatformMarker + Markers(b)
  {
    MarkerIsTokenLike();
    ReplaceTokensAround(a, Token(p), b, All, PlatformMarker, p);
    var pa := ReplaceTokens(a, All, PlatformMarker);
    var pb := ReplaceTokens(b, All, PlatformMarker);
    assert ReplaceTokens(a + Token(p) + b, All, PlatformMarker) == pa + PlatformMarker + pb;
    SkillNamesAroundInert(pa, PlatformMarker, pb);
  }

  /** Both SKILL rewrites leave the marker alone and work on either side of it. */
  lemma SkillNamesAroundInert(a: string, x: string, b: string)
    requires x == PlatformMarker
    ensures SkillNames(a + x + b) == SkillNames(a) + x + SkillNames(b)
  {
    ReplacePassesThrough(SkillMdc, SkillCore, a, x, b);
    ReplacePassesThrough(SkillMd, SkillCore, Replace(a, SkillMdc, SkillCore), x, Replace(b, SkillMdc, SkillCore));
  }

  /** Each SKILL file name is rewritten into `SKILL.core`, and the text on either side is
      normalised as if on its own; `SKILL.md` must not be followed by a `c`, which would make it
      `SKILL.mdc`. */
  lemma MarkersAroundSkill(a: string, x: string, b: string)
    requires x == SkillMd || x == SkillMdc
    requires x == SkillMdc || b == [] || b[0] != 'c'
    ensures Markers(a + x + b) == Markers(a) + SkillCore + Markers(b)
  {
    SkillNameInert(x);
    ReplaceTokensAroundInert(a, x, b, All, PlatformMarker);
    var pa := ReplaceTokens(a, All, PlatformMarker);
    var pb := ReplaceTokens(b, All, PlatformMarker);
    ReplaceTokensHead(b, All, PlatformMarker);
    assert x == SkillMdc || pb == [] || pb[0] != 'c';
    if x == SkillMd {
      SkillNamesAroundMd(pa, pb);
    } else {
      SkillNamesAroundMdc(pa, pb);
    }
  }

  lemma SkillNamesAroundMd(a: string, b: string)
    requires b == [] || b[0] != 'c'
    ensures SkillNames(a + SkillMd + b) == SkillNames(a) + SkillCore + SkillNames(b)
  {
    MdcStageKeepsMd(a, b);
    MdStageOnMd(Replace(a, SkillMdc, SkillCore), Replace(b, SkillMdc, SkillCore));
  }

  lemma MdcStageKeepsMd(a: string, b: string)
    requires b == [] || b[0] != 'c'
    ensures Replace(a + SkillMd + b, SkillMdc, SkillCore)
      == Replace(a, SkillMdc, SkillCore) + SkillMd + Replace(b, SkillMdc, SkillCore)
  {
    var x := SkillMd;
    forall j | 0 <= j < |x|
      ensures !StartsWith(SkillMdc, x[j..]) || j == 0
    {
      assert x[j..][0] == x[j];
    }
    ReplaceAround(SkillMdc, SkillCore, a, x, b);
    SubAbsent(Plain, SkillMdc, SkillCore, false, x);
  }

  lemma MdStageOnMd(a: string, b: string)
    ensures Replace(a + SkillMd + b, SkillMd, SkillCore)
      == Replace(a, SkillMd, SkillCore) + SkillCore + Replace(b, SkillMd, SkillCore)
  {
    var x := SkillMd;
    forall j | 1 <= j < |x|
      ensures !StartsWith(SkillMd, x[j..])
    {
      assert x[j..][0] == x[j];
    }
    ReplaceAround(SkillMd, SkillCore, a, x, b);
    ReplaceWhole(SkillMd, SkillCore);
  }

  lemma SkillNamesAroundMdc(a: string, b: string)
    ensures SkillNames(a + SkillMdc + b) == SkillNames(a) + SkillCore + SkillNames(b)
  {
    MdcStageOnMdc(a, b);
    MdStageKeepsCore(Replace(a, SkillMdc, SkillCore), Replace(b, SkillMdc, SkillCore));
  }

  lemma MdcStageOnMdc(a: string, b: string)
    ensures Replace(a + SkillMdc + b, SkillMdc, SkillCore)
      == Replace(a, SkillMdc, SkillCore) + SkillCore + Replace(b, SkillMdc, SkillCore)
  {
    var x := SkillMdc;
    forall j | 1 <= j < |x|
      ensures !StartsWith(SkillMdc, x[j..])
    {
      assert x[j..][0] == x[j];
    }
    ReplaceAround(SkillMdc, SkillCore, a, x, b);
    ReplaceWhole(SkillMdc, SkillCore);
  }

  lemma MdStageKeepsCore(a: string, b: string)
    ensures Replace(a + SkillCore + b, SkillMd, SkillCore)
      == Replace(a, SkillMd, SkillCore) + SkillCore + Replace(b, SkillMd, SkillCore)
  {
    var y := SkillCore;
    forall j | 1 <= j < |y|
      ensures !StartsWith(SkillMd, y[j..])
    {
      assert y[j..][0] == y[j];
    }
    ReplaceAround(SkillMd, SkillCore, a, y, b);
    CoreWithoutMd();
  }

  lemma CoreWithoutMd()
    ensures Replace(SkillCore, SkillMd, SkillCore) == SkillCore
  {
    assert SkillCore[..|SkillMd|][6] != SkillMd[6];
    NotContainedByFirstChar(SkillCore, SkillMd);
    SubAbsent(Plain, SkillMd, SkillCore, false, SkillCore);
  }

  /** Hence two texts that differ only in which platform they point into, or in which SKILL file
      name they use, normalise to the same text. */
  lemma MarkersIgnorePlatform(a: string, p: Platform, q: Platform, b: string)
    ensures Markers(a + Token(p) + b) == Markers(a + Token(q) + b)
  {
    MarkersAroundToken(a, p, b);
    MarkersAroundToken(a, q, b);
  }

  lemma MarkersIgnoreSkillName(a: string, b: string)
    requires b == [] || b[0] != 'c'
    ensures Markers(a + SkillMd + b) == Markers(a + SkillMdc + b)
  {
    MarkersAroundSkill(a, SkillMd, b);
    MarkersAroundSkill(a, SkillMdc, b);
  }

  /** Normalising the markers twice is the same as once. */
  lemma MarkersIdempotent(s: string)
    ensures Markers(Markers(s)) == Markers(s)
  {
    var r := Markers(s);
    ReplaceTokensAbsent(r, All, PlatformMarker);
    SubAbsent(Plain, SkillMdc, SkillCore, false, r);
    SubAbsent(Plain, SkillMd, SkillCore, false, r);
  }
}
