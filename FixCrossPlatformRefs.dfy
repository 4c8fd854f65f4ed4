/** `scripts/ecosystem/fix_cross_platform_refs.py`: makes a file of one platform tree
    self-contained by pointing every reference into another tree at its own tree. */
module FixCrossPlatformRefs {
  import opened Text
  import opened Substitute
  import opened Platforms
  import SyncContent

  /** `[p for p in ['.agent', '.claude', '.cursor'] if p != current_platform]`. */
  function Others(current: Platform): (ps: seq<Platform>)
    ensures forall p :: p in ps <==> p != current
  {
    Without(All, current)
  }

  function Without(ps: seq<Platform>, t: Platform): (r: seq<Platform>)
    ensures forall p :: p in r <==> p in ps && p != t
  {
    if ps == [] then [] else (if ps[0] == t then [] else [ps[0]]) + Without(ps[1..], t)
  }

  /** `re.sub(r'/SKILL\.md(?!\w)', '/SKILL.mdc', s)`. */
  function SlashSkillToMdc(s: string): string {
    Sub(NotBeforeWord, "/SKILL.md", "/SKILL.mdc", false, s)
  }

  /** The text `fix_file_references` would write. */
  function FixedText(content: string, current: Platform): string {
    var c := ReplaceTokens(content, Others(current), Token(current));
    if current == Cursor then SlashSkillToMdc(c) else c
  }

  /** The fixed text names no other platform's directory and, in `.cursor`, holds no `/SKILL.md`
      that is not followed by a word character. */
  lemma FixedTextClean(content: string, current: Platform)
    ensures forall p :: p != current ==> !Contains(FixedText(content, current), Token(p))
    ensures current == Cursor ==> Free(NotBeforeWord, "/SKILL.md", false, FixedText(content, current))
  {
    forall p | p != current
      ensures !Contains(FixedText(content, current), Token(p))
    {
      FixedTextOmits(content, current, p);
    }
    if current == Cursor {
      SlashSkillFree(ReplaceTokens(content, Others(current), Token(current)));
    }
  }

  /** After the rewrite no bare `/SKILL.md` reference is left. */
  lemma SlashSkillFree(c: string)
    ensures Free(NotBeforeWord, "/SKILL.md", false, SlashSkillToMdc(c))
  {
    SubLeavesFree(NotBeforeWord, "/SKILL.md", "/SKILL.mdc", false, c);
  }

  lemma FixedTextOmits(content: string, current: Platform, p: Platform)
    requires p != current
    ensures !Contains(FixedText(content, current), Token(p))
  {
    var c := ReplaceTokens(content, Others(current), Token(current));
    TokenKeepsOutOthers(current, p);
    ReplaceTokensKeepsOut(content, Others(current), Token(current), p);
    if current == Cursor {
      SlashSkillKeepsOut(c, p);
    }
  }

  /** The `/SKILL.md` rewrite never makes a platform token appear. */
  lemma SlashSkillKeepsOut(c: string, p: Platform)
    requires !Contains(c, Token(p))
    ensures !Contains(SlashSkillToMdc(c), Token(p))
  {
    DotMStraddleFree("/SKILL.mdc", p);
    KeepOut(NotBeforeWord, "/SKILL.md", "/SKILL.mdc", false, c, Token(p));
  }

  /** `fix_file_references(path, current)`: whether the file changed, and what was written.
      `writeOk` says whether writing the file back succeeds; a failed write reports no change. */
  function FixFileReferences(file: FileRead, current: Platform, writeOk: bool): (r: (bool, Option<string>))
    ensures r.0 <==> r.1.Some?
    ensures r.0 <==> file.Read? && FixedText(file.text, current) != file.text && writeOk
    ensures r.1.Some? ==> r.1.value == FixedText(file.text, current)
  {
    match file
    case Unreadable => (false, None)
    case Read(content) =>
      var fixed := FixedText(content, current);
      if fixed == content || !writeOk then (false, None) else (true, Some(fixed))
  }

  /** Skipping the platform's own token, as this script does, rewrites exactly as the sync's
      remap loop over all three platforms does. */
  lemma {:induction false} WithoutOwnToken(s: string, ps: seq<Platform>, t: Platform)
    ensures ReplaceTokens(s, Without(ps, t), Token(t)) == ReplaceTokens(s, ps, Token(t))
    decreases |ps|
  {
    if ps != [] {
      if ps[0] == t {
        ReplaceWithItself(Token(t), false, s);
        assert Without(ps, t) == Without(ps[1..], t);
        WithoutOwnToken(s, ps[1..], t);
      } else {
        assert Without(ps, t) == [ps[0]] + Without(ps[1..], t);
        assert ([ps[0]] + Without(ps[1..], t))[1..] == Without(ps[1..], t);
        WithoutOwnToken(Replace(s, Token(ps[0]), Token(t)), ps[1..], t);
      }
    }
  }

  lemma SameAsRemapPaths(content: string, current: Platform)
    ensures ReplaceTokens(content, Others(current), Token(current)) == SyncContent.RemapPaths(content, current)
  {
    WithoutOwnToken(content, All, current);
  }

  /** Outside `.cursor`, every platform token becomes the current platform's token and the text
      on either side is fixed as if on its own. */
  lemma FixedAround(a: string, p: Platform, b: string, current: Platform)
    requires current != Cursor
    ensures FixedText(a + Token(p) + b, current) == FixedText(a, current) + Token(current) + FixedText(b, current)
  {
    SameAsRemapPaths(a + Token(p) + b, current);
    SameAsRemapPaths(a, current);
    SameAsRemapPaths(b, current);
    SyncContent.RemapPathsAround(a, p, b, current);
  }

  /** A file is left alone exactly when it holds no token of another platform and, in `.cursor`,
      no `/SKILL.md` that is not followed by a word character. */
  lemma UnchangedIff(content: string, current: Platform)
    ensures FixedText(content, current) == content <==>
      (forall p :: p != current ==> !Contains(content, Token(p)))
      && (current == Cursor ==> Free(NotBeforeWord, "/SKILL.md", false, content))
  {
    FixedTextClean(content, current);
    if (forall p :: p != current ==> !Contains(content, Token(p)))
       && (current == Cursor ==> Free(NotBeforeWord, "/SKILL.md", false, content)) {
      ReplaceTokensUnchanged(content, Others(current), current);
      if current == Cursor {
        SubOfFree(NotBeforeWord, "/SKILL.md", "/SKILL.mdc", false, content);
      }
    }
  }

  /** Running the fix a second time reports no change and writes nothing. */
  lemma FixTwice(content: string, current: Platform, writeOk: bool)
    ensures FixFileReferences(Read(FixedText(content, current)), current, writeOk) == (false, None)
  {
    FixedTextClean(content, current);
    UnchangedIff(FixedText(content, current), current);
  }
}
