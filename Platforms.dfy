/** The three mirrored platform trees and the rewriting of their path tokens `.agent/`,
    `.claude/` and `.cursor/`, shared by the sync, fix and audit scripts. */
module Platforms {
  import opened Text
  import opened Substitute

  datatype Platform = Agent | Claude | Cursor

  /** `PLATFORMS`, in the order every script iterates it. */
  const All: seq<Platform> := [Agent, Claude, Cursor]

  /** Position of a platform in `PLATFORMS`. */
  function Rank(p: Platform): nat {
    match p
    case Agent => 0
    case Claude => 1
    case Cursor => 2
  }

  function Name(p: Platform): string {
    match p
    case Agent => ".agent"
    case Claude => ".claude"
    case Cursor => ".cursor"
  }

  /** The path token `f'{name}/'` that marks a reference into a platform tree. */
  function Token(p: Platform): (t: string)
    ensures |t| >= 2 && t[0] == '.' && t[|t| - 1] == '/'
    ensures forall j :: 1 <= j < |t| - 1 ==> 'a' <= t[j] <= 'z'
  {
    Name(p) + "/"
  }

  /** The platform a directory name stands for, if any. */
  function FromName(s: string): (r: Option<Platform>)
    ensures r.Some? ==> Name(r.value) == s
    ensures r.None? ==> forall p :: Name(p) != s
  {
    if s == ".agent" then Some(Agent)
    else if s == ".claude" then Some(Claude)
    else if s == ".cursor" then Some(Cursor)
    else None
  }

  /** Distinct platforms have tokens neither of which begins the other. */
  lemma TokensApart(p: Platform, q: Platform)
    requires p != q
    ensures !StartsWith(Token(p), Token(q)) && !StartsWith(Token(q), Token(p))
  {
    assert Token(p)[1] != Token(q)[1] || Token(p)[2] != Token(q)[2];
  }

  /** Rewriting every token of the platforms `ps`, in order, into `rep`: the loop
      `for name in ps: text = text.replace(f'{name}/', rep)`. */
  function ReplaceTokens(s: string, ps: seq<Platform>, rep: string): string
    decreases |ps|
  {
    if ps == [] then s else ReplaceTokens(Replace(s, Token(ps[0]), rep), ps[1..], rep)
  }

  /** A replacement text that cannot produce a token of `p`. */
  ghost predicate KeepsOut(rep: string, p: Platform) {
    rep != [] && rep[0] != '/' && !('a' <= rep[0] <= 'z') && StraddleFree(rep, Token(p))
  }

  /** A replacement text that behaves like a token at the seams: it starts with a character
      that cannot continue a token, holds no `.` after its start, and is a token or apart from
      every token. */
  ghost predicate TokenLike(rep: string) {
    rep != [] && rep[0] != '/' && !('a' <= rep[0] <= 'z')
    && (forall j :: 1 <= j < |rep| ==> rep[j] != '.')
    && forall q :: rep == Token(q) || (!StartsWith(rep, Token(q)) && !StartsWith(Token(q), rep))
  }

  lemma TokenKeepsOutOthers(t: Platform, p: Platform)
    requires t != p
    ensures KeepsOut(Token(t), p)
  {
    TokensApart(t, p);
    var r := Token(t);
    forall j | 0 <= j < |r|
      ensures !StartsWith(r[j..], Token(p)) && !StartsWith(Token(p), r[j..])
    {
      if j > 0 {
        assert r[j..][0] == r[j] != '.';
      }
    }
  }

  lemma TokenIsTokenLike(t: Platform)
    ensures TokenLike(Token(t))
  {
    forall q
      ensures Token(t) == Token(q) || (!StartsWith(Token(t), Token(q)) && !StartsWith(Token(q), Token(t)))
    {
      if t != q {
        TokensApart(t, q);
      }
    }
  }

  /** Once every step keeps `p`'s token out, it is absent afterwards if it was absent before or
      `p` is one of the platforms rewritten. */
  lemma {:induction false} ReplaceTokensKeepsOut(s: string, ps: seq<Platform>, rep: string, p: Platform)
    requires KeepsOut(rep, p)
    requires !Contains(s, Token(p)) || p in ps
    ensures !Contains(ReplaceTokens(s, ps, rep), Token(p))
    decreases |ps|
  {
    if ps != [] {
      var s' := Replace(s, Token(ps[0]), rep);
      if !Contains(s, Token(p)) || ps[0] == p {
        KeepOut(Plain, Token(ps[0]), rep, false, s, Token(p));
      }
      ReplaceTokensKeepsOut(s', ps[1..], rep, p);
    }
  }

  /** The middle piece a token or the replacement becomes once one token has been rewritten. */
  lemma ReplacePiece(x: string, pat: string, rep: string)
    requires pat != [] && x != [] && pat[0] == '.'
    requires forall j :: 1 <= j < |x| ==> x[j] != '.'
    requires x == pat || !StartsWith(x, pat)
    ensures Replace(x, pat, rep) == if x == pat then rep else x
  {
    if x == pat {
      ReplaceWhole(pat, rep);
    } else {
      NotContainedByFirstChar(x, pat);
      SubAbsent(Plain, pat, rep, false, x);
    }
  }

  /** Rewriting the tokens of `ps` works around a token of `p` (or the replacement itself) as if
      the text were cut there: the piece becomes `rep` exactly when `p` is among `ps`. */
  lemma {:induction false} ReplaceTokensAround(a: string, x: string, b: string, ps: seq<Platform>, rep: string, p: Platform)
    requires TokenLike(rep)
    requires x == Token(p) || x == rep
    ensures ReplaceTokens(a + x + b, ps, rep)
      == ReplaceTokens(a, ps, rep) + (if p in ps then rep else x) + ReplaceTokens(b, ps, rep)
    decreases |ps|
  {
    if ps == [] {
      return;
    }
    var pat := Token(ps[0]);
    ReplaceTokenAround(a, x, b, ps[0], rep, p);
    var x' := if x == pat then rep else x;
    if x == Token(p) && p != ps[0] {
      TokensApart(p, ps[0]);
    }
    assert (if p in ps[1..] then rep else x') == (if p in ps then rep else x);
    ReplaceTokensAround(Replace(a, pat, rep), x', Replace(b, pat, rep), ps[1..], rep, p);
  }

  /** One step of `ReplaceTokensAround`: rewriting the token of `t` around the piece `x`. */
  lemma ReplaceTokenAround(a: string, x: string, b: string, t: Platform, rep: string, p: Platform)
    requires TokenLike(rep)
    requires x == Token(p) || x == rep
    ensures Replace(a + x + b, Token(t), rep)
      == Replace(a, Token(t), rep) + (if x == Token(t) then rep else x) + Replace(b, Token(t), rep)
  {
    var pat := Token(t);
    PieceFits(x, t, rep, p);
    ReplaceAround(pat, rep, a, x, b);
    ReplacePiece(x, pat, rep);
  }

  /** A token or a token-like replacement is a piece that no other token overlaps. */
  lemma PieceFits(x: string, t: Platform, rep: string, p: Platform)
    requires TokenLike(rep)
    requires x == Token(p) || x == rep
    ensures x != [] && forall j :: 1 <= j < |x| ==> x[j] != '.'
    ensures forall j :: 1 <= j < |Token(t)| ==> Token(t)[j] != x[0]
    ensures forall j :: 0 <= j < |x| && |x| - j < |Token(t)| ==> !StartsWith(Token(t), x[j..])
    ensures x == Token(t) || !StartsWith(x, Token(t))
  {
    var pat := Token(t);
    if x == Token(p) && p != t {
      TokensApart(p, t);
    }
    forall j | 0 <= j < |x| && |x| - j < |pat|
      ensures !StartsWith(pat, x[j..])
    {
      if j > 0 {
        assert x[j..][0] == x[j] != '.';
      }
    }
  }

  /** Rewriting tokens into a platform's own token changes nothing in a text that holds no token
      of the other platforms being rewritten. */
  lemma {:induction false} ReplaceTokensUnchanged(s: string, ps: seq<Platform>, t: Platform)
    requires forall p :: p in ps && p != t ==> !Contains(s, Token(p))
    ensures ReplaceTokens(s, ps, Token(t)) == s
    decreases |ps|
  {
    if ps != [] {
      if ps[0] == t {
        ReplaceWithItself(Token(t), false, s);
      } else {
        SubAbsent(Plain, Token(ps[0]), Token(t), false, s);
      }
      ReplaceTokensUnchanged(s, ps[1..], t);
    }
  }

  /** A piece that no token can start in, run into or begin just before passes through the token
      rewriting untouched, and the text on either side is rewritten as if on its own. */
  lemma {:induction false} ReplaceTokensAroundInert(a: string, x: string, b: string, ps: seq<Platform>, rep: string)
    requires x != [] && x[0] != '/' && !('a' <= x[0] <= 'z')
    requires forall q :: StraddleFree(x, Token(q))
    ensures ReplaceTokens(a + x + b, ps, rep) == ReplaceTokens(a, ps, rep) + x + ReplaceTokens(b, ps, rep)
    decreases |ps|
  {
    if ps == [] {
      return;
    }
    var pat := Token(ps[0]);
    assert StraddleFree(x, pat);
    ReplaceAround(pat, rep, a, x, b);
    forall i | 0 <= i <= |x| - |pat|
      ensures !OccursAt(x, pat, i)
    {
      assert !StartsWith(x[i..], pat);
      assert x[i..][..|pat|] == x[i..i + |pat|];
    }
    SubAbsent(Plain, pat, rep, false, x);
    ReplaceTokensAroundInert(Replace(a, pat, rep), x, Replace(b, pat, rep), ps[1..], rep);
  }

  /** A text without tokens of the platforms rewritten is left as it is. */
  lemma {:induction false} ReplaceTokensAbsent(s: string, ps: seq<Platform>, rep: string)
    requires forall p :: p in ps ==> !Contains(s, Token(p))
    ensures ReplaceTokens(s, ps, rep) == s
    decreases |ps|
  {
    if ps != [] {
      SubAbsent(Plain, Token(ps[0]), rep, false, s);
      ReplaceTokensAbsent(s, ps[1..], rep);
    }
  }

  /** The rewritten text starts with the original first character or with the replacement's. */
  lemma {:induction false} ReplaceTokensHead(s: string, ps: seq<Platform>, rep: string)
    requires rep != []
    ensures var r := ReplaceTokens(s, ps, rep);
      (s == [] <==> r == []) && (s != [] ==> r[0] == s[0] || r[0] == rep[0])
    decreases |ps|
  {
    if ps != [] {
      var s' := Replace(s, Token(ps[0]), rep);
      SubHead(Plain, Token(ps[0]), rep, false, s);
      ReplaceTokensHead(s', ps[1..], rep);
    }
  }

  /** A replacement text whose every `.` is followed by `m` cannot run into a platform token. */
  lemma DotMStraddleFree(r: string, p: Platform)
    requires forall j :: 0 <= j < |r| && r[j] == '.' ==> j + 1 < |r| && r[j + 1] == 'm'
    ensures StraddleFree(r, Token(p))
  {
    var q := Token(p);
    assert q[1] != 'm';
    forall j | 0 <= j < |r|
      ensures !StartsWith(r[j..], q) && !StartsWith(q, r[j..])
    {
      assert r[j..][0] == r[j];
      if r[j] == '.' {
        assert r[j..][1] == r[j + 1];
      }
    }
  }

  /** What reading a file of a platform tree gave: its text, or an error. */
  datatype FileRead = Unreadable | Read(text: string)
}
