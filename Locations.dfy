/** The parts of `pathlib` the two auditors rely on, over paths written as their components:
    the issue location that `_rel` / `add_issue` derive from a path or take as given, and
    `Path.suffix`, which decides which files are read as text. */
module Locations {
  import opened Text

  /** What `add_issue` receives as a location: a ready-made string, or an absolute path given
      by its components below the root. */
  datatype Location = Given(text: string) | PathAt(parts: seq<string>)

  predicate IsPrefix(a: seq<string>, b: seq<string>) {
    |a| <= |b| && b[..|a|] == a
  }

  /** `str()` of a relative path: its components joined by `/`, or `.` when there are none. */
  function RelText(parts: seq<string>): string {
    if parts == [] then "." else Join(parts, "/")
  }

  /** `str()` of an absolute path. */
  function AbsText(parts: seq<string>): string {
    "/" + Join(parts, "/")
  }

  /** The location an issue records: a string as it is; a path relative to the workspace when
      `relative_to` succeeds (the path starts with the workspace's components), else in full. */
  function Rel(workspace: seq<string>, loc: Location): (r: string)
    ensures loc.Given? ==> r == loc.text
  {
    match loc
    case Given(text) => text
    case PathAt(parts) =>
      if IsPrefix(workspace, parts) then RelText(parts[|workspace|..]) else AbsText(parts)
  }

  /** A component of a well-formed path: not empty and free of separators. */
  predicate Component(c: string) {
    c != [] && '/' !in c
  }

  /** A path below the workspace is recorded relative to it: splitting the location at `/`
      gives back exactly the components below the workspace. */
  lemma RelInside(workspace: seq<string>, below: seq<string>)
    requires below != []
    requires forall i :: 0 <= i < |below| ==> Component(below[i])
    ensures var r := Rel(workspace, PathAt(workspace + below));
      Split(r, '/') == below && r != [] && r[0] != '/'
  {
    var parts := workspace + below;
    assert parts[..|workspace|] == workspace;
    assert parts[|workspace|..] == below;
    SplitJoin(below, '/');
    JoinStartsWithFirst(below, "/");
  }

  /** The workspace itself is recorded as `.`. */
  lemma RelWorkspace(workspace: seq<string>)
    ensures Rel(workspace, PathAt(workspace)) == "."
  {
    assert workspace[..|workspace|] == workspace;
  }

  /** A path outside the workspace is recorded in full, starting at the root. */
  lemma RelOutside(workspace: seq<string>, parts: seq<string>)
    requires !IsPrefix(workspace, parts)
    ensures Rel(workspace, PathAt(parts)) == AbsText(parts)
    ensures Rel(workspace, PathAt(parts))[0] == '/'
  {
  }

  lemma {:induction false} JoinStartsWithFirst(ls: seq<string>, sep: string)
    requires ls != [] && ls[0] != []
    ensures Join(ls, sep) != [] && Join(ls, sep)[0] == ls[0][0]
  {
  }

  // ---------------------------------------------------------------------------------------------
  // Path.suffix

  /** The index of the last `.` in `s`, if any. */
  function LastDot(s: string): (r: Option<nat>)
    ensures r.Some? ==> r.value < |s| && s[r.value] == '.' && '.' !in s[r.value + 1..]
    ensures r.None? ==> '.' !in s
  {
    if s == [] then None
    else if s[|s| - 1] == '.' then Some(|s| - 1)
    else
      var r := LastDot(s[..|s| - 1]);
      assert s == s[..|s| - 1] + [s[|s| - 1]];
      if r.Some? then
        assert s[r.value + 1..] == s[..|s| - 1][r.value + 1..] + [s[|s| - 1]];
        r
      else r
  }

  /** `Path(name).suffix`: from the last `.` on, when that dot is neither the first nor the last
      character of the file name; otherwise empty. */
  function Suffix(name: string): (r: string)
    ensures r == [] || (|r| >= 2 && r[0] == '.' && '.' !in r[1..] && |r| < |name| && EndsWith(name, r))
    ensures r == [] <==> LastDot(name).None? || LastDot(name).value == 0 || LastDot(name).value == |name| - 1
  {
    match LastDot(name)
    case None => []
    case Some(i) => if 0 < i < |name| - 1 then name[i..] else []
  }

  /** A file name without a dot has no suffix, and neither has a hidden file with a single dot. */
  lemma SuffixOfDotless(name: string)
    requires '.' !in name || (name != [] && name[0] == '.' && '.' !in name[1..])
    ensures Suffix(name) == []
  {
    if '.' in name {
      assert name[0] == '.';
    }
  }

  /** `name.ext` with a non-empty stem free of dots has suffix `.ext` when `ext` is non-empty
      and dot-free. */
  lemma SuffixOfSimpleName(stem: string, ext: string)
    requires stem != [] && '.' !in stem && ext != [] && '.' !in ext
    ensures Suffix(stem + "." + ext) == "." + ext
  {
    var name := stem + "." + ext;
    assert name[|stem|] == '.';
    assert name[|stem| + 1..] == ext;
    assert name[|stem|..] == "." + ext;
  }
}
