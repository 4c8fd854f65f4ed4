/** `remove_agent_frontmatter.py`: agent files become plain Markdown by dropping their YAML
    frontmatter block. */
module RemoveAgentFrontmatter {
  import opened Text
  import opened Platforms
  import opened Frontmatter

  /** `remove_frontmatter(path)`: whether the file was rewritten, and the text written. The pattern
      `^---\s*\n.*?\n---\s*\n(.*)` matches exactly where the frontmatter pattern with its metadata
      group does, and its only group is the body. `writeOk` says whether writing the file back
      succeeds; a failed write reports no change. */
  function RemoveFrontmatter(file: FileRead, writeOk: bool): (r: (bool, Option<string>))
    ensures r.0 <==> r.1.Some?
    ensures r.0 <==> file.Read? && Match(file.text).Some? && writeOk
    ensures file.Read? && !StartsWith(file.text, "---") ==> r == (false, None)
  {
    match file
    case Unreadable => (false, None)
    case Read(content) =>
      if !StartsWith(content, "---") then (false, None)
      else match Match(content)
        case None => (false, None)
        case Some((_, _, n2)) => if writeOk then (true, Some(content[n2 + 1..])) else (false, None)
  }

  /** What is written is the text after the first closing `---` line that follows the opening
      line, and it is strictly shorter than the original. */
  lemma RemovedIsBodyAfterFirstClosing(content: string)
    requires RemoveFrontmatter(Read(content), true).0
    ensures var (n1, m, n2) := Match(content).value;
      Matches(content, n1, m, n2)
      && (forall m', n' :: n1 + 1 <= m' < m ==> !ClosingAt(content, m', n'))
      && RemoveFrontmatter(Read(content), true).1.value == content[n2 + 1..]
      && |RemoveFrontmatter(Read(content), true).1.value| < |content|
  {
    BodyShorter(content);
  }

  /** When the opening line is followed by some closing line, the file is rewritten whenever the
      write succeeds. */
  lemma RemovedWhenClosed(content: string, n1: int, m: int, n2: int)
    requires Matches(content, n1, m, n2)
    ensures RemoveFrontmatter(Read(content), true).0
  {
    MatchComplete(content, n1, m, n2);
  }
}
