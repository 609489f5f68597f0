/**
 * One line of the task file and the two states a task can be in
 * (`Status`, `Status::toggle` and `parse_item` in src/main.rs).
 */
module Items {
  import opened Wrappers

  /** Which list a task belongs to; the same type is the display focus. */
  datatype Status = Todo | Done

  /** `Status::toggle`: the other state. */
  function Toggle(s: Status): (r: Status)
    ensures r != s
  {
    match s
    case Todo => Done
    case Done => Todo
  }

  lemma ToggleInvolution(s: Status)
    ensures Toggle(Toggle(s)) == s
  {
  }

  const TODO_PREFIX: string := "TODO: "
  const DONE_PREFIX: string := "DONE: "

  /** The prefix a line of the given status starts with. */
  function PrefixOf(st: Status): string
  {
    match st
    case Todo => TODO_PREFIX
    case Done => DONE_PREFIX
  }

  /** `strip_prefix`'s test: `line` starts with `p`. */
  predicate HasPrefix(p: string, line: string)
  {
    |p| <= |line| && line[..|p|] == p
  }

  /** `parse_item`: strip the `TODO: ` prefix, else the `DONE: ` prefix. */
  function ParseItem(line: string): Option<(Status, string)>
  {
    if HasPrefix(TODO_PREFIX, line) then
      Some((Todo, line[|TODO_PREFIX|..]))
    else if HasPrefix(DONE_PREFIX, line) then
      Some((Done, line[|DONE_PREFIX|..]))
    else
      None
  }

  /**
   * A line parses iff it starts with one of the two literal prefixes, and
   * then it is exactly that prefix followed by the returned title. No line
   * carries both prefixes, so this determines the result.
   */
  lemma ParseItemMeaning(line: string)
    ensures ParseItem(line).Some? <==> HasPrefix(TODO_PREFIX, line) || HasPrefix(DONE_PREFIX, line)
    ensures ParseItem(line).Some? ==> line == PrefixOf(ParseItem(line).value.0) + ParseItem(line).value.1
  {
    if ParseItem(line).Some? {
      var p := PrefixOf(ParseItem(line).value.0);
      assert line == line[..|p|] + line[|p|..];
    }
  }

  /** A line written with a status prefix parses back to that status and title. */
  lemma ParsePrefixed(st: Status, title: string)
    ensures ParseItem(PrefixOf(st) + title) == Some((st, title))
  {
    var line := PrefixOf(st) + title;
    assert line[..6] == PrefixOf(st);
    if st == Done {
      assert line[0] == 'D';
    }
  }

  /** Lines without an exact prefix (wrong word, missing space, empty) are rejected. */
  lemma ParseRejectsOthers()
    ensures ParseItem("NOTE: x") == None
    ensures ParseItem("") == None
    ensures ParseItem("TODO:x") == None
    ensures ParseItem("DONE") == None
  {
    assert "NOTE: x"[0] == 'N';
    assert "TODO:x"[5] == 'x';
  }
}
