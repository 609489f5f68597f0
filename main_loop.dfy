/**
 * The body of `main` in src/main.rs once the terminal and the file system
 * are abstracted: load the lines, then repeatedly draw a frame of the
 * focused list and apply one key. Keys arrive as a sequence; the loop ends
 * on `q`, on the underflow panic, or when the keys run out.
 */
module MainLoop {
  import opened Wrappers
  import opened Items
  import opened Codec
  import opened TaskStore
  import opened Render

  const TODO_HEADER: string := "[TODO] DONE  <tab>"
  const DONE_HEADER: string := " TODO [DONE] <tab>"
  const RULE: string := "-------------"
  const TODO_MARK: string := "- [ ] "
  const DONE_MARK: string := "- [x] "

  function Header(focus: Status): string
  {
    if focus == Todo then TODO_HEADER else DONE_HEADER
  }

  /** The list the focus selects. */
  function Focused(s: Tasks): seq<string>
  {
    if s.focus == Todo then s.todos else s.dones
  }

  /** The marker in front of every row of the focused list. */
  function Mark(s: Tasks): string
  {
    if s.focus == Todo then TODO_MARK else DONE_MARK
  }

  /** The cursor of the focused list. */
  function Selected(s: Tasks): nat
  {
    if s.focus == Todo then s.todoCurr else s.doneCurr
  }

  /**
   * What one frame draws: the header, the rule line, then the focused list
   * from row 3. A row's text is the marker followed by the title, the same
   * prefix-then-title shape the save format writes, so `Tagged` builds both.
   */
  function FrameLog(s: Tasks): seq<Draw>
  {
    [Draw(1, 1, Header(s.focus), REGULAR_PAIR), Draw(2, 1, RULE, REGULAR_PAIR)]
      + ListRows(Tagged(Mark(s), Focused(s)), Selected(s), 3, 1)
  }

  /**
   * A frame is one column of consecutive rows from row 1; log entry 2 + i,
   * drawn on row 3 + i, shows element i of the focused list, and the only highlighted row is the one
   * under the focused cursor (none when that cursor is out of range).
   */
  lemma FrameLayout(s: Tasks)
    ensures |FrameLog(s)| == 2 + |Focused(s)|
    ensures forall k :: 0 <= k < |FrameLog(s)| ==> FrameLog(s)[k].row == 1 + k && FrameLog(s)[k].col == 1
    ensures forall k :: 0 <= k < |FrameLog(s)| ==>
              (FrameLog(s)[k].pair == HIGHLIGHT_PAIR <==> k == 2 + Selected(s))
    ensures forall i :: 0 <= i < |Focused(s)| ==> FrameLog(s)[2 + i].text == Mark(s) + Focused(s)[i]
  {
    var texts := Tagged(Mark(s), Focused(s));
    var frame := FrameLog(s);
    forall k | 2 <= k < |frame|
      ensures frame[k] == Draw(1 + k, 1, texts[k - 2], if k - 2 == Selected(s) then HIGHLIGHT_PAIR else REGULAR_PAIR)
    {
      ListRowAt(texts, Selected(s), 3, 1, k - 2);
    }
    TaggedEach(Mark(s), Focused(s));
    assert forall i :: 0 <= i < |Focused(s)| ==> frame[2 + i].text == texts[i];
  }

  /** Lines 145-149 (and 154-158) of `main`: one list, with the element at `cursor` highlighted. */
  method DrawList(ui: Ui, mark: string, items: seq<string>, cursor: nat)
    requires ui.listCurr == None
    modifies ui
    ensures ui.log == old(ui.log) + ListRows(Tagged(mark, items), cursor, old(ui.row), old(ui.col))
    ensures ui.listCurr == None && ui.row == old(ui.row) + |items| && ui.col == old(ui.col)
  {
    ui.BeginList(cursor);
    ghost var texts := Tagged(mark, items);
    var index := 0;
    while index < |items|
      invariant 0 <= index <= |items|
      invariant ui.log == old(ui.log) + ListRows(texts[..index], cursor, old(ui.row), old(ui.col))
      invariant ui.row == old(ui.row) + index && ui.col == old(ui.col) && ui.listCurr == Some(cursor)
    {
      ghost var prefix := texts[..index + 1];
      assert prefix[..index] == texts[..index];
      TaggedAt(mark, items, index);
      assert prefix[index] == mark + items[index];
      var clicked := ui.ListElement(mark + items[index], index);
      index := index + 1;
    }
    assert texts[..|items|] == texts;
    ui.EndList();
  }

  /** Lines 138-162 of `main`, after `erase()`: draw one frame of the focused list. */
  method RenderFrame(ui: Ui, s: Tasks)
    requires ui.listCurr == None
    modifies ui
    ensures ui.log == old(ui.log) + FrameLog(s)
    ensures ui.listCurr == None && ui.row == 3 + |Focused(s)| && ui.col == 1
  {
    ui.Begin(1, 1);
    ghost var head := [Draw(1, 1, Header(s.focus), REGULAR_PAIR), Draw(2, 1, RULE, REGULAR_PAIR)];
    ghost var rows := ListRows(Tagged(Mark(s), Focused(s)), Selected(s), 3, 1);
    match s.focus {
      case Todo =>
        ui.Label(TODO_HEADER, REGULAR_PAIR);
        ui.Label(RULE, REGULAR_PAIR);
        assert ui.log == old(ui.log) + head;
        DrawList(ui, TODO_MARK, s.todos, s.todoCurr);
        assert ui.log == old(ui.log) + head + rows;
      case Done =>
        ui.Label(DONE_HEADER, REGULAR_PAIR);
        ui.Label(RULE, REGULAR_PAIR);
        assert ui.log == old(ui.log) + head;
        DrawList(ui, DONE_MARK, s.dones, s.doneCurr);
        assert ui.log == old(ui.log) + head + rows;
    }
    ui.End();
  }

  datatype Ending = Quitted | Panicked | KeysExhausted

  /** The final state, every file contents saved on the way, and why the loop stopped. */
  datatype Trace = Trace(final: Tasks, saved: seq<seq<string>>, ending: Ending)

  /** The key-by-key run of the loop from state `s`. */
  function Run(s: Tasks, keys: seq<char>): Trace
    decreases |keys|
  {
    if keys == [] then Trace(s, [], KeysExhausted)
    else
      var step := Apply(s, keys[0]);
      match step.outcome
      case Quit => Trace(step.tasks, [], Quitted)
      case Underflow => Trace(step.tasks, [], Panicked)
      case Save(lines) =>
        var rest := Run(step.tasks, keys[1..]);
        rest.(saved := [lines] + rest.saved)
      case Continue => Run(step.tasks, keys[1..])
  }

  /** A whole session keeps the cursor bounds and never creates, loses or duplicates a task. */
  lemma {:induction false} RunKeeps(s: Tasks, keys: seq<char>)
    requires Bounded(s)
    ensures Bounded(Run(s, keys).final)
    ensures Pool(Run(s, keys).final) == Pool(s)
    decreases |keys|
  {
    if keys != [] {
      ApplyKeepsBounded(s, keys[0]);
      ApplyKeepsPool(s, keys[0]);
      RunKeeps(Apply(s, keys[0]).tasks, keys[1..]);
    }
  }

  /**
   * A session panics only on Enter in the completed view with the completed
   * list empty and its cursor still at the initial 1.
   */
  lemma {:induction false} PanicOnlyAtInitialCursor(s: Tasks, keys: seq<char>)
    requires Bounded(s)
    ensures Run(s, keys).ending == Panicked ==>
              var f := Run(s, keys).final; f.focus == Done && f.dones == [] && f.doneCurr == 1
    decreases |keys|
  {
    if keys != [] {
      UnderflowExactly(s, keys[0]);
      ApplyKeepsBounded(s, keys[0]);
      PanicOnlyAtInitialCursor(Apply(s, keys[0]).tasks, keys[1..]);
    }
  }

  /**
   * A file holding only pending tasks, then Tab and Enter: the completed
   * list is empty and `done_curr` is still 1, so `dones.len() - 1` underflows.
   */
  lemma UnderflowReachable(todos: seq<string>)
    ensures Run(Initial(todos, []), ['\t', '\n']) == Trace(Initial(todos, []).(focus := Done), [], Panicked)
  {
    var s1 := Apply(Initial(todos, []), '\t').tasks;
    assert s1 == Initial(todos, []).(focus := Done);
    assert Apply(s1, '\n') == Step(Underflow, s1);
    assert ['\t', '\n'][1..] == ['\n'];
  }

  /** The saves made before a trace, followed by the trace. */
  function After(saved: seq<seq<string>>, t: Trace): Trace
  {
    Trace(t.final, saved + t.saved, t.ending)
  }

  /** One iteration of the loop, read off `Run`. */
  lemma RunStep(start: Trace, saved: seq<seq<string>>, s: Tasks, keys: seq<char>, outcome: Outcome, next: Tasks)
    requires keys != [] && start == After(saved, Run(s, keys))
    requires Apply(s, keys[0]) == Step(outcome, next)
    ensures outcome == Quit ==> start == Trace(next, saved, Quitted)
    ensures outcome == Underflow ==> start == Trace(next, saved, Panicked)
    ensures outcome.Save? ==> start == After(saved + [outcome.lines], Run(next, keys[1..]))
    ensures outcome == Continue ==> start == After(saved, Run(next, keys[1..]))
  {
    if outcome.Save? {
      assert saved + ([outcome.lines] + Run(next, keys[1..]).saved)
          == (saved + [outcome.lines]) + Run(next, keys[1..]).saved;
    }
  }

  /** The session: load, then draw and dispatch one key per iteration. */
  method Session(lines: seq<string>, keys: seq<char>) returns (trace: Trace)
    ensures trace == Run(Initial(Titles(lines, Todo), Titles(lines, Done)), keys)
  {
    var todos, dones := Load(lines);
    var store := new Store(todos, dones);
    ghost var whole := Run(store.Current(), keys);
    var ui := new Ui();
    var saved: seq<seq<string>> := [];
    var i := 0;
    assert keys[0..] == keys;
    while i < |keys|
      invariant 0 <= i <= |keys|
      invariant ui.listCurr == None
      invariant whole == After(saved, Run(store.Current(), keys[i..]))
    {
      Erase(ui);
      RenderFrame(ui, store.Current());
      ghost var before := store.Current();
      var outcome := store.HandleKey(keys[i]);
      RunStep(whole, saved, before, keys[i..], outcome, store.Current());
      assert keys[i..][1..] == keys[i + 1..];
      match outcome {
        case Quit =>
          return Trace(store.Current(), saved, Quitted);
        case Underflow =>
          return Trace(store.Current(), saved, Panicked);
        case Save(written) =>
          saved := saved + [written];
        case Continue =>
      }
      i := i + 1;
    }
    trace := Trace(store.Current(), saved, KeysExhausted);
  }
}
