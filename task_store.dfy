/**
 * The two task lists, their cursors and the focus, and the effect of one
 * key press on them (the key dispatch inside `main` in src/main.rs).
 * `Apply` is the transition as a function of the state; `Store` is the
 * mutable state the main loop owns, with one method per key press.
 */
module TaskStore {
  import opened Items
  import opened Codec
  import opened Navigation

  datatype Tasks = Tasks(todos: seq<string>, todoCurr: nat,
                         dones: seq<string>, doneCurr: nat,
                         focus: Status)

  /**
   * What one key press asks of the main loop. `Underflow` is the panic of
   * `dones.len() - 1` on an empty list (usize subtraction overflow).
   */
  datatype Outcome = Continue | Quit | Save(lines: seq<string>) | Underflow

  datatype Step = Step(outcome: Outcome, tasks: Tasks)

  /** The state `main` starts from once the lists are loaded: note `done_curr` is 1. */
  function Initial(todos: seq<string>, dones: seq<string>): Tasks
  {
    Tasks(todos, 0, dones, 1, Todo)
  }

  /** `Vec::remove`: the list without its element at `i`. */
  function RemoveAt(s: seq<string>, i: nat): (r: seq<string>)
    requires i < |s|
    ensures |r| == |s| - 1
    ensures multiset(r) + multiset{s[i]} == multiset(s)
  {
    assert s == s[..i] + [s[i]] + s[i + 1..];
    s[..i] + s[i + 1..]
  }

  function Up(cursor: nat): nat
  {
    if cursor > 0 then cursor - 1 else 0
  }

  function Down(list: seq<string>, cursor: nat): nat
  {
    if cursor + 1 < |list| then cursor + 1 else cursor
  }

  /** Enter with the pending list in focus: clamps only after a removal. */
  function EnterPending(s: Tasks): Tasks
  {
    if s.todoCurr < |s.todos| then
      var todos := RemoveAt(s.todos, s.todoCurr);
      var cursor := if s.todoCurr >= |todos| && s.todoCurr > 0 then |todos| - 1 else s.todoCurr;
      s.(todos := todos, todoCurr := cursor, dones := s.dones + [s.todos[s.todoCurr]])
    else
      s
  }

  /** Enter with the completed list in focus: the clamp runs whether or not a task moved. */
  function EnterCompleted(s: Tasks): Step
  {
    var moved := s.doneCurr < |s.dones|;
    var dones := if moved then RemoveAt(s.dones, s.doneCurr) else s.dones;
    var todos := if moved then s.todos + [s.dones[s.doneCurr]] else s.todos;
    if s.doneCurr >= |dones| && s.doneCurr > 0 then
      if |dones| == 0 then Step(Underflow, s)
      else Step(Continue, s.(todos := todos, dones := dones, doneCurr := |dones| - 1))
    else
      Step(Continue, s.(todos := todos, dones := dones))
  }

  /** One iteration of the key dispatch. */
  function Apply(s: Tasks, key: char): Step
  {
    match key
    case 'q' => Step(Quit, s)
    case 'e' => Step(Save(Encode(s.todos, s.dones)), s)
    case 'w' =>
      if s.focus == Todo then Step(Continue, s.(todoCurr := Up(s.todoCurr)))
      else Step(Continue, s.(doneCurr := Up(s.doneCurr)))
    case 's' =>
      if s.focus == Todo then Step(Continue, s.(todoCurr := Down(s.todos, s.todoCurr)))
      else Step(Continue, s.(doneCurr := Down(s.dones, s.doneCurr)))
    case '\n' =>
      if s.focus == Todo then Step(Continue, EnterPending(s)) else EnterCompleted(s)
    case '\t' => Step(Continue, s.(focus := Toggle(s.focus)))
    case _ => Step(Continue, s)
  }

  function Pool(s: Tasks): multiset<string>
  {
    multiset(s.todos + s.dones)
  }

  /** The mutable state of the main loop. */
  class Store {
    var todos: seq<string>
    var todoCurr: nat
    var dones: seq<string>
    var doneCurr: nat
    var focus: Status

    function Current(): Tasks
      reads this
    {
      Tasks(todos, todoCurr, dones, doneCurr, focus)
    }

    /** The variables `main` declares, once the load loop has filled the lists. */
    constructor (loadedTodos: seq<string>, loadedDones: seq<string>)
      ensures Current() == Initial(loadedTodos, loadedDones)
    {
      todos := loadedTodos;
      todoCurr := 0;
      dones := loadedDones;
      doneCurr := 1;
      focus := Todo;
    }

    /** Handles one key, updating the lists, cursors and focus in place. */
    method HandleKey(key: char) returns (outcome: Outcome)
      modifies this
      ensures Apply(old(Current()), key) == Step(outcome, Current())
    {
      outcome := Continue;
      match key {
        case 'q' => outcome := Quit;
        case 'e' =>
          var written := SaveLines(todos, dones);
          outcome := Save(written);
        case 'w' =>
          if focus == Todo {
            todoCurr := ListUp(todos, todoCurr);
          } else {
            doneCurr := ListUp(dones, doneCurr);
          }
        case 's' =>
          if focus == Todo {
            todoCurr := ListDown(todos, todoCurr);
          } else {
            doneCurr := ListDown(dones, doneCurr);
          }
        case '\n' =>
          if focus == Todo {
            if todoCurr < |todos| {
              var title := todos[todoCurr];
              todos := RemoveAt(todos, todoCurr);
              dones := dones + [title];
              if todoCurr >= |todos| && todoCurr > 0 {
                todoCurr := |todos| - 1;
              }
            }
          } else {
            if doneCurr < |dones| {
              var title := dones[doneCurr];
              dones := RemoveAt(dones, doneCurr);
              todos := todos + [title];
            }
            if doneCurr >= |dones| && doneCurr > 0 {
              if |dones| == 0 {
                outcome := Underflow;
              } else {
                doneCurr := |dones| - 1;
              }
            }
          }
        case '\t' => focus := Toggle(focus);
        case _ =>
      }
    }
  }

  /** Tab changes only the focus, and pressing it twice restores the state. */
  lemma TabOnlyTogglesFocus(s: Tasks)
    ensures Apply(s, '\t').outcome == Continue
    ensures Apply(s, '\t').tasks.focus != s.focus
    ensures Apply(s, '\t').tasks == s.(focus := Apply(s, '\t').tasks.focus)
    ensures Apply(Apply(s, '\t').tasks, '\t').tasks == s
  {
  }

  /** `w` and `s` move only the focused cursor, and keep an in-range cursor in range. */
  lemma MoveKeepsLists(s: Tasks, key: char)
    requires key == 'w' || key == 's'
    ensures Apply(s, key).outcome == Continue
    ensures Apply(s, key).tasks.todos == s.todos && Apply(s, key).tasks.dones == s.dones
    ensures Apply(s, key).tasks.focus == s.focus
    ensures s.focus == Todo ==> Apply(s, key).tasks.doneCurr == s.doneCurr
    ensures s.focus == Done ==> Apply(s, key).tasks.todoCurr == s.todoCurr
    ensures key == 'w' && s.focus == Todo ==>
              Apply(s, key).tasks.todoCurr == if s.todoCurr > 0 then s.todoCurr - 1 else 0
    ensures key == 'w' && s.focus == Done ==>
              Apply(s, key).tasks.doneCurr == if s.doneCurr > 0 then s.doneCurr - 1 else 0
    ensures key == 's' && s.focus == Todo ==>
              Apply(s, key).tasks.todoCurr == if s.todoCurr + 1 < |s.todos| then s.todoCurr + 1 else s.todoCurr
    ensures key == 's' && s.focus == Done ==>
              Apply(s, key).tasks.doneCurr == if s.doneCurr + 1 < |s.dones| then s.doneCurr + 1 else s.doneCurr
    ensures s.todoCurr < |s.todos| ==> Apply(s, key).tasks.todoCurr < |s.todos|
    ensures s.doneCurr < |s.dones| ==> Apply(s, key).tasks.doneCurr < |s.dones|
  {
  }

  /** Enter on the pending list moves the selected task to the tail of the completed list. */
  lemma EnterPendingMoves(s: Tasks)
    requires s.focus == Todo && s.todoCurr < |s.todos|
    ensures Apply(s, '\n').outcome == Continue
    ensures Apply(s, '\n').tasks.todos == s.todos[..s.todoCurr] + s.todos[s.todoCurr + 1..]
    ensures Apply(s, '\n').tasks.dones == s.dones + [s.todos[s.todoCurr]]
    ensures Pool(Apply(s, '\n').tasks) == Pool(s)
    ensures Apply(s, '\n').tasks.todos != [] ==> Apply(s, '\n').tasks.todoCurr < |Apply(s, '\n').tasks.todos|
    ensures Apply(s, '\n').tasks.todoCurr ==
              if s.todoCurr + 1 < |s.todos| then s.todoCurr else if s.todoCurr > 0 then s.todoCurr - 1 else 0
    ensures Apply(s, '\n').tasks.doneCurr == s.doneCurr && Apply(s, '\n').tasks.focus == Todo
  {
    assert |RemoveAt(s.todos, s.todoCurr)| == |s.todos| - 1;
    var t := Apply(s, '\n').tasks;
    assert t.todos + t.dones == s.todos[..s.todoCurr] + s.todos[s.todoCurr + 1..] + s.dones + [s.todos[s.todoCurr]];
    assert s.todos == s.todos[..s.todoCurr] + [s.todos[s.todoCurr]] + s.todos[s.todoCurr + 1..];
  }

  /** Enter on the pending list with its cursor out of range changes nothing. */
  lemma EnterPendingOutOfRange(s: Tasks)
    requires s.focus == Todo && s.todoCurr >= |s.todos|
    ensures Apply(s, '\n') == Step(Continue, s)
  {
  }

  /** Enter on the completed list moves the selected task to the tail of the pending list. */
  lemma EnterCompletedMoves(s: Tasks)
    requires s.focus == Done && s.doneCurr < |s.dones|
    ensures Apply(s, '\n').outcome == Continue
    ensures Apply(s, '\n').tasks.dones == s.dones[..s.doneCurr] + s.dones[s.doneCurr + 1..]
    ensures Apply(s, '\n').tasks.todos == s.todos + [s.dones[s.doneCurr]]
    ensures Pool(Apply(s, '\n').tasks) == Pool(s)
    ensures Apply(s, '\n').tasks.dones != [] ==> Apply(s, '\n').tasks.doneCurr < |Apply(s, '\n').tasks.dones|
    ensures Apply(s, '\n').tasks.doneCurr ==
              if s.doneCurr + 1 < |s.dones| then s.doneCurr else if s.doneCurr > 0 then s.doneCurr - 1 else 0
    ensures Apply(s, '\n').tasks.todoCurr == s.todoCurr && Apply(s, '\n').tasks.focus == Done
  {
    assert |RemoveAt(s.dones, s.doneCurr)| == |s.dones| - 1;
    var t := Apply(s, '\n').tasks;
    assert t.todos + t.dones == s.todos + [s.dones[s.doneCurr]] + (s.dones[..s.doneCurr] + s.dones[s.doneCurr + 1..]);
    assert s.dones == s.dones[..s.doneCurr] + [s.dones[s.doneCurr]] + s.dones[s.doneCurr + 1..];
  }

  /**
   * Enter on the completed list with its cursor out of range moves nothing,
   * but still clamps the cursor onto the last element; with an empty list and
   * a positive cursor the clamp underflows.
   */
  lemma EnterCompletedOutOfRange(s: Tasks)
    requires s.focus == Done && s.doneCurr >= |s.dones|
    ensures Apply(s, '\n').tasks.todos == s.todos && Apply(s, '\n').tasks.dones == s.dones
    ensures s.dones != [] ==> Apply(s, '\n') == Step(Continue, s.(doneCurr := |s.dones| - 1))
    ensures s.dones == [] && s.doneCurr == 0 ==> Apply(s, '\n') == Step(Continue, s)
    ensures s.dones == [] && s.doneCurr > 0 ==> Apply(s, '\n') == Step(Underflow, s)
  {
  }

  /** The only panic: Enter on an empty completed list whose cursor is positive. */
  lemma UnderflowExactly(s: Tasks, key: char)
    ensures Apply(s, key).outcome == Underflow <==>
              key == '\n' && s.focus == Done && s.dones == [] && s.doneCurr > 0
    ensures Apply(s, key).outcome == Underflow ==> Apply(s, key).tasks == s
  {
  }

  /** `e` hands the main loop the file contents, from which loading restores both lists. */
  lemma SaveRestores(s: Tasks)
    ensures Apply(s, 'e').outcome.Save? && Apply(s, 'e').tasks == s
    ensures Titles(Apply(s, 'e').outcome.lines, Todo) == s.todos
    ensures Titles(Apply(s, 'e').outcome.lines, Done) == s.dones
  {
    RoundTrip(s.todos, s.dones);
  }

  /** Every key other than the six the dispatch knows leaves the state as it is. */
  lemma OtherKeysIgnored(s: Tasks, key: char)
    requires key !in {'q', 'e', 'w', 's', '\n', '\t'}
    ensures Apply(s, key) == Step(Continue, s)
  {
  }

  /** No key press ever creates, loses or duplicates a task title. */
  lemma ApplyKeepsPool(s: Tasks, key: char)
    ensures Pool(Apply(s, key).tasks) == Pool(s)
  {
    if key == '\n' {
      if s.focus == Todo && s.todoCurr < |s.todos| {
        EnterPendingMoves(s);
      } else if s.focus == Done && s.doneCurr < |s.dones| {
        EnterCompletedMoves(s);
      }
    }
  }

  /**
   * The cursor bounds every reachable state keeps: each cursor indexes its
   * list or is 0, except that the completed cursor may still hold its initial 1.
   */
  predicate Bounded(s: Tasks)
  {
    (s.todoCurr < |s.todos| || s.todoCurr == 0) && (s.doneCurr < |s.dones| || s.doneCurr <= 1)
  }

  lemma InitialBounded(todos: seq<string>, dones: seq<string>)
    ensures Bounded(Initial(todos, dones))
  {
  }

  /** Every key press keeps the cursor bounds, so `list_down`'s `+ 1` never overflows. */
  lemma ApplyKeepsBounded(s: Tasks, key: char)
    requires Bounded(s)
    ensures Bounded(Apply(s, key).tasks)
  {
  }

  /**
   * Completing the selected task and reopening it (Enter, Tab, Enter, Tab)
   * returns it to the tail of the pending list, when the completed cursor
   * stood at the end of the completed list.
   */
  lemma CompleteThenReopen(s: Tasks)
    requires s.focus == Todo && s.todoCurr < |s.todos| && s.doneCurr == |s.dones|
    ensures var s1 := Apply(s, '\n').tasks;
            var s2 := Apply(s1, '\t').tasks;
            var s3 := Apply(s2, '\n');
            var s4 := Apply(s3.tasks, '\t').tasks;
            && s3.outcome == Continue
            && s4.focus == Todo
            && s4.dones == s.dones
            && s4.todos == s.todos[..s.todoCurr] + s.todos[s.todoCurr + 1..] + [s.todos[s.todoCurr]]
            && Pool(s4) == Pool(s)
  {
    var t := s.todos[s.todoCurr];
    var rest := s.todos[..s.todoCurr] + s.todos[s.todoCurr + 1..];
    var s1 := Apply(s, '\n').tasks;
    EnterPendingMoves(s);
    assert s1.todos == rest && s1.dones == s.dones + [t] && s1.doneCurr == |s.dones|;
    var s2 := Apply(s1, '\t').tasks;
    assert s2 == s1.(focus := Done);
    EnterCompletedMoves(s2);
    var s3 := Apply(s2, '\n');
    assert s2.dones[s2.doneCurr] == t;
    assert s2.dones[..s2.doneCurr] == s.dones;
    assert s3.tasks.dones == s.dones && s3.tasks.todos == rest + [t] && s3.tasks.focus == Done;
    var s4 := Apply(s3.tasks, '\t').tasks;
    assert s4 == s3.tasks.(focus := Todo);
    ApplyKeepsPool(s, '\n');
    ApplyKeepsPool(s1, '\t');
    ApplyKeepsPool(s2, '\n');
    ApplyKeepsPool(s3.tasks, '\t');
  }

  /**
   * From the start state the same four keys do not reopen the task: with one
   * pending task and an empty completed list, the first Enter leaves
   * `done_curr` at its initial 1 on a one-element list, so the second Enter
   * only clamps that cursor to 0 and the task stays completed.
   */
  lemma CompleteThenReopenAtStart(a: string)
    ensures var s1 := Apply(Initial([a], []), '\n');
            var s2 := Apply(s1.tasks, '\t');
            var s3 := Apply(s2.tasks, '\n');
            var s4 := Apply(s3.tasks, '\t');
            && s1.outcome == Continue && s2.outcome == Continue
            && s3.outcome == Continue && s4.outcome == Continue
            && s4.tasks == Tasks([], 0, [a], 0, Todo)
  {
    var s1 := Apply(Initial([a], []), '\n');
    assert [a][..0] + [a][1..] == [];
    assert s1 == Step(Continue, Tasks([], 0, [a], 1, Todo));
    var s3 := Apply(Tasks([], 0, [a], 1, Done), '\n');
    assert s3 == Step(Continue, Tasks([], 0, [a], 0, Done));
  }

  /**
   * With two or more completed tasks at the start, the second Enter reopens
   * the completed task at index 1 (the initial `done_curr`), not the task
   * the first Enter completed.
   */
  lemma CompleteThenReopenOther(a: string, dones: seq<string>)
    requires |dones| >= 2
    ensures var s1 := Apply(Initial([a], dones), '\n');
            var s2 := Apply(s1.tasks, '\t');
            var s3 := Apply(s2.tasks, '\n');
            var s4 := Apply(s3.tasks, '\t');
            && s1.outcome == Continue && s2.outcome == Continue
            && s3.outcome == Continue && s4.outcome == Continue
            && s4.tasks == Tasks([dones[1]], 0, [dones[0]] + dones[2..] + [a], 1, Todo)
  {
    var t1 := Tasks([], 0, dones + [a], 1, Todo);
    CompleteOnly(a, dones);
    var t2 := t1.(focus := Done);
    assert Apply(t1, '\t') == Step(Continue, t2);
    EnterCompletedMoves(t2);
    var d := dones + [a];
    assert d[..1] + d[2..] == [dones[0]] + dones[2..] + [a];
    assert [] + [d[1]] == [dones[1]];
    var t3 := Tasks([dones[1]], 0, [dones[0]] + dones[2..] + [a], 1, Done);
    assert Apply(t2, '\n') == Step(Continue, t3);
    assert Apply(t3, '\t') == Step(Continue, t3.(focus := Todo));
  }

  lemma CompleteOnly(a: string, dones: seq<string>)
    ensures Apply(Initial([a], dones), '\n') == Step(Continue, Tasks([], 0, dones + [a], 1, Todo))
  {
    assert RemoveAt([a], 0) == [];
  }

  /**
   * The completed-list Enter path with the clamp written as
   * `dones.len().saturating_sub(1)`: it agrees with `EnterCompleted` wherever
   * that does not underflow, and where it does it leaves the cursor at 0.
   */
  function EnterCompletedSaturating(s: Tasks): (r: Tasks)
    ensures EnterCompleted(s).outcome != Underflow ==> r == EnterCompleted(s).tasks
    ensures EnterCompleted(s).outcome == Underflow ==> r == s.(doneCurr := 0)
    ensures r.doneCurr < |r.dones| || r.doneCurr == 0
    ensures Pool(r) == Pool(s)
  {
    var moved := s.doneCurr < |s.dones|;
    var dones := if moved then RemoveAt(s.dones, s.doneCurr) else s.dones;
    var todos := if moved then s.todos + [s.dones[s.doneCurr]] else s.todos;
    var cursor := if s.doneCurr >= |dones| && s.doneCurr > 0 then
                    (if |dones| == 0 then 0 else |dones| - 1)
                  else s.doneCurr;
    assert multiset(todos + dones) == multiset(s.todos + s.dones) by {
      if moved {
        assert multiset(dones) + multiset{s.dones[s.doneCurr]} == multiset(s.dones);
      }
    }
    s.(todos := todos, dones := dones, doneCurr := cursor)
  }
}
