/**
 * The task file format: the load loop that sorts parsed lines into the two
 * lists, and the save branch that writes them back (src/main.rs).
 * Lines are taken already split on input and returned without their
 * newline terminator on output.
 */
module Codec {
  import opened Wrappers
  import opened Items

  /** What one line contributes to the list for `st`: its title, or nothing. */
  function TitleOf(line: string, st: Status): seq<string>
  {
    match ParseItem(line)
    case Some((s, title)) => if s == st then [title] else []
    case None => []
  }

  /** The titles the load loop collects into the list for `st`, in line order. */
  function Titles(lines: seq<string>, st: Status): seq<string>
  {
    if lines == [] then [] else TitleOf(lines[0], st) + Titles(lines[1..], st)
  }

  /** The load loop: every parsed line's title is pushed onto its list. */
  method Load(lines: seq<string>) returns (todos: seq<string>, dones: seq<string>)
    ensures todos == Titles(lines, Todo)
    ensures dones == Titles(lines, Done)
  {
    todos, dones := [], [];
    var i := 0;
    while i < |lines|
      invariant 0 <= i <= |lines|
      invariant todos == Titles(lines[..i], Todo)
      invariant dones == Titles(lines[..i], Done)
    {
      assert lines[..i + 1] == lines[..i] + [lines[i]];
      TitlesSnoc(lines[..i], lines[i], Todo);
      TitlesSnoc(lines[..i], lines[i], Done);
      match ParseItem(lines[i]) {
        case Some((Todo, title)) => todos := todos + [title];
        case Some((Done, title)) => dones := dones + [title];
        case None =>
      }
      i := i + 1;
    }
    assert lines[..|lines|] == lines;
  }

  /** Each title written as one line with the given prefix, in order. */
  function Tagged(prefix: string, titles: seq<string>): (lines: seq<string>)
    ensures |lines| == |titles|
  {
    if titles == [] then [] else [prefix + titles[0]] + Tagged(prefix, titles[1..])
  }

  /** Line i of the tagged block is title i behind the prefix. */
  lemma {:induction false} TaggedAt(prefix: string, titles: seq<string>, i: nat)
    requires i < |titles|
    ensures Tagged(prefix, titles)[i] == prefix + titles[i]
    decreases |titles|
  {
    if i > 0 {
      TaggedAt(prefix, titles[1..], i - 1);
    }
  }

  lemma TaggedEach(prefix: string, titles: seq<string>)
    ensures forall i :: 0 <= i < |titles| ==> Tagged(prefix, titles)[i] == prefix + titles[i]
  {
    forall i | 0 <= i < |titles| ensures Tagged(prefix, titles)[i] == prefix + titles[i] {
      TaggedAt(prefix, titles, i);
    }
  }

  /** The save format: every todo as a `TODO: ` line, then every done as a `DONE: ` line. */
  function Encode(todos: seq<string>, dones: seq<string>): (lines: seq<string>)
    ensures |lines| == |todos| + |dones|
  {
    Tagged(TODO_PREFIX, todos) + Tagged(DONE_PREFIX, dones)
  }

  /** Line i of the saved file is todo i, and line |todos| + i is done i. */
  lemma EncodeLayout(todos: seq<string>, dones: seq<string>)
    ensures forall i :: 0 <= i < |todos| ==> Encode(todos, dones)[i] == TODO_PREFIX + todos[i]
    ensures forall i :: 0 <= i < |dones| ==> Encode(todos, dones)[|todos| + i] == DONE_PREFIX + dones[i]
  {
    var lines := Encode(todos, dones);
    TaggedEach(TODO_PREFIX, todos);
    TaggedEach(DONE_PREFIX, dones);
    forall i | 0 <= i < |dones| ensures lines[|todos| + i] == DONE_PREFIX + dones[i] {
      assert lines[|todos| + i] == Tagged(DONE_PREFIX, dones)[i];
    }
  }

  /** The save branch: two `for_each` loops, each writing one line per title. */
  method SaveLines(todos: seq<string>, dones: seq<string>) returns (written: seq<string>)
    ensures written == Encode(todos, dones)
  {
    written := [];
    var i := 0;
    while i < |todos|
      invariant 0 <= i <= |todos|
      invariant written == Tagged(TODO_PREFIX, todos[..i])
    {
      assert todos[..i + 1] == todos[..i] + [todos[i]];
      TaggedSnoc(TODO_PREFIX, todos[..i], todos[i]);
      written := written + [TODO_PREFIX + todos[i]];
      i := i + 1;
    }
    assert todos[..|todos|] == todos;
    var j := 0;
    while j < |dones|
      invariant 0 <= j <= |dones|
      invariant written == Tagged(TODO_PREFIX, todos) + Tagged(DONE_PREFIX, dones[..j])
    {
      assert dones[..j + 1] == dones[..j] + [dones[j]];
      TaggedSnoc(DONE_PREFIX, dones[..j], dones[j]);
      written := written + [DONE_PREFIX + dones[j]];
      j := j + 1;
    }
    assert dones[..|dones|] == dones;
  }

  /** Decoding distributes over concatenation of files. */
  lemma {:induction false} TitlesAppend(a: seq<string>, b: seq<string>, st: Status)
    ensures Titles(a + b, st) == Titles(a, st) + Titles(b, st)
    decreases |a|
  {
    if a == [] {
      assert a + b == b;
    } else {
      assert (a + b)[0] == a[0];
      assert (a + b)[1..] == a[1..] + b;
      TitlesAppend(a[1..], b, st);
    }
  }

  lemma IgnoredLine(a: seq<string>, line: string, b: seq<string>, st: Status)
    requires ParseItem(line) == None
    ensures Titles(a + [line] + b, st) == Titles(a + b, st)
  {
    TitlesAppend(a + [line], b, st);
    TitlesSnoc(a, line, st);
    assert TitleOf(line, st) == [];
    assert Titles(a, st) + [] == Titles(a, st);
    TitlesAppend(a, b, st);
  }

  lemma TitlesOfOne(st: Status, title: string, which: Status)
    ensures Titles([PrefixOf(st) + title], which) == if st == which then [title] else []
  {
    var line := PrefixOf(st) + title;
    assert [line][1..] == [];
    ParsePrefixed(st, title);
  }

  /** Lines written with one prefix decode to their titles in that list and to nothing in the other. */
  lemma {:induction false} TitlesTagged(st: Status, titles: seq<string>, which: Status)
    ensures Titles(Tagged(PrefixOf(st), titles), which) == if st == which then titles else []
    decreases |titles|
  {
    if titles != [] {
      var rest := Tagged(PrefixOf(st), titles[1..]);
      assert Tagged(PrefixOf(st), titles) == [PrefixOf(st) + titles[0]] + rest;
      TitlesAppend([PrefixOf(st) + titles[0]], rest, which);
      TitlesOfOne(st, titles[0], which);
      TitlesTagged(st, titles[1..], which);
      assert titles == [titles[0]] + titles[1..];
    }
  }

  /** Round trip: loading what was saved gives back both lists exactly. */
  lemma RoundTrip(todos: seq<string>, dones: seq<string>)
    ensures Titles(Encode(todos, dones), Todo) == todos
    ensures Titles(Encode(todos, dones), Done) == dones
  {
    TitlesAppend(Tagged(TODO_PREFIX, todos), Tagged(DONE_PREFIX, dones), Todo);
    TitlesAppend(Tagged(TODO_PREFIX, todos), Tagged(DONE_PREFIX, dones), Done);
    TitlesTagged(Todo, todos, Todo);
    TitlesTagged(Todo, todos, Done);
    TitlesTagged(Done, dones, Todo);
    TitlesTagged(Done, dones, Done);
  }

  /** Loading, saving and loading again loses nothing of what the first load read. */
  lemma ResaveKeepsTitles(lines: seq<string>, st: Status)
    ensures Titles(Encode(Titles(lines, Todo), Titles(lines, Done)), st) == Titles(lines, st)
  {
    RoundTrip(Titles(lines, Todo), Titles(lines, Done));
  }

  predicate IsLine(line: string, st: Status)
  {
    ParseItem(line).Some? && ParseItem(line).value.0 == st
  }

  /** Every line parses, and no `DONE: ` line comes before a `TODO: ` line. */
  predicate Grouped(lines: seq<string>)
  {
    && (forall i :: 0 <= i < |lines| ==> ParseItem(lines[i]).Some?)
    && (forall i, j :: 0 <= i < j < |lines| && IsLine(lines[j], Todo) ==> IsLine(lines[i], Todo))
  }

  lemma {:induction false} NoneOf(lines: seq<string>, st: Status)
    requires forall i :: 0 <= i < |lines| ==> !IsLine(lines[i], st)
    ensures Titles(lines, st) == []
    decreases |lines|
  {
    if lines != [] {
      assert !IsLine(lines[0], st);
      NoneOf(lines[1..], st);
    }
  }

  lemma {:induction false} TaggedSnoc(prefix: string, titles: seq<string>, t: string)
    ensures Tagged(prefix, titles + [t]) == Tagged(prefix, titles) + [prefix + t]
    decreases |titles|
  {
    if titles == [] {
      assert Tagged(prefix, [t]) == [prefix + t] + Tagged(prefix, []);
    } else {
      assert (titles + [t])[1..] == titles[1..] + [t];
      TaggedSnoc(prefix, titles[1..], t);
    }
  }

  lemma GroupedInit(init: seq<string>, last: string)
    requires Grouped(init + [last])
    ensures Grouped(init)
    ensures ParseItem(last).Some?
    ensures IsLine(last, Todo) ==> forall i :: 0 <= i < |init| ==> !IsLine(init[i], Done)
  {
    var lines := init + [last];
    assert forall i :: 0 <= i < |init| ==> init[i] == lines[i];
    assert lines[|init|] == last;
  }

  lemma TitlesSnoc(lines: seq<string>, line: string, st: Status)
    ensures Titles(lines + [line], st) == Titles(lines, st) + TitleOf(line, st)
  {
    TitlesAppend(lines, [line], st);
    assert [line][1..] == [];
  }

  lemma TitleOfParsed(line: string)
    requires ParseItem(line).Some?
    ensures line == PrefixOf(ParseItem(line).value.0) + ParseItem(line).value.1
    ensures TitleOf(line, ParseItem(line).value.0) == [ParseItem(line).value.1]
    ensures TitleOf(line, Toggle(ParseItem(line).value.0)) == []
  {
    ParseItemMeaning(line);
  }

  lemma EncodeSnocTodo(todos: seq<string>, title: string)
    ensures Encode(todos + [title], []) == Encode(todos, []) + [TODO_PREFIX + title]
  {
    TaggedSnoc(TODO_PREFIX, todos, title);
    assert Tagged(DONE_PREFIX, []) == [];
  }

  lemma EncodeSnocDone(todos: seq<string>, dones: seq<string>, title: string)
    ensures Encode(todos, dones + [title]) == Encode(todos, dones) + [DONE_PREFIX + title]
  {
    TaggedSnoc(DONE_PREFIX, dones, title);
  }

  lemma GroupedStep(init: seq<string>, last: string)
    requires Encode(Titles(init, Todo), Titles(init, Done)) == init
    requires ParseItem(last).Some?
    requires IsLine(last, Todo) ==> Titles(init, Done) == []
    ensures Encode(Titles(init + [last], Todo), Titles(init + [last], Done)) == init + [last]
  {
    var a, b := Titles(init, Todo), Titles(init, Done);
    var st, title := ParseItem(last).value.0, ParseItem(last).value.1;
    TitleOfParsed(last);
    TitlesSnoc(init, last, Todo);
    TitlesSnoc(init, last, Done);
    if st == Todo {
      EncodeSnocTodo(a, title);
      assert Titles(init + [last], Todo) == a + [title];
      assert Titles(init + [last], Done) == [];
    } else {
      EncodeSnocDone(a, b, title);
      assert Titles(init + [last], Todo) == a;
      assert Titles(init + [last], Done) == b + [title];
    }
  }

  /** A grouped file is reproduced line for line by loading and saving it. */
  lemma {:induction false} GroupedRoundTrip(lines: seq<string>)
    requires Grouped(lines)
    ensures Encode(Titles(lines, Todo), Titles(lines, Done)) == lines
    decreases |lines|
  {
    if lines != [] {
      var init := lines[..|lines| - 1];
      var last := lines[|lines| - 1];
      assert init + [last] == lines;
      GroupedInit(init, last);
      GroupedRoundTrip(init);
      if IsLine(last, Todo) {
        NoneOf(init, Done);
      }
      GroupedStep(init, last);
      assert init + [last] == lines;
    }
  }

  lemma DecodeInterleavedFor(x: string, y: string, z: string, st: Status)
    ensures Titles([TODO_PREFIX + x, DONE_PREFIX + y, TODO_PREFIX + z], st)
         == (if st == Todo then [x, z] else [y])
  {
    var l1, l2, l3 := TODO_PREFIX + x, DONE_PREFIX + y, TODO_PREFIX + z;
    TitlesOfOne(Todo, x, st);
    TitlesOfOne(Done, y, st);
    TitlesOfOne(Todo, z, st);
    TitlesAppend([l1], [l2], st);
    TitlesAppend([l1, l2], [l3], st);
    assert [l1] + [l2] == [l1, l2] && [l1, l2] + [l3] == [l1, l2, l3];
  }

  lemma DecodeInterleaved(x: string, y: string, z: string)
    ensures Titles([TODO_PREFIX + x, DONE_PREFIX + y, TODO_PREFIX + z], Todo) == [x, z]
    ensures Titles([TODO_PREFIX + x, DONE_PREFIX + y, TODO_PREFIX + z], Done) == [y]
  {
    DecodeInterleavedFor(x, y, z, Todo);
    DecodeInterleavedFor(x, y, z, Done);
  }

  /** Interleaved lines come back regrouped, each list in its original order. */
  lemma Regroup(x: string, y: string, z: string)
    ensures var lines := [TODO_PREFIX + x, DONE_PREFIX + y, TODO_PREFIX + z];
            Encode(Titles(lines, Todo), Titles(lines, Done))
              == [TODO_PREFIX + x, TODO_PREFIX + z, DONE_PREFIX + y]
  {
    DecodeInterleaved(x, y, z);
    EncodeSnocTodo([], x);
    EncodeSnocTodo([x], z);
    EncodeSnocDone([x, z], [], y);
    assert [] + [x] == [x] && [x] + [z] == [x, z] && [] + [y] == [y];
    assert Encode([], []) == [];
  }
}
