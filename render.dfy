/**
 * The immediate-mode drawing context `Ui` (src/main.rs). The terminal is
 * abstracted as a log of the text runs the context asked it to draw, each
 * with its position and colour pair.
 */
module Render {
  import opened Wrappers

  const REGULAR_PAIR: int := 0
  const HIGHLIGHT_PAIR: int := 1

  /** One `mv` + `attron` + `addstr` + `attroff` sequence. */
  datatype Draw = Draw(row: nat, col: nat, text: string, pair: int)

  class Ui {
    /** The id to highlight in the open list, if one is open. */
    var listCurr: Option<nat>
    var row: nat
    var col: nat
    /** Everything drawn since the screen was last erased. */
    var log: seq<Draw>

    /** `Ui::default()`. */
    constructor ()
      ensures listCurr == None && row == 0 && col == 0 && log == []
    {
      listCurr := None;
      row := 0;
      col := 0;
      log := [];
    }

    /** Resets the write position for a new frame. */
    method Begin(startRow: nat, startCol: nat)
      modifies this
      ensures row == startRow && col == startCol
      ensures listCurr == old(listCurr) && log == old(log)
    {
      col := startCol;
      row := startRow;
    }

    /** Opens a list whose element `id` is drawn highlighted; lists do not nest. */
    method BeginList(id: nat)
      requires listCurr == None
      modifies this
      ensures listCurr == Some(id)
      ensures row == old(row) && col == old(col) && log == old(log)
    {
      listCurr := Some(id);
    }

    /** Draws one element of the open list, highlighted iff it is the open list's id. */
    method ListElement(text: string, id: nat) returns (clicked: bool)
      requires listCurr.Some?
      modifies this
      ensures row == old(row) + 1 && col == old(col) && listCurr == old(listCurr)
      ensures log == old(log) + [Draw(old(row), col, text,
                                      if id == old(listCurr).value then HIGHLIGHT_PAIR else REGULAR_PAIR)]
      ensures !clicked
    {
      var pair := if listCurr.value == id then HIGHLIGHT_PAIR else REGULAR_PAIR;
      Label(text, pair);
      clicked := false;
    }

    method EndList()
      modifies this
      ensures listCurr == None
      ensures row == old(row) && col == old(col) && log == old(log)
    {
      listCurr := None;
    }

    /** Frame completion: nothing to do yet. */
    method End()
    {
    }

    /** Draws `text` at the write position and moves one row down. */
    method Label(text: string, pair: int)
      modifies this
      ensures log == old(log) + [Draw(old(row), old(col), text, pair)]
      ensures row == old(row) + 1 && col == old(col) && listCurr == old(listCurr)
    {
      log := log + [Draw(row, col, text, pair)];
      row := row + 1;
    }
  }

  /** The ncurses `erase()` before each frame: the screen is blank again. */
  method Erase(ui: Ui)
    modifies ui
    ensures ui.log == []
    ensures ui.row == old(ui.row) && ui.col == old(ui.col) && ui.listCurr == old(ui.listCurr)
  {
    ui.log := [];
  }

  /** The rows drawn for `texts` as the elements 0, 1, ... of a list opened with `selected`. */
  function ListRows(texts: seq<string>, selected: nat, row: nat, col: nat): (rows: seq<Draw>)
    ensures |rows| == |texts|
  {
    if texts == [] then []
    else
      var k := |texts| - 1;
      ListRows(texts[..k], selected, row, col)
        + [Draw(row + k, col, texts[k], if k == selected then HIGHLIGHT_PAIR else REGULAR_PAIR)]
  }

  /** Element k sits k rows below the start, in the same column, highlighted iff k is selected. */
  lemma {:induction false} ListRowAt(texts: seq<string>, selected: nat, row: nat, col: nat, k: nat)
    requires k < |texts|
    ensures ListRows(texts, selected, row, col)[k]
         == Draw(row + k, col, texts[k], if k == selected then HIGHLIGHT_PAIR else REGULAR_PAIR)
    decreases |texts|
  {
    if k < |texts| - 1 {
      ListRowAt(texts[..|texts| - 1], selected, row, col, k);
    }
  }

  /** In a list's rows exactly the selected one is highlighted; none if the selection is out of range. */
  lemma ListHighlight(texts: seq<string>, selected: nat, row: nat, col: nat)
    ensures var rows := ListRows(texts, selected, row, col);
            forall k :: 0 <= k < |rows| ==> (rows[k].pair == HIGHLIGHT_PAIR <==> k == selected)
    ensures var rows := ListRows(texts, selected, row, col);
            (exists k :: 0 <= k < |rows| && rows[k].pair == HIGHLIGHT_PAIR) <==> selected < |texts|
  {
    var rows := ListRows(texts, selected, row, col);
    forall k | 0 <= k < |rows|
      ensures rows[k].pair == HIGHLIGHT_PAIR <==> k == selected
    {
      ListRowAt(texts, selected, row, col, k);
    }
    if selected < |texts| {
      assert rows[selected].pair == HIGHLIGHT_PAIR;
    }
  }
}
