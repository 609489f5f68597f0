/** `list_up` and `list_down`: moving a selection cursor inside one list. */
module Navigation {

  /** `list_up`: a saturating decrement; the list itself is only passed along. */
  method ListUp(list: seq<string>, cursor: nat) returns (next: nat)
    ensures cursor > 0 ==> next == cursor - 1
    ensures cursor == 0 ==> next == 0
  {
    next := cursor;
    if next > 0 {
      next := next - 1;
    }
  }

  /** `list_down`: step forward only while a next element exists. */
  method ListDown(list: seq<string>, cursor: nat) returns (next: nat)
    ensures cursor + 1 < |list| ==> next == cursor + 1
    ensures cursor + 1 >= |list| ==> next == cursor
    ensures cursor < |list| ==> next < |list|
  {
    next := cursor;
    if next + 1 < |list| {
      next := next + 1;
    }
  }
}
