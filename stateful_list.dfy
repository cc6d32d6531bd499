/**
 * The selectable list shown by the to-do view: the items and the cursor that
 * the list state keeps for them (`StatefulList`).  The cursor is `None` when
 * nothing is selected and otherwise an index into the items.
 */
module StatefulLists {
  import opened Wrappers

  /** The text of one to-do entry. */
  type Item = string

  /**
   * The cursor `next` selects: the first item when nothing is selected,
   * otherwise the following item, wrapping from the last to the first.
   * The guard computes `len - 1` on an unsigned integer, so a present cursor
   * demands a non-empty list (the subtraction underflows otherwise).
   */
  function NextIndex(selected: Option<nat>, len: nat): (i: nat)
    requires selected.Some? ==> len > 0
    ensures selected.None? ==> i == 0
    ensures selected.Some? && selected.value < len ==> i == (selected.value + 1) % len
    ensures len > 0 ==> i < len
  {
    match selected
    case None => 0
    case Some(j) => if j >= len - 1 then 0 else j + 1
  }

  /**
   * The cursor `previous` selects: the first item when nothing is selected,
   * otherwise the preceding item, wrapping from the first to the last.
   * Only the wrap from the first item computes `len - 1`, so only a cursor
   * on 0 demands a non-empty list; any other cursor just steps back.
   */
  function PreviousIndex(selected: Option<nat>, len: nat): (i: nat)
    requires selected == Some(0) ==> len > 0
    ensures selected.None? ==> i == 0
    ensures selected.Some? && selected.value < len ==> i == (selected.value - 1 + len) % len
    ensures len > 0 && (selected.None? || selected.value <= len) ==> i < len
  {
    match selected
    case None => 0
    case Some(j) => if j == 0 then len - 1 else j - 1
  }

  /** Moving down and then up again returns the cursor to where it was. */
  lemma PreviousUndoesNext(j: nat, len: nat)
    requires j < len
    ensures PreviousIndex(Some(NextIndex(Some(j), len)), len) == j
  {
  }

  /** Moving up and then down again returns the cursor to where it was. */
  lemma NextUndoesPrevious(j: nat, len: nat)
    requires j < len
    ensures NextIndex(Some(PreviousIndex(Some(j), len)), len) == j
  {
  }

  class StatefulList {
    var items: seq<Item>
    var selected: Option<nat>

    /** The cursor, when present, designates an item. */
    ghost predicate Valid()
      reads this
    {
      selected.Some? ==> selected.value < |items|
    }

    /** `with_items`: the given items, nothing selected. */
    constructor WithItems(items: seq<Item>)
      ensures Valid()
      ensures this.items == items && selected == None
    {
      this.items := items;
      selected := None;
    }

    /** Selects the next item (or the first one when nothing is selected). */
    method Next()
      requires Valid() && |items| > 0
      modifies this
      ensures Valid() && items == old(items)
      ensures old(selected).None? ==> selected == Some(0)
      ensures old(selected).Some? ==>
                selected == Some((old(selected).value + 1) % |items|)
    {
      selected := Some(NextIndex(selected, |items|));
    }

    /** Selects the previous item (or the first one when nothing is selected). */
    method Previous()
      requires Valid() && |items| > 0
      modifies this
      ensures Valid() && items == old(items)
      ensures old(selected).None? ==> selected == Some(0)
      ensures old(selected).Some? ==>
                selected == Some((old(selected).value - 1 + |items|) % |items|)
    {
      selected := Some(PreviousIndex(selected, |items|));
    }

    /** Clears the cursor; on a list with nothing selected it changes nothing. */
    method Unselect()
      modifies this
      ensures Valid() && items == old(items) && selected == None
      ensures old(selected).None? ==> unchanged(this)
    {
      selected := None;
    }
  }
}
