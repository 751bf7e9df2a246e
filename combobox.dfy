/**
 * The searchable select used for schools and representatives: a trigger
 * showing the current choice, a popover list, and a selection rule that
 * maps the picked text back to an item's value and toggles it off when it
 * is already the current one.
 */
module Combobox {
  import opened Wrappers
  import opened Text
  import opened Seqs

  datatype Item = Item(value: string, itemLabel: string)

  /** What the trigger button shows. */
  datatype Trigger = Placeholder(text: string) | ItemLabel(text: string) | Blank

  /**
   * A current value (non-empty) shows the label of the first item with that
   * value, or nothing when no item has it; no value shows the placeholder.
   */
  function TriggerText(items: seq<Item>, value: Option<string>, placeholder: string): (t: Trigger)
    ensures (value.None? || value == Some("")) <==> t == Placeholder(placeholder)
    ensures t.ItemLabel? ==>
      exists i :: 0 <= i < |items| && items[i].value == value.value && items[i].itemLabel == t.text &&
        forall j :: 0 <= j < i ==> items[j].value != value.value
    ensures t.Blank? <==> value.Some? && value.value != "" && forall i :: 0 <= i < |items| ==> items[i].value != value.value
  {
    if value.None? || value.value == "" then Placeholder(placeholder)
    else
      match Find(items, (it: Item) => it.value == value.value)
      case Some(it) => ItemLabel(it.itemLabel)
      case None => Blank
  }

  /** The value of the first item whose label equals the picked text ignoring case, or "". */
  function Resolve(items: seq<Item>, currentValue: string): (v: string)
    ensures v != "" ==> exists i :: 0 <= i < |items| && items[i].value == v && ToLower(items[i].itemLabel) == ToLower(currentValue)
    ensures (forall i :: 0 <= i < |items| ==> ToLower(items[i].itemLabel) != ToLower(currentValue)) ==> v == ""
    ensures (exists i :: 0 <= i < |items| && ToLower(items[i].itemLabel) == ToLower(currentValue)) ==>
      exists i :: 0 <= i < |items| && ToLower(items[i].itemLabel) == ToLower(currentValue) && v == items[i].value &&
        forall j :: 0 <= j < i ==> ToLower(items[j].itemLabel) != ToLower(currentValue)
  {
    match Find(items, (it: Item) => ToLower(it.itemLabel) == ToLower(currentValue))
    case Some(it) => it.value
    case None => ""
  }

  /** What the picker reports: the resolved value, or "" when that is already the current value. */
  function Selection(items: seq<Item>, value: Option<string>, currentValue: string): (r: string)
    ensures value == Some(Resolve(items, currentValue)) ==> r == ""
    ensures value != Some(Resolve(items, currentValue)) ==> r == Resolve(items, currentValue)
  {
    var selected := Resolve(items, currentValue);
    if value == Some(selected) then "" else selected
  }

  /** The tick beside an item is visible exactly when it carries the current value. */
  predicate CheckVisible(value: Option<string>, item: Item) {
    value == Some(item.value)
  }

  /**
   * When labels differ ignoring case, picking item k (whose text the list
   * reports as its label, possibly lower-cased) resolves to that item's value.
   */
  lemma ResolvePicked(items: seq<Item>, k: int, reported: string)
    requires 0 <= k < |items|
    requires reported == items[k].itemLabel || reported == ToLower(items[k].itemLabel)
    requires forall i, j :: 0 <= i < j < |items| ==> ToLower(items[i].itemLabel) != ToLower(items[j].itemLabel)
    ensures Resolve(items, reported) == items[k].value
  {
    ToLowerIdempotent(items[k].itemLabel);
    var p := (it: Item) => ToLower(it.itemLabel) == ToLower(reported);
    var i := FindIndex(items, p);
    assert i >= 0 && i <= k;
  }

  /** Picking the current item twice first clears and then restores it. */
  lemma SelectTwice(items: seq<Item>, value: string, currentValue: string)
    requires value != "" && Resolve(items, currentValue) == value
    ensures Selection(items, Some(value), currentValue) == ""
    ensures Selection(items, Some(""), currentValue) == value
  {
  }

  /** The popover's open flag, the one piece of state the picker owns. */
  class Picker {
    var open: bool

    constructor()
      ensures !open
    {
      open := false;
    }

    /** The popover asks to open or close. */
    method SetOpen(b: bool)
      modifies this
      ensures open == b
    {
      open := b;
    }

    /** A pick reports the selection to the owner and closes the popover. */
    method Select(items: seq<Item>, value: Option<string>, currentValue: string) returns (reported: string)
      modifies this
      ensures reported == Selection(items, value, currentValue)
      ensures !open
    {
      var selected := Resolve(items, currentValue);
      reported := if value == Some(selected) then "" else selected;
      open := false;
    }
  }
}
