/** The item of src/components/items/MinimalItem.tsx: whether it shows as
    selected, what a click does to the selection, and its three fill colours. */
module MinimalItem {
  import opened Wrappers
  import opened Dicts
  import opened Things
  import opened DnD
  import DataProvider

  /** `selectedThing?.id === id` */
  predicate IsSelected(selected: Option<Thing>, id: string) {
    selected.Some? && selected.value.id == id
  }

  /** The argument `handleClick` passes to `saveSelectedThing`. */
  function ClickArgument(selected: Option<Thing>, id: string): (r: Option<string>)
    ensures r.None? <==> IsSelected(selected, id)
    ensures r.Some? ==> r.value == id
  {
    if IsSelected(selected, id) then None else Some(id)
  }

  /** The selection after a click on the item with the given id. */
  function Click(selected: Option<Thing>, id: string, things: Dict<Thing>): (r: Option<Thing>)
  {
    Save(ClickArgument(selected, id), things)
  }

  /** `handleClick`, acting on the shared selection. */
  method HandleClick(selection: Selection, id: string, things: Dict<Thing>)
    modifies selection
    ensures selection.selected == Click(old(selection.selected), id, things)
  {
    if selection.selected.Some? && selection.selected.value.id == id {
      selection.SaveSelectedThing(None, things);
    } else {
      selection.SaveSelectedThing(Some(id), things);
    }
  }

  const Light: string := "#FBFAFF"
  const Teal: string := "#3A8C9A"

  /** The outer circle, the ring and the inner circle. */
  function OuterFill(selected: Option<Thing>, id: string): (r: string)
  {
    if IsSelected(selected, id) then Light else Teal
  }

  function RingFill(selected: Option<Thing>, id: string): (r: string)
  {
    if IsSelected(selected, id) then Teal else Light
  }

  function InnerFill(selected: Option<Thing>, id: string): (r: string)
  {
    if IsSelected(selected, id) then Teal else Light
  }

  /** The colours swap exactly on selection. */
  lemma {:induction false} FillsSwap(selected: Option<Thing>, id: string)
    ensures OuterFill(selected, id) == Light <==> IsSelected(selected, id)
    ensures RingFill(selected, id) == Teal <==> IsSelected(selected, id)
    ensures InnerFill(selected, id) == Teal <==> IsSelected(selected, id)
    ensures OuterFill(selected, id) != RingFill(selected, id)
  {
  }

  /** Clicking the selected item clears the selection. */
  lemma {:induction false} ClickSelectedClears(selected: Option<Thing>, id: string, things: Dict<Thing>)
    requires IsSelected(selected, id)
    ensures Click(selected, id, things) == None
  {
  }

  /** Clicking any other item selects the registry's entry for its id, or
      clears the selection when the id is empty or absent. */
  lemma {:induction false} ClickOtherSelects(selected: Option<Thing>, id: string, things: Dict<Thing>)
    requires !IsSelected(selected, id)
    ensures Click(selected, id, things) == (if id == "" then None else Get(things, id))
  {
  }

  /** Two clicks on a stored, unselected item return to no selection, and
      the first click makes the item show as selected. */
  lemma {:induction false} ClickTwice(selected: Option<Thing>, id: string, things: Dict<Thing>)
    requires DataProvider.KeyedById(things)
    requires id != "" && id in things.values && !IsSelected(selected, id)
    ensures IsSelected(Click(selected, id, things), id)
    ensures Click(Click(selected, id, things), id, things) == None
  {
  }
}
