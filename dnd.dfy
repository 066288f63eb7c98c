/** The selection state of src/context/dnd/DnDProvider.tsx: at most one
    selected Thing, chosen by id against the registry and re-resolved against
    it after every change. */
module DnD {
  import opened Wrappers
  import opened Dicts
  import opened Things
  import DataProvider

  /** `saveSelectedThing(id)`: a missing or empty id clears the selection,
      any other id selects the registry's entry, or nothing when it is absent. */
  function Save(id: Option<string>, things: Dict<Thing>): (r: Option<Thing>)
    ensures r.Some? <==> id.Some? && id.value != "" && id.value in things.values
    ensures r.Some? ==> r.value == things.values[id.value]
  {
    if id.None? || id.value == "" then None else Get(things, id.value)
  }

  /** The effect body: a selection whose id is still stored becomes the stored
      Thing, one whose id has gone is cleared, and no selection stays none. */
  function Resolve(selected: Option<Thing>, things: Dict<Thing>): (r: Option<Thing>)
    ensures r.Some? <==> selected.Some? && selected.value.id in things.values
    ensures r.Some? ==> r.value == things.values[selected.value.id]
  {
    match selected
    case None => None
    case Some(t) => if t.id in things.values then Some(things.values[t.id]) else None
  }

  /** The selection agrees with the registry: none, or the Thing stored under its id. */
  ghost predicate Consistent(selected: Option<Thing>, things: Dict<Thing>) {
    selected.None? || (selected.value.id in things.values && things.values[selected.value.id] == selected.value)
  }

  class Selection {
    var selected: Option<Thing>

    /** `useState<Thing | null>(null)` */
    constructor()
      ensures selected == None
    {
      selected := None;
    }

    method SaveSelectedThing(id: Option<string>, things: Dict<Thing>)
      modifies this
      ensures selected == Save(id, things)
    {
      if id.None? || id.value == "" {
        selected := None;
      } else if id.value in things.values {
        selected := Some(things.values[id.value]);
      } else {
        selected := None;
      }
    }

    /** The effect at lines 15-23, run when `things` or the selection changes. */
    method Reresolve(things: Dict<Thing>)
      modifies this
      ensures selected == Resolve(old(selected), things)
    {
      if selected.Some? {
        if selected.value.id in things.values {
          selected := Some(things.values[selected.value.id]);
        } else {
          selected := None;
        }
      }
    }
  }

  /** A selection saved from a registry that keeps Things under their ids
      is consistent with it. */
  lemma {:induction false} SaveConsistent(id: Option<string>, things: Dict<Thing>)
    requires DataProvider.KeyedById(things)
    ensures Consistent(Save(id, things), things)
  {
  }

  /** After a re-resolve the selection is none or the registry's current
      entry for its id; no stale copy is kept. */
  lemma {:induction false} ResolveConsistent(selected: Option<Thing>, things: Dict<Thing>)
    requires DataProvider.KeyedById(things)
    ensures Consistent(Resolve(selected, things), things)
    ensures Resolve(selected, things).Some? ==> Resolve(selected, things).value.id == selected.value.id
  {
  }

  /** Re-resolving twice is re-resolving once, so the effect comes to rest
      after the update it makes itself. */
  lemma {:induction false} ResolveIdempotent(selected: Option<Thing>, things: Dict<Thing>)
    requires DataProvider.KeyedById(things)
    ensures Resolve(Resolve(selected, things), things) == Resolve(selected, things)
  {
  }

  /** A consistent selection is left as it is. */
  lemma {:induction false} ResolveKeepsConsistent(selected: Option<Thing>, things: Dict<Thing>)
    requires Consistent(selected, things)
    ensures Resolve(selected, things) == selected
  {
  }

  /** After an event for the selected id, the re-resolve drops the selection
      when the event was a tombstone, and picks up the new Thing otherwise. */
  lemma {:induction false} EventReresolved(selected: Thing, things: Dict<Thing>, t: Thing)
    requires Dicts.Valid(things) && selected.id == t.id
    ensures DataProvider.IsTombstone(t) ==> Resolve(Some(selected), DataProvider.Applied(things, t)) == None
    ensures !DataProvider.IsTombstone(t) ==> Resolve(Some(selected), DataProvider.Applied(things, t)) == Some(t)
  {
    if DataProvider.IsTombstone(t) {
      DataProvider.TombstoneRemoves(things, t);
    } else {
      DataProvider.UpsertSupersedes(things, t);
    }
  }
}
