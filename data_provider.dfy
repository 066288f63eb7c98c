/** The live registry of src/context/data-server/DataProvider.tsx: the map of
    Things by id, the attribute and feature key lists derived on a bulk fetch,
    the push-event rule, and the first known coordinates. The React state
    cells become the fields of one object; a state update that React would
    apply becomes an assignment to the field. */
module DataProvider {
  import opened Wrappers
  import opened Dicts
  import opened Json
  import opened Things
  import opened Locations

  /** Every Thing is stored under its own id. */
  ghost predicate KeyedById(d: Dict<Thing>) {
    forall k :: k in d.values ==> d.values[k].id == k
  }

  /** The values of a dictionary in enumeration order, as `Array.from(map.values())`. */
  function Values<V>(d: Dict<V>): (r: seq<V>)
    requires Dicts.Valid(d)
    ensures |r| == |d.keys|
  {
    seq(|d.keys|, i requires 0 <= i < |d.keys| => d.values[d.keys[i]])
  }

  // ---------------------------------------------------------------------
  // fetchThings: the map build and the key lists
  // ---------------------------------------------------------------------

  /** A value `thingFromJson` can read: neither `null` nor `undefined`. */
  predicate ReadableItem(v: Value) {
    !v.Null? && !v.Undefined?
  }

  /** No fetched item is `null` or `undefined`, so `thingFromJson` reads all of them. */
  predicate Readable(items: seq<Value>) {
    forall i :: 0 <= i < |items| ==> ReadableItem(items[i])
  }

  /** The Things `thingFromJson` makes of readable items, in order. */
  function Normalized(items: seq<Value>, stringify: Stringify): (r: seq<Thing>)
    requires Readable(items)
  {
    seq(|items|, i requires 0 <= i < |items| =>
      ThingFromJsonShape(items[i], stringify);
      ThingFromJson(items[i], stringify).value)
  }

  /** The `result.set(thing.id, thing)` calls, in order. */
  function ById(ts: seq<Thing>): (r: seq<(string, Thing)>)
  {
    seq(|ts|, i requires 0 <= i < |ts| => (ts[i].id, ts[i]))
  }

  /** A Thing's attribute record, and its feature record. */
  function AttributesOf(t: Thing): Dict<string> { t.attributes }
  function FeaturesOf(t: Thing): Dict<string> { t.features }

  /** `flatMap((t) => Object.keys(part(t)))` */
  function FlatKeys(ts: seq<Thing>, part: Thing -> Dict<string>): (r: seq<string>)
  {
    if ts == [] then [] else FlatKeys(ts[..|ts| - 1], part) + part(ts[|ts| - 1]).keys
  }

  /** `Array.from(new Set(...))` over the keys of every stored Thing. */
  function UniqueKeys(d: Dict<Thing>, part: Thing -> Dict<string>): (r: seq<string>)
    requires Dicts.Valid(d)
  {
    Dedup(FlatKeys(Values(d), part))
  }

  // ---------------------------------------------------------------------
  // The firstThingLocation effect
  // ---------------------------------------------------------------------

  /** `Array.find` with `hasValidLocation(t.attributes?.location)`: the first
      index whose Thing has a valid location. */
  function FindLocated(ts: seq<Thing>): (r: Option<nat>)
    ensures r.Some? ==> r.value < |ts| && HasValidLocation(LocationOf(ts[r.value]))
    ensures forall j :: 0 <= j < |ts| && (r.None? || j < r.value) ==> !HasValidLocation(LocationOf(ts[j]))
  {
    if ts == [] then None
    else if HasValidLocation(LocationOf(ts[0])) then Some(0)
    else match FindLocated(ts[1..])
      case None => None
      case Some(j) => Some(j + 1)
  }

  /** The cell after the effect: the coordinates of the first located Thing,
      or the previous value when there is none (the effect never clears it). */
  function NextLocation(prev: Option<Coordinates>, d: Dict<Thing>): (r: Option<Coordinates>)
    requires Dicts.Valid(d)
  {
    var ts := Values(d);
    match FindLocated(ts)
    case None => prev
    case Some(i) =>
      GetThingLocationSucceedsIff(ts[i]);
      Some(GetThingLocation(ts[i]).value)
  }

  // ---------------------------------------------------------------------
  // onMessage
  // ---------------------------------------------------------------------

  /** An event whose Thing has no attributes, no features and a non-empty id. */
  predicate IsTombstone(t: Thing) {
    t.attributes.keys == [] && t.features.keys == [] && t.id != ""
  }

  /** The Thing an event carries, or `None` when the handler changes nothing:
      empty `data`, text `JSON.parse` rejects, or a value `thingFromJson`
      cannot read. */
  function EventThing(data: string, parse: Parse, stringify: Stringify): (r: Option<Thing>)
  {
    if data == "" then None
    else match parse(data)
      case None => None
      case Some(v) =>
        match ThingFromJson(v, stringify)
        case Err(_) => None
        case Ok(t) => Some(t)
  }

  /** The new map: the tombstone's id deleted, or the Thing upserted under its id. */
  function Applied(d: Dict<Thing>, t: Thing): (r: Dict<Thing>)
    requires Dicts.Valid(d)
    ensures Dicts.Valid(r)
    ensures KeyedById(d) ==> KeyedById(r)
  {
    if IsTombstone(t) then Delete(d, t.id) else Set(d, t.id, t)
  }

  /** The `forEach` of `fetchThings`: each item normalised and set under its
      id, in order; `ok` is false when an item makes `thingFromJson` throw. */
  method Collect(data: seq<Value>, stringify: Stringify) returns (ok: bool, result: Dict<Thing>)
    ensures ok <==> Readable(data)
    ensures ok ==> result == Fetched(data, stringify)
  {
    result := Empty();
    ghost var ts: seq<Thing> := [];
    var i := 0;
    while i < |data|
      invariant 0 <= i <= |data|
      invariant Readable(data[..i])
      invariant ts == Normalized(data[..i], stringify)
      invariant result == FromEntries(ById(ts))
    {
      var r := ThingFromJson(data[i], stringify);
      ReadableIff(data[i], stringify);
      if r.Err? {
        return false, result;
      }
      ghost var p := data[..i];
      assert data[..i + 1] == p + [data[i]];
      NormalizedSnoc(p, data[i], stringify);
      FromEntriesSnoc(ById(ts), r.value.id, r.value);
      ByIdSnoc(ts, r.value);
      ts := ts + [r.value];
      result := Set(result, r.value.id, r.value);
      i := i + 1;
    }
    assert data[..|data|] == data;
    return true, result;
  }

  lemma {:induction false} ReadableIff(v: Value, stringify: Stringify)
    ensures ThingFromJson(v, stringify).Ok? <==> ReadableItem(v)
  {
    ThingFromJsonShape(v, stringify);
  }

  /** The map the fetch builds from readable items. */
  function Fetched(items: seq<Value>, stringify: Stringify): (r: Dict<Thing>)
    requires Readable(items)
  {
    FromEntries(ById(Normalized(items, stringify)))
  }

  class Registry {
    var things: Dict<Thing>
    var attributes: seq<string>
    var features: seq<string>
    var firstThingLocation: Option<Coordinates>

    ghost predicate Valid()
      reads this
    {
      Dicts.Valid(things) && KeyedById(things)
    }

    /** The initial state cells: an empty map, empty key lists, no location. */
    constructor()
      ensures Valid()
      ensures things.keys == [] && things.values == map[]
      ensures attributes == [] && features == [] && firstThingLocation == None
    {
      things := Empty();
      attributes := [];
      features := [];
      firstThingLocation := None;
    }

    /** The effect that runs after every change of `things`. */
    method RefreshFirstLocation()
      requires Valid()
      modifies this
      ensures Valid()
      ensures firstThingLocation == NextLocation(old(firstThingLocation), things)
      ensures things == old(things) && attributes == old(attributes) && features == old(features)
    {
      var ts := Values(things);
      var found := FindLocated(ts);
      if found.Some? {
        GetThingLocationSucceedsIff(ts[found.value]);
        firstThingLocation := Some(GetThingLocation(ts[found.value]).value);
      }
    }

    /** `fetchThings`. `response` is what `DittoApi.getThings()` resolves to, and
        `None` when it rejects. A fetched `null` or `undefined` item makes
        `thingFromJson` throw inside the `forEach`, so the call ends before any state
        update. Otherwise the map, both key lists and then the location change. */
    method FetchThings(response: Option<seq<Value>>, stringify: Stringify)
      requires Valid()
      modifies this
      ensures Valid()
      ensures response.None? || !Readable(response.value) ==>
        && things == old(things) && attributes == old(attributes) && features == old(features)
        && firstThingLocation == old(firstThingLocation)
      ensures response.Some? && Readable(response.value) ==>
        && things == Fetched(response.value, stringify)
        && attributes == UniqueKeys(things, AttributesOf)
        && features == UniqueKeys(things, FeaturesOf)
        && firstThingLocation == NextLocation(old(firstThingLocation), things)
    {
      if response.None? {
        return;
      }
      var ok, result := Collect(response.value, stringify);
      if !ok {
        return;
      }
      FetchedKeyed(Normalized(response.value, stringify));
      things := result;
      attributes := UniqueKeys(result, AttributesOf);
      features := UniqueKeys(result, FeaturesOf);
      RefreshFirstLocation();
    }

    /** `onMessage`: a tombstone deletes its id, any other Thing is upserted;
        the key lists are left as the last bulk fetch computed them. An event
        that carries no Thing changes nothing, and the location effect does
        not run. */
    method OnMessage(data: string, parse: Parse, stringify: Stringify)
      requires Valid()
      modifies this
      ensures Valid()
      ensures attributes == old(attributes) && features == old(features)
      ensures EventThing(data, parse, stringify).None? ==>
        things == old(things) && firstThingLocation == old(firstThingLocation)
      ensures EventThing(data, parse, stringify).Some? ==>
        && things == Applied(old(things), EventThing(data, parse, stringify).value)
        && firstThingLocation == NextLocation(old(firstThingLocation), things)
    {
      if data == "" {
        return;
      }
      var parsed := parse(data);
      if parsed.None? {
        return;
      }
      var r := ThingFromJson(parsed.value, stringify);
      if r.Err? {
        return;
      }
      var thing := r.value;
      if IsTombstone(thing) {
        things := Delete(things, thing.id);
      } else {
        things := Set(things, thing.id, thing);
      }
      RefreshFirstLocation();
    }
  }

  // ---------------------------------------------------------------------
  // Properties of the registry
  // ---------------------------------------------------------------------

  /** A bulk fetch fails exactly when some item is `null` or `undefined`. */
  lemma {:induction false} FetchFailsIff(items: seq<Value>, stringify: Stringify)
    ensures !Readable(items) <==> exists i :: 0 <= i < |items| && ThingFromJson(items[i], stringify).Err?
  {
    forall i | 0 <= i < |items| {
      ThingFromJsonShape(items[i], stringify);
    }
  }

  /** The ids the fetched map holds are exactly the fetched ids. */
  lemma {:induction false} FetchedIds(ts: seq<Thing>)
    ensures forall k :: k in FromEntries(ById(ts)).values <==> exists i :: 0 <= i < |ts| && ts[i].id == k
  {
    var e := ById(ts);
    forall k ensures k in FromEntries(e).values <==> exists i :: 0 <= i < |ts| && ts[i].id == k {
      FromEntriesLookup(e, k);
      if exists i :: 0 <= i < |ts| && ts[i].id == k {
        var i :| 0 <= i < |ts| && ts[i].id == k;
        assert e[i].0 == k;
      }
    }
  }

  /** Each id is mapped to the last fetched Thing that carries it. */
  lemma {:induction false} FetchedLast(ts: seq<Thing>, k: string)
    requires k in FromEntries(ById(ts)).values
    ensures FromEntries(ById(ts)).values[k].id == k
    ensures exists i ::
      && 0 <= i < |ts| && FromEntries(ById(ts)).values[k] == ts[i]
      && forall j :: i < j < |ts| ==> ts[j].id != k
  {
    var e := ById(ts);
    var d := FromEntries(e);
    FromEntriesLookup(e, k);
    var i :| 0 <= i < |e| && e[i] == (k, d.values[k]) && forall j :: i < j < |e| ==> e[j].0 != k;
    assert ts[i].id == k && d.values[k] == ts[i];
    forall j | i < j < |ts| ensures ts[j].id != k {
      assert e[j].0 == ts[j].id;
    }
  }

  lemma {:induction false} FetchedKeyed(ts: seq<Thing>)
    ensures KeyedById(FromEntries(ById(ts)))
  {
    forall k | k in FromEntries(ById(ts)).values ensures FromEntries(ById(ts)).values[k].id == k {
      FetchedLast(ts, k);
    }
  }

  lemma {:induction false} NormalizedSnoc(items: seq<Value>, x: Value, stringify: Stringify)
    requires Readable(items + [x])
    ensures Readable(items)
    ensures ThingFromJson(x, stringify).Ok?
    ensures Normalized(items + [x], stringify) == Normalized(items, stringify) + [ThingFromJson(x, stringify).value]
  {
    assert forall i :: 0 <= i < |items| ==> (items + [x])[i] == items[i];
    assert (items + [x])[|items|] == x;
    ThingFromJsonShape(x, stringify);
  }

  lemma {:induction false} ByIdSnoc(ts: seq<Thing>, t: Thing)
    ensures ById(ts + [t]) == ById(ts) + [(t.id, t)]
  {
  }

  lemma {:induction false} FlatKeysMembers(ts: seq<Thing>, part: Thing -> Dict<string>, x: string)
    ensures x in FlatKeys(ts, part) <==> exists i :: 0 <= i < |ts| && x in part(ts[i]).keys
  {
    if ts != [] {
      var p := ts[..|ts| - 1];
      FlatKeysMembers(p, part, x);
      if x in FlatKeys(p, part) {
        var i :| 0 <= i < |p| && x in part(p[i]).keys;
        assert ts[i] == p[i];
      }
      if exists i :: 0 <= i < |ts| && x in part(ts[i]).keys {
        var i :| 0 <= i < |ts| && x in part(ts[i]).keys;
        if i < |p| {
          assert p[i] == ts[i];
        }
      }
    }
  }

  /** The attribute (or feature) list has no repetition, and holds exactly
      the keys that some stored Thing has. */
  lemma {:induction false} UniqueKeysUnion(d: Dict<Thing>, part: Thing -> Dict<string>)
    requires Dicts.Valid(d)
    ensures Distinct(UniqueKeys(d, part))
    ensures forall x :: x in UniqueKeys(d, part) <==>
      exists k :: k in d.values && x in part(d.values[k]).keys
  {
    var ts := Values(d);
    DedupMembers(FlatKeys(ts, part));
    forall x ensures x in UniqueKeys(d, part) <==> exists k :: k in d.values && x in part(d.values[k]).keys {
      FlatKeysMembers(ts, part, x);
      if exists k :: k in d.values && x in part(d.values[k]).keys {
        var k :| k in d.values && x in part(d.values[k]).keys;
        var i :| 0 <= i < |d.keys| && d.keys[i] == k;
        assert ts[i] == d.values[k];
      }
    }
  }

  /** The list keeps first-seen order: of two listed keys, the one that comes
      first appears earlier in the flattened key sequence. */
  lemma {:induction false} UniqueKeysFirstSeen(d: Dict<Thing>, part: Thing -> Dict<string>)
    requires Dicts.Valid(d)
    ensures forall i, j :: 0 <= i < j < |UniqueKeys(d, part)| ==>
      && UniqueKeys(d, part)[i] in FlatKeys(Values(d), part)
      && UniqueKeys(d, part)[j] in FlatKeys(Values(d), part)
      && IndexOf(FlatKeys(Values(d), part), UniqueKeys(d, part)[i]) < IndexOf(FlatKeys(Values(d), part), UniqueKeys(d, part)[j])
  {
    var s := FlatKeys(Values(d), part);
    DedupFirstSeenOrder(s);
    assert UniqueKeys(d, part) == Dedup(s);
  }

  /** An upsert stores the event's Thing under its id and leaves every other entry as it was. */
  lemma {:induction false} UpsertSupersedes(d: Dict<Thing>, t: Thing)
    requires Dicts.Valid(d) && !IsTombstone(t)
    ensures Get(Applied(d, t), t.id) == Some(t)
    ensures forall k :: k != t.id ==> Get(Applied(d, t), k) == Get(d, k)
  {
  }

  /** A tombstone removes its id and leaves every other entry as it was;
      a tombstone for an absent id leaves the map as it was. */
  lemma {:induction false} TombstoneRemoves(d: Dict<Thing>, t: Thing)
    requires Dicts.Valid(d) && IsTombstone(t)
    ensures Get(Applied(d, t), t.id) == None
    ensures forall k :: k != t.id ==> Get(Applied(d, t), k) == Get(d, k)
    ensures t.id !in d.values ==> Applied(d, t) == d
  {
    if t.id !in d.values {
      DeleteAbsent(d, t.id);
    }
  }

  /** With no located Thing, the effect keeps the previous value: it never clears it. */
  lemma {:induction false} NextLocationKeeps(prev: Option<Coordinates>, d: Dict<Thing>)
    requires Dicts.Valid(d)
    requires forall k :: k in d.values ==> !HasValidLocation(LocationOf(d.values[k]))
    ensures NextLocation(prev, d) == prev
  {
    var ts := Values(d);
    forall j | 0 <= j < |ts| ensures !HasValidLocation(LocationOf(ts[j])) {
      assert ts[j] == d.values[d.keys[j]];
    }
  }

  /** The effect reports the coordinates of the first Thing, in map order,
      whose location is valid. */
  lemma {:induction false} NextLocationFirst(prev: Option<Coordinates>, d: Dict<Thing>, k: string)
    requires Dicts.Valid(d)
    requires k in d.values && HasValidLocation(LocationOf(d.values[k]))
    ensures exists i :: FirstLocatedAt(prev, d, i)
  {
    var ts := Values(d);
    var i :| 0 <= i < |d.keys| && d.keys[i] == k;
    assert ts[i] == d.values[k];
    var f := FindLocated(ts).value;
    assert ts[f] == d.values[d.keys[f]];
    forall j | 0 <= j < f ensures !HasValidLocation(LocationOf(d.values[d.keys[j]])) {
      assert ts[j] == d.values[d.keys[j]];
    }
    assert FirstLocatedAt(prev, d, f);
  }

  /** The `i`-th Thing in map order is the first located one, and the effect
      reports its coordinates. */
  ghost predicate FirstLocatedAt(prev: Option<Coordinates>, d: Dict<Thing>, i: int)
    requires Dicts.Valid(d)
  {
    && 0 <= i < |d.keys|
    && HasValidLocation(LocationOf(d.values[d.keys[i]]))
    && (forall j :: 0 <= j < i ==> !HasValidLocation(LocationOf(d.values[d.keys[j]])))
    && (GetThingLocationSucceedsIff(d.values[d.keys[i]]);
        NextLocation(prev, d) == Some(GetThingLocation(d.values[d.keys[i]]).value))
  }
}
