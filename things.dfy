/** The normalised entity of the system: a Thing with an id and string-valued
    attribute and feature records (src/types/Thing.ts). */
module Things {
  import opened Wrappers
  import opened Dicts
  import opened Json

  datatype Thing = Thing(id: string, attributes: Dict<string>, features: Dict<string>)

  /** `toStr`: the string form of any value. */
  function ToStr(v: Value, stringify: Stringify): (r: string)
  {
    match v
    case Undefined => "undefined"
    case Null => "null"
    case Str(s) => s
    case _ => stringify(v)
  }

  /** Assigning `result["__proto__"]` a string runs the inherited `__proto__`
      setter, which ignores non-object values: no own property is created. */
  const ProtoKey: string := "__proto__"

  /** The assignments the `forEach` of `parseAttr` performs, in order. */
  function Assignments(e: seq<(string, Value)>, stringify: Stringify): (r: seq<(string, string)>)
  {
    if e == [] then []
    else
      var last := e[|e| - 1];
      Assignments(e[..|e| - 1], stringify)
        + (if last.0 == ProtoKey then [] else [(last.0, ToStr(last.1, stringify))])
  }

  lemma {:induction false} AssignmentsSnoc(e: seq<(string, Value)>, x: (string, Value), stringify: Stringify)
    ensures Assignments(e + [x], stringify) ==
      Assignments(e, stringify) + (if x.0 == ProtoKey then [] else [(x.0, ToStr(x.1, stringify))])
  {
    assert (e + [x])[..|e|] == e;
  }

  /** The record `parseAttr` returns: empty for a falsy input, otherwise the
      input's entries assigned in order with their values passed through `toStr`. */
  function Record(v: Value, stringify: Stringify): (r: Dict<string>)
  {
    if !Truthy(v) then Empty() else FromEntries(Assignments(Entries(v), stringify))
  }

  /** `parseAttr`: the `forEach` loop that fills `result` key by key. */
  method ParseAttr(v: Value, stringify: Stringify) returns (r: Dict<string>)
    ensures Valid(r)
    ensures r == Record(v, stringify)
    ensures !Truthy(v) ==> r.keys == [] && r.values == map[]
  {
    if !Truthy(v) {
      return Empty();
    }
    var entries := Entries(v);
    r := Empty();
    var i := 0;
    assert Assignments(entries[..0], stringify) == [];
    while i < |entries|
      invariant 0 <= i <= |entries|
      invariant r == FromEntries(Assignments(entries[..i], stringify))
    {
      var k, x := entries[i].0, entries[i].1;
      assert entries[..i + 1] == entries[..i] + [entries[i]];
      AssignmentsSnoc(entries[..i], entries[i], stringify);
      if k != ProtoKey {
        FromEntriesSnoc(Assignments(entries[..i], stringify), k, ToStr(x, stringify));
        r := Set(r, k, ToStr(x, stringify));
      } else {
        assert Assignments(entries[..i + 1], stringify) == Assignments(entries[..i], stringify);
      }
      i := i + 1;
    }
    assert entries[..i] == entries;
  }

  /** `thingFromJson`; reading a property of `null` or `undefined` throws. */
  function ThingFromJson(obj: Value, stringify: Stringify): (r: Result<Thing, TypeError>)
  {
    match (Property(obj, "thingId"), Property(obj, "attributes"), Property(obj, "features"))
    case (Ok(id), Ok(attributes), Ok(features)) =>
      Ok(Thing(ToStr(id, stringify), Record(attributes, stringify), Record(features, stringify)))
    case _ => Err(CannotReadProperty("thingId"))
  }

  // ---------------------------------------------------------------------
  // Properties of the normaliser
  // ---------------------------------------------------------------------

  /** The entries `Object.entries` gives never repeat a key. */
  lemma {:induction false} EntriesDistinct(v: Value)
    ensures Distinct(Firsts(Entries(v)))
  {
    var e := Entries(v);
    var f := Firsts(e);
    match v
    case Obj(fields) =>
      assert forall i :: 0 <= i < |f| ==> f[i] == Members(fields).keys[i];
    case Arr(items) =>
      forall i, j | 0 <= i < j < |f| ensures f[i] != f[j] {
        if f[i] == f[j] { Decimal.NatToStringInjective(i, j); }
      }
    case Str(s) =>
      forall i, j | 0 <= i < j < |f| ensures f[i] != f[j] {
        if f[i] == f[j] { Decimal.NatToStringInjective(i, j); }
      }
    case _ =>
  }

  lemma {:induction false} AssignedKeys(e: seq<(string, Value)>, stringify: Stringify)
    ensures Firsts(Assignments(e, stringify)) == Without(Firsts(e), ProtoKey)
  {
    if e != [] {
      var p, x := e[..|e| - 1], e[|e| - 1];
      AssignedKeys(p, stringify);
      assert Firsts(e) == Firsts(p) + [x.0];
      WithoutSnoc(Firsts(p), x.0, ProtoKey);
      var ap := Assignments(p, stringify);
      if x.0 != ProtoKey {
        assert Firsts(ap + [(x.0, ToStr(x.1, stringify))]) == Firsts(ap) + [x.0];
      } else {
        assert ap + [] == ap;
      }
    }
  }

  /** Every entry not named `__proto__` is among the assignments. */
  lemma {:induction false} AssignmentsContain(e: seq<(string, Value)>, i: nat, stringify: Stringify)
    requires i < |e| && e[i].0 != ProtoKey
    ensures exists j :: 0 <= j < |Assignments(e, stringify)| && Assignments(e, stringify)[j] == (e[i].0, ToStr(e[i].1, stringify))
  {
    var p := e[..|e| - 1];
    var ap := Assignments(p, stringify);
    var a := Assignments(e, stringify);
    assert a == ap + (if e[|e| - 1].0 == ProtoKey then [] else [(e[|e| - 1].0, ToStr(e[|e| - 1].1, stringify))]);
    if i == |e| - 1 {
      assert a[|ap|] == (e[i].0, ToStr(e[i].1, stringify));
    } else {
      assert p[i] == e[i];
      AssignmentsContain(p, i, stringify);
      var j :| 0 <= j < |ap| && ap[j] == (e[i].0, ToStr(e[i].1, stringify));
      assert a[j] == ap[j];
    }
  }

  lemma {:induction false} AssignedDistinct(e: seq<(string, Value)>, stringify: Stringify)
    requires Distinct(Firsts(e))
    ensures FromEntries(Assignments(e, stringify)).keys == Without(Firsts(e), ProtoKey)
    ensures forall i :: 0 <= i < |e| && e[i].0 != ProtoKey ==>
      FromEntries(Assignments(e, stringify)).values[e[i].0] == ToStr(e[i].1, stringify)
  {
    var a := Assignments(e, stringify);
    AssignedKeys(e, stringify);
    WithoutDistinct(Firsts(e), ProtoKey);
    FromEntriesDistinct(a);
    forall i | 0 <= i < |e| && e[i].0 != ProtoKey
      ensures FromEntries(a).values[e[i].0] == ToStr(e[i].1, stringify)
    {
      AssignmentsContain(e, i, stringify);
      var j :| 0 <= j < |a| && a[j] == (e[i].0, ToStr(e[i].1, stringify));
    }
  }

  /** `parseAttr` of a truthy value has the value's keys in the same order
      (except `__proto__`, which the assignment cannot create), each mapped
      to `toStr` of the value's entry. */
  lemma {:induction false} RecordShape(v: Value, stringify: Stringify)
    requires Truthy(v)
    ensures Record(v, stringify).keys == Without(Firsts(Entries(v)), ProtoKey)
    ensures forall i :: 0 <= i < |Entries(v)| && Entries(v)[i].0 != ProtoKey ==>
      Record(v, stringify).values[Entries(v)[i].0] == ToStr(Entries(v)[i].1, stringify)
  {
    EntriesDistinct(v);
    AssignedDistinct(Entries(v), stringify);
  }

  /** The object whose members are the given string record. */
  function StringObject(d: Dict<string>): (r: Value)
    requires Valid(d)
  {
    Obj(seq(|d.keys|, i requires 0 <= i < |d.keys| => (d.keys[i], Str(d.values[d.keys[i]]))))
  }

  lemma {:induction false} AssignmentsWithoutProto(e: seq<(string, Value)>, stringify: Stringify)
    requires forall i :: 0 <= i < |e| ==> e[i].0 != ProtoKey
    ensures |Assignments(e, stringify)| == |e|
    ensures forall i :: 0 <= i < |e| ==> Assignments(e, stringify)[i] == (e[i].0, ToStr(e[i].1, stringify))
  {
    if e != [] {
      AssignmentsWithoutProto(e[..|e| - 1], stringify);
    }
  }

  function StringValued(d: Dict<string>): (r: Dict<Value>)
    requires Valid(d)
    ensures Valid(r)
  {
    Dict(d.keys, map k | k in d.values :: Str(d.values[k]))
  }

  lemma {:induction false} StringObjectItems(d: Dict<string>)
    requires Valid(d)
    ensures StringObject(d).fields == Items(StringValued(d))
  {
  }

  lemma {:induction false} StringObjectEntries(d: Dict<string>)
    requires Valid(d)
    ensures Entries(StringObject(d)) == Items(StringValued(d))
  {
    StringObjectItems(d);
    FromEntriesItems(StringValued(d));
  }

  lemma {:induction false} AssignmentsOfStringItems(d: Dict<string>, stringify: Stringify)
    requires Valid(d) && ProtoKey !in d.values
    ensures Assignments(Items(StringValued(d)), stringify) == Items(d)
  {
    var e := Items(StringValued(d));
    AssignmentsWithoutProto(e, stringify);
  }

  /** `parseAttr` is the identity on a record whose values are already strings. */
  lemma {:induction false} RecordOfStringRecord(d: Dict<string>, stringify: Stringify)
    requires Valid(d) && ProtoKey !in d.values
    ensures Record(StringObject(d), stringify) == d
  {
    var e := Entries(StringObject(d));
    StringObjectEntries(d);
    AssignmentsOfStringItems(d, stringify);
    FromEntriesItems(d);
    assert Record(StringObject(d), stringify) == FromEntries(Assignments(e, stringify));
  }

  /** A record whose members are all named `__proto__` normalises to nothing. */
  lemma {:induction false} ProtoOnlyRecord(x: Value, stringify: Stringify)
    ensures Record(Obj([(ProtoKey, x)]), stringify) == Empty()
  {
    var e := Entries(Obj([(ProtoKey, x)]));
    assert Firsts([(ProtoKey, x)]) == [ProtoKey];
    assert Dedup([ProtoKey]) == [ProtoKey];
    assert Members([(ProtoKey, x)]).keys == [ProtoKey];
    assert e == [(ProtoKey, x)];
    assert Assignments(e, stringify) == [];
  }

  /** `thingFromJson` fails exactly on `null` and `undefined`; otherwise the id
      is `toStr(thingId)` and attributes and features are each normalised from
      their own property by the same rule. */
  lemma {:induction false} ThingFromJsonShape(obj: Value, stringify: Stringify)
    ensures ThingFromJson(obj, stringify).Ok? <==> !obj.Null? && !obj.Undefined?
    ensures ThingFromJson(obj, stringify).Ok? ==>
      && ThingFromJson(obj, stringify).value.id == ToStr(Property(obj, "thingId").value, stringify)
      && ThingFromJson(obj, stringify).value.attributes == Record(Property(obj, "attributes").value, stringify)
      && ThingFromJson(obj, stringify).value.features == Record(Property(obj, "features").value, stringify)
  {
  }

  /** A record without a `thingId` member gets the id `"undefined"`. */
  lemma {:induction false} MissingThingId(fields: seq<(string, Value)>, stringify: Stringify)
    requires forall i :: 0 <= i < |fields| ==> fields[i].0 != "thingId"
    ensures ThingFromJson(Obj(fields), stringify) == Ok(Thing("undefined",
      Record(Property(Obj(fields), "attributes").value, stringify),
      Record(Property(Obj(fields), "features").value, stringify)))
  {
    FromEntriesLookup(fields, "thingId");
  }

  /** The constants `toStr` returns for the two empty values, and a string unchanged. */
  lemma {:induction false} ToStrConstants(v: Value, stringify: Stringify)
    ensures v.Undefined? ==> ToStr(v, stringify) == "undefined"
    ensures v.Null? ==> ToStr(v, stringify) == "null"
    ensures v.Str? ==> ToStr(v, stringify) == v.s
    ensures !v.Undefined? && !v.Null? && !v.Str? ==> ToStr(v, stringify) == stringify(v)
  {
  }
}
