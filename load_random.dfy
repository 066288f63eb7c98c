/** The synthetic data generator of load_random_to_ditto.py: station and bus
    templates, the Thing ids and bodies made from them, and the sender that
    namespaces the id before the body is sent. Random draws are choices in
    the ranges `random.uniform` and `random.randint` guarantee. */
module LoadRandom {
  import opened Wrappers
  import opened Dicts
  import opened Json
  import opened Decimal
  import LocationText
  import DittoClient

  /** `random.uniform(lo, hi)`: some number in the closed range. */
  method Uniform(lo: real, hi: real) returns (x: real)
    requires lo <= hi
    ensures lo <= x <= hi
  {
    assert InRange(lo, lo, hi);
    x :| InRange(x, lo, hi);
    assert InRange(x, lo, hi);
  }

  predicate InRange(x: real, lo: real, hi: real) {
    lo <= x <= hi
  }

  /** `random.randint(lo, hi)`: some integer in the closed range. */
  method RandInt(lo: int, hi: int) returns (n: int)
    requires lo <= hi
    ensures lo <= n <= hi
  {
    n :| lo <= n <= hi;
  }

  /** What a template's `location` holds: a list (or tuple) of floats, a
      string, or anything else (including `None`). */
  datatype Location = Coordinates(items: seq<real>) | Text(s: string) | Other

  datatype Bus = Bus(id: int, line: string, location: Location)
  datatype Station = Station(code: string, name: string, location: Location)

  const BaseLat: real := 44.0600
  const BaseLon: real := 12.5667

  /** A two-element location within `r` of the base point in each coordinate. */
  predicate InBox(loc: Location, r: real) {
    && loc.Coordinates? && |loc.items| == 2
    && BaseLat - r <= loc.items[0] <= BaseLat + r
    && BaseLon - r <= loc.items[1] <= BaseLon + r
  }

  /** `f"{n}"` for an `int`. */
  function IntText(n: int): (r: string)
  {
    if n < 0 then "-" + NatToString(-n) else NatToString(n)
  }

  /** The line number of bus `i`: `((i - 1) % 10) + 1` (the divisor is
      positive, so the floor and Euclidean remainders agree). */
  function LineNumber(i: int): (k: int)
    ensures 1 <= k <= 10
  {
    (i - 1) % 10 + 1
  }

  function BusLine(i: int): (r: string)
  {
    "Line " + IntText(LineNumber(i))
  }

  /** `f"S{i:04d}"` */
  function StationCode(i: nat): (r: string)
  {
    "S" + ZeroPadded(i, 4)
  }

  function StationName(i: int): (r: string)
  {
    "Station " + IntText(i)
  }

  /** `generate_busses`: ids 1..count, cycling lines, locations within 0.03 of the base. */
  method GenerateBusses(count: int) returns (buses: seq<Bus>)
    ensures |buses| == if count < 0 then 0 else count
    ensures forall k :: 0 <= k < |buses| ==>
      buses[k].id == k + 1 && buses[k].line == BusLine(k + 1) && InBox(buses[k].location, 0.03)
  {
    buses := [];
    var i := 1;
    while i < count + 1
      invariant 1 <= i && (count >= 0 ==> i <= count + 1) && (count < 0 ==> i == 1)
      invariant |buses| == i - 1
      invariant forall k :: 0 <= k < |buses| ==>
        buses[k].id == k + 1 && buses[k].line == BusLine(k + 1) && InBox(buses[k].location, 0.03)
    {
      var line := BusLine(i);
      var dlat := Uniform(-0.03, 0.03);
      var dlon := Uniform(-0.03, 0.03);
      buses := buses + [Bus(i, line, Coordinates([BaseLat + dlat, BaseLon + dlon]))];
      i := i + 1;
    }
  }

  /** `generate_stations`: codes `S0001`.., names `Station 1`.., locations within 0.02 of the base. */
  method GenerateStations(count: int) returns (stations: seq<Station>)
    ensures |stations| == if count < 0 then 0 else count
    ensures forall k :: 0 <= k < |stations| ==>
      && stations[k].code == StationCode(k + 1) && stations[k].name == StationName(k + 1)
      && InBox(stations[k].location, 0.02)
  {
    stations := [];
    var i := 1;
    while i < count + 1
      invariant 1 <= i && (count >= 0 ==> i <= count + 1) && (count < 0 ==> i == 1)
      invariant |stations| == i - 1
      invariant forall k :: 0 <= k < |stations| ==>
        && stations[k].code == StationCode(k + 1) && stations[k].name == StationName(k + 1)
        && InBox(stations[k].location, 0.02)
    {
      var code := StationCode(i);
      var name := StationName(i);
      var dlat := Uniform(-0.02, 0.02);
      var dlon := Uniform(-0.02, 0.02);
      stations := stations + [Station(code, name, Coordinates([BaseLat + dlat, BaseLon + dlon]))];
      i := i + 1;
    }
  }

  /** `_format_location`, with `jitter` the bound of its `random.uniform`
      calls (0.0005 for stations, 0.001 for buses) and `repr` the text
      `f"{x}"` gives for a float. */
  method FormatLocation(loc: Location, jitter: real, repr: real -> string)
    returns (r: Option<string>, ghost dlat: real, ghost dlon: real)
    requires 0.0 <= jitter
    ensures loc.Coordinates? && |loc.items| >= 2 ==>
      && -jitter <= dlat <= jitter && -jitter <= dlon <= jitter
      && r == Some(repr(loc.items[0] + dlat) + "," + repr(loc.items[1] + dlon))
    ensures loc.Text? ==> r == Some(LocationText.FormatText(loc.s))
    ensures !(loc.Coordinates? && |loc.items| >= 2) && !loc.Text? ==> r == None
  {
    dlat, dlon := 0.0, 0.0;
    if loc.Coordinates? && |loc.items| >= 2 {
      var lat, lon := loc.items[0], loc.items[1];
      var d1 := Uniform(-jitter, jitter);
      var d2 := Uniform(-jitter, jitter);
      dlat, dlon := d1, d2;
      lat := lat + d1;
      lon := lon + d2;
      return Some(repr(lat) + "," + repr(lon)), dlat, dlon;
    }
    if loc.Text? {
      return Some(LocationText.FormatText(loc.s)), dlat, dlon;
    }
    return None, dlat, dlon;
  }

  /** `json.dumps` turns `None` into `null`. */
  function LocationValue(location: Option<string>): (v: Value)
  {
    match location
    case None => Null
    case Some(s) => Str(s)
  }

  /** A dictionary literal, with its keys in the order written. */
  function Literal(entries: seq<(string, Value)>): (r: Dict<Value>)
    ensures Dicts.Valid(r)
  {
    FromEntries(entries)
  }

  function Count(n: int): Value { Num(n as real) }

  /** The body `randomize_station` builds. */
  function StationBody(s: Station, location: Option<string>, rimini: int, riccione: int,
                       arrRimini: int, arrRiccione: int): (r: Dict<Value>)
    ensures Dicts.Valid(r)
  {
    Literal([
      ("thingId", Str(s.code)),
      ("attributes", Obj([("code", Str(s.code)), ("model", Str(s.name)), ("location", LocationValue(location))])),
      ("features", Obj([
        ("actual", Obj([("properties", Obj([("Direction Rimini", Count(rimini)), ("Direction Riccione", Count(riccione))]))])),
        ("arrivals", Obj([("properties", Obj([("Direction Rimini", Count(arrRimini)), ("Direction Riccione", Count(arrRiccione))]))]))]))])
  }

  /** The body `randomize_bus` builds. */
  function BusBody(b: Bus, location: Option<string>, count: int): (r: Dict<Value>)
    ensures Dicts.Valid(r)
  {
    Literal([
      ("thingId", Str(BusThingId(b.id))),
      ("attributes", Obj([("id", Count(b.id)), ("model", Str(b.line)), ("location", LocationValue(location))])),
      ("features", Obj([("status", Obj([("properties", Obj([("count", Count(count))]))]))]))])
  }

  function BusThingId(id: int): (r: string)
  {
    "bus-" + IntText(id)
  }

  /** A Python dictionary the sender changes in place. */
  class Body {
    var fields: Dict<Value>

    constructor(fields: Dict<Value>)
      ensures this.fields == fields
    {
      this.fields := fields;
    }
  }

  /** `randomize_station`: the id is the station code; the counters are
      drawn in 0..10 (actual) and 0..20 (arrivals). */
  method RandomizeStation(s: Station, repr: real -> string)
    returns (thingId: string, body: Body, ghost location: Option<string>,
             ghost rimini: int, ghost riccione: int, ghost arrRimini: int, ghost arrRiccione: int)
    ensures thingId == s.code
    ensures fresh(body) && body.fields == StationBody(s, location, rimini, riccione, arrRimini, arrRiccione)
    ensures 0 <= rimini <= 10 && 0 <= riccione <= 10 && 0 <= arrRimini <= 20 && 0 <= arrRiccione <= 20
    ensures s.location.Text? ==> location == Some(LocationText.FormatText(s.location.s))
    ensures (s.location.Coordinates? && |s.location.items| >= 2) <==> location.Some? && !s.location.Text?
  {
    thingId := s.code;
    var loc;
    ghost var d1, d2;
    loc, d1, d2 := FormatLocation(s.location, 0.0005, repr);
    location := loc;
    var a := RandInt(0, 10);
    var b := RandInt(0, 10);
    var c := RandInt(0, 20);
    var d := RandInt(0, 20);
    rimini, riccione, arrRimini, arrRiccione := a, b, c, d;
    body := new Body(StationBody(s, loc, a, b, c, d));
  }

  /** `randomize_bus`: the id is `bus-` and the bus number; the count is drawn in 0..100. */
  method RandomizeBus(b: Bus, repr: real -> string)
    returns (thingId: string, body: Body, ghost location: Option<string>, ghost count: int)
    ensures thingId == BusThingId(b.id)
    ensures fresh(body) && body.fields == BusBody(b, location, count)
    ensures 0 <= count <= 100
    ensures b.location.Text? ==> location == Some(LocationText.FormatText(b.location.s))
    ensures (b.location.Coordinates? && |b.location.items| >= 2) <==> location.Some? && !b.location.Text?
  {
    thingId := BusThingId(b.id);
    var loc;
    ghost var d1, d2;
    loc, d1, d2 := FormatLocation(b.location, 0.001, repr);
    location := loc;
    var n := RandInt(0, 100);
    count := n;
    body := new Body(BusBody(b, loc, n));
  }

  /** The id a Thing is sent under. */
  function FullId(namespace: string, thingId: string): (r: string)
  {
    namespace + ":" + thingId
  }

  /** `send`: the body's `thingId` is overwritten in place with the namespaced
      id; a dry run sends nothing, otherwise the body goes out with `put_thing`. */
  method Send(client: DittoClient.Config, namespace: string, dryRun: bool, thingId: string,
              body: Body, dumps: Stringify)
    returns (r: Option<Result<DittoClient.Request, DittoClient.AuthError>>)
    requires Dicts.Valid(body.fields)
    modifies body
    ensures body.fields == Set(old(body.fields), "thingId", Str(FullId(namespace, thingId)))
    ensures dryRun ==> r == None
    ensures !dryRun ==> r == Some(DittoClient.Prepared(DittoClient.Put,
      DittoClient.Url(client.baseUrl, DittoClient.ThingPath(FullId(namespace, thingId))),
      DittoClient.DefaultHeaders(client), Some(dumps(Obj(Items(body.fields))))))
  {
    var fullId := namespace + ":" + thingId;
    body.fields := Set(body.fields, "thingId", Str(fullId));
    if dryRun {
      return None;
    }
    var resp := DittoClient.PutThing(client, fullId, Obj(Items(body.fields)), dumps);
    return Some(resp);
  }

  // ---------------------------------------------------------------------
  // Properties of the generator
  // ---------------------------------------------------------------------

  /** Different numbers give different texts. */
  lemma {:induction false} IntTextInjective(m: int, n: int)
    requires IntText(m) == IntText(n)
    ensures m == n
  {
    if m < 0 && n < 0 {
      assert NatToString(-m) == IntText(m)[1..];
      NatToStringInjective(-m, -n);
    } else if m >= 0 && n >= 0 {
      NatToStringInjective(m, n);
    }
  }

  /** Station codes are `S` and at least four digits that read back as the
      station's number, so different stations have different codes. */
  lemma {:induction false} StationCodes(i: nat, j: nat)
    ensures |StationCode(i)| >= 5 && StationCode(i)[0] == 'S'
    ensures ParseDigits(StationCode(i)[1..]) == i
    ensures i != j ==> StationCode(i) != StationCode(j)
  {
    ZeroPaddedSound(i, 4);
    ZeroPaddedSound(j, 4);
    assert StationCode(i)[1..] == ZeroPadded(i, 4);
    assert StationCode(j)[1..] == ZeroPadded(j, 4);
  }

  /** Lines cycle with period ten. */
  lemma {:induction false} LinesCycle(i: int)
    ensures BusLine(i + 10) == BusLine(i)
  {
    assert LineNumber(i + 10) == LineNumber(i);
  }

  /** Different buses get different Thing ids. */
  lemma {:induction false} BusThingIdsDistinct(m: int, n: int)
    requires m != n
    ensures BusThingId(m) != BusThingId(n)
  {
    if BusThingId(m) == BusThingId(n) {
      assert BusThingId(m)[4..] == IntText(m);
      assert BusThingId(n)[4..] == IntText(n);
      IntTextInjective(m, n);
    }
  }

  /** The bodies carry the id the template gives, under the key the sender rewrites. */
  lemma {:induction false} BodiesCarryThingId(s: Station, b: Bus, location: Option<string>, w: int, x: int, y: int, z: int, n: int)
    ensures Get(StationBody(s, location, w, x, y, z), "thingId") == Some(Str(s.code))
    ensures Get(BusBody(b, location, n), "thingId") == Some(Str(BusThingId(b.id)))
  {
    var e := [
      ("thingId", Str(s.code)),
      ("attributes", Obj([("code", Str(s.code)), ("model", Str(s.name)), ("location", LocationValue(location))])),
      ("features", Obj([
        ("actual", Obj([("properties", Obj([("Direction Rimini", Count(w)), ("Direction Riccione", Count(x))]))])),
        ("arrivals", Obj([("properties", Obj([("Direction Rimini", Count(y)), ("Direction Riccione", Count(z))]))]))]))];
    assert Firsts(e) == ["thingId", "attributes", "features"];
    FromEntriesGet(e, 0);
    var f := [
      ("thingId", Str(BusThingId(b.id))),
      ("attributes", Obj([("id", Count(b.id)), ("model", Str(b.line)), ("location", LocationValue(location))])),
      ("features", Obj([("status", Obj([("properties", Obj([("count", Count(n))]))]))]))];
    assert Firsts(f) == ["thingId", "attributes", "features"];
    FromEntriesGet(f, 0);
  }

  /** Sending rewrites only `thingId`: it holds the namespaced id, the keys
      keep their order, and every other entry is as it was. */
  lemma {:induction false} SendRewritesId(d: Dict<Value>, namespace: string, thingId: string)
    requires Dicts.Valid(d) && "thingId" in d.values
    ensures Get(Set(d, "thingId", Str(FullId(namespace, thingId))), "thingId") == Some(Str(FullId(namespace, thingId)))
    ensures Set(d, "thingId", Str(FullId(namespace, thingId))).keys == d.keys
    ensures forall k :: k != "thingId" ==> Get(Set(d, "thingId", Str(FullId(namespace, thingId))), k) == Get(d, k)
  {
  }

  /** A namespace without a colon can be read back from the full id: its
      first colon ends the namespace. */
  lemma {:induction false} FullIdSplits(namespace: string, thingId: string)
    requires ':' !in namespace
    ensures FullId(namespace, thingId)[|namespace|] == ':'
    ensures ':' !in FullId(namespace, thingId)[..|namespace|]
    ensures FullId(namespace, thingId)[..|namespace|] == namespace
    ensures FullId(namespace, thingId)[|namespace| + 1..] == thingId
  {
    assert FullId(namespace, thingId)[..|namespace|] == namespace;
  }
}
