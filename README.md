# A verified model of the live Thing map

The system is a browser front-end that shows "Things" of an Eclipse Ditto
server on a map, plus two Python scripts that fill that server with
synthetic stations and buses. This project models the logic in both parts
and proves what it promises.

The web client's side:

- **Normaliser** (`src/types/Thing.ts`). It turns a raw JSON record into a
  Thing: an id, plus attribute and feature records whose values are all
  strings.
- **Live registry** (`src/context/data-server/DataProvider.tsx`). It covers:
  - the map from id to Thing built by a bulk fetch;
  - the de-duplicated attribute and feature key lists;
  - the push-event rule: an event with no attributes, no features and a
    non-empty id is a *tombstone* and deletes its id, while every other
    event upserts;
  - the effect that finds the first Thing carrying a location;
  - the location pattern `(\d+\.\d+),(\d+\.\d+)`.
- **Selection** (`src/context/dnd/DnDProvider.tsx`). At most one selected
  Thing, chosen by id and re-resolved against the registry after every
  change.
- **Map item** (`src/components/items/MinimalItem.tsx`). Its selected test,
  its click toggle and its three fill colours.

The data loader's side:

- **Ditto client** (`ditto_client.py`). It covers:
  - the `Authorization` header: either a precomputed token, or the Basic
    scheme of section 2 of RFC 7617 over UTF-8 and the Base64 alphabet of
    section 4 of RFC 4648;
  - the header merge;
  - the URL join;
  - the endpoint paths of the Ditto HTTP API version 2.
- **Generator** (`load_random_to_ditto.py`). It covers:
  - the station and bus templates;
  - the three branches of `_format_location`, including its `re.findall`
    and `str.replace` fallback;
  - the Thing ids and bodies;
  - the sender, which rewrites `thingId` in place to the namespaced id.

How the model is built:

- JavaScript objects, JavaScript `Map`s and Python `dict`s are one
  insertion-ordered dictionary type (`Dicts.Dict`).
- The React state cells of the registry and of the selection become the
  fields of the classes `DataProvider.Registry` and `DnD.Selection`.
- Loops in the source (`forEach`, `for … in range`, `dict.update`) become
  methods with loop invariants, proved against specification functions.
- `JSON.stringify`, `JSON.parse`, `json.dumps` and the `repr` of a float are
  parameters of the model: uninterpreted functions given by the caller.
- Random draws are choices in the range the Python library guarantees.

Three behaviours of the code are easy to miss:

- **Normalising can fail.** `thingFromJson(null)` and
  `thingFromJson(undefined)` throw when they read `thingId`
  (`Things.ThingFromJsonShape`). A bulk fetch with such an item therefore
  leaves every state cell unchanged (`DataProvider.Registry.FetchThings`).
- **Empty events delete.** Through the event handler, an entity with empty
  attributes and empty features is a tombstone and is deleted, not stored
  (`DataProvider.Registry.OnMessage`).
- **Selecting an absent id clears the selection.** `saveSelectedThing` of
  an id the registry does not hold stores `null` (`DnD.Save`).

## Model

| member | source | states |
|---|---|---|
| Things.ToStr | src/types/Thing.ts:7-14 | `toStr`, defined by cases on the value; its behaviour on every value is stated by `Things.ToStrConstants` |
| Things.ToStrConstants | src/types/Thing.ts:7-14 | for every value: `undefined` and `null` become the texts "undefined" and "null", a string is kept as it is, and any other value (a boolean, number, array or object) is the `JSON.stringify` text of it |
| Things.ParseAttr | src/types/Thing.ts:16-25 | the `forEach` loop builds exactly the record of assigning the entries in order; a falsy input gives the empty record |
| Things.EntriesDistinct | src/types/Thing.ts:23 | `Object.entries` never yields the same key twice, for objects, arrays and strings alike |
| Things.RecordShape | src/types/Thing.ts:16-25 | a truthy input's record has the input's keys in their order, without `__proto__`, and each key maps to `toStr` of its value |
| Things.ProtoOnlyRecord | src/types/Thing.ts:23 | assigning a string to `result["__proto__"]` creates no property, so a record whose only member is `__proto__` normalises to the empty record |
| Things.RecordOfStringRecord | src/types/Thing.ts:16-25 | normalising a record whose values are already strings gives back that record |
| Json.Property | src/types/Thing.ts:29-31 | reading a property fails exactly on `null` and `undefined` |
| Things.ThingFromJson | src/types/Thing.ts:27-33 | `thingFromJson`; when it fails and what it builds is stated by `Things.ThingFromJsonShape` |
| Things.ThingFromJsonShape | src/types/Thing.ts:27-33 | `thingFromJson` fails exactly on `null` and `undefined`; otherwise the id is `toStr(thingId)` and attributes and features are each normalised from their own property |
| Things.MissingThingId | src/types/Thing.ts:29 | a record without `thingId` gets the id "undefined" |
| Locations.MatchAtSound | src/context/data-server/DataProvider.tsx:6 | a match the scan finds at an index is a match of `(\d+\.\d+),(\d+\.\d+)` starting there, and its last digit run is taken whole |
| Locations.MatchAtComplete | src/context/data-server/DataProvider.tsx:6 | every match of the pattern at an index is found there, with the same comma and an end no earlier |
| Locations.MatchAtIff | src/context/data-server/DataProvider.tsx:6 | the scan at an index succeeds if and only if the pattern matches there |
| Locations.FirstMatch | src/context/data-server/DataProvider.tsx:30 | the search returns the first start index where the pattern matches; no earlier index matches |
| Locations.HasValidLocation | src/context/data-server/DataProvider.tsx:26-32 | `hasValidLocation`; its meaning is stated by `Locations.HasValidLocationIff` |
| Locations.GetThingLocation | src/context/data-server/DataProvider.tsx:34-55 | `getThingLocation`; its errors and its result are stated by `Locations.GetThingLocationSucceedsIff` and `Locations.GetThingLocationLeftmost` |
| Locations.HasValidLocationIff | src/context/data-server/DataProvider.tsx:26-32 | `hasValidLocation` holds if and only if the location is present and contains a match of the pattern |
| Locations.GetThingLocationSucceedsIff | src/context/data-server/DataProvider.tsx:34-55 | `getThingLocation` throws exactly when `hasValidLocation` rejects the same location |
| Locations.GetThingLocationLeftmost | src/context/data-server/DataProvider.tsx:34-55 | latitude and longitude are the two groups of the leftmost match, whose last digit run is maximal; later matches play no part |
| Locations.SignIgnored | src/context/data-server/DataProvider.tsx:6 | the pattern has no sign, so "-44.1,12.2" resolves to latitude "44.1" |
| Locations.FirstMatchWins | src/context/data-server/DataProvider.tsx:49-54 | with free text and two coordinate pairs, the first pair is reported |
| DataProvider.FindLocated | src/context/data-server/DataProvider.tsx:18-20 | `Array.find` returns the first index whose Thing has a valid location, and no earlier Thing does |
| DataProvider.NextLocation | src/context/data-server/DataProvider.tsx:17-24 | the value the `firstThingLocation` effect stores; stated by `DataProvider.NextLocationFirst` and `DataProvider.NextLocationKeeps` |
| DataProvider.NextLocationFirst | src/context/data-server/DataProvider.tsx:17-24 | when some Thing has a valid location, the effect reports the coordinates of the first such Thing in map order; no earlier Thing has one |
| DataProvider.NextLocationKeeps | src/context/data-server/DataProvider.tsx:17-24 | when no Thing has a valid location, the previous location is kept |
| DataProvider.Registry.constructor | src/context/data-server/DataProvider.tsx:9-15 | the initial state: an empty map, empty key lists and no location |
| DataProvider.Registry.RefreshFirstLocation | src/context/data-server/DataProvider.tsx:17-24 | the effect sets the location cell as above and changes no other cell |
| DataProvider.Registry.FetchThings | src/context/data-server/DataProvider.tsx:57-83 | a rejected fetch, or a fetch with a `null` or `undefined` item, changes nothing. Otherwise the map is the `result.set` sequence over the normalised items, both key lists are recomputed from it, the location effect runs, and every Thing stays stored under its own id |
| DataProvider.Collect | src/context/data-server/DataProvider.tsx:60-63 | the `forEach` loop succeeds if and only if every item is neither `null` nor `undefined`, and then builds the map of the normalised items by id |
| DataProvider.FetchFailsIff | src/context/data-server/DataProvider.tsx:60-63 | a bulk fetch fails if and only if some item cannot be normalised |
| DataProvider.FetchedIds | src/context/data-server/DataProvider.tsx:58-63 | the fetched map holds exactly the ids of the fetched Things |
| DataProvider.FetchedLast | src/context/data-server/DataProvider.tsx:58-63 | each id maps to the last fetched Thing carrying it |
| DataProvider.UniqueKeysUnion | src/context/data-server/DataProvider.tsx:66-81 | each key list has no repetition, and holds a key if and only if some stored Thing has it |
| DataProvider.UniqueKeysFirstSeen | src/context/data-server/DataProvider.tsx:66-81 | the key lists keep first-seen order over the flattened key sequence |
| DataProvider.Registry.OnMessage | src/context/data-server/DataProvider.tsx:88-111 | empty data, unparseable data or an unreadable value change nothing. Otherwise a tombstone deletes its id and any other Thing is upserted, the location effect runs, and the key lists are not touched |
| DataProvider.EventThing | src/context/data-server/DataProvider.tsx:91-107 | the Thing an event carries, if any; how the handler uses it is stated by `DataProvider.Registry.OnMessage` |
| DataProvider.Applied | src/context/data-server/DataProvider.tsx:91-107 | the event's new map is well formed and keeps every Thing under its own id |
| DataProvider.UpsertSupersedes | src/context/data-server/DataProvider.tsx:102-106 | an upsert stores the event's Thing under its id and leaves every other id as it was |
| DataProvider.TombstoneRemoves | src/context/data-server/DataProvider.tsx:91-100 | a tombstone removes its id and leaves every other id as it was; for an absent id the map is unchanged |
| DnD.Selection.constructor | src/context/dnd/DnDProvider.tsx:7 | nothing is selected initially |
| DnD.Save | src/context/dnd/DnDProvider.tsx:11-13 | a Thing is selected if and only if the id is present, non-empty and stored, and it is the stored Thing |
| DnD.Selection.SaveSelectedThing | src/context/dnd/DnDProvider.tsx:11-13 | the selection becomes the result of `Save` |
| DnD.Resolve | src/context/dnd/DnDProvider.tsx:15-23 | after the effect a Thing is selected if and only if the previous selection's id is still stored, and it is the stored Thing |
| DnD.Selection.Reresolve | src/context/dnd/DnDProvider.tsx:15-23 | the selection becomes the result of `Resolve` on the previous selection |
| DnD.SaveConsistent | src/context/dnd/DnDProvider.tsx:11-13 | a saved selection is the registry's entry for its own id |
| DnD.ResolveConsistent | src/context/dnd/DnDProvider.tsx:15-23 | after a re-resolve the selection is the registry's current entry for the same id, so no stale copy is kept |
| DnD.ResolveIdempotent | src/context/dnd/DnDProvider.tsx:15-23 | re-resolving twice is re-resolving once, so the effect settles after its own update |
| DnD.ResolveKeepsConsistent | src/context/dnd/DnDProvider.tsx:17-20 | a selection that agrees with the registry is left unchanged |
| DnD.EventReresolved | src/context/dnd/DnDProvider.tsx:15-23 | after an event for the selected id, a tombstone clears the selection and an upsert selects the new Thing |
| MinimalItem.ClickArgument | src/components/items/MinimalItem.tsx:12-18 | the click passes `null` if and only if the item is the selected one, and otherwise passes its id |
| MinimalItem.HandleClick | src/components/items/MinimalItem.tsx:12-18 | the shared selection becomes the selection that clicking gives |
| MinimalItem.ClickSelectedClears | src/components/items/MinimalItem.tsx:13-14 | clicking the selected item clears the selection |
| MinimalItem.ClickOtherSelects | src/components/items/MinimalItem.tsx:15-16 | clicking any other item selects the registry's entry for its id, or clears the selection when the id is empty or absent |
| MinimalItem.ClickTwice | src/components/items/MinimalItem.tsx:12-18 | two clicks on a stored, unselected item show it as selected and then return to no selection |
| MinimalItem.FillsSwap | src/components/items/MinimalItem.tsx:40-50 | the outer circle is light exactly when selected, and the ring and inner circle are teal exactly when selected; outer and ring always differ |
| DittoClient.AuthHeader | ditto_client.py:57-67 | authentication fails if and only if the token is absent or empty and the user or the password is missing |
| DittoClient.TokenWins | ditto_client.py:58-59 | a non-empty token is used as it is, whatever the user and password |
| DittoClient.EmptyTokenFallsThrough | ditto_client.py:58-64 | an empty token acts exactly like no token |
| DittoClient.BasicTokenDecodes | ditto_client.py:60-64 | the Basic token is ASCII and decodes, as Base64 and then as UTF-8, back to `user:password` |
| DittoClient.ColonInUserName | ditto_client.py:61-63 | a colon in the user name is not rejected, so two credential pairs can share one header |
| Utf8.EncodeChar | ditto_client.py:62 | a character takes one to four bytes, and one byte exactly when it is ASCII |
| Utf8.DecodeEncode | ditto_client.py:62 | decoding the UTF-8 encoding of a string gives the string back |
| Utf8.EncodeAppend | ditto_client.py:62 | encoding a concatenation is concatenating the encodings |
| Base64.Symbol | ditto_client.py:61-63 | every symbol is ASCII and never the pad character |
| Base64.Encode | ditto_client.py:61-63 | the encoding is ASCII, four characters for every started group of three bytes |
| Base64.DecodeEncode | ditto_client.py:61-63 | decoding an encoding gives the bytes back |
| Base64.VectorF | ditto_client.py:61-63 | "f" encodes to "Zg==" (section 10 of RFC 4648) |
| Base64.VectorFo | ditto_client.py:61-63 | "fo" encodes to "Zm8=" |
| Base64.VectorFoobar | ditto_client.py:61-63 | "foobar" encodes to "Zm9vYmFy" |
| DittoClient.BaseHeadersLookup | ditto_client.py:70-74 | the base headers send JSON as `Accept` and `Content-Type` and carry the authorization |
| DittoClient.Update | ditto_client.py:75-76 | `dict.update`, one key of `extra` after another, gives the dictionary built from the base entries followed by the extra ones |
| DittoClient.Headers | ditto_client.py:69-77 | the headers fail exactly when authentication fails; otherwise they are the base headers merged with a non-empty `extra` |
| DittoClient.MergedLookup | ditto_client.py:69-77 | a key of `extra` takes its value from `extra`, and every other key keeps its base value |
| DittoClient.PatchHeaders | ditto_client.py:103 | a JSON Patch request replaces `Content-Type` and keeps the other headers |
| DittoClient.RStripSlash | ditto_client.py:80 | the result is the longest prefix not ending in a slash, and only slashes are removed |
| DittoClient.RStripIdempotent | ditto_client.py:80 | stripping twice is stripping once |
| DittoClient.UrlIgnoresTrailingSlashes | ditto_client.py:79-80 | any number of trailing slashes on the base URL gives the same URL |
| DittoClient.Url | ditto_client.py:79-80 | `_url`; stated by `DittoClient.UrlIgnoresTrailingSlashes` and `DittoClient.EndpointShapes` |
| DittoClient.EndpointShapes | ditto_client.py:88-107 | a Thing's URL is the stripped base plus `/api/2/things/` and the id; the features URL extends it with `/features` |
| DittoClient.PutThing | ditto_client.py:83-92 | a PUT to the Thing URL with the default headers and the `json.dumps` body, or the authentication error |
| DittoClient.GetThing | ditto_client.py:94-96 | a GET to the Thing URL with the default headers and no body |
| DittoClient.PatchThing | ditto_client.py:98-104 | a PATCH with the JSON Patch content type, failing exactly when authentication fails |
| DittoClient.UpdateFeatures | ditto_client.py:106-113 | a PUT to the features URL with the default headers |
| DittoClient.DeleteThing | ditto_client.py:115-117 | a DELETE to the Thing URL with the default headers |
| LoadRandom.Uniform | load_random_to_ditto.py:28-29 | `random.uniform` returns a number in the closed range |
| LoadRandom.RandInt | load_random_to_ditto.py:93-100 | `random.randint` returns an integer in the closed range |
| LoadRandom.LineNumber | load_random_to_ditto.py:27 | line numbers stay between 1 and 10 |
| LoadRandom.LinesCycle | load_random_to_ditto.py:27 | lines repeat with period ten |
| LoadRandom.GenerateBusses | load_random_to_ditto.py:19-31 | `count` buses (none for a negative count) with ids 1..count, their lines, and locations within 0.03 of the base point |
| LoadRandom.GenerateStations | load_random_to_ditto.py:43-57 | `count` stations with codes from `S0001`, names `Station i`, and locations within 0.02 of the base point |
| Decimal.ParseNatToString | load_random_to_ditto.py:53 | an integer's decimal text reads back as the integer |
| Decimal.ZeroPaddedSound | load_random_to_ditto.py:52 | `{i:04d}` is all digits, reads back as `i`, and is at least four long |
| LoadRandom.StationCodes | load_random_to_ditto.py:52-63 | a station code is `S` followed by digits that read back as the station number, so different stations have different ids |
| LoadRandom.IntTextInjective | load_random_to_ditto.py:109 | different integers format to different texts |
| LoadRandom.BusThingIdsDistinct | load_random_to_ditto.py:109 | different buses get different Thing ids |
| LoadRandom.FormatLocation | load_random_to_ditto.py:65-78 | a list of at least two numbers gives `lat,lon`, each jittered within the bound; a string gives its two first numbers or the fallback; anything else gives `None` |
| LocationText.SignedAtSound | load_random_to_ditto.py:73 | a match of `-?\d+\.\d+` found at an index is an optional minus, digits, a dot and digits |
| LocationText.FindAll | load_random_to_ditto.py:73 | every element `re.findall` returns is a whole match of the number pattern |
| LocationText.SignedAtComplete | load_random_to_ditto.py:73 | every whole match of `-?\d+\.\d+` at an index is found there, and the match found is no shorter |
| LocationText.FindAllNonEmpty | load_random_to_ditto.py:73 | `re.findall` returns something if and only if a match starts somewhere in the text |
| LocationText.FindAllLeftmost | load_random_to_ditto.py:73 | a non-empty result starts with the match at the least index where one starts, and the rest is the scan resumed where that match ends, so matches do not overlap |
| LocationText.FormatText | load_random_to_ditto.py:71-77 | the string branch of `_format_location`; stated by `LocationText.FormatTextFirstTwo` and `LocationText.FormatTextClean` |
| LocationText.FormatTextFirstTwo | load_random_to_ditto.py:73-75 | with two or more numbers, the result is the leftmost match, a comma, and the leftmost match starting after the first one ends |
| LocationText.SanitizeKeeps | load_random_to_ditto.py:77 | the five chained replacements drop exactly the spaces and brackets and keep every other character in order |
| LocationText.SanitizeIdempotent | load_random_to_ditto.py:77 | the fallback leaves no space or bracket behind, and applying it twice is applying it once |
| LocationText.FormatTextClean | load_random_to_ditto.py:71-77 | either branch yields a text without spaces or brackets, which the fallback leaves unchanged |
| LocationText.JoinedAccepted | load_random_to_ditto.py:74-75 | two matched numbers joined by a comma, the second unsigned, contain a match of the web client's pattern just after any leading minus |
| LocationText.JoinedTextAccepted | load_random_to_ditto.py:74-75 | when the second number is unsigned, the joined text is a location the web client's pattern accepts |
| LoadRandom.RandomizeStation | load_random_to_ditto.py:60-105 | the station's id is its code; the body is the literal with the formatted location and counters in 0..10 and 0..20 |
| LoadRandom.RandomizeBus | load_random_to_ditto.py:108-142 | the bus's id is `bus-` and its number; the body is the literal with a count in 0..100 |
| LoadRandom.BodiesCarryThingId | load_random_to_ditto.py:83-84 | both bodies carry their Thing id under `thingId` |
| LoadRandom.Send | load_random_to_ditto.py:167-184 | `thingId` is overwritten in place with `namespace:id`; a dry run sends nothing; otherwise the body is PUT to that id |
| LoadRandom.SendRewritesId | load_random_to_ditto.py:169-170 | the rewrite stores the full id, keeps the key order and leaves every other entry as it was |
| LoadRandom.FullIdSplits | load_random_to_ditto.py:169 | for a namespace without a colon, the full id splits back into namespace and id at its first colon |

## Left out

- The network: `DittoApi.getThings()`, the event source, and the `requests` session are outside the model. Their results are parameters: the fetch response, the event text, and the `Request` value handed to the session. `src/api/DittoApi.ts` is not part of this model.
- The `error` state cell of the registry and the `nodesUpdated` cell of the selection provider are left out, because no value the model exposes depends on them.
- The order of React effects and renders is modelled one step at a time: every state update is applied and its effect runs right after. Batching, and a push event racing a bulk fetch, are not modelled.
- `Number(...)` on the captured coordinates is left out, because it needs floating point. Coordinates are kept as the digit strings the groups capture.
- `JSON.stringify`, `JSON.parse`, `json.dumps` and the text `f"{x}"` of a float are uninterpreted function parameters, not implementations.
- JavaScript enumerates integer-like keys of an object in ascending numeric order before the other keys. The dictionary model uses insertion order for every key.
- JavaScript strings are UTF-16. `Object.entries` of a string is modelled one character at a time, not one code unit at a time.
- Python's `\d` matches every Unicode decimal digit. The model matches ASCII digits only, in both patterns.
- Python strings may hold lone surrogates, which `encode("utf-8")` rejects. The model's characters are Unicode scalar values, so that error path is absent.
- Python `int` and `float` values both become the one JSON number of the model. `json.dumps` prints them differently, and that difference is inside the uninterpreted `dumps`.
- `DittoConfig.from_env`, `.env` loading and the timeout are left out: they read the environment and only configure `requests`.
- The response handling and printing of `send`, the `Repeater` threads, `main`, the argument parser and the confirmation prompt are left out. They are I/O and scheduling.
- In `randomize_bus`, the `getattr(b, "model", "bus")` fallback is left out, because a `Bus` always has a `line`. `getattr(s, "location", None)` reads the field directly.
- List locations hold numbers only. `float` of a list element that is a numeric string or a bool (which converts) or anything else (which raises) is not modelled.
- `random.choice` in the workers is left out, because the workers are not modelled.
- LoadRandom.Uniform: any value in the closed range may be drawn. The distribution is not modelled.
- DataProvider.Registry.FetchThings: the response is either the array of items or a rejection (`None`). A resolved body that is not an array, on which `data.forEach` throws and nothing changes, is folded into the rejection case.
