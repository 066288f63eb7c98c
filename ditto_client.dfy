/** The request-building logic of ditto_client.py, a minimal client for the
    Eclipse Ditto HTTP API version 2: the Authorization header, the header
    merge, the URL join and the endpoint paths. What the client hands to
    `requests` is modelled as a `Request` value; sending it is not. */
module DittoClient {
  import opened Wrappers
  import opened Dicts
  import opened Json
  import Utf8
  import Base64

  /** `DittoConfig` without the timeout, which is only passed on to `requests`. */
  datatype Config = Config(
    baseUrl: string,
    authBasic: Option<string>,
    username: Option<string>,
    password: Option<string>)

  /** The `ValueError` raised when no credentials are configured. */
  datatype AuthError = MissingAuthentication

  /** The token of the Basic scheme for a user and password: the Base64 form
      of the UTF-8 bytes of `user:password` (section 2 of RFC 7617). */
  function BasicToken(user: string, password: string): (r: string)
  {
    Base64.Encode(Utf8.Encode(user + ":" + password))
  }

  /** `_auth_header`: a non-empty precomputed token wins; otherwise a user and
      a password, both present (empty strings allowed); otherwise an error. */
  function AuthHeader(c: Config): (r: Result<string, AuthError>)
    ensures r.Err? <==> (c.authBasic.None? || c.authBasic.value == "") && (c.username.None? || c.password.None?)
  {
    if c.authBasic.Some? && c.authBasic.value != "" then Ok("Basic " + c.authBasic.value)
    else if c.username.Some? && c.password.Some? then Ok("Basic " + BasicToken(c.username.value, c.password.value))
    else Err(MissingAuthentication)
  }

  const JsonType: string := "application/json"
  const JsonPatch: string := "application/json-patch+json"

  /** The literal dictionary `_headers` starts from. */
  function BaseHeaders(auth: string): (r: Dict<string>)
    ensures Dicts.Valid(r)
  {
    Dict(["Accept", "Content-Type", "Authorization"],
      map["Accept" := JsonType, "Content-Type" := JsonType, "Authorization" := auth])
  }

  /** The headers after `base.update(extra)`; an absent or empty `extra` is skipped. */
  function Merged(auth: string, extra: Option<Dict<string>>): (r: Dict<string>)
    requires extra.Some? ==> Dicts.Valid(extra.value)
  {
    if extra.Some? && extra.value.keys != [] then FromEntries(Items(BaseHeaders(auth)) + Items(extra.value))
    else BaseHeaders(auth)
  }

  /** `dict.update`: the entries of `extra` assigned to `base` one after another. */
  method Update(base: Dict<string>, extra: Dict<string>) returns (r: Dict<string>)
    requires Dicts.Valid(base) && Dicts.Valid(extra)
    ensures r == FromEntries(Items(base) + Items(extra))
  {
    r := base;
    UpdatedNone(base, extra);
    var i := 0;
    while i < |extra.keys|
      invariant 0 <= i <= |extra.keys|
      invariant r == Updated(base, extra, i)
    {
      UpdatedStep(base, extra, i);
      r := Set(r, extra.keys[i], extra.values[extra.keys[i]]);
      i := i + 1;
    }
    UpdatedAll(base, extra);
  }

  /** The dictionary after the first `i` entries of `extra` are assigned. */
  function Updated(base: Dict<string>, extra: Dict<string>, i: nat): (r: Dict<string>)
    requires Dicts.Valid(base) && Dicts.Valid(extra) && i <= |extra.keys|
  {
    FromEntries(Items(base) + Items(extra)[..i])
  }

  lemma {:induction false} UpdatedNone(base: Dict<string>, extra: Dict<string>)
    requires Dicts.Valid(base) && Dicts.Valid(extra)
    ensures Updated(base, extra, 0) == base
  {
    assert Items(base) + Items(extra)[..0] == Items(base);
    FromEntriesItems(base);
  }

  lemma {:induction false} UpdatedStep(base: Dict<string>, extra: Dict<string>, i: nat)
    requires Dicts.Valid(base) && Dicts.Valid(extra) && i < |extra.keys|
    ensures Updated(base, extra, i + 1) == Set(Updated(base, extra, i), extra.keys[i], extra.values[extra.keys[i]])
  {
    FromEntriesConcatStep(Items(base), Items(extra), i);
  }

  lemma {:induction false} UpdatedAll(base: Dict<string>, extra: Dict<string>)
    requires Dicts.Valid(base) && Dicts.Valid(extra)
    ensures Updated(base, extra, |extra.keys|) == FromEntries(Items(base) + Items(extra))
  {
    assert Items(extra)[..|extra.keys|] == Items(extra);
  }

  /** `_headers`: the base dictionary, updated in place with `extra` when it is non-empty. */
  method Headers(c: Config, extra: Option<Dict<string>>) returns (r: Result<Dict<string>, AuthError>)
    requires extra.Some? ==> Dicts.Valid(extra.value)
    ensures r.Err? <==> AuthHeader(c).Err?
    ensures r.Err? ==> r == Err(MissingAuthentication)
    ensures r.Ok? ==> r.value == Merged(AuthHeader(c).value, extra)
  {
    var auth := AuthHeader(c);
    if auth.Err? {
      return Err(MissingAuthentication);
    }
    var base := BaseHeaders(auth.value);
    if extra.Some? && extra.value.keys != [] {
      base := Update(base, extra.value);
    }
    return Ok(base);
  }

  /** `str.rstrip('/')`: the longest prefix that does not end with a slash,
      everything after it being slashes. */
  function RStripSlash(s: string): (r: string)
    ensures |r| <= |s| && r == s[..|r|]
    ensures r == [] || r[|r| - 1] != '/'
    ensures forall i :: |r| <= i < |s| ==> s[i] == '/'
  {
    if s != [] && s[|s| - 1] == '/' then RStripSlash(s[..|s| - 1]) else s
  }

  /** `_url` */
  function Url(baseUrl: string, path: string): (r: string)
  {
    RStripSlash(baseUrl) + path
  }

  function ThingPath(thingId: string): (r: string)
  {
    "/api/2/things/" + thingId
  }

  function FeaturesPath(thingId: string): (r: string)
  {
    ThingPath(thingId) + "/features"
  }

  datatype Verb = Put | Get | Patch | Delete

  /** A request as the client hands it to the session: verb, URL, headers,
      and the `json.dumps` text of the payload when there is one. */
  datatype Request = Request(verb: Verb, url: string, headers: Dict<string>, data: Option<string>)

  /** The request an operation sends, once its headers are known. */
  function Prepared(verb: Verb, url: string, headers: Result<Dict<string>, AuthError>, data: Option<string>)
    : (r: Result<Request, AuthError>)
    ensures r.Err? <==> headers.Err?
  {
    match headers
    case Err(e) => Err(e)
    case Ok(h) => Ok(Request(verb, url, h, data))
  }

  /** The default headers for a configuration, or the authentication error. */
  function DefaultHeaders(c: Config): (r: Result<Dict<string>, AuthError>)
  {
    match AuthHeader(c)
    case Err(e) => Err(e)
    case Ok(a) => Ok(BaseHeaders(a))
  }

  /** `put_thing`: create or replace a Thing; `dumps` is `json.dumps`. */
  method PutThing(c: Config, thingId: string, body: Value, dumps: Stringify) returns (r: Result<Request, AuthError>)
    ensures r == Prepared(Put, Url(c.baseUrl, ThingPath(thingId)), DefaultHeaders(c), Some(dumps(body)))
  {
    var url := Url(c.baseUrl, ThingPath(thingId));
    var headers := Headers(c, None);
    return Prepared(Put, url, headers, Some(dumps(body)));
  }

  method GetThing(c: Config, thingId: string) returns (r: Result<Request, AuthError>)
    ensures r == Prepared(Get, Url(c.baseUrl, ThingPath(thingId)), DefaultHeaders(c), None)
  {
    var url := Url(c.baseUrl, ThingPath(thingId));
    var headers := Headers(c, None);
    return Prepared(Get, url, headers, None);
  }

  /** The one-key dictionary `patch_thing` passes as `extra`. */
  function PatchExtra(): (r: Dict<string>)
    ensures Dicts.Valid(r)
  {
    Dict(["Content-Type"], map["Content-Type" := JsonPatch])
  }

  method PatchThing(c: Config, thingId: string, patchOps: Value, dumps: Stringify) returns (r: Result<Request, AuthError>)
    ensures r.Err? <==> AuthHeader(c).Err?
    ensures r.Ok? ==> r.value == Request(Patch, Url(c.baseUrl, ThingPath(thingId)),
      Merged(AuthHeader(c).value, Some(PatchExtra())), Some(dumps(patchOps)))
  {
    var url := Url(c.baseUrl, ThingPath(thingId));
    var headers := Headers(c, Some(PatchExtra()));
    return Prepared(Patch, url, headers, Some(dumps(patchOps)));
  }

  method UpdateFeatures(c: Config, thingId: string, features: Value, dumps: Stringify) returns (r: Result<Request, AuthError>)
    ensures r == Prepared(Put, Url(c.baseUrl, FeaturesPath(thingId)), DefaultHeaders(c), Some(dumps(features)))
  {
    var url := Url(c.baseUrl, FeaturesPath(thingId));
    var headers := Headers(c, None);
    return Prepared(Put, url, headers, Some(dumps(features)));
  }

  method DeleteThing(c: Config, thingId: string) returns (r: Result<Request, AuthError>)
    ensures r == Prepared(Delete, Url(c.baseUrl, ThingPath(thingId)), DefaultHeaders(c), None)
  {
    var url := Url(c.baseUrl, ThingPath(thingId));
    var headers := Headers(c, None);
    return Prepared(Delete, url, headers, None);
  }

  // ---------------------------------------------------------------------
  // Properties of the client
  // ---------------------------------------------------------------------

  /** A non-empty precomputed token is used as it is, whatever the user and password. */
  lemma {:induction false} TokenWins(c: Config)
    requires c.authBasic.Some? && c.authBasic.value != ""
    ensures AuthHeader(c) == Ok("Basic " + c.authBasic.value)
    ensures forall u, p :: AuthHeader(c.(username := u, password := p)) == AuthHeader(c)
  {
  }

  /** An empty token counts as absent: the header then comes from the user
      and password, or is missing, exactly as with no token. */
  lemma {:induction false} EmptyTokenFallsThrough(c: Config)
    requires c.authBasic == Some("")
    ensures AuthHeader(c) == AuthHeader(c.(authBasic := None))
  {
  }

  /** The Basic header of a user and password carries a token that decodes,
      as Base64 and then as UTF-8, to `user:password`. */
  lemma {:induction false} BasicTokenDecodes(user: string, password: string)
    ensures Base64.Decode(BasicToken(user, password)) == Some(Utf8.Encode(user + ":" + password))
    ensures Utf8.Decode(Utf8.Encode(user + ":" + password)) == Some(user + ":" + password)
    ensures forall i :: 0 <= i < |BasicToken(user, password)| ==> BasicToken(user, password)[i] as int < 128
  {
    Base64.DecodeEncode(Utf8.Encode(user + ":" + password));
    Utf8.DecodeEncode(user + ":" + password);
  }

  /** A user name containing a colon, which section 2 of RFC 7617 does not
      allow, is not rejected: two different credential pairs share one header. */
  lemma {:induction false} ColonInUserName(c: Config)
    requires c.authBasic.None?
    ensures AuthHeader(c.(username := Some("a:b"), password := Some("c")))
      == AuthHeader(c.(username := Some("a"), password := Some("b:c")))
  {
    assert "a:b" + ":" + "c" == "a" + ":" + "b:c";
  }

  /** `_headers` always holds the three base keys; a key of `extra` takes
      its value from `extra`, and every other key keeps its base value. */
  lemma {:induction false} MergedLookup(auth: string, extra: Option<Dict<string>>, k: string)
    requires extra.Some? ==> Dicts.Valid(extra.value)
    ensures Dicts.Get(Merged(auth, extra), k) ==
      if extra.Some? && k in extra.value.values then Some(extra.value.values[k])
      else Dicts.Get(BaseHeaders(auth), k)
  {
    if extra.Some? && extra.value.keys != [] {
      FromEntriesAppendLookup(Items(BaseHeaders(auth)), Items(extra.value), k);
      FromEntriesItems(BaseHeaders(auth));
      FromEntriesItems(extra.value);
    }
  }

  /** The base headers, and with them the three keys every request carries. */
  lemma {:induction false} BaseHeadersLookup(auth: string)
    ensures Dicts.Get(BaseHeaders(auth), "Accept") == Some(JsonType)
    ensures Dicts.Get(BaseHeaders(auth), "Content-Type") == Some(JsonType)
    ensures Dicts.Get(BaseHeaders(auth), "Authorization") == Some(auth)
  {
  }

  /** `patch_thing` replaces the Content-Type and keeps the other headers. */
  lemma {:induction false} PatchHeaders(auth: string)
    ensures Dicts.Get(Merged(auth, Some(PatchExtra())), "Content-Type") == Some(JsonPatch)
    ensures forall k :: k != "Content-Type" ==>
      Dicts.Get(Merged(auth, Some(PatchExtra())), k) == Dicts.Get(BaseHeaders(auth), k)
  {
    var x := PatchExtra();
    assert x.values["Content-Type"] == JsonPatch;
    forall k ensures Dicts.Get(Merged(auth, Some(x)), k) ==
      if k == "Content-Type" then Some(JsonPatch) else Dicts.Get(BaseHeaders(auth), k)
    {
      assert k in x.values <==> k == "Content-Type";
      MergedLookup(auth, Some(x), k);
    }
  }

  /** Stripping the trailing slashes twice is stripping them once. */
  lemma {:induction false} RStripIdempotent(s: string)
    ensures RStripSlash(RStripSlash(s)) == RStripSlash(s)
  {
  }

  /** Any number of trailing slashes on the base URL gives the same URL. */
  lemma {:induction false} UrlIgnoresTrailingSlashes(baseUrl: string, n: nat, path: string)
    ensures Url(baseUrl + Slashes(n), path) == Url(baseUrl, path)
  {
    if n > 0 {
      assert baseUrl + Slashes(n) == (baseUrl + Slashes(n - 1)) + "/";
      assert (baseUrl + Slashes(n))[..|baseUrl + Slashes(n)| - 1] == baseUrl + Slashes(n - 1);
      UrlIgnoresTrailingSlashes(baseUrl, n - 1, path);
    } else {
      assert baseUrl + Slashes(0) == baseUrl;
    }
  }

  function Slashes(n: nat): (r: string)
    ensures |r| == n && forall i :: 0 <= i < n ==> r[i] == '/'
  {
    if n == 0 then "" else Slashes(n - 1) + "/"
  }

  /** The features endpoint extends the Thing endpoint. */
  lemma {:induction false} EndpointShapes(baseUrl: string, thingId: string)
    ensures Url(baseUrl, FeaturesPath(thingId)) == Url(baseUrl, ThingPath(thingId)) + "/features"
    ensures Url(baseUrl, ThingPath(thingId))[|RStripSlash(baseUrl)|..] == "/api/2/things/" + thingId
  {
  }
}
