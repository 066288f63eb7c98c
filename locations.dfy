/** The location resolver of src/context/data-server/DataProvider.tsx: the
    regular expression `(\d+\.\d+),(\d+\.\d+)` searched for in a free-text
    location, as a backtracking engine finds its leftmost match. The two
    captured groups are kept as the digit strings they are; their conversion
    with `Number(...)` is not modelled. */
module Locations {
  import opened Wrappers
  import opened Dicts
  import opened Things
  import opened Decimal

  // ---------------------------------------------------------------------
  // What the pattern denotes
  // ---------------------------------------------------------------------

  /** `s[i..j]` is a non-empty run of digits. */
  ghost predicate DigitSpan(s: string, i: nat, j: nat) {
    i < j <= |s| && forall t :: i <= t < j ==> IsDigit(s[t])
  }

  /** `s[i..j]` matches `\d+\.\d+`, with its dot at `d`. */
  ghost predicate DecimalSpan(s: string, i: nat, d: nat, j: nat) {
    d < |s| && DigitSpan(s, i, d) && s[d] == '.' && DigitSpan(s, d + 1, j)
  }

  /** `s[i..j]` matches the whole pattern: two decimals in `s[i..c]` and
      `s[c+1..j]`, separated by the comma at `c`. */
  ghost predicate LocationSpan(s: string, i: nat, d1: nat, c: nat, d2: nat, j: nat) {
    DecimalSpan(s, i, d1, c) && c < |s| && s[c] == ',' && DecimalSpan(s, c + 1, d2, j)
  }

  /** Some match of the pattern starts at `i`. */
  ghost predicate MatchesAt(s: string, i: nat) {
    exists d1, c, d2, j :: LocationSpan(s, i, d1, c, d2, j)
  }

  /** `s` contains a match of the pattern somewhere. */
  ghost predicate ContainsLocation(s: string) {
    exists i: nat :: i <= |s| && MatchesAt(s, i)
  }

  // ---------------------------------------------------------------------
  // The scan
  // ---------------------------------------------------------------------

  /** The first index at or after `i` that does not hold a digit. */
  function DigitRunEnd(s: string, i: nat): (r: nat)
    requires i <= |s|
    ensures i <= r <= |s|
    ensures forall t :: i <= t < r ==> IsDigit(s[t])
    ensures r == |s| || !IsDigit(s[r])
    decreases |s| - i
  {
    if i < |s| && IsDigit(s[i]) then DigitRunEnd(s, i + 1) else i
  }

  /** A match: it starts at `start`, the comma is at `comma`, and it ends before `end`. */
  datatype Match = Match(start: nat, comma: nat, end: nat)

  /** The match the engine finds when it tries the pattern at `i`. Each of the
      first three `\d+` can only stop at the end of its digit run, since the
      character after it must be `.`, `,` or `.`; the last `\d+` is greedy. */
  function MatchAt(s: string, i: nat): (r: Option<Match>)
    requires i <= |s|
  {
    var d1 := DigitRunEnd(s, i);
    if d1 == i || d1 == |s| || s[d1] != '.' then None
    else
      var c := DigitRunEnd(s, d1 + 1);
      if c == d1 + 1 || c == |s| || s[c] != ',' then None
      else
        var d2 := DigitRunEnd(s, c + 1);
        if d2 == c + 1 || d2 == |s| || s[d2] != '.' then None
        else
          var e := DigitRunEnd(s, d2 + 1);
          if e == d2 + 1 then None else Some(Match(i, c, e))
  }

  lemma {:induction false} DigitRunEndOf(s: string, i: nat, j: nat)
    requires i <= j <= |s| && forall t :: i <= t < j ==> IsDigit(s[t])
    ensures j <= DigitRunEnd(s, i)
    ensures j < |s| && !IsDigit(s[j]) ==> DigitRunEnd(s, i) == j
    decreases j - i
  {
    if i < j {
      DigitRunEndOf(s, i + 1, j);
    }
  }

  /** A match found at `i` is a match of the pattern, and it is as long as it can be. */
  lemma {:induction false} MatchAtSound(s: string, i: nat)
    requires i <= |s| && MatchAt(s, i).Some?
    ensures MatchAt(s, i).value.start == i
    ensures LocationSpan(s, i, DigitRunEnd(s, i), MatchAt(s, i).value.comma,
                         DigitRunEnd(s, MatchAt(s, i).value.comma + 1), MatchAt(s, i).value.end)
    ensures MatchAt(s, i).value.end == |s| || !IsDigit(s[MatchAt(s, i).value.end])
  {
  }

  /** Every match of the pattern at `i` is found there, with the same comma. */
  lemma {:induction false} MatchAtComplete(s: string, i: nat, d1: nat, c: nat, d2: nat, j: nat)
    requires LocationSpan(s, i, d1, c, d2, j)
    ensures MatchAt(s, i).Some? && MatchAt(s, i).value.comma == c && j <= MatchAt(s, i).value.end
  {
    DigitRunEndOf(s, i, d1);
    DigitRunEndOf(s, d1 + 1, c);
    DigitRunEndOf(s, c + 1, d2);
    DigitRunEndOf(s, d2 + 1, j);
  }

  lemma {:induction false} MatchAtIff(s: string, i: nat)
    requires i <= |s|
    ensures MatchAt(s, i).Some? <==> MatchesAt(s, i)
  {
    if MatchAt(s, i).Some? {
      MatchAtSound(s, i);
    }
    if MatchesAt(s, i) {
      var d1, c, d2, j :| LocationSpan(s, i, d1, c, d2, j);
      MatchAtComplete(s, i, d1, c, d2, j);
    }
  }

  /** The engine's search from `i` on: the first start index where the pattern matches. */
  function FirstMatch(s: string, i: nat): (r: Option<Match>)
    requires i <= |s|
    ensures r.Some? ==> i <= r.value.start <= |s| && MatchAt(s, r.value.start) == r
    ensures forall p :: i <= p <= |s| && (r.None? || p < r.value.start) ==> MatchAt(s, p).None?
    decreases |s| - i
  {
    if MatchAt(s, i).Some? then MatchAt(s, i)
    else if i == |s| then None
    else FirstMatch(s, i + 1)
  }

  /** The leftmost match, which is what both `match` and the first element of `matchAll` give. */
  function LeftmostMatch(s: string): (r: Option<Match>)
  {
    FirstMatch(s, 0)
  }

  // ---------------------------------------------------------------------
  // hasValidLocation and getThingLocation
  // ---------------------------------------------------------------------

  /** `hasValidLocation`: an absent or empty location is rejected outright. */
  function HasValidLocation(location: Option<string>): (r: bool)
  {
    location.Some? && location.value != "" && LeftmostMatch(location.value).Some?
  }

  /** The `location` attribute of a Thing, read as `thing.attributes?.location`. */
  function LocationOf(t: Thing): (r: Option<string>)
  {
    Get(t.attributes, "location")
  }

  /** The two captured groups, latitude first. */
  datatype Coordinates = Coordinates(latitude: string, longitude: string)

  /** The two errors `getThingLocation` throws. */
  datatype LocationError = NoMatchesFound | NoValidLocationFound

  /** `getThingLocation`: the groups of the first match, or the error it throws. */
  function GetThingLocation(t: Thing): (r: Result<Coordinates, LocationError>)
  {
    match LocationOf(t)
    case None => Err(NoMatchesFound)
    case Some(s) =>
      match LeftmostMatch(s)
      case None => Err(NoValidLocationFound)
      case Some(m) =>
        MatchAtSound(s, m.start);
        Ok(Coordinates(s[m.start..m.comma], s[m.comma + 1..m.end]))
  }

  /** `hasValidLocation` holds exactly when the string contains a match of
      the pattern (the empty string contains none). */
  lemma {:induction false} HasValidLocationIff(location: Option<string>)
    ensures HasValidLocation(location) <==> location.Some? && ContainsLocation(location.value)
  {
    if location.Some? {
      var s := location.value;
      if LeftmostMatch(s).Some? {
        var i := LeftmostMatch(s).value.start;
        MatchAtIff(s, i);
        assert i <= |s| && MatchesAt(s, i);
      }
      if ContainsLocation(s) {
        var i: nat :| i <= |s| && MatchesAt(s, i);
        MatchAtIff(s, i);
        assert s != [];
      }
    }
  }

  /** `getThingLocation` throws exactly when `hasValidLocation` rejects the
      same location. */
  lemma {:induction false} GetThingLocationSucceedsIff(t: Thing)
    ensures GetThingLocation(t).Ok? <==> HasValidLocation(LocationOf(t))
  {
    if LocationOf(t) == Some("") {
      assert MatchAt("", 0).None?;
    }
  }

  /** The match `getThingLocation` reports starts at `i`, has its comma at
      `c` and ends at `j`; no match starts before `i`, and the last digit run
      is taken whole. */
  ghost predicate LeftmostGreedy(s: string, i: nat, c: nat, j: nat) {
    && i <= |s| && c < |s|
    && LocationSpan(s, i, DigitRunEnd(s, i), c, DigitRunEnd(s, c + 1), j)
    && (j == |s| || !IsDigit(s[j]))
    && forall p :: 0 <= p < i ==> !MatchesAt(s, p)
  }

  /** Latitude is the first group and longitude the second, both of the
      leftmost match; later matches play no part. */
  lemma {:induction false} GetThingLocationLeftmost(t: Thing)
    requires GetThingLocation(t).Ok?
    ensures exists i: nat, c: nat, j: nat ::
      && LeftmostGreedy(LocationOf(t).value, i, c, j)
      && GetThingLocation(t).value == Coordinates(LocationOf(t).value[i..c], LocationOf(t).value[c + 1..j])
  {
    var s := LocationOf(t).value;
    var m := LeftmostMatch(s).value;
    MatchAtSound(s, m.start);
    forall p | 0 <= p < m.start ensures !MatchesAt(s, p) {
      MatchAtIff(s, p);
    }
    assert LeftmostGreedy(s, m.start, m.comma, m.end);
  }

  /** A Thing whose only attribute is the given location. */
  function Located(s: string): (t: Thing)
  {
    Thing("t", Dict(["location"], map["location" := s]), Empty())
  }

  lemma {:induction false} LocatedLookup(s: string)
    ensures LocationOf(Located(s)) == Some(s)
  {
  }

  /** A match whose last digit run is taken whole is the one found at its start. */
  lemma {:induction false} MatchAtExactly(s: string, i: nat, d1: nat, c: nat, d2: nat, j: nat)
    requires LocationSpan(s, i, d1, c, d2, j) && (j == |s| || !IsDigit(s[j]))
    ensures MatchAt(s, i) == Some(Match(i, c, j))
  {
    DigitRunEndOf(s, i, d1);
    DigitRunEndOf(s, d1 + 1, c);
    DigitRunEndOf(s, c + 1, d2);
    DigitRunEndOf(s, d2 + 1, j);
  }

  /** The search moves past a character that is not a digit. */
  lemma {:induction false} FirstMatchSkips(s: string, i: nat)
    requires i < |s| && !IsDigit(s[i])
    ensures FirstMatch(s, i) == FirstMatch(s, i + 1)
  {
    assert DigitRunEnd(s, i) == i;
  }

  lemma {:induction false} SignedLeftmost(s: string)
    requires s == "-44.1,12.2"
    ensures LeftmostMatch(s) == Some(Match(1, 5, 10))
  {
    assert LocationSpan(s, 1, 3, 5, 8, 10) by {
      assert DigitSpan(s, 1, 3) && s[3] == '.' && DigitSpan(s, 4, 5);
      assert s[5] == ',' && DigitSpan(s, 6, 8) && s[8] == '.' && DigitSpan(s, 9, 10);
    }
    MatchAtExactly(s, 1, 3, 5, 8, 10);
    FirstMatchSkips(s, 0);
  }

  lemma {:induction false} SignIgnoredOn(s: string)
    requires s == "-44.1,12.2"
    ensures GetThingLocation(Located(s)) == Ok(Coordinates("44.1", "12.2"))
  {
    SignedLeftmost(s);
    LocatedLookup(s);
    assert s[1..5] == "44.1" && s[6..10] == "12.2";
  }

  /** The pattern has no sign: a leading minus is skipped over. */
  lemma {:induction false} SignIgnored()
    ensures GetThingLocation(Located("-44.1,12.2")) == Ok(Coordinates("44.1", "12.2"))
  {
    SignIgnoredOn("-44.1,12.2");
  }

  lemma {:induction false} ExampleLeftmost(s: string)
    requires s == "a 1.2,3.4 5.6,7.8"
    ensures LeftmostMatch(s) == Some(Match(2, 5, 9))
  {
    assert LocationSpan(s, 2, 3, 5, 7, 9) && !IsDigit(s[9]) by {
      assert DigitSpan(s, 2, 3) && s[3] == '.' && DigitSpan(s, 4, 5);
      assert s[5] == ',' && DigitSpan(s, 6, 7) && s[7] == '.' && DigitSpan(s, 8, 9);
    }
    MatchAtExactly(s, 2, 3, 5, 7, 9);
    FirstMatchSkips(s, 1);
    FirstMatchSkips(s, 0);
  }

  lemma {:induction false} FirstMatchWinsOn(s: string)
    requires s == "a 1.2,3.4 5.6,7.8"
    ensures GetThingLocation(Located(s)) == Ok(Coordinates("1.2", "3.4"))
  {
    ExampleLeftmost(s);
    LocatedLookup(s);
    assert s[2..5] == "1.2" && s[6..9] == "3.4";
  }

  /** Free text around the coordinates is ignored and the first match wins. */
  lemma {:induction false} FirstMatchWins()
    ensures GetThingLocation(Located("a 1.2,3.4 5.6,7.8")) == Ok(Coordinates("1.2", "3.4"))
  {
    FirstMatchWinsOn("a 1.2,3.4 5.6,7.8");
  }
}
