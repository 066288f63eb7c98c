/** The string branch of `_format_location` in load_random_to_ditto.py:
    `re.findall(r"-?\d+\.\d+", loc)` and, when it yields fewer than two
    numbers, the chain of `str.replace` calls that strips spaces and brackets. */
module LocationText {
  import opened Wrappers
  import opened Decimal
  import Locations

  // ---------------------------------------------------------------------
  // re.findall(r"-?\d+\.\d+", s)
  // ---------------------------------------------------------------------

  /** The end of a match of `\d+\.\d+` at `i`: the first run of digits can
      only stop where it ends, since a `.` has to follow; the second is greedy. */
  function DecimalAt(s: string, i: nat): (r: Option<nat>)
    requires i <= |s|
    ensures r.Some? ==> i < r.value <= |s|
  {
    var d := Locations.DigitRunEnd(s, i);
    if d == i || d == |s| || s[d] != '.' then None
    else
      var e := Locations.DigitRunEnd(s, d + 1);
      if e == d + 1 then None else Some(e)
  }

  /** The end of a match of `-?\d+\.\d+` at `i`: the sign is taken when it is
      there; without it the match would have to start with a digit. */
  function SignedAt(s: string, i: nat): (r: Option<nat>)
    requires i <= |s|
    ensures r.Some? ==> i < r.value <= |s|
  {
    if i < |s| && s[i] == '-' then DecimalAt(s, i + 1) else DecimalAt(s, i)
  }

  /** `t` is a text the pattern matches whole: an optional minus, digits, a
      dot, digits. */
  ghost predicate SignedDecimal(t: string) {
    && |t| > 0
    && exists d: nat :: Locations.DecimalSpan(t, SignLength(t), d, |t|)
  }

  /** 1 when `t` starts with a minus, 0 otherwise. */
  function SignLength(t: string): (n: nat)
    requires |t| > 0
  {
    if t[0] == '-' then 1 else 0
  }

  lemma {:induction false} SignedAtSound(s: string, i: nat)
    requires i <= |s| && SignedAt(s, i).Some?
    ensures SignedDecimal(s[i..SignedAt(s, i).value])
  {
    var e := SignedAt(s, i).value;
    var t := s[i..e];
    var a := if i < |s| && s[i] == '-' then i + 1 else i;
    var d := Locations.DigitRunEnd(s, a);
    assert t[0] == s[i];
    var a' := SignLength(t);
    assert a' == a - i;
    assert t[d - i] == s[d] == '.';
    assert Locations.DecimalSpan(t, a', d - i, |t|);
  }

  /** The matches from index `i` on, left to right and not overlapping. */
  function FindAll(s: string, i: nat): (r: seq<string>)
    requires i <= |s|
    ensures forall k :: 0 <= k < |r| ==> SignedDecimal(r[k])
    decreases |s| - i
  {
    if i == |s| then []
    else match SignedAt(s, i)
      case Some(e) =>
        SignedAtSound(s, i);
        [s[i..e]] + FindAll(s, e)
      case None => FindAll(s, i + 1)
  }

  /** Every whole match of the pattern starting at `i` is found there, and
      the match found is no shorter. */
  lemma {:induction false} SignedAtComplete(s: string, i: nat, j: nat)
    requires i < j <= |s| && SignedDecimal(s[i..j])
    ensures SignedAt(s, i).Some? && j <= SignedAt(s, i).value
  {
    var t := s[i..j];
    var a := SignLength(t);
    var d: nat :| Locations.DecimalSpan(t, a, d, |t|);
    assert t[0] == s[i];
    DecimalSpanShift(t, s, i, a, d, |t|);
    Locations.DigitRunEndOf(s, i + a, i + d);
    Locations.DigitRunEndOf(s, i + d + 1, j);
  }

  /** `s` has a match of the pattern starting at `p`, and none starts in `s[i..p]`. */
  ghost predicate FirstSignedAt(s: string, i: nat, p: nat) {
    && i <= p < |s| && SignedAt(s, p).Some?
    && forall q: nat :: i <= q < p ==> SignedAt(s, q).None?
  }

  /** The scan from `i` starts with the match at `p` and resumes where it ends. */
  ghost predicate ScanFrom(s: string, i: nat, p: nat)
    requires i <= |s|
  {
    && FirstSignedAt(s, i, p)
    && FindAll(s, i) == [s[p..SignedAt(s, p).value]] + FindAll(s, SignedAt(s, p).value)
  }

  /** A step of the scan past an index where no match starts. */
  lemma {:induction false} FindAllSkips(s: string, i: nat)
    requires i < |s| && SignedAt(s, i).None?
    ensures FindAll(s, i) == FindAll(s, i + 1)
  {
  }

  /** A step of the scan at an index where a match starts. */
  lemma {:induction false} FindAllTakes(s: string, i: nat)
    requires i < |s| && SignedAt(s, i).Some?
    ensures FindAll(s, i) == [s[i..SignedAt(s, i).value]] + FindAll(s, SignedAt(s, i).value)
  {
  }

  /** A match starting at or after `i` leaves the scan from `i` non-empty. */
  lemma {:induction false} FindAllReaches(s: string, i: nat, p: nat)
    requires i <= p < |s| && SignedAt(s, p).Some?
    ensures FindAll(s, i) != []
    decreases p - i
  {
    if SignedAt(s, i).None? {
      FindAllSkips(s, i);
      FindAllReaches(s, i + 1, p);
    } else {
      FindAllTakes(s, i);
    }
  }

  /** The scan finds something exactly when some match starts at or after `i`. */
  lemma {:induction false} FindAllNonEmpty(s: string, i: nat)
    requires i <= |s|
    ensures FindAll(s, i) != [] <==> exists p: nat :: i <= p < |s| && SignedAt(s, p).Some?
  {
    if FindAll(s, i) != [] {
      FindAllLeftmost(s, i);
      var p: nat :| ScanFrom(s, i, p);
      assert i <= p < |s| && SignedAt(s, p).Some?;
    }
    if exists p: nat :: i <= p < |s| && SignedAt(s, p).Some? {
      var p: nat :| i <= p < |s| && SignedAt(s, p).Some?;
      FindAllReaches(s, i, p);
    }
  }

  /** The scan is leftmost and does not overlap: a non-empty scan starts with
      the match at the least index where one starts, and the rest is the
      scan resumed where that match ends. */
  lemma {:induction false} FindAllLeftmost(s: string, i: nat)
    requires i <= |s| && FindAll(s, i) != []
    ensures exists p: nat :: ScanFrom(s, i, p)
    decreases |s| - i
  {
    if SignedAt(s, i).Some? {
      FindAllTakes(s, i);
      assert ScanFrom(s, i, i);
    } else {
      FindAllSkips(s, i);
      FindAllLeftmost(s, i + 1);
      var p: nat :| ScanFrom(s, i + 1, p);
      assert ScanFrom(s, i, p);
    }
  }

  // ---------------------------------------------------------------------
  // The replace fallback
  // ---------------------------------------------------------------------

  /** `s.replace(c, "")` */
  function RemoveAll(s: string, c: char): (r: string)
  {
    if s == [] then [] else (if s[0] == c then [] else [s[0]]) + RemoveAll(s[1..], c)
  }

  /** `.replace(" ", "").replace("[", "").replace("]", "").replace("(", "").replace(")", "")` */
  function Sanitize(s: string): (r: string)
  {
    RemoveAll(RemoveAll(RemoveAll(RemoveAll(RemoveAll(s, ' '), '['), ']'), '('), ')')
  }

  /** The five characters the fallback removes. */
  predicate Stripped(c: char) {
    c == ' ' || c == '[' || c == ']' || c == '(' || c == ')'
  }

  /** The characters of `s` that are not in `drop`, in their order. */
  function Keep(s: string, drop: set<char>): (r: string)
    ensures forall k :: 0 <= k < |r| ==> r[k] !in drop
  {
    if s == [] then [] else (if s[0] in drop then [] else [s[0]]) + Keep(s[1..], drop)
  }

  lemma {:induction false} RemoveAllKeeps(s: string, c: char)
    ensures RemoveAll(s, c) == Keep(s, {c})
  {
    if s != [] {
      RemoveAllKeeps(s[1..], c);
    }
  }

  lemma {:induction false} KeepKeep(s: string, a: set<char>, b: set<char>)
    ensures Keep(Keep(s, a), b) == Keep(s, a + b)
  {
    if s != [] {
      KeepKeep(s[1..], a, b);
      var h := if s[0] in a then [] else [s[0]];
      assert Keep(s, a) == h + Keep(s[1..], a);
      KeepAppend(h, Keep(s[1..], a), b);
    }
  }

  lemma {:induction false} KeepAppend(s: string, t: string, drop: set<char>)
    ensures Keep(s + t, drop) == Keep(s, drop) + Keep(t, drop)
  {
    if s == [] {
      assert s + t == t;
    } else {
      assert (s + t)[1..] == s[1..] + t;
      KeepAppend(s[1..], t, drop);
    }
  }

  /** A string none of whose characters is in `drop` is kept whole. */
  lemma {:induction false} KeepNone(s: string, drop: set<char>)
    requires forall k :: 0 <= k < |s| ==> s[k] !in drop
    ensures Keep(s, drop) == s
  {
    if s != [] {
      KeepNone(s[1..], drop);
    }
  }

  /** The five chained replacements amount to one pass that drops every
      space and bracket and keeps every other character in order. */
  lemma {:induction false} SanitizeKeeps(s: string)
    ensures Sanitize(s) == Keep(s, {' ', '[', ']', '(', ')'})
  {
    var s1 := RemoveAll(s, ' ');
    RemoveAllKeeps(s, ' ');
    var s2 := RemoveAll(s1, '[');
    RemoveAllKeeps(s1, '[');
    KeepKeep(s, {' '}, {'['});
    var s3 := RemoveAll(s2, ']');
    RemoveAllKeeps(s2, ']');
    KeepKeep(s, {' '} + {'['}, {']'});
    var s4 := RemoveAll(s3, '(');
    RemoveAllKeeps(s3, '(');
    KeepKeep(s, {' '} + {'['} + {']'}, {'('});
    RemoveAllKeeps(s4, ')');
    KeepKeep(s, {' '} + {'['} + {']'} + {'('}, {')'});
    assert {' '} + {'['} + {']'} + {'('} + {')'} == {' ', '[', ']', '(', ')'};
  }

  /** The fallback leaves no space or bracket behind, and applying it twice is applying it once. */
  lemma {:induction false} SanitizeIdempotent(s: string)
    ensures forall k :: 0 <= k < |Sanitize(s)| ==> !Stripped(Sanitize(s)[k])
    ensures Sanitize(Sanitize(s)) == Sanitize(s)
  {
    SanitizeKeeps(s);
    SanitizeKeeps(Sanitize(s));
    KeepNone(Sanitize(s), {' ', '[', ']', '(', ')'});
  }

  // ---------------------------------------------------------------------
  // The string branch
  // ---------------------------------------------------------------------

  /** Two or more numbers: the first two joined by a comma; otherwise the fallback. */
  function FormatText(s: string): (r: string)
  {
    var nums := FindAll(s, 0);
    if |nums| >= 2 then nums[0] + "," + nums[1] else Sanitize(s)
  }

  lemma {:induction false} SignedDecimalClean(t: string)
    requires SignedDecimal(t)
    ensures forall k :: 0 <= k < |t| ==> !Stripped(t[k])
  {
    var d: nat :| Locations.DecimalSpan(t, SignLength(t), d, |t|);
    forall k | 0 <= k < |t| ensures !Stripped(t[k]) {
      if SignLength(t) <= k < d {
        assert IsDigit(t[k]);
      } else if d < k {
        assert IsDigit(t[k]);
      }
    }
  }

  /** Whichever branch is taken, the result holds no space or bracket, so the
      fallback would leave it as it is. */
  lemma {:induction false} FormatTextClean(s: string)
    ensures forall k :: 0 <= k < |FormatText(s)| ==> !Stripped(FormatText(s)[k])
    ensures Sanitize(FormatText(s)) == FormatText(s)
  {
    var nums := FindAll(s, 0);
    var r := FormatText(s);
    if |nums| >= 2 {
      SignedDecimalClean(nums[0]);
      SignedDecimalClean(nums[1]);
      forall k | 0 <= k < |r| ensures !Stripped(r[k]) {
        if k < |nums[0]| {
          assert r[k] == nums[0][k];
        } else if k > |nums[0]| {
          assert r[k] == nums[1][k - |nums[0]| - 1];
        }
      }
    } else {
      SanitizeIdempotent(s);
    }
    SanitizeKeeps(r);
    KeepNone(r, {' ', '[', ']', '(', ')'});
  }

  /** With two or more numbers in the text, the result is the leftmost
      match, a comma, and the leftmost match that starts after it ends. */
  lemma {:induction false} FormatTextFirstTwo(s: string)
    requires |FindAll(s, 0)| >= 2
    ensures exists p: nat, q: nat ::
      && FirstSignedAt(s, 0, p)
      && FirstSignedAt(s, SignedAt(s, p).value, q)
      && FormatText(s) == s[p..SignedAt(s, p).value] + "," + s[q..SignedAt(s, q).value]
  {
    FindAllLeftmost(s, 0);
    var p: nat :| ScanFrom(s, 0, p);
    var e := SignedAt(s, p).value;
    assert FindAll(s, e) != [];
    FindAllLeftmost(s, e);
    var q: nat :| ScanFrom(s, e, q);
    assert FindAll(s, 0)[1] == FindAll(s, e)[0];
    assert FirstSignedAt(s, 0, p) && FirstSignedAt(s, e, q);
  }

  /** A decimal inside `s` is a decimal at the same place in a text that
      holds `s` from offset `off` on. */
  lemma {:induction false} DecimalSpanShift(s: string, t: string, off: nat, i: nat, d: nat, j: nat)
    requires off + |s| <= |t| && t[off..off + |s|] == s
    requires Locations.DecimalSpan(s, i, d, j)
    ensures Locations.DecimalSpan(t, off + i, off + d, off + j)
  {
    forall k | off + i <= k < off + d ensures IsDigit(t[k]) {
      assert t[k] == s[k - off];
    }
    forall k | off + d + 1 <= k < off + j ensures IsDigit(t[k]) {
      assert t[k] == s[k - off];
    }
    assert t[off + d] == s[d];
  }

  /** Two numbers joined by a comma, the second unsigned, hold a match of the
      web client's pattern, starting right after any leading minus. */
  lemma {:induction false} JoinedAccepted(a: string, b: string)
    requires SignedDecimal(a) && SignedDecimal(b) && b[0] != '-'
    ensures Locations.MatchesAt(a + "," + b, SignLength(a))
  {
    var t := a + "," + b;
    var i := SignLength(a);
    var d1: nat :| Locations.DecimalSpan(a, i, d1, |a|);
    var d2: nat :| Locations.DecimalSpan(b, SignLength(b), d2, |b|);
    assert t[0..|a|] == a;
    DecimalSpanShift(a, t, 0, i, d1, |a|);
    assert t[|a| + 1..|a| + 1 + |b|] == b;
    DecimalSpanShift(b, t, |a| + 1, 0, d2, |b|);
    assert t[|a|] == ',';
    assert Locations.LocationSpan(t, i, d1, |a|, |a| + 1 + d2, |t|);
  }

  /** When the second number has no sign, the joined text is a location the
      web client accepts. */
  lemma {:induction false} JoinedTextAccepted(s: string)
    requires |FindAll(s, 0)| >= 2 && FindAll(s, 0)[1][0] != '-'
    ensures Locations.HasValidLocation(Some(FormatText(s)))
  {
    var nums := FindAll(s, 0);
    var t := FormatText(s);
    assert t == nums[0] + "," + nums[1];
    JoinedAccepted(nums[0], nums[1]);
    Locations.HasValidLocationIff(Some(t));
  }
}
