/** Insertion-ordered dictionaries with string keys.

    One datatype stands for the three dictionary-like containers of the
    system: a JavaScript object used as a record, a JavaScript `Map`, and a
    Python `dict`. All three enumerate their keys in insertion order;
    assigning to a key that is already present keeps its position, a new
    key goes to the end, and deleting a key removes it from the order. */
module Dicts {
  import opened Wrappers

  /** The keys in enumeration order, and the key-to-value mapping. */
  datatype Dict<V> = Dict(keys: seq<string>, values: map<string, V>)

  ghost predicate Distinct(s: seq<string>) {
    forall i, j :: 0 <= i < j < |s| ==> s[i] != s[j]
  }

  /** The representation invariant: every key once, order and mapping agree. */
  ghost predicate Valid<V>(d: Dict<V>) {
    && Distinct(d.keys)
    && (forall k :: k in d.values <==> k in d.keys)
  }

  function Empty<V>(): (r: Dict<V>)
    ensures Valid(r) && r.values == map[]
  {
    Dict([], map[])
  }

  function Get<V>(d: Dict<V>, k: string): (r: Option<V>)
  {
    if k in d.values then Some(d.values[k]) else None
  }

  /** `d[k] = v`: overwrite in place, or append a new key. */
  function Set<V>(d: Dict<V>, k: string, v: V): (r: Dict<V>)
    requires Valid(d)
    ensures Valid(r)
  {
    if k in d.values then Dict(d.keys, d.values[k := v])
    else Dict(d.keys + [k], d.values[k := v])
  }

  /** The key sequence with every occurrence of `k` taken out. */
  function Without(s: seq<string>, k: string): (r: seq<string>)
    ensures forall x :: x in r <==> x in s && x != k
  {
    if s == [] then []
    else if s[0] == k then Without(s[1..], k)
    else [s[0]] + Without(s[1..], k)
  }

  lemma {:induction false} WithoutDistinct(s: seq<string>, k: string)
    requires Distinct(s)
    ensures Distinct(Without(s, k))
  {
    if s != [] {
      WithoutDistinct(s[1..], k);
      assert s[0] !in s[1..];
    }
  }

  lemma {:induction false} WithoutAbsent(s: seq<string>, k: string)
    requires k !in s
    ensures Without(s, k) == s
  {
    if s != [] {
      WithoutAbsent(s[1..], k);
    }
  }

  /** `delete d[k]` (a no-op when `k` is absent). */
  function Delete<V>(d: Dict<V>, k: string): (r: Dict<V>)
    requires Valid(d)
    ensures Valid(r)
  {
    WithoutDistinct(d.keys, k);
    Dict(Without(d.keys, k), d.values - {k})
  }

  lemma {:induction false} DeleteAbsent<V>(d: Dict<V>, k: string)
    requires Valid(d) && k !in d.values
    ensures Delete(d, k) == d
  {
    WithoutAbsent(d.keys, k);
  }

  /** The entries in enumeration order, as `Object.entries` or `dict.items()` gives them. */
  function Items<V>(d: Dict<V>): (r: seq<(string, V)>)
    requires Valid(d)
    ensures |r| == |d.keys|
    ensures forall i :: 0 <= i < |r| ==> r[i] == (d.keys[i], d.values[d.keys[i]])
  {
    seq(|d.keys|, i requires 0 <= i < |d.keys| => (d.keys[i], d.values[d.keys[i]]))
  }

  // ---------------------------------------------------------------------
  // A dictionary built from a sequence of entries by assigning them in order
  // ---------------------------------------------------------------------

  function Firsts<V>(e: seq<(string, V)>): (r: seq<string>)
    ensures |r| == |e| && forall i :: 0 <= i < |e| ==> r[i] == e[i].0
  {
    if e == [] then [] else Firsts(e[..|e| - 1]) + [e[|e| - 1].0]
  }

  /** The elements of `s` with later repetitions dropped, in first-seen order. */
  function Dedup(s: seq<string>): (r: seq<string>)
  {
    if s == [] then []
    else if s[|s| - 1] in s[..|s| - 1] then Dedup(s[..|s| - 1])
    else Dedup(s[..|s| - 1]) + [s[|s| - 1]]
  }

  /** The mapping obtained by assigning the entries one after another. */
  function ValuesOf<V>(e: seq<(string, V)>): (r: map<string, V>)
  {
    if e == [] then map[] else ValuesOf(e[..|e| - 1])[e[|e| - 1].0 := e[|e| - 1].1]
  }

  /** The dictionary whose keys are the entries' keys in first-seen order and
      whose value for each key comes from the last entry with that key. */
  function FromEntries<V>(e: seq<(string, V)>): (r: Dict<V>)
    ensures Valid(r)
  {
    DedupMembers(Firsts(e));
    ValuesOfDomain(e);
    Dict(Dedup(Firsts(e)), ValuesOf(e))
  }

  /** The first index of `x` in `s`. */
  function IndexOf(s: seq<string>, x: string): (r: nat)
    requires x in s
    ensures r < |s| && s[r] == x && x !in s[..r]
  {
    if s[0] == x then 0 else 1 + IndexOf(s[1..], x)
  }

  lemma {:induction false} DedupMembers(s: seq<string>)
    ensures forall x :: x in Dedup(s) <==> x in s
    ensures Distinct(Dedup(s))
  {
    if s != [] {
      var p := s[..|s| - 1];
      DedupMembers(p);
      assert s == p + [s[|s| - 1]];
    }
  }

  lemma {:induction false} IndexOfSnoc(p: seq<string>, x: string, y: string)
    requires y in p
    ensures IndexOf(p + [x], y) == IndexOf(p, y)
  {
    var i := IndexOf(p, y);
    var q := p + [x];
    assert q[..i] == p[..i];
    IndexOfUnique(q, y, i);
  }

  lemma {:induction false} IndexOfUnique(s: seq<string>, x: string, i: nat)
    requires i < |s| && s[i] == x && x !in s[..i]
    ensures IndexOf(s, x) == i
  {
  }

  /** The keys of `Dedup(s)` appear in the order of their first occurrences in `s`. */
  lemma {:induction false} DedupFirstSeenOrder(s: seq<string>)
    ensures forall x :: x in Dedup(s) <==> x in s
    ensures forall i, j :: 0 <= i < j < |Dedup(s)| ==>
      Dedup(s)[i] in s && Dedup(s)[j] in s && IndexOf(s, Dedup(s)[i]) < IndexOf(s, Dedup(s)[j])
  {
    DedupMembers(s);
    if s != [] {
      var p, x := s[..|s| - 1], s[|s| - 1];
      assert s == p + [x];
      DedupFirstSeenOrder(p);
      var d := Dedup(s);
      forall i, j | 0 <= i < j < |d|
        ensures d[i] in s && d[j] in s && IndexOf(s, d[i]) < IndexOf(s, d[j])
      {
        var dp := Dedup(p);
        assert d[i] in dp;
        IndexOfSnoc(p, x, d[i]);
        if x in p || j < |dp| {
          assert d[j] in dp;
          IndexOfSnoc(p, x, d[j]);
        } else {
          assert d[j] == x && x !in p;
          assert x !in s[..|p|];
          IndexOfUnique(s, x, |p|);
        }
      }
    }
  }

  lemma {:induction false} ValuesOfDomain<V>(e: seq<(string, V)>)
    ensures forall k :: k in ValuesOf(e) <==> k in Firsts(e)
  {
    if e != [] {
      ValuesOfDomain(e[..|e| - 1]);
    }
  }

  /** Assigning one more entry to the dictionary built so far. */
  lemma {:induction false} FromEntriesSnoc<V>(e: seq<(string, V)>, k: string, v: V)
    ensures FromEntries(e + [(k, v)]) == Set(FromEntries(e), k, v)
  {
    var e' := e + [(k, v)];
    assert e'[..|e'| - 1] == e;
    assert Firsts(e') == Firsts(e) + [k];
    assert Firsts(e')[..|Firsts(e')| - 1] == Firsts(e);
    ValuesOfDomain(e);
  }

  /** Keys of the built dictionary are exactly the keys of the entries, each
      mapped to the value of the last entry that carries it. */
  lemma {:induction false} FromEntriesLookup<V>(e: seq<(string, V)>, k: string)
    ensures k in FromEntries(e).values <==> exists i :: 0 <= i < |e| && e[i].0 == k
    ensures k in FromEntries(e).values ==>
      exists i :: 0 <= i < |e| && e[i] == (k, FromEntries(e).values[k])
        && forall j :: i < j < |e| ==> e[j].0 != k
  {
    if e != [] {
      var p := e[..|e| - 1];
      var x := e[|e| - 1];
      var m := FromEntries(p).values;
      assert FromEntries(e).values == m[x.0 := x.1];
      FromEntriesLookup(p, k);
      if x.0 == k {
        assert e[|e| - 1] == (k, FromEntries(e).values[k]);
      } else {
        assert k in FromEntries(e).values <==> k in m;
        if k in m {
          var i :| 0 <= i < |p| && p[i] == (k, m[k])
            && forall j :: i < j < |p| ==> p[j].0 != k;
          assert e[i] == p[i];
        }
        if exists i :: 0 <= i < |e| && e[i].0 == k {
          var i :| 0 <= i < |e| && e[i].0 == k;
          assert p[i].0 == k;
        }
      }
    }
  }

  lemma {:induction false} WithoutSnoc(s: seq<string>, x: string, k: string)
    ensures Without(s + [x], k) == Without(s, k) + (if x == k then [] else [x])
  {
    if s == [] {
      assert s + [x] == [x];
    } else {
      assert (s + [x])[1..] == s[1..] + [x];
      WithoutSnoc(s[1..], x, k);
    }
  }

  /** Entries with pairwise different keys are kept as they are: the keys in
      their order, each with its own value. */
  lemma {:induction false} FromEntriesDistinct<V>(e: seq<(string, V)>)
    requires Distinct(Firsts(e))
    ensures FromEntries(e).keys == Firsts(e)
    ensures forall i :: 0 <= i < |e| ==> FromEntries(e).values[e[i].0] == e[i].1
  {
    if e != [] {
      var p, x := e[..|e| - 1], e[|e| - 1];
      assert e == p + [x];
      assert Firsts(p) == Firsts(e)[..|p|];
      FromEntriesDistinct(p);
      FromEntriesSnoc(p, x.0, x.1);
      ValuesOfDomain(p);
      forall i | 0 <= i < |e|
        ensures FromEntries(e).values[e[i].0] == e[i].1
      {
        if i < |p| {
          assert Firsts(e)[i] != Firsts(e)[|p|];
        }
      }
    }
  }

  /** With distinct keys, each entry's key looks up the value written with it. */
  lemma {:induction false} FromEntriesGet<V>(e: seq<(string, V)>, i: nat)
    requires Distinct(Firsts(e)) && i < |e|
    ensures Get(FromEntries(e), e[i].0) == Some(e[i].1)
  {
    FromEntriesDistinct(e);
    var d := FromEntries(e);
    assert Firsts(e)[i] == e[i].0;
    assert e[i].0 in d.keys;
  }

  /** Two valid dictionaries with the same key order and the same value at every key are equal. */
  lemma {:induction false} DictEqual<V>(r: Dict<V>, d: Dict<V>)
    requires Valid(r) && Valid(d) && r.keys == d.keys
    requires forall k :: k in d.values ==> r.values[k] == d.values[k]
    ensures r == d
  {
    assert r.values.Keys == d.values.Keys;
  }

  lemma {:induction false} ItemsFirsts<V>(d: Dict<V>)
    requires Valid(d)
    ensures Firsts(Items(d)) == d.keys
  {
    var e := Items(d);
    assert forall i :: 0 <= i < |e| ==> Firsts(e)[i] == d.keys[i];
  }

  /** Rebuilding a dictionary from its own entries gives it back. */
  lemma {:induction false} FromEntriesItems<V>(d: Dict<V>)
    requires Valid(d)
    ensures FromEntries(Items(d)) == d
  {
    var e := Items(d);
    ItemsFirsts(d);
    FromEntriesDistinct(e);
    var r := FromEntries(e);
    forall k | k in d.values
      ensures r.values[k] == d.values[k]
    {
      var i := IndexOf(d.keys, k);
      assert e[i].0 == k;
    }
    DictEqual(r, d);
  }

  /** Looking a key up after an assignment. */
  lemma {:induction false} GetSet<V>(d: Dict<V>, x: string, v: V, k: string)
    requires Valid(d)
    ensures Get(Set(d, x, v), k) == if k == x then Some(v) else Get(d, k)
  {
  }

  /** Assigning the entries `f` after the entries `e`: a key `f` assigns
      takes its value from `f`, any other key keeps its value from `e`. */
  lemma {:induction false} FromEntriesAppendLookup<V>(e: seq<(string, V)>, f: seq<(string, V)>, k: string)
    ensures Get(FromEntries(e + f), k) ==
      if k in FromEntries(f).values then Some(FromEntries(f).values[k]) else Get(FromEntries(e), k)
  {
    if f == [] {
      assert e + f == e;
    } else {
      var p, x := f[..|f| - 1], f[|f| - 1];
      assert f == p + [x];
      assert e + f == (e + p) + [x];
      FromEntriesAppendLookup(e, p, k);
      FromEntriesSnoc(e + p, x.0, x.1);
      FromEntriesSnoc(p, x.0, x.1);
      GetSet(FromEntries(e + p), x.0, x.1, k);
      GetSet(FromEntries(p), x.0, x.1, k);
    }
  }

  /** One more entry of `f` assigned after all of `e`. */
  lemma {:induction false} FromEntriesConcatStep<V>(e: seq<(string, V)>, f: seq<(string, V)>, i: nat)
    requires i < |f|
    ensures FromEntries(e + f[..i + 1]) == Set(FromEntries(e + f[..i]), f[i].0, f[i].1)
  {
    assert e + f[..i + 1] == (e + f[..i]) + [(f[i].0, f[i].1)];
    FromEntriesSnoc(e + f[..i], f[i].0, f[i].1);
  }
}
