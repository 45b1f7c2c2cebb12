// Nested tables (types/table.go): a recursive search for a key through maps within maps.

module Table {
  import opened Bytes

  // A nested map, or any other value; lists are not searched.
  datatype Any = Other(text: string) | Nested(items: map<string, Any>)

  type Path = seq<string>

  // The path leads through nested maps to an entry under the key.
  predicate Matches(m: map<string, Any>, p: Path, key: string)
    decreases |p|
  {
    && p != [] && p[0] in m
    && if |p| == 1 then p[0] == key else m[p[0]].Nested? && Matches(m[p[0]].items, p[1..], key)
  }

  function ValueAt(m: map<string, Any>, p: Path, key: string): Any
    requires Matches(m, p, key)
    decreases |p|
  {
    if |p| == 1 then m[p[0]] else ValueAt(m[p[0]].items, p[1..], key)
  }

  predicate NoDuplicates(ps: seq<Path>) {
    forall i, j :: 0 <= i < j < |ps| ==> ps[i] != ps[j]
  }

  // The results are the values at these paths, one for one.
  predicate Reads(m: map<string, Any>, key: string, ps: seq<Path>, results: seq<Any>) {
    && |results| == |ps|
    && forall i :: 0 <= i < |ps| ==> Matches(m, ps[i], key) && results[i] == ValueAt(m, ps[i], key)
  }

  // One result for each path that matches, and no other.
  ghost predicate Finds(m: map<string, Any>, key: string, ps: seq<Path>, results: seq<Any>) {
    NoDuplicates(ps) && Reads(m, key, ps, results) && forall p: Path :: Matches(m, p, key) ==> p in ps
  }

  function Prefixed(k: string, ps: seq<Path>): (qs: seq<Path>)
    ensures |qs| == |ps| && forall i :: 0 <= i < |ps| ==> qs[i] == [k] + ps[i]
  {
    seq(|ps|, i requires 0 <= i < |ps| => [k] + ps[i])
  }

  // What has been found when the entries in todo are still to be looked into.
  ghost predicate FoundBut(m: map<string, Any>, key: string, todo: set<string>, ps: seq<Path>, results: seq<Any>) {
    && NoDuplicates(ps) && Reads(m, key, ps, results)
    && (forall p :: p in ps && |p| > 1 ==> p[0] !in todo)
    && forall p: Path :: Matches(m, p, key) && (|p| == 1 || p[0] !in todo) ==> p in ps
  }

  lemma PrefixedReads(m: map<string, Any>, key: string, k: string, ps: seq<Path>, results: seq<Any>)
    requires k in m && m[k].Nested? && Reads(m[k].items, key, ps, results)
    ensures Reads(m, key, Prefixed(k, ps), results)
  {
    forall i | 0 <= i < |ps|
      ensures Matches(m, [k] + ps[i], key) && results[i] == ValueAt(m, [k] + ps[i], key)
    {
      assert ([k] + ps[i])[1..] == ps[i];
    }
  }

  lemma PrefixedDistinct(k: string, ps: seq<Path>)
    requires NoDuplicates(ps)
    ensures NoDuplicates(Prefixed(k, ps))
  {
    var qs := Prefixed(k, ps);
    forall i, j | 0 <= i < j < |qs| ensures qs[i] != qs[j] {
      assert qs[i][1..] == ps[i] && qs[j][1..] == ps[j];
    }
  }

  lemma ReadsConcat(m: map<string, Any>, key: string, ps: seq<Path>, a: seq<Any>, qs: seq<Path>, b: seq<Any>)
    requires Reads(m, key, ps, a) && Reads(m, key, qs, b)
    ensures Reads(m, key, ps + qs, a + b)
  {
  }

  lemma ApartConcat(ps: seq<Path>, qs: seq<Path>)
    requires NoDuplicates(ps) && NoDuplicates(qs)
    requires forall p :: p in ps ==> p !in qs
    ensures NoDuplicates(ps + qs)
  {
    forall i, j | 0 <= i < |ps| && 0 <= j < |qs| ensures ps[i] != qs[j] {
      assert ps[i] in ps;
    }
  }

  // The paths through entry k are those of its inner map, with k in front.
  lemma {:induction false} PrefixedAre(m: map<string, Any>, key: string, k: string, inner: seq<Path>, found: seq<Any>)
    requires k in m && m[k].Nested? && Finds(m[k].items, key, inner, found)
    ensures forall p: Path :: p in Prefixed(k, inner) <==> |p| > 1 && p[0] == k && Matches(m, p, key)
  {
    forall p: Path | |p| > 1 && p[0] == k && Matches(m, p, key) ensures p in Prefixed(k, inner) {
      assert Matches(m[k].items, p[1..], key) && p[1..] in inner;
      var i :| 0 <= i < |inner| && inner[i] == p[1..];
      assert Prefixed(k, inner)[i] == [p[0]] + p[1..] == p;
    }
    forall p | p in Prefixed(k, inner) ensures |p| > 1 && p[0] == k && Matches(m, p, key) {
      var i :| 0 <= i < |inner| && Prefixed(k, inner)[i] == p;
      assert p == [k] + inner[i] && p[1..] == inner[i];
    }
  }

  lemma NestedFound(m: map<string, Any>, key: string, todo: set<string>, ps: seq<Path>, results: seq<Any>, k: string,
                    inner: seq<Path>, found: seq<Any>)
    requires FoundBut(m, key, todo, ps, results) && k in todo && k in m && m[k].Nested?
    requires Finds(m[k].items, key, inner, found)
    ensures FoundBut(m, key, todo - {k}, ps + Prefixed(k, inner), results + found)
  {
    var qs := Prefixed(k, inner);
    PrefixedReads(m, key, k, inner, found);
    PrefixedDistinct(k, inner);
    PrefixedAre(m, key, k, inner, found);
    hide Matches, ValueAt, Prefixed, Reads, NoDuplicates;
    ReadsConcat(m, key, ps, results, qs, found);
    ApartConcat(ps, qs);
  }

  lemma OtherFound(m: map<string, Any>, key: string, todo: set<string>, ps: seq<Path>, results: seq<Any>, k: string)
    requires FoundBut(m, key, todo, ps, results) && k in m && !m[k].Nested?
    ensures FoundBut(m, key, todo - {k}, ps, results)
  {
  }

  lemma OwnFound(m: map<string, Any>, key: string)
    ensures FoundBut(m, key, m.Keys, if key in m then [[key]] else [], if key in m then [m[key]] else [])
  {
    forall p: Path | Matches(m, p, key) && |p| == 1 ensures p == [key] && key in m {
    }
  }

  lemma AllFound(m: map<string, Any>, key: string, ps: seq<Path>, results: seq<Any>)
    requires FoundBut(m, key, {}, ps, results)
    ensures Finds(m, key, ps, results)
  {
  }

  // Go visits the entries of a map in any order.
  method SearchInMap(m: map<string, Any>, key: string) returns (results: seq<Any>, ghost paths: seq<Path>)
    ensures Finds(m, key, paths, results)
    decreases Nested(m)
  {
    hide FoundBut, Finds;
    results, paths := [], [];
    if key in m {
      results, paths := [m[key]], [[key]];
    }
    OwnFound(m, key);
    var todo := m.Keys;
    while todo != {}
      invariant todo <= m.Keys && FoundBut(m, key, todo, paths, results)
      decreases |todo|
    {
      var k :| k in todo;
      if m[k].Nested? {
        var found;
        ghost var inner;
        found, inner := SearchInMap(m[k].items, key);
        NestedFound(m, key, todo, paths, results, k, inner, found);
        results, paths := results + found, paths + Prefixed(k, inner);
      } else {
        OtherFound(m, key, todo, paths, results, k);
      }
      todo := todo - {k};
    }
    AllFound(m, key, paths, results);
  }

  // ---- The order of iteration does not matter ----

  lemma {:induction false} DistinctCount(ps: seq<Path>, p: Path)
    requires NoDuplicates(ps)
    ensures multiset(ps)[p] == if p in ps then 1 else 0
  {
    if ps != [] {
      var init, last := ps[..|ps| - 1], ps[|ps| - 1];
      assert ps == init + [last];
      assert last !in init;
      DistinctCount(init, p);
    }
  }

  function Without<T>(s: seq<T>, k: nat): (r: seq<T>)
    requires k < |s|
    ensures |r| == |s| - 1 && multiset(s) == multiset(r) + multiset{s[k]}
  {
    assert s == s[..k] + [s[k]] + s[k + 1..];
    s[..k] + s[k + 1..]
  }

  lemma ReadsWithout(m: map<string, Any>, key: string, ps: seq<Path>, a: seq<Any>, k: nat)
    requires Reads(m, key, ps, a) && k < |ps|
    ensures Reads(m, key, Without(ps, k), Without(a, k))
  {
    hide Matches, ValueAt;
    forall i | 0 <= i < |ps| - 1
      ensures Matches(m, Without(ps, k)[i], key) && Without(a, k)[i] == ValueAt(m, Without(ps, k)[i], key)
    {
      var j := if i < k then i else i + 1;
      assert Without(ps, k)[i] == ps[j] && Without(a, k)[i] == a[j];
    }
  }

  lemma {:induction false} SameValues(m: map<string, Any>, key: string, ps: seq<Path>, a: seq<Any>, qs: seq<Path>,
                                      b: seq<Any>)
    requires Reads(m, key, ps, a) && Reads(m, key, qs, b) && multiset(ps) == multiset(qs)
    ensures multiset(a) == multiset(b)
    decreases |ps|
  {
    hide Matches, ValueAt, Without;
    if ps == [] {
      assert |multiset(qs)| == |multiset(ps)| == 0;
      assert qs == [];
    } else {
      assert ps[0] in multiset(qs);
      var k :| 0 <= k < |qs| && qs[k] == ps[0];
      ReadsWithout(m, key, ps, a, 0);
      ReadsWithout(m, key, qs, b, k);
      assert a[0] == ValueAt(m, ps[0], key) == b[k];
      assert multiset(Without(ps, 0)) == multiset(ps) - multiset{ps[0]} == multiset(Without(qs, k));
      SameValues(m, key, Without(ps, 0), Without(a, 0), Without(qs, k), Without(b, k));
    }
  }

  // Whatever the order the entries of the maps are visited in, the results are the same multiset.
  lemma ResultsAreUnique(m: map<string, Any>, key: string, ps: seq<Path>, a: seq<Any>, qs: seq<Path>, b: seq<Any>)
    requires Finds(m, key, ps, a) && Finds(m, key, qs, b)
    ensures multiset(a) == multiset(b) && |a| == |b|
  {
    forall p ensures multiset(ps)[p] == multiset(qs)[p] {
      DistinctCount(ps, p);
      DistinctCount(qs, p);
      if p in ps { assert Matches(m, p, key); }
      if p in qs { assert Matches(m, p, key); }
    }
    assert multiset(ps) == multiset(qs);
    SameValues(m, key, ps, a, qs, b);
    assert |multiset(a)| == |a| && |multiset(b)| == |b|;
  }

  // The search comes back empty exactly when no nested map holds the key.
  lemma {:induction false} NothingFound(m: map<string, Any>, key: string, ps: seq<Path>, results: seq<Any>)
    requires Finds(m, key, ps, results)
    ensures results == [] <==> forall p: Path :: !Matches(m, p, key)
  {
    hide Matches, ValueAt;
    if results != [] {
      var p := ps[0];
      assert Matches(m, p, key);
      assert exists q: Path :: Matches(m, q, key);
    } else {
      forall p: Path ensures !Matches(m, p, key) {
        assert p !in ps;
      }
    }
  }

  class Table {
    var table: map<string, Any>
    var ttl: uint64

    constructor ()
      ensures table == map[]
    {
      table, ttl := map[], 0;
    }

    method Clear()
      modifies this
      ensures table == map[] && ttl == 0
    {
      ttl, table := 0, map[];
    }

    method AddItem(key: string, value: Any)
      modifies this`table
      ensures table == old(table)[key := value]
    {
      table := table[key := value];
    }

    method RemoveItem(key: string)
      modifies this`table
      ensures table == old(table) - {key}
    {
      table := table - {key};
    }

    method SearchItem(key: string) returns (results: seq<Any>, ghost paths: seq<Path>)
      ensures Finds(table, key, paths, results)
    {
      hide FoundBut, Finds;
      results, paths := [], [];
      if key in table {
        results, paths := [table[key]], [[key]];
      }
      OwnFound(table, key);
      var todo := table.Keys;
      while todo != {}
        invariant todo <= table.Keys && FoundBut(table, key, todo, paths, results)
        decreases |todo|
      {
        var k :| k in todo;
        if table[k].Nested? {
          var found;
          ghost var inner;
          found, inner := SearchInMap(table[k].items, key);
          NestedFound(table, key, todo, paths, results, k, inner, found);
          results, paths := results + found, paths + Prefixed(k, inner);
        } else {
          OtherFound(table, key, todo, paths, results, k);
        }
        todo := todo - {k};
      }
      AllFound(table, key, paths, results);
    }
  }
}
