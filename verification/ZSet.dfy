// The sorted set (types/zset.go): a map from members to scores, and in step with it a list of the members by falling
// score. Scores are real numbers: ordered, and never NaN.

module ZSet {
  import opened Bytes

  type Scores = map<string, real>

  // A missing member reads as zero, as in Go.
  function Score(m: Scores, v: string): real {
    if v in m then m[v] else 0.0
  }

  predicate NoDuplicates(l: seq<string>) {
    forall i, j :: 0 <= i < j < |l| ==> l[i] != l[j]
  }

  predicate Descending(m: Scores, l: seq<string>) {
    forall i, j :: 0 <= i < j < |l| ==> Score(m, l[i]) >= Score(m, l[j])
  }

  // The list holds each member once, by falling score; members with equal scores come in any order.
  ghost predicate Ordered(m: Scores, l: seq<string>) {
    Holds(m, l) && Descending(m, l)
  }

  ghost predicate Holds(m: Scores, l: seq<string>) {
    NoDuplicates(l) && forall v :: v in m <==> v in l
  }

  // ---- Sorting ----

  function Insert(m: Scores, l: seq<string>, v: string): (r: seq<string>)
    ensures multiset(r) == multiset(l) + multiset{v}
  {
    if l == [] then [v]
    else if Score(m, v) > Score(m, l[0]) then [v] + l
    else
      assert l == [l[0]] + l[1..];
      [l[0]] + Insert(m, l[1..], v)
  }

  lemma SameMembers(l: seq<string>, r: seq<string>)
    requires multiset(l) == multiset(r)
    ensures forall v :: v in l <==> v in r
  {
    forall v ensures v in l <==> v in r {
      assert v in multiset(l) <==> v in multiset(r);
    }
  }

  lemma {:induction false} InsertDescending(m: Scores, l: seq<string>, v: string)
    requires Descending(m, l)
    ensures Descending(m, Insert(m, l, v))
  {
    if l != [] && Score(m, v) <= Score(m, l[0]) {
      var rest := Insert(m, l[1..], v);
      InsertDescending(m, l[1..], v);
      SameMembers(rest, l[1..] + [v]);
      forall i | 0 <= i < |rest| ensures Score(m, l[0]) >= Score(m, rest[i]) {
        assert rest[i] in rest && rest[i] in l[1..] + [v];
      }
    }
  }

  // A permutation by falling score; sort.Slice promises no more than that.
  function SortSlice(m: Scores, l: seq<string>): (r: seq<string>)
    ensures multiset(r) == multiset(l)
    ensures Descending(m, r)
  {
    if l == [] then [] else
      assert l == l[..|l| - 1] + [l[|l| - 1]];
      var r := SortSlice(m, l[..|l| - 1]);
      InsertDescending(m, r, l[|l| - 1]);
      Insert(m, r, l[|l| - 1])
  }

  lemma {:induction false} CountOf(l: seq<string>)
    ensures NoDuplicates(l) <==> forall v :: multiset(l)[v] <= 1
  {
    if l != [] {
      var init, last := l[..|l| - 1], l[|l| - 1];
      assert l == init + [last];
      CountOf(init);
      assert forall v :: multiset(init)[v] <= multiset(l)[v];
      assert multiset(l)[last] == multiset(init)[last] + 1;
      assert last in init <==> multiset(init)[last] > 0;
    }
  }

  lemma PermutationHolds(m: Scores, l: seq<string>, r: seq<string>)
    requires Holds(m, l) && multiset(l) == multiset(r)
    ensures Holds(m, r)
  {
    CountOf(l);
    CountOf(r);
    SameMembers(l, r);
  }

  // ---- Ranks ----

  function Members(l: seq<string>): set<string> {
    set v | v in l
  }

  function Higher(m: Scores, score: real): set<string> {
    set v | v in m && m[v] > score
  }

  function NotLower(m: Scores, score: real): set<string> {
    set v | v in m && m[v] >= score
  }

  lemma {:induction false} Distinct(l: seq<string>)
    requires NoDuplicates(l)
    ensures |Members(l)| == |l|
  {
    if l != [] {
      var init, last := l[..|l| - 1], l[|l| - 1];
      Distinct(init);
      assert Members(l) == Members(init) + {last};
      assert last !in init;
    }
  }

  lemma SubsetSize(a: set<string>, b: set<string>)
    requires a <= b
    ensures |a| <= |b|
  {
    assert b == a + (b - a);
  }

  // A member's place lies between the number of strictly higher scores and that of not lower ones; so it is the number
  // of higher scores when no other member has the same.
  lemma RankBounds(m: Scores, l: seq<string>, i: nat)
    requires Ordered(m, l) && i < |l|
    ensures |Higher(m, m[l[i]])| <= i < |NotLower(m, m[l[i]])|
    ensures NotLower(m, m[l[i]]) == Higher(m, m[l[i]]) + {l[i]} ==> i == |Higher(m, m[l[i]])|
  {
    Distinct(l[..i]);
    Distinct(l[..i + 1]);
    HigherBefore(m, l, i);
    NotLowerUpTo(m, l, i);
    SubsetSize(Higher(m, m[l[i]]), Members(l[..i]));
    SubsetSize(Members(l[..i + 1]), NotLower(m, m[l[i]]));
  }

  lemma HigherBefore(m: Scores, l: seq<string>, i: nat)
    requires Ordered(m, l) && i < |l|
    ensures Higher(m, m[l[i]]) <= Members(l[..i])
  {
    forall v | v in Higher(m, m[l[i]]) ensures v in l[..i] {
      var j :| 0 <= j < |l| && l[j] == v;
      assert l[..i][j] == v;
    }
  }

  lemma NotLowerUpTo(m: Scores, l: seq<string>, i: nat)
    requires Ordered(m, l) && i < |l|
    ensures Members(l[..i + 1]) <= NotLower(m, m[l[i]])
  {
    forall v | v in l[..i + 1] ensures v in NotLower(m, m[l[i]]) {
      var j :| 0 <= j < i + 1 && l[..i + 1][j] == v;
      assert l[j] == v && Score(m, l[j]) >= Score(m, l[i]);
    }
  }

  // ---- Ranges ----

  predicate InRange(m: Scores, v: string, lo: real, hi: real) {
    v in m && m[v] >= lo && m[v] <= hi
  }

  function Filter(m: Scores, l: seq<string>, lo: real, hi: real): (r: seq<string>)
    ensures forall v :: v in r <==> v in l && InRange(m, v, lo, hi)
  {
    if l == [] then [] else
      var r := Filter(m, l[..|l| - 1], lo, hi);
      assert l == l[..|l| - 1] + [l[|l| - 1]];
      if InRange(m, l[|l| - 1], lo, hi) then r + [l[|l| - 1]] else r
  }

  // A range holds each member of the interval once, nothing else, by falling score.
  lemma {:induction false} RangeIsOrdered(m: Scores, l: seq<string>, lo: real, hi: real)
    requires NoDuplicates(l) && Descending(m, l)
    ensures var r := Filter(m, l, lo, hi);
            && NoDuplicates(r) && Descending(m, r)
            && forall v :: v in r <==> v in l && v in m && lo <= m[v] <= hi
  {
    if l != [] {
      var init, last := l[..|l| - 1], l[|l| - 1];
      RangeIsOrdered(m, init, lo, hi);
      var r := Filter(m, init, lo, hi);
      assert last !in init;
      forall i | 0 <= i < |r| ensures r[i] != last && Score(m, r[i]) >= Score(m, last) {
        assert r[i] in r;
        var j :| 0 <= j < |init| && init[j] == r[i];
        assert l[j] == r[i];
      }
    }
  }

  // ---- Removal ----

  function IndexOf(l: seq<string>, v: string): (i: nat)
    ensures i <= |l| && v !in l[..i]
    ensures v in l <==> i < |l|
    ensures i < |l| ==> l[i] == v
  {
    if l == [] then 0 else if l[0] == v then 0 else
      var i := IndexOf(l[1..], v);
      assert l[..i + 1] == [l[0]] + l[1..][..i];
      i + 1
  }

  function Without(l: seq<string>, v: string): seq<string> {
    var i := IndexOf(l, v);
    if i < |l| then l[..i] + l[i + 1..] else l
  }

  lemma RemovedHolds(m: Scores, l: seq<string>, v: string)
    requires Holds(m, l)
    ensures Holds(m - {v}, Without(l, v))
  {
    var i, r := IndexOf(l, v), Without(l, v);
    forall u ensures u in r <==> u in l && u != v {
      if u in l && u != v {
        var j :| 0 <= j < |l| && l[j] == u;
        assert r[if j < i then j else j - 1] == u;
      }
    }
  }

  lemma AddedHolds(m: Scores, l: seq<string>, v: string, score: real)
    requires Holds(m, l) && v !in m
    ensures Holds(m[v := score], l + [v])
  {
    forall u ensures u in l + [v] <==> u in l || u == v {
    }
  }

  class ZSet {
    var zset: Scores
    var ttl: uint64
    var sortedScores: seq<string>

    ghost predicate Valid()
      reads this
    {
      Ordered(zset, sortedScores)
    }

    constructor ()
      ensures Valid() && zset == map[]
    {
      zset, ttl, sortedScores := map[], 0, [];
    }

    // What decoding a stored set gives: the scores alone.
    constructor Decoded(scores: Scores)
      ensures zset == scores && sortedScores == []
      ensures Valid() <==> scores == map[]
    {
      zset, ttl, sortedScores := scores, 0, [];
      new;
      if scores != map[] {
        var v :| v in scores;
        assert v !in sortedScores;
      }
    }

    method Sort()
      modifies this`sortedScores
      ensures multiset(sortedScores) == multiset(old(sortedScores)) && Descending(zset, sortedScores)
      ensures old(Holds(zset, sortedScores)) ==> Valid()
    {
      ghost var before := sortedScores;
      sortedScores := SortSlice(zset, sortedScores);
      if Holds(zset, before) { PermutationHolds(zset, before, sortedScores); }
    }

    method Remove(value: string)
      requires Valid()
      modifies this`zset, this`sortedScores
      ensures Valid() && zset == old(zset) - {value}
    {
      if value in zset {
        RemovedHolds(zset, sortedScores, value);
        zset := zset - {value};
        ghost var place := IndexOf(sortedScores, value);
        var i := 0;
        while i < |sortedScores|
          invariant 0 <= i <= place && sortedScores == old(sortedScores)
        {
          if sortedScores[i] == value {
            assert i == place;
            sortedScores := sortedScores[..i] + sortedScores[i + 1..];
            break;
          }
          i := i + 1;
        }
      }
      Sort();
    }

    method Add(value: string, score: real)
      requires Valid()
      modifies this`zset, this`sortedScores
      ensures Valid() && zset == old(zset)[value := score]
    {
      if value in zset {
        Remove(value);
      }
      AddedHolds(zset, sortedScores, value, score);
      zset := zset[value := score];
      sortedScores := sortedScores + [value];
      Sort();
    }

    // The place in the list, counted from the highest score.
    method GetRank(value: string) returns (rank: int, found: bool)
      modifies this`sortedScores
      ensures multiset(sortedScores) == multiset(old(sortedScores)) && (old(Valid()) ==> Valid())
      ensures found <==> value in old(sortedScores)
      ensures if found then 0 <= rank < |sortedScores| && sortedScores[rank] == value else rank == -1
      ensures found && old(Valid()) ==>
                value in zset && |Higher(zset, zset[value])| <= rank < |NotLower(zset, zset[value])|
    {
      Sort();
      SameMembers(old(sortedScores), sortedScores);
      for i := 0 to |sortedScores|
        invariant value !in sortedScores[..i]
      {
        if sortedScores[i] == value {
          if Ordered(zset, sortedScores) { RankBounds(zset, sortedScores, i); }
          return i, true;
        }
        assert sortedScores[..i + 1] == sortedScores[..i] + [sortedScores[i]];
      }
      assert sortedScores[..|sortedScores|] == sortedScores;
      return -1, false;
    }

    method GetRange(minScore: real, maxScore: real) returns (result: seq<string>)
      modifies this`sortedScores
      ensures multiset(sortedScores) == multiset(old(sortedScores)) && (old(Valid()) ==> Valid())
      ensures result == Filter(zset, sortedScores, minScore, maxScore)
      ensures old(Valid()) ==>
                && NoDuplicates(result) && Descending(zset, result)
                && forall v :: v in result <==> v in zset && minScore <= zset[v] <= maxScore
    {
      Sort();
      result := [];
      for i := 0 to |sortedScores|
        invariant result == Filter(zset, sortedScores[..i], minScore, maxScore)
      {
        var value := sortedScores[i];
        assert sortedScores[..i + 1][..i] == sortedScores[..i];
        if value in zset && zset[value] >= minScore && zset[value] <= maxScore {
          result := result + [value];
        }
      }
      assert sortedScores[..|sortedScores|] == sortedScores;
      if old(Valid()) { RangeIsOrdered(zset, sortedScores, minScore, maxScore); }
    }

    method Size() returns (n: nat)
      requires Valid()
      ensures n == |zset| == |sortedScores|
    {
      Distinct(sortedScores);
      assert zset.Keys == Members(sortedScores);
      n := |zset|;
      assert |zset| == |zset.Keys|;
    }

    method Clear()
      modifies this
      ensures Valid() && zset == map[] && ttl == 0
    {
      ttl, zset, sortedScores := 0, map[], [];
    }
  }

  // A decoded set that is not empty has members without a rank.
  method DecodedRank(scores: Scores, value: string) returns (rank: int, found: bool)
    ensures !found && rank == -1
  {
    var z := new ZSet.Decoded(scores);
    rank, found := z.GetRank(value);
  }
}
