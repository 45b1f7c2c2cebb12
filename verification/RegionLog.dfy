// A region file is a header followed by whole records; the store's log is its region files in ascending order of id.

module RegionLog {
  import opened Wrappers
  import opened Bytes
  import opened Segments

  const MAGIC: seq<byte> := [0xDB, 0x00, 0x01, 0x01]

  predicate HasHeader(file: seq<byte>) {
    |file| >= 4 && file[..4] == MAGIC
  }

  // A record with the place it is stored at.
  datatype Entry = Entry(rid: uint64, pos: nat, seg: Segment)

  type Records = map<uint64, seq<Segment>>

  function Layout(d: Digests, rs: seq<Segment>): (s: seq<byte>)
    ensures |s| >= 4 && s[..4] == MAGIC
  {
    if rs == [] then MAGIC else Layout(d, rs[..|rs| - 1]) + Serialize(d, rs[|rs| - 1])
  }

  function Entries(d: Digests, rid: uint64, rs: seq<Segment>): (es: seq<Entry>)
    ensures |es| == |rs|
  {
    if rs == [] then [] else
      var init := rs[..|rs| - 1];
      Entries(d, rid, init) + [Entry(rid, |Layout(d, init)|, rs[|rs| - 1])]
  }

  predicate AllWellFormed(rs: seq<Segment>) {
    forall i :: 0 <= i < |rs| ==> rs[i].WellFormed()
  }

  // ---- Region ids in ascending order ----

  predicate Ascending(ids: seq<uint64>) {
    forall i, j :: 0 <= i < j < |ids| ==> ids[i] < ids[j]
  }

  function SortedBelow(keys: set<uint64>, n: nat): (ids: seq<uint64>)
    requires n <= U64
    ensures Ascending(ids)
    ensures forall x :: x in ids <==> x in keys && x < n
  {
    if n == 0 then [] else
      var below := SortedBelow(keys, n - 1);
      assert forall i :: 0 <= i < |below| ==> below[i] in below;
      if n - 1 in keys then below + [n - 1] else below
  }

  // What sort.Slice makes of the keys of the region map.
  function Sorted(keys: set<uint64>): (ids: seq<uint64>)
    ensures Ascending(ids)
    ensures forall x :: x in ids <==> x in keys
  {
    SortedBelow(keys, U64)
  }

  lemma {:induction false} AscendingUnique(a: seq<uint64>, b: seq<uint64>)
    requires Ascending(a) && Ascending(b)
    requires forall x :: x in a <==> x in b
    ensures a == b
  {
    assert a == [] || a[0] in b;
    assert b == [] || b[0] in a;
    if a != [] {
      assert a[|a| - 1] in b;
      var x, y := a[|a| - 1], b[|b| - 1];
      assert x in b && y in a;
      assert x == y;
      var a', b' := a[..|a| - 1], b[..|b| - 1];
      forall z ensures z in a' <==> z in b' {
        if z in a' { assert z in a && z != x; }
        if z in b' { assert z in b && z != y; }
      }
      AscendingUnique(a', b');
      assert a == a' + [x] && b == b' + [y];
    }
  }

  lemma SortedIs(keys: set<uint64>, ids: seq<uint64>)
    requires Ascending(ids)
    requires forall x :: x in ids <==> x in keys
    ensures Sorted(keys) == ids
  {
    AscendingUnique(Sorted(keys), ids);
  }

  lemma {:induction false} AscendingLength(keys: set<uint64>, ids: seq<uint64>)
    requires Ascending(ids)
    requires forall x :: x in ids <==> x in keys
    ensures |ids| == |keys|
  {
    if ids == [] {
      assert keys == {};
    } else {
      var x := ids[|ids| - 1];
      assert x in keys;
      var init := ids[..|ids| - 1];
      forall y ensures y in init <==> y in keys - {x} {
        if y in init { assert y in ids && y != x; }
      }
      AscendingLength(keys - {x}, init);
    }
  }

  // ---- The log ----

  predicate Covered(ids: seq<uint64>, recs: Records) {
    forall i :: 0 <= i < |ids| ==> ids[i] in recs
  }

  function FlatLog(d: Digests, recs: Records, ids: seq<uint64>): seq<Entry>
    requires Covered(ids, recs)
  {
    if ids == [] then [] else
      FlatLog(d, recs, ids[..|ids| - 1]) + Entries(d, ids[|ids| - 1], recs[ids[|ids| - 1]])
  }

  function Log(d: Digests, recs: Records): seq<Entry> {
    FlatLog(d, recs, Sorted(recs.Keys))
  }

  function InumOf(d: Digests, e: Entry): uint64 {
    d.inodeNum(e.seg.key)
  }

  // The latest record of an inode number.
  function Last(d: Digests, log: seq<Entry>, h: uint64): (r: Option<Entry>)
    ensures r.Some? ==> r.value in log && InumOf(d, r.value) == h
    ensures r.None? ==> forall i :: 0 <= i < |log| ==> InumOf(d, log[i]) != h
  {
    if log == [] then None
    else if InumOf(d, log[|log| - 1]) == h then Some(log[|log| - 1])
    else Last(d, log[..|log| - 1], h)
  }

  // ---- Lemmas ----

  lemma {:induction false} LayoutPrefix(d: Digests, rs: seq<Segment>, i: nat)
    requires i <= |rs|
    ensures |Layout(d, rs[..i])| <= |Layout(d, rs)|
    ensures Layout(d, rs)[..|Layout(d, rs[..i])|] == Layout(d, rs[..i])
  {
    if i < |rs| {
      var init := rs[..|rs| - 1];
      LayoutPrefix(d, init, i);
      assert init[..i] == rs[..i];
    } else {
      assert rs[..i] == rs;
    }
  }

  // The record boundary of record i: what lies before it, the record itself, and what follows.
  lemma {:induction false} Boundary(d: Digests, rs: seq<Segment>, i: nat)
    requires i < |rs|
    ensures var at := |Layout(d, rs[..i])|;
            var end := at + |Serialize(d, rs[i])|;
            && end == |Layout(d, rs[..i + 1])| <= |Layout(d, rs)|
            && Layout(d, rs)[..at] == Layout(d, rs[..i])
            && Layout(d, rs) == Layout(d, rs)[..at] + Serialize(d, rs[i]) + Layout(d, rs)[end..]
  {
    LayoutPrefix(d, rs, i);
    LayoutPrefix(d, rs, i + 1);
    assert rs[..i + 1][..i] == rs[..i];
    var all, end := Layout(d, rs), |Layout(d, rs[..i + 1])|;
    assert all == all[..end] + all[end..];
  }

  lemma {:induction false} ReadRecord(d: Digests, rs: seq<Segment>, i: nat)
    requires i < |rs| && rs[i].Consistent()
    ensures ReadRaw(d, Layout(d, rs), |Layout(d, rs[..i])|) == Ok(rs[i])
  {
    Boundary(d, rs, i);
    var at := |Layout(d, rs[..i])|;
    ReadBack(d, Layout(d, rs)[..at], rs[i], Layout(d, rs)[at + |Serialize(d, rs[i])|..]);
  }

  lemma {:induction false} LayoutPrefixUnique(d: Digests, a: seq<Segment>, b: seq<Segment>, i: nat)
    requires AllWellFormed(a) && AllWellFormed(b) && Layout(d, a) == Layout(d, b) && i <= |a|
    ensures i <= |b| && a[..i] == b[..i]
  {
    hide Layout, Serialize, ReadRaw;
    if i > 0 {
      LayoutPrefixUnique(d, a, b, i - 1);
      Boundary(d, a, i - 1);
      ReadRecord(d, a, i - 1);
      assert b[..|b|] == b;
      if |b| > i - 1 { ReadRecord(d, b, i - 1); }
    }
  }

  // The bytes of a region determine its records.
  lemma {:induction false} LayoutInjective(d: Digests, a: seq<Segment>, b: seq<Segment>)
    requires AllWellFormed(a) && AllWellFormed(b) && Layout(d, a) == Layout(d, b)
    ensures a == b
  {
    LayoutPrefixUnique(d, a, b, |a|);
    LayoutPrefixUnique(d, b, a, |b|);
  }

  lemma {:induction false} EntryAt(d: Digests, rid: uint64, rs: seq<Segment>, i: nat)
    requires i < |rs|
    ensures Entries(d, rid, rs)[i] == Entry(rid, |Layout(d, rs[..i])|, rs[i])
  {
    if i < |rs| - 1 {
      EntryAt(d, rid, rs[..|rs| - 1], i);
      assert rs[..|rs| - 1][..i] == rs[..i];
    }
  }

  // Every entry of the log is a record on its boundary in its region, and reads back as itself.
  lemma {:induction false} EntryInRegion(d: Digests, recs: Records, ids: seq<uint64>, e: Entry)
    requires Covered(ids, recs) && forall x :: x in ids ==> AllWellFormed(recs[x])
    requires e in FlatLog(d, recs, ids)
    ensures e.rid in ids && e.seg.WellFormed()
    ensures e.pos + |Serialize(d, e.seg)| <= |Layout(d, recs[e.rid])|
    ensures ReadRaw(d, Layout(d, recs[e.rid]), e.pos) == Ok(e.seg)
  {
    var r := ids[|ids| - 1];
    assert r in ids;
    var rs := recs[r];
    if e in Entries(d, r, rs) {
      var i :| 0 <= i < |rs| && Entries(d, r, rs)[i] == e;
      EntryAt(d, r, rs, i);
      ReadRecord(d, rs, i);
      Boundary(d, rs, i);
    } else {
      EntryInRegion(d, recs, ids[..|ids| - 1], e);
    }
  }

  lemma {:induction false} FlatLogConcat(d: Digests, recs: Records, a: seq<uint64>, b: seq<uint64>)
    requires Covered(a, recs) && Covered(b, recs)
    ensures Covered(a + b, recs)
    ensures FlatLog(d, recs, a + b) == FlatLog(d, recs, a) + FlatLog(d, recs, b)
  {
    if b == [] {
      assert a + b == a;
    } else {
      var b' := b[..|b| - 1];
      assert (a + b)[..|a + b| - 1] == a + b';
      FlatLogConcat(d, recs, a, b');
      var last := Entries(d, b[|b| - 1], recs[b[|b| - 1]]);
      assert FlatLog(d, recs, a + b) == FlatLog(d, recs, a + b') + last;
    }
  }

  lemma {:induction false} FlatLogSame(d: Digests, recs: Records, recs': Records, ids: seq<uint64>)
    requires Covered(ids, recs) && Covered(ids, recs')
    requires forall x :: x in ids ==> recs[x] == recs'[x]
    ensures FlatLog(d, recs, ids) == FlatLog(d, recs', ids)
  {
    if ids != [] {
      assert ids[|ids| - 1] in ids;
      FlatLogSame(d, recs, recs', ids[..|ids| - 1]);
    }
  }

  lemma {:induction false} EntriesAppend(d: Digests, rid: uint64, rs: seq<Segment>, seg: Segment)
    ensures Entries(d, rid, rs + [seg]) == Entries(d, rid, rs) + [Entry(rid, |Layout(d, rs)|, seg)]
    ensures Layout(d, rs + [seg]) == Layout(d, rs) + Serialize(d, seg)
  {
    assert (rs + [seg])[..|rs|] == rs;
  }

  // The highest id comes last.
  lemma SortedTop(keys: set<uint64>, top: uint64)
    requires top in keys && forall x :: x in keys ==> x <= top
    ensures Sorted(keys) == Sorted(keys - {top}) + [top]
  {
    var init := Sorted(keys - {top});
    forall i | 0 <= i < |init| ensures init[i] < top {
      assert init[i] in init;
    }
    SortedIs(keys, init + [top]);
  }

  // The lowest id comes first.
  lemma SortedLow(keys: set<uint64>, low: uint64)
    requires low in keys && forall x :: x in keys ==> low <= x
    ensures Sorted(keys) == [low] + Sorted(keys - {low})
  {
    var rest := Sorted(keys - {low});
    forall i | 0 <= i < |rest| ensures low < rest[i] {
      assert rest[i] in rest;
    }
    SortedIs(keys, [low] + rest);
  }

  lemma {:induction false} FlatLogOne(d: Digests, recs: Records, id: uint64)
    requires id in recs
    ensures FlatLog(d, recs, [id]) == Entries(d, id, recs[id])
  {
    assert [id][..0] == [];
  }

  lemma {:induction false} FlatLogFront(d: Digests, recs: Records, ids: seq<uint64>)
    requires Covered(ids, recs) && ids != []
    ensures Covered(ids[1..], recs)
    ensures FlatLog(d, recs, ids) == Entries(d, ids[0], recs[ids[0]]) + FlatLog(d, recs, ids[1..])
  {
    assert ids == [ids[0]] + ids[1..];
    FlatLogConcat(d, recs, [ids[0]], ids[1..]);
    FlatLogOne(d, recs, ids[0]);
  }

  lemma {:induction false} LogTop(d: Digests, recs: Records, top: uint64)
    requires top in recs && forall x :: x in recs ==> x <= top
    ensures Log(d, recs) == Log(d, recs - {top}) + Entries(d, top, recs[top])
  {
    var below := recs - {top};
    assert below.Keys == recs.Keys - {top};
    var init := Sorted(below.Keys);
    SortedTop(recs.Keys, top);
    FlatLogConcat(d, recs, init, [top]);
    FlatLogOne(d, recs, top);
    FlatLogSame(d, recs, below, init);
  }

  // Appending to the highest region appends to the log.
  lemma {:induction false} LogAppend(d: Digests, recs: Records, top: uint64, seg: Segment)
    requires top in recs && forall x :: x in recs ==> x <= top
    ensures Log(d, recs[top := recs[top] + [seg]]) == Log(d, recs) + [Entry(top, |Layout(d, recs[top])|, seg)]
  {
    var recs' := recs[top := recs[top] + [seg]];
    LogTop(d, recs, top);
    LogTop(d, recs', top);
    assert recs' - {top} == recs - {top};
    EntriesAppend(d, top, recs[top], seg);
  }

  // A new, empty, highest region leaves the log alone.
  lemma LogNewRegion(d: Digests, recs: Records, id: uint64)
    requires forall x :: x in recs ==> x < id
    ensures Log(d, recs[id := []]) == Log(d, recs)
  {
    var recs' := recs[id := []];
    assert recs' - {id} == recs;
    LogTop(d, recs', id);
  }

  // Removing the lowest region removes its records from the front of the log.
  lemma {:induction false} LogDropLowest(d: Digests, recs: Records, low: uint64)
    requires low in recs && forall x :: x in recs ==> low <= x
    ensures Log(d, recs) == Entries(d, low, recs[low]) + Log(d, recs - {low})
  {
    var above := recs - {low};
    assert above.Keys == recs.Keys - {low};
    var rest := Sorted(above.Keys);
    SortedLow(recs.Keys, low);
    FlatLogConcat(d, recs, [low], rest);
    FlatLogOne(d, recs, low);
    FlatLogSame(d, recs, above, rest);
  }

  lemma {:induction false} LastConcat(d: Digests, a: seq<Entry>, b: seq<Entry>, h: uint64)
    ensures Last(d, a + b, h) == if Last(d, b, h).Some? then Last(d, b, h) else Last(d, a, h)
  {
    if b == [] {
      assert a + b == a;
    } else {
      assert (a + b)[..|a + b| - 1] == a + b[..|b| - 1];
      LastConcat(d, a, b[..|b| - 1], h);
    }
  }
}
