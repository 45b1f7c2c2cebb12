// Region file names, and how recovery picks the region files out of a directory listing (vfs/lfs.go).

module FileNames {
  import opened Wrappers
  import opened Bytes
  import opened RegionLog

  const FILE_EXTENSION := ".wdb"
  const INDEX_FILE_NAME := "index.wdb"
  const REGION_LIMIT := 1_000_000_000

  type Directory = map<string, seq<byte>>

  function DigitChar(n: nat): char
    requires n < 10
  {
    (n + 48) as char
  }

  predicate IsDigit(c: char) {
    '0' <= c <= '9'
  }

  function DigitValue(c: char): nat
    requires IsDigit(c)
  {
    c as int - 48
  }

  // Decimal notation without leading zeros.
  function Digits(n: nat): (s: string)
    ensures |s| > 0 && forall i :: 0 <= i < |s| ==> IsDigit(s[i])
    ensures n > 0 ==> s[0] != '0'
  {
    if n < 10 then [DigitChar(n)] else Digits(n / 10) + [DigitChar(n % 10)]
  }

  function Zeros(n: nat): string {
    seq(n, i => '0')
  }

  // fmt.Sprintf("%010d%s", number, fileExtension)
  function FormatDataFileName(number: uint64): string {
    var s := Digits(number);
    (if |s| < 10 then Zeros(10 - |s|) + s else s) + FILE_EXTENSION
  }

  predicate HasPrefix(s: string, prefix: string) {
    |prefix| <= |s| && s[..|prefix|] == prefix
  }

  predicate HasSuffix(s: string, suffix: string) {
    |suffix| <= |s| && s[|s| - |suffix|..] == suffix
  }

  function GenerateFileName(regionID: uint64): Option<string> {
    var fileName := FormatDataFileName(regionID);
    if HasPrefix(fileName, "0") then Some(fileName) else None
  }

  // strings.Split(s, ".")
  function Split(s: string): (parts: seq<string>)
    ensures |parts| >= 1
  {
    if s == "" then [""] else
      var rest := Split(s[1..]);
      if s[0] == '.' then [""] + rest else [[s[0]] + rest[0]] + rest[1..]
  }

  predicate AllDigits(s: string) {
    forall i :: 0 <= i < |s| ==> IsDigit(s[i])
  }

  function DecimalValue(s: string): nat
    requires AllDigits(s)
  {
    if s == "" then 0 else 10 * DecimalValue(s[..|s| - 1]) + DigitValue(s[|s| - 1])
  }

  // strconv.ParseUint(s, 10, 64)
  function ParseUint(s: string): Option<uint64> {
    if s == "" || !AllDigits(s) || DecimalValue(s) >= U64 then None else Some(DecimalValue(s))
  }

  function ParseDataFileName(fileName: string): Option<uint64> {
    var parts := Split(fileName);
    if |parts| != 2 then None else ParseUint(parts[0])
  }

  // The filter recoverRegions applies to a directory entry.
  predicate IsRegionFile(name: string) {
    HasSuffix(name, FILE_EXTENSION) && HasPrefix(name, "0")
  }

  // The files whose header is checked before anything else: regions and the snapshot.
  predicate IsStoreFile(name: string) {
    IsRegionFile(name) || name == INDEX_FILE_NAME
  }

  // checkFileSystem: names a store file with a wrong or missing header, if there is one.
  method CheckFileSystem(dir: Directory) returns (bad: Option<string>)
    ensures bad.None? <==> forall name :: name in dir && IsStoreFile(name) ==> HasHeader(dir[name])
    ensures bad.Some? ==> bad.value in dir && IsStoreFile(bad.value) && !HasHeader(dir[bad.value])
  {
    var files := dir.Keys;
    while files != {}
      invariant files <= dir.Keys
      invariant forall name :: name in dir.Keys - files && IsStoreFile(name) ==> HasHeader(dir[name])
      decreases |files|
    {
      var name :| name in files;
      if IsStoreFile(name) && !HasHeader(dir[name]) { return Some(name); }
      files := files - {name};
    }
    return None;
  }

  // The region map that the files of a directory give: one entry per accepted name, under its id.
  ghost predicate Recovers(dir: Directory, regions: map<uint64, seq<byte>>) {
    && (forall name :: name in dir && IsRegionFile(name) ==>
          ParseDataFileName(name).Some? && ParseDataFileName(name).value in regions)
    && (forall id :: id in regions ==> StoredUnder(dir, id, regions[id]))
  }

  ghost predicate StoredUnder(dir: Directory, id: uint64, bytes: seq<byte>) {
    exists name :: name in dir && IsRegionFile(name) && ParseDataFileName(name) == Some(id) && dir[name] == bytes
  }

  method RecoverRegionFiles(dir: Directory) returns (r: Result<map<uint64, seq<byte>>, string>)
    ensures r.Err? <==> exists name :: name in dir && IsRegionFile(name) && ParseDataFileName(name).None?
    ensures r.Ok? ==> Recovers(dir, r.value)
  {
    var regions: map<uint64, seq<byte>> := map[];
    var files := dir.Keys;
    while files != {}
      invariant files <= dir.Keys
      invariant forall name :: name in dir.Keys - files && IsRegionFile(name) ==>
                  ParseDataFileName(name).Some? && ParseDataFileName(name).value in regions
      invariant forall id :: id in regions ==> StoredUnder(dir, id, regions[id])
      decreases |files|
    {
      var name :| name in files;
      files := files - {name};
      if IsRegionFile(name) {
        var regionID := ParseDataFileName(name);
        if regionID.None? { return Err(name); }
        assert StoredUnder(dir, regionID.value, dir[name]);
        regions := regions[regionID.value := dir[name]];
      }
    }
    return Ok(regions);
  }

  // ---- Lemmas ----

  lemma {:induction false} DecimalRoundTrip(n: nat)
    ensures DecimalValue(Digits(n)) == n
  {
    if n < 10 {
      assert Digits(n)[..0] == "";
    } else {
      DecimalRoundTrip(n / 10);
      assert Digits(n)[..|Digits(n)| - 1] == Digits(n / 10);
    }
  }

  lemma {:induction false} LeadingZeros(k: nat, s: string)
    requires AllDigits(s)
    ensures AllDigits(Zeros(k) + s)
    ensures DecimalValue(Zeros(k) + s) == DecimalValue(s)
  {
    if s == "" {
      if k > 0 {
        LeadingZeros(k - 1, "");
        assert (Zeros(k) + "")[..k - 1] == Zeros(k - 1) + "";
      }
    } else {
      LeadingZeros(k, s[..|s| - 1]);
      assert (Zeros(k) + s)[..k + |s| - 1] == Zeros(k) + s[..|s| - 1];
    }
  }

  lemma {:induction false} SplitNone(p: string)
    requires forall i :: 0 <= i < |p| ==> p[i] != '.'
    ensures Split(p) == [p]
  {
    if p != "" {
      SplitNone(p[1..]);
      assert [p[0]] + p[1..] == p;
    }
  }

  lemma {:induction false} SplitOne(p: string)
    requires forall i :: 0 <= i < |p| ==> p[i] != '.'
    ensures Split(p + FILE_EXTENSION) == [p, "wdb"]
  {
    if p == "" {
      assert p + FILE_EXTENSION == FILE_EXTENSION;
      assert FILE_EXTENSION[1..] == "wdb";
      SplitNone("wdb");
    } else {
      SplitOne(p[1..]);
      assert (p + FILE_EXTENSION)[1..] == p[1..] + FILE_EXTENSION;
      assert [p[0]] + p[1..] == p;
    }
  }

  lemma {:induction false} SplitMore(p: string)
    ensures |Split(p + FILE_EXTENSION)| >= 2
    ensures (exists i :: 0 <= i < |p| && p[i] == '.') ==> |Split(p + FILE_EXTENSION)| >= 3
  {
    if p == "" {
      SplitOne(p);
    } else {
      SplitMore(p[1..]);
      assert (p + FILE_EXTENSION)[1..] == p[1..] + FILE_EXTENSION;
      if p[0] != '.' && exists i :: 0 <= i < |p| && p[i] == '.' {
        var i :| 0 <= i < |p| && p[i] == '.';
        assert p[1..][i - 1] == '.';
      }
    }
  }

  // The numeric part of a formatted name.
  function Stem(number: uint64): string {
    var s := Digits(number);
    if |s| < 10 then Zeros(10 - |s|) + s else s
  }

  // Parsing inverts formatting on every id.
  lemma ParseInvertsFormat(id: uint64)
    ensures ParseDataFileName(FormatDataFileName(id)) == Some(id)
  {
    var s := Digits(id);
    DecimalRoundTrip(id);
    if |s| < 10 { LeadingZeros(10 - |s|, s); }
    SplitOne(Stem(id));
  }

  // A name that starts with 0 and ends in .wdb parses exactly if there is nothing but digits before the extension, and
  // they make up a number of 64 bits.
  lemma {:induction false} AcceptedNames(stem: string)
    requires IsRegionFile(stem + ".wdb")
    ensures var id := ParseDataFileName(stem + ".wdb");
            var digits := forall i :: 0 <= i < |stem| ==> '0' <= stem[i] <= '9';
            && (id.Some? <==> digits && DecimalValue(stem) < 0x1_0000_0000_0000_0000)
            && (id.Some? ==> id.value == DecimalValue(stem))
  {
    assert stem != "";
    if exists i :: 0 <= i < |stem| && stem[i] == '.' {
      SplitMore(stem);
    } else {
      SplitOne(stem);
    }
  }

  function Pow10(k: nat): (p: nat)
    ensures p > 0
  {
    if k == 0 then 1 else 10 * Pow10(k - 1)
  }

  lemma {:induction false} DigitCount(n: nat, k: nat)
    requires k > 0
    ensures |Digits(n)| <= k <==> n < Pow10(k)
  {
    if k == 1 {
      assert Pow10(1) == 10;
    } else if n >= 10 {
      DigitCount(n / 10, k - 1);
    } else {
      assert Pow10(k - 1) >= 1;
    }
  }

  // A name can be generated exactly for the ids below one billion.
  lemma GeneratedNames(id: uint64)
    ensures GenerateFileName(id).Some? <==> id < REGION_LIMIT
    ensures id < REGION_LIMIT ==> IsRegionFile(FormatDataFileName(id))
  {
    DigitCount(id, 9);
    assert Pow10(3) == 1000;
    assert Pow10(6) == 1000 * Pow10(3);
    assert Pow10(9) == 1000 * Pow10(6);
    var s, name := Digits(id), FormatDataFileName(id);
    if id < REGION_LIMIT {
      assert name[0] == '0';
      assert name[|name| - 4..] == FILE_EXTENSION;
    } else {
      assert name[0] == s[0];
    }
  }

  lemma {:induction false} DigitFromEnd(n: nat, i: nat)
    requires i < |Digits(n)|
    ensures Digits(n)[|Digits(n)| - 1 - i] as int == 48 + n / Pow10(i) % 10
  {
    if n >= 10 && i > 0 {
      DigitFromEnd(n / 10, i - 1);
      DivideByTen(n, Pow10(i - 1));
    }
  }

  lemma DivideByTen(n: nat, b: nat)
    requires b > 0
    ensures n / (10 * b) == n / 10 / b
  {
    var q := n / 10;
    var q2, r2 := q / b, q % b;
    assert q == b * q2 + r2;
    var p := b * q2;
    assert n == 10 * p + (10 * r2 + n % 10);
    assert (10 * b) * q2 == 10 * p;
    DivisionIs(n, 10 * b, q2, 10 * r2 + n % 10);
  }

  // The name of a region, character by character: ten decimal digits and the extension.
  lemma FileNameTable(id: uint64)
    requires id < 1_000_000_000
    ensures var name := FormatDataFileName(id);
            && |name| == 14 && name[10..] == ".wdb"
            && forall i :: 0 <= i < 10 ==> name[9 - i] as int == 48 + id / Pow10(i) % 10
  {
    var s, name := Digits(id), FormatDataFileName(id);
    NineDigits(id);
    forall i | 0 <= i < 10 ensures name[9 - i] as int == 48 + id / Pow10(i) % 10 {
      if i < |s| {
        DigitFromEnd(id, i);
      } else {
        DigitCount(id, i);
        assert id / Pow10(i) == 0 by { DivisionIs(id, Pow10(i), 0, id); }
      }
    }
  }

  lemma {:induction false} NineDigits(n: nat)
    requires n < 1_000_000_000
    ensures |Digits(n)| <= 9
  {
    DigitCount(n, 9);
    assert Pow10(3) == 1000;
    assert Pow10(6) == 1000 * Pow10(3);
    assert Pow10(9) == 1000 * Pow10(6);
  }

  lemma SnapshotIsNoRegion()
    ensures !IsRegionFile(INDEX_FILE_NAME)
  {
    assert INDEX_FILE_NAME[0] == 'i';
  }

  function RegionNames(files: map<uint64, seq<byte>>): (names: set<string>)
    ensures forall name :: name in names ==>
              ParseDataFileName(name).Some? && ParseDataFileName(name).value in files
  {
    var names := set id | id in files :: FormatDataFileName(id);
    assert forall name :: name in names ==>
             ParseDataFileName(name).Some? && ParseDataFileName(name).value in files by {
      forall name | name in names
        ensures ParseDataFileName(name).Some? && ParseDataFileName(name).value in files
      {
        var id :| id in files && FormatDataFileName(id) == name;
        ParseInvertsFormat(id);
      }
    }
    names
  }

  // The directory a store with these region files, and maybe a snapshot, leaves behind.
  function DirectoryOf(files: map<uint64, seq<byte>>, snapshot: Option<seq<byte>>): Directory {
    var regions := map name | name in RegionNames(files) :: files[ParseDataFileName(name).value];
    if snapshot.Some? then regions[INDEX_FILE_NAME := snapshot.value] else regions
  }

  lemma RegionInDirectory(files: map<uint64, seq<byte>>, snapshot: Option<seq<byte>>, name: string)
    requires name in DirectoryOf(files, snapshot) && IsRegionFile(name)
    ensures var id := ParseDataFileName(name);
            id.Some? && id.value in files && files[id.value] == DirectoryOf(files, snapshot)[name]
  {
    SnapshotIsNoRegion();
  }

  lemma DirectoryHolds(files: map<uint64, seq<byte>>, snapshot: Option<seq<byte>>, id: uint64)
    requires id in files && id < REGION_LIMIT
    ensures FormatDataFileName(id) in DirectoryOf(files, snapshot)
    ensures IsRegionFile(FormatDataFileName(id)) && ParseDataFileName(FormatDataFileName(id)) == Some(id)
  {
    ParseInvertsFormat(id);
    GeneratedNames(id);
  }

  lemma DirectoryRecovers(files: map<uint64, seq<byte>>, snapshot: Option<seq<byte>>)
    requires forall id :: id in files ==> id < REGION_LIMIT
    ensures Recovers(DirectoryOf(files, snapshot), files)
  {
    var dir := DirectoryOf(files, snapshot);
    forall name | name in dir && IsRegionFile(name)
      ensures ParseDataFileName(name).Some? && ParseDataFileName(name).value in files
    {
      RegionInDirectory(files, snapshot, name);
    }
    forall id | id in files ensures StoredUnder(dir, id, files[id]) {
      DirectoryHolds(files, snapshot, id);
      RegionInDirectory(files, snapshot, FormatDataFileName(id));
    }
  }

  // A directory with one file per id gives one region map.
  lemma RecoversOnce(dir: Directory, a: map<uint64, seq<byte>>, b: map<uint64, seq<byte>>)
    requires Recovers(dir, a) && Recovers(dir, b)
    requires forall id, x, y :: StoredUnder(dir, id, x) && StoredUnder(dir, id, y) ==> x == y
    ensures a == b
  {
    forall id ensures id in a <==> id in b {
      if id in a { assert StoredUnder(dir, id, a[id]); }
      if id in b { assert StoredUnder(dir, id, b[id]); }
    }
  }

  // Recovery finds exactly the region files the store created, and never mistakes the snapshot for one.
  lemma RecoveredFiles(files: map<uint64, seq<byte>>, snapshot: Option<seq<byte>>, recovered: map<uint64, seq<byte>>)
    requires forall id :: id in files ==> id < REGION_LIMIT
    ensures Recovers(DirectoryOf(files, snapshot), recovered) <==> recovered == files
  {
    DirectoryRecovers(files, snapshot);
    if Recovers(DirectoryOf(files, snapshot), recovered) {
      var dir := DirectoryOf(files, snapshot);
      forall id, x, y | StoredUnder(dir, id, x) && StoredUnder(dir, id, y) ensures x == y {
        StoredValue(files, snapshot, id, x);
        StoredValue(files, snapshot, id, y);
      }
      RecoversOnce(dir, recovered, files);
    }
  }

  lemma StoredValue(files: map<uint64, seq<byte>>, snapshot: Option<seq<byte>>, id: uint64, bytes: seq<byte>)
    requires StoredUnder(DirectoryOf(files, snapshot), id, bytes)
    ensures id in files && files[id] == bytes
  {
    var dir := DirectoryOf(files, snapshot);
    var name :| name in dir && IsRegionFile(name) && ParseDataFileName(name) == Some(id) && dir[name] == bytes;
    RegionInDirectory(files, snapshot, name);
  }

  // Recovery never fails on such a directory.
  lemma RecoveryParses(files: map<uint64, seq<byte>>, snapshot: Option<seq<byte>>)
    ensures forall name :: name in DirectoryOf(files, snapshot) && IsRegionFile(name) ==> ParseDataFileName(name).Some?
  {
    forall name | name in DirectoryOf(files, snapshot) && IsRegionFile(name)
      ensures ParseDataFileName(name).Some?
    {
      RegionInDirectory(files, snapshot, name);
    }
  }
}
