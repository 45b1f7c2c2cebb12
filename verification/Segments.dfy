// One record of a region file (vfs/segment.go) and its codec (serializedSegment, readSegment in vfs/lfs.go).
// Two bytes for the tombstone flag and the kind, two times of eight bytes, two lengths of four, then the key, the
// value and a checksum of four bytes over everything before it.

module Segments {
  import opened Wrappers
  import opened Bytes

  const HEADER_SIZE := 26
  const KIND_UNKNOWN: int8 := 6

  // The digest functions the store calls: murmur3 over a key, CRC-32 over a record. Nothing is assumed of them.
  datatype Digests = Digests(inodeNum: seq<byte> -> uint64, crc32: seq<byte> -> uint32)

  // The inverse of the value transformer, as readSegment uses it.
  type Decoder = seq<byte> -> Option<seq<byte>>

  // The transformer without codecs.
  const IDENTITY: Decoder := v => Some(v)

  datatype ReadError = ShortRead | ChecksumMismatch | DecodeFailed

  datatype Segment = Segment(
    tombstone: int8, kind: int8, expiredAt: uint64, createdAt: uint64,
    keySize: uint32, valueSize: uint32, key: seq<byte>, value: seq<byte>)
  {
    predicate IsTombstone() {
      tombstone == 1
    }

    // uint32 arithmetic: wraps around.
    function Size(): uint32 {
      (26 + keySize + valueSize + 4) % U32
    }

    // The length fields tell the truth.
    predicate Consistent() {
      keySize == |key| && valueSize == |value|
    }

    // Consistent, and small enough for Size not to wrap.
    predicate WellFormed() {
      Consistent() && 30 + |key| + |value| < U32
    }
  }

  // NewSegment once the value is encoded; the length conversions to uint32 truncate.
  function NewSegment(key: seq<byte>, kind: int8, encoded: seq<byte>, createdAt: uint64, expiredAt: uint64): Segment {
    Segment(0, kind, expiredAt, createdAt, |key| % U32, |encoded| % U32, key, encoded)
  }

  function NewTombstoneSegment(key: seq<byte>, createdAt: uint64): Segment {
    Segment(1, KIND_UNKNOWN, 0, createdAt, |key| % U32, 0, key, [])
  }

  predicate Expired(expiredAt: uint64, now: nat) {
    expiredAt <= now && expiredAt != 0
  }

  function Header(seg: Segment): (h: seq<byte>)
    ensures |h| == HEADER_SIZE
  {
    [Int8ToByte(seg.tombstone)] + [Int8ToByte(seg.kind)] + Put64(seg.expiredAt) + Put64(seg.createdAt)
    + Put32(seg.keySize) + Put32(seg.valueSize)
  }

  function Serialize(d: Digests, seg: Segment): (s: seq<byte>)
    ensures |s| == 30 + |seg.key| + |seg.value|
  {
    var body := Header(seg) + seg.key + seg.value;
    body + Put32(d.crc32(body))
  }

  // The fields of a 26-byte header, with key and value still to be read.
  function ParseHeader(h: seq<byte>): Segment
    requires |h| == HEADER_SIZE
  {
    Segment(ByteToInt8(h[0]), ByteToInt8(h[1]), Get64(h[2..10]), Get64(h[10..18]),
            Get32(h[18..22]), Get32(h[22..26]), [], [])
  }

  // The record stored at an offset, before its value is decoded.
  function ReadRaw(d: Digests, file: seq<byte>, offset: nat): (r: Result<Segment, ReadError>)
    ensures r.Ok? ==> r.value.Consistent() && offset + 30 <= |file|
  {
    if offset + HEADER_SIZE > |file| then Err(ShortRead) else
      var h := ParseHeader(file[offset..offset + HEADER_SIZE]);
      var keyAt := offset + HEADER_SIZE;
      var valueAt := keyAt + h.keySize;
      var sumAt := valueAt + h.valueSize;
      if sumAt + 4 > |file| then Err(ShortRead)
      else if Get32(file[sumAt..sumAt + 4]) != d.crc32(file[offset..sumAt]) then Err(ChecksumMismatch)
      else Ok(h.(key := file[keyAt..valueAt], value := file[valueAt..sumAt]))
  }

  // The record with its value decoded, as readSegment returns it; its inode number is that of the stored key.
  function ReadDecoded(d: Digests, decode: Decoder, file: seq<byte>, offset: nat): Result<Segment, ReadError> {
    match ReadRaw(d, file, offset)
    case Err(e) => Err(e)
    case Ok(raw) =>
      match decode(raw.value)
      case None => Err(DecodeFailed)
      case Some(v) => Ok(raw.(value := v))
  }

  // The bytes of a record, place by place.
  predicate IsRecord(d: Digests, seg: Segment, s: seq<byte>) {
    var valueAt, sumAt := 26 + |seg.key|, 26 + |seg.key| + |seg.value|;
    && |s| == sumAt + 4
    && s[0] == (seg.tombstone + 256) % 256 && s[1] == (seg.kind + 256) % 256
    && HoldsAt(s, 2, seg.expiredAt, 8) && HoldsAt(s, 10, seg.createdAt, 8)
    && HoldsAt(s, 18, seg.keySize, 4) && HoldsAt(s, 22, seg.valueSize, 4)
    && s[26..valueAt] == seg.key && s[valueAt..sumAt] == seg.value
    && HoldsAt(s, sumAt, d.crc32(s[..sumAt]), 4)
  }

  method SerializedSegment(d: Digests, seg: Segment) returns (buf: seq<byte>)
    ensures buf == Serialize(d, seg) && IsRecord(d, seg, buf)
  {
    RecordTable(d, seg, Serialize(d, seg));
    buf := [Int8ToByte(seg.tombstone)];
    buf := buf + [Int8ToByte(seg.kind)];
    buf := buf + Put64(seg.expiredAt);
    buf := buf + Put64(seg.createdAt);
    buf := buf + Put32(seg.keySize);
    buf := buf + Put32(seg.valueSize);
    buf := buf + seg.key;
    buf := buf + seg.value;
    var checksum := d.crc32(buf);
    buf := buf + Put32(checksum);
  }

  lemma Adjacent(file: seq<byte>, i: nat, j: nat, k: nat)
    requires i <= j <= k <= |file|
    ensures file[i..j] + file[j..k] == file[i..k]
  {
  }

  // os.File.ReadAt: all n bytes or an error.
  method ReadAt(file: seq<byte>, offset: nat, n: nat) returns (r: Result<seq<byte>, ReadError>)
    ensures r.Ok? <==> offset + n <= |file|
    ensures r.Ok? ==> r.value == file[offset..offset + n]
    ensures r.Err? ==> r.error == ShortRead
  {
    r := if offset + n <= |file| then Ok(file[offset..offset + n]) else Err(ShortRead);
  }

  method ReadSegment(d: Digests, decode: Decoder, file: seq<byte>, offset: nat)
    returns (inum: uint64, r: Result<Segment, ReadError>)
    ensures r == ReadDecoded(d, decode, file, offset)
    ensures r.Ok? ==> ReadRaw(d, file, offset).Ok? && inum == d.inodeNum(ReadRaw(d, file, offset).value.key)
  {
    inum := 0;
    var head := ReadAt(file, offset, HEADER_SIZE);
    if head.Err? { return inum, Err(head.error); }
    var buf := head.value;
    var seg := ParseHeader(buf);
    var readOffset := HEADER_SIZE;

    var keybuf := ReadAt(file, offset + readOffset, seg.keySize);
    if keybuf.Err? { return inum, Err(keybuf.error); }
    readOffset := readOffset + seg.keySize;

    var valuebuf := ReadAt(file, offset + readOffset, seg.valueSize);
    if valuebuf.Err? { return inum, Err(valuebuf.error); }
    readOffset := readOffset + seg.valueSize;

    var checksumBuf := ReadAt(file, offset + readOffset, 4);
    if checksumBuf.Err? { return inum, Err(checksumBuf.error); }

    buf := buf + keybuf.value + valuebuf.value;
    Adjacent(file, offset, offset + HEADER_SIZE, offset + HEADER_SIZE + seg.keySize);
    Adjacent(file, offset, offset + HEADER_SIZE + seg.keySize, offset + readOffset);
    if Get32(checksumBuf.value) != d.crc32(buf) { return inum, Err(ChecksumMismatch); }

    var decoded := decode(valuebuf.value);
    if decoded.None? { return inum, Err(DecodeFailed); }
    return d.inodeNum(keybuf.value), Ok(seg.(key := keybuf.value, value := decoded.value));
  }

  // Size counts the bytes written exactly when the record stays under 4 GiB.
  lemma SizeIsBytesWritten(d: Digests, key: seq<byte>, kind: int8, encoded: seq<byte>, createdAt: uint64,
                           expiredAt: uint64)
    ensures var seg := NewSegment(key, kind, encoded, createdAt, expiredAt);
            && (seg.Size() == |Serialize(d, seg)| <==> 30 + |key| + |encoded| < U32)
            && (seg.WellFormed() <==> 30 + |key| + |encoded| < U32)
            && seg.Size() == (30 + |key| + |encoded|) % 0x1_0000_0000
  {
    var seg := NewSegment(key, kind, encoded, createdAt, expiredAt);
    var total := 30 + |key| + |encoded|;
    assert |Serialize(d, seg)| == total;
    hide Serialize;
    SumsWrap(|key|, |encoded|);
    Wraps(total);
    Wraps(|key|);
    Wraps(|encoded|);
  }

  lemma Wraps(n: nat)
    ensures n % U32 == n <==> n < U32
  {
  }

  lemma SumsWrap(a: nat, b: nat)
    ensures (26 + a % U32 + b % U32 + 4) % U32 == (30 + a + b) % U32
  {
    var x, y := a / U32, b / U32;
    assert 30 + a + b == 26 + a % U32 + b % U32 + 4 + U32 * (x + y);
  }

  lemma HeaderParts(seg: Segment)
    ensures var h := Header(seg);
            && h[0] == Int8ToByte(seg.tombstone) && h[1] == Int8ToByte(seg.kind)
            && h[2..10] == Put64(seg.expiredAt) && h[10..18] == Put64(seg.createdAt)
            && h[18..22] == Put32(seg.keySize) && h[22..26] == Put32(seg.valueSize)
  {
  }

  lemma HeaderRoundTrip(seg: Segment)
    ensures ParseHeader(Header(seg)) == seg.(key := [], value := [])
  {
    HeaderParts(seg);
  }

  lemma HeaderOfBytes(h: seq<byte>)
    requires |h| == HEADER_SIZE
    ensures Header(ParseHeader(h)) == h
  {
    Put64Get64(h[2..10]);
    Put64Get64(h[10..18]);
    Put32Get32(h[18..22]);
    Put32Get32(h[22..26]);
    assert h == [h[0]] + [h[1]] + h[2..10] + h[10..18] + h[18..22] + h[22..26];
  }

  lemma SliceInside(pre: seq<byte>, x: seq<byte>, post: seq<byte>, i: nat, j: nat)
    requires i <= j <= |x|
    ensures (pre + x + post)[|pre| + i..|pre| + j] == x[i..j]
  {
  }

  lemma RecordParts(d: Digests, seg: Segment)
    ensures var s := Serialize(d, seg);
            var body := Header(seg) + seg.key + seg.value;
            var valueAt := HEADER_SIZE + |seg.key|;
            && s[..HEADER_SIZE] == Header(seg)
            && s[HEADER_SIZE..valueAt] == seg.key
            && s[valueAt..|body|] == seg.value
            && s[..|body|] == body
            && s[|body|..|body| + 4] == Put32(d.crc32(body))
  {
    var body := Header(seg) + seg.key + seg.value;
    var s := Serialize(d, seg);
    assert s[..|body|] == body;
    assert s[..HEADER_SIZE] == body[..HEADER_SIZE];
    assert s[HEADER_SIZE..HEADER_SIZE + |seg.key|] == body[HEADER_SIZE..HEADER_SIZE + |seg.key|];
  }

  lemma HeaderTable(seg: Segment)
    ensures var h := Header(seg);
            && h[0] == (seg.tombstone + 256) % 256 && h[1] == (seg.kind + 256) % 256
            && HoldsAt(h, 2, seg.expiredAt, 8) && HoldsAt(h, 10, seg.createdAt, 8)
            && HoldsAt(h, 18, seg.keySize, 4) && HoldsAt(h, 22, seg.valueSize, 4)
  {
    var h := Header(seg);
    HeaderParts(seg);
    hide HoldsAt, Header, Put64, Put32;
    Slice64(h, 2, seg.expiredAt);
    Slice64(h, 10, seg.createdAt);
    Slice32(h, 18, seg.keySize);
    Slice32(h, 22, seg.valueSize);
  }

  lemma HoldsOn(s: seq<byte>, t: seq<byte>, at: nat, n: nat, w: nat)
    requires HoldsAt(s, at, n, w) && s <= t
    ensures HoldsAt(t, at, n, w)
  {
    forall i | 0 <= i < w ensures t[at + i] == n / Pow256(i) % 256 {
      assert t[at + i] == s[at + i];
    }
  }

  lemma SerializeTable(d: Digests, seg: Segment)
    ensures IsRecord(d, seg, Serialize(d, seg))
  {
    var h, s := Header(seg), Serialize(d, seg);
    var body := h + seg.key + seg.value;
    RecordParts(d, seg);
    HeaderTable(seg);
    hide HoldsAt, Header;
    assert h <= s;
    HoldsOn(h, s, 2, seg.expiredAt, 8);
    HoldsOn(h, s, 10, seg.createdAt, 8);
    HoldsOn(h, s, 18, seg.keySize, 4);
    HoldsOn(h, s, 22, seg.valueSize, 4);
    var sum := Put32(d.crc32(body));
    Put32Holds(d.crc32(body));
    HoldsInside(body, sum, [], d.crc32(body), 4);
    assert s == body + sum + [];
  }

  lemma SameHead(s: seq<byte>, t: seq<byte>)
    requires |s| >= 26 && |t| >= 26 && s[0] == t[0] && s[1] == t[1]
    requires s[2..10] == t[2..10] && s[10..18] == t[10..18] && s[18..22] == t[18..22] && s[22..26] == t[22..26]
    ensures s[..26] == t[..26]
  {
    assert s[..26] == [s[0]] + [s[1]] + s[2..10] + s[10..18] + s[18..22] + s[22..26];
    assert t[..26] == [t[0]] + [t[1]] + t[2..10] + t[10..18] + t[18..22] + t[22..26];
  }

  lemma SameParts(s: seq<byte>, t: seq<byte>, i: nat, j: nat, k: nat)
    requires i <= j <= k <= |s| && k <= |t| && s[..i] == t[..i] && s[i..j] == t[i..j] && s[j..k] == t[j..k]
    ensures s[..k] == t[..k]
  {
    assert s[..k] == s[..i] + s[i..j] + s[j..k] && t[..k] == t[..i] + t[i..j] + t[j..k];
  }

  // A byte string is the serialization of a segment exactly when it has these bytes in these places.
  lemma RecordTable(d: Digests, seg: Segment, s: seq<byte>)
    ensures s == Serialize(d, seg) <==> IsRecord(d, seg, s)
  {
    SerializeTable(d, seg);
    if IsRecord(d, seg, s) { OneRecord(d, seg, s, Serialize(d, seg)); }
  }

  lemma OneRecord(d: Digests, seg: Segment, s: seq<byte>, t: seq<byte>)
    requires IsRecord(d, seg, s) && IsRecord(d, seg, t)
    ensures s == t
  {
    var valueAt, sumAt := 26 + |seg.key|, 26 + |seg.key| + |seg.value|;
    hide HoldsAt;
    SameHolding(s, t, 2, seg.expiredAt, 8);
    SameHolding(s, t, 10, seg.createdAt, 8);
    SameHolding(s, t, 18, seg.keySize, 4);
    SameHolding(s, t, 22, seg.valueSize, 4);
    SameHead(s, t);
    SameParts(s, t, 26, valueAt, sumAt);
    SameHolding(s, t, sumAt, d.crc32(s[..sumAt]), 4);
    assert s == s[..sumAt] + s[sumAt..sumAt + 4] && t == t[..sumAt] + t[sumAt..sumAt + 4];
  }

  // The record of a delete: flag 1, kind 6, no expiry, no value.
  lemma TombstoneTable(d: Digests, key: seq<byte>, createdAt: uint64)
    requires 30 + |key| < U32
    ensures var s := Serialize(d, NewTombstoneSegment(key, createdAt));
            && |s| == 30 + |key| && s[0] == 1 && s[1] == 6
            && (forall i :: 2 <= i < 10 || 22 <= i < 26 ==> s[i] == 0)
            && HoldsAt(s, 10, createdAt, 8) && HoldsAt(s, 18, |key|, 4) && s[26..26 + |key|] == key
            && HoldsAt(s, 26 + |key|, d.crc32(s[..26 + |key|]), 4)
  {
    var seg := NewTombstoneSegment(key, createdAt);
    var s := Serialize(d, seg);
    SerializeTable(d, seg);
    hide HoldsAt, Serialize;
    HoldsZero(s, 2, 8);
    HoldsZero(s, 22, 4);
  }

  // The errors of a read: the file ends before the record does, or the stored checksum is not that of the bytes before
  // it. keySize, valueSize: the lengths stored at the offset.
  lemma ReadErrors(d: Digests, file: seq<byte>, offset: nat, keySize: uint32, valueSize: uint32)
    requires HoldsAt(file, offset + 18, keySize, 4) && HoldsAt(file, offset + 22, valueSize, 4)
    ensures var sumAt := offset + 26 + keySize + valueSize;
            match ReadRaw(d, file, offset)
            case Err(e) =>
              && (e == ShortRead <==> sumAt + 4 > |file|)
              && (e == ChecksumMismatch <==>
                    sumAt + 4 <= |file| && !HoldsAt(file, sumAt, d.crc32(file[offset..sumAt]), 4))
            case Ok(_) => sumAt + 4 <= |file| && HoldsAt(file, sumAt, d.crc32(file[offset..sumAt]), 4)
  {
    StoredLengths(file, offset, keySize, valueSize);
    hide ParseHeader, HoldsAt;
    var sumAt := offset + 26 + keySize + valueSize;
    if sumAt + 4 <= |file| { StoredNumber(file, sumAt, d.crc32(file[offset..sumAt])); }
  }

  lemma StoredLengths(file: seq<byte>, offset: nat, keySize: uint32, valueSize: uint32)
    requires HoldsAt(file, offset + 18, keySize, 4) && HoldsAt(file, offset + 22, valueSize, 4)
    ensures offset + 26 <= |file|
    ensures var h := ParseHeader(file[offset..offset + HEADER_SIZE]); h.keySize == keySize && h.valueSize == valueSize
  {
    var h := file[offset..offset + HEADER_SIZE];
    hide HoldsAt, Get32, Get64, ByteToInt8;
    HoldsWithin(file, offset + 22, valueSize, 4);
    StoredNumber(file, offset + 18, keySize);
    StoredNumber(file, offset + 22, valueSize);
    assert h[18..22] == file[offset + 18..offset + 22] && h[22..26] == file[offset + 22..offset + 26];
  }

  lemma HoldsWithin(s: seq<byte>, at: nat, n: nat, w: nat)
    requires HoldsAt(s, at, n, w)
    ensures at + w <= |s|
  {
  }

  lemma StoredNumber(s: seq<byte>, at: nat, n: uint32)
    requires at + 4 <= |s|
    ensures HoldsAt(s, at, n, 4) <==> Get32(s[at..at + 4]) == n
  {
    var x := s[at..at + 4];
    Put32Holds(n);
    if HoldsAt(s, at, n, 4) {
      forall i | 0 <= i < 4 ensures x[i] == Put32(n)[i] {
        assert x[i] == s[at + i] == n / Pow256(i) % 256 == Put32(n)[0 + i];
      }
      assert x == Put32(n);
    }
    if Get32(x) == n {
      Put32Get32(x);
      HoldsInside(s[..at], x, s[at + 4..], n, 4);
      assert s == s[..at] + x + s[at + 4..];
    }
  }

  // What was written is read back, wherever it lies in the file.
  lemma ReadBack(d: Digests, pre: seq<byte>, seg: Segment, post: seq<byte>)
    requires seg.Consistent()
    ensures ReadRaw(d, pre + Serialize(d, seg) + post, |pre|) == Ok(seg)
  {
    var body := Header(seg) + seg.key + seg.value;
    var s := Serialize(d, seg);
    var valueAt := HEADER_SIZE + |seg.key|;
    RecordParts(d, seg);
    SliceInside(pre, s, post, 0, HEADER_SIZE);
    SliceInside(pre, s, post, HEADER_SIZE, valueAt);
    SliceInside(pre, s, post, valueAt, |body|);
    SliceInside(pre, s, post, 0, |body|);
    SliceInside(pre, s, post, |body|, |body| + 4);
    HeaderRoundTrip(seg);
  }

  // Conversely, whatever the reader accepts is the serialization of the record it returns.
  lemma ReadIsExact(d: Digests, file: seq<byte>, offset: nat)
    requires ReadRaw(d, file, offset).Ok?
    ensures var seg := ReadRaw(d, file, offset).value;
            var end := offset + |Serialize(d, seg)|;
            end <= |file| && file[offset..end] == Serialize(d, seg)
  {
    var seg := ReadRaw(d, file, offset).value;
    var h := file[offset..offset + HEADER_SIZE];
    var valueAt := offset + HEADER_SIZE + seg.keySize;
    var sumAt := valueAt + seg.valueSize;
    HeaderOfBytes(h);
    assert Header(seg) == Header(ParseHeader(h));
    Adjacent(file, offset, offset + HEADER_SIZE, valueAt);
    Adjacent(file, offset, valueAt, sumAt);
    var body := Header(seg) + seg.key + seg.value;
    assert body == file[offset..sumAt];
    var sum := file[sumAt..sumAt + 4];
    Put32Get32(sum);
    assert Serialize(d, seg) == body + sum;
    Adjacent(file, offset, sumAt, sumAt + 4);
  }

  // The reader accepts an offset exactly when a consistent record is stored there and its value decodes.
  lemma ReaderAccepts(d: Digests, decode: Decoder, file: seq<byte>, offset: nat)
    ensures ReadDecoded(d, decode, file, offset).Ok? <==>
            exists seg: Segment :: seg.Consistent() && decode(seg.value).Some?
              && offset + |Serialize(d, seg)| <= |file|
              && file[offset..offset + |Serialize(d, seg)|] == Serialize(d, seg)
  {
    if ReadDecoded(d, decode, file, offset).Ok? {
      ReadIsExact(d, file, offset);
    }
    forall seg: Segment | seg.Consistent() && decode(seg.value).Some?
                          && offset + |Serialize(d, seg)| <= |file|
                          && file[offset..offset + |Serialize(d, seg)|] == Serialize(d, seg)
      ensures ReadDecoded(d, decode, file, offset).Ok?
    {
      var end := offset + |Serialize(d, seg)|;
      assert file == file[..offset] + Serialize(d, seg) + file[end..];
      ReadBack(d, file[..offset], seg, file[end..]);
    }
  }
}
