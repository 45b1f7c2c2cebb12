// The value transformer (vfs/transformer.go): compress, then encrypt, each switched by a flag; decoding undoes both.

module Transformer {
  import opened Wrappers
  import opened Bytes

  const BLOCK_SIZE := 16
  const ENABLED_ENCRYPTION: bv64 := 1
  const ENABLED_COMPRESSION: bv64 := 2

  type Block = s: seq<byte> | |s| == BLOCK_SIZE witness [0, 0, 0, 0, 0, 0, 0, 0, 0, 0, 0, 0, 0, 0, 0, 0]

  // ---- Exclusive or ----

  function XorBits(a: nat, b: nat, w: nat): nat {
    if w == 0 then 0 else (if a % 2 == b % 2 then 0 else 1) + 2 * XorBits(a / 2, b / 2, w - 1)
  }

  function Pow2(w: nat): (p: nat)
    ensures p > 0
  {
    if w == 0 then 1 else 2 * Pow2(w - 1)
  }

  lemma {:induction false} XorBelow(a: nat, b: nat, w: nat)
    ensures XorBits(a, b, w) < Pow2(w)
  {
    if w > 0 { XorBelow(a / 2, b / 2, w - 1); }
  }

  // Xor with the same bits twice changes nothing.
  lemma {:induction false} XorTwice(a: nat, b: nat, w: nat)
    requires a < Pow2(w)
    ensures XorBits(XorBits(a, b, w), b, w) == a
  {
    if w > 0 {
      XorTwice(a / 2, b / 2, w - 1);
      var low, rest := if a % 2 == b % 2 then 0 else 1, XorBits(a / 2, b / 2, w - 1);
      assert (low + 2 * rest) % 2 == low && (low + 2 * rest) / 2 == rest;
    }
  }

  lemma EightBits()
    ensures Pow2(8) == U8
  {
    assert Pow2(3) == 8;
    assert Pow2(6) == 8 * Pow2(3);
  }

  function Xor(a: byte, b: byte): byte {
    EightBits();
    XorBelow(a, b, 8);
    XorBits(a, b, 8)
  }

  function XorBlock(a: Block, b: Block): Block {
    seq(BLOCK_SIZE, i requires 0 <= i < BLOCK_SIZE => Xor(a[i], b[i]))
  }

  lemma XorBlockTwice(a: Block, b: Block)
    ensures XorBlock(XorBlock(a, b), b) == a
  {
    EightBits();
    forall i | 0 <= i < BLOCK_SIZE ensures XorBlock(XorBlock(a, b), b)[i] == a[i] {
      XorTwice(a[i], b[i], 8);
    }
  }

  predicate Bit(n: nat, i: nat) {
    n / Pow2(i) % 2 == 1
  }

  lemma {:induction false} XorBitsAt(a: nat, b: nat, w: nat, i: nat)
    requires i < w
    ensures Bit(XorBits(a, b, w), i) <==> Bit(a, i) != Bit(b, i)
  {
    var low, rest := if a % 2 == b % 2 then 0 else 1, XorBits(a / 2, b / 2, w - 1);
    var x := low + 2 * rest;
    assert XorBits(a, b, w) == x && x % 2 == low && x / 2 == rest;
    if i > 0 {
      XorBitsAt(a / 2, b / 2, w - 1, i - 1);
      Halve(x, i);
      Halve(a, i);
      Halve(b, i);
    } else {
      assert Pow2(0) == 1;
    }
  }

  lemma Halve(n: nat, i: nat)
    requires i > 0
    ensures Bit(n, i) <==> Bit(n / 2, i - 1)
  {
    var p, q := Pow2(i - 1), n / 2;
    var q2, r2 := q / p, q % p;
    assert q == p * q2 + r2;
    var t := p * q2;
    assert n == 2 * t + (2 * r2 + n % 2);
    assert (2 * p) * q2 == 2 * t;
    DivisionIs(n, 2 * p, q2, 2 * r2 + n % 2);
  }

  // Exactly one of the two bits.
  lemma XorIs(a: byte, b: byte, i: nat)
    requires i < 8
    ensures Bit(Xor(a, b), i) <==> Bit(a, i) != Bit(b, i)
  {
    XorBitsAt(a, b, 8, i);
  }

  // ---- Cipher block chaining (NIST SP 800-38A, section 6.2) ----

  // A block cipher under a key; Invertible is all that is assumed of it.
  datatype BlockCipher = BlockCipher(encrypt: (seq<byte>, Block) -> Block, decrypt: (seq<byte>, Block) -> Block)

  ghost predicate Invertible(aes: BlockCipher) {
    forall key: seq<byte>, b: Block :: aes.decrypt(key, aes.encrypt(key, b)) == b
  }

  predicate WholeBlocks(s: seq<byte>) {
    |s| % BLOCK_SIZE == 0
  }

  function CbcEncrypt(aes: BlockCipher, key: seq<byte>, prev: Block, plain: seq<byte>): (c: seq<byte>)
    requires WholeBlocks(plain)
    ensures |c| == |plain|
    decreases |plain|
  {
    if plain == [] then [] else
      var c := aes.encrypt(key, XorBlock(plain[..BLOCK_SIZE], prev));
      c + CbcEncrypt(aes, key, c, plain[BLOCK_SIZE..])
  }

  function CbcDecrypt(aes: BlockCipher, key: seq<byte>, prev: Block, cipher: seq<byte>): (p: seq<byte>)
    requires WholeBlocks(cipher)
    ensures |p| == |cipher|
    decreases |cipher|
  {
    if cipher == [] then [] else
      XorBlock(aes.decrypt(key, cipher[..BLOCK_SIZE]), prev)
      + CbcDecrypt(aes, key, cipher[..BLOCK_SIZE], cipher[BLOCK_SIZE..])
  }

  lemma {:induction false} CbcRoundTrip(aes: BlockCipher, key: seq<byte>, prev: Block, plain: seq<byte>)
    requires Invertible(aes) && WholeBlocks(plain)
    ensures CbcDecrypt(aes, key, prev, CbcEncrypt(aes, key, prev, plain)) == plain
    decreases |plain|
  {
    hide XorBlock;
    if plain != [] {
      var first, rest := plain[..BLOCK_SIZE], plain[BLOCK_SIZE..];
      var c := aes.encrypt(key, XorBlock(first, prev));
      CbcRoundTrip(aes, key, c, rest);
      var whole := CbcEncrypt(aes, key, prev, plain);
      assert whole[..BLOCK_SIZE] == c && whole[BLOCK_SIZE..] == CbcEncrypt(aes, key, c, rest);
      XorBlockTwice(first, prev);
      assert first + rest == plain;
    }
  }

  // Block k of a byte string.
  function BlockAt(s: seq<byte>, k: nat): Block
    requires 16 * k + 16 <= |s|
  {
    s[16 * k..16 * k + 16]
  }

  // What block k is combined with: the ciphertext block before it, the vector for the first.
  function Before(iv: Block, cipher: seq<byte>, k: nat): Block
    requires 16 * k <= |cipher|
  {
    if k == 0 then iv else BlockAt(cipher, k - 1)
  }

  // The bits of x are those of p that differ from those of q.
  ghost predicate Combines(x: Block, p: Block, q: Block) {
    forall j, i :: 0 <= j < 16 && 0 <= i < 8 ==> (Bit(x[j], i) <==> Bit(p[j], i) != Bit(q[j], i))
  }

  lemma XorCombines(p: Block, q: Block)
    ensures Combines(XorBlock(p, q), p, q)
  {
    hide Bit, Xor;
    forall j, i | 0 <= j < 16 && 0 <= i < 8 ensures Bit(XorBlock(p, q)[j], i) <==> Bit(p[j], i) != Bit(q[j], i) {
      XorIs(p[j], q[j], i);
    }
  }

  // Every ciphertext block, run through the inverse cipher, is its plaintext block combined with the ciphertext block
  // before it, bit by bit.
  lemma {:induction false} Chained(aes: BlockCipher, key: seq<byte>, iv: Block, plain: seq<byte>, k: nat)
    requires Invertible(aes) && WholeBlocks(plain) && 16 * k + 16 <= |plain|
    ensures var cipher := CbcEncrypt(aes, key, iv, plain);
            Combines(aes.decrypt(key, BlockAt(cipher, k)), BlockAt(plain, k), Before(iv, cipher, k))
    decreases k
  {
    hide XorBlock, Combines;
    var first, rest := plain[..BLOCK_SIZE], plain[BLOCK_SIZE..];
    var c := aes.encrypt(key, XorBlock(first, iv));
    var cipher, later := CbcEncrypt(aes, key, iv, plain), CbcEncrypt(aes, key, c, rest);
    assert cipher == c + later;
    if k == 0 {
      XorCombines(first, iv);
      assert BlockAt(cipher, 0) == c && BlockAt(plain, 0) == first;
    } else {
      Chained(aes, key, c, rest, k - 1);
      assert BlockAt(cipher, k) == BlockAt(later, k - 1) && BlockAt(plain, k) == BlockAt(rest, k - 1);
      assert Before(iv, cipher, k) == Before(c, later, k - 1) by {
        if k == 1 { assert BlockAt(cipher, 0) == c; }
        else { assert BlockAt(cipher, k - 1) == BlockAt(later, k - 2); }
      }
    }
  }

  // cipher.NewCBCEncrypter(block, iv).CryptBlocks(dst, src)
  method EncryptBlocks(aes: BlockCipher, key: seq<byte>, iv: Block, dst: array<byte>, src: seq<byte>)
    requires WholeBlocks(src) && dst.Length == |src|
    modifies dst
    ensures dst[..] == CbcEncrypt(aes, key, iv, src)
  {
    hide XorBlock;
    var prev, at := iv, 0;
    while at < |src|
      invariant 0 <= at <= |src| && at % BLOCK_SIZE == 0
      invariant dst[..at] + CbcEncrypt(aes, key, prev, src[at..]) == CbcEncrypt(aes, key, iv, src)
    {
      var c := aes.encrypt(key, XorBlock(src[at..at + BLOCK_SIZE], prev));
      assert src[at..][..BLOCK_SIZE] == src[at..at + BLOCK_SIZE];
      assert src[at..][BLOCK_SIZE..] == src[at + BLOCK_SIZE..];
      ghost var done := dst[..at];
      forall i | 0 <= i < BLOCK_SIZE {
        dst[at + i] := c[i];
      }
      assert dst[..at + BLOCK_SIZE] == done + c;
      assert done + (c + CbcEncrypt(aes, key, c, src[at + BLOCK_SIZE..]))
             == done + c + CbcEncrypt(aes, key, c, src[at + BLOCK_SIZE..]);
      prev, at := c, at + BLOCK_SIZE;
    }
    assert dst[..at] + [] == dst[..];
  }

  // ---- Padding (RFC 5652, section 6.3) ----

  function Pad(x: seq<byte>): (p: seq<byte>)
    ensures WholeBlocks(p) && |x| < |p| <= |x| + BLOCK_SIZE
  {
    var padding := BLOCK_SIZE - |x| % BLOCK_SIZE;
    x + seq(padding, i => padding)
  }

  // The last byte says how much to drop. None: Go panics on the index or on the slice.
  function Unpad(p: seq<byte>): Option<seq<byte>> {
    if p == [] || p[|p| - 1] > |p| then None else Some(p[..|p| - p[|p| - 1]])
  }

  lemma UnpadPad(x: seq<byte>)
    ensures Unpad(Pad(x)) == Some(x)
  {
    var padding := BLOCK_SIZE - |x| % BLOCK_SIZE;
    var p := Pad(x);
    assert p[|p| - 1] == padding;
    assert p[..|p| - padding] == x;
  }

  // All padding bytes say how many there are: 1 to 16.
  lemma PaddingBytes(x: seq<byte>)
    ensures var p := Pad(x);
            && p[..|x|] == x && |p| % 16 == 0 && 1 <= |p| - |x| <= 16
            && forall j :: |x| <= j < |p| ==> p[j] == |p| - |x|
  {
  }

  // ---- Cryptor ----

  // aes.NewCipher accepts these key lengths only.
  predicate KeyLength(n: nat) {
    n == 16 || n == 24 || n == 32
  }

  // iv: what rand.Read filled the buffer with.
  function Encrypt(aes: BlockCipher, secret: seq<byte>, plaintext: seq<byte>, iv: Block): Option<seq<byte>> {
    if !KeyLength(|secret|) then None else Some(iv + CbcEncrypt(aes, secret, iv, Pad(plaintext)))
  }

  // None: an error for the key, a panic for a text too short or not of whole blocks or with bad padding.
  function Decrypt(aes: BlockCipher, secret: seq<byte>, ciphertext: seq<byte>): Option<seq<byte>> {
    if !KeyLength(|secret|) || |ciphertext| < BLOCK_SIZE || !WholeBlocks(ciphertext[BLOCK_SIZE..]) then None
    else Unpad(CbcDecrypt(aes, secret, ciphertext[..BLOCK_SIZE], ciphertext[BLOCK_SIZE..]))
  }

  method CryptorEncrypt(aes: BlockCipher, secret: seq<byte>, plaintext: seq<byte>, iv: Block)
    returns (r: Option<seq<byte>>)
    ensures r == Encrypt(aes, secret, plaintext, iv)
  {
    if |secret| != 16 && |secret| != 24 && |secret| != 32 { return None; }
    var padding := BLOCK_SIZE - |plaintext| % BLOCK_SIZE;
    var padded := plaintext + seq(padding, i => padding);
    assert padded == Pad(plaintext);
    var ciphertext := new byte[|padded|];
    EncryptBlocks(aes, secret, iv, ciphertext, padded);
    return Some(iv + ciphertext[..]);
  }

  // What the cryptor encrypts it decrypts, for every text length and every initialization vector.
  lemma CryptorRoundTrip(aes: BlockCipher, secret: seq<byte>, plaintext: seq<byte>, iv: Block)
    requires Invertible(aes)
    ensures Encrypt(aes, secret, plaintext, iv).Some? <==> KeyLength(|secret|)
    ensures KeyLength(|secret|) ==> Decrypt(aes, secret, Encrypt(aes, secret, plaintext, iv).value) == Some(plaintext)
  {
    if KeyLength(|secret|) {
      var padded := Pad(plaintext);
      var whole := Encrypt(aes, secret, plaintext, iv).value;
      assert whole[..BLOCK_SIZE] == iv && whole[BLOCK_SIZE..] == CbcEncrypt(aes, secret, iv, padded);
      CbcRoundTrip(aes, secret, iv, padded);
      UnpadPad(plaintext);
    }
  }

  // The whole of an encrypted text: the vector, then one block for each block of the padded text, chained from the
  // vector on.
  lemma CiphertextIs(aes: BlockCipher, secret: seq<byte>, plaintext: seq<byte>, iv: Block, k: nat)
    requires Invertible(aes) && (|secret| == 16 || |secret| == 24 || |secret| == 32)
    requires 16 * k + 16 <= |Pad(plaintext)|
    ensures var r := Encrypt(aes, secret, plaintext, iv);
            && r.Some? && |r.value| == 16 + |Pad(plaintext)| && BlockAt(r.value, 0) == iv
            && Combines(aes.decrypt(secret, BlockAt(r.value, k + 1)), BlockAt(Pad(plaintext), k), BlockAt(r.value, k))
  {
    hide Combines;
    var padded := Pad(plaintext);
    var cipher, r := CbcEncrypt(aes, secret, iv, padded), Encrypt(aes, secret, plaintext, iv).value;
    Chained(aes, secret, iv, padded, k);
    assert BlockAt(r, 0) == iv && BlockAt(r, k + 1) == BlockAt(cipher, k);
    if k > 0 { assert BlockAt(r, k) == BlockAt(cipher, k - 1); }
  }

  // ---- The transformer ----

  // Whatever implements the Encryptor and Compressor interfaces; None: an error, or a panic.
  datatype Encryptor = Encryptor(
    encrypt: (seq<byte>, seq<byte>, Block) -> Option<seq<byte>>, decrypt: (seq<byte>, seq<byte>) -> Option<seq<byte>>)

  datatype Compressor = Compressor(
    compress: seq<byte> -> Option<seq<byte>>, decompress: seq<byte> -> Option<seq<byte>>)

  // AESCryptor
  function CryptorOf(aes: BlockCipher): Encryptor {
    Encryptor((secret, plaintext, iv) => Encrypt(aes, secret, plaintext, iv),
              (secret, ciphertext) => Decrypt(aes, secret, ciphertext))
  }

  datatype Setup = Setup(flags: bv64, secret: seq<byte>, encryptor: Option<Encryptor>, compressor: Option<Compressor>) {
    predicate Encrypts() {
      flags & ENABLED_ENCRYPTION != 0 && encryptor.Some?
    }

    predicate Compresses() {
      flags & ENABLED_COMPRESSION != 0 && compressor.Some?
    }

    function Encode(data: seq<byte>, iv: Block): Option<seq<byte>> {
      var compressed := if Compresses() then compressor.value.compress(data) else Some(data);
      if compressed.Some? && Encrypts() then encryptor.value.encrypt(secret, compressed.value, iv) else compressed
    }

    function Decode(data: seq<byte>): Option<seq<byte>> {
      var decrypted := if Encrypts() then encryptor.value.decrypt(secret, data) else Some(data);
      if decrypted.Some? && Compresses() then compressor.value.decompress(decrypted.value) else decrypted
    }
  }

  ghost predicate DecryptsOwn(e: Encryptor, secret: seq<byte>) {
    forall x, iv :: e.encrypt(secret, x, iv).Some? ==> e.decrypt(secret, e.encrypt(secret, x, iv).value) == Some(x)
  }

  ghost predicate DecompressesOwn(z: Compressor) {
    forall x :: z.compress(x).Some? ==> z.decompress(z.compress(x).value) == Some(x)
  }

  // The installed codecs undo themselves.
  ghost predicate Lawful(t: Setup) {
    && (t.encryptor.Some? ==> DecryptsOwn(t.encryptor.value, t.secret))
    && (t.compressor.Some? ==> DecompressesOwn(t.compressor.value))
  }

  lemma CryptorIsLawful(aes: BlockCipher, secret: seq<byte>)
    requires Invertible(aes)
    ensures DecryptsOwn(CryptorOf(aes), secret)
  {
    var e := CryptorOf(aes);
    forall x, iv | e.encrypt(secret, x, iv).Some? ensures e.decrypt(secret, e.encrypt(secret, x, iv).value) == Some(x) {
      CryptorRoundTrip(aes, secret, x, iv);
    }
  }

  // For every setting of the flags and every installed codec: what is encoded is decoded under the same setting.
  lemma TransformRoundTrip(t: Setup, data: seq<byte>, iv: Block)
    requires Lawful(t) && t.Encode(data, iv).Some?
    ensures t.Decode(t.Encode(data, iv).value) == Some(data)
  {
    var compressed := if t.Compresses() then t.compressor.value.compress(data) else Some(data);
    if t.Encrypts() {
      assert DecryptsOwn(t.encryptor.value, t.secret);
      assert t.encryptor.value.encrypt(t.secret, compressed.value, iv).Some?;
    }
    if t.Compresses() {
      assert DecompressesOwn(t.compressor.value);
      assert t.compressor.value.compress(data).Some?;
    }
  }

  // With the AES cryptor, encoding succeeds exactly when compression does and, if encryption is on, the secret has a
  // length AES accepts; SetEncryptor lets any other length from 16 on pass.
  lemma EncodeSucceeds(t: Setup, aes: BlockCipher, data: seq<byte>, iv: Block)
    requires Invertible(aes) && (t.encryptor.Some? ==> t.encryptor.value == CryptorOf(aes))
    ensures var compressed := t.Compresses() ==> t.compressor.value.compress(data).Some?;
            t.Encode(data, iv).Some? <==> compressed && (t.Encrypts() ==> KeyLength(|t.secret|))
  {
    var compressed := if t.Compresses() then t.compressor.value.compress(data) else Some(data);
    if compressed.Some? { CryptorRoundTrip(aes, t.secret, compressed.value, iv); }
  }

  // Encryption comes last: what is stored is the encryption of the compressed data, if both are on.
  lemma EncryptsLast(t: Setup, aes: BlockCipher, data: seq<byte>, iv: Block)
    requires Invertible(aes) && t.encryptor == Some(CryptorOf(aes)) && t.Encode(data, iv).Some?
    requires t.flags & 1 != 0
    ensures var stored := t.Encode(data, iv).value;
            && |stored| >= 32 && stored[..16] == iv
            && Decrypt(aes, t.secret, stored)
               == if t.flags & 2 != 0 && t.compressor.Some? then t.compressor.value.compress(data) else Some(data)
  {
    var compressed := if t.Compresses() then t.compressor.value.compress(data) else Some(data);
    CryptorRoundTrip(aes, t.secret, compressed.value, iv);
    assert t.encryptor.value.encrypt(t.secret, compressed.value, iv) == Encrypt(aes, t.secret, compressed.value, iv);
    PaddingBytes(compressed.value);
  }

  // An empty value, as a tombstone holds, never decrypts.
  lemma EmptyNeverDecrypts(t: Setup, aes: BlockCipher)
    requires t.Encrypts() && t.encryptor.value == CryptorOf(aes)
    ensures t.Decode([]).None?
  {
    var none: seq<byte> := [];
    assert Decrypt(aes, t.secret, none).None?;
    assert t.encryptor.value.decrypt(t.secret, none) == Decrypt(aes, t.secret, none);
  }

  class Transformer {
    var flags: bv64
    var secret: seq<byte>
    var encryptor: Option<Encryptor>
    var compressor: Option<Compressor>

    function Value(): Setup
      reads this
    {
      Setup(flags, secret, encryptor, compressor)
    }

    predicate IsEncryptionEnabled()
      reads this
    {
      flags & ENABLED_ENCRYPTION != 0
    }

    predicate IsCompressionEnabled()
      reads this
    {
      flags & ENABLED_COMPRESSION != 0
    }

    constructor ()
      ensures !IsEncryptionEnabled() && !IsCompressionEnabled()
      ensures encryptor == None && compressor == None
    {
      flags, secret, encryptor, compressor := 0, [], None, None;
    }

    method EnableEncryption()
      modifies this`flags
      ensures IsEncryptionEnabled() && IsCompressionEnabled() == old(IsCompressionEnabled())
    {
      flags := flags | ENABLED_ENCRYPTION;
    }

    method EnableCompression()
      modifies this`flags
      ensures IsCompressionEnabled() && IsEncryptionEnabled() == old(IsEncryptionEnabled())
    {
      flags := flags | ENABLED_COMPRESSION;
    }

    method DisableEncryption()
      modifies this`flags
      ensures !IsEncryptionEnabled() && IsCompressionEnabled() == old(IsCompressionEnabled())
    {
      flags := flags & !ENABLED_ENCRYPTION;
    }

    method DisableCompression()
      modifies this`flags
      ensures !IsCompressionEnabled() && IsEncryptionEnabled() == old(IsEncryptionEnabled())
    {
      flags := flags & !ENABLED_COMPRESSION;
    }

    // Nothing is transformed any more.
    method DisableAll()
      modifies this`flags
      ensures !IsEncryptionEnabled() && !IsCompressionEnabled()
      ensures forall data, iv :: Value().Encode(data, iv) == Some(data) && Value().Decode(data) == Some(data)
    {
      flags := 0;
    }

    // Refused, without effect, for a secret shorter than 16 bytes.
    method SetEncryptor(e: Encryptor, key: seq<byte>) returns (ok: bool)
      modifies this`flags, this`secret, this`encryptor
      ensures ok <==> |key| >= 16
      ensures ok ==> IsEncryptionEnabled() && secret == key && encryptor == Some(e)
      ensures ok ==> IsCompressionEnabled() == old(IsCompressionEnabled())
      ensures !ok ==> Value() == old(Value())
    {
      if |key| < 16 { return false; }
      secret := key;
      encryptor := Some(e);
      EnableEncryption();
      return true;
    }

    method SetCompressor(z: Compressor)
      modifies this`flags, this`compressor
      ensures IsCompressionEnabled() && compressor == Some(z)
      ensures IsEncryptionEnabled() == old(IsEncryptionEnabled())
    {
      compressor := Some(z);
      EnableCompression();
    }

    method Encode(input: seq<byte>, iv: Block) returns (r: Option<seq<byte>>)
      ensures r == Value().Encode(input, iv)
    {
      var data := input;
      if IsCompressionEnabled() && compressor.Some? {
        var compressed := compressor.value.compress(data);
        if compressed.None? { return None; }
        data := compressed.value;
      }
      if IsEncryptionEnabled() && encryptor.Some? {
        var encrypted := encryptor.value.encrypt(secret, data, iv);
        if encrypted.None? { return None; }
        data := encrypted.value;
      }
      return Some(data);
    }

    method Decode(input: seq<byte>) returns (r: Option<seq<byte>>)
      ensures r == Value().Decode(input)
    {
      var data := input;
      if IsEncryptionEnabled() && encryptor.Some? {
        var decrypted := encryptor.value.decrypt(secret, data);
        if decrypted.None? { return None; }
        data := decrypted.value;
      }
      if IsCompressionEnabled() && compressor.Some? {
        var decompressed := compressor.value.decompress(data);
        if decompressed.None? { return None; }
        data := decompressed.value;
      }
      return Some(data);
    }
  }
}
