/**
 The AES envelopes (utils/aes.go): padding as in section 6.3 of RFC 5652, ECB and CBC as in sections 6.1 and 6.2 of
 NIST SP 800-38A, around a block cipher given as a pair of functions.
 */
module Aes {
  import opened Division
  import opened Wrappers

  type byte = b: int | 0 <= b < 256

  type Bytes = seq<byte>

  const BLOCK: nat := 16

  type Block = b: Bytes | |b| == 16 witness seq(16, i => 0)

  datatype Cipher = Cipher(enc: Block -> Block, dec: Block -> Block)

  /** The cipher each key selects. */
  type KeySchedule = Bytes -> Cipher

  ghost predicate Inverse(c: Cipher) {
    forall b: Block :: c.dec(c.enc(b)) == b && c.enc(c.dec(b)) == b
  }

  ghost predicate Lawful(aes: KeySchedule) {
    forall key :: Inverse(aes(key))
  }

  datatype AesError = BadKeyLength | NotFullBlocks | Empty | BadPadding

  /** A slice index out of range, or an IV of the wrong length, panics. */
  datatype Outcome = Ok(data: Bytes) | Err(error: AesError) | Panic

  predicate GoodKey(key: Bytes) {
    |key| == 16 || |key| == 24 || |key| == 32
  }

  // ----- Padding -----

  function Repeat(b: byte, n: nat): (r: Bytes)
    ensures |r| == n && forall i :: 0 <= i < n ==> r[i] == b
  {
    seq(n, i => b)
  }

  /** Both PKCS7Padding and pkcs5Padding; the count is cut to a byte. */
  function Pad(data: Bytes, blockSize: nat): (r: Bytes)
    requires blockSize > 0
    ensures |r| == |data| + (blockSize - |data| % blockSize) && data <= r
  {
    var padding := blockSize - |data| % blockSize;
    data + Repeat(padding % 256, padding)
  }

  /** The padding of the standard: up to a multiple of the block size, at least one byte, each the number of bytes added. */
  lemma PadFollowsStandard(data: Bytes, blockSize: nat)
    requires 0 < blockSize <= 255
    ensures var r := Pad(data, blockSize);
            && |r| % blockSize == 0 && |data| < |r| <= |data| + blockSize && r[..|data|] == data
            && forall i :: |data| <= i < |r| ==> r[i] == |r| - |data|
  {
    PaddedLength(|data|, blockSize);
  }

  lemma PaddedLength(n: nat, m: nat)
    requires m > 0
    ensures (n + (m - n % m)) % m == 0
  {
    Remainder(n + (m - n % m), m, n / m + 1, 0);
  }

  /** Both PKCS7UnPadding and pkcs5UnPadding: the last byte alone decides how much goes. */
  function UnPad(data: Bytes): Outcome {
    if data == [] then Panic
    else
      var unpadding := data[|data| - 1];
      if unpadding > |data| then Panic else Ok(data[..|data| - unpadding])
  }

  /** Unpadding undoes padding exactly when the count fits in a byte, which block sizes up to 255 guarantee. */
  lemma UnPadUndoesPadIff(data: Bytes, blockSize: nat)
    requires blockSize > 0
    ensures UnPad(Pad(data, blockSize)) == Ok(data) <==> blockSize - |data| % blockSize <= 255
  {
    var padding := blockSize - |data| % blockSize;
    var padded := Pad(data, blockSize);
    assert padded[|padded| - 1] == padding % 256;
    if padding <= 255 {
      assert padded[..|padded| - padding] == data;
    } else {
      assert |padded| - padding % 256 > |data|;
    }
  }

  lemma SmallBlocksRoundTrip(data: Bytes, blockSize: nat)
    requires 0 < blockSize <= 255
    ensures UnPad(Pad(data, blockSize)) == Ok(data)
  {
    UnPadUndoesPadIff(data, blockSize);
  }

  /** ECB's own computation of the padded length. */
  lemma EcbLength(n: nat)
    ensures ((n + BLOCK) / BLOCK) * BLOCK == n + (BLOCK - n % BLOCK)
  {}

  /** The checked unpadding of AesDecryptECB. */
  function Strip(data: Bytes): Outcome {
    if data == [] then Err(Empty)
    else
      var padding := data[|data| - 1];
      if padding > BLOCK || padding == 0 then Err(BadPadding)
      else if padding > |data| then Panic
      else if data[|data| - padding..] != Repeat(data[|data| - 1], padding) then Err(BadPadding)
      else Ok(data[..|data| - padding])
  }

  /** Checked unpadding accepts exactly the padded texts. */
  lemma StripAcceptsIff(data: Bytes, text: Bytes)
    requires |data| % BLOCK == 0
    ensures Strip(data) == Ok(text) <==> Pad(text, BLOCK) == data
  {
    if Strip(data) == Ok(text) {
      var padding := data[|data| - 1];
      assert text == data[..|data| - padding];
      StrippedLength(|data|, padding);
      assert data == text + data[|text|..];
    }
    if Pad(text, BLOCK) == data {
      var padding := BLOCK - |text| % BLOCK;
      assert data[|data| - 1] == padding;
      assert data[..|text|] == text && data[|text|..] == Repeat(data[|data| - 1], padding);
    }
  }

  lemma StrippedLength(n: nat, padding: nat)
    requires n % BLOCK == 0 && 0 < padding <= BLOCK <= n
    ensures BLOCK - (n - padding) % BLOCK == padding
  {}

  // ----- ECB -----

  function MapBlocks(f: Block -> Block, data: Bytes): (r: Bytes)
    requires |data| % BLOCK == 0
    ensures |r| == |data|
  {
    if data == [] then []
    else MapBlocks(f, data[..|data| - BLOCK]) + f(data[|data| - BLOCK..])
  }

  lemma {:induction false} MapBlocksInverts(f: Block -> Block, g: Block -> Block, data: Bytes)
    requires |data| % BLOCK == 0 && forall b: Block :: g(f(b)) == b
    ensures MapBlocks(g, MapBlocks(f, data)) == data
  {
    if data != [] {
      var n := |data| - BLOCK;
      var last: Block := data[n..];
      assert g(f(last)) == last;
      var mapped := MapBlocks(f, data);
      assert mapped[..n] == MapBlocks(f, data[..n]) && mapped[n..] == f(data[n..]);
      MapBlocksInverts(f, g, data[..n]);
      assert data == data[..n] + data[n..];
    }
  }

  lemma {:induction false} MapBlocksPrefix(f: Block -> Block, data: Bytes, n: nat)
    requires |data| % BLOCK == 0 && n % BLOCK == 0 && n <= |data|
    ensures MapBlocks(f, data)[..n] == MapBlocks(f, data[..n])
  {
    if n == |data| {
      assert data[..n] == data;
    } else {
      NextBlockFits(n, |data|);
      var shorter := data[..|data| - BLOCK];
      MapBlocksPrefix(f, shorter, n);
      assert shorter[..n] == data[..n];
    }
  }

  /** Each block goes, on its own, where its source block was. */
  lemma MapBlocksAt(f: Block -> Block, data: Bytes, at: nat)
    requires |data| % BLOCK == 0 && at % BLOCK == 0 && at + BLOCK <= |data|
    ensures Mapped(f, data, MapBlocks(f, data), at)
  {
    NextBlockFits(at, |data|);
    MapBlocksPrefix(f, data, at + BLOCK);
    LastBlockMapped(f, data[..at + BLOCK], at);
    MappedInPrefix(f, data, MapBlocks(f, data), at);
  }

  ghost predicate Mapped(f: Block -> Block, data: Bytes, r: Bytes, at: nat)
    requires at + BLOCK <= |data| == |r|
  {
    r[at..at + BLOCK] == f(data[at..at + BLOCK])
  }

  lemma MappedInPrefix(f: Block -> Block, data: Bytes, r: Bytes, at: nat)
    requires at + BLOCK <= |data| == |r| && Mapped(f, data[..at + BLOCK], r[..at + BLOCK], at)
    ensures Mapped(f, data, r, at)
  {
    var end := at + BLOCK;
    assert r[..end][at..end] == r[at..end] && data[..end][at..end] == data[at..end];
  }

  lemma LastBlockMapped(f: Block -> Block, data: Bytes, at: nat)
    requires |data| == at + BLOCK && at % BLOCK == 0 && |data| % BLOCK == 0
    ensures Mapped(f, data, MapBlocks(f, data), at)
  {
    var head, last := MapBlocks(f, data[..at]), data[at..];
    assert data[at..at + BLOCK] == last;
    assert MapBlocks(f, data) == head + f(last);
    assert (head + f(last))[at..at + BLOCK] == f(last);
  }

  function EncryptEcb(aes: KeySchedule, data: Bytes, key: Bytes): Outcome {
    if !GoodKey(key) then Err(BadKeyLength) else Ok(MapBlocks(aes(key).enc, Pad(data, BLOCK)))
  }

  function DecryptEcb(aes: KeySchedule, data: Bytes, key: Bytes): Outcome {
    if !GoodKey(key) then Err(BadKeyLength)
    else if |data| % BLOCK != 0 then Err(NotFullBlocks)
    else Strip(MapBlocks(aes(key).dec, data))
  }

  /** ECB encryption and decryption are mutually inverse: decryption returns text for exactly the ciphertext that
      encrypting text gives, for every byte string and every key. */
  lemma EcbIsMutuallyInverse(aes: KeySchedule, text: Bytes, data: Bytes, key: Bytes)
    requires Lawful(aes)
    ensures DecryptEcb(aes, data, key) == Ok(text) <==> EncryptEcb(aes, text, key) == Ok(data)
  {
    if GoodKey(key) {
      var c := aes(key);
      if |data| % BLOCK == 0 {
        StripAcceptsIff(MapBlocks(c.dec, data), text);
        MapBlocksInverts(c.dec, c.enc, data);
      }
      MapBlocksInverts(c.enc, c.dec, Pad(text, BLOCK));
    }
  }

  /** So every byte string survives the round trip, and the decryptor accepts exactly the encryptor's image. */
  lemma EcbRoundTrip(aes: KeySchedule, text: Bytes, key: Bytes)
    requires Lawful(aes) && GoodKey(key)
    ensures EncryptEcb(aes, text, key).Ok? && DecryptEcb(aes, EncryptEcb(aes, text, key).data, key) == Ok(text)
  {
    EcbIsMutuallyInverse(aes, text, EncryptEcb(aes, text, key).data, key);
  }

  lemma EcbAcceptsTheImage(aes: KeySchedule, data: Bytes, key: Bytes)
    requires Lawful(aes)
    ensures DecryptEcb(aes, data, key).Ok? <==> exists text :: EncryptEcb(aes, text, key) == Ok(data)
  {
    if DecryptEcb(aes, data, key).Ok? {
      EcbIsMutuallyInverse(aes, DecryptEcb(aes, data, key).data, data, key);
    }
    if text :| EncryptEcb(aes, text, key) == Ok(data) {
      EcbIsMutuallyInverse(aes, text, data, key);
    }
  }

  // ----- CBC -----

  function Pow2(n: nat): nat {
    if n == 0 then 1 else 2 * Pow2(n - 1)
  }

  /** Exclusive or of the lowest n bits, from the lowest on. */
  function XorBits(a: nat, b: nat, n: nat): (r: nat)
    ensures r < Pow2(n)
  {
    if n == 0 then 0 else (a + b) % 2 + 2 * XorBits(a / 2, b / 2, n - 1)
  }

  lemma LowBit(a: nat, b: nat, hi: nat)
    ensures var x := (a + b) % 2 + 2 * hi; x / 2 == hi && (x + b) % 2 == a % 2
  {}

  lemma {:induction false} XorBitsCancels(a: nat, b: nat, n: nat)
    requires a < Pow2(n)
    ensures XorBits(XorBits(a, b, n), b, n) == a
  {
    if n > 0 {
      XorBitsCancels(a / 2, b / 2, n - 1);
      LowBit(a, b, XorBits(a / 2, b / 2, n - 1));
    }
  }

  function Bit(a: nat, k: nat): nat {
    if k == 0 then a % 2 else Bit(a / 2, k - 1)
  }

  /** Each bit of the result is set exactly when the two bits differ. */
  lemma {:induction false} XorBitsAt(a: nat, b: nat, n: nat, k: nat)
    requires k < n
    ensures Bit(XorBits(a, b, n), k) == 1 <==> Bit(a, k) != Bit(b, k)
  {
    var hi := XorBits(a / 2, b / 2, n - 1);
    LowBit(a, b, hi);
    if k == 0 {
      DifferingParity(a, b, hi);
    } else {
      XorBitsAt(a / 2, b / 2, n - 1, k - 1);
    }
  }

  lemma DifferingParity(a: nat, b: nat, hi: nat)
    ensures ((a + b) % 2 + 2 * hi) % 2 == 1 <==> a % 2 != b % 2
  {}

  lemma Pow2Of8()
    ensures Pow2(8) == 256
  {
    assert Pow2(4) == 16;
  }

  function XorByte(a: byte, b: byte): byte {
    Pow2Of8();
    XorBits(a, b, 8)
  }

  function Xor(a: Block, b: Block): Block {
    seq(16, i requires 0 <= i < 16 => XorByte(a[i], b[i]))
  }

  lemma XorCancels(a: Block, b: Block)
    ensures Xor(Xor(a, b), b) == a
  {
    forall i | 0 <= i < 16 ensures Xor(Xor(a, b), b)[i] == a[i] {
      Pow2Of8();
      XorBitsCancels(a[i], b[i], 8);
    }
  }

  /** The block that the next one is chained to: the last of done, or the IV. */
  function Chain(iv: Block, done: Bytes): Block
    requires |done| % BLOCK == 0
  {
    if done == [] then iv else done[|done| - BLOCK..]
  }

  function CbcEncrypt(c: Cipher, iv: Block, data: Bytes): (r: Bytes)
    requires |data| % BLOCK == 0
    ensures |r| == |data|
  {
    if data == [] then []
    else
      var done := CbcEncrypt(c, iv, data[..|data| - BLOCK]);
      done + c.enc(Xor(data[|data| - BLOCK..], Chain(iv, done)))
  }

  function CbcDecrypt(c: Cipher, iv: Block, data: Bytes): (r: Bytes)
    requires |data| % BLOCK == 0
    ensures |r| == |data|
  {
    if data == [] then []
    else
      var rest := data[..|data| - BLOCK];
      CbcDecrypt(c, iv, rest) + Xor(c.dec(data[|data| - BLOCK..]), Chain(iv, rest))
  }

  /** What comes later does not change the blocks before it. */
  lemma {:induction false} CbcPrefix(c: Cipher, iv: Block, data: Bytes, n: nat)
    requires |data| % BLOCK == 0 && n % BLOCK == 0 && n <= |data|
    ensures CbcEncrypt(c, iv, data)[..n] == CbcEncrypt(c, iv, data[..n])
  {
    if n == |data| {
      assert data[..n] == data;
    } else {
      NextBlockFits(n, |data|);
      var shorter := data[..|data| - BLOCK];
      CbcPrefix(c, iv, shorter, n);
      assert shorter[..n] == data[..n];
    }
  }

  /** The chaining equation of the standard: each ciphertext block is the cipher of the text block combined with the
      ciphertext block before it, or with the IV. */
  lemma CbcChains(c: Cipher, iv: Block, data: Bytes, at: nat)
    requires |data| % BLOCK == 0 && at % BLOCK == 0 && at + BLOCK <= |data|
    ensures Chained(c, iv, data, CbcEncrypt(c, iv, data), at)
  {
    var r, end := CbcEncrypt(c, iv, data), at + BLOCK;
    CbcPrefix(c, iv, data, end);
    LastBlockChains(c, iv, data[..end], at);
    ChainedInPrefix(c, iv, data, r, at);
  }

  ghost predicate Chained(c: Cipher, iv: Block, data: Bytes, r: Bytes, at: nat)
    requires at % BLOCK == 0 && at + BLOCK <= |data| == |r|
  {
    r[at..at + BLOCK] == c.enc(Xor(data[at..at + BLOCK], if at == 0 then iv else r[at - BLOCK..at]))
  }

  lemma ChainedInPrefix(c: Cipher, iv: Block, data: Bytes, r: Bytes, at: nat)
    requires at % BLOCK == 0 && at + BLOCK <= |data| == |r|
    requires Chained(c, iv, data[..at + BLOCK], r[..at + BLOCK], at)
    ensures Chained(c, iv, data, r, at)
  {
    var end := at + BLOCK;
    assert r[..end][at..end] == r[at..end] && data[..end][at..end] == data[at..end];
    assert at > 0 ==> r[..end][at - BLOCK..at] == r[at - BLOCK..at];
  }

  lemma LastBlockChains(c: Cipher, iv: Block, data: Bytes, at: nat)
    requires |data| == at + BLOCK && at % BLOCK == 0
    ensures |data| % BLOCK == 0 && Chained(c, iv, data, CbcEncrypt(c, iv, data), at)
  {
    var r, done := CbcEncrypt(c, iv, data), CbcEncrypt(c, iv, data[..at]);
    assert data[at..at + BLOCK] == data[at..] && r[at..at + BLOCK] == r[at..];
    assert r[..at] == done;
    assert at > 0 ==> r[at - BLOCK..at] == done[at - BLOCK..];
  }

  lemma {:induction false} CbcDecryptInverts(c: Cipher, iv: Block, data: Bytes)
    requires |data| % BLOCK == 0 && Inverse(c)
    ensures CbcDecrypt(c, iv, CbcEncrypt(c, iv, data)) == data
  {
    if data != [] {
      var n := |data| - BLOCK;
      var text, block: Block := data[..n], data[n..];
      var crypted := CbcEncrypt(c, iv, data);
      var done := CbcEncrypt(c, iv, text);
      assert crypted[..n] == done && crypted[n..] == c.enc(Xor(block, Chain(iv, done)));
      CbcDecryptInverts(c, iv, text);
      XorCancels(block, Chain(iv, done));
      assert data == text + block;
    }
  }

  lemma {:induction false} CbcEncryptInverts(c: Cipher, iv: Block, data: Bytes)
    requires |data| % BLOCK == 0 && Inverse(c)
    ensures CbcEncrypt(c, iv, CbcDecrypt(c, iv, data)) == data
  {
    if data != [] {
      var n := |data| - BLOCK;
      var rest, block: Block := data[..n], data[n..];
      var plain := CbcDecrypt(c, iv, data);
      assert plain[..n] == CbcDecrypt(c, iv, rest) && plain[n..] == Xor(c.dec(block), Chain(iv, rest));
      CbcEncryptInverts(c, iv, rest);
      XorCancels(c.dec(block), Chain(iv, rest));
      assert data == rest + block;
    }
  }

  /** AesEncryptWithIv and AesEncryptCBCWithIv. */
  function EncryptCbcWithIv(aes: KeySchedule, data: Bytes, key: Bytes, iv: Bytes): Outcome {
    if !GoodKey(key) then Err(BadKeyLength)
    else if |iv| != BLOCK then Panic
    else Ok(CbcEncrypt(aes(key), iv, Pad(data, BLOCK)))
  }

  /** AesDecryptWithIv and AesDecryptCBCWithIv: nothing is checked, and what cannot be sliced panics. */
  function DecryptCbcWithIv(aes: KeySchedule, data: Bytes, key: Bytes, iv: Bytes): Outcome {
    if !GoodKey(key) then Err(BadKeyLength)
    else if |iv| != BLOCK || |data| % BLOCK != 0 then Panic
    else UnPad(CbcDecrypt(aes(key), iv, data))
  }

  /** AesEncrypt and AesEncryptCBC take the IV from the key. */
  function EncryptCbc(aes: KeySchedule, data: Bytes, key: Bytes): Outcome {
    if !GoodKey(key) then Err(BadKeyLength) else EncryptCbcWithIv(aes, data, key, key[..BLOCK])
  }

  /** AesDecrypt and AesDecryptCBC. */
  function DecryptCbc(aes: KeySchedule, data: Bytes, key: Bytes): Outcome {
    if !GoodKey(key) then Err(BadKeyLength) else DecryptCbcWithIv(aes, data, key, key[..BLOCK])
  }

  /** Every CBC pair round-trips for every text, key and 16-byte IV. */
  lemma CbcRoundTrip(aes: KeySchedule, text: Bytes, key: Bytes, iv: Bytes)
    requires Lawful(aes) && GoodKey(key) && |iv| == BLOCK
    ensures var r := EncryptCbcWithIv(aes, text, key, iv); r.Ok? && DecryptCbcWithIv(aes, r.data, key, iv) == Ok(text)
  {
    CbcDecryptInverts(aes(key), iv, Pad(text, BLOCK));
    SmallBlocksRoundTrip(text, BLOCK);
  }

  lemma CbcKeyIvRoundTrip(aes: KeySchedule, text: Bytes, key: Bytes)
    requires Lawful(aes) && GoodKey(key)
    ensures var r := EncryptCbc(aes, text, key); r.Ok? && DecryptCbc(aes, r.data, key) == Ok(text)
  {
    CbcRoundTrip(aes, text, key, key[..BLOCK]);
  }

  /** Unlike ECB, CBC decryption also accepts texts whose padding is wrong. What it accepts encrypts back to itself
      exactly when the padding would have passed ECB's check. */
  lemma CbcAcceptedReencryptsIff(aes: KeySchedule, data: Bytes, key: Bytes, iv: Bytes)
    requires Lawful(aes) && DecryptCbcWithIv(aes, data, key, iv).Ok?
    ensures var text := DecryptCbcWithIv(aes, data, key, iv).data;
            EncryptCbcWithIv(aes, text, key, iv) == Ok(data) <==> Strip(CbcDecrypt(aes(key), iv, data)) == Ok(text)
  {
    CbcReencryptsIff(aes(key), iv, data, DecryptCbcWithIv(aes, data, key, iv).data);
  }

  /** Sixteen zero bytes, encrypted without padding, are accepted under every key and IV: a last byte of zero takes
      nothing away. Encrypting the text that comes back gives two blocks. */
  lemma CbcAcceptsUnpadded(aes: KeySchedule, key: Bytes, iv: Bytes)
    requires Lawful(aes) && GoodKey(key) && |iv| == BLOCK
    ensures var zeros := Repeat(0, BLOCK);
            var data := CbcEncrypt(aes(key), iv, zeros);
            && DecryptCbcWithIv(aes, data, key, iv) == Ok(zeros)
            && EncryptCbcWithIv(aes, zeros, key, iv) != Ok(data)
  {
    var zeros := Repeat(0, BLOCK);
    CbcDecryptInverts(aes(key), iv, zeros);
    ZerosUnPad(zeros);
    CbcLonger(aes(key), iv, zeros);
  }

  lemma ZerosUnPad(zeros: Bytes)
    requires zeros != [] && zeros[|zeros| - 1] == 0
    ensures UnPad(zeros) == Ok(zeros)
  {
    assert zeros[..|zeros|] == zeros;
  }

  lemma CbcLonger(c: Cipher, iv: Block, data: Bytes)
    requires |data| % BLOCK == 0
    ensures |Pad(data, BLOCK)| % BLOCK == 0 && |CbcEncrypt(c, iv, Pad(data, BLOCK))| == |data| + BLOCK
  {}

  lemma CbcReencryptsIff(c: Cipher, iv: Block, data: Bytes, text: Bytes)
    requires |data| % BLOCK == 0 && Inverse(c)
    ensures CbcEncrypt(c, iv, Pad(text, BLOCK)) == data <==> Strip(CbcDecrypt(c, iv, data)) == Ok(text)
  {
    CbcImageIff(c, iv, Pad(text, BLOCK), data);
    StripAcceptsIff(CbcDecrypt(c, iv, data), text);
  }

  lemma CbcImageIff(c: Cipher, iv: Block, plain: Bytes, data: Bytes)
    requires |plain| % BLOCK == 0 && |data| % BLOCK == 0 && Inverse(c)
    ensures CbcEncrypt(c, iv, plain) == data <==> CbcDecrypt(c, iv, data) == plain
  {
    CbcEncryptInverts(c, iv, data);
    CbcDecryptInverts(c, iv, plain);
  }

  // ----- The buffers and loops -----

  /** The buffer that AesEncryptECB allocates, copied to and padded in place. */
  method PadBuffer(origData: Bytes) returns (plain: array<byte>)
    ensures fresh(plain) && plain[..] == Pad(origData, BLOCK)
  {
    var length := (|origData| + BLOCK) / BLOCK;
    EcbLength(|origData|);
    plain := new byte[length * BLOCK];
    var i := 0;
    while i < |origData|
      invariant 0 <= i <= |origData|
      invariant plain[..i] == origData[..i]
    {
      plain[i] := origData[i];
      i := i + 1;
    }
    var pad: byte := (plain.Length - |origData|) % 256;
    while i < plain.Length
      invariant |origData| <= i <= plain.Length
      invariant plain[..|origData|] == origData
      invariant forall j :: |origData| <= j < i ==> plain[j] == pad
    {
      plain[i] := pad;
      i := i + 1;
    }
  }

  method AesEncryptECB(aes: KeySchedule, origData: Bytes, key: Bytes) returns (r: Outcome)
    ensures r == EncryptEcb(aes, origData, key)
  {
    if |key| != 16 && |key| != 24 && |key| != 32 {
      return Err(BadKeyLength);
    }
    var cipher := aes(key);
    var plain := PadBuffer(origData);
    var encrypted := MapInto(cipher.enc, plain);
    return Ok(encrypted[..]);
  }

  /** One round of the block loop. */
  method MapOne(f: Block -> Block, source: array<byte>, target: array<byte>, bs: nat)
    requires source != target && bs + BLOCK <= source.Length == target.Length
    modifies target
    ensures target[..bs + BLOCK] == old(target[..bs]) + f(source[..][bs..bs + BLOCK])
  {
    var from := source[bs..bs + BLOCK];
    assert from == source[..][bs..bs + BLOCK];
    var block := f(from);
    var i := 0;
    while i < BLOCK
      invariant 0 <= i <= BLOCK
      invariant target[..bs] == old(target[..bs])
      invariant forall j :: 0 <= j < i ==> target[bs + j] == block[j]
    {
      target[bs + i] := block[i];
      i := i + 1;
    }
    assert target[..bs + BLOCK] == target[..bs] + block;
  }

  lemma NextBlockFits(bs: nat, n: nat)
    requires bs % BLOCK == 0 && n % BLOCK == 0 && bs < n
    ensures bs + BLOCK <= n && (bs + BLOCK) % BLOCK == 0
  {}

  lemma MapBlocksStep(f: Block -> Block, data: Bytes, bs: nat)
    requires |data| % BLOCK == 0 && bs % BLOCK == 0 && bs + BLOCK <= |data|
    ensures MapBlocks(f, data[..bs + BLOCK]) == MapBlocks(f, data[..bs]) + f(data[bs..bs + BLOCK])
  {
    var longer := data[..bs + BLOCK];
    assert longer[..bs] == data[..bs] && longer[bs..] == data[bs..bs + BLOCK];
  }

  /** The block loop shared by both ECB functions: each block goes where its source block was. */
  method MapInto(f: Block -> Block, source: array<byte>) returns (target: array<byte>)
    requires source.Length % BLOCK == 0
    ensures fresh(target) && target.Length == source.Length && target[..] == MapBlocks(f, source[..])
  {
    ghost var data := source[..];
    target := new byte[source.Length];
    var bs := 0;
    while bs < source.Length
      invariant 0 <= bs <= source.Length && bs % BLOCK == 0
      invariant source[..] == data && target[..bs] == MapBlocks(f, data[..bs])
    {
      NextBlockFits(bs, source.Length);
      MapOne(f, source, target, bs);
      MapBlocksStep(f, data, bs);
      bs := bs + BLOCK;
    }
    assert data[..bs] == data && target[..bs] == target[..];
  }

  /** The length and padding checks after decryption. */
  method StripBuffer(decrypted: array<byte>) returns (r: Outcome)
    requires decrypted.Length % BLOCK == 0
    ensures r == Strip(decrypted[..])
  {
    var n := decrypted.Length;
    if n == 0 {
      return Err(Empty);
    }
    var padding := decrypted[n - 1];
    if padding > BLOCK || padding == 0 {
      return Err(BadPadding);
    }
    var ok := CheckPadding(decrypted, padding);
    assert decrypted[..][n - padding..] == decrypted[n - padding..];
    if !ok {
      return Err(BadPadding);
    }
    assert decrypted[..][..n - padding] == decrypted[..n - padding];
    return Ok(decrypted[..n - padding]);
  }

  method CheckPadding(data: array<byte>, padding: byte) returns (ok: bool)
    requires 0 < padding <= data.Length
    ensures ok <==> data[data.Length - padding..] == Repeat(padding, padding)
  {
    var i := data.Length - padding;
    while i < data.Length
      invariant data.Length - padding <= i <= data.Length
      invariant forall j :: data.Length - padding <= j < i ==> data[j] == padding
    {
      if data[i] != padding {
        assert data[data.Length - padding..][i - (data.Length - padding)] != padding;
        return false;
      }
      i := i + 1;
    }
    return true;
  }

  method AesDecryptECB(aes: KeySchedule, encrypted: Bytes, key: Bytes) returns (r: Outcome)
    ensures r == DecryptEcb(aes, encrypted, key)
  {
    if |key| != 16 && |key| != 24 && |key| != 32 {
      return Err(BadKeyLength);
    }
    if |encrypted| % BLOCK != 0 {
      return Err(NotFullBlocks);
    }
    var source := new byte[|encrypted|](i requires 0 <= i < |encrypted| => encrypted[i]);
    assert source[..] == encrypted;
    var decrypted := MapInto(aes(key).dec, source);
    r := StripBuffer(decrypted);
  }

  // ----- Which calls fail, and how -----

  /** Keys of 16, 24 and 32 bytes are accepted, and no others, by every function. */
  lemma KeyLengths(aes: KeySchedule, data: Bytes, key: Bytes, iv: Bytes)
    ensures var bad := |key| != 16 && |key| != 24 && |key| != 32;
            && (EncryptEcb(aes, data, key) == Err(BadKeyLength) <==> bad) && (DecryptEcb(aes, data, key) == Err(BadKeyLength) <==> bad)
            && (EncryptCbc(aes, data, key) == Err(BadKeyLength) <==> bad) && (DecryptCbc(aes, data, key) == Err(BadKeyLength) <==> bad)
            && (EncryptCbcWithIv(aes, data, key, iv) == Err(BadKeyLength) <==> bad)
            && (DecryptCbcWithIv(aes, data, key, iv) == Err(BadKeyLength) <==> bad)
  {}

  lemma StripErrors(data: Bytes)
    requires |data| % BLOCK == 0
    ensures Strip(data) != Panic && (Strip(data) == Err(Empty) <==> data == []) && Strip(data) != Err(NotFullBlocks)
  {
    if data != [] {
      NextBlockFits(0, |data|);
    }
  }

  /** ECB never panics: what is not a whole number of blocks, empty or badly padded is an error. */
  lemma EcbErrors(aes: KeySchedule, data: Bytes, key: Bytes)
    requires GoodKey(key)
    ensures EncryptEcb(aes, data, key).Ok?
    ensures DecryptEcb(aes, data, key) != Panic
    ensures DecryptEcb(aes, data, key) == Err(NotFullBlocks) <==> |data| % 16 != 0
    ensures DecryptEcb(aes, data, key) == Err(Empty) <==> data == []
  {
    if |data| % BLOCK == 0 {
      StripErrors(MapBlocks(aes(key).dec, data));
    }
  }

  /** CBC with a good key reports no errors. Encryption panics exactly if the IV is not 16 bytes; decryption also if the
      ciphertext is empty, not a whole number of blocks, or decrypts to a last byte beyond its length. */
  lemma CbcPanicsIff(aes: KeySchedule, data: Bytes, key: Bytes, iv: Bytes)
    requires GoodKey(key)
    ensures EncryptCbcWithIv(aes, data, key, iv) == Panic <==> |iv| != 16
    ensures !EncryptCbcWithIv(aes, data, key, iv).Err? && !DecryptCbcWithIv(aes, data, key, iv).Err?
    ensures DecryptCbcWithIv(aes, data, key, iv) == Panic <==>
              |iv| != 16 || |data| % 16 != 0 || data == [] || CbcDecrypt(aes(key), iv, data)[|data| - 1] > |data|
  {}

  /** Without an IV, the first 16 bytes of the key are the IV. */
  lemma KeyIsTheIv(aes: KeySchedule, data: Bytes, key: Bytes)
    requires GoodKey(key)
    ensures EncryptCbc(aes, data, key).Ok? && |EncryptCbc(aes, data, key).data| == |Pad(data, BLOCK)|
    ensures EncryptCbc(aes, data, key).data[..BLOCK] == aes(key).enc(Xor(Pad(data, BLOCK)[..BLOCK], key[..BLOCK]))
  {
    var padded := Pad(data, BLOCK);
    CbcChains(aes(key), key[..BLOCK], padded, 0);
    assert padded[0..BLOCK] == padded[..BLOCK];
    var r := CbcEncrypt(aes(key), key[..BLOCK], padded);
    assert r[0..BLOCK] == r[..BLOCK];
  }
}
