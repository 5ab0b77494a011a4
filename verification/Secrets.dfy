/** Encryption at rest (`aws-secrets/secrets.go`): PKCS#7 padding (section 6.3 of RFC 5652), CBC
    chaining (section 6.2 of NIST SP 800-38A), and the IV in front.  The block cipher and the
    text encoding are parameters. */
module Secrets {
  import opened Strings

  type Byte = bv8
  type Bytes = seq<Byte>

  const BLOCK := 16
  const KEY := 32

  /** A block cipher and a text encoding, as the code uses them. */
  datatype Library = Library(
    encrypt: (Bytes, Bytes) -> Bytes, decrypt: (Bytes, Bytes) -> Bytes,
    toText: Bytes -> string, fromText: string -> Option<Bytes>)
  {
    /** Decryption undoes encryption block by block, and decoding undoes encoding. */
    ghost predicate Inverts() {
      && (forall k, b :: |b| == BLOCK ==> |encrypt(k, b)| == BLOCK && decrypt(k, encrypt(k, b)) == b)
      && (forall k, b :: |b| == BLOCK ==> |decrypt(k, b)| == BLOCK)
      && (forall b :: fromText(toText(b)) == Some(b))
    }
  }

  // ---------- Padding ----------

  function Repeat(b: Byte, n: nat): (r: Bytes)
    ensures |r| == n && forall i :: 0 <= i < n ==> r[i] == b
  {
    seq(n, _ => b)
  }

  function PadLength(n: nat): (p: nat)
    ensures 1 <= p <= BLOCK && (n + p) % BLOCK == 0
  {
    BLOCK - n % BLOCK
  }

  function Pad(data: Bytes): Bytes {
    data + Repeat(PadLength(|data|) as Byte, PadLength(|data|))
  }

  /** Trusts the last byte and does not look at the others; nothing is left of bad padding. */
  function Unpad(data: Bytes): Bytes
    requires |data| % BLOCK == 0
  {
    if data == [] then []
    else
      var padding := data[|data| - 1] as nat;
      if padding < 1 || padding > BLOCK then [] else data[..|data| - padding]
  }

  function LastByte(data: Bytes): nat
    requires data != []
  {
    data[|data| - 1] as nat
  }

  predicate ProperlyPadded(data: Bytes) {
    && data != []
    && 1 <= LastByte(data) <= BLOCK && LastByte(data) <= |data|
    && forall i :: |data| - LastByte(data) <= i < |data| ==> data[i] as nat == LastByte(data)
  }

  lemma PadIsProper(data: Bytes)
    ensures |Pad(data)| % BLOCK == 0 && ProperlyPadded(Pad(data))
    ensures |Pad(data)| - LastByte(Pad(data)) == |data|
  {
    var p := PadLength(|data|);
    assert (p as Byte) as nat == p;
    assert Pad(data)[|Pad(data)| - 1] == p as Byte;
  }

  lemma Front(data: Bytes, padded: Bytes)
    requires |data| <= |padded| && forall i :: 0 <= i < |data| ==> data[i] == padded[i]
    ensures padded[..|data|] == data
  {
  }

  /** The data and then `k` bytes of value `k`. */
  ghost predicate PaddedWith(data: Bytes, padded: Bytes, k: nat) {
    && |padded| == |data| + k && padded[..|data|] == data
    && forall i :: |data| <= i < |padded| ==> padded[i] as nat == k
  }

  /** Padding fills up the last block, or adds one. */
  lemma PadMeaning(data: Bytes)
    ensures PaddedWith(data, Pad(data), 16 - |data| % 16)
  {
    PadIsProper(data);
    Front(data, Pad(data));
  }

  /** The last byte says how much goes; a value it cannot have leaves nothing. */
  ghost predicate UnpaddedFrom(padded: Bytes, data: Bytes) {
    if padded != [] && 1 <= padded[|padded| - 1] as nat <= 16
    then exists tail :: padded == data + tail && |tail| == padded[|padded| - 1] as nat
    else data == []
  }

  lemma UnpadMeaning(padded: Bytes)
    requires |padded| % BLOCK == 0
    ensures UnpaddedFrom(padded, Unpad(padded))
  {
    if padded != [] && 1 <= padded[|padded| - 1] as nat <= 16 {
      var k := |padded| - padded[|padded| - 1] as nat;
      assert padded == padded[..k] + padded[k..];
    }
  }

  lemma UnpadOfPad(data: Bytes)
    ensures |Pad(data)| % BLOCK == 0 && Unpad(Pad(data)) == data
  {
    PadIsProper(data);
    Front(data, Pad(data));
  }

  lemma PaddingOf(n: nat, p: nat)
    requires n % BLOCK == 0 && 1 <= p <= BLOCK && p <= n
    ensures PadLength(n - p) == p
  {
  }

  lemma PadOfProper(data: Bytes)
    requires |data| % BLOCK == 0 && ProperlyPadded(data)
    ensures Pad(Unpad(data)) == data
  {
    var p := LastByte(data);
    PaddingOf(|data|, p);
    var rest := data[..|data| - p];
    forall i | |rest| <= i < |data|
      ensures data[i] == p as Byte
    {
      assert data[i] as nat == p;
    }
    assert rest + Repeat(p as Byte, p) == data;
  }

  /** Padding puts back what unpadding took away exactly when every padding byte was right; the
      code looks at one of them only. */
  lemma PadOfUnpadIff(data: Bytes)
    requires |data| % BLOCK == 0
    ensures Pad(Unpad(data)) == data <==> ProperlyPadded(data)
  {
    if Pad(Unpad(data)) == data {
      PadIsProper(Unpad(data));
    }
    if ProperlyPadded(data) {
      PadOfProper(data);
    }
  }

  // ---------- Chaining ----------

  function Xor(a: Bytes, b: Bytes): (r: Bytes)
    requires |a| == |b|
    ensures |r| == |a|
  {
    seq(|a|, i requires 0 <= i < |a| => a[i] ^ b[i])
  }

  lemma XorByte(a: Byte, b: Byte)
    ensures (a ^ b) ^ b == a
  {
  }

  lemma XorTwice(a: Bytes, b: Bytes)
    requires |a| == |b|
    ensures Xor(Xor(a, b), b) == a
  {
    forall i | 0 <= i < |a|
      ensures Xor(Xor(a, b), b)[i] == a[i]
    {
      XorByte(a[i], b[i]);
    }
  }

  function Dec(lib: Library, key: Bytes, c: Bytes): (b: Bytes)
    requires lib.Inverts() && |c| == BLOCK
    ensures |b| == BLOCK
  {
    lib.decrypt(key, c)
  }

  function Enc(lib: Library, key: Bytes, b: Bytes): (c: Bytes)
    requires lib.Inverts() && |b| == BLOCK
    ensures |c| == BLOCK && Dec(lib, key, c) == b
  {
    lib.encrypt(key, b)
  }

  /** Each block is masked with the ciphertext block before it. */
  function Chain(lib: Library, key: Bytes, iv: Bytes, data: Bytes): (c: Bytes)
    requires lib.Inverts() && |iv| == BLOCK && |data| % BLOCK == 0
    ensures |c| == |data|
    decreases |data|
  {
    if data == [] then []
    else
      var block := Enc(lib, key, Xor(data[..BLOCK], iv));
      block + Chain(lib, key, block, data[BLOCK..])
  }

  function Unchain(lib: Library, key: Bytes, iv: Bytes, data: Bytes): (p: Bytes)
    requires lib.Inverts() && |iv| == BLOCK && |data| % BLOCK == 0
    ensures |p| == |data|
    decreases |data|
  {
    if data == [] then []
    else Xor(Dec(lib, key, data[..BLOCK]), iv) + Unchain(lib, key, data[..BLOCK], data[BLOCK..])
  }

  lemma ChainCons(lib: Library, key: Bytes, iv: Bytes, head: Bytes, tail: Bytes)
    requires lib.Inverts() && |iv| == BLOCK && |head| == BLOCK && |tail| % BLOCK == 0
    ensures var block := Enc(lib, key, Xor(head, iv));
            Chain(lib, key, iv, head + tail) == block + Chain(lib, key, block, tail)
  {
    hide Enc, Xor, lib.Inverts;
    assert (head + tail)[..BLOCK] == head && (head + tail)[BLOCK..] == tail;
  }

  lemma UnchainCons(lib: Library, key: Bytes, iv: Bytes, head: Bytes, tail: Bytes)
    requires lib.Inverts() && |iv| == BLOCK && |head| == BLOCK && |tail| % BLOCK == 0
    ensures Unchain(lib, key, iv, head + tail) == Xor(Dec(lib, key, head), iv) + Unchain(lib, key, head, tail)
  {
    hide Dec, Xor, lib.Inverts;
    assert (head + tail)[..BLOCK] == head && (head + tail)[BLOCK..] == tail;
  }

  lemma Rejoin(data: Bytes)
    requires |data| >= BLOCK
    ensures data[..BLOCK] + data[BLOCK..] == data
  {
  }

  lemma {:induction false} UnchainOfChain(lib: Library, key: Bytes, iv: Bytes, data: Bytes)
    requires lib.Inverts() && |iv| == BLOCK && |data| % BLOCK == 0
    ensures Unchain(lib, key, iv, Chain(lib, key, iv, data)) == data
    decreases |data|
  {
    if data != [] {
      hide Chain, Unchain, Enc, Dec, Xor, lib.Inverts;
      var head, tail := data[..BLOCK], data[BLOCK..];
      var block := Enc(lib, key, Xor(head, iv));
      Rejoin(data);
      ChainCons(lib, key, iv, head, tail);
      UnchainCons(lib, key, iv, block, Chain(lib, key, block, tail));
      XorTwice(head, iv);
      UnchainOfChain(lib, key, block, tail);
    }
  }

  /** The block that masks the next one: the last of those done, or the IV. */
  function Previous(iv: Bytes, done: Bytes): (b: Bytes)
    requires |iv| == BLOCK && |done| % BLOCK == 0
    ensures |b| == BLOCK
  {
    if done == [] then iv else done[|done| - BLOCK..]
  }

  lemma PreviousOfCons(iv: Bytes, block: Bytes, tail: Bytes)
    requires |iv| == BLOCK && |block| == BLOCK && |tail| % BLOCK == 0
    ensures Previous(iv, block + tail) == Previous(block, tail)
  {
    if tail == [] {
      assert block + tail == block && block[0..] == block;
    } else {
      assert (block + tail)[|block + tail| - BLOCK..] == tail[|tail| - BLOCK..];
    }
  }

  lemma Assoc(a: Bytes, b: Bytes, c: Bytes)
    ensures (a + b) + c == a + (b + c)
  {
  }

  /** Chaining can be done from the front of the buffer to its end, one block at a time. */
  lemma {:induction false} ChainSnoc(lib: Library, key: Bytes, iv: Bytes, data: Bytes, last: Bytes)
    requires lib.Inverts() && |iv| == BLOCK && |data| % BLOCK == 0 && |last| == BLOCK
    ensures var c := Chain(lib, key, iv, data);
            Chain(lib, key, iv, data + last) == c + Enc(lib, key, Xor(last, Previous(iv, c)))
    decreases |data|
  {
    if data == [] {
      ChainCons(lib, key, iv, last, []);
      var block := Enc(lib, key, Xor(last, iv));
      assert data + last == last == last + [];
      assert [] + block == block == block + [];
    } else {
      hide Chain, Enc, Xor, Previous, lib.Inverts;
      var head, tail := data[..BLOCK], data[BLOCK..];
      var block := Enc(lib, key, Xor(head, iv));
      var c := Chain(lib, key, block, tail);
      Rejoin(data);
      ChainCons(lib, key, iv, head, tail);
      ChainCons(lib, key, iv, head, tail + last);
      ChainSnoc(lib, key, block, tail, last);
      PreviousOfCons(iv, block, c);
      Assoc(head, tail, last);
      Assoc(block, c, Enc(lib, key, Xor(last, Previous(block, c))));
    }
  }

  lemma {:induction false} UnchainSnoc(lib: Library, key: Bytes, iv: Bytes, data: Bytes, last: Bytes)
    requires lib.Inverts() && |iv| == BLOCK && |data| % BLOCK == 0 && |last| == BLOCK
    ensures Unchain(lib, key, iv, data + last)
         == Unchain(lib, key, iv, data) + Xor(Dec(lib, key, last), Previous(iv, data))
    decreases |data|
  {
    if data == [] {
      UnchainCons(lib, key, iv, last, []);
      var plain := Xor(Dec(lib, key, last), iv);
      assert data + last == last == last + [];
      assert [] + plain == plain == plain + [];
    } else {
      hide Unchain, Dec, Xor, Previous, lib.Inverts;
      var head, tail := data[..BLOCK], data[BLOCK..];
      Rejoin(data);
      UnchainCons(lib, key, iv, head, tail);
      UnchainCons(lib, key, iv, head, tail + last);
      UnchainSnoc(lib, key, head, tail, last);
      PreviousOfCons(iv, head, tail);
      Assoc(head, tail, last);
      Assoc(Xor(Dec(lib, key, head), iv), Unchain(lib, key, head, tail), Xor(Dec(lib, key, last), Previous(head, tail)));
    }
  }

  /** Puts one block into the buffer. */
  method PutBlock(dst: array<Byte>, i: nat, block: Bytes)
    requires i + BLOCK <= dst.Length && |block| == BLOCK
    modifies dst
    ensures dst[..i + BLOCK] == old(dst[..i]) + block
  {
    forall k | 0 <= k < BLOCK {
      dst[i + k] := block[k];
    }
    assert dst[i..i + BLOCK] == block;
    assert dst[..i] == old(dst[..i]);
    assert dst[..i + BLOCK] == dst[..i] + dst[i..i + BLOCK];
  }

  lemma Step(src: Bytes, i: nat)
    requires i < |src| && i % BLOCK == 0 && |src| % BLOCK == 0
    ensures i + BLOCK <= |src| && src[..i] + src[i..i + BLOCK] == src[..i + BLOCK]
  {
  }

  lemma PreviousOfSnoc(iv: Bytes, done: Bytes, block: Bytes)
    requires |iv| == BLOCK && |done| % BLOCK == 0 && |block| == BLOCK
    ensures Previous(iv, done + block) == block
  {
    assert (done + block)[|done + block| - BLOCK..] == block;
  }

  /** Fills `dst` block by block; each block written masks the next. */
  method EncryptBlocks(lib: Library, key: Bytes, iv: Bytes, dst: array<Byte>, src: Bytes)
    requires lib.Inverts() && |iv| == BLOCK && |src| % BLOCK == 0 && dst.Length == |src|
    modifies dst
    ensures dst[..] == Chain(lib, key, iv, src)
  {
    var prev := iv;
    var i := 0;
    assert src[..0] == [];
    hide Enc, Xor, lib.Inverts;
    while i < |src|
      invariant 0 <= i <= |src| && i % BLOCK == 0
      invariant dst[..i] == Chain(lib, key, iv, src[..i])
      invariant prev == Previous(iv, dst[..i])
    {
      hide Chain, Previous;
      Step(src, i);
      ChainSnoc(lib, key, iv, src[..i], src[i..i + BLOCK]);
      var block := Enc(lib, key, Xor(src[i..i + BLOCK], prev));
      PreviousOfSnoc(iv, dst[..i], block);
      PutBlock(dst, i, block);
      prev := block;
      i := i + BLOCK;
    }
    assert src[..i] == src && dst[..i] == dst[..];
  }

  /** The same loop the other way: the ciphertext block just read unmasks the next. */
  method DecryptBlocks(lib: Library, key: Bytes, iv: Bytes, dst: array<Byte>, src: Bytes)
    requires lib.Inverts() && |iv| == BLOCK && |src| % BLOCK == 0 && dst.Length == |src|
    modifies dst
    ensures dst[..] == Unchain(lib, key, iv, src)
  {
    var prev := iv;
    var i := 0;
    assert src[..0] == [];
    hide Dec, Xor, lib.Inverts;
    while i < |src|
      invariant 0 <= i <= |src| && i % BLOCK == 0
      invariant dst[..i] == Unchain(lib, key, iv, src[..i])
      invariant prev == Previous(iv, src[..i])
    {
      hide Unchain, Previous;
      Step(src, i);
      var block := src[i..i + BLOCK];
      UnchainSnoc(lib, key, iv, src[..i], block);
      PreviousOfSnoc(iv, src[..i], block);
      PutBlock(dst, i, Xor(Dec(lib, key, block), prev));
      prev := block;
      i := i + BLOCK;
    }
    assert src[..i] == src && dst[..i] == dst[..];
  }

  // ---------- Chaining, block by block and byte by byte ----------

  function Block(data: Bytes, n: nat): (b: Bytes)
    requires BLOCK * n + BLOCK <= |data|
    ensures |b| == BLOCK && forall i :: 0 <= i < BLOCK ==> b[i] == data[BLOCK * n + i]
  {
    data[BLOCK * n..BLOCK * n + BLOCK]
  }

  /** The ciphertext block before block `n`, or the IV. */
  function Before(iv: Bytes, cipher: Bytes, n: nat): (b: Bytes)
    requires |iv| == BLOCK && BLOCK * n <= |cipher|
    ensures |b| == BLOCK
  {
    if n == 0 then iv else Block(cipher, n - 1)
  }

  ghost predicate ExclusiveOr(x: Bytes, a: Bytes, b: Bytes) {
    |x| == |a| == |b| && forall i :: 0 <= i < |x| ==> x[i] == a[i] ^ b[i]
  }

  /** Every ciphertext block is the encryption, under this key, of the plaintext block exclusive or
      the ciphertext block before it, the IV for the first (section 6.2 of NIST SP 800-38A). */
  ghost predicate CbcEncryption(lib: Library, key: Bytes, iv: Bytes, plain: Bytes, cipher: Bytes) {
    && |iv| == BLOCK && |cipher| == |plain| && |plain| % BLOCK == 0
    && forall n, x :: 0 <= n < |plain| / BLOCK && ExclusiveOr(x, Block(plain, n), Before(iv, cipher, n)) ==>
         Block(cipher, n) == lib.encrypt(key, x)
  }

  /** Every plaintext block is the decryption, under this key, of its ciphertext block exclusive or
      the ciphertext block before that, the IV for the first. */
  ghost predicate CbcDecryption(lib: Library, key: Bytes, iv: Bytes, cipher: Bytes, plain: Bytes) {
    && |iv| == BLOCK && |plain| == |cipher| && |cipher| % BLOCK == 0
    && forall n :: 0 <= n < |cipher| / BLOCK ==>
         ExclusiveOr(Block(plain, n), lib.decrypt(key, Block(cipher, n)), Before(iv, cipher, n))
  }

  lemma BlockOfCons(head: Bytes, tail: Bytes, n: nat)
    requires |head| == BLOCK && BLOCK * n <= |tail|
    ensures Block(head + tail, 0) == head
    ensures n > 0 ==> Block(head + tail, n) == Block(tail, n - 1)
  {
  }

  lemma BeforeOfCons(iv: Bytes, head: Bytes, tail: Bytes, n: nat)
    requires |iv| == BLOCK && |head| == BLOCK && 0 < n && BLOCK * n <= |tail| + BLOCK
    ensures Before(iv, head + tail, n) == Before(head, tail, n - 1)
  {
    hide Block;
    BlockOfCons(head, tail, n - 1);
  }

  lemma {:induction false} ChainBlock(lib: Library, key: Bytes, iv: Bytes, data: Bytes, n: nat)
    requires lib.Inverts() && |iv| == BLOCK && |data| % BLOCK == 0 && BLOCK * n < |data|
    ensures var c := Chain(lib, key, iv, data);
            Block(c, n) == Enc(lib, key, Xor(Block(data, n), Before(iv, c, n)))
    decreases n
  {
    hide Chain, Enc, Xor, lib.Inverts;
    var head, tail := data[..BLOCK], data[BLOCK..];
    var block := Enc(lib, key, Xor(head, iv));
    var rest := Chain(lib, key, block, tail);
    Rejoin(data);
    ChainCons(lib, key, iv, head, tail);
    BlockOfCons(head, tail, n);
    BlockOfCons(block, rest, n);
    if n > 0 {
      ChainBlock(lib, key, block, tail, n - 1);
      BeforeOfCons(iv, block, rest, n);
    }
  }

  lemma {:induction false} UnchainBlock(lib: Library, key: Bytes, iv: Bytes, data: Bytes, n: nat)
    requires lib.Inverts() && |iv| == BLOCK && |data| % BLOCK == 0 && BLOCK * n < |data|
    ensures Block(Unchain(lib, key, iv, data), n) == Xor(Dec(lib, key, Block(data, n)), Before(iv, data, n))
    decreases n
  {
    hide Unchain, Dec, Xor, lib.Inverts;
    var head, tail := data[..BLOCK], data[BLOCK..];
    Rejoin(data);
    UnchainCons(lib, key, iv, head, tail);
    BlockOfCons(head, tail, n);
    BlockOfCons(Xor(Dec(lib, key, head), iv), Unchain(lib, key, head, tail), n);
    if n > 0 {
      UnchainBlock(lib, key, head, tail, n - 1);
      BeforeOfCons(iv, head, tail, n);
    }
  }

  lemma XorIs(x: Bytes, a: Bytes, b: Bytes)
    requires |a| == |b|
    ensures ExclusiveOr(x, a, b) <==> x == Xor(a, b)
  {
  }

  lemma EncIs(lib: Library, key: Bytes, b: Bytes)
    requires lib.Inverts() && |b| == BLOCK
    ensures Enc(lib, key, b) == lib.encrypt(key, b) && Dec(lib, key, b) == lib.decrypt(key, b)
  {
  }

  lemma ChainIsCbc(lib: Library, key: Bytes, iv: Bytes, plain: Bytes)
    requires lib.Inverts() && |iv| == BLOCK && |plain| % BLOCK == 0
    ensures CbcEncryption(lib, key, iv, plain, Chain(lib, key, iv, plain))
  {
    var c := Chain(lib, key, iv, plain);
    hide Chain, Enc, Xor, ExclusiveOr, lib.Inverts, Block, Before;
    forall n: nat, x | n < |plain| / BLOCK && ExclusiveOr(x, Block(plain, n), Before(iv, c, n))
      ensures Block(c, n) == lib.encrypt(key, x)
    {
      ChainBlock(lib, key, iv, plain, n);
      XorIs(x, Block(plain, n), Before(iv, c, n));
      EncIs(lib, key, x);
    }
  }

  lemma UnchainIsCbc(lib: Library, key: Bytes, iv: Bytes, cipher: Bytes)
    requires lib.Inverts() && |iv| == BLOCK && |cipher| % BLOCK == 0
    ensures CbcDecryption(lib, key, iv, cipher, Unchain(lib, key, iv, cipher))
  {
    var p := Unchain(lib, key, iv, cipher);
    hide Unchain, Dec, Xor, ExclusiveOr, lib.Inverts, Block, Before;
    forall n: nat | n < |cipher| / BLOCK
      ensures ExclusiveOr(Block(p, n), lib.decrypt(key, Block(cipher, n)), Before(iv, cipher, n))
    {
      UnchainBlock(lib, key, iv, cipher, n);
      EncIs(lib, key, Block(cipher, n));
      XorIs(Block(p, n), Dec(lib, key, Block(cipher, n)), Before(iv, cipher, n));
    }
  }

  // ---------- The two operations ----------

  datatype Outcome<T> = Ok(value: T) | Failed(error: string) | Panicked

  function Padded(plaintext: Bytes): (p: Bytes)
    ensures p == Pad(plaintext) && |p| % BLOCK == 0
  {
    UnpadOfPad(plaintext);
    Pad(plaintext)
  }

  method AESEncrypt(lib: Library, plaintext: Bytes, key: Bytes, iv: Bytes) returns (r: Outcome<string>)
    requires lib.Inverts() && |iv| == BLOCK
    ensures |key| != KEY ==> r.Failed?
    ensures |key| == KEY ==> r == Ok(lib.toText(iv + Chain(lib, key, iv, Padded(plaintext))))
    ensures |key| == 32 ==> exists padded, cipher ::
              && PaddedWith(plaintext, padded, 16 - |plaintext| % 16) && CbcEncryption(lib, key, iv, padded, cipher)
              && r == Ok(lib.toText(iv + cipher))
  {
    if |key| != KEY {
      return Failed("the key must be 32 bytes (AES-256)");
    }
    var padded := Padded(plaintext);
    var ciphertext := new Byte[|padded|](_ => 0);
    EncryptBlocks(lib, key, iv, ciphertext, padded);
    PadMeaning(plaintext);
    ChainIsCbc(lib, key, iv, padded);
    hide PaddedWith, CbcEncryption;
    return Ok(lib.toText(iv + ciphertext[..]));
  }

  /** What decryption gives: a ciphertext of broken blocks panics in the library. */
  function Decrypted(lib: Library, encodedText: string, key: Bytes): Outcome<Bytes>
    requires lib.Inverts()
  {
    match lib.fromText(encodedText)
    case None => Failed("base64 decoding failed")
    case Some(combined) =>
      if |combined| < BLOCK then Failed("invalid ciphertext length")
      else if |key| !in {16, 24, 32} then Failed("failed to create the AES decryptor")
      else if |combined| % BLOCK != 0 then Panicked
      else Ok(Unpad(Unchain(lib, key, combined[..BLOCK], combined[BLOCK..])))
  }

  method AESDecrypt(lib: Library, encodedText: string, key: Bytes) returns (r: Outcome<Bytes>)
    requires lib.Inverts()
    ensures r == Decrypted(lib, encodedText, key)
    ensures var decoded := lib.fromText(encodedText);
            if decoded.None? || |decoded.value| < 16 || |key| !in {16, 24, 32} then r.Failed?
            else if |decoded.value| % 16 != 0 then r.Panicked?
            else r.Ok? && exists plain ::
              && CbcDecryption(lib, key, decoded.value[..16], decoded.value[16..], plain) && UnpaddedFrom(plain, r.value)
  {
    var decoded := lib.fromText(encodedText);
    if decoded.None? {
      return Failed("base64 decoding failed");
    }
    var combined := decoded.value;
    if |combined| < BLOCK {
      return Failed("invalid ciphertext length");
    }
    var iv, ciphertext := combined[..BLOCK], combined[BLOCK..];
    if |key| !in {16, 24, 32} {
      return Failed("failed to create the AES decryptor");
    }
    if |ciphertext| % BLOCK != 0 {
      return Panicked;
    }
    var plaintext := new Byte[|ciphertext|](_ => 0);
    DecryptBlocks(lib, key, iv, plaintext, ciphertext);
    UnpadMeaning(plaintext[..]);
    UnchainIsCbc(lib, key, iv, ciphertext);
    hide UnpaddedFrom, CbcDecryption;
    return Ok(Unpad(plaintext[..]));
  }

  lemma Decodes(lib: Library, b: Bytes)
    requires lib.Inverts()
    ensures lib.fromText(lib.toText(b)) == Some(b)
  {
  }

  lemma Split16(iv: Bytes, c: Bytes)
    requires |iv| == BLOCK
    ensures (iv + c)[..BLOCK] == iv && (iv + c)[BLOCK..] == c
  {
  }

  /** Decrypting what was encrypted gives back every plaintext, for every key and IV. */
  lemma DecryptUndoesEncrypt(lib: Library, plaintext: Bytes, key: Bytes, iv: Bytes)
    requires lib.Inverts() && |iv| == BLOCK && |key| == KEY
    ensures Decrypted(lib, lib.toText(iv + Chain(lib, key, iv, Padded(plaintext))), key) == Ok(plaintext)
  {
    hide Chain, Unchain, Pad, Unpad, lib.Inverts;
    var c := Chain(lib, key, iv, Padded(plaintext));
    assert lib.fromText(lib.toText(iv + c)) == Some(iv + c) by {
      Decodes(lib, iv + c);
    }
    Split16(iv, c);
    UnchainOfChain(lib, key, iv, Padded(plaintext));
    UnpadOfPad(plaintext);
  }
}
