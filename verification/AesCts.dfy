/**
 * AES in CBC mode with ciphertext stealing (section 5 of RFC 3962), over an arbitrary pair of
 * block functions, with the IV chained from message to message.
 */
module AesCts {
  import opened Wrappers

  type octet = bv8

  const BLOCK := 16

  function Zeros(n: nat): (r: seq<octet>)
    ensures |r| == n && forall i | 0 <= i < n :: r[i] == 0
  {
    seq(n, _ => 0)
  }

  type Block = b: seq<octet> | |b| == BLOCK witness Zeros(BLOCK)

  function ZeroBlock(): Block { Zeros(BLOCK) }

  datatype CryptoError = InputTooShort | BadKeySize | BadParams | IntegrityFailure

  /** The block functions, keyed. */
  datatype Cipher = Cipher(enc: (seq<octet>, Block) -> Block, dec: (seq<octet>, Block) -> Block)

  /** Encryption and decryption of one block undo each other. */
  ghost predicate Invertible(c: Cipher) {
    forall key, b: Block :: c.dec(key, c.enc(key, b)) == b && c.enc(key, c.dec(key, b)) == b
  }

  predicate GoodKey(key: seq<octet>) { |key| == 16 || |key| == 32 }

  function XorOctet(a: octet, b: octet): (r: octet)
    ensures XorsBack(a, b, r)
  {
    a ^ b
  }

  /** The two facts about exclusive or that the modes rest on. */
  predicate XorsBack(a: octet, b: octet, r: octet) { r ^ b == a && (a == 0 ==> r == b) }

  function Xor(a: seq<octet>, b: seq<octet>): (r: seq<octet>)
    requires |a| == |b|
    ensures |r| == |a|
  {
    seq(|a|, i requires 0 <= i < |a| => XorOctet(a[i], b[i]))
  }

  method XorLoop(a: seq<octet>, b: seq<octet>) returns (r: seq<octet>)
    requires |a| == |b|
    ensures r == Xor(a, b)
  {
    r := [];
    for i := 0 to |a|
      invariant |r| == i && forall k | 0 <= k < i :: r[k] == XorOctet(a[k], b[k])
    {
      r := r + [XorOctet(a[i], b[i])];
    }
  }

  lemma XorTwice(a: seq<octet>, b: seq<octet>)
    requires |a| == |b|
    ensures Xor(Xor(a, b), b) == a
  {
  }

  // ----- CBC -----

  function CbcEnc(c: Cipher, key: seq<octet>, iv: Block, data: seq<octet>): (r: seq<octet>)
    requires |data| % BLOCK == 0
    ensures |r| == |data|
    decreases |data|
  {
    if data == [] then [] else
    var e := c.enc(key, Xor(data[..BLOCK], iv));
    e + CbcEnc(c, key, e, data[BLOCK..])
  }

  function CbcDec(c: Cipher, key: seq<octet>, iv: Block, data: seq<octet>): (r: seq<octet>)
    requires |data| % BLOCK == 0
    ensures |r| == |data|
    decreases |data|
  {
    if data == [] then [] else
    var d: Block := data[..BLOCK];
    Xor(c.dec(key, d), iv) + CbcDec(c, key, d, data[BLOCK..])
  }

  /** The IV left behind by a run of ciphertext blocks. */
  function LastBlock(iv: Block, data: seq<octet>): Block
    requires |data| % BLOCK == 0
  {
    if data == [] then iv else data[|data| - BLOCK..]
  }

  lemma {:induction false} CbcEncConcat(c: Cipher, key: seq<octet>, iv: Block, a: seq<octet>, b: seq<octet>)
    requires |a| % BLOCK == 0 && |b| % BLOCK == 0
    ensures CbcEnc(c, key, iv, a + b)
            == CbcEnc(c, key, iv, a) + CbcEnc(c, key, LastBlock(iv, CbcEnc(c, key, iv, a)), b)
    decreases |a|
  {
    if a == [] {
      assert a + b == b;
    } else {
      var e := c.enc(key, Xor(a[..BLOCK], iv));
      CbcEncConcat(c, key, e, a[BLOCK..], b);
      assert (a + b)[..BLOCK] == a[..BLOCK] && (a + b)[BLOCK..] == a[BLOCK..] + b;
      var rest := CbcEnc(c, key, e, a[BLOCK..]);
      assert LastBlock(iv, e + rest) == LastBlock(e, rest);
    }
  }

  lemma {:induction false} CbcInverse(c: Cipher, key: seq<octet>, iv: Block, data: seq<octet>)
    requires Invertible(c) && |data| % BLOCK == 0
    ensures CbcDec(c, key, iv, CbcEnc(c, key, iv, data)) == data
    ensures CbcEnc(c, key, iv, CbcDec(c, key, iv, data)) == data
    decreases |data|
  {
    if data != [] {
      var d: Block := data[..BLOCK];
      var x: Block := Xor(d, iv);
      var e := c.enc(key, x);
      CbcInverse(c, key, e, data[BLOCK..]);
      XorTwice(d, iv);
      assert CbcEnc(c, key, iv, data)[..BLOCK] == e;
      assert CbcEnc(c, key, iv, data)[BLOCK..] == CbcEnc(c, key, e, data[BLOCK..]);
      CbcInverse(c, key, d, data[BLOCK..]);
      var p: Block := Xor(c.dec(key, d), iv);
      XorTwice(c.dec(key, d), iv);
      assert CbcDec(c, key, iv, data)[..BLOCK] == p;
      assert CbcDec(c, key, iv, data)[BLOCK..] == CbcDec(c, key, d, data[BLOCK..]);
      assert d + data[BLOCK..] == data;
    }
  }

  lemma EncStep(c: Cipher, key: seq<octet>, prev: Block, data: seq<octet>, pos: nat, done: seq<octet>)
    requires |data| % BLOCK == 0 && pos % BLOCK == 0 && pos <= |data|
    ensures pos == |data| ==> done + CbcEnc(c, key, prev, data[pos..]) == done
    ensures pos < |data| ==>
              var e := c.enc(key, Xor(data[pos..pos + BLOCK], prev));
              done + CbcEnc(c, key, prev, data[pos..]) == done + e + CbcEnc(c, key, e, data[pos + BLOCK..])
  {
    if pos < |data| {
      assert data[pos..][..BLOCK] == data[pos..pos + BLOCK] && data[pos..][BLOCK..] == data[pos + BLOCK..];
    }
  }

  lemma DecStep(c: Cipher, key: seq<octet>, prev: Block, data: seq<octet>, pos: nat, done: seq<octet>)
    requires |data| % BLOCK == 0 && pos % BLOCK == 0 && pos <= |data|
    ensures pos == |data| ==> done + CbcDec(c, key, prev, data[pos..]) == done
    ensures pos < |data| ==>
              var d: Block := data[pos..pos + BLOCK];
              done + CbcDec(c, key, prev, data[pos..])
              == done + Xor(c.dec(key, d), prev) + CbcDec(c, key, d, data[pos + BLOCK..])
  {
    if pos < |data| {
      assert data[pos..][..BLOCK] == data[pos..pos + BLOCK] && data[pos..][BLOCK..] == data[pos + BLOCK..];
    }
  }

  method CbcEncrypt(c: Cipher, key: seq<octet>, iv: Block, data: seq<octet>) returns (r: Result<seq<octet>, CryptoError>)
    ensures r == (if |data| % BLOCK != 0 then Err(InputTooShort)
                  else if !GoodKey(key) && data != [] then Err(BadKeySize)
                  else Ok(CbcEnc(c, key, iv, data)))
  {
    if |data| % BLOCK != 0 {
      return Err(InputTooShort);
    }
    hide CbcEnc, Xor, GoodKey;
    var result: seq<octet> := [];
    var prev := iv;
    var pos := 0;
    assert data[0..] == data && result + CbcEnc(c, key, iv, data) == CbcEnc(c, key, iv, data);
    while pos < |data|
      invariant 0 <= pos <= |data| && pos % BLOCK == 0
      invariant pos > 0 ==> GoodKey(key)
      invariant CbcEnc(c, key, iv, data) == result + CbcEnc(c, key, prev, data[pos..])
    {
      assert pos + BLOCK <= |data| && (pos + BLOCK) % BLOCK == 0;
      EncStep(c, key, prev, data, pos, result);
      var block := XorLoop(data[pos..pos + BLOCK], prev);
      if !GoodKey(key) {
        return Err(BadKeySize);
      }
      prev := c.enc(key, block);
      result := result + prev;
      pos := pos + BLOCK;
    }
    EncStep(c, key, prev, data, pos, result);
    return Ok(result);
  }

  method CbcDecrypt(c: Cipher, key: seq<octet>, iv: Block, data: seq<octet>) returns (r: Result<seq<octet>, CryptoError>)
    ensures r == (if |data| % BLOCK != 0 then Err(InputTooShort)
                  else if !GoodKey(key) && data != [] then Err(BadKeySize)
                  else Ok(CbcDec(c, key, iv, data)))
  {
    if |data| % BLOCK != 0 {
      return Err(InputTooShort);
    }
    hide CbcDec, Xor, GoodKey;
    var result: seq<octet> := [];
    var prev := iv;
    var pos := 0;
    assert data[0..] == data && result + CbcDec(c, key, iv, data) == CbcDec(c, key, iv, data);
    while pos < |data|
      invariant 0 <= pos <= |data| && pos % BLOCK == 0
      invariant pos > 0 ==> GoodKey(key)
      invariant CbcDec(c, key, iv, data) == result + CbcDec(c, key, prev, data[pos..])
    {
      assert pos + BLOCK <= |data| && (pos + BLOCK) % BLOCK == 0;
      DecStep(c, key, prev, data, pos, result);
      if !GoodKey(key) {
        return Err(BadKeySize);
      }
      var chunk: Block := data[pos..pos + BLOCK];
      var plain := XorLoop(c.dec(key, chunk), prev);
      prev := chunk;
      result := result + plain;
      pos := pos + BLOCK;
    }
    DecStep(c, key, prev, data, pos, result);
    return Ok(result);
  }

  // ----- ciphertext stealing -----

  /** A result together with the IV afterwards. */
  datatype Chained<+T> = Chained(result: Result<T, CryptoError>, iv: Block)

  /** Where the last two blocks of `n` bytes start: the last may be partial, never empty. */
  function Split(n: nat): (r: nat)
    requires n > BLOCK
    ensures r % BLOCK == 0 && r + BLOCK < n <= r + 2 * BLOCK
  {
    (n - 1) / BLOCK * BLOCK - BLOCK
  }

  /** The bytes `p` filled up to a block with zeros. */
  function Padded(p: seq<octet>): Block
    requires |p| <= BLOCK
  {
    p + Zeros(BLOCK - |p|)
  }

  /** Output bytes and the IV they leave. */
  datatype Stolen = Stolen(out: seq<octet>, iv: Block)

  /** Encryption of whole blocks `pre`, a block `x` and a last piece `y` of 1 to 16 bytes. */
  function Steal(c: Cipher, key: seq<octet>, iv: Block, pre: seq<octet>, x: Block, y: seq<octet>): Stolen
    requires |pre| % BLOCK == 0 && 0 < |y| <= BLOCK
  {
    var head := CbcEnc(c, key, iv, pre);
    var c1 := c.enc(key, Xor(x, LastBlock(iv, head)));
    var c2 := c.enc(key, Xor(Padded(y), c1));
    Stolen(head + c2 + c1[..|y|], c2)
  }

  /** Decryption of a ciphertext made of `head`, the full block `c2` and the truncated block `c1`. */
  function Unsteal(c: Cipher, key: seq<octet>, iv: Block, head: seq<octet>, c2: Block, c1: seq<octet>): Stolen
    requires |head| % BLOCK == 0 && 0 < |c1| <= BLOCK
  {
    var mid := c.dec(key, c2);
    var y := Xor(mid[..|c1|], c1);
    var x := Xor(c.dec(key, c1 + mid[|c1|..]), LastBlock(iv, head));
    Stolen(CbcDec(c, key, iv, head) + x + y, c2)
  }

  /** `aes_cts_encrypt_iv`: the ciphertext, and the IV it leaves. */
  function EncryptIv(c: Cipher, key: seq<octet>, iv: Block, p: seq<octet>): Chained<seq<octet>> {
    if |p| < BLOCK then Chained(Err(InputTooShort), iv)
    else if !GoodKey(key) then Chained(Err(BadKeySize), iv)
    else if |p| == BLOCK then Chained(Ok(CbcEnc(c, key, ZeroBlock(), p)), iv)
    else
      var s := Split(|p|);
      var t := Steal(c, key, iv, p[..s], p[s..s + BLOCK], p[s + BLOCK..]);
      Chained(Ok(t.out), t.iv)
  }

  /** `aes_cts_decrypt_iv`; a key of the wrong size is noticed after the IV is set when there are two blocks. */
  function DecryptIv(c: Cipher, key: seq<octet>, iv: Block, ct: seq<octet>): Chained<seq<octet>> {
    if |ct| < BLOCK then Chained(Err(InputTooShort), iv)
    else if |ct| == BLOCK then
      if !GoodKey(key) then Chained(Err(BadKeySize), iv) else Chained(Ok(CbcDec(c, key, ZeroBlock(), ct)), iv)
    else
      var s := Split(|ct|);
      if !GoodKey(key) then Chained(Err(BadKeySize), if s > 0 then iv else ct[s..s + BLOCK]) else
      var t := Unsteal(c, key, iv, ct[..s], ct[s..s + BLOCK], ct[s + BLOCK..]);
      Chained(Ok(t.out), t.iv)
  }

  // ----- both directions -----

  lemma PaddedXor(y: seq<octet>, c1: Block)
    requires 0 < |y| <= BLOCK
    ensures var mid := Xor(Padded(y), c1);
            Xor(mid[..|y|], c1[..|y|]) == y && c1[..|y|] + mid[|y|..] == c1
  {
    var mid := Xor(Padded(y), c1);
    forall i | 0 <= i < |y|
      ensures Xor(mid[..|y|], c1[..|y|])[i] == y[i]
    {
    }
    forall i | |y| <= i < BLOCK
      ensures mid[i] == c1[i]
    {
      assert Padded(y)[i] == 0;
    }
  }

  lemma UnstealSteal(c: Cipher, key: seq<octet>, iv: Block, pre: seq<octet>, x: Block, y: seq<octet>)
    requires Invertible(c) && |pre| % BLOCK == 0 && 0 < |y| <= BLOCK
    ensures var t := Steal(c, key, iv, pre, x, y);
            && |t.out| == |pre| + BLOCK + |y|
            && Unsteal(c, key, iv, t.out[..|pre|], t.out[|pre|..|pre| + BLOCK], t.out[|pre| + BLOCK..]) == Stolen(pre + x + y, t.iv)
  {
    var head := CbcEnc(c, key, iv, pre);
    var c1 := c.enc(key, Xor(x, LastBlock(iv, head)));
    var c2 := c.enc(key, Xor(Padded(y), c1));
    var ct := head + c2 + c1[..|y|];
    assert ct[..|pre|] == head && ct[|pre|..|pre| + BLOCK] == c2 && ct[|pre| + BLOCK..] == c1[..|y|];
    CbcInverse(c, key, iv, pre);
    PaddedXor(y, c1);
    XorTwice(x, LastBlock(iv, head));
  }

  lemma MidXor(mid: Block, c1: seq<octet>)
    requires 0 < |c1| <= BLOCK
    ensures Xor(Padded(Xor(mid[..|c1|], c1)), c1 + mid[|c1|..]) == mid
  {
    var y := Xor(mid[..|c1|], c1);
    forall i | 0 <= i < BLOCK
      ensures Xor(Padded(y), c1 + mid[|c1|..])[i] == mid[i]
    {
    }
  }

  lemma StealUnsteal(c: Cipher, key: seq<octet>, iv: Block, head: seq<octet>, c2: Block, c1: seq<octet>)
    requires Invertible(c) && |head| % BLOCK == 0 && 0 < |c1| <= BLOCK
    ensures var t := Unsteal(c, key, iv, head, c2, c1);
            var s := |head|;
            && |t.out| == s + BLOCK + |c1|
            && Steal(c, key, iv, t.out[..s], t.out[s..s + BLOCK], t.out[s + BLOCK..]) == Stolen(head + c2 + c1, t.iv)
  {
    var s := |head|;
    var mid := c.dec(key, c2);
    var y := Xor(mid[..|c1|], c1);
    var full: Block := c1 + mid[|c1|..];
    var x: Block := Xor(c.dec(key, full), LastBlock(iv, head));
    var pre := CbcDec(c, key, iv, head);
    var p := pre + x + y;
    assert p[..s] == pre && p[s..s + BLOCK] == x && p[s + BLOCK..] == y;
    CbcInverse(c, key, iv, head);
    XorTwice(c.dec(key, full), LastBlock(iv, head));
    MidXor(mid, c1);
    assert full[..|c1|] == c1;
  }

  lemma Rejoined(p: seq<octet>)
    requires |p| > BLOCK
    ensures var s := Split(|p|); p[..s] + p[s..s + BLOCK] + p[s + BLOCK..] == p
  {
  }

  /**
   * Under any IV, CTS encryption keeps the length and decryption undoes it, both directions
   * leaving the same IV; a single block leaves the IV untouched.
   */
  lemma DecryptUndoesEncrypt(c: Cipher, key: seq<octet>, iv: Block, p: seq<octet>)
    requires Invertible(c) && GoodKey(key) && |p| >= BLOCK
    ensures var e := EncryptIv(c, key, iv, p);
            && e.result.Ok? && |e.result.value| == |p|
            && DecryptIv(c, key, iv, e.result.value) == Chained(Ok(p), e.iv)
            && (|p| == BLOCK ==> e.iv == iv)
  {
    hide Steal, Unsteal, CbcEnc, CbcDec, Split;
    if |p| == BLOCK {
      CbcInverse(c, key, ZeroBlock(), p);
    } else {
      var s := Split(|p|);
      UnstealSteal(c, key, iv, p[..s], p[s..s + BLOCK], p[s + BLOCK..]);
      Rejoined(p);
    }
  }

  /** And encryption undoes decryption, so encryption under an IV is a bijection on each length. */
  lemma EncryptUndoesDecrypt(c: Cipher, key: seq<octet>, iv: Block, ct: seq<octet>)
    requires Invertible(c) && GoodKey(key) && |ct| >= BLOCK
    ensures var d := DecryptIv(c, key, iv, ct);
            && d.result.Ok? && |d.result.value| == |ct|
            && EncryptIv(c, key, iv, d.result.value) == Chained(Ok(ct), d.iv)
  {
    hide Steal, Unsteal, CbcEnc, CbcDec, Split;
    if |ct| == BLOCK {
      CbcInverse(c, key, ZeroBlock(), ct);
    } else {
      var s := Split(|ct|);
      StealUnsteal(c, key, iv, ct[..s], ct[s..s + BLOCK], ct[s + BLOCK..]);
      Rejoined(ct);
    }
  }

  // ----- the two procedures, on an IV updated in place -----

  /** `aes_cts_encrypt_iv`. */
  method CtsEncryptIv(c: Cipher, key: seq<octet>, iv: array<octet>, p: seq<octet>) returns (r: Result<seq<octet>, CryptoError>)
    requires iv.Length == BLOCK
    modifies iv
    ensures Chained(r, iv[..]) == EncryptIv(c, key, old(iv[..]), p)
  {
    hide CbcEnc, Split;
    if |p| < BLOCK {
      return Err(InputTooShort);
    }
    if |p| == BLOCK {
      r := CbcEncrypt(c, key, ZeroBlock(), p);
      return;
    }
    var padLen := (BLOCK - |p| % BLOCK) % BLOCK;
    var padded := p + Zeros(padLen);
    var cbc := CbcEncrypt(c, key, iv[..], padded);
    if cbc.Err? {
      return Err(cbc.error);
    }
    var out := cbc.value;
    var n := |out| / BLOCK;
    CbcOfPadded(c, key, iv[..], p, padded, n);
    Copy(iv, out[(n - 1) * BLOCK..]);
    var result: seq<octet> := [];
    if n > 2 {
      result := out[..(n - 2) * BLOCK];
    }
    var secondLast := out[(n - 2) * BLOCK..(n - 1) * BLOCK];
    var last := out[(n - 1) * BLOCK..n * BLOCK];
    var tail := |p| - (n - 1) * BLOCK;
    return Ok(result + last + secondLast[..tail]);
  }

  /** `copy_from_slice` into the IV. */
  method Copy(iv: array<octet>, block: seq<octet>)
    requires iv.Length == |block|
    modifies iv
    ensures iv[..] == block
  {
    for i := 0 to iv.Length
      invariant iv[..i] == block[..i]
    {
      iv[i] := block[i];
      assert iv[..i + 1] == iv[..i] + [iv[i]];
    }
  }

  /** CBC over the padded plaintext, seen as the blocks before the last two and those two. */
  lemma CbcOfPadded(c: Cipher, key: seq<octet>, iv: Block, p: seq<octet>, padded: seq<octet>, n: nat)
    requires |p| > BLOCK && |padded| % BLOCK == 0 && n == |padded| / BLOCK
    requires padded == p + Zeros((BLOCK - |p| % BLOCK) % BLOCK)
    ensures n >= 2 && Split(|p|) == (n - 2) * BLOCK && |p| > (n - 1) * BLOCK && |padded| == n * BLOCK
    ensures var s := Split(|p|);
            var out := CbcEnc(c, key, iv, padded);
            var t := Steal(c, key, iv, p[..s], p[s..s + BLOCK], p[s + BLOCK..]);
            && |out| == n * BLOCK
            && t.iv == out[(n - 1) * BLOCK..]
            && t.out == out[..s] + out[(n - 1) * BLOCK..n * BLOCK] + out[s..(n - 1) * BLOCK][..|p| - (n - 1) * BLOCK]
  {
    hide Invertible, CbcEnc, Xor, LastBlock, Split;
    var s := Split(|p|);
    var pre, x, y := p[..s], p[s..s + BLOCK], p[s + BLOCK..];
    PadSplit(p, padded, s);
    CbcEncConcat(c, key, iv, pre, x + Padded(y));
    var head := CbcEnc(c, key, iv, pre);
    TwoBlocks(c, key, LastBlock(iv, head), x, Padded(y));
    var c1 := c.enc(key, Xor(x, LastBlock(iv, head)));
    ThreeParts(head, c1, c.enc(key, Xor(Padded(y), c1)));
    assert n * BLOCK == s + 2 * BLOCK && (n - 1) * BLOCK == s + BLOCK;
  }

  lemma PadSplit(p: seq<octet>, padded: seq<octet>, s: nat)
    requires |p| > BLOCK && s == Split(|p|) && padded == p + Zeros((BLOCK - |p| % BLOCK) % BLOCK)
    ensures |padded| == s + 2 * BLOCK && padded == p[..s] + (p[s..s + BLOCK] + Padded(p[s + BLOCK..]))
  {
  }

  lemma ThreeParts(head: seq<octet>, c1: Block, c2: Block)
    ensures var out, s := head + (c1 + c2), |head|;
            out[..s] == head && out[s..s + BLOCK] == c1 && out[s + BLOCK..s + 2 * BLOCK] == c2 && out[s + BLOCK..] == c2
  {
  }

  lemma TwoBlocks(c: Cipher, key: seq<octet>, iv: Block, x: Block, z: Block)
    ensures var c1 := c.enc(key, Xor(x, iv));
            CbcEnc(c, key, iv, x + z) == c1 + c.enc(key, Xor(z, c1))
  {
    var c1 := c.enc(key, Xor(x, iv));
    assert (x + z)[..BLOCK] == x && (x + z)[BLOCK..] == z;
    assert z[..BLOCK] == z && z[BLOCK..] == [];
    assert CbcEnc(c, key, c1, z) == c.enc(key, Xor(z, c1)) + [];
  }

  /** `aes_cts_decrypt_iv`. */
  method CtsDecryptIv(c: Cipher, key: seq<octet>, iv: array<octet>, ct: seq<octet>) returns (r: Result<seq<octet>, CryptoError>)
    requires iv.Length == BLOCK
    modifies iv
    ensures Chained(r, iv[..]) == DecryptIv(c, key, old(iv[..]), ct)
  {
    hide CbcDec;
    if |ct| < BLOCK {
      return Err(InputTooShort);
    }
    if |ct| == BLOCK {
      r := CbcDecrypt(c, key, ZeroBlock(), ct);
      return;
    }
    var n := (|ct| + BLOCK - 1) / BLOCK;
    var tail := |ct| - (n - 1) * BLOCK;
    var s := (n - 2) * BLOCK;
    assert s == Split(|ct|);
    var plain: seq<octet> := [];
    var prev: Block := iv[..];
    if n > 2 {
      var prefix := CbcDecrypt(c, key, prev, ct[..s]);
      if prefix.Err? {
        return Err(prefix.error);
      }
      prev := ct[s - BLOCK..s];
      plain := prefix.value;
    }
    EmptyDec(c, key, iv[..]);
    assert prev == LastBlock(iv[..], ct[..s]);
    var cn1: Block := ct[s..s + BLOCK];
    var partial := ct[s + BLOCK..];
    Copy(iv, cn1);
    if !GoodKey(key) {
      return Err(BadKeySize);
    }
    var mid := c.dec(key, cn1);
    var last := XorLoop(mid[..tail], partial);
    var full: Block := partial + mid[tail..];
    var penultimate := XorLoop(c.dec(key, full), prev);
    return Ok(plain + penultimate + last);
  }

  lemma EmptyDec(c: Cipher, key: seq<octet>, iv: Block)
    ensures CbcDec(c, key, iv, []) == []
  {
  }
}
