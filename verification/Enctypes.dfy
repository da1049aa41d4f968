/**
 * The two AES enctype families over CTS with a chained cipher state: the SHA-1 profile MACs the
 * plaintext (section 6 of RFC 3962), the SHA-2 profile MACs the state and the ciphertext
 * (section 5 of RFC 8009). Key derivation and the MAC are arbitrary functions.
 */
module Enctypes {
  import opened Wrappers
  import opened AesCts

  datatype Family = Sha1 | Sha2

  datatype Purpose = Encryption | Integrity

  /** One enctype: its block cipher, derivation, MAC, key length and MAC length. */
  datatype Suite = Suite(
    family: Family,
    cipher: Cipher,
    derive: (seq<octet>, nat, Purpose) -> seq<octet>,
    mac: (seq<octet>, seq<octet>) -> seq<octet>,
    keyLen: nat,
    tagLen: nat)
  {
    /** What the real primitives provide. */
    ghost predicate Sound() {
      && Invertible(cipher)
      && (keyLen == 16 || keyLen == 32)
      && (forall k, u :: |k| == keyLen ==> |derive(k, u, Encryption)| == keyLen)
      && (forall k, d :: |mac(k, d)| >= tagLen)
    }

    /** The MAC cut to its length. */
    function Tag(key: seq<octet>, data: seq<octet>): seq<octet> {
      var t := mac(key, data);
      if |t| >= tagLen then t[..tagLen] else t
    }
  }

  /** The checks of key length and usage number; the SHA-2 decryption makes them after its length checks. */
  function CheckKey(s: Suite, key: seq<octet>, usage: int): Option<CryptoError> {
    if |key| != s.keyLen then Some(BadKeySize) else if usage < 0 then Some(BadParams) else None
  }

  /** Both families' encryption: which bytes are MACed is what differs. */
  function Encrypt(s: Suite, key: seq<octet>, usage: int, confounder: Block, text: seq<octet>, state: Block): Chained<seq<octet>> {
    var bad := CheckKey(s, key, usage);
    if bad.Some? then Chained(Err(bad.value), state) else
    var ke, ki := s.derive(key, usage, Encryption), s.derive(key, usage, Integrity);
    var data := confounder + text;
    var e := EncryptIv(s.cipher, ke, state, data);
    if e.result.Err? then e else
    var tag := if s.family.Sha1? then s.Tag(ki, data) else s.Tag(ki, state + e.result.value);
    Chained(Ok(e.result.value + tag), e.iv)
  }

  /** `aes_decrypt`: decrypt, then compare; a mismatch is noticed after the state has moved. */
  function Sha1Decrypt(s: Suite, key: seq<octet>, usage: int, ct: seq<octet>, state: Block): Chained<seq<octet>> {
    var bad := CheckKey(s, key, usage);
    if bad.Some? then Chained(Err(bad.value), state)
    else if |ct| < s.tagLen || |ct| - s.tagLen < BLOCK then Chained(Err(InputTooShort), state)
    else
      var ke, ki := s.derive(key, usage, Encryption), s.derive(key, usage, Integrity);
      var n := |ct| - s.tagLen;
      var d := DecryptIv(s.cipher, ke, state, ct[..n]);
      if d.result.Err? then d
      else if s.Tag(ki, d.result.value) != ct[n..] then Chained(Err(IntegrityFailure), d.iv)
      else Chained(Ok(Stripped(d.result.value)), d.iv)
  }

  /** `sha2_decrypt`: compare, then decrypt. */
  function Sha2Decrypt(s: Suite, key: seq<octet>, usage: int, ct: seq<octet>, state: Block): Chained<seq<octet>> {
    var bad := CheckKey(s, key, usage);
    if |ct| < s.tagLen || |ct| - s.tagLen < BLOCK then Chained(Err(InputTooShort), state)
    else if bad.Some? then Chained(Err(bad.value), state)
    else
      var ke, ki := s.derive(key, usage, Encryption), s.derive(key, usage, Integrity);
      var n := |ct| - s.tagLen;
      if s.Tag(ki, state + ct[..n]) != ct[n..] then Chained(Err(IntegrityFailure), state) else
      var d := DecryptIv(s.cipher, ke, state, ct[..n]);
      if d.result.Err? then d else Chained(Ok(Stripped(d.result.value)), d.iv)
  }

  /** The plaintext without its confounder. */
  function Stripped(data: seq<octet>): seq<octet> {
    if |data| < BLOCK then [] else data[BLOCK..]
  }

  function Decrypt(s: Suite, key: seq<octet>, usage: int, ct: seq<octet>, state: Block): Chained<seq<octet>> {
    if s.family.Sha1? then Sha1Decrypt(s, key, usage, ct, state) else Sha2Decrypt(s, key, usage, ct, state)
  }

  /** A message encrypted under a state is decrypted under that state, leaving the same state. */
  lemma RoundTrip(s: Suite, key: seq<octet>, usage: int, confounder: Block, text: seq<octet>, state: Block)
    requires s.Sound() && |key| == s.keyLen && usage >= 0
    ensures var e := Encrypt(s, key, usage, confounder, text, state);
            e.result.Ok? && Decrypt(s, key, usage, e.result.value, state) == Chained(Ok(text), e.iv)
  {
    hide EncryptIv, DecryptIv, Invertible;
    var ke, data := s.derive(key, usage, Encryption), confounder + text;
    DecryptUndoesEncrypt(s.cipher, ke, state, data);
    var ct := EncryptIv(s.cipher, ke, state, data).result.value;
    var whole := Encrypt(s, key, usage, confounder, text, state).result.value;
    assert |whole| == |ct| + s.tagLen && whole[..|ct|] == ct;
    assert Stripped(data) == text;
  }

  /** Conversely only what encryption produces is accepted: the confounder is there to be found. */
  lemma AcceptedIsProduced(s: Suite, key: seq<octet>, usage: int, ct: seq<octet>, state: Block) returns (confounder: Block)
    requires s.Sound() && Decrypt(s, key, usage, ct, state).result.Ok?
    ensures var d := Decrypt(s, key, usage, ct, state);
            Encrypt(s, key, usage, confounder, d.result.value, state) == Chained(Ok(ct), d.iv)
  {
    hide EncryptIv, DecryptIv, Invertible;
    var ke, n := s.derive(key, usage, Encryption), |ct| - s.tagLen;
    EncryptUndoesDecrypt(s.cipher, ke, state, ct[..n]);
    var data := DecryptIv(s.cipher, ke, state, ct[..n]).result.value;
    confounder := data[..BLOCK];
    assert confounder + Stripped(data) == data;
    assert ct[..n] + ct[n..] == ct;
  }

  /**
   * A failed integrity check leaves the SHA-2 state alone; the SHA-1 state stays only for a
   * single block or when the block it moves to is the state itself.
   */
  lemma StateAfterFailure(s: Suite, key: seq<octet>, usage: int, ct: seq<octet>, state: Block)
    requires s.Sound() && Decrypt(s, key, usage, ct, state).result == Err(IntegrityFailure)
    ensures |ct| >= s.tagLen + BLOCK
    ensures var n := |ct| - s.tagLen;
            Decrypt(s, key, usage, ct, state).iv == state
            <==> s.family.Sha2? || n == BLOCK || ct[Split(n)..Split(n) + BLOCK] == state
  {
    hide CbcDec, Split, Invertible;
    var n := |ct| - s.tagLen;
    if n > BLOCK {
      assert ct[..n][Split(n)..Split(n) + BLOCK] == ct[Split(n)..Split(n) + BLOCK];
    }
  }

  /** In every SHA-1 suite and from every state, some ciphertext fails its check and moves the state. */
  lemma FailureMovesState(s: Suite, key: seq<octet>, usage: int, state: Block) returns (ct: seq<octet>)
    requires s.Sound() && s.family.Sha1? && s.tagLen > 0 && |key| == s.keyLen && usage >= 0
    ensures var d := Decrypt(s, key, usage, ct, state);
            d.result == Err(IntegrityFailure) && d.iv != state
  {
    hide CbcDec, Invertible;
    var ke, ki := s.derive(key, usage, Encryption), s.derive(key, usage, Integrity);
    var other := state[0 := state[0] + 1];
    var body := other + ZeroBlock();
    var d := DecryptIv(s.cipher, ke, state, body);
    assert d.result.Ok?;
    var tag := s.Tag(ki, d.result.value);
    assert other[0] != state[0] && |tag| == s.tagLen;
    var wrong := tag[0 := tag[0] + 1];
    assert wrong[0] != tag[0];
    ct := body + wrong;
    assert ct[..|body|] == body && ct[|body|..] == wrong;
    assert Split(|body|) == 0 && ct[0..BLOCK] == other;
    StateAfterFailure(s, key, usage, ct, state);
  }

  // ----- a whole conversation under one key -----

  datatype Message = Message(confounder: Block, text: seq<octet>)

  /** Messages encrypted in order, each from the state the one before it left. */
  function SealAll(s: Suite, key: seq<octet>, usage: int, state: Block, ms: seq<Message>): (r: seq<Chained<seq<octet>>>)
    ensures |r| == |ms|
    decreases |ms|
  {
    if ms == [] then [] else
    var e := Encrypt(s, key, usage, ms[0].confounder, ms[0].text, state);
    [e] + SealAll(s, key, usage, e.iv, ms[1..])
  }

  /** Ciphertexts decrypted in order with a state of our own. */
  function OpenAll(s: Suite, key: seq<octet>, usage: int, state: Block, cts: seq<seq<octet>>): (r: seq<Chained<seq<octet>>>)
    ensures |r| == |cts|
    decreases |cts|
  {
    if cts == [] then [] else
    var d := Decrypt(s, key, usage, cts[0], state);
    [d] + OpenAll(s, key, usage, d.iv, cts[1..])
  }

  function Ciphertexts(sealed: seq<Chained<seq<octet>>>): (r: seq<seq<octet>>)
    ensures |r| == |sealed|
  {
    seq(|sealed|, i requires 0 <= i < |sealed| => if sealed[i].result.Ok? then sealed[i].result.value else [])
  }

  /**
   * For any list of messages and confounders and either family, decrypting in order from the
   * same starting state returns every message, and after each the two states are equal.
   */
  lemma {:induction false} ConversationRoundTrip(s: Suite, key: seq<octet>, usage: int, state: Block, ms: seq<Message>)
    requires s.Sound() && |key| == s.keyLen && usage >= 0
    ensures var sealed := SealAll(s, key, usage, state, ms);
            var unsealed := OpenAll(s, key, usage, state, Ciphertexts(sealed));
            forall k | 0 <= k < |ms| :: sealed[k].result.Ok? && unsealed[k] == Chained(Ok(ms[k].text), sealed[k].iv)
    decreases |ms|
  {
    hide Encrypt, Decrypt;
    if ms != [] {
      var e := Encrypt(s, key, usage, ms[0].confounder, ms[0].text, state);
      RoundTrip(s, key, usage, ms[0].confounder, ms[0].text, state);
      ConversationRoundTrip(s, key, usage, e.iv, ms[1..]);
      var sealed := SealAll(s, key, usage, state, ms);
      assert Ciphertexts(sealed)[1..] == Ciphertexts(sealed[1..]);
    }
  }

  // ----- the procedures, on a state updated in place -----

  /** `aes_encrypt` and `sha2_encrypt`. */
  method EncryptState(s: Suite, key: seq<octet>, usage: int, confounder: Block, text: seq<octet>, state: array<octet>)
    returns (r: Result<seq<octet>, CryptoError>)
    requires state.Length == BLOCK
    modifies state
    ensures Chained(r, state[..]) == Encrypt(s, key, usage, confounder, text, old(state[..]))
  {
    hide EncryptIv;
    if |key| != s.keyLen {
      return Err(BadKeySize);
    }
    if usage < 0 {
      return Err(BadParams);
    }
    var ke, ki := s.derive(key, usage, Encryption), s.derive(key, usage, Integrity);
    var data := confounder + text;
    var before := state[..];
    var ct := CtsEncryptIv(s.cipher, ke, state, data);
    if ct.Err? {
      return ct;
    }
    var tag := if s.family.Sha1? then s.Tag(ki, data) else s.Tag(ki, before + ct.value);
    return Ok(ct.value + tag);
  }

  /** `aes_decrypt`. */
  method DecryptSha1State(s: Suite, key: seq<octet>, usage: int, ct: seq<octet>, state: array<octet>)
    returns (r: Result<seq<octet>, CryptoError>)
    requires state.Length == BLOCK
    modifies state
    ensures Chained(r, state[..]) == Sha1Decrypt(s, key, usage, ct, old(state[..]))
  {
    hide DecryptIv;
    if |key| != s.keyLen {
      return Err(BadKeySize);
    }
    if usage < 0 {
      return Err(BadParams);
    }
    if |ct| < s.tagLen || |ct| - s.tagLen < BLOCK {
      return Err(InputTooShort);
    }
    var ke, ki := s.derive(key, usage, Encryption), s.derive(key, usage, Integrity);
    var n := |ct| - s.tagLen;
    var plain := CtsDecryptIv(s.cipher, ke, state, ct[..n]);
    if plain.Err? {
      return plain;
    }
    if s.Tag(ki, plain.value) != ct[n..] {
      return Err(IntegrityFailure);
    }
    return Ok(Stripped(plain.value));
  }

  /** `sha2_decrypt`. */
  method DecryptSha2State(s: Suite, key: seq<octet>, usage: int, ct: seq<octet>, state: array<octet>)
    returns (r: Result<seq<octet>, CryptoError>)
    requires state.Length == BLOCK
    modifies state
    ensures Chained(r, state[..]) == Sha2Decrypt(s, key, usage, ct, old(state[..]))
  {
    hide DecryptIv;
    if |ct| < s.tagLen || |ct| - s.tagLen < BLOCK {
      return Err(InputTooShort);
    }
    if |key| != s.keyLen {
      return Err(BadKeySize);
    }
    if usage < 0 {
      return Err(BadParams);
    }
    var ki := s.derive(key, usage, Integrity);
    var n := |ct| - s.tagLen;
    if s.Tag(ki, state[..] + ct[..n]) != ct[n..] {
      return Err(IntegrityFailure);
    }
    var ke := s.derive(key, usage, Encryption);
    var plain := CtsDecryptIv(s.cipher, ke, state, ct[..n]);
    if plain.Err? {
      return plain;
    }
    return Ok(Stripped(plain.value));
  }
}
