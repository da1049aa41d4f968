/** Text as the caches store it: UTF-8 strings, and the byte strings of the ASN.1 GeneralString type. */
module Text {
  import opened Bytes
  import opened Wrappers

  ghost predicate Ascii(s: string) { forall i :: 0 <= i < |s| ==> s[i] as int < 128 }

  /** One byte for each character. */
  function AsciiBytes(s: string): seq<byte> {
    seq(|s|, i requires 0 <= i < |s| => (s[i] as int) % 256)
  }

  /** The conversions of the string types, as parameters. */
  datatype Codec = Codec(
    decode: seq<byte> -> Option<string>,
    encode: string -> seq<byte>,
    lossy: seq<byte> -> string,
    general: seq<byte> -> bool)
  {
    /**
     * What UTF-8 provides: strict decoding and encoding undo each other, lossy decoding agrees with
     * strict, and ASCII text is its own encoding, which the string type accepts.
     */
    ghost predicate Lawful() {
      && (forall s: string :: decode(encode(s)) == Some(s))
      && (forall b: seq<byte> :: decode(b).Some? ==> encode(decode(b).value) == b && lossy(b) == decode(b).value)
      && (forall s: string | Ascii(s) :: encode(s) == AsciiBytes(s) && general(encode(s)))
    }
  }

  /** `from_utf8_lossy` gives back what `as_bytes` wrote. */
  lemma LossyEncode(t: Codec, s: string)
    requires t.Lawful()
    ensures t.lossy(t.encode(s)) == s
  {
    assert t.decode(t.encode(s)) == Some(s);
  }
}
