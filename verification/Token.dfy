/** The generic token framing of section 3.1 of RFC 2743, with its DER lengths. */
module Token {
  import opened Bytes
  import opened Wrappers

  /** How many bytes a number takes. */
  function Octets(n: nat): nat { if n == 0 then 0 else 1 + Octets(n / 256) }

  /** The DER length octets; the long form's first octet counts the others, of which a machine word has eight. */
  function DerLen(len: nat): (r: seq<byte>)
    ensures r != []
  {
    if len < 0x80 then [len] else [0x80 + Octets(len) % 0x80] + Word(len, Octets(len), true)
  }

  /** A number of `Octets(n)` bytes, and no fewer. */
  lemma {:induction false} OctetsBound(n: nat, k: nat)
    requires k <= 8
    ensures n < Pow256(Octets(n))
    ensures Octets(n) <= k <==> n < Pow256(k)
    decreases k, Octets(n)
  {
    OctetsFit(n);
    if k > 0 && n > 0 {
      OctetsBound(n / 256, k - 1);
      DivBelow(n, Pow256(k - 1));
    }
  }

  lemma {:induction false} OctetsFit(n: nat)
    ensures n < Pow256(Octets(n))
    decreases n
  {
    if n > 0 {
      OctetsFit(n / 256);
      DivBelow(n, Pow256(Octets(n / 256)));
    }
  }

  lemma DivBelow(n: nat, m: nat)
    ensures n / 256 < m <==> n < 256 * m
  {
  }

  lemma DerForms(len: nat)
    ensures DerLen(len) == if len < 0x80 then [len] else [0x80 + Octets(len) % 0x80] + Word(len, Octets(len), true)
  {
  }

  lemma ShortForm(len: nat)
    requires len < 0x80
    ensures DerLen(len) == [len]
  {
  }

  lemma LongForm(len: nat)
    requires 0x80 <= len < TWO64
    ensures 1 <= Octets(len) <= 8 && DerLen(len) == [0x80 + Octets(len)] + Word(len, Octets(len), true)
    ensures Octets(len) <= 4 <==> len < TWO32
    ensures len < Pow256(Octets(len))
  {
    hide Word;
    OctetsBound(len, 8);
    OctetsBound(len, 4);
    PowFacts();
  }

  /** `der_taglen`. */
  function TagLen(tag: byte, len: nat): seq<byte> { [tag] + DerLen(len) }

  /** `der_value_len`, which allows for lengths of up to three bytes. */
  function ValueLen(len: nat): (r: nat)
    ensures r > len
  {
    1 + len + if len < 0x80 then 1 else if len <= 0xff then 2 else if len <= 0xffff then 3 else 4
  }

  function TokId(id: Option<nat>): (r: seq<byte>)
    ensures |r| == if id.Some? then 2 else 0
  {
    if id.Some? then Word(id.value, 2, true) else []
  }

  /** The length `make_token_header` writes in front. */
  function SeqLen(mech: seq<byte>, bodyLen: nat, id: Option<nat>): nat {
    ValueLen(|mech|) + bodyLen + |TokId(id)|
  }

  /** `make_token_header`. */
  function MakeHeader(mech: seq<byte>, bodyLen: nat, id: Option<nat>): seq<byte> {
    TagLen(0x60, SeqLen(mech, bodyLen, id)) + (TagLen(0x06, |mech|) + (mech + TokId(id)))
  }

  /** `der_read_len`: the length, and the position behind it. */
  function ReadLen(d: seq<byte>, pos: nat): (r: Option<(nat, nat)>)
    ensures r.Some? ==> r.value.1 <= |d|
  {
    if pos >= |d| then None
    else if d[pos] < 0x80 then Some((d[pos], pos + 1)) else
    var n := d[pos] - 0x80;
    if n == 0 || n > 4 || pos + 1 + n > |d| then None
    else Some((FromWord(d[pos + 1..pos + 1 + n], true), pos + 1 + n))
  }

  /** `parse_token_header`: the mechanism and the body behind the framing. */
  function ParseHeader(d: seq<byte>): Option<(seq<byte>, seq<byte>)> {
    if d == [] || d[0] != 0x60 then None else
    var len := ReadLen(d, 1);
    if len.None? || len.value.1 + len.value.0 != |d| then None else
    var pos := len.value.1;
    if pos >= |d| || d[pos] != 0x06 then None else
    var oid := ReadLen(d, pos + 1);
    if oid.None? || oid.value.1 + oid.value.0 > |d| then None
    else Some((d[oid.value.1..oid.value.1 + oid.value.0], d[oid.value.1 + oid.value.0..]))
  }

  // ----- the loops of the source -----

  /** The `n` low bytes of `len`, most significant first. */
  method PutWord(out: seq<byte>, len: nat, n: nat) returns (r: seq<byte>)
    ensures r == out + Word(len, n, true)
  {
    hide Pow256;
    ghost var word := Word(len, n, true);
    var i := n;
    r := out;
    while i > 0
      invariant 0 <= i <= n
      invariant r == out + word[..n - i]
    {
      i := i - 1;
      assert word[n - 1 - i] == (len / Pow256(i)) % 256;
      r := r + [(len / Pow256(i)) % 256];
    }
    assert word[..n] == word;
  }

  method PutTagLen(out: seq<byte>, tag: byte, len: nat) returns (r: seq<byte>)
    ensures r == out + TagLen(tag, len)
  {
    hide Word, DerLen;
    DerForms(len);
    r := out + [tag];
    if len < 0x80 {
      r := r + [len];
    } else {
      var n, l := 0, len;
      while l > 0
        invariant n + Octets(l) == Octets(len)
      {
        n := n + 1;
        l := l / 256;
      }
      r := r + [0x80 + n % 0x80];
      r := PutWord(r, len, n);
    }
  }

  method MakeTokenHeader(mech: seq<byte>, bodyLen: nat, id: Option<nat>) returns (out: seq<byte>)
    ensures out == MakeHeader(mech, bodyLen, id)
  {
    hide TagLen;
    out := PutTagLen([], 0x60, SeqLen(mech, bodyLen, id));
    out := PutTagLen(out, 0x06, |mech|);
    out := out + mech;
    if id.Some? { out := out + Word(id.value, 2, true); }
  }

  method ReadLength(d: seq<byte>, at: nat) returns (r: Option<(nat, nat)>)
    ensures r == ReadLen(d, at)
  {
    if at >= |d| { return None; }
    var b, pos := d[at], at + 1;
    if b < 0x80 { return Some((b, pos)); }
    var n := b - 0x80;
    if n == 0 || n > 4 { return None; }
    var len: nat := 0;
    for i := 0 to n
      invariant pos == at + 1 + i <= |d|
      invariant len == FromWord(d[at + 1..pos], true)
    {
      if pos >= |d| { return None; }
      WordPush(d[at + 1..pos], d[pos]);
      assert d[at + 1..pos + 1] == d[at + 1..pos] + [d[pos]];
      len := 256 * len + d[pos];
      pos := pos + 1;
    }
    r := Some((len, pos));
  }

  method ParseTokenHeader(d: seq<byte>) returns (r: Option<(seq<byte>, seq<byte>)>)
    ensures r == ParseHeader(d)
  {
    hide ReadLen;
    if d == [] || d[0] != 0x60 { return None; }
    var len := ReadLength(d, 1);
    if len.None? || len.value.1 + len.value.0 != |d| { return None; }
    var pos := len.value.1;
    if pos >= |d| || d[pos] != 0x06 { return None; }
    var oid := ReadLength(d, pos + 1);
    if oid.None? || oid.value.1 + oid.value.0 > |d| { return None; }
    var end := oid.value.1 + oid.value.0;
    r := Some((d[oid.value.1..end], d[end..]));
  }

  lemma WordPush(s: seq<byte>, b: byte)
    ensures FromWord(s + [b], true) == 256 * FromWord(s, true) + b
  {
    var r := Reversed(s + [b]);
    assert r == [b] + Reversed(s);
    assert r[0] == b && r[1..] == Reversed(s);
  }

  // ----- parsing undoes framing -----

  lemma ReadsLen(d: seq<byte>, pos: nat, len: nat)
    requires len < TWO64 && Holds(d, pos, DerLen(len))
    ensures ReadLen(d, pos) == if len < TWO32 then Some((len, pos + |DerLen(len)|)) else None
  {
    hide Word, FromWord, DerLen, Octets, Pow256;
    var n := Octets(len);
    if len < 0x80 {
      ShortForm(len);
      assert d[pos..pos + 1][0] == d[pos];
    } else {
      LongForm(len);
      HoldsBoth(d, pos, [0x80 + n], Word(len, n, true));
      assert d[pos..pos + 1][0] == d[pos];
      WordRoundTrip(len, n, true);
      ModUnique(len, Pow256(n), 0, len);
    }
  }

  /** Where the length fields of the mechanism are counted right: below 2^24, and not from there on. */
  lemma ValueLenExactly(len: nat)
    requires len < TWO64
    ensures ValueLen(len) == |TagLen(0x06, len)| + len <==> len < 0x100_0000
    ensures ValueLen(len) <= |TagLen(0x06, len)| + len
  {
    OctetsBound(len, 1);
    OctetsBound(len, 2);
    OctetsBound(len, 3);
    PowFacts();
    Pow3();
    if len >= 0x80 { assert Octets(len) >= 1; }
  }

  lemma Pow3()
    ensures Pow256(1) == 0x100 && Pow256(2) == 0x1_0000 && Pow256(3) == 0x100_0000
  {
  }

  /**
   * A framed token parses back to its mechanism, identifier and body exactly when the mechanism is
   * shorter than 2^24 bytes and the whole content shorter than 2^32; otherwise it does not parse.
   */
  lemma HeaderRoundTrip(mech: seq<byte>, id: Option<nat>, body: seq<byte>)
    requires SeqLen(mech, |body|, id) < TWO64
    ensures var tok := MakeHeader(mech, |body|, id) + body;
            ParseHeader(tok) == if |mech| < 0x100_0000 && SeqLen(mech, |body|, id) < TWO32
                                then Some((mech, TokId(id) + body)) else None
  {
    hide DerLen, ReadLen, Word, ValueLen, TokId, MakeHeader;
    var len := SeqLen(mech, |body|, id);
    var tok := MakeHeader(mech, |body|, id) + body;
    var outer, inner, rest := DerLen(len), DerLen(|mech|), TokId(id) + body;
    HeaderParts(mech, id, body);
    Layout(tok, outer, inner, mech, rest);
    ReadsLen(tok, 1, len);
    ReadsLen(tok, 2 + |outer|, |mech|);
    ValueLenExactly(|mech|);
    assert |TagLen(0x06, |mech|)| == 1 + |inner|;
  }

  lemma HeaderParts(mech: seq<byte>, id: Option<nat>, body: seq<byte>)
    ensures MakeHeader(mech, |body|, id) + body
            == [0x60] + (DerLen(SeqLen(mech, |body|, id)) + ([0x06] + (DerLen(|mech|) + (mech + (TokId(id) + body)))))
  {
    hide DerLen, SeqLen, TokId;
  }

  lemma Layout(tok: seq<byte>, outer: seq<byte>, inner: seq<byte>, mech: seq<byte>, rest: seq<byte>)
    requires tok == [0x60] + (outer + ([0x06] + (inner + (mech + rest))))
    ensures |tok| == 2 + |outer| + |inner| + |mech| + |rest|
    ensures tok[0] == 0x60 && Holds(tok, 1, outer) && tok[1 + |outer|] == 0x06 && Holds(tok, 2 + |outer|, inner)
    ensures var at := 2 + |outer| + |inner|; tok[at..at + |mech|] == mech && tok[at + |mech|..] == rest
  {
    var at := 2 + |outer| + |inner|;
    assert tok[1..1 + |outer|] == outer;
    assert tok[2 + |outer|..at] == inner;
    assert tok[at..at + |mech|] == mech;
    assert tok[at + |mech|..] == rest;
  }
}
