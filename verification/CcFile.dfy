/** The FILE cache as bytes: header, default principal, credential records, and records removed in place. */
module CcFile {
  import opened Bytes
  import opened CcMarshal
  import opened CcRetrieve
  import opened Text
  import opened Wrappers

  /** The host and the string conversions a process runs with. */
  datatype Host = Host(bigEndian: bool, text: Codec)

  type Offset = Option<(nat, nat)>

  datatype Header = Header(version: nat, len: nat, offset: Offset)

  function U16(d: seq<byte>, pos: nat): nat
    requires pos + 2 <= |d|
  {
    FromWord(d[pos..pos + 2], true)
  }

  function U32(d: seq<byte>, pos: nat): nat
    requires pos + 4 <= |d|
  {
    FromWord(d[pos..pos + 4], true)
  }

  /** The tagged fields of a version 4 header, from `pos` up to `end`. */
  function Fields(d: seq<byte>, pos: nat, end: nat, offset: Offset): Result<Offset, CcError>
    requires pos <= end <= |d|
    decreases end - pos
  {
    if pos + 4 > end then (if pos != end then Err(CcError.Format) else Ok(offset)) else
    var tag, flen := U16(d, pos), U16(d, pos + 2);
    if pos + 4 + flen > end || (tag == 1 && flen != 8) then Err(CcError.Format)
    else Fields(d, pos + 4 + flen, end, if tag == 1 then Some((U32(d, pos + 4), U32(d, pos + 8))) else offset)
  }

  /** `parse_header`. */
  function ParseHeader(d: seq<byte>): (r: Result<Header, CcError>)
    ensures r.Ok? ==> 1 <= r.value.version <= 4 && r.value.len <= |d|
  {
    if |d| < 2 then Err(CcError.Format)
    else if d[0] != 5 || !(1 <= d[1] <= 4) then Err(BadVno)
    else if d[1] != 4 then Ok(Header(d[1], 2, None))
    else if |d| < 4 then Err(CcError.Format) else
    var fieldsLen := U16(d, 2);
    if 0 < fieldsLen < 4 || |d| < 4 + fieldsLen then Err(CcError.Format) else
    var offset := Fields(d, 4, 4 + fieldsLen, None);
    if offset.Err? then Err(offset.error) else Ok(Header(4, 4 + fieldsLen, offset.value))
  }

  /** What every operation reads first: the header, the principal, and where the records start. */
  datatype Opened = Opened(f: CcMarshal.Format, offset: Offset, princ: (Principal, string), start: nat)

  /** `read_all`. */
  function ReadAll(h: Host, d: seq<byte>): (r: Result<Opened, CcError>)
    ensures r.Ok? ==> r.value.start <= |d|
  {
    var hdr := ParseHeader(d);
    if hdr.Err? then Err(hdr.error) else
    var f := FormatOf(hdr.value.version, h.bigEndian, h.text);
    var p := GetPrinc(f, d, hdr.value.len);
    if p.Bad? then Err(CcError.Format) else Ok(Opened(f, hdr.value.offset, p.value, p.pos))
  }

  datatype Record = Record(off: nat, len: nat, cred: Cred)

  /** The record loop. */
  function RecordsFrom(f: CcMarshal.Format, d: seq<byte>, pos: nat): (r: Result<seq<Record>, CcError>)
    requires pos <= |d|
    ensures r.Ok? ==> forall x | x in r.value :: pos <= x.off && x.off + x.len <= |d|
    decreases |d| - pos
  {
    if pos == |d| then Ok([]) else
    var c := GetCred(f, d, pos);
    if c.Bad? then Err(CcError.Format) else
    var rest := RecordsFrom(f, d, c.pos);
    if rest.Err? then Err(rest.error) else Ok([Record(pos, c.pos - pos, c.value)] + rest.value)
  }

  /** `records`. */
  function Records(h: Host, d: seq<byte>): (r: Result<seq<Record>, CcError>)
    ensures r.Ok? ==> forall x | x in r.value :: x.off + x.len <= |d|
  {
    var o := ReadAll(h, d);
    if o.Err? then Err(o.error) else RecordsFrom(o.value.f, d, o.value.start)
  }

  /** Not removed in place. */
  predicate Live(c: Cred) { !(c.endtime == 0 && c.authtime != 0) }

  function LiveOnly(cs: seq<Cred>): (r: seq<Cred>)
    ensures forall c | c in r :: c in cs && Live(c)
  {
    if cs == [] then [] else (if Live(cs[0]) then [cs[0]] else []) + LiveOnly(cs[1..])
  }

  function CredsOf(rs: seq<Record>): (r: seq<Cred>)
    ensures |r| == |rs|
  {
    seq(|rs|, i requires 0 <= i < |rs| => rs[i].cred)
  }

  /** `creds`. */
  function Creds(h: Host, d: seq<byte>): Result<seq<Cred>, CcError> {
    var rs := Records(h, d);
    if rs.Err? then Err(rs.error) else Ok(LiveOnly(CredsOf(rs.value)))
  }

  const CONFIG_REALM := "X-CACHECONF:"
  const REMOVED_CONFIG_REALM := "X-RMED-CONF:"

  /** The record that takes a removed credential's place. */
  function Tombstone(c: Cred): Cred {
    c.(authtime := TWO32 - 1, endtime := 0, srealm := if c.srealm == CONFIG_REALM then REMOVED_CONFIG_REALM else c.srealm)
  }

  /** The first live record that matches. */
  function FirstLive(cs: seq<Cred>, flags: MatchFlags, m: MatchCred): (r: Option<nat>)
    ensures r.Some? ==> r.value < |cs| && Live(cs[r.value]) && Matches(flags, m, cs[r.value])
    ensures r.Some? ==> forall i | 0 <= i < r.value :: !(Live(cs[i]) && Matches(flags, m, cs[i]))
    ensures r.None? ==> forall i | 0 <= i < |cs| :: !(Live(cs[i]) && Matches(flags, m, cs[i]))
  {
    if cs == [] then None
    else if Live(cs[0]) && Matches(flags, m, cs[0]) then Some(0)
    else
      var rest := FirstLive(cs[1..], flags, m);
      if rest.None? then None else Some(1 + rest.value)
  }

  function Splice<T>(d: seq<T>, off: nat, s: seq<T>): (r: seq<T>)
    requires off + |s| <= |d|
    ensures |r| == |d|
  {
    d[..off] + s + d[off + |s|..]
  }

  /** `remove_cred`: the new contents. */
  function Remove(h: Host, d: seq<byte>, flags: MatchFlags, m: MatchCred): Result<seq<byte>, CcError> {
    var o := ReadAll(h, d);
    if o.Err? then Err(o.error) else
    var rs := Records(h, d);
    if rs.Err? then Err(rs.error) else
    var i := FirstLive(CredsOf(rs.value), flags, m);
    if i.None? then Err(NotFound) else
    var rec := rs.value[i.value];
    var b := PutCred(o.value.f, Tombstone(rec.cred));
    if |b| != rec.len then Err(CcError.Format) else Ok(Splice(d, rec.off, b))
  }

  function BeU16(v: nat): (r: seq<byte>)
    ensures |r| == 2
  {
    Word(v, 2, true)
  }

  function BeU32(v: nat): (r: seq<byte>)
    ensures |r| == 4
  {
    Word(v, 4, true)
  }

  function HeaderBytes(version: byte, offset: Offset): seq<byte> {
    [5, version] +
    if version != 4 then []
    else if offset.None? then BeU16(0)
    else BeU16(12) + (BeU16(1) + (BeU16(8) + (BeU32(offset.value.0) + BeU32(offset.value.1))))
  }

  /** `write_header`. */
  function Initial(h: Host, version: byte, offset: Offset, p: Principal, realm: string): seq<byte> {
    HeaderBytes(version, offset) + PutPrinc(FormatOf(version, h.bigEndian, h.text), p, realm)
  }

  /** `store`: the new contents. */
  function Store(h: Host, d: seq<byte>, c: Cred): Result<seq<byte>, CcError> {
    var o := ReadAll(h, d);
    if o.Err? then Err(o.error) else Ok(d + PutCred(o.value.f, c))
  }

  // ----- the shape of a file these operations wrote -----

  function PutAll(f: CcMarshal.Format, cs: seq<Cred>): seq<byte> {
    if cs == [] then [] else PutCred(f, cs[0]) + PutAll(f, cs[1..])
  }

  ghost predicate FitsOffset(offset: Offset) { offset.Some? ==> offset.value.0 < TWO32 && offset.value.1 < TWO32 }

  ghost predicate FitsHead(h: Host, version: byte, offset: Offset, p: Principal, realm: string) {
    && h.text.Lawful() && 1 <= version <= 4 && FitsOffset(offset)
    && FitsPrinc(FormatOf(version, h.bigEndian, h.text), p, realm) && (version == 1 ==> p.nameType == 0)
  }

  ghost predicate Good(f: CcMarshal.Format, c: Cred) { FitsCred(f, c) && Exact(f, c) }

  ghost predicate AllGood(f: CcMarshal.Format, cs: seq<Cred>) { forall i | 0 <= i < |cs| :: Good(f, cs[i]) }

  /** The contents are the header, the principal and the records of `cs`, tombstones included. */
  ghost predicate Shape(h: Host, version: byte, offset: Offset, p: Principal, realm: string, cs: seq<Cred>, d: seq<byte>) {
    var f := FormatOf(version, h.bigEndian, h.text);
    FitsHead(h, version, offset, p, realm) && AllGood(f, cs) && d == Initial(h, version, offset, p, realm) + PutAll(f, cs)
  }

  lemma U16Reads(d: seq<byte>, pos: nat, v: nat)
    requires v < TWO16 && Holds(d, pos, BeU16(v))
    ensures U16(d, pos) == v
  {
    PowFacts();
    WordRoundTrip(v, 2, true);
  }

  lemma U32Reads(d: seq<byte>, pos: nat, v: nat)
    requires v < TWO32 && Holds(d, pos, BeU32(v))
    ensures U32(d, pos) == v
  {
    PowFacts();
    WordRoundTrip(v, 4, true);
  }

  /** The offset a header of this version carries. */
  function Kept(version: nat, offset: Offset): Offset { if version == 4 then offset else None }

  lemma FieldsRead(d: seq<byte>, secs: nat, usecs: nat)
    requires secs < TWO32 && usecs < TWO32 && Holds(d, 4, BeU16(1) + (BeU16(8) + (BeU32(secs) + BeU32(usecs))))
    ensures Fields(d, 4, 16, None) == Ok(Some((secs, usecs)))
  {
    hide BeU16, BeU32, U16, U32;
    HoldsBoth(d, 4, BeU16(1), BeU16(8) + (BeU32(secs) + BeU32(usecs)));
    HoldsBoth(d, 6, BeU16(8), BeU32(secs) + BeU32(usecs));
    HoldsBoth(d, 8, BeU32(secs), BeU32(usecs));
    U16Reads(d, 4, 1);
    U16Reads(d, 6, 8);
    U32Reads(d, 8, secs);
    U32Reads(d, 12, usecs);
    assert Fields(d, 16, 16, Some((secs, usecs))) == Ok(Some((secs, usecs)));
  }

  lemma HeaderReads(d: seq<byte>, version: byte, offset: Offset)
    requires 1 <= version <= 4 && FitsOffset(offset) && Holds(d, 0, HeaderBytes(version, offset))
    ensures ParseHeader(d) == Ok(Header(version, |HeaderBytes(version, offset)|, Kept(version, offset)))
  {
    hide BeU16, BeU32, U16;
    var two: seq<byte> := [5, version];
    HoldsBoth(d, 0, two, HeaderBytes(version, offset)[2..]);
    assert HeaderBytes(version, offset) == two + HeaderBytes(version, offset)[2..];
    assert d[0..2][0] == d[0] && d[0..2][1] == d[1];
    if version == 4 {
      if offset.None? {
        assert HeaderBytes(version, offset)[2..] == BeU16(0);
        U16Reads(d, 2, 0);
      } else {
        var rest := BeU16(1) + (BeU16(8) + (BeU32(offset.value.0) + BeU32(offset.value.1)));
        assert HeaderBytes(version, offset)[2..] == BeU16(12) + rest;
        HoldsBoth(d, 2, BeU16(12), rest);
        U16Reads(d, 2, 12);
        FieldsRead(d, offset.value.0, offset.value.1);
      }
    }
  }

  lemma ReadAllReads(h: Host, version: byte, offset: Offset, p: Principal, realm: string, rest: seq<byte>)
    requires FitsHead(h, version, offset, p, realm)
    ensures var b := Initial(h, version, offset, p, realm);
            ReadAll(h, b + rest)
            == Ok(Opened(FormatOf(version, h.bigEndian, h.text), Kept(version, offset), (p, realm), |b|))
  {
    hide HeaderBytes, ParseHeader, PutPrinc, GetPrinc, FitsPrinc, Codec.Lawful, Holds;
    var hb, f := HeaderBytes(version, offset), FormatOf(version, h.bigEndian, h.text);
    var pb := PutPrinc(f, p, realm);
    var b := hb + pb;
    HoldsPrefix(b, rest);
    HoldsBoth(b + rest, 0, hb, pb);
    HeaderReads(b + rest, version, offset);
    PrincReads(f, b + rest, |hb|, p, realm);
  }

  /** The records of `cs` laid out from `pos`. */
  function Laid(f: CcMarshal.Format, cs: seq<Cred>, pos: nat): (r: seq<Record>)
    ensures |r| == |cs|
  {
    if cs == [] then []
    else [Record(pos, |PutCred(f, cs[0])|, cs[0])] + Laid(f, cs[1..], pos + |PutCred(f, cs[0])|)
  }

  lemma {:induction false} RecordsRead(f: CcMarshal.Format, d: seq<byte>, pos: nat, cs: seq<Cred>)
    requires f.text.Lawful() && AllGood(f, cs)
    requires Holds(d, pos, PutAll(f, cs)) && pos + |PutAll(f, cs)| == |d|
    ensures RecordsFrom(f, d, pos) == Ok(Laid(f, cs, pos))
    decreases |cs|
  {
    hide PutCred, GetCred, Good, Codec.Lawful;
    if cs != [] {
      var b := PutCred(f, cs[0]);
      HoldsBoth(d, pos, b, PutAll(f, cs[1..]));
      assert Good(f, cs[0]);
      GoodReads(f, d, pos, cs[0]);
      RecordsRead(f, d, pos + |b|, cs[1..]);
    }
  }

  lemma GoodReads(f: CcMarshal.Format, d: seq<byte>, pos: nat, c: Cred)
    requires f.text.Lawful() && Good(f, c) && Holds(d, pos, PutCred(f, c))
    ensures GetCred(f, d, pos) == Got(c, pos + |PutCred(f, c)|) && |PutCred(f, c)| > 0
  {
    hide PutCred, GetCred, FitsCred, Exact, Stored, Codec.Lawful;
    CredReads(f, d, pos, c);
    StoredExactly(f, c);
  }

  lemma {:induction false} LaidAt(f: CcMarshal.Format, cs: seq<Cred>, pos: nat, i: nat)
    requires i < |cs|
    ensures Laid(f, cs, pos)[i] == Record(pos + |PutAll(f, cs[..i])|, |PutCred(f, cs[i])|, cs[i])
    decreases |cs|
  {
    hide PutCred;
    if i > 0 {
      LaidAt(f, cs[1..], pos + |PutCred(f, cs[0])|, i - 1);
      assert cs[..i][0] == cs[0] && cs[..i][1..] == cs[1..][..i - 1];
    } else {
      assert cs[..0] == [];
    }
  }

  lemma LaidCreds(f: CcMarshal.Format, cs: seq<Cred>, pos: nat)
    ensures CredsOf(Laid(f, cs, pos)) == cs
  {
    forall i | 0 <= i < |cs| ensures Laid(f, cs, pos)[i].cred == cs[i] { LaidAt(f, cs, pos, i); }
  }

  lemma {:induction false} PutAllConcat(f: CcMarshal.Format, a: seq<Cred>, b: seq<Cred>)
    ensures PutAll(f, a + b) == PutAll(f, a) + PutAll(f, b)
    decreases |a|
  {
    hide PutCred;
    if a == [] {
      assert a + b == b;
    } else {
      assert (a + b)[0] == a[0] && (a + b)[1..] == a[1..] + b;
      PutAllConcat(f, a[1..], b);
    }
  }

  lemma PutAllAround(f: CcMarshal.Format, cs: seq<Cred>, i: nat)
    requires i < |cs|
    ensures PutAll(f, cs) == PutAll(f, cs[..i]) + (PutCred(f, cs[i]) + PutAll(f, cs[i + 1..]))
  {
    hide PutCred;
    assert cs == cs[..i] + cs[i..] && cs[i..][0] == cs[i] && cs[i..][1..] == cs[i + 1..];
    PutAllConcat(f, cs[..i], cs[i..]);
  }

  /** The whole file reads back as its records, and what is live among them. */
  lemma ShapeReads(h: Host, version: byte, offset: Offset, p: Principal, realm: string, cs: seq<Cred>, d: seq<byte>)
    requires Shape(h, version, offset, p, realm, cs, d)
    ensures var f, b := FormatOf(version, h.bigEndian, h.text), Initial(h, version, offset, p, realm);
            && ReadAll(h, d) == Ok(Opened(f, Kept(version, offset), (p, realm), |b|))
            && Records(h, d) == Ok(Laid(f, cs, |b|))
            && Creds(h, d) == Ok(LiveOnly(cs))
  {
    hide Initial, PutAll, RecordsFrom, Good, Codec.Lawful, Laid, LiveOnly, FitsPrinc, CredsOf, ReadAll;
    var f, b := FormatOf(version, h.bigEndian, h.text), Initial(h, version, offset, p, realm);
    ReadAllReads(h, version, offset, p, realm, PutAll(f, cs));
    HoldsPrefix(b, PutAll(f, cs));
    RecordsRead(f, d, |b|, cs);
    LaidCreds(f, cs, |b|);
  }

  lemma InitialShape(h: Host, version: byte, offset: Offset, p: Principal, realm: string)
    requires FitsHead(h, version, offset, p, realm)
    ensures Shape(h, version, offset, p, realm, [], Initial(h, version, offset, p, realm))
  {
    hide Initial, FitsHead;
    var d := Initial(h, version, offset, p, realm);
    assert d + [] == d;
  }

  lemma StoreShape(h: Host, version: byte, offset: Offset, p: Principal, realm: string, cs: seq<Cred>, d: seq<byte>, c: Cred)
    requires Shape(h, version, offset, p, realm, cs, d) && Good(FormatOf(version, h.bigEndian, h.text), c)
    ensures Store(h, d, c).Ok? && Shape(h, version, offset, p, realm, cs + [c], Store(h, d, c).value)
  {
    hide Initial, Good, FitsHead, ReadAll, PutCred, PutAll, Creds, Records, Laid;
    var f, b := FormatOf(version, h.bigEndian, h.text), Initial(h, version, offset, p, realm);
    ShapeReads(h, version, offset, p, realm, cs, d);
    PutAllLast(f, cs, c);
    assert b + PutAll(f, cs) + PutCred(f, c) == b + (PutAll(f, cs) + PutCred(f, c));
  }

  lemma PutAllLast(f: CcMarshal.Format, cs: seq<Cred>, c: Cred)
    ensures PutAll(f, cs + [c]) == PutAll(f, cs) + PutCred(f, c)
  {
    hide PutCred;
    PutAllConcat(f, cs, [c]);
    assert [c][1..] == [];
    assert PutAll(f, [c]) == PutCred(f, c) + [];
  }

  // ----- removal in place -----

  /** A tombstone is written in exactly the room of the record it replaces. */
  lemma TombstoneFits(f: CcMarshal.Format, c: Cred)
    requires f.text.Lawful() && Good(f, c)
    ensures Good(f, Tombstone(c)) && |PutCred(f, Tombstone(c))| == |PutCred(f, c)|
  {
    hide PutPrinc, PutKeyblock, PutI32, PutTail, Codec.Lawful, ExactTypeds, FitsTypeds, FitsLen;
    TombstonePrinc(f, c.server, c.srealm);
    assert PutTail(f, Tombstone(c)) == PutTail(f, c) by { TombstoneTail(f, c); }
  }

  lemma TombstoneTail(f: CcMarshal.Format, c: Cred)
    ensures PutTail(f, Tombstone(c)) == PutTail(f, c)
  {
  }

  lemma TombstonePrinc(f: CcMarshal.Format, p: Principal, realm: string)
    requires f.text.Lawful() && FitsPrinc(f, p, realm)
    ensures var r := if realm == CONFIG_REALM then REMOVED_CONFIG_REALM else realm;
            FitsPrinc(f, p, r) && |PutPrinc(f, p, r)| == |PutPrinc(f, p, realm)|
  {
    hide PutCounts, PutDatas, PutI32, FitsSigned;
    assert Ascii(CONFIG_REALM) && Ascii(REMOVED_CONFIG_REALM);
    assert |f.text.encode(CONFIG_REALM)| == 12 && |f.text.encode(REMOVED_CONFIG_REALM)| == 12;
  }

  lemma SpliceSeam<T>(a: seq<T>, b: seq<T>, b2: seq<T>, c: seq<T>)
    requires |b| == |b2|
    ensures Splice(a + (b + c), |a|, b2) == a + (b2 + c)
  {
    var d := a + (b + c);
    assert d[..|a|] == a && d[|a| + |b|..] == c;
  }

  lemma SpliceRecord(f: CcMarshal.Format, head: seq<byte>, cs: seq<Cred>, i: nat, c: Cred)
    requires i < |cs| && |PutCred(f, c)| == |PutCred(f, cs[i])|
    ensures |head| + |PutAll(f, cs[..i])| + |PutCred(f, c)| <= |head + PutAll(f, cs)|
    ensures Splice(head + PutAll(f, cs), |head| + |PutAll(f, cs[..i])|, PutCred(f, c)) == head + PutAll(f, cs[i := c])
  {
    hide PutCred, PutAll, Splice;
    var pre, was, now, post := PutAll(f, cs[..i]), PutCred(f, cs[i]), PutCred(f, c), PutAll(f, cs[i + 1..]);
    PutAllAround(f, cs, i);
    var ds := cs[i := c];
    PutAllAround(f, ds, i);
    assert ds[..i] == cs[..i] && ds[i + 1..] == cs[i + 1..];
    assert head + (pre + (was + post)) == head + pre + (was + post);
    assert head + (pre + (now + post)) == head + pre + (now + post);
    SpliceSeam(head + pre, was, now, post);
  }

  /** Removing tombstones the first live match in place and leaves every other record's bytes as they were. */
  lemma RemoveShape(h: Host, version: byte, offset: Offset, p: Principal, realm: string, cs: seq<Cred>, d: seq<byte>,
                    flags: MatchFlags, m: MatchCred)
    requires Shape(h, version, offset, p, realm, cs, d)
    ensures var i, r := FirstLive(cs, flags, m), Remove(h, d, flags, m);
            if i.None? then r == Err(NotFound)
            else r.Ok? && Shape(h, version, offset, p, realm, cs[i.value := Tombstone(cs[i.value])], r.value)
  {
    hide Initial, Good, FitsHead, ReadAll, PutCred, PutAll, Laid, Splice, LiveOnly, FirstLive, Records, Tombstone;
    var f, b := FormatOf(version, h.bigEndian, h.text), Initial(h, version, offset, p, realm);
    ShapeReads(h, version, offset, p, realm, cs, d);
    LaidCreds(f, cs, |b|);
    var found := FirstLive(cs, flags, m);
    if found.Some? {
      var i := found.value;
      LaidAt(f, cs, |b|, i);
      assert Good(f, cs[i]);
      assert f.text.Lawful() by { HeadLawful(h, version, offset, p, realm); }
      TombstoneFits(f, cs[i]);
      SpliceRecord(f, b, cs, i, Tombstone(cs[i]));
    }
  }

  lemma HeadLawful(h: Host, version: byte, offset: Offset, p: Principal, realm: string)
    requires FitsHead(h, version, offset, p, realm)
    ensures h.text.Lawful()
  {
  }

  lemma WordsLocal(d: seq<byte>, e: seq<byte>, pos: nat, end: nat)
    requires pos + 2 <= end <= |d| && end <= |e| && d[..end] == e[..end]
    ensures U16(d, pos) == U16(e, pos) && (pos + 4 <= end ==> U32(d, pos) == U32(e, pos))
  {
    hide FromWord;
    Slices(d, 0, end, pos, pos + 2);
    Slices(e, 0, end, pos, pos + 2);
    if pos + 4 <= end {
      Slices(d, 0, end, pos, pos + 4);
      Slices(e, 0, end, pos, pos + 4);
    }
  }

  lemma {:induction false} FieldsLocal(d: seq<byte>, e: seq<byte>, pos: nat, end: nat, offset: Offset)
    requires pos <= end <= |d| && end <= |e| && d[..end] == e[..end]
    ensures Fields(d, pos, end, offset) == Fields(e, pos, end, offset)
    decreases end - pos
  {
    hide U16, U32;
    if pos + 4 <= end {
      WordsLocal(d, e, pos, end);
      WordsLocal(d, e, pos + 2, end);
      var tag, flen := U16(d, pos), U16(d, pos + 2);
      if pos + 4 + flen <= end && (tag != 1 || flen == 8) {
        if tag == 1 {
          WordsLocal(d, e, pos + 4, end);
          WordsLocal(d, e, pos + 8, end);
        }
        FieldsLocal(d, e, pos + 4 + flen, end, if tag == 1 then Some((U32(d, pos + 4), U32(d, pos + 8))) else offset);
      }
    }
  }

  /** A header is read from its own bytes only. */
  lemma HeaderLocal(d: seq<byte>, e: seq<byte>)
    requires ParseHeader(d).Ok? && |e| == |d| && e[..ParseHeader(d).value.len] == d[..ParseHeader(d).value.len]
    ensures ParseHeader(e) == ParseHeader(d)
  {
    hide U16, Fields;
    var n := ParseHeader(d).value.len;
    assert d[0] == d[..n][0] && d[1] == d[..n][1] && e[0] == e[..n][0] && e[1] == e[..n][1];
    if n >= 4 {
      WordsLocal(d, e, 2, n);
      FieldsLocal(d, e, 4, n, None);
    }
  }

  /** Removal leaves the header of any file as it was. */
  lemma RemoveKeepsHeader(h: Host, d: seq<byte>, flags: MatchFlags, m: MatchCred)
    requires Remove(h, d, flags, m).Ok?
    ensures ParseHeader(d).Ok? && ParseHeader(Remove(h, d, flags, m).value) == ParseHeader(d)
  {
    hide PutCred, GetCred, GetPrinc, Matches, Tombstone, ParseHeader;
    var rs := Records(h, d).value;
    var x := rs[FirstLive(CredsOf(rs), flags, m).value];
    assert x in rs;
    var n, d2 := ParseHeader(d).value.len, Remove(h, d, flags, m).value;
    assert n <= x.off && d2[..n] == d[..n];
    HeaderLocal(d, d2);
  }

  /** In any file whatever, removal rewrites only the bytes of one record that was live and matched. */
  lemma RemoveIsLocal(h: Host, d: seq<byte>, flags: MatchFlags, m: MatchCred)
    requires Remove(h, d, flags, m).Ok?
    ensures var d2 := Remove(h, d, flags, m).value;
            && |d2| == |d|
            && Records(h, d).Ok?
            && exists x: Record | x in Records(h, d).value ::
                 && Live(x.cred) && Matches(flags, m, x.cred)
                 && forall k | 0 <= k < |d| && !(x.off <= k < x.off + x.len) :: d2[k] == d[k]
  {
    hide ReadAll, Records, PutCred, Matches, Tombstone;
    var rs := Records(h, d).value;
    var i := FirstLive(CredsOf(rs), flags, m).value;
    var x := rs[i];
    assert x in rs && Live(x.cred) && Matches(flags, m, x.cred);
  }
}
