/**
 * The bytes of a credential in the four versions of the cache format. They differ in byte order (the
 * host's before version 3), in how a principal starts (version 1 has one count, which takes in the
 * realm) and in the session key (version 3 repeats its type).
 */
module CcMarshal {
  import opened Bytes
  import opened Text

  datatype Principal = Principal(nameType: int, comps: seq<seq<byte>>)

  /** A host address or an authorization-data element: a type and bytes. */
  datatype Typed = Typed(ty: int, data: seq<byte>)

  datatype Cred = Cred(
    client: Principal, crealm: string,
    server: Principal, srealm: string,
    keytype: int, key: seq<byte>,
    authtime: nat, starttime: nat, endtime: nat, renewTill: nat,
    isSkey: bool, ticketFlags: nat,
    addresses: seq<Typed>, authdata: seq<Typed>,
    ticket: seq<byte>, secondTicket: seq<byte>)

  /** What decides the layout: the version, the byte order it uses, and the string conversions. */
  datatype Format = Format(version: nat, be: bool, text: Codec)

  function FormatOf(version: nat, hostBigEndian: bool, text: Codec): Format {
    Format(version, version >= 3 || hostBigEndian, text)
  }

  // ----- writing -----

  function PutI16(f: Format, v: int): seq<byte> { Word(Unsigned(v, 2), 2, f.be) }

  function PutI32(f: Format, v: int): (r: seq<byte>)
    ensures |r| == 4
  {
    Word(Unsigned(v, 4), 4, f.be)
  }

  function PutData(f: Format, b: seq<byte>): (r: seq<byte>)
    ensures |r| == 4 + |b|
  {
    PutI32(f, |b|) + b
  }

  function PutDatas(f: Format, bs: seq<seq<byte>>): (r: seq<byte>)
    ensures |r| >= 4 * |bs|
  {
    if bs == [] then [] else PutData(f, bs[0]) + PutDatas(f, bs[1..])
  }

  /** The count fields in front of a principal. */
  function PutCounts(f: Format, p: Principal): seq<byte> {
    if f.version == 1 then PutI32(f, |p.comps| + 1) else PutI32(f, p.nameType) + PutI32(f, |p.comps|)
  }

  function PutPrinc(f: Format, p: Principal, realm: string): seq<byte> {
    PutCounts(f, p) + (PutData(f, f.text.encode(realm)) + PutDatas(f, p.comps))
  }

  function PutKeyblock(f: Format, keytype: int, key: seq<byte>): seq<byte> {
    (PutI16(f, keytype) + (if f.version == 3 then PutI16(f, keytype) else [])) + PutData(f, key)
  }

  function PutTypeds(f: Format, ts: seq<Typed>): (r: seq<byte>)
    ensures |r| >= |ts|
  {
    if ts == [] then [] else PutI16(f, ts[0].ty) + (PutData(f, ts[0].data) + PutTypeds(f, ts[1..]))
  }

  function PutTypedList(f: Format, ts: seq<Typed>): seq<byte> { PutI32(f, |ts|) + PutTypeds(f, ts) }

  function PutTimes(f: Format, c: Cred): seq<byte> {
    PutI32(f, c.authtime) + (PutI32(f, c.starttime) + (PutI32(f, c.endtime) + PutI32(f, c.renewTill)))
  }

  function PutFlags(f: Format, c: Cred): seq<byte> { [if c.isSkey then 1 else 0] + PutI32(f, c.ticketFlags) }

  function PutNames(f: Format, c: Cred): seq<byte> { PutPrinc(f, c.client, c.crealm) + PutPrinc(f, c.server, c.srealm) }

  function PutTail(f: Format, c: Cred): seq<byte> {
    PutTypedList(f, c.addresses) + (PutTypedList(f, c.authdata) + (PutData(f, c.ticket) + PutData(f, c.secondTicket)))
  }

  /** `marshal_cred`. */
  function PutCred(f: Format, c: Cred): seq<byte> {
    PutNames(f, c) + (PutKeyblock(f, c.keytype, c.key) + (PutTimes(f, c) + (PutFlags(f, c) + PutTail(f, c))))
  }

  // ----- reading; every failure is a format error -----

  /** A value read, and where the reader then stands. */
  datatype Read<+T> = Got(value: T, pos: nat) | Bad

  /** `take`. */
  function Take(d: seq<byte>, pos: nat, n: nat): (r: Read<seq<byte>>)
    ensures r.Got? ==> r.pos == pos + n <= |d|
  {
    if pos + n <= |d| then Got(d[pos..pos + n], pos + n) else Bad
  }

  function GetU32(f: Format, d: seq<byte>, pos: nat): (r: Read<nat>)
    ensures r.Got? ==> r.pos == pos + 4 <= |d|
  {
    var b := Take(d, pos, 4);
    if b.Bad? then Bad else Got(FromWord(b.value, f.be), b.pos)
  }

  function GetI32(f: Format, d: seq<byte>, pos: nat): (r: Read<int>)
    ensures r.Got? ==> r.pos == pos + 4 <= |d|
  {
    var b := GetU32(f, d, pos);
    if b.Bad? then Bad else Got(Signed(b.value, 4), b.pos)
  }

  function GetI16(f: Format, d: seq<byte>, pos: nat): (r: Read<int>)
    ensures r.Got? ==> r.pos == pos + 2 <= |d|
  {
    var b := Take(d, pos, 2);
    if b.Bad? then Bad else Got(Signed(FromWord(b.value, f.be), 2), b.pos)
  }

  function GetData(f: Format, d: seq<byte>, pos: nat): (r: Read<seq<byte>>)
    ensures r.Got? ==> pos < r.pos <= |d|
  {
    var n := GetI32(f, d, pos);
    if n.Bad? || n.value < 0 then Bad else Take(d, n.pos, n.value)
  }

  /** `n` components, each of which the string type must accept. */
  function GetComps(f: Format, d: seq<byte>, pos: nat, n: nat): (r: Read<seq<seq<byte>>>)
    ensures r.Got? ==> pos <= r.pos && (r.pos <= |d| || n == 0)
    decreases n
  {
    if n == 0 then Got([], pos) else
    var c := GetData(f, d, pos);
    if c.Bad? || !f.text.general(c.value) then Bad else
    var rest := GetComps(f, d, c.pos, n - 1);
    if rest.Bad? then Bad else Got([c.value] + rest.value, rest.pos)
  }

  /** The name type and the component count field. */
  function GetCounts(f: Format, d: seq<byte>, pos: nat): (r: Read<(int, int)>)
    ensures r.Got? ==> pos < r.pos <= |d|
  {
    if f.version == 1 then
      var n := GetI32(f, d, pos);
      if n.Bad? then Bad else Got((0, n.value), n.pos)
    else
      var t := GetI32(f, d, pos);
      if t.Bad? then Bad else
      var n := GetI32(f, d, t.pos);
      if n.Bad? then Bad else Got((t.value, n.value), n.pos)
  }

  function GetPrinc(f: Format, d: seq<byte>, pos: nat): (r: Read<(Principal, string)>)
    ensures r.Got? ==> pos < r.pos <= |d|
  {
    var counts := GetCounts(f, d, pos);
    if counts.Bad? then Bad else
    var n := counts.value.1;
    if n < 0 || counts.pos + n > |d| then Bad else
    var realm := GetData(f, d, counts.pos);
    if realm.Bad? then Bad else
    var k := if f.version == 1 then n - 1 else n;
    var comps := GetComps(f, d, realm.pos, if k < 0 then 0 else k);
    if comps.Bad? then Bad else Got((Principal(counts.value.0, comps.value), f.text.lossy(realm.value)), comps.pos)
  }

  function GetKeyblock(f: Format, d: seq<byte>, pos: nat): (r: Read<(int, seq<byte>)>)
    ensures r.Got? ==> pos < r.pos <= |d|
  {
    var ty := GetI16(f, d, pos);
    if ty.Bad? then Bad else
    var again := if f.version == 3 then GetI16(f, d, ty.pos) else ty;
    if again.Bad? then Bad else
    var key := GetData(f, d, again.pos);
    if key.Bad? then Bad else Got((ty.value, key.value), key.pos)
  }

  function GetTypeds(f: Format, d: seq<byte>, pos: nat, n: nat): (r: Read<seq<Typed>>)
    ensures r.Got? ==> pos <= r.pos && (r.pos <= |d| || n == 0)
    decreases n
  {
    if n == 0 then Got([], pos) else
    var ty := GetI16(f, d, pos);
    if ty.Bad? then Bad else
    var data := GetData(f, d, ty.pos);
    if data.Bad? then Bad else
    var rest := GetTypeds(f, d, data.pos, n - 1);
    if rest.Bad? then Bad else Got([Typed(ty.value, data.value)] + rest.value, rest.pos)
  }

  function GetTypedList(f: Format, d: seq<byte>, pos: nat): (r: Read<seq<Typed>>)
    ensures r.Got? ==> pos < r.pos <= |d|
  {
    var n := GetI32(f, d, pos);
    if n.Bad? || n.value < 0 || n.pos + n.value > |d| then Bad else GetTypeds(f, d, n.pos, n.value)
  }

  datatype Times = Times(authtime: nat, starttime: nat, endtime: nat, renewTill: nat)

  function GetTimes(f: Format, d: seq<byte>, pos: nat): (r: Read<Times>)
    ensures r.Got? ==> pos < r.pos <= |d|
  {
    var a := GetU32(f, d, pos);
    if a.Bad? then Bad else
    var s := GetU32(f, d, a.pos);
    if s.Bad? then Bad else
    var e := GetU32(f, d, s.pos);
    if e.Bad? then Bad else
    var r := GetU32(f, d, e.pos);
    if r.Bad? then Bad else Got(Times(a.value, s.value, e.value, r.value), r.pos)
  }

  function GetFlags(f: Format, d: seq<byte>, pos: nat): (r: Read<(bool, nat)>)
    ensures r.Got? ==> pos < r.pos <= |d|
  {
    var b := Take(d, pos, 1);
    if b.Bad? then Bad else
    var flags := GetU32(f, d, b.pos);
    if flags.Bad? then Bad else Got((b.value[0] != 0, flags.value), flags.pos)
  }

  datatype Tail = Tail(addresses: seq<Typed>, authdata: seq<Typed>, ticket: seq<byte>, secondTicket: seq<byte>)

  function GetTail(f: Format, d: seq<byte>, pos: nat): (r: Read<Tail>)
    ensures r.Got? ==> pos < r.pos <= |d|
  {
    var addresses := GetTypedList(f, d, pos);
    if addresses.Bad? then Bad else
    var authdata := GetTypedList(f, d, addresses.pos);
    if authdata.Bad? then Bad else
    var ticket := GetData(f, d, authdata.pos);
    if ticket.Bad? then Bad else
    var second := GetData(f, d, ticket.pos);
    if second.Bad? then Bad else Got(Tail(addresses.value, authdata.value, ticket.value, second.value), second.pos)
  }

  /** `unmarshal_cred_len`. */
  function GetCred(f: Format, d: seq<byte>, pos: nat): (r: Read<Cred>)
    ensures r.Got? ==> pos < r.pos <= |d|
  {
    var client := GetPrinc(f, d, pos);
    if client.Bad? then Bad else
    var server := GetPrinc(f, d, client.pos);
    if server.Bad? then Bad else
    var key := GetKeyblock(f, d, server.pos);
    if key.Bad? then Bad else
    var times := GetTimes(f, d, key.pos);
    if times.Bad? then Bad else
    var flags := GetFlags(f, d, times.pos);
    if flags.Bad? then Bad else
    var tail := GetTail(f, d, flags.pos);
    if tail.Bad? then Bad else
    var t, u := times.value, tail.value;
    Got(Cred(client.value.0, client.value.1, server.value.0, server.value.1, key.value.0, key.value.1,
             t.authtime, t.starttime, t.endtime, t.renewTill, flags.value.0, flags.value.1,
             u.addresses, u.authdata, u.ticket, u.secondTicket), tail.pos)
  }

  // ----- what a version keeps of a credential -----

  /** `as i16` and back: the type fields are 16 bits wide. */
  function Short(v: int): int { Signed(Unsigned(v, 2), 2) }

  function StoredPrinc(f: Format, p: Principal): Principal {
    if f.version == 1 then p.(nameType := 0) else p
  }

  function StoredTypeds(ts: seq<Typed>): (r: seq<Typed>)
    ensures |r| == |ts|
  {
    seq(|ts|, i requires 0 <= i < |ts| => Typed(Short(ts[i].ty), ts[i].data))
  }

  /** The credential that is read back after `c` was written. */
  function Stored(f: Format, c: Cred): Cred {
    c.(client := StoredPrinc(f, c.client), server := StoredPrinc(f, c.server), keytype := Short(c.keytype),
       addresses := StoredTypeds(c.addresses), authdata := StoredTypeds(c.authdata))
  }

  // ----- values of the source's types whose lengths the 32-bit fields can carry -----

  ghost predicate FitsLen(b: seq<byte>) { |b| < TWO31 }

  ghost predicate FitsPrinc(f: Format, p: Principal, realm: string) {
    && |p.comps| + 1 < TWO31
    && FitsSigned(p.nameType, 4)
    && FitsLen(f.text.encode(realm))
    && (forall c | c in p.comps :: FitsLen(c) && f.text.general(c))
  }

  ghost predicate FitsTypeds(ts: seq<Typed>) { |ts| < TWO31 && forall t | t in ts :: FitsLen(t.data) }

  ghost predicate FitsTimes(c: Cred) {
    c.authtime < TWO32 && c.starttime < TWO32 && c.endtime < TWO32 && c.renewTill < TWO32 && c.ticketFlags < TWO32
  }

  ghost predicate FitsCred(f: Format, c: Cred) {
    && FitsPrinc(f, c.client, c.crealm) && FitsPrinc(f, c.server, c.srealm)
    && FitsLen(c.key)
    && FitsTimes(c)
    && FitsTypeds(c.addresses) && FitsTypeds(c.authdata)
    && FitsLen(c.ticket) && FitsLen(c.secondTicket)
  }

  // ----- reading undoes writing -----

  lemma U32Reads(f: Format, d: seq<byte>, pos: nat, v: nat)
    requires v < TWO32 && Holds(d, pos, PutI32(f, v))
    ensures GetU32(f, d, pos) == Got(v, pos + 4)
  {
    hide Word, FromWord;
    PowFacts();
    WordRoundTrip(Unsigned(v, 4), 4, f.be);
  }

  lemma I32Reads(f: Format, d: seq<byte>, pos: nat, v: int)
    requires FitsSigned(v, 4) && Holds(d, pos, PutI32(f, v))
    ensures GetI32(f, d, pos) == Got(v, pos + 4)
  {
    hide Word, FromWord;
    SignedUnsigned(v, 4);
    WordRoundTrip(Unsigned(v, 4), 4, f.be);
  }

  lemma I16Reads(f: Format, d: seq<byte>, pos: nat, v: int)
    requires Holds(d, pos, PutI16(f, v))
    ensures GetI16(f, d, pos) == Got(Short(v), pos + 2)
  {
    hide Word, FromWord;
    WordRoundTrip(Unsigned(v, 2), 2, f.be);
  }

  lemma FitsCount(n: nat)
    requires n < TWO31
    ensures FitsSigned(n, 4)
  {
    PowFacts();
  }

  lemma DataReads(f: Format, d: seq<byte>, pos: nat, b: seq<byte>)
    requires FitsLen(b) && Holds(d, pos, PutData(f, b))
    ensures GetData(f, d, pos) == Got(b, pos + |PutData(f, b)|)
  {
    hide PutI32, GetI32;
    HoldsBoth(d, pos, PutI32(f, |b|), b);
    FitsCount(|b|);
    I32Reads(f, d, pos, |b|);
  }

  lemma {:induction false} CompsRead(f: Format, d: seq<byte>, pos: nat, bs: seq<seq<byte>>)
    requires (forall b | b in bs :: FitsLen(b) && f.text.general(b)) && Holds(d, pos, PutDatas(f, bs))
    ensures GetComps(f, d, pos, |bs|) == Got(bs, pos + |PutDatas(f, bs)|)
    decreases |bs|
  {
    hide PutData, GetData;
    if bs != [] {
      HoldsBoth(d, pos, PutData(f, bs[0]), PutDatas(f, bs[1..]));
      DataReads(f, d, pos, bs[0]);
      CompsRead(f, d, pos + |PutData(f, bs[0])|, bs[1..]);
      assert [bs[0]] + bs[1..] == bs;
    }
  }

  lemma CountsRead(f: Format, d: seq<byte>, pos: nat, p: Principal, realm: string)
    requires FitsPrinc(f, p, realm) && Holds(d, pos, PutCounts(f, p))
    ensures GetCounts(f, d, pos)
            == Got((StoredPrinc(f, p).nameType, if f.version == 1 then |p.comps| + 1 else |p.comps|), pos + |PutCounts(f, p)|)
  {
    hide PutI32, GetI32;
    FitsCount(|p.comps| + 1);
    FitsCount(|p.comps|);
    if f.version == 1 {
      I32Reads(f, d, pos, |p.comps| + 1);
    } else {
      HoldsBoth(d, pos, PutI32(f, p.nameType), PutI32(f, |p.comps|));
      I32Reads(f, d, pos, p.nameType);
      I32Reads(f, d, pos + 4, |p.comps|);
    }
  }

  lemma PrincReads(f: Format, d: seq<byte>, pos: nat, p: Principal, realm: string)
    requires f.text.Lawful() && FitsPrinc(f, p, realm) && Holds(d, pos, PutPrinc(f, p, realm))
    ensures GetPrinc(f, d, pos) == Got((StoredPrinc(f, p), realm), pos + |PutPrinc(f, p, realm)|)
  {
    hide PutCounts, GetCounts, PutData, GetData, PutDatas, GetComps, Codec.Lawful;
    var counts, rb, cb := PutCounts(f, p), PutData(f, f.text.encode(realm)), PutDatas(f, p.comps);
    HoldsBoth(d, pos, counts, rb + cb);
    HoldsBoth(d, pos + |counts|, rb, cb);
    CountsRead(f, d, pos, p, realm);
    DataReads(f, d, pos + |counts|, f.text.encode(realm));
    CompsRead(f, d, pos + |counts| + |rb|, p.comps);
    LossyEncode(f.text, realm);
    assert |rb + cb| == |rb| + |cb|;
  }

  lemma KeyblockReads(f: Format, d: seq<byte>, pos: nat, keytype: int, key: seq<byte>)
    requires FitsLen(key) && Holds(d, pos, PutKeyblock(f, keytype, key))
    ensures GetKeyblock(f, d, pos) == Got((Short(keytype), key), pos + |PutKeyblock(f, keytype, key)|)
  {
    hide GetI16, PutData, GetData;
    var ty := PutI16(f, keytype);
    var tys := ty + (if f.version == 3 then ty else []);
    HoldsBoth(d, pos, tys, PutData(f, key));
    HoldsBoth(d, pos, ty, if f.version == 3 then ty else []);
    I16Reads(f, d, pos, keytype);
    if f.version == 3 {
      I16Reads(f, d, pos + 2, keytype);
    }
    DataReads(f, d, pos + |tys|, key);
  }

  lemma StoredCons(ts: seq<Typed>)
    requires ts != []
    ensures StoredTypeds(ts) == [Typed(Short(ts[0].ty), ts[0].data)] + StoredTypeds(ts[1..])
  {
  }

  lemma {:induction false} TypedsRead(f: Format, d: seq<byte>, pos: nat, ts: seq<Typed>)
    requires (forall t | t in ts :: FitsLen(t.data)) && Holds(d, pos, PutTypeds(f, ts))
    ensures GetTypeds(f, d, pos, |ts|) == Got(StoredTypeds(ts), pos + |PutTypeds(f, ts)|)
    decreases |ts|
  {
    hide PutI16, GetI16, PutData, GetData, StoredTypeds, Holds;
    if ts == [] {
      assert StoredTypeds(ts) == [];
    } else {
      var ty, data, rest := PutI16(f, ts[0].ty), PutData(f, ts[0].data), PutTypeds(f, ts[1..]);
      HoldsBoth(d, pos, ty, data + rest);
      HoldsBoth(d, pos + |ty|, data, rest);
      I16Reads(f, d, pos, ts[0].ty);
      assert |ty| == 2 by { I16Length(f, ts[0].ty); }
      DataReads(f, d, pos + |ty|, ts[0].data);
      TypedsRead(f, d, pos + |ty| + |data|, ts[1..]);
      StoredCons(ts);
    }
  }

  lemma I16Length(f: Format, v: int)
    ensures |PutI16(f, v)| == 2
  {
  }

  lemma TypedListReads(f: Format, d: seq<byte>, pos: nat, ts: seq<Typed>)
    requires FitsTypeds(ts) && Holds(d, pos, PutTypedList(f, ts))
    ensures GetTypedList(f, d, pos) == Got(StoredTypeds(ts), pos + |PutTypedList(f, ts)|)
  {
    hide PutI32, GetI32, PutTypeds, GetTypeds, StoredTypeds;
    HoldsBoth(d, pos, PutI32(f, |ts|), PutTypeds(f, ts));
    FitsCount(|ts|);
    I32Reads(f, d, pos, |ts|);
    TypedsRead(f, d, pos + 4, ts);
  }

  lemma TimesRead(f: Format, d: seq<byte>, pos: nat, c: Cred)
    requires FitsTimes(c) && Holds(d, pos, PutTimes(f, c))
    ensures GetTimes(f, d, pos) == Got(Times(c.authtime, c.starttime, c.endtime, c.renewTill), pos + |PutTimes(f, c)|)
  {
    hide PutI32, GetU32;
    var a, s, e, r := PutI32(f, c.authtime), PutI32(f, c.starttime), PutI32(f, c.endtime), PutI32(f, c.renewTill);
    HoldsBoth(d, pos, a, s + (e + r));
    HoldsBoth(d, pos + 4, s, e + r);
    HoldsBoth(d, pos + 8, e, r);
    U32Reads(f, d, pos, c.authtime);
    U32Reads(f, d, pos + 4, c.starttime);
    U32Reads(f, d, pos + 8, c.endtime);
    U32Reads(f, d, pos + 12, c.renewTill);
  }

  lemma FlagsRead(f: Format, d: seq<byte>, pos: nat, c: Cred)
    requires FitsTimes(c) && Holds(d, pos, PutFlags(f, c))
    ensures GetFlags(f, d, pos) == Got((c.isSkey, c.ticketFlags), pos + |PutFlags(f, c)|)
  {
    hide PutI32, GetU32;
    var b: seq<byte> := [if c.isSkey then 1 else 0];
    HoldsBoth(d, pos, b, PutI32(f, c.ticketFlags));
    U32Reads(f, d, pos + 1, c.ticketFlags);
  }

  lemma TailReads(f: Format, d: seq<byte>, pos: nat, c: Cred)
    requires FitsTypeds(c.addresses) && FitsTypeds(c.authdata) && FitsLen(c.ticket) && FitsLen(c.secondTicket)
    requires Holds(d, pos, PutTail(f, c))
    ensures GetTail(f, d, pos)
            == Got(Tail(StoredTypeds(c.addresses), StoredTypeds(c.authdata), c.ticket, c.secondTicket), pos + |PutTail(f, c)|)
  {
    hide PutTypedList, GetTypedList, PutData, GetData, FitsTypeds, FitsLen, StoredTypeds;
    var a, u, t, s := PutTypedList(f, c.addresses), PutTypedList(f, c.authdata), PutData(f, c.ticket), PutData(f, c.secondTicket);
    HoldsBoth(d, pos, a, u + (t + s));
    HoldsBoth(d, pos + |a|, u, t + s);
    HoldsBoth(d, pos + |a| + |u|, t, s);
    TypedListReads(f, d, pos, c.addresses);
    TypedListReads(f, d, pos + |a|, c.authdata);
    DataReads(f, d, pos + |a| + |u|, c.ticket);
    DataReads(f, d, pos + |a| + |u| + |t|, c.secondTicket);
  }

  /** A credential written at `pos` is read back from there, whatever surrounds it, in every version. */
  lemma CredReads(f: Format, d: seq<byte>, pos: nat, c: Cred)
    requires f.text.Lawful() && FitsCred(f, c) && Holds(d, pos, PutCred(f, c))
    ensures GetCred(f, d, pos) == Got(Stored(f, c), pos + |PutCred(f, c)|)
  {
    hide PutPrinc, GetPrinc, PutKeyblock, GetKeyblock, PutTimes, GetTimes, PutFlags, GetFlags, PutTail, GetTail,
         Codec.Lawful, FitsPrinc, FitsTypeds, FitsTimes, FitsLen, Holds, StoredPrinc, StoredTypeds, Short;
    var m, n := PutPrinc(f, c.client, c.crealm), PutPrinc(f, c.server, c.srealm);
    var k, t, fl, tail := PutKeyblock(f, c.keytype, c.key), PutTimes(f, c), PutFlags(f, c), PutTail(f, c);
    HoldsBoth(d, pos, m + n, k + (t + (fl + tail)));
    HoldsBoth(d, pos, m, n);
    var p := pos + |m + n|;
    HoldsBoth(d, p, k, t + (fl + tail));
    HoldsBoth(d, p + |k|, t, fl + tail);
    HoldsBoth(d, p + |k| + |t|, fl, tail);
    PrincReads(f, d, pos, c.client, c.crealm);
    PrincReads(f, d, pos + |m|, c.server, c.srealm);
    KeyblockReads(f, d, p, c.keytype, c.key);
    TimesRead(f, d, p + |k|, c);
    FlagsRead(f, d, p + |k| + |t|, c);
    TailReads(f, d, p + |k| + |t| + |fl|, c);
  }

  // ----- exactly what survives -----

  ghost predicate ExactTypeds(ts: seq<Typed>) { forall i :: 0 <= i < |ts| ==> FitsSigned(ts[i].ty, 2) }

  /** The types are 16-bit ones, and version 1 is given no name types. */
  ghost predicate Exact(f: Format, c: Cred) {
    && (f.version == 1 ==> c.client.nameType == 0 && c.server.nameType == 0)
    && FitsSigned(c.keytype, 2) && ExactTypeds(c.addresses) && ExactTypeds(c.authdata)
  }

  lemma ShortExact(v: int)
    ensures FitsSigned(Short(v), 2)
    ensures Short(v) == v <==> FitsSigned(v, 2)
  {
    if FitsSigned(v, 2) { SignedUnsigned(v, 2); }
  }

  lemma TypedsExact(ts: seq<Typed>)
    ensures StoredTypeds(ts) == ts <==> ExactTypeds(ts)
    ensures ExactTypeds(StoredTypeds(ts))
  {
    hide Short, FitsSigned;
    var r := StoredTypeds(ts);
    forall i | 0 <= i < |ts|
      ensures (r[i] == ts[i] <==> FitsSigned(ts[i].ty, 2)) && FitsSigned(r[i].ty, 2)
    {
      ShortExact(ts[i].ty);
    }
    if !ExactTypeds(ts) {
      var i :| 0 <= i < |ts| && !FitsSigned(ts[i].ty, 2);
      assert r[i] != ts[i];
    }
  }

  /** Writing and reading gives the same credential back exactly when it is `Exact`; reading makes it so. */
  lemma StoredExactly(f: Format, c: Cred)
    ensures Stored(f, c) == c <==> Exact(f, c)
    ensures Exact(f, Stored(f, c))
  {
    hide Short, FitsSigned, StoredTypeds, ExactTypeds;
    ShortExact(c.keytype);
    TypedsExact(c.addresses);
    TypedsExact(c.authdata);
  }

  /** The codec's round trip, with its exact condition, for every version. */
  lemma CredRoundTrip(f: Format, c: Cred, rest: seq<byte>)
    requires f.text.Lawful() && FitsCred(f, c)
    ensures GetCred(f, PutCred(f, c) + rest, 0) == Got(c, |PutCred(f, c)|) <==> Exact(f, c)
  {
    hide PutCred, GetCred, FitsCred, Stored, Exact, Codec.Lawful;
    var b := PutCred(f, c);
    HoldsPrefix(b, rest);
    CredReads(f, b + rest, 0, c);
    StoredExactly(f, c);
  }
}
