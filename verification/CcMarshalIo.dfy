/** The buffer writer and the cursor reader of the marshaller, as the source updates them. */
module CcMarshalIo {
  import opened Bytes
  import opened CcMarshal
  import opened Wrappers

  class Writer {
    var buf: seq<byte>
    const f: Format

    constructor (f: Format)
      ensures buf == [] && this.f == f
    {
      buf, this.f := [], f;
    }

    method I16(v: int)
      modifies this
      ensures buf == old(buf) + PutI16(f, v)
    {
      buf := buf + Word(Unsigned(v, 2), 2, f.be);
    }

    method I32(v: int)
      modifies this
      ensures buf == old(buf) + PutI32(f, v)
    {
      buf := buf + Word(Unsigned(v, 4), 4, f.be);
    }

    method Data(v: seq<byte>)
      modifies this
      ensures buf == old(buf) + PutData(f, v)
    {
      hide PutI32;
      I32(|v|);
      buf := buf + v;
    }

    method Counts(p: Principal)
      modifies this
      ensures buf == old(buf) + PutCounts(f, p)
    {
      hide PutI32;
      if f.version == 1 {
        I32(|p.comps| + 1);
      } else {
        I32(p.nameType);
        I32(|p.comps|);
      }
    }

    method Princ(p: Principal, realm: string)
      modifies this
      ensures buf == old(buf) + PutPrinc(f, p, realm)
    {
      hide PutI32, PutData, PutCounts;
      Counts(p);
      Data(f.text.encode(realm));
      ghost var head := buf;
      for i := 0 to |p.comps|
        invariant buf + PutDatas(f, p.comps[i..]) == head + PutDatas(f, p.comps)
      {
        assert p.comps[i..][0] == p.comps[i] && p.comps[i..][1..] == p.comps[i + 1..];
        Data(p.comps[i]);
      }
      assert buf == head + PutDatas(f, p.comps);
    }

    method Keyblock(keytype: int, key: seq<byte>)
      modifies this
      ensures buf == old(buf) + PutKeyblock(f, keytype, key)
    {
      hide PutI16, PutI32;
      I16(keytype);
      if f.version == 3 { I16(keytype); }
      I32(|key|);
      buf := buf + key;
    }

    method Typeds(ts: seq<Typed>)
      modifies this
      ensures buf == old(buf) + PutTypedList(f, ts)
    {
      hide PutI16, PutI32;
      I32(|ts|);
      ghost var head := buf;
      for i := 0 to |ts|
        invariant buf + PutTypeds(f, ts[i..]) == head + PutTypeds(f, ts)
      {
        assert ts[i..][0] == ts[i] && ts[i..][1..] == ts[i + 1..];
        I16(ts[i].ty);
        I32(|ts[i].data|);
        buf := buf + ts[i].data;
      }
      assert buf == head + PutTypeds(f, ts);
    }
  }

  /** The times and flags in the middle of `marshal_cred`. */
  method PutMiddle(w: Writer, c: Cred)
    modifies w
    ensures w.buf == old(w.buf) + PutTimes(w.f, c) + PutFlags(w.f, c)
  {
    hide PutI32;
    w.I32(c.authtime);
    w.I32(c.starttime);
    w.I32(c.endtime);
    w.I32(c.renewTill);
    assert w.buf == old(w.buf) + PutTimes(w.f, c);
    w.buf := w.buf + [if c.isSkey then 1 else 0];
    w.I32(c.ticketFlags);
  }

  /** `marshal_cred`. */
  method MarshalCred(f: Format, c: Cred) returns (r: seq<byte>)
    ensures r == PutCred(f, c)
  {
    hide PutPrinc, PutKeyblock, PutTimes, PutFlags, PutTypedList, PutData;
    var w := new Writer(f);
    w.Princ(c.client, c.crealm);
    w.Princ(c.server, c.srealm);
    assert w.buf == PutNames(f, c);
    w.Keyblock(c.keytype, c.key);
    PutMiddle(w, c);
    ghost var g := w.buf;
    w.Typeds(c.addresses);
    w.Typeds(c.authdata);
    w.Data(c.ticket);
    w.Data(c.secondTicket);
    assert w.buf == g + PutTail(f, c);
    r := w.buf;
  }

  /** `marshal_princ`. */
  method MarshalPrinc(f: Format, p: Principal, realm: string) returns (r: seq<byte>)
    ensures r == PutPrinc(f, p, realm)
  {
    hide PutPrinc;
    var w := new Writer(f);
    w.Princ(p, realm);
    r := w.buf;
  }

  /** Any short read is a format error; `Err` carries nothing else. */
  type Outcome<+T> = Result<T, ()>

  class Reader {
    const d: seq<byte>
    var pos: nat
    const f: Format

    ghost predicate Valid() reads this { pos <= |d| }

    /** The reader did what `g` says of the position it started at. */
    ghost predicate Did<T>(g: Read<T>, r: Outcome<T>)
      reads this
    {
      if g.Got? then r == Ok(g.value) && pos == g.pos else r == Err(())
    }

    constructor (d: seq<byte>, pos: nat, f: Format)
      requires pos <= |d|
      ensures Valid() && this.d == d && this.pos == pos && this.f == f
    {
      this.d, this.pos, this.f := d, pos, f;
    }

    method Take(n: nat) returns (r: Outcome<seq<byte>>)
      requires Valid()
      modifies this
      ensures Valid() && Did(CcMarshal.Take(d, old(pos), n), r)
    {
      if |d| - pos < n { return Err(()); }
      r := Ok(d[pos..pos + n]);
      pos := pos + n;
    }

    method I16() returns (r: Outcome<int>)
      requires Valid()
      modifies this
      ensures Valid() && Did(GetI16(f, d, old(pos)), r)
    {
      var b := Take(2);
      if b.Err? { return Err(()); }
      r := Ok(Signed(FromWord(b.value, f.be), 2));
    }

    method I32() returns (r: Outcome<int>)
      requires Valid()
      modifies this
      ensures Valid() && Did(GetI32(f, d, old(pos)), r)
    {
      var b := Take(4);
      if b.Err? { return Err(()); }
      r := Ok(Signed(FromWord(b.value, f.be), 4));
    }

    /** `r.i32()? as u32`. */
    method U32() returns (r: Outcome<nat>)
      requires Valid()
      modifies this
      ensures Valid() && Did(GetU32(f, d, old(pos)), r)
    {
      hide FromWord;
      var b := Take(4);
      if b.Err? { return Err(()); }
      UnsignedSigned(b.value, f.be);
      r := Ok(Unsigned(Signed(FromWord(b.value, f.be), 4), 4));
    }

    method Data() returns (r: Outcome<seq<byte>>)
      requires Valid()
      modifies this
      ensures Valid() && Did(GetData(f, d, old(pos)), r)
    {
      hide GetI32;
      var n := I32();
      if n.Err? || n.value < 0 { return Err(()); }
      r := Take(n.value);
    }

    method Princ() returns (r: Outcome<(Principal, string)>)
      requires Valid()
      modifies this
      ensures Valid() && Did(GetPrinc(f, d, old(pos)), r)
    {
      hide GetI32, GetData;
      var nameType, ncomps := 0, 0;
      var a := I32();
      if a.Err? { return Err(()); }
      if f.version == 1 {
        ncomps := a.value;
      } else {
        var b := I32();
        if b.Err? { return Err(()); }
        nameType, ncomps := a.value, b.value;
      }
      if ncomps < 0 || ncomps > |d| - pos { return Err(()); }
      var realm := Data();
      if realm.Err? { return Err(()); }
      var n := if f.version == 1 then ncomps - 1 else ncomps;
      if n < 0 { n := 0; }
      var comps: seq<seq<byte>> := [];
      ghost var start := pos;
      PrependNone(GetComps(f, d, pos, n));
      for i := 0 to n
        invariant Valid()
        invariant GetComps(f, d, start, n) == Prepend(comps, GetComps(f, d, pos, n - i))
      {
        ghost var before := pos;
        var c := Data();
        if c.Err? || !f.text.general(c.value) { return Err(()); }
        PrependCons(comps, c.value, GetComps(f, d, pos, n - i - 1));
        comps := comps + [c.value];
      }
      assert comps + [] == comps;
      r := Ok((Principal(nameType, comps), f.text.lossy(realm.value)));
    }

    method Keyblock() returns (r: Outcome<(int, seq<byte>)>)
      requires Valid()
      modifies this
      ensures Valid() && Did(GetKeyblock(f, d, old(pos)), r)
    {
      hide GetI32, GetI16;
      var etype := I16();
      if etype.Err? { return Err(()); }
      if f.version == 3 {
        var ignored := I16();
        if ignored.Err? { return Err(()); }
      }
      var n := I32();
      if n.Err? || n.value < 0 { return Err(()); }
      var key := Take(n.value);
      if key.Err? { return Err(()); }
      r := Ok((etype.value, key.value));
    }

    /** `unmarshal_addrs` and `unmarshal_authdata`. */
    method Typeds() returns (r: Outcome<seq<Typed>>)
      requires Valid()
      modifies this
      ensures Valid() && Did(GetTypedList(f, d, old(pos)), r)
    {
      hide GetI32, GetI16;
      var count := I32();
      if count.Err? || count.value < 0 || count.value > |d| - pos { return Err(()); }
      var n := count.value;
      var ts: seq<Typed> := [];
      ghost var start := pos;
      PrependNone(GetTypeds(f, d, pos, n));
      for i := 0 to n
        invariant Valid()
        invariant GetTypeds(f, d, start, n) == Prepend(ts, GetTypeds(f, d, pos, n - i))
      {
        ghost var before := pos;
        var ty := I16();
        if ty.Err? { return Err(()); }
        var len := I32();
        if len.Err? || len.value < 0 { return Err(()); }
        var data := Take(len.value);
        if data.Err? { return Err(()); }
        PrependCons(ts, Typed(ty.value, data.value), GetTypeds(f, d, pos, n - i - 1));
        ts := ts + [Typed(ty.value, data.value)];
      }
      assert ts + [] == ts;
      r := Ok(ts);
    }

    method Middle() returns (r: Outcome<(Times, (bool, nat))>)
      requires Valid()
      modifies this
      ensures Valid() && Did(GetMiddle(f, d, old(pos)), r)
    {
      hide GetU32;
      var authtime := U32();
      if authtime.Err? { return Err(()); }
      var starttime := U32();
      if starttime.Err? { return Err(()); }
      var endtime := U32();
      if endtime.Err? { return Err(()); }
      var renewTill := U32();
      if renewTill.Err? { return Err(()); }
      var skey := Take(1);
      if skey.Err? { return Err(()); }
      var flags := U32();
      if flags.Err? { return Err(()); }
      r := Ok((Times(authtime.value, starttime.value, endtime.value, renewTill.value), (skey.value[0] != 0, flags.value)));
    }

    method Tail() returns (r: Outcome<Tail>)
      requires Valid()
      modifies this
      ensures Valid() && Did(GetTail(f, d, old(pos)), r)
    {
      hide GetTypedList, GetData;
      var addresses := Typeds();
      if addresses.Err? { return Err(()); }
      var authdata := Typeds();
      if authdata.Err? { return Err(()); }
      var ticket := Data();
      if ticket.Err? { return Err(()); }
      var second := Data();
      if second.Err? { return Err(()); }
      r := Ok(CcMarshal.Tail(addresses.value, authdata.value, ticket.value, second.value));
    }
  }

  ghost function GetMiddle(f: Format, d: seq<byte>, pos: nat): Read<(Times, (bool, nat))> {
    var times := GetTimes(f, d, pos);
    if times.Bad? then Bad else
    var flags := GetFlags(f, d, times.pos);
    if flags.Bad? then Bad else Got((times.value, flags.value), flags.pos)
  }

  ghost function Prepend<T>(xs: seq<T>, r: Read<seq<T>>): Read<seq<T>> {
    if r.Bad? then Bad else Got(xs + r.value, r.pos)
  }

  lemma PrependNone<T>(r: Read<seq<T>>)
    ensures Prepend([], r) == r
  {
    if r.Got? { assert [] + r.value == r.value; }
  }

  lemma PrependCons<T>(xs: seq<T>, x: T, r: Read<seq<T>>)
    ensures Prepend(xs, Prepend([x], r)) == Prepend(xs + [x], r)
  {
    if r.Got? { assert xs + ([x] + r.value) == xs + [x] + r.value; }
  }

  /** Reading a 32-bit field signed and casting it to unsigned gives the unsigned reading. */
  lemma UnsignedSigned(b: seq<byte>, be: bool)
    requires |b| == 4
    ensures Unsigned(Signed(FromWord(b, be), 4), 4) == FromWord(b, be)
  {
    var v := FromWord(b, be);
    WordBound(b, be);
    if 2 * v >= Pow256(4) { ModUnique(v - Pow256(4), Pow256(4), -1, v); } else { ModUnique(v, Pow256(4), 0, v); }
  }

  /** `unmarshal_cred_len`: the credential and the length consumed. */
  method UnmarshalCred(f: Format, d: seq<byte>, at: nat) returns (r: Outcome<(Cred, nat)>)
    requires at <= |d|
    ensures var g := GetCred(f, d, at);
            if g.Got? then r == Ok((g.value, g.pos - at)) else r == Err(())
  {
    hide GetPrinc, GetKeyblock, GetTimes, GetFlags, GetTail;
    var s := new Reader(d, at, f);
    var client := s.Princ();
    if client.Err? { return Err(()); }
    var server := s.Princ();
    if server.Err? { return Err(()); }
    var key := s.Keyblock();
    if key.Err? { return Err(()); }
    var middle := s.Middle();
    if middle.Err? { return Err(()); }
    var tail := s.Tail();
    if tail.Err? { return Err(()); }
    var t, u := middle.value.0, tail.value;
    r := Ok((Cred(client.value.0, client.value.1, server.value.0, server.value.1, key.value.0, key.value.1,
                  t.authtime, t.starttime, t.endtime, t.renewTill, middle.value.1.0, middle.value.1.1,
                  u.addresses, u.authdata, u.ticket, u.secondTicket), s.pos - at));
  }
}
