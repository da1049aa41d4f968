/** The FILE and MEMORY caches as objects; the file's contents are a field. */
module Ccaches {
  import opened Bytes
  import opened CcFile
  import opened CcMarshal
  import opened CcMarshalIo
  import opened CcRefine
  import opened CcRetrieve
  import opened Text
  import opened Wrappers

  /** `parse_header`, with its loop over the tagged fields. */
  method ReadHeader(d: seq<byte>) returns (r: Result<Header, CcError>)
    ensures r == ParseHeader(d)
  {
    hide U16, U32;
    if |d| < 2 { return Err(CcError.Format); }
    if d[0] != 5 { return Err(BadVno); }
    var version := d[1];
    if !(1 <= version <= 4) { return Err(BadVno); }
    if version != 4 { return Ok(Header(version, 2, None)); }
    if |d| < 4 { return Err(CcError.Format); }
    var fieldsLen := U16(d, 2);
    if fieldsLen != 0 && fieldsLen < 4 { return Err(CcError.Format); }
    var end := 4 + fieldsLen;
    if |d| < end { return Err(CcError.Format); }
    var offset: Offset, pos := None, 4;
    while pos + 4 <= end
      invariant pos <= end
      invariant Fields(d, 4, end, None) == Fields(d, pos, end, offset)
      decreases end - pos
    {
      var tag, flen := U16(d, pos), U16(d, pos + 2);
      pos := pos + 4;
      if pos + flen > end { return Err(CcError.Format); }
      if tag == 1 {
        if flen != 8 { return Err(CcError.Format); }
        offset := Some((U32(d, pos), U32(d, pos + 4)));
      }
      pos := pos + flen;
    }
    if pos != end { return Err(CcError.Format); }
    r := Ok(Header(version, end, offset));
  }

  /** The loop of `records` over the credential region. */
  method ScanRecords(f: CcMarshal.Format, d: seq<byte>, start: nat) returns (r: Result<seq<Record>, CcError>)
    requires start <= |d|
    ensures r == RecordsFrom(f, d, start)
  {
    hide GetCred;
    var pos, out: seq<Record> := start, [];
    ghost var all := RecordsFrom(f, d, start);
    assert all.Ok? ==> [] + all.value == all.value;
    while pos < |d|
      invariant pos <= |d|
      invariant var rest := RecordsFrom(f, d, pos); all == if rest.Err? then rest else Ok(out + rest.value)
      decreases |d| - pos
    {
      var c := UnmarshalCred(f, d, pos);
      if c.Err? { return Err(CcError.Format); }
      var (cred, len) := c.value;
      ghost var rest := RecordsFrom(f, d, pos + len);
      assert rest.Ok? ==> out + ([Record(pos, len, cred)] + rest.value) == out + [Record(pos, len, cred)] + rest.value;
      if len == 0 { break; }
      out := out + [Record(pos, len, cred)];
      pos := pos + len;
    }
    assert out + [] == out;
    r := Ok(out);
  }

  lemma LiveStep(all: seq<Cred>, i: nat, out: seq<Cred>)
    requires i < |all|
    ensures out + LiveOnly(all[i..]) == (if Live(all[i]) then out + [all[i]] else out) + LiveOnly(all[i + 1..])
  {
    hide LiveOnly;
    LiveCons(all[i..]);
    assert all[i..][0] == all[i] && all[i..][1..] == all[i + 1..];
    assert out + ([all[i]] + LiveOnly(all[i + 1..])) == out + [all[i]] + LiveOnly(all[i + 1..]);
  }

  /** The filter of `creds`. */
  method KeepLive(rs: seq<Record>) returns (out: seq<Cred>)
    ensures out == LiveOnly(CredsOf(rs))
  {
    hide LiveOnly;
    out := [];
    ghost var all := CredsOf(rs);
    assert all[0..] == all;
    for i := 0 to |rs|
      invariant out + LiveOnly(all[i..]) == LiveOnly(all)
    {
      LiveStep(all, i, out);
      if !(rs[i].cred.endtime == 0 && rs[i].cred.authtime != 0) { out := out + [rs[i].cred]; }
    }
    LiveNone();
    assert all[|rs|..] == [] && out + [] == out;
  }

  class FileCcache {
    const h: Host
    const version: byte
    var timeOffset: Offset
    /** The file at the cache's path; `None` when there is none. */
    var file: Option<seq<byte>>

    constructor (h: Host, version: byte, file: Option<seq<byte>>)
      ensures this.h == h && this.version == version && timeOffset == None && this.file == file
    {
      this.h, this.version, timeOffset, this.file := h, version, None, file;
    }

    method SetTimeOffset(secs: nat, usecs: nat)
      modifies this
      ensures timeOffset == Some((secs, usecs)) && file == old(file)
    {
      timeOffset := Some((secs, usecs));
    }

    /** What is read of a missing file is an I/O error. */
    ghost function FromFile<T>(g: (Host, seq<byte>) -> Result<T, CcError>): Result<T, CcError>
      reads this
    {
      if file.None? then Err(Io) else g(h, file.value)
    }

    /** Reading a file that records an offset adopts it. */
    ghost function Adopted(): Offset
      reads this
    {
      if file.None? || ParseHeader(file.value).Err? || ParseHeader(file.value).value.offset.None? then timeOffset
      else ParseHeader(file.value).value.offset
    }

    method ReadFile() returns (r: Result<Opened, CcError>)
      modifies this`timeOffset
      ensures r == FromFile(ReadAll) && timeOffset == old(Adopted())
    {
      hide ParseHeader, GetPrinc;
      if file.None? { return Err(Io); }
      var d := file.value;
      var hdr := ReadHeader(d);
      if hdr.Err? { return Err(hdr.error); }
      if hdr.value.offset.Some? { timeOffset := hdr.value.offset; }
      var f := FormatOf(hdr.value.version, h.bigEndian, h.text);
      var s := new Reader(d, hdr.value.len, f);
      var p := s.Princ();
      if p.Err? { return Err(CcError.Format); }
      r := Ok(Opened(f, hdr.value.offset, p.value, s.pos));
    }

    method ReadRecords() returns (r: Result<seq<Record>, CcError>)
      modifies this`timeOffset
      ensures r == FromFile(Records) && timeOffset == old(Adopted())
    {
      hide ReadAll, GetCred, ParseHeader;
      var o := ReadFile();
      if o.Err? { return Err(o.error); }
      r := ScanRecords(o.value.f, file.value, o.value.start);
    }

    method Initialize(client: Principal, realm: string)
      modifies this
      ensures file == Some(Initial(h, version, old(timeOffset), client, realm)) && timeOffset == old(timeOffset)
    {
      hide PutPrinc;
      var out: seq<byte> := [5, version];
      if version == 4 {
        if timeOffset.Some? {
          out := out + BeU16(12);
          out := out + BeU16(1);
          out := out + BeU16(8);
          out := out + BeU32(timeOffset.value.0);
          out := out + BeU32(timeOffset.value.1);
        } else {
          out := out + BeU16(0);
        }
      }
      assert out == HeaderBytes(version, timeOffset);
      var p := MarshalPrinc(FormatOf(version, h.bigEndian, h.text), client, realm);
      file := Some(out + p);
    }

    method Principal() returns (r: Result<(Principal, string), CcError>)
      modifies this`timeOffset
      ensures var o := FromFile(ReadAll); r == if o.Ok? then Ok(o.value.princ) else Err(o.error)
      ensures timeOffset == old(Adopted())
    {
      hide ReadAll, ParseHeader;
      var o := ReadFile();
      if o.Err? { return Err(o.error); }
      r := Ok(o.value.princ);
    }

    method Store(c: Cred) returns (r: Answer)
      modifies this
      ensures if old(file).None? then r == Err(Io) && file == old(file)
              else var (d, a) := FileStep(h, version, old(file).value, StoreOp(c)); file == Some(d) && r == a
      ensures timeOffset == old(Adopted())
    {
      hide ReadAll, PutCred, ParseHeader;
      var o := ReadFile();
      if o.Err? { return Err(o.error); }
      var b := MarshalCred(o.value.f, c);
      file := Some(file.value + b);
      r := Ok(());
    }

    method LiveCreds() returns (r: Result<seq<Cred>, CcError>)
      modifies this`timeOffset
      ensures r == FromFile(Creds) && timeOffset == old(Adopted())
    {
      hide Records, ParseHeader;
      var rs := ReadRecords();
      if rs.Err? { return Err(rs.error); }
      var live := KeepLive(rs.value);
      r := Ok(live);
    }

    method RemoveCred(flags: MatchFlags, m: MatchCred) returns (r: Answer)
      modifies this
      ensures if old(file).None? then r == Err(Io) && file == old(file)
              else var (d, a) := FileStep(h, version, old(file).value, RemoveOp(flags, m)); file == Some(d) && r == a
      ensures timeOffset == old(Adopted())
    {
      hide ReadAll, Records, PutCred, ParseHeader, Matches;
      var o := ReadFile();
      if o.Err? { return Err(o.error); }
      var rs := ReadRecords();
      if rs.Err? { return Err(rs.error); }
      ghost var all := CredsOf(rs.value);
      for i := 0 to |rs.value|
        invariant file == old(file) && timeOffset == old(Adopted())
        invariant forall j | 0 <= j < i :: !(Live(all[j]) && Matches(flags, m, all[j]))
      {
        var rec := rs.value[i];
        if rec.cred.endtime == 0 && rec.cred.authtime != 0 { continue; }
        if !Matches(flags, m, rec.cred) { continue; }
        assert all[i] == rec.cred;
        assert FirstLive(all, flags, m) == Some(i);
        var removed := rec.cred.(authtime := TWO32 - 1, endtime := 0);
        if removed.srealm == CONFIG_REALM { removed := removed.(srealm := REMOVED_CONFIG_REALM); }
        var b := MarshalCred(o.value.f, removed);
        if |b| != rec.len { return Err(CcError.Format); }
        file := Some(file.value[..rec.off] + b + file.value[rec.off + rec.len..]);
        return Ok(());
      }
      r := Err(NotFound);
    }

    method Retrieve(flags: MatchFlags, m: MatchCred, ktypes: Option<seq<int>>) returns (r: Result<Cred, CcError>)
      modifies this`timeOffset
      ensures var cs := FromFile(Creds);
              if cs.Ok? then Retrieved(cs.value, flags, m, ktypes, r) else r == Err(cs.error)
      ensures timeOffset == old(Adopted())
    {
      hide Retrieved, Creds, ParseHeader;
      var cs := LiveCreds();
      if cs.Err? { return Err(cs.error); }
      r := RetrieveIn(cs.value, flags, m, ktypes);
    }

    method SetConfig(who: Who, key: string, data: Option<seq<byte>>) returns (r: Answer)
      modifies this
      ensures if old(file).None? then r == (if data.None? then Ok(()) else Err(Io)) && file == old(file)
              else var (d, a) := FileSetConfig(h, old(file).value, who, key, data); file == Some(d) && r == a
      ensures timeOffset == old(Adopted())
    {
      hide ReadAll, Remove, PutCred, ParseHeader, ConfigCred, ConfigRequest;
      var ignored := RemoveCred({}, ConfigRequest(h.text, who, key));
      if file.Some? && Remove(h, old(file).value, {}, ConfigRequest(h.text, who, key)).Ok? {
        RemoveKeepsHeader(h, old(file).value, {}, ConfigRequest(h.text, who, key));
      }
      if data.None? { return Ok(()); }
      var p := Principal();
      if p.Err? { return Err(p.error); }
      r := Store(ConfigCred(h.text, p.value.0, p.value.1, who, key, data.value));
    }

    method GetConfig(who: Who, key: string) returns (r: Result<Option<seq<byte>>, CcError>)
      modifies this`timeOffset
      ensures var cs := FromFile(Creds);
              r == if cs.Ok? then Ok(GetIn(h.text, cs.value, who, key)) else Err(cs.error)
      ensures timeOffset == old(Adopted())
    {
      hide Creds, ConfigMatches, ParseHeader;
      var cs := LiveCreds();
      if cs.Err? { return Err(cs.error); }
      var found := FindConfig(h.text, cs.value, who, key);
      r := Ok(found);
    }
  }

  /** The search both caches make for an entry. */
  method FindConfig(t: Codec, cs: seq<Cred>, who: Who, key: string) returns (r: Option<seq<byte>>)
    ensures r == GetIn(t, cs, who, key)
  {
    hide ConfigMatches;
    for i := 0 to |cs|
      invariant GetIn(t, cs, who, key) == GetIn(t, cs[i..], who, key)
    {
      assert cs[i..][0] == cs[i] && cs[i..][1..] == cs[i + 1..];
      if ConfigMatches(t, cs[i], who, key) { return Some(cs[i].ticket); }
    }
    r := None;
  }

  /** What the search is left to do once it has passed over the first `i` credentials. */
  ghost function RemovedBy(cs: seq<Cred>, i: nat, flags: MatchFlags, m: MatchCred): Result<seq<Cred>, CcError>
    requires i <= |cs|
  {
    var rest := WithoutFirst(cs[i..], flags, m);
    if rest.Ok? then Ok(cs[..i] + rest.value) else rest
  }

  lemma RemovedStep(cs: seq<Cred>, i: nat, flags: MatchFlags, m: MatchCred)
    requires i < |cs|
    ensures RemovedBy(cs, i, flags, m)
            == if Matches(flags, m, cs[i]) then Ok(cs[..i] + cs[i + 1..]) else RemovedBy(cs, i + 1, flags, m)
  {
    hide Matches;
    var tail := WithoutFirst(cs[i + 1..], flags, m);
    assert cs[i..][0] == cs[i] && cs[i..][1..] == cs[i + 1..];
    assert tail.Ok? ==> cs[..i] + ([cs[i]] + tail.value) == cs[..i + 1] + tail.value;
  }

  lemma RemovedEnds(cs: seq<Cred>, flags: MatchFlags, m: MatchCred)
    ensures RemovedBy(cs, 0, flags, m) == WithoutFirst(cs, flags, m) && RemovedBy(cs, |cs|, flags, m) == Err(NotFound)
  {
    hide Matches;
    var all := WithoutFirst(cs, flags, m);
    assert cs[0..] == cs && cs[|cs|..] == [];
    assert all.Ok? ==> cs[..0] + all.value == all.value;
  }

  class MemoryCcache {
    const text: Codec
    var principal: Who
    var creds: seq<Cred>

    ghost function State(): Memory reads this { Memory(principal, creds) }

    constructor (text: Codec)
      ensures this.text == text && State() == Memory(None, [])
    {
      this.text, principal, creds := text, None, [];
    }

    method Initialize(client: Principal, realm: string)
      modifies this
      ensures forall offset :: State() == MemStep(text, old(State()), Op.Initialize(client, realm, offset)).0
    {
      principal, creds := Some((client, realm)), [];
    }

    method Store(c: Cred)
      modifies this
      ensures State() == MemStep(text, old(State()), StoreOp(c)).0
    {
      creds := creds + [c];
    }

    method RemoveCred(flags: MatchFlags, m: MatchCred) returns (r: Answer)
      modifies this
      ensures (State(), r) == MemStep(text, old(State()), RemoveOp(flags, m))
    {
      hide Matches, WithoutFirst, RemovedBy;
      RemovedEnds(creds, flags, m);
      for i := 0 to |creds|
        invariant creds == old(creds) && principal == old(principal)
        invariant RemovedBy(creds, i, flags, m) == WithoutFirst(creds, flags, m)
      {
        RemovedStep(creds, i, flags, m);
        if Matches(flags, m, creds[i]) {
          creds := creds[..i] + creds[i + 1..];
          return Ok(());
        }
      }
      r := Err(NotFound);
    }

    method Retrieve(flags: MatchFlags, m: MatchCred, ktypes: Option<seq<int>>) returns (r: Result<Cred, CcError>)
      ensures Retrieved(creds, flags, m, ktypes, r)
    {
      hide Retrieved;
      r := RetrieveIn(creds, flags, m, ktypes);
    }

    method SetConfig(who: Who, key: string, data: Option<seq<byte>>) returns (r: Answer)
      modifies this
      ensures (State(), r) == MemSetConfig(text, old(State()), who, key, data)
    {
      hide ConfigCred, ConfigRequest, WithoutFirst;
      var ignored := RemoveCred({}, ConfigRequest(text, who, key));
      if data.None? { return Ok(()); }
      if principal.None? { return Err(NotFound); }
      creds := creds + [ConfigCred(text, principal.value.0, principal.value.1, who, key, data.value)];
      r := Ok(());
    }

    method GetConfig(who: Who, key: string) returns (r: Option<seq<byte>>)
      ensures r == GetIn(text, creds, who, key)
    {
      r := FindConfig(text, creds, who, key);
    }
  }
}
