/**
 * The FILE cache behaves as the MEMORY cache does: whatever is initialized, stored, removed or
 * configured, both give the same answers and hold the same credentials.
 */
module CcRefine {
  import opened Bytes
  import opened CcFile
  import opened CcMarshal
  import opened CcRetrieve
  import opened Names
  import opened Text
  import opened Wrappers

  // ----- configuration entries -----

  const CONFIG_PRINC := "krb5_ccache_conf_data"

  type Who = Option<(Principal, string)>

  /** `from_bytes(..).unwrap_or_default()`. */
  function OrDefault(t: Codec, b: seq<byte>): seq<byte> { if t.general(b) then b else [] }

  /** `config_principal`. */
  function ConfigPrincipal(t: Codec, who: Who, key: string): Principal {
    Principal(0, [OrDefault(t, t.encode(CONFIG_PRINC)), OrDefault(t, t.encode(key))] +
                 if who.None? then [] else [OrDefault(t, t.encode(Unparse(t, who.value.0, who.value.1)))])
  }

  /** `config_cred`. */
  function ConfigCred(t: Codec, client: Principal, crealm: string, who: Who, key: string, data: seq<byte>): Cred {
    Cred(client, crealm, ConfigPrincipal(t, who, key), CONFIG_REALM, 0, [], 0, 0, 0, 0, false, 0, [], [], data, [])
  }

  /** `config_matches`. */
  predicate ConfigMatches(t: Codec, c: Cred, who: Who, key: string) {
    var comps := c.server.comps;
    && c.srealm == CONFIG_REALM && |comps| > 0 && comps[0] == t.encode(CONFIG_PRINC)
    && |comps| > 1 && comps[1] == t.encode(key)
    && if who.None? then |comps| == 2 else |comps| == 3 && comps[2] == t.encode(Unparse(t, who.value.0, who.value.1))
  }

  /** The request `set_config` removes the old entry with. */
  function ConfigRequest(t: Codec, who: Who, key: string): MatchCred {
    MatchCred(None, Some((ConfigPrincipal(t, who, key), CONFIG_REALM)), 0, 0, 0, 0, 0, false, 0, None, None)
  }

  /** `get_config`, over the live credentials. */
  function GetIn(t: Codec, cs: seq<Cred>, who: Who, key: string): Option<seq<byte>> {
    if cs == [] then None
    else if ConfigMatches(t, cs[0], who, key) then Some(cs[0].ticket)
    else GetIn(t, cs[1..], who, key)
  }

  // ----- the two caches -----

  type Answer = Result<(), CcError>

  datatype Memory = Memory(principal: Who, creds: seq<Cred>)

  /** The list without its first match. */
  function WithoutFirst(cs: seq<Cred>, flags: MatchFlags, m: MatchCred): Result<seq<Cred>, CcError> {
    if cs == [] then Err(NotFound)
    else if Matches(flags, m, cs[0]) then Ok(cs[1..])
    else
      var rest := WithoutFirst(cs[1..], flags, m);
      if rest.Err? then rest else Ok([cs[0]] + rest.value)
  }

  function MemSetConfig(t: Codec, mem: Memory, who: Who, key: string, data: Option<seq<byte>>): (Memory, Answer) {
    var removed := WithoutFirst(mem.creds, {}, ConfigRequest(t, who, key));
    var kept := if removed.Ok? then mem.(creds := removed.value) else mem;
    if data.None? then (kept, Ok(()))
    else if mem.principal.None? then (kept, Err(NotFound))
    else
      var (client, realm) := mem.principal.value;
      (kept.(creds := kept.creds + [ConfigCred(t, client, realm, who, key, data.value)]), Ok(()))
  }

  function FileSetConfig(h: Host, d: seq<byte>, who: Who, key: string, data: Option<seq<byte>>): (seq<byte>, Answer) {
    var removed := Remove(h, d, {}, ConfigRequest(h.text, who, key));
    var kept := if removed.Ok? then removed.value else d;
    if data.None? then (kept, Ok(())) else
    var o := ReadAll(h, kept);
    if o.Err? then (kept, Err(o.error)) else
    var (client, realm) := o.value.princ;
    var stored := Store(h, kept, ConfigCred(h.text, client, realm, who, key, data.value));
    if stored.Err? then (kept, Err(stored.error)) else (stored.value, Ok(()))
  }

  datatype Op =
    | Initialize(client: Principal, realm: string, offset: Offset)
    | StoreOp(cred: Cred)
    | RemoveOp(flags: MatchFlags, m: MatchCred)
    | SetConfig(who: Who, key: string, data: Option<seq<byte>>)

  function MemStep(t: Codec, mem: Memory, op: Op): (Memory, Answer) {
    match op
    case Initialize(p, realm, _) => (Memory(Some((p, realm)), []), Ok(()))
    case StoreOp(c) => (mem.(creds := mem.creds + [c]), Ok(()))
    case RemoveOp(flags, m) =>
      var r := WithoutFirst(mem.creds, flags, m);
      if r.Ok? then (mem.(creds := r.value), Ok(())) else (mem, Err(r.error))
    case SetConfig(who, key, data) => MemSetConfig(t, mem, who, key, data)
  }

  /** A cache file of the given version; `d` is its contents. */
  function FileStep(h: Host, version: byte, d: seq<byte>, op: Op): (seq<byte>, Answer) {
    match op
    case Initialize(p, realm, offset) => (Initial(h, version, offset, p, realm), Ok(()))
    case StoreOp(c) =>
      var r := Store(h, d, c);
      if r.Ok? then (r.value, Ok(())) else (d, Err(r.error))
    case RemoveOp(flags, m) =>
      var r := Remove(h, d, flags, m);
      if r.Ok? then (r.value, Ok(())) else (d, Err(r.error))
    case SetConfig(who, key, data) => FileSetConfig(h, d, who, key, data)
  }

  // ----- refinement -----

  /** Some records, tombstones among them, lie in the file, and the live ones are what memory holds. */
  ghost predicate Tracks(h: Host, version: byte, d: seq<byte>, mem: Memory) {
    && mem.principal.Some?
    && exists offset: Offset, cs: seq<Cred> ::
         Shape(h, version, offset, mem.principal.value.0, mem.principal.value.1, cs, d) && LiveOnly(cs) == mem.creds
  }

  /** What the format can carry, and does not read as a removed record. */
  ghost predicate Suitable(h: Host, version: byte, op: Op) {
    var f := FormatOf(version, h.bigEndian, h.text);
    match op
    case Initialize(p, realm, offset) => FitsHead(h, version, offset, p, realm)
    case StoreOp(c) => Good(f, c) && Live(c)
    case RemoveOp(_, _) => true
    case SetConfig(who, key, data) =>
      && FitsLen(h.text.encode(key)) && (data.Some? ==> FitsLen(data.value))
      && (who.Some? ==> FitsLen(h.text.encode(Unparse(h.text, who.value.0, who.value.1))))
  }

  lemma {:induction false} LiveOnlyConcat(a: seq<Cred>, b: seq<Cred>)
    ensures LiveOnly(a + b) == LiveOnly(a) + LiveOnly(b)
    decreases |a|
  {
    if a == [] {
      assert a + b == b;
    } else {
      assert (a + b)[0] == a[0] && (a + b)[1..] == a[1..] + b;
      LiveOnlyConcat(a[1..], b);
    }
  }

  /** Writing a tombstone over the first live match is deleting it from the live list. */
  lemma {:induction false} TombstoneDeletes(cs: seq<Cred>, flags: MatchFlags, m: MatchCred)
    ensures var i, r := FirstLive(cs, flags, m), WithoutFirst(LiveOnly(cs), flags, m);
            if i.None? then r == Err(NotFound)
            else r == Ok(LiveOnly(cs[i.value := Tombstone(cs[i.value])]))
    decreases |cs|
  {
    hide Matches, LiveOnly, Live, Tombstone;
    if cs == [] {
      assert LiveOnly(cs) == [] by { LiveNone(); }
    } else {
      var rest, i := cs[1..], FirstLive(cs, flags, m);
      TombstoneDeletes(rest, flags, m);
      LiveCons(cs);
      assert Live(cs[0]) ==> LiveOnly(cs)[1..] == LiveOnly(rest);
      if i.Some? {
        var ds := cs[i.value := Tombstone(cs[i.value])];
        LiveCons(ds);
        if i.value == 0 {
          assert ds[1..] == rest;
          assert !Live(Tombstone(cs[0])) by { TombstoneDead(cs[0]); }
        } else {
          assert ds[1..] == rest[i.value - 1 := Tombstone(rest[i.value - 1])];
        }
      }
    }
  }

  lemma LiveNone()
    ensures LiveOnly([]) == []
  {
  }

  lemma LiveCons(cs: seq<Cred>)
    requires cs != []
    ensures LiveOnly(cs) == if Live(cs[0]) then [cs[0]] + LiveOnly(cs[1..]) else LiveOnly(cs[1..])
  {
  }

  lemma TombstoneDead(c: Cred)
    ensures !Live(Tombstone(c))
  {
  }

  lemma StoreAgrees(h: Host, version: byte, d: seq<byte>, mem: Memory, c: Cred)
    requires Tracks(h, version, d, mem) && Good(FormatOf(version, h.bigEndian, h.text), c)
    ensures Store(h, d, c).Ok?
    ensures Live(c) ==> Tracks(h, version, Store(h, d, c).value, mem.(creds := mem.creds + [c]))
  {
    hide Shape, Good, Store;
    var (p, realm) := mem.principal.value;
    var offset: Offset, cs: seq<Cred> :| Shape(h, version, offset, p, realm, cs, d) && LiveOnly(cs) == mem.creds;
    StoreShape(h, version, offset, p, realm, cs, d, c);
    LiveOnlyConcat(cs, [c]);
    if Live(c) {
      assert LiveOnly([c]) == [c];
      assert LiveOnly(cs + [c]) == mem.creds + [c];
    }
  }

  lemma RemoveAgrees(h: Host, version: byte, d: seq<byte>, mem: Memory, flags: MatchFlags, m: MatchCred)
    requires Tracks(h, version, d, mem)
    ensures var r, s := Remove(h, d, flags, m), WithoutFirst(mem.creds, flags, m);
            if r.Ok? then s.Ok? && Tracks(h, version, r.value, mem.(creds := s.value)) else r.error == NotFound && s == Err(NotFound)
  {
    hide Shape, Remove, WithoutFirst, FirstLive, LiveOnly;
    var (p, realm) := mem.principal.value;
    var offset: Offset, cs: seq<Cred> :| Shape(h, version, offset, p, realm, cs, d) && LiveOnly(cs) == mem.creds;
    RemoveShape(h, version, offset, p, realm, cs, d, flags, m);
    TombstoneDeletes(cs, flags, m);
  }

  lemma InitializeAgrees(h: Host, version: byte, p: Principal, realm: string, offset: Offset)
    requires FitsHead(h, version, offset, p, realm)
    ensures Tracks(h, version, Initial(h, version, offset, p, realm), Memory(Some((p, realm)), []))
  {
    hide Shape, FitsHead;
    InitialShape(h, version, offset, p, realm);
    assert LiveOnly([]) == [];
  }

  /** What a reader of either cache sees. */
  lemma SameView(h: Host, version: byte, d: seq<byte>, mem: Memory)
    requires Tracks(h, version, d, mem)
    ensures Creds(h, d) == Ok(mem.creds)
    ensures ReadAll(h, d).Ok? && ReadAll(h, d).value.princ == mem.principal.value
  {
    hide Shape, Creds, ReadAll, LiveOnly;
    var (p, realm) := mem.principal.value;
    var offset: Offset, cs: seq<Cred> :| Shape(h, version, offset, p, realm, cs, d) && LiveOnly(cs) == mem.creds;
    ShapeReads(h, version, offset, p, realm, cs, d);
  }

  lemma OrDefaultFits(t: Codec, b: seq<byte>)
    requires t.Lawful() && FitsLen(b)
    ensures FitsLen(OrDefault(t, b)) && t.general(OrDefault(t, b))
  {
    assert Ascii("");
    assert t.encode("") == [];
  }

  lemma ConfigCredGood(h: Host, version: byte, mem: Memory, d: seq<byte>, who: Who, key: string, data: seq<byte>)
    requires Tracks(h, version, d, mem) && Suitable(h, version, SetConfig(who, key, Some(data)))
    ensures var (client, realm) := mem.principal.value;
            var c := ConfigCred(h.text, client, realm, who, key, data);
            Good(FormatOf(version, h.bigEndian, h.text), c) && Live(c)
  {
    hide Initial, AllGood, Codec.Lawful, Unparse, ConfigPrincipal, FitsPrinc;
    PowFacts();
    assert h.text.Lawful();
    ConfigPrincipalFits(FormatOf(version, h.bigEndian, h.text), who, key);
  }

  lemma ConfigPrincipalFits(f: CcMarshal.Format, who: Who, key: string)
    requires f.text.Lawful() && FitsLen(f.text.encode(key))
    requires who.Some? ==> FitsLen(f.text.encode(Unparse(f.text, who.value.0, who.value.1)))
    ensures FitsPrinc(f, ConfigPrincipal(f.text, who, key), CONFIG_REALM)
    ensures ConfigPrincipal(f.text, who, key).nameType == 0
  {
    hide Codec.Lawful, Unparse, OrDefault, Ascii;
    var t := f.text;
    assert Ascii(CONFIG_REALM) && Ascii(CONFIG_PRINC) by { AsciiConfig(); }
    AsciiLength(t, CONFIG_REALM);
    AsciiLength(t, CONFIG_PRINC);
    OrDefaultFits(t, t.encode(CONFIG_PRINC));
    OrDefaultFits(t, t.encode(key));
    if who.Some? { OrDefaultFits(t, t.encode(Unparse(t, who.value.0, who.value.1))); }
    PowFacts();
  }

  lemma AsciiConfig()
    ensures Ascii(CONFIG_REALM) && Ascii(CONFIG_PRINC)
  {
  }

  lemma AsciiLength(t: Codec, s: string)
    requires t.Lawful() && Ascii(s)
    ensures |t.encode(s)| == |s| && t.general(t.encode(s))
  {
    assert t.encode(s) == AsciiBytes(s);
  }

  lemma SetConfigAgrees(h: Host, version: byte, d: seq<byte>, mem: Memory, who: Who, key: string, data: Option<seq<byte>>)
    requires Tracks(h, version, d, mem) && Suitable(h, version, SetConfig(who, key, data))
    ensures var (d2, a) := FileSetConfig(h, d, who, key, data);
            var (mem2, b) := MemSetConfig(h.text, mem, who, key, data);
            a == b && Tracks(h, version, d2, mem2)
  {
    hide Tracks, Remove, Store, ReadAll, Creds, WithoutFirst, ConfigCred, ConfigRequest, Good, Live, Suitable;
    var req := ConfigRequest(h.text, who, key);
    assert mem.principal.Some? by { TracksPrincipal(h, version, d, mem); }
    RemoveAgrees(h, version, d, mem, {}, req);
    var removed := WithoutFirst(mem.creds, {}, req);
    var kept := if removed.Ok? then mem.(creds := removed.value) else mem;
    var fileRemoved := Remove(h, d, {}, req);
    var fileKept := if fileRemoved.Ok? then fileRemoved.value else d;
    assert Tracks(h, version, fileKept, kept);
    if data.Some? {
      SameView(h, version, fileKept, kept);
      ConfigCredGood(h, version, kept, fileKept, who, key, data.value);
      var (client, realm) := mem.principal.value;
      StoreAgrees(h, version, fileKept, kept, ConfigCred(h.text, client, realm, who, key, data.value));
    }
  }

  lemma TracksPrincipal(h: Host, version: byte, d: seq<byte>, mem: Memory)
    requires Tracks(h, version, d, mem)
    ensures mem.principal.Some?
  {
  }

  /** One operation: the same answer, and the caches go on agreeing. */
  lemma StepAgrees(h: Host, version: byte, d: seq<byte>, mem: Memory, op: Op)
    requires Suitable(h, version, op) && (op.Initialize? || Tracks(h, version, d, mem))
    ensures var (d2, a) := FileStep(h, version, d, op);
            var (mem2, b) := MemStep(h.text, mem, op);
            a == b && Tracks(h, version, d2, mem2)
  {
    hide Tracks, Remove, Store, WithoutFirst, FileSetConfig, MemSetConfig, Good, FitsHead, Initial;
    match op
    case Initialize(p, realm, offset) => InitializeAgrees(h, version, p, realm, offset);
    case StoreOp(c) => StoreAgrees(h, version, d, mem, c);
    case RemoveOp(flags, m) => RemoveAgrees(h, version, d, mem, flags, m);
    case SetConfig(who, key, data) => SetConfigAgrees(h, version, d, mem, who, key, data);
  }

  // ----- whole runs -----

  function FileRun(h: Host, version: byte, d: seq<byte>, ops: seq<Op>): (seq<byte>, seq<Answer>)
    decreases |ops|
  {
    if ops == [] then (d, []) else
    var (d2, a) := FileStep(h, version, d, ops[0]);
    var (end, rest) := FileRun(h, version, d2, ops[1..]);
    (end, [a] + rest)
  }

  function MemRun(t: Codec, mem: Memory, ops: seq<Op>): (Memory, seq<Answer>)
    decreases |ops|
  {
    if ops == [] then (mem, []) else
    var (mem2, a) := MemStep(t, mem, ops[0]);
    var (end, rest) := MemRun(t, mem2, ops[1..]);
    (end, [a] + rest)
  }

  lemma {:induction false} RunAgrees(h: Host, version: byte, d: seq<byte>, mem: Memory, ops: seq<Op>)
    requires forall op | op in ops :: Suitable(h, version, op)
    requires Tracks(h, version, d, mem) || (ops != [] && ops[0].Initialize?)
    ensures var (d2, a) := FileRun(h, version, d, ops);
            var (mem2, b) := MemRun(h.text, mem, ops);
            a == b && Tracks(h, version, d2, mem2)
    decreases |ops|
  {
    hide Tracks, FileStep, MemStep, Suitable;
    if ops != [] {
      StepAgrees(h, version, d, mem, ops[0]);
      RunAgrees(h, version, FileStep(h, version, d, ops[0]).0, MemStep(h.text, mem, ops[0]).0, ops[1..]);
    }
  }

  /**
   * From whatever was there before, once initialized: every operation of every run answers alike in
   * both caches, and at the end both hold the same principal, credentials and configuration.
   */
  lemma FileRefinesMemory(h: Host, version: byte, d: seq<byte>, mem: Memory, ops: seq<Op>)
    requires ops != [] && ops[0].Initialize? && forall op | op in ops :: Suitable(h, version, op)
    ensures var (d2, a) := FileRun(h, version, d, ops);
            var (mem2, b) := MemRun(h.text, mem, ops);
            && a == b
            && Creds(h, d2) == Ok(mem2.creds)
            && mem2.principal.Some? && ReadAll(h, d2).Ok? && ReadAll(h, d2).value.princ == mem2.principal.value
  {
    hide Tracks, FileRun, MemRun, Suitable, Creds, ReadAll;
    RunAgrees(h, version, d, mem, ops);
    var d2, mem2 := FileRun(h, version, d, ops).0, MemRun(h.text, mem, ops).0;
    SameView(h, version, d2, mem2);
    TracksPrincipal(h, version, d2, mem2);
  }

  // ----- which credentials keep the caches alike -----

  lemma ShortAgain(f: CcMarshal.Format, v: int)
    ensures PutI16(f, Short(v)) == PutI16(f, v)
  {
    var u := Unsigned(v, 2);
    if 2 * u >= Pow256(2) { ModUnique(u - Pow256(2), Pow256(2), -1, u); } else { ModUnique(u, Pow256(2), 0, u); }
  }

  lemma {:induction false} PutStoredTypeds(f: CcMarshal.Format, ts: seq<Typed>)
    ensures PutTypeds(f, StoredTypeds(ts)) == PutTypeds(f, ts)
    decreases |ts|
  {
    hide PutI16, PutData, Short, StoredTypeds;
    if ts == [] {
      assert StoredTypeds(ts) == [];
    } else {
      StoredCons(ts);
      assert StoredTypeds(ts)[1..] == StoredTypeds(ts[1..]);
      ShortAgain(f, ts[0].ty);
      PutStoredTypeds(f, ts[1..]);
    }
  }

  /** A credential and what is read back of it are written with the same bytes. */
  lemma PutStored(f: CcMarshal.Format, c: Cred)
    ensures PutCred(f, Stored(f, c)) == PutCred(f, c)
  {
    hide PutI16, PutI32, PutData, PutDatas, PutTypeds, Short, StoredTypeds;
    ShortAgain(f, c.keytype);
    PutStoredTypeds(f, c.addresses);
    PutStoredTypeds(f, c.authdata);
    assert PutPrinc(f, StoredPrinc(f, c.client), c.crealm) == PutPrinc(f, c.client, c.crealm);
    assert PutPrinc(f, StoredPrinc(f, c.server), c.srealm) == PutPrinc(f, c.server, c.srealm);
    assert PutTail(f, Stored(f, c)) == PutTail(f, c);
  }

  lemma StoredGood(f: CcMarshal.Format, c: Cred)
    requires FitsCred(f, c)
    ensures Good(f, Stored(f, c))
  {
    hide Exact, Short, FitsLen;
    StoredExactly(f, c);
    PowFacts();
    forall t | t in StoredTypeds(c.addresses) ensures FitsLen(t.data) {
      var i :| 0 <= i < |c.addresses| && t == StoredTypeds(c.addresses)[i];
      assert c.addresses[i] in c.addresses;
    }
    forall t | t in StoredTypeds(c.authdata) ensures FitsLen(t.data) {
      var i :| 0 <= i < |c.authdata| && t == StoredTypeds(c.authdata)[i];
      assert c.authdata[i] in c.authdata;
    }
  }

  /** Storing a credential keeps the two caches alike exactly when the version keeps it whole and it is not a tombstone. */
  lemma StoreAgreesExactly(h: Host, version: byte, d: seq<byte>, mem: Memory, c: Cred)
    requires Tracks(h, version, d, mem) && FitsCred(FormatOf(version, h.bigEndian, h.text), c)
    ensures Store(h, d, c).Ok?
    ensures Creds(h, Store(h, d, c).value) == Ok(mem.creds + [c])
            <==> Live(c) && Exact(FormatOf(version, h.bigEndian, h.text), c)
  {
    hide Shape, Good, ReadAll, PutCred, FitsCred, Exact, Creds, Stored;
    var f := FormatOf(version, h.bigEndian, h.text);
    var (p, realm) := mem.principal.value;
    var offset: Offset, cs: seq<Cred> :| Shape(h, version, offset, p, realm, cs, d) && LiveOnly(cs) == mem.creds;
    var back := Stored(f, c);
    StoredGood(f, c);
    ShapeReads(h, version, offset, p, realm, cs, d);
    StoreShape(h, version, offset, p, realm, cs, d, back);
    PutStored(f, c);
    var d2 := Store(h, d, c).value;
    assert d2 == Store(h, d, back).value;
    ShapeReads(h, version, offset, p, realm, cs + [back], d2);
    LiveOnlyConcat(cs, [back]);
    StoredLive(f, c);
    StoredExactly(f, c);
    if Live(c) {
      assert LiveOnly([back]) == [back];
      assert (mem.creds + [back])[|mem.creds|] == back && (mem.creds + [c])[|mem.creds|] == c;
    } else {
      assert LiveOnly([back]) == [];
      assert |mem.creds + []| < |mem.creds + [c]|;
    }
  }

  lemma StoredLive(f: CcMarshal.Format, c: Cred)
    ensures Live(Stored(f, c)) == Live(c)
  {
  }
}
