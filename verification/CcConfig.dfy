/** Configuration entries in a cache behave as a dictionary. */
module CcConfig {
  import opened Bytes
  import opened CcFile
  import opened CcMarshal
  import opened CcRefine
  import opened CcRetrieve
  import opened Names
  import opened Text
  import opened Wrappers

  /** An entry's name: the components of its server principal. */
  type Entry = seq<seq<byte>>

  type Dictionary = map<Entry, seq<byte>>

  function EntryOf(t: Codec, who: Who, key: string): Entry { ConfigPrincipal(t, who, key).comps }

  /** The key and the unparsed principal are strings the component type accepts. */
  predicate Settable(t: Codec, who: Who, key: string) {
    t.general(t.encode(key)) && (who.Some? ==> t.general(t.encode(Unparse(t, who.value.0, who.value.1))))
  }

  /** The operations that leave configuration to `set_config`. */
  ghost predicate Respects(op: Op) {
    match op
    case Initialize(_, _, _) => true
    case StoreOp(c) => c.srealm != CONFIG_REALM
    case RemoveOp(flags, m) => m.server.Some? && m.server.value.1 != CONFIG_REALM && SRV_NAMEONLY !in flags
    case SetConfig(_, _, _) => true
  }

  /** What each operation should mean for the dictionary. */
  ghost function DictStep(t: Codec, dict: Dictionary, op: Op): Dictionary {
    match op
    case Initialize(_, _, _) => map[]
    case StoreOp(_) => dict
    case RemoveOp(_, _) => dict
    case SetConfig(who, key, data) =>
      if data.None? then dict - {EntryOf(t, who, key)} else dict[EntryOf(t, who, key) := data.value]
  }

  ghost function DictRun(t: Codec, dict: Dictionary, ops: seq<Op>): Dictionary
    decreases |ops|
  {
    if ops == [] then dict else DictRun(t, DictStep(t, dict, ops[0]), ops[1..])
  }

  // ----- the credentials that represent a dictionary -----

  ghost predicate IsEntry(c: Cred, k: Entry) { c.srealm == CONFIG_REALM && c.server.comps == k }

  ghost predicate OneEach(cs: seq<Cred>) {
    forall i, j | 0 <= i < j < |cs| && cs[i].srealm == CONFIG_REALM && cs[j].srealm == CONFIG_REALM ::
      cs[i].server.comps != cs[j].server.comps
  }

  ghost predicate Kept(cs: seq<Cred>, dict: Dictionary) {
    forall i | 0 <= i < |cs| && cs[i].srealm == CONFIG_REALM ::
      !cs[i].isSkey && cs[i].server.comps in dict && dict[cs[i].server.comps] == cs[i].ticket
  }

  ghost predicate Present(cs: seq<Cred>, dict: Dictionary) {
    forall k | k in dict :: exists i :: 0 <= i < |cs| && IsEntry(cs[i], k)
  }

  ghost predicate AllGeneral(t: Codec, dict: Dictionary) { forall k | k in dict :: forall c | c in k :: t.general(c) }

  ghost predicate Represents(t: Codec, cs: seq<Cred>, dict: Dictionary) {
    OneEach(cs) && Kept(cs, dict) && Present(cs, dict) && AllGeneral(t, dict)
  }

  /** Removing deletes one matching credential, or there was none. */
  lemma {:induction false} WithoutFirstMeans(cs: seq<Cred>, flags: MatchFlags, m: MatchCred) returns (i: nat)
    ensures var r := WithoutFirst(cs, flags, m);
            if r.Ok? then i < |cs| && Matches(flags, m, cs[i]) && r.value == cs[..i] + cs[i + 1..]
            else r.error == NotFound && forall j | 0 <= j < |cs| :: !Matches(flags, m, cs[j])
    decreases |cs|
  {
    hide Matches;
    i := 0;
    if cs != [] && !Matches(flags, m, cs[0]) {
      i := WithoutFirstMeans(cs[1..], flags, m);
      var r := WithoutFirst(cs, flags, m);
      if r.Ok? {
        assert cs[1..][..i] == cs[1..i + 1] && cs[1..][i + 1..] == cs[i + 2..];
        assert [cs[0]] + (cs[1..i + 1] + cs[i + 2..]) == cs[..i + 1] + cs[i + 2..];
        i := i + 1;
      } else {
        forall j | 0 <= j < |cs| ensures !Matches(flags, m, cs[j]) {
          if j > 0 { assert cs[j] == cs[1..][j - 1]; }
        }
      }
    }
  }

  /** Where the element at `a` of a list without its `i`-th came from. */
  function Origin(i: nat, a: nat): nat { if a < i then a else a + 1 }

  lemma OriginAt<T>(cs: seq<T>, i: nat, a: nat)
    requires i < |cs| && a < |cs| - 1
    ensures (cs[..i] + cs[i + 1..])[a] == cs[Origin(i, a)]
  {
  }

  /** Dropping a credential that is no entry changes nothing. */
  lemma DropOther(t: Codec, cs: seq<Cred>, dict: Dictionary, i: nat)
    requires Represents(t, cs, dict) && i < |cs| && cs[i].srealm != CONFIG_REALM
    ensures Represents(t, cs[..i] + cs[i + 1..], dict)
  {
    var ds := cs[..i] + cs[i + 1..];
    forall a | 0 <= a < |ds| ensures ds[a] == cs[Origin(i, a)] { OriginAt(cs, i, a); }
    forall k | k in dict ensures exists a :: 0 <= a < |ds| && IsEntry(ds[a], k) {
      var b :| 0 <= b < |cs| && IsEntry(cs[b], k);
      assert b != i;
      assert IsEntry(ds[if b < i then b else b - 1], k);
    }
  }

  /** Dropping an entry's credential drops the entry, as it has only that one. */
  lemma DropEntry(t: Codec, cs: seq<Cred>, dict: Dictionary, i: nat, k: Entry)
    requires Represents(t, cs, dict) && i < |cs| && IsEntry(cs[i], k)
    ensures Represents(t, cs[..i] + cs[i + 1..], dict - {k})
  {
    var ds := cs[..i] + cs[i + 1..];
    forall a | 0 <= a < |ds| ensures ds[a] == cs[Origin(i, a)] { OriginAt(cs, i, a); }
    forall a | 0 <= a < |ds| && ds[a].srealm == CONFIG_REALM ensures ds[a].server.comps != k {
      var b := Origin(i, a);
      assert b < i || i < b;
    }
    forall j | j in dict - {k} ensures exists a :: 0 <= a < |ds| && IsEntry(ds[a], j) {
      var b :| 0 <= b < |cs| && IsEntry(cs[b], j);
      assert b != i;
      assert IsEntry(ds[if b < i then b else b - 1], j);
    }
  }

  lemma AddOther(t: Codec, cs: seq<Cred>, dict: Dictionary, c: Cred)
    requires Represents(t, cs, dict) && c.srealm != CONFIG_REALM
    ensures Represents(t, cs + [c], dict)
  {
    forall k | k in dict ensures exists a :: 0 <= a < |cs + [c]| && IsEntry((cs + [c])[a], k) {
      var b :| 0 <= b < |cs| && IsEntry(cs[b], k);
      assert IsEntry((cs + [c])[b], k);
    }
  }

  lemma AddEntry(t: Codec, cs: seq<Cred>, dict: Dictionary, c: Cred, k: Entry)
    requires Represents(t, cs, dict) && k !in dict && IsEntry(c, k) && !c.isSkey
    requires forall x | x in k :: t.general(x)
    ensures Represents(t, cs + [c], dict[k := c.ticket])
  {
    var ds, grown := cs + [c], dict[k := c.ticket];
    forall j | j in grown ensures exists a :: 0 <= a < |ds| && IsEntry(ds[a], j) {
      if j == k {
        assert IsEntry(ds[|cs|], j);
      } else {
        var b :| 0 <= b < |cs| && IsEntry(cs[b], j);
        assert IsEntry(ds[b], j);
      }
    }
  }

  /** The request of `set_config` matches exactly the credential of that entry. */
  lemma RequestMatches(t: Codec, cs: seq<Cred>, dict: Dictionary, who: Who, key: string, i: nat)
    requires Represents(t, cs, dict) && i < |cs|
    ensures Matches({}, ConfigRequest(t, who, key), cs[i]) <==> IsEntry(cs[i], EntryOf(t, who, key))
  {
    hide ConfigPrincipal;
  }

  lemma Forget(t: Codec, cs: seq<Cred>, dict: Dictionary, who: Who, key: string) returns (kept: seq<Cred>)
    requires Represents(t, cs, dict)
    ensures var r := WithoutFirst(cs, {}, ConfigRequest(t, who, key));
            kept == (if r.Ok? then r.value else cs) && Represents(t, kept, dict - {EntryOf(t, who, key)})
  {
    hide Represents, WithoutFirst, Matches, ConfigRequest, EntryOf;
    var req, k := ConfigRequest(t, who, key), EntryOf(t, who, key);
    var i := WithoutFirstMeans(cs, {}, req);
    var r := WithoutFirst(cs, {}, req);
    if r.Ok? {
      kept := r.value;
      RequestMatches(t, cs, dict, who, key, i);
      DropEntry(t, cs, dict, i, k);
    } else {
      kept := cs;
      forall j | 0 <= j < |cs| ensures !IsEntry(cs[j], k) { RequestMatches(t, cs, dict, who, key, j); }
      NotThere(t, cs, dict, k);
    }
  }

  lemma NotThere(t: Codec, cs: seq<Cred>, dict: Dictionary, k: Entry)
    requires Represents(t, cs, dict) && forall j | 0 <= j < |cs| :: !IsEntry(cs[j], k)
    ensures k !in dict && dict - {k} == dict
  {
  }

  lemma EntryGeneral(t: Codec, who: Who, key: string)
    requires t.Lawful()
    ensures forall x | x in EntryOf(t, who, key) :: t.general(x)
  {
    hide Unparse;
    assert Ascii("") && t.encode("") == [];
    assert t.general([]);
  }

  /** One operation keeps the credentials representing what they should. */
  lemma StepRepresents(t: Codec, mem: Memory, dict: Dictionary, op: Op)
    requires t.Lawful() && Respects(op)
    requires op.Initialize? || (mem.principal.Some? && Represents(t, mem.creds, dict))
    ensures var mem2 := MemStep(t, mem, op).0;
            mem2.principal.Some? && Represents(t, mem2.creds, DictStep(t, dict, op))
  {
    hide Represents, WithoutFirst, Codec.Lawful, ConfigPrincipal, ConfigRequest;
    match op
    case Initialize(_, _, _) => assert Represents(t, [], map[]) by { NothingRepresents(t); }
    case StoreOp(c) => AddOther(t, mem.creds, dict, c);
    case RemoveOp(flags, m) =>
      var i := WithoutFirstMeans(mem.creds, flags, m);
      if WithoutFirst(mem.creds, flags, m).Ok? { DropOther(t, mem.creds, dict, i); }
    case SetConfig(who, key, data) =>
      var kept := Forget(t, mem.creds, dict, who, key);
      if data.Some? {
        var k := EntryOf(t, who, key);
        var (client, realm) := mem.principal.value;
        EntryGeneral(t, who, key);
        AddEntry(t, kept, dict - {k}, ConfigCred(t, client, realm, who, key, data.value), k);
        assert (dict - {k})[k := data.value] == dict[k := data.value];
      }
  }

  lemma NothingRepresents(t: Codec)
    ensures Represents(t, [], map[])
  {
  }

  lemma {:induction false} RunRepresents(t: Codec, mem: Memory, dict: Dictionary, ops: seq<Op>)
    requires t.Lawful() && forall op | op in ops :: Respects(op)
    requires (ops != [] && ops[0].Initialize?) || (mem.principal.Some? && Represents(t, mem.creds, dict))
    ensures var end := MemRun(t, mem, ops).0;
            end.principal.Some? && Represents(t, end.creds, DictRun(t, dict, ops))
    decreases |ops|
  {
    hide Represents, MemStep, DictStep, Codec.Lawful, Respects;
    if ops != [] {
      StepRepresents(t, mem, dict, ops[0]);
      RunRepresents(t, MemStep(t, mem, ops[0]).0, DictStep(t, dict, ops[0]), ops[1..]);
    }
  }

  // ----- reading an entry -----

  lemma {:induction false} GetInMeans(t: Codec, cs: seq<Cred>, who: Who, key: string)
    ensures var r := GetIn(t, cs, who, key);
            if r.Some? then exists i | 0 <= i < |cs| :: ConfigMatches(t, cs[i], who, key) && cs[i].ticket == r.value
            else forall i | 0 <= i < |cs| :: !ConfigMatches(t, cs[i], who, key)
    decreases |cs|
  {
    hide ConfigMatches;
    if cs != [] {
      GetInMeans(t, cs[1..], who, key);
      if ConfigMatches(t, cs[0], who, key) {
      } else if GetIn(t, cs[1..], who, key).Some? {
        var i :| 0 <= i < |cs[1..]| && ConfigMatches(t, cs[1..][i], who, key) && cs[1..][i].ticket == GetIn(t, cs[1..], who, key).value;
        assert cs[1..][i] == cs[i + 1];
      } else {
        forall i | 0 <= i < |cs| ensures !ConfigMatches(t, cs[i], who, key) {
          if i > 0 { assert cs[i] == cs[1..][i - 1]; }
        }
      }
    }
  }

  /** `get_config` looks for the entry that `set_config` writes, when it can be written. */
  lemma MatchesEntry(t: Codec, c: Cred, who: Who, key: string)
    requires t.Lawful() && (forall x | x in c.server.comps :: t.general(x))
    ensures ConfigMatches(t, c, who, key) <==> Settable(t, who, key) && IsEntry(c, EntryOf(t, who, key))
  {
    hide Unparse, Codec.Lawful;
    AsciiConfig();
    AsciiLength(t, CONFIG_PRINC);
    if ConfigMatches(t, c, who, key) {
      assert c.server.comps[1] in c.server.comps;
      if who.Some? {
        assert c.server.comps[2] in c.server.comps;
        assert c.server.comps == EntryOf(t, who, key);
      } else {
        assert c.server.comps == EntryOf(t, who, key);
      }
    }
  }

  lemma GetReads(t: Codec, cs: seq<Cred>, dict: Dictionary, who: Who, key: string)
    requires t.Lawful() && Represents(t, cs, dict)
    ensures GetIn(t, cs, who, key)
            == if Settable(t, who, key) && EntryOf(t, who, key) in dict then Some(dict[EntryOf(t, who, key)]) else None
  {
    hide Codec.Lawful, ConfigMatches, GetIn, Settable, EntryOf;
    var k := EntryOf(t, who, key);
    GetInMeans(t, cs, who, key);
    forall i | 0 <= i < |cs| ensures ConfigMatches(t, cs[i], who, key) <==> Settable(t, who, key) && IsEntry(cs[i], k) {
      if cs[i].srealm == CONFIG_REALM {
        assert cs[i].server.comps in dict;
        MatchesEntry(t, cs[i], who, key);
      } else {
        NoConfig(t, cs[i], who, key);
      }
    }
    var r := GetIn(t, cs, who, key);
    if r.Some? {
      var i :| 0 <= i < |cs| && ConfigMatches(t, cs[i], who, key) && cs[i].ticket == r.value;
      assert IsEntry(cs[i], k);
    }
  }

  lemma NoConfig(t: Codec, c: Cred, who: Who, key: string)
    requires c.srealm != CONFIG_REALM
    ensures !ConfigMatches(t, c, who, key)
  {
  }

  /**
   * After every run that leaves configuration to `set_config`, `get_config` reads the dictionary the
   * run wrote; a key or principal the component type cannot hold is never found.
   */
  lemma ConfigIsDictionary(t: Codec, mem: Memory, ops: seq<Op>, who: Who, key: string)
    requires t.Lawful() && ops != [] && ops[0].Initialize? && forall op | op in ops :: Respects(op)
    ensures var dict := DictRun(t, map[], ops);
            GetIn(t, MemRun(t, mem, ops).0.creds, who, key)
            == if Settable(t, who, key) && EntryOf(t, who, key) in dict then Some(dict[EntryOf(t, who, key)]) else None
  {
    hide Codec.Lawful, MemRun, DictRun, Respects, Represents, Settable, EntryOf, GetIn;
    RunRepresents(t, mem, map[], ops);
    GetReads(t, MemRun(t, mem, ops).0.creds, DictRun(t, map[], ops), who, key);
  }

  lemma {:induction false} DictRunConcat(t: Codec, dict: Dictionary, ops: seq<Op>, op: Op)
    ensures DictRun(t, dict, ops + [op]) == DictStep(t, DictRun(t, dict, ops), op)
    decreases |ops|
  {
    hide DictStep;
    if ops == [] {
      assert ops + [op] == [op];
      assert [op][1..] == [];
    } else {
      assert (ops + [op])[0] == ops[0] && (ops + [op])[1..] == ops[1..] + [op];
      DictRunConcat(t, DictStep(t, dict, ops[0]), ops[1..], op);
    }
  }

  /** A value set is read back exactly when its key and principal can be held. */
  lemma SetThenGet(t: Codec, mem: Memory, ops: seq<Op>, who: Who, key: string, data: seq<byte>)
    requires t.Lawful() && ops != [] && ops[0].Initialize? && forall op | op in ops :: Respects(op)
    ensures GetIn(t, MemRun(t, mem, ops + [SetConfig(who, key, Some(data))]).0.creds, who, key) == Some(data)
            <==> Settable(t, who, key)
  {
    hide Codec.Lawful, MemRun, DictRun, Settable, EntryOf, GetIn;
    var op := SetConfig(who, key, Some(data));
    ConfigIsDictionary(t, mem, ops + [op], who, key);
    DictRunConcat(t, map[], ops, op);
  }

  /** Two entries that can be held, for nameable principals, are one entry only if key, name and realm agree. */
  lemma EntriesDistinct(t: Codec, who: Who, key: string, whose: Who, other: string)
    requires t.Lawful() && Settable(t, who, key) && Settable(t, whose, other)
    requires (who.Some? ==> Nameable(t, who.value.0)) && (whose.Some? ==> Nameable(t, whose.value.0))
    ensures EntryOf(t, who, key) == EntryOf(t, whose, other)
            ==> key == other && who.Some? == whose.Some?
                && (who.Some? ==> who.value.0.comps == whose.value.0.comps && who.value.1 == whose.value.1)
  {
    hide Unparse, Nameable, Parse;
    var a, b := EntryOf(t, who, key), EntryOf(t, whose, other);
    if a == b {
      assert a[1] == t.encode(key) && b[1] == t.encode(other);
      assert t.decode(t.encode(key)) == Some(key) && t.decode(t.encode(other)) == Some(other);
      assert |a| == |b|;
      if who.Some? {
        var u, v := Unparse(t, who.value.0, who.value.1), Unparse(t, whose.value.0, whose.value.1);
        assert a[2] == t.encode(u) && b[2] == t.encode(v);
        assert t.decode(t.encode(u)) == Some(u) && t.decode(t.encode(v)) == Some(v);
        UnparseInjective(t, who.value.0, who.value.1, whose.value.0, whose.value.1);
      }
    }
  }

  /**
   * The same of a FILE cache of any version: after every suitable run, `get_config` over the live
   * credentials of the file reads the dictionary the run wrote.
   */
  lemma FileConfigIsDictionary(h: Host, version: byte, d: seq<byte>, ops: seq<Op>, who: Who, key: string)
    requires h.text.Lawful() && ops != [] && ops[0].Initialize?
    requires forall op | op in ops :: Respects(op) && Suitable(h, version, op)
    ensures var dict, cs := DictRun(h.text, map[], ops), Creds(h, FileRun(h, version, d, ops).0);
            && cs.Ok?
            && GetIn(h.text, cs.value, who, key)
               == if Settable(h.text, who, key) && EntryOf(h.text, who, key) in dict then Some(dict[EntryOf(h.text, who, key)]) else None
  {
    hide Codec.Lawful, MemRun, FileRun, DictRun, Respects, Suitable, Settable, EntryOf, GetIn, Creds, ReadAll;
    var mem := Memory(None, []);
    FileRefinesMemory(h, version, d, mem, ops);
    ConfigIsDictionary(h.text, mem, ops, who, key);
  }
}
