/** The FILE keytab as bytes: sized slots, some of them holes, holding entries. */
module Keytab {
  import opened Bytes
  import opened CcMarshal
  import opened Text
  import opened Wrappers

  datatype Entry = Entry(principal: Principal, realm: string, timestamp: nat, kvno: nat, keytype: int, key: seq<byte>)

  /** `Abort` is the out-of-range slice that stops the program. */
  datatype KtError = Format | End | NotFound | KvnoNotFound | Io | Abort

  /** Version 1 is in host order; version 2 is big-endian. */
  function FormatFor(v1: bool, hostBigEndian: bool, text: Codec): CcMarshal.Format {
    CcMarshal.Format(if v1 then 1 else 2, !v1 || hostBigEndian, text)
  }

  // ----- entries -----

  function PutShort(f: CcMarshal.Format, b: seq<byte>): seq<byte> { PutI16(f, |b|) + b }

  function PutComps(f: CcMarshal.Format, cs: seq<seq<byte>>): seq<byte> {
    if cs == [] then [] else PutShort(f, cs[0]) + PutComps(f, cs[1..])
  }

  function PutKey(f: CcMarshal.Format, e: Entry): seq<byte> {
    [e.kvno % 256] + (PutI16(f, e.keytype) + (PutShort(f, e.key) + PutI32(f, e.kvno)))
  }

  function PutNumbers(f: CcMarshal.Format, e: Entry): seq<byte> {
    PutI32(f, e.principal.nameType) + PutI32(f, e.timestamp)
  }

  /** `entry_body`. */
  function Body(f: CcMarshal.Format, e: Entry): seq<byte> {
    PutI16(f, |e.principal.comps|) + (PutShort(f, f.text.encode(e.realm)) +
    (PutComps(f, e.principal.comps) + (PutNumbers(f, e) + PutKey(f, e))))
  }

  type Parsed<+T> = Result<(T, nat), KtError>

  /** A length and that many bytes; a length of zero or less is the end mark. */
  function ParseShort(f: CcMarshal.Format, d: seq<byte>, pos: nat): Parsed<seq<byte>> {
    var n := GetI16(f, d, pos);
    if n.Bad? then Err(KtError.Format)
    else if n.value <= 0 then Err(End) else
    var b := Take(d, n.pos, n.value);
    if b.Bad? then Err(KtError.Format) else Ok((b.value, b.pos))
  }

  function ParseComps(f: CcMarshal.Format, d: seq<byte>, pos: nat, n: nat): Parsed<seq<seq<byte>>>
    decreases n
  {
    if n == 0 then Ok(([], pos)) else
    var c := ParseShort(f, d, pos);
    if c.Err? then Err(c.error)
    else if !f.text.general(c.value.0) then Err(KtError.Format) else
    var rest := ParseComps(f, d, c.value.1, n - 1);
    if rest.Err? then rest else Ok(([c.value.0] + rest.value.0, rest.value.1))
  }

  /** The name type, absent in version 1, and the timestamp. */
  function ParseNumbers(f: CcMarshal.Format, d: seq<byte>, pos: nat): Parsed<(int, nat)> {
    var t := if f.version == 1 then Got(0, pos) else GetI32(f, d, pos);
    if t.Bad? then Err(KtError.Format) else
    var ts := GetU32(f, d, t.pos);
    if ts.Bad? then Err(KtError.Format) else Ok(((t.value, ts.value), ts.pos))
  }

  /** Key version, enctype and key; a nonzero 32-bit version behind the key replaces the 8-bit one. */
  function ParseKey(f: CcMarshal.Format, d: seq<byte>, pos: nat): Result<(nat, int, seq<byte>), KtError> {
    var v := Take(d, pos, 1);
    if v.Bad? then Err(KtError.Format) else
    var ty := GetI16(f, d, v.pos);
    if ty.Bad? then Err(KtError.Format) else
    var key := ParseShort(f, d, ty.pos);
    if key.Err? then Err(key.error) else
    var v32 := GetU32(f, d, key.value.1);
    Ok((if v32.Got? && v32.value != 0 then v32.value else v.value[0], ty.value, key.value.0))
  }

  /** The count of components: version 1 counts the realm too, in 16-bit arithmetic. */
  function Count(f: CcMarshal.Format, n: int): int {
    if f.version != 1 then n else if n == -0x8000 then 0x7fff else n - 1
  }

  /** `parse_entry`. */
  function ParseEntry(f: CcMarshal.Format, d: seq<byte>): Result<Entry, KtError> {
    var n := GetI16(f, d, 0);
    if n.Bad? then Err(KtError.Format)
    else if Count(f, n.value) <= 0 then Err(End) else
    var realm := ParseShort(f, d, 2);
    if realm.Err? then Err(realm.error) else
    var comps := ParseComps(f, d, realm.value.1, Count(f, n.value));
    if comps.Err? then Err(comps.error) else
    var nums := ParseNumbers(f, d, comps.value.1);
    if nums.Err? then Err(nums.error) else
    var key := ParseKey(f, d, nums.value.1);
    if key.Err? then Err(key.error) else
    Ok(Entry(Principal(nums.value.0.0, comps.value.0), f.text.lossy(realm.value.0), nums.value.0.1,
             key.value.0, key.value.1, key.value.2))
  }

  // ----- which entries can be read back -----

  const TWO15 := 0x8000

  /** Values of the source's types, with lengths the 16-bit fields can carry. */
  ghost predicate InRange(f: CcMarshal.Format, e: Entry) {
    && |e.principal.comps| < TWO15 && |f.text.encode(e.realm)| < TWO15 && |e.key| < TWO15
    && CompsFit(f, e.principal.comps)
    && FitsSigned(e.principal.nameType, 4) && e.timestamp < TWO32 && e.kvno < TWO32
  }

  ghost predicate CompsFit(f: CcMarshal.Format, cs: seq<seq<byte>>) {
    forall i | 0 <= i < |cs| :: |cs[i]| < TWO15 && f.text.general(cs[i])
  }

  /** Nothing about the entry is empty. */
  predicate Visible(f: CcMarshal.Format, e: Entry) {
    && e.principal.comps != [] && f.text.encode(e.realm) != [] && e.key != []
    && NoneEmpty(e.principal.comps)
  }

  predicate NoneEmpty(cs: seq<seq<byte>>) { forall i | 0 <= i < |cs| :: cs[i] != [] }

  lemma ShortCount(n: nat)
    requires n < TWO15
    ensures Short(n) == n
  {
    PowFacts();
    SignedUnsigned(n, 2);
  }

  lemma ShortReads(f: CcMarshal.Format, d: seq<byte>, pos: nat, b: seq<byte>)
    requires |b| < TWO15 && Holds(d, pos, PutShort(f, b))
    ensures ParseShort(f, d, pos) == if b == [] then Err(End) else Ok((b, pos + |PutShort(f, b)|))
    ensures |PutShort(f, b)| == 2 + |b|
  {
    hide GetI16, Short;
    I16Length(f, |b|);
    HoldsBoth(d, pos, PutI16(f, |b|), b);
    I16Reads(f, d, pos, |b|);
    ShortCount(|b|);
  }

  lemma NothingEmpty()
    ensures NoneEmpty([])
  {
  }

  lemma NoneEmptyCons(cs: seq<seq<byte>>)
    requires cs != []
    ensures NoneEmpty(cs) <==> cs[0] != [] && NoneEmpty(cs[1..])
  {
    assert forall i | 1 <= i < |cs| :: cs[i] == cs[1..][i - 1];
  }

  lemma {:induction false} CompsParse(f: CcMarshal.Format, d: seq<byte>, pos: nat, cs: seq<seq<byte>>)
    requires CompsFit(f, cs) && Holds(d, pos, PutComps(f, cs))
    ensures ParseComps(f, d, pos, |cs|)
            == if NoneEmpty(cs) then Ok((cs, pos + |PutComps(f, cs)|)) else Err(End)
    decreases |cs|
  {
    hide PutShort, ParseShort, Holds, NoneEmpty;
    if cs == [] {
      assert NoneEmpty(cs) by { NothingEmpty(); }
    } else {
      HoldsBoth(d, pos, PutShort(f, cs[0]), PutComps(f, cs[1..]));
      ShortReads(f, d, pos, cs[0]);
      CompsParse(f, d, pos + |PutShort(f, cs[0])|, cs[1..]);
      assert cs == [cs[0]] + cs[1..];
      NoneEmptyCons(cs);
    }
  }

  lemma NumbersParse(f: CcMarshal.Format, d: seq<byte>, pos: nat, e: Entry)
    requires f.version != 1 && InRange(f, e) && Holds(d, pos, PutNumbers(f, e))
    ensures ParseNumbers(f, d, pos) == Ok(((e.principal.nameType, e.timestamp), pos + |PutNumbers(f, e)|))
  {
    hide PutI32, GetI32, GetU32;
    HoldsBoth(d, pos, PutI32(f, e.principal.nameType), PutI32(f, e.timestamp));
    I32Reads(f, d, pos, e.principal.nameType);
    U32Reads(f, d, pos + 4, e.timestamp);
  }

  lemma KeyParse(f: CcMarshal.Format, d: seq<byte>, pos: nat, e: Entry)
    requires InRange(f, e) && Holds(d, pos, PutKey(f, e))
    ensures ParseKey(f, d, pos) == if e.key == [] then Err(End) else Ok((e.kvno, Short(e.keytype), e.key))
  {
    hide PutI32, PutI16, GetI16, GetU32, PutShort, ParseShort, Short;
    var v: seq<byte>, ty, k, w := [e.kvno % 256], PutI16(f, e.keytype), PutShort(f, e.key), PutI32(f, e.kvno);
    I16Length(f, e.keytype);
    HoldsBoth(d, pos, v, ty + (k + w));
    HoldsBoth(d, pos + 1, ty, k + w);
    HoldsBoth(d, pos + 3, k, w);
    I16Reads(f, d, pos + 1, e.keytype);
    ShortReads(f, d, pos + 3, e.key);
    U32Reads(f, d, pos + 3 + |k|, e.kvno);
  }

  /** An entry read back: the key type is cut to 16 bits. */
  function ReadBack(e: Entry): Entry { e.(keytype := Short(e.keytype)) }

  /** A written entry reads back, whatever pads the slot, exactly when nothing of it is empty; otherwise it ends the keytab. */
  lemma BodyReads(f: CcMarshal.Format, e: Entry, pad: seq<byte>)
    requires f.version != 1 && f.text.Lawful() && InRange(f, e)
    ensures ParseEntry(f, Body(f, e) + pad) == if Visible(f, e) then Ok(ReadBack(e)) else Err(End)
  {
    hide PutI16, GetI16, PutShort, ParseShort, PutComps, ParseComps, PutNumbers, ParseNumbers, PutKey, ParseKey,
         Codec.Lawful, Short, Holds;
    var n, r, c, u, k := PutI16(f, |e.principal.comps|), PutShort(f, f.text.encode(e.realm)),
      PutComps(f, e.principal.comps), PutNumbers(f, e), PutKey(f, e);
    var d := Body(f, e) + pad;
    assert Holds(d, 0, Body(f, e)) by { HoldsPrefix(Body(f, e), pad); }
    I16Length(f, |e.principal.comps|);
    HoldsBoth(d, 0, n, r + (c + (u + k)));
    HoldsBoth(d, 2, r, c + (u + k));
    HoldsBoth(d, 2 + |r|, c, u + k);
    HoldsBoth(d, 2 + |r| + |c|, u, k);
    I16Reads(f, d, 0, |e.principal.comps|);
    ShortCount(|e.principal.comps|);
    ShortReads(f, d, 2, f.text.encode(e.realm));
    CompsParse(f, d, 2 + |r|, e.principal.comps);
    NumbersParse(f, d, 2 + |r| + |c|, e);
    KeyParse(f, d, 2 + |r| + |c| + |u|, e);
    LossyEncode(f.text, e.realm);
  }

  // ----- slots -----

  /** A record's room: a hole, or an entry's bytes. */
  datatype Slot = Slot(hole: bool, body: seq<byte>)

  ghost predicate FitsSlot(s: Slot) { 0 < |s.body| < TWO31 }

  function PutSlot(f: CcMarshal.Format, s: Slot): seq<byte> {
    PutI32(f, if s.hole then -|s.body| else |s.body|) + s.body
  }

  function PutSlots(f: CcMarshal.Format, ss: seq<Slot>): seq<byte> {
    if ss == [] then [] else PutSlot(f, ss[0]) + PutSlots(f, ss[1..])
  }

  const MIN32 := -0x8000_0000

  datatype Record = Record(off: nat, size: nat, entry: Option<Entry>)

  /** The loop of `records` from `pos`. */
  function RecordsFrom(f: CcMarshal.Format, d: seq<byte>, pos: nat): (r: Result<seq<Record>, KtError>)
    ensures r.Ok? ==> forall x | x in r.value :: x.off + 4 + x.size <= |d| && 0 < x.size < TWO31
    decreases |d| - pos
  {
    var size := GetI32(f, d, pos);
    if size.Bad? then Ok([])
    else if size.value == MIN32 then Err(KtError.Format)
    else if size.value == 0 then Ok([]) else
    var n := if size.value < 0 then -size.value else size.value;
    if pos + 4 + n > |d| then Err(KtError.Format) else
    var e := if size.value < 0 then Ok(None) else Wrap(ParseEntry(f, d[pos + 4..pos + 4 + n]));
    if e.Err? then (if e.error == End then Ok([]) else Err(e.error)) else
    var rest := RecordsFrom(f, d, pos + 4 + n);
    I32Bound(f, d, pos);
    if rest.Err? then rest else Ok([Record(pos, n, e.value)] + rest.value)
  }

  function Wrap<T, E>(r: Result<T, E>): Result<Option<T>, E> { if r.Ok? then Ok(Some(r.value)) else Err(r.error) }

  lemma I32Bound(f: CcMarshal.Format, d: seq<byte>, pos: nat)
    ensures var v := GetI32(f, d, pos); v.Got? ==> MIN32 <= v.value < TWO31
  {
    hide FromWord;
    if pos + 4 <= |d| {
      WordBound(d[pos..pos + 4], f.be);
      PowFacts();
    }
  }

  /** `records`, of a file's contents. */
  function Records(d: seq<byte>, hostBigEndian: bool, text: Codec): (r: Result<seq<Record>, KtError>)
    ensures r.Ok? ==> forall x | x in r.value :: x.off + 4 + x.size <= |d| && 0 < x.size < TWO31
  {
    if |d| < 2 || d[0] != 5 || !(1 <= d[1] <= 2) then Err(KtError.Format)
    else RecordsFrom(FormatFor(d[1] == 1, hostBigEndian, text), d, 2)
  }

  function EntriesIn(rs: seq<Record>): seq<Entry> {
    if rs == [] then [] else (if rs[0].entry.Some? then [rs[0].entry.value] else []) + EntriesIn(rs[1..])
  }

  /** `entries`. */
  function Entries(d: seq<byte>, hostBigEndian: bool, text: Codec): Result<seq<Entry>, KtError> {
    var rs := Records(d, hostBigEndian, text);
    if rs.Err? then Err(rs.error) else Ok(EntriesIn(rs.value))
  }

  function Zeros(n: nat): (r: seq<byte>)
    ensures |r| == n
  {
    seq(n, i => 0)
  }

  function AppendAt(f: CcMarshal.Format, d: seq<byte>, pos: nat, body: seq<byte>): seq<byte> {
    var rec := PutI32(f, |body|) + body;
    if pos + 4 <= |d| then d[..pos] + rec + d[pos + 4..] else d + rec
  }

  /** The search of `add_entry` for a slot, from `pos`. */
  function AddFrom(f: CcMarshal.Format, d: seq<byte>, pos: nat, body: seq<byte>): Result<seq<byte>, KtError>
    decreases |d| - pos
  {
    var size := GetI32(f, d, pos);
    if size.Bad? || size.value == 0 then Ok(AppendAt(f, d, pos, body))
    else if size.value == MIN32 then Err(KtError.Format)
    else if size.value < 0 && -size.value >= |body| then
      var hole := -size.value;
      if pos + 4 + hole > |d| then Err(Abort)
      else Ok(d[..pos] + (PutI32(f, hole) + (body + Zeros(hole - |body|))) + d[pos + 4 + hole..])
    else AddFrom(f, d, pos + 4 + (if size.value < 0 then -size.value else size.value), body)
  }

  function V2(text: Codec): CcMarshal.Format { FormatFor(false, true, text) }

  /** Only version 2 files are written. */
  predicate Writable(d: seq<byte>) { |d| >= 2 && !(d[0] == 5 && d[1] == 1) }

  /** `add_entry`: the new contents. */
  function Add(d: seq<byte>, text: Codec, e: Entry): Result<seq<byte>, KtError> {
    if !Writable(d) then Err(KtError.Format) else AddFrom(V2(text), d, 2, Body(V2(text), e))
  }

  /** Name type and key are not compared. */
  predicate SameKey(x: Entry, e: Entry) {
    x.principal.comps == e.principal.comps && x.realm == e.realm && x.kvno == e.kvno && x.keytype == e.keytype
  }

  function FirstSame(rs: seq<Record>, e: Entry): (r: Option<nat>)
    ensures r.Some? ==> r.value < |rs| && rs[r.value].entry.Some? && SameKey(rs[r.value].entry.value, e)
    ensures r.Some? ==> forall i | 0 <= i < r.value :: !(rs[i].entry.Some? && SameKey(rs[i].entry.value, e))
    ensures r.None? ==> forall i | 0 <= i < |rs| :: !(rs[i].entry.Some? && SameKey(rs[i].entry.value, e))
  {
    if rs == [] then None
    else if rs[0].entry.Some? && SameKey(rs[0].entry.value, e) then Some(0)
    else
      var rest := FirstSame(rs[1..], e);
      if rest.None? then None else Some(1 + rest.value)
  }

  /** `remove_entry`: the new contents. */
  function Remove(d: seq<byte>, hostBigEndian: bool, text: Codec, e: Entry): Result<seq<byte>, KtError> {
    if !Writable(d) then Err(KtError.Format) else
    var rs := Records(d, hostBigEndian, text);
    if rs.Err? then Err(rs.error) else
    var i := FirstSame(rs.value, e);
    if i.None? then Err(NotFound) else
    var x := rs.value[i.value];
    Ok(d[..x.off] + (PutI32(V2(text), -(x.size as int)) + Zeros(x.size)) + d[x.off + 4 + x.size..])
  }
}
