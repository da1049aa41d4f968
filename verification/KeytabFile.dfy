/** The FILE keytab as an object, and looking an entry up. */
module KeytabFile {
  import opened Bytes
  import opened CcMarshal
  import opened Keytab
  import opened KeytabSlots
  import opened Text
  import opened Wrappers

  method PutName(f: CcMarshal.Format, start: seq<byte>, cs: seq<seq<byte>>) returns (b: seq<byte>)
    ensures b == start + PutComps(f, cs)
  {
    hide PutI16;
    b := start;
    for i := 0 to |cs|
      invariant b + PutComps(f, cs[i..]) == start + PutComps(f, cs)
    {
      assert cs[i..][0] == cs[i] && cs[i..][1..] == cs[i + 1..];
      b := b + PutI16(f, |cs[i]|);
      b := b + cs[i];
    }
  }

  method PutKeyPart(f: CcMarshal.Format, start: seq<byte>, e: Entry) returns (b: seq<byte>)
    ensures b == start + PutKey(f, e)
  {
    hide PutI16, PutI32;
    b := start + [e.kvno % 256];
    b := b + PutI16(f, e.keytype);
    b := b + PutI16(f, |e.key|);
    b := b + e.key;
    b := b + PutI32(f, e.kvno);
  }

  method EntryBody(f: CcMarshal.Format, e: Entry) returns (b: seq<byte>)
    ensures b == Body(f, e)
  {
    hide PutI16, PutI32, PutComps, PutKey;
    b := PutI16(f, |e.principal.comps|);
    b := b + PutI16(f, |f.text.encode(e.realm)|);
    b := b + f.text.encode(e.realm);
    b := PutName(f, b, e.principal.comps);
    b := b + PutI32(f, e.principal.nameType);
    b := b + PutI32(f, e.timestamp);
    b := PutKeyPart(f, b, e);
  }

  ghost function Prepend<T>(xs: seq<T>, r: Parsed<seq<T>>): Parsed<seq<T>> {
    if r.Err? then r else Ok((xs + r.value.0, r.value.1))
  }

  lemma PrependNone<T>(r: Parsed<seq<T>>)
    ensures Prepend([], r) == r
  {
    if r.Ok? { assert [] + r.value.0 == r.value.0; }
  }

  lemma PrependCons<T>(xs: seq<T>, x: T, r: Parsed<seq<T>>)
    ensures Prepend(xs, Prepend([x], r)) == Prepend(xs + [x], r)
  {
    if r.Ok? { assert xs + ([x] + r.value.0) == xs + [x] + r.value.0; }
  }

  /** `parse_entry`, with its loop over the components. */
  method ReadEntry(f: CcMarshal.Format, d: seq<byte>) returns (r: Result<Entry, KtError>)
    ensures r == ParseEntry(f, d)
  {
    hide GetI16, ParseShort, ParseNumbers, ParseKey;
    var n := GetI16(f, d, 0);
    if n.Bad? { return Err(KtError.Format); }
    var count := Count(f, n.value);
    if count <= 0 { return Err(End); }
    var realm := ParseShort(f, d, 2);
    if realm.Err? { return Err(realm.error); }
    var comps: seq<seq<byte>>, pos := [], realm.value.1;
    ghost var start := pos;
    PrependNone(ParseComps(f, d, start, count));
    for i := 0 to count
      invariant ParseComps(f, d, start, count) == Prepend(comps, ParseComps(f, d, pos, count - i))
    {
      var c := ParseShort(f, d, pos);
      if c.Err? { return Err(c.error); }
      if !f.text.general(c.value.0) { return Err(KtError.Format); }
      PrependCons(comps, c.value.0, ParseComps(f, d, c.value.1, count - i - 1));
      comps, pos := comps + [c.value.0], c.value.1;
    }
    assert comps + [] == comps;
    var nums := ParseNumbers(f, d, pos);
    if nums.Err? { return Err(nums.error); }
    var key := ParseKey(f, d, nums.value.1);
    if key.Err? { return Err(key.error); }
    r := Ok(Entry(Principal(nums.value.0.0, comps), f.text.lossy(realm.value.0), nums.value.0.1,
                  key.value.0, key.value.1, key.value.2));
  }

  /** The loop of `records`. */
  method ScanRecords(f: CcMarshal.Format, d: seq<byte>) returns (r: Result<seq<Record>, KtError>)
    requires |d| >= 2
    ensures r == RecordsFrom(f, d, 2)
  {
    hide GetI32, ParseEntry;
    var out: seq<Record>, pos := [], 2;
    ghost var all := RecordsFrom(f, d, 2);
    assert all.Ok? ==> [] + all.value == all.value;
    while pos + 4 <= |d|
      invariant pos <= |d|
      invariant var rest := RecordsFrom(f, d, pos); all == if rest.Err? then rest else Ok(out + rest.value)
      decreases |d| - pos
    {
      ghost var here := RecordsFrom(f, d, pos);
      assert out + [] == out;
      var raw := GetI32(f, d, pos);
      if raw.Bad? { break; }
      var size := raw.value;
      if size == MIN32 { return Err(KtError.Format); }
      if size == 0 { break; }
      var hole := size < 0;
      if hole { size := -size; }
      if pos + 4 + size > |d| { return Err(KtError.Format); }
      var entry := None;
      if !hole {
        var e := ReadEntry(f, d[pos + 4..pos + 4 + size]);
        if e.Err? {
          if e.error == End { break; }
          return Err(e.error);
        }
        entry := Some(e.value);
      }
      var rec := Record(pos, size, entry);
      ghost var rest := RecordsFrom(f, d, pos + 4 + size);
      assert here == if rest.Err? then rest else Ok([rec] + rest.value);
      assert rest.Ok? ==> out + ([rec] + rest.value) == out + [rec] + rest.value;
      out := out + [rec];
      pos := pos + 4 + size;
    }
    assert out + [] == out;
    r := Ok(out);
  }

  /** The slot search of `add_entry`. */
  method PutEntry(f: CcMarshal.Format, d: seq<byte>, body: seq<byte>) returns (r: Result<seq<byte>, KtError>)
    requires |d| >= 2
    ensures r == AddFrom(f, d, 2, body)
  {
    hide GetI32, PutI32;
    var pos := 2;
    while pos + 4 <= |d|
      invariant AddFrom(f, d, 2, body) == AddFrom(f, d, pos, body)
      decreases |d| - pos
    {
      var raw := GetI32(f, d, pos);
      if raw.Bad? { break; }
      var size := raw.value;
      if size == MIN32 { return Err(KtError.Format); }
      if size < 0 {
        var hole := -size;
        if hole >= |body| {
          if pos + 4 + hole > |d| { return Err(Abort); }
          return Ok(d[..pos] + (PutI32(f, hole) + (body + Zeros(hole - |body|))) + d[pos + 4 + hole..]);
        }
      } else if size == 0 {
        break;
      }
      pos := pos + 4 + if size < 0 then -size else size;
    }
    assert GetI32(f, d, pos).Bad? || GetI32(f, d, pos).value == 0 by { ReadsOrEnds(f, d, pos); }
    var rec := PutI32(f, |body|) + body;
    if pos + 4 <= |d| {
      return Ok(d[..pos] + rec + d[pos + 4..]);
    }
    r := Ok(d + rec);
  }

  lemma ReadsOrEnds(f: CcMarshal.Format, d: seq<byte>, pos: nat)
    ensures GetI32(f, d, pos).Bad? <==> pos + 4 > |d|
  {
  }

  class FileKeytab {
    const hostBigEndian: bool
    const text: Codec
    /** The file at the keytab's path; `None` when there is none. */
    var file: Option<seq<byte>>

    constructor (hostBigEndian: bool, text: Codec, file: Option<seq<byte>>)
      ensures this.hostBigEndian == hostBigEndian && this.text == text && this.file == file
    {
      this.hostBigEndian, this.text, this.file := hostBigEndian, text, file;
    }

    method ReadRecords() returns (r: Result<seq<Record>, KtError>)
      ensures r == if file.None? then Ok([]) else Records(file.value, hostBigEndian, text)
    {
      hide RecordsFrom;
      if file.None? { return Ok([]); }
      var d := file.value;
      if |d| < 2 { return Err(KtError.Format); }
      if d[0] != 5 || !(1 <= d[1] <= 2) { return Err(KtError.Format); }
      r := ScanRecords(FormatFor(d[1] == 1, hostBigEndian, text), d);
    }

    /** `entries`: the records that are no holes. */
    method ListEntries() returns (r: Result<seq<Entry>, KtError>)
      ensures r == if file.None? then Ok([]) else Entries(file.value, hostBigEndian, text)
    {
      hide Records;
      var rs := ReadRecords();
      if rs.Err? { return Err(rs.error); }
      assert EntriesIn([]) == [];
      var out: seq<Entry> := [];
      for i := 0 to |rs.value|
        invariant out + EntriesIn(rs.value[i..]) == EntriesIn(rs.value)
      {
        assert rs.value[i..][0] == rs.value[i] && rs.value[i..][1..] == rs.value[i + 1..];
        if rs.value[i].entry.Some? { out := out + [rs.value[i].entry.value]; }
      }
      assert out == EntriesIn(rs.value);
      r := Ok(out);
    }

    /** A missing file is created first. */
    method AddEntry(e: Entry) returns (r: Result<(), KtError>)
      modifies this
      ensures var d := if old(file).None? then MAGIC() else old(file).value;
              var a := Add(d, text, e);
              if a.Ok? then r == Ok(()) && file == Some(a.value) else r == Err(a.error) && file == Some(d)
    {
      hide Body, AddFrom;
      if file.Some? && !Writable(file.value) { return Err(KtError.Format); }
      if file.None? { file := Some(MAGIC()); }
      var body := EntryBody(V2(text), e);
      var a := PutEntry(V2(text), file.value, body);
      if a.Err? { return Err(a.error); }
      file := Some(a.value);
      r := Ok(());
    }

    method RemoveEntry(e: Entry) returns (r: Result<(), KtError>)
      modifies this
      ensures if old(file).None? then r == Err(Io) && file == old(file)
              else
                var a := Remove(old(file).value, hostBigEndian, text, e);
                if a.Ok? then r == Ok(()) && file == Some(a.value) else r == Err(a.error) && file == old(file)
    {
      hide Records, PutI32;
      if file.Some? && !Writable(file.value) { return Err(KtError.Format); }
      if file.None? { return Err(Io); }
      var d := file.value;
      var rs := ReadRecords();
      if rs.Err? { return Err(rs.error); }
      for i := 0 to |rs.value|
        invariant file == old(file)
        invariant forall j | 0 <= j < i :: !(rs.value[j].entry.Some? && SameKey(rs.value[j].entry.value, e))
      {
        var x := rs.value[i];
        if x.entry.Some? && SameKey(x.entry.value, e) {
          assert FirstSame(rs.value, e) == Some(i);
          file := Some(d[..x.off] + (PutI32(V2(text), -(x.size as int)) + Zeros(x.size)) + d[x.off + 4 + x.size..]);
          return Ok(());
        }
      }
      assert FirstSame(rs.value, e) == None;
      r := Err(NotFound);
    }
  }

  // ----- looking an entry up -----

  /** `more_recent`: by key version, unless one of the two seems to have wrapped around at eight bits. */
  predicate MoreRecent(x: Entry, y: Entry) {
    if y.timestamp <= x.timestamp && x.kvno < 128 && y.kvno > 240 then true
    else if x.timestamp <= y.timestamp && x.kvno > 240 && y.kvno < 128 then false
    else x.kvno > y.kvno
  }

  predicate Candidate(e: Entry, name: Principal, realm: string, etype: Option<int>) {
    e.principal.comps == name.comps && e.realm == realm && (etype.None? || etype.value == e.keytype)
  }

  /** A key version that answers a request for `k`. */
  predicate Answers(e: Entry, k: nat) { e.kvno == 0 || e.kvno == k || e.kvno == k % 256 }

  /** `x` looks as if its version wrapped around after `y`'s. */
  predicate WrapLike(x: Entry, y: Entry) { y.timestamp <= x.timestamp && x.kvno < 128 && y.kvno > 240 }

  /** "More recent" is "higher version" exactly for pairs that do not look like a wrap-around either way. */
  lemma MoreRecentExactly(x: Entry, y: Entry)
    ensures (MoreRecent(x, y) <==> x.kvno > y.kvno) <==> !WrapLike(x, y) && !WrapLike(y, x)
  {
  }

  /** Any wrap-like pair and any entry with a version between 128 and 240 go in a circle, so the order of the entries decides. */
  lemma MoreRecentCycles(a: Entry, b: Entry, c: Entry)
    requires WrapLike(a, b) && 128 <= c.kvno <= 240
    ensures MoreRecent(a, b) && MoreRecent(b, c) && MoreRecent(c, a)
  {
  }

  /** No two candidates look like a wrap-around. */
  ghost predicate NoWrap(es: seq<Entry>, name: Principal, realm: string, etype: Option<int>) {
    forall i, j | 0 <= i < |es| && 0 <= j < |es| && Candidate(es[i], name, realm, etype) && Candidate(es[j], name, realm, etype) ::
      !WrapLike(es[i], es[j])
  }

  /** Entry `i` is the first with the highest key version. */
  ghost predicate Highest(es: seq<Entry>, name: Principal, realm: string, etype: Option<int>, i: nat)
    requires i < |es|
  {
    && Candidate(es[i], name, realm, etype)
    && forall j | 0 <= j < |es| && Candidate(es[j], name, realm, etype) ::
         es[j].kvno < es[i].kvno || (es[j].kvno == es[i].kvno && i <= j)
  }

  /** Entry `i` is the first with exactly the version asked for. */
  ghost predicate Exactly(es: seq<Entry>, name: Principal, realm: string, etype: Option<int>, k: nat, i: nat)
    requires i < |es|
  {
    && Candidate(es[i], name, realm, etype) && es[i].kvno == k
    && forall j | 0 <= j < i :: !(Candidate(es[j], name, realm, etype) && es[j].kvno == k)
  }

  /** Entry `i` is the first that answers. */
  ghost predicate FirstAnswer(es: seq<Entry>, name: Principal, realm: string, etype: Option<int>, k: nat, i: nat)
    requires i < |es|
  {
    && Candidate(es[i], name, realm, etype) && Answers(es[i], k)
    && forall j | 0 <= j < i :: !(Candidate(es[j], name, realm, etype) && Answers(es[j], k))
  }

  /** Entry `j` has version zero and looks as if it wrapped around after entry `i`. */
  ghost predicate Displaces(es: seq<Entry>, name: Principal, realm: string, etype: Option<int>, i: nat, j: nat)
    requires i < |es| && j < |es|
  {
    i < j && Candidate(es[j], name, realm, etype) && es[j].kvno == 0 && WrapLike(es[j], es[i])
  }

  /** Entry `i` is the first answer, or the first to displace that. */
  ghost predicate Wins(es: seq<Entry>, name: Principal, realm: string, etype: Option<int>, k: nat, first: nat, i: nat)
    requires first < |es| && i < |es|
  {
    && FirstAnswer(es, name, realm, etype, k, first)
    && if i == first then forall j | 0 <= j < |es| :: !Displaces(es, name, realm, etype, first, j)
       else Displaces(es, name, realm, etype, first, i) && forall j | 0 <= j < i :: !Displaces(es, name, realm, etype, first, j)
  }

  ghost predicate HasExact(es: seq<Entry>, name: Principal, realm: string, etype: Option<int>, k: nat) {
    k != 0 && exists j | 0 <= j < |es| :: Candidate(es[j], name, realm, etype) && es[j].kvno == k
  }

  /** The candidate left standing when each one more recent than the last one standing takes its place. */
  ghost function Latest(es: seq<Entry>, name: Principal, realm: string, etype: Option<int>): (r: Option<nat>)
    ensures r.Some? ==> r.value < |es| && Candidate(es[r.value], name, realm, etype)
  {
    if es == [] then None else
    var e, before := es[|es| - 1], Latest(es[..|es| - 1], name, realm, etype);
    if Candidate(e, name, realm, etype) && (before.None? || MoreRecent(e, es[before.value])) then Some(|es| - 1) else before
  }

  /**
   * Nothing behind the one left standing is more recent than it, and it is the first candidate or
   * more recent than the one left standing in front of it.
   */
  lemma {:induction false} LatestStands(es: seq<Entry>, name: Principal, realm: string, etype: Option<int>)
    ensures var r := Latest(es, name, realm, etype);
            if r.None? then forall j | 0 <= j < |es| :: !Candidate(es[j], name, realm, etype) else
            var i, before := r.value, Latest(es[..r.value], name, realm, etype);
            && (forall j | i < j < |es| && Candidate(es[j], name, realm, etype) :: !MoreRecent(es[j], es[i]))
            && (before.Some? ==> MoreRecent(es[i], es[before.value]))
  {
    hide Candidate, MoreRecent;
    if es != [] {
      var front := es[..|es| - 1];
      LatestStands(front, name, realm, etype);
      var r := Latest(front, name, realm, etype);
      if r.Some? { assert front[..r.value] == es[..r.value]; }
    }
  }

  /** Without wrap-like pairs it is the first with the highest version. */
  lemma {:induction false} LatestHighest(es: seq<Entry>, name: Principal, realm: string, etype: Option<int>)
    ensures var r := Latest(es, name, realm, etype);
            r.Some? && NoWrap(es, name, realm, etype) ==> Highest(es, name, realm, etype, r.value)
  {
    hide Candidate, MoreRecent;
    if es != [] && NoWrap(es, name, realm, etype) {
      var e, front := es[|es| - 1], es[..|es| - 1];
      LatestHighest(front, name, realm, etype);
      LatestStands(front, name, realm, etype);
      var before := Latest(front, name, realm, etype);
      if before.Some? && Candidate(e, name, realm, etype) {
        MoreRecentExactly(e, es[before.value]);
      }
    }
  }

  lemma LatestNone(name: Principal, realm: string, etype: Option<int>)
    ensures Latest([], name, realm, etype) == None
  {
  }

  lemma LatestNext(es: seq<Entry>, k: nat, name: Principal, realm: string, etype: Option<int>)
    requires k < |es|
    ensures var before := Latest(es[..k], name, realm, etype);
            Latest(es[..k + 1], name, realm, etype)
            == if Candidate(es[k], name, realm, etype) && (before.None? || MoreRecent(es[k], es[before.value])) then Some(k)
               else before
  {
    hide Candidate, MoreRecent;
    assert es[..k + 1][..k] == es[..k];
  }

  /** What a lookup must answer. */
  ghost predicate Found(es: seq<Entry>, name: Principal, realm: string, kvno: Option<nat>, etype: Option<int>,
                        r: Result<Entry, KtError>) {
    match r
    case Ok(e) =>
      exists i | 0 <= i < |es| ::
        && es[i] == e && Candidate(e, name, realm, etype)
        && (kvno.None? ==> Latest(es, name, realm, etype) == Some(i))
        && (kvno.None? && NoWrap(es, name, realm, etype) ==> Highest(es, name, realm, etype, i))
        && (kvno.Some? ==>
              if HasExact(es, name, realm, etype, kvno.value) then Exactly(es, name, realm, etype, kvno.value, i)
              else exists first | 0 <= first < |es| :: Wins(es, name, realm, etype, kvno.value, first, i))
    case Err(x) =>
      && (forall i | 0 <= i < |es| && Candidate(es[i], name, realm, etype) :: kvno.Some? && !Answers(es[i], kvno.value))
      && x == if exists i | 0 <= i < |es| :: Candidate(es[i], name, realm, etype) then KvnoNotFound else NotFound
  }

  /** How the winner changes with one entry more. */
  lemma WinsNext(es: seq<Entry>, name: Principal, realm: string, etype: Option<int>, k: nat, first: nat, i: nat, e: Entry)
    requires first < |es| && i < |es| && Wins(es, name, realm, etype, k, first, i)
    ensures var moves := i == first && Displaces(es + [e], name, realm, etype, first, |es|);
            Wins(es + [e], name, realm, etype, k, first, if moves then |es| else i)
    ensures i == first ==> (Displaces(es + [e], name, realm, etype, first, |es|)
                            <==> Candidate(e, name, realm, etype) && e.kvno == 0 && MoreRecent(e, es[i]))
    ensures i != first ==> !(e.kvno == 0 && MoreRecent(e, es[i]))
  {
    hide Candidate;
    var fs := es + [e];
    assert forall j | 0 <= j < |es| :: fs[j] == es[j];
    assert forall j | 0 <= j < |es| :: Displaces(fs, name, realm, etype, first, j) <==> Displaces(es, name, realm, etype, first, j);
  }

  lemma WinsFirst(es: seq<Entry>, name: Principal, realm: string, etype: Option<int>, k: nat, e: Entry)
    requires Candidate(e, name, realm, etype) && Answers(e, k)
    requires forall j | 0 <= j < |es| :: !(Candidate(es[j], name, realm, etype) && Answers(es[j], k))
    ensures Wins(es + [e], name, realm, etype, k, |es|, |es|)
  {
    hide Candidate;
    var fs := es + [e];
    assert fs[|es|] == e && forall j | 0 <= j < |es| :: fs[j] == es[j];
  }

  /** `get_entry_in`. */
  method GetEntryIn(es: seq<Entry>, name: Principal, realm: string, kvno: Option<nat>, etype: Option<int>)
    returns (r: Result<Entry, KtError>)
    ensures Found(es, name, realm, kvno, etype, r)
  {
    hide Candidate, Wins, Latest, MoreRecent, Highest, NoWrap;
    var cur: Option<Entry>, wrong := None, false;
    ghost var at: nat, first: nat := 0, 0;
    LatestNone(name, realm, etype);
    for k := 0 to |es|
      invariant cur.Some? ==> at < k && first < k && cur.value == es[at] && Candidate(es[at], name, realm, etype)
      invariant kvno.None? ==> Latest(es[..k], name, realm, etype) == if cur.Some? then Some(at) else None
      invariant cur.Some? && kvno.Some? ==> Wins(es[..k], name, realm, etype, kvno.value, first, at)
      invariant cur.None? ==> forall j | 0 <= j < k && Candidate(es[j], name, realm, etype) ::
                                kvno.Some? && !Answers(es[j], kvno.value)
      invariant wrong ==> exists j | 0 <= j < k :: Candidate(es[j], name, realm, etype)
      invariant cur.None? && !wrong ==> forall j | 0 <= j < k :: !Candidate(es[j], name, realm, etype)
      invariant kvno.Some? && kvno.value != 0 ==>
                  forall j | 0 <= j < k :: !(Candidate(es[j], name, realm, etype) && es[j].kvno == kvno.value)
    {
      var e := es[k];
      assert es[..k + 1] == es[..k] + [e];
      LatestNext(es, k, name, realm, etype);
      if kvno.Some? {
        if cur.Some? {
          WinsNext(es[..k], name, realm, etype, kvno.value, first, at, e);
        } else if Candidate(e, name, realm, etype) && Answers(e, kvno.value) {
          WinsFirst(es[..k], name, realm, etype, kvno.value, e);
        }
      }
      if !Candidate(e, name, realm, etype) { continue; }
      if kvno.None? || e.kvno == 0 {
        if cur.None? {
          cur, at, first := Some(e), k, k;
        } else if MoreRecent(e, cur.value) {
          cur, at := Some(e), k;
        }
      } else if e.kvno == kvno.value {
        assert Exactly(es, name, realm, etype, kvno.value, k);
        return Ok(e);
      } else if e.kvno == kvno.value % 256 && cur.None? {
        cur, at, first := Some(e), k, k;
      } else {
        wrong := true;
      }
    }
    assert es[..|es|] == es;
    LatestHighest(es, name, realm, etype);
    if cur.Some? { return Ok(cur.value); }
    r := if wrong then Err(KvnoNotFound) else Err(NotFound);
  }
}
