/** What adding and removing do to a keytab's slots and to the entries read from it. */
module KeytabSlots {
  import opened Bytes
  import opened CcMarshal
  import opened Keytab
  import opened Text
  import opened Wrappers

  /** Where reading stops: too few bytes for a size, or a size of zero. */
  ghost predicate Ended(tail: seq<byte>) { |tail| < 4 || tail[..4] == Zeros(4) }

  function MAGIC(): seq<byte> { [5, 2] }

  ghost predicate Framed(text: Codec, d: seq<byte>, ss: seq<Slot>, tail: seq<byte>) {
    (forall s | s in ss :: FitsSlot(s)) && Ended(tail) && d == MAGIC() + (PutSlots(V2(text), ss) + tail)
  }

  /** Every slot that is not a hole holds an entry that can be read. */
  ghost predicate AllShown(f: CcMarshal.Format, ss: seq<Slot>) {
    forall s | s in ss :: s.hole || ParseEntry(f, s.body).Ok?
  }

  /** Every slot that is not a hole holds an entry, or one that reads as the end. */
  ghost predicate Readable(f: CcMarshal.Format, ss: seq<Slot>) {
    forall s | s in ss :: s.hole || ParseEntry(f, s.body).Ok? || ParseEntry(f, s.body) == Err(End)
  }

  /** The entries a reader comes to: an unreadable slot hides everything after it. */
  ghost function EntriesOf(f: CcMarshal.Format, ss: seq<Slot>): seq<Entry> {
    if ss == [] then []
    else if ss[0].hole then EntriesOf(f, ss[1..])
    else if ParseEntry(f, ss[0].body).Err? then []
    else [ParseEntry(f, ss[0].body).value] + EntriesOf(f, ss[1..])
  }

  lemma EntriesCons(f: CcMarshal.Format, s: Slot, rest: seq<Slot>)
    ensures EntriesOf(f, [s] + rest)
            == if s.hole then EntriesOf(f, rest)
               else if ParseEntry(f, s.body).Err? then []
               else [ParseEntry(f, s.body).value] + EntriesOf(f, rest)
  {
    hide ParseEntry;
    assert ([s] + rest)[1..] == rest;
  }

  lemma ShownCons(f: CcMarshal.Format, s: Slot, rest: seq<Slot>)
    ensures AllShown(f, [s] + rest) <==> (s.hole || ParseEntry(f, s.body).Ok?) && AllShown(f, rest)
    ensures Readable(f, [s] + rest)
            <==> (s.hole || ParseEntry(f, s.body).Ok? || ParseEntry(f, s.body) == Err(End)) && Readable(f, rest)
  {
    hide ParseEntry;
    assert s in [s] + rest && forall r | r in rest :: r in [s] + rest;
  }

  lemma NoSlots(f: CcMarshal.Format)
    ensures EntriesOf(f, []) == [] && AllShown(f, []) && Readable(f, [])
  {
  }

  // ----- reading a framed file -----

  lemma SizeReads(f: CcMarshal.Format, d: seq<byte>, pos: nat, s: Slot)
    requires FitsSlot(s) && Holds(d, pos, PutSlot(f, s))
    ensures GetI32(f, d, pos) == Got(if s.hole then -|s.body| else |s.body|, pos + 4)
    ensures Holds(d, pos + 4, s.body)
  {
    hide PutI32, GetI32;
    PowFacts();
    var n := if s.hole then -|s.body| else |s.body|;
    HoldsBoth(d, pos, PutI32(f, n), s.body);
    I32Reads(f, d, pos, n);
  }

  lemma EndReads(f: CcMarshal.Format, d: seq<byte>, pos: nat)
    requires pos <= |d| && Ended(d[pos..])
    ensures GetI32(f, d, pos).Bad? || GetI32(f, d, pos).value == 0
  {
    if pos + 4 <= |d| {
      assert d[pos..][..4] == d[pos..pos + 4];
      assert Reversed(Zeros(4)) == Zeros(4);
      ZeroWord(Zeros(4));
      PowFacts();
    }
  }

  lemma {:induction false} ZeroWord(s: seq<byte>)
    requires forall i | 0 <= i < |s| :: s[i] == 0
    ensures FromLe(s) == 0
    decreases |s|
  {
    if s != [] { ZeroWord(s[1..]); }
  }

  /** Reading at a slot: its record in front of the others, unless it cannot be read. */
  lemma RecordsAt(f: CcMarshal.Format, d: seq<byte>, pos: nat, s: Slot)
    requires FitsSlot(s) && Holds(d, pos, PutSlot(f, s))
    ensures var rest := RecordsFrom(f, d, pos + 4 + |s.body|);
            RecordsFrom(f, d, pos)
            == if !s.hole && ParseEntry(f, s.body).Err?
               then (if ParseEntry(f, s.body).error == End then Ok([]) else Err(ParseEntry(f, s.body).error))
               else if rest.Err? then rest
               else Ok([Record(pos, |s.body|, EntryIn(f, s))] + rest.value)
  {
    hide GetI32, PutSlot, ParseEntry, Holds;
    SizeReads(f, d, pos, s);
    HeldSlice(d, pos + 4, s.body);
  }

  lemma RecordsAtEnd(f: CcMarshal.Format, d: seq<byte>, pos: nat)
    requires pos <= |d| && Ended(d[pos..])
    ensures RecordsFrom(f, d, pos) == Ok([])
  {
    hide GetI32, Ended;
    EndReads(f, d, pos);
  }

  lemma {:induction false} RecordsRead(f: CcMarshal.Format, d: seq<byte>, pos: nat, ss: seq<Slot>, tail: seq<byte>)
    requires (forall s | s in ss :: FitsSlot(s)) && Readable(f, ss) && Ended(tail)
    requires pos <= |d| && d[pos..] == PutSlots(f, ss) + tail
    ensures RecordsFrom(f, d, pos).Ok? && EntriesIn(RecordsFrom(f, d, pos).value) == EntriesOf(f, ss)
    ensures AllShown(f, ss) ==> RecordsFrom(f, d, pos).value == Laid(f, ss, pos)
    decreases |ss|
  {
    hide RecordsFrom, PutSlots, ParseEntry, Holds, Ended, EntriesOf, AllShown, Readable, Laid, EntriesIn, EntryIn;
    RecordsNone(f, pos);
    if ss == [] {
      SlotsNone(f);
      Nothing(tail);
      NoSlots(f);
      RecordsAtEnd(f, d, pos);
    } else {
      var s, b, rest := ss[0], PutSlot(f, ss[0]), ss[1..];
      assert ss == [s] + rest && s in ss;
      SlotLength(f, s);
      SlotsCons(f, s, rest, tail);
      Rest(d, pos, b, PutSlots(f, rest) + tail);
      RecordsAt(f, d, pos, s);
      EntriesCons(f, s, rest);
      ShownCons(f, s, rest);
      RecordsCons(f, s, rest, pos, RecordsFrom(f, d, pos + |b|));
      RecordsRead(f, d, pos + |b|, rest, tail);
    }
  }

  lemma RecordsNone(f: CcMarshal.Format, pos: nat)
    ensures Laid(f, [], pos) == [] && EntriesIn([]) == []
  {
  }

  lemma RecordsCons(f: CcMarshal.Format, s: Slot, rest: seq<Slot>, pos: nat, r: Result<seq<Record>, KtError>)
    ensures Laid(f, [s] + rest, pos) == [Record(pos, |s.body|, EntryIn(f, s))] + Laid(f, rest, pos + 4 + |s.body|)
    ensures r.Ok? ==> EntriesIn([Record(pos, |s.body|, EntryIn(f, s))] + r.value)
                      == (if s.hole || ParseEntry(f, s.body).Err? then [] else [ParseEntry(f, s.body).value]) + EntriesIn(r.value)
  {
    hide ParseEntry;
    var x := Record(pos, |s.body|, EntryIn(f, s));
    assert ([s] + rest)[1..] == rest;
    if r.Ok? { assert ([x] + r.value)[1..] == r.value; }
  }

  lemma SlotsNone(f: CcMarshal.Format)
    ensures PutSlots(f, []) == []
  {
  }

  lemma SlotsCons(f: CcMarshal.Format, s: Slot, rest: seq<Slot>, tail: seq<byte>)
    ensures PutSlots(f, [s] + rest) + tail == PutSlot(f, s) + (PutSlots(f, rest) + tail)
  {
    hide PutSlot;
    assert ([s] + rest)[1..] == rest;
    Associate(PutSlot(f, s), PutSlots(f, rest), tail);
  }

  lemma SlotLength(f: CcMarshal.Format, s: Slot)
    ensures |PutSlot(f, s)| == 4 + |s.body|
  {
  }

  lemma HeldSlice<T>(d: seq<T>, pos: nat, s: seq<T>)
    requires Holds(d, pos, s)
    ensures pos + |s| <= |d| && d[pos..pos + |s|] == s
  {
  }

  lemma Rest<T>(d: seq<T>, pos: nat, a: seq<T>, b: seq<T>)
    requires pos <= |d| && d[pos..] == a + b
    ensures Holds(d, pos, a) && pos + |a| <= |d| && d[pos + |a|..] == b
  {
    assert d[pos..][..|a|] == a && d[pos..][|a|..] == b;
    assert d[pos..pos + |a|] == d[pos..][..|a|];
  }

  ghost function EntryIn(f: CcMarshal.Format, s: Slot): Option<Entry> {
    if s.hole || ParseEntry(f, s.body).Err? then None else Some(ParseEntry(f, s.body).value)
  }

  /** The records of the slots laid out from `pos`. */
  ghost function Laid(f: CcMarshal.Format, ss: seq<Slot>, pos: nat): (r: seq<Record>)
    ensures |r| == |ss|
  {
    if ss == [] then []
    else [Record(pos, |ss[0].body|, EntryIn(f, ss[0]))] + Laid(f, ss[1..], pos + 4 + |ss[0].body|)
  }

  lemma FramedReads(text: Codec, hostBigEndian: bool, d: seq<byte>, ss: seq<Slot>, tail: seq<byte>)
    requires Framed(text, d, ss, tail) && Readable(V2(text), ss)
    ensures Entries(d, hostBigEndian, text) == Ok(EntriesOf(V2(text), ss))
    ensures AllShown(V2(text), ss) ==> Records(d, hostBigEndian, text) == Ok(Laid(V2(text), ss, 2))
  {
    hide PutSlots, RecordsFrom, Ended, EntriesIn, EntriesOf;
    assert d[2..] == PutSlots(V2(text), ss) + tail;
    RecordsRead(V2(text), d, 2, ss, tail);
  }

  // ----- what stands behind the slots -----

  /** The entries read from a stretch of bytes. */
  ghost function Reads(f: CcMarshal.Format, t: seq<byte>): Result<seq<Entry>, KtError> {
    Seen(RecordsFrom(f, t, 0))
  }

  ghost function Seen(r: Result<seq<Record>, KtError>): Result<seq<Entry>, KtError> {
    if r.Err? then Err(r.error) else Ok(EntriesIn(r.value))
  }

  /** One slot and what is read behind it. */
  lemma SeenStep(f: CcMarshal.Format, d: seq<byte>, pos: nat, n: nat)
    requires var size := GetI32(f, d, pos);
             size.Got? && size.value != 0 && size.value != MIN32 && n == if size.value < 0 then -size.value else size.value
    ensures var size, r := GetI32(f, d, pos).value, Seen(RecordsFrom(f, d, pos));
            if pos + 4 + n > |d| then r == Err(KtError.Format) else
            var rest := Seen(RecordsFrom(f, d, pos + 4 + n));
            if size < 0 then r == rest else
            var e := ParseEntry(f, d[pos + 4..pos + 4 + n]);
            r == if e.Err? then (if e.error == End then Ok([]) else Err(e.error))
                 else if rest.Err? then rest else Ok([e.value] + rest.value)
  {
    hide ParseEntry, GetI32, EntriesIn;
    SeenNone();
    if pos + 4 + n <= |d| {
      var rest := RecordsFrom(f, d, pos + 4 + n);
      if rest.Ok? {
        SeenCons(Record(pos, n, None), rest.value);
        var e := ParseEntry(f, d[pos + 4..pos + 4 + n]);
        if e.Ok? { SeenCons(Record(pos, n, Some(e.value)), rest.value); }
      }
    }
  }

  lemma SeenNone()
    ensures EntriesIn([]) == []
  {
  }

  lemma SeenCons(x: Record, rs: seq<Record>)
    ensures EntriesIn([x] + rs) == if x.entry.Some? then [x.entry.value] + EntriesIn(rs) else EntriesIn(rs)
  {
    assert ([x] + rs)[1..] == rs;
  }

  lemma SeenEnd(f: CcMarshal.Format, d: seq<byte>, pos: nat)
    requires var size := GetI32(f, d, pos); size.Bad? || size.value == 0 || size.value == MIN32
    ensures var size := GetI32(f, d, pos);
            Seen(RecordsFrom(f, d, pos)) == if size.Got? && size.value == MIN32 then Err(KtError.Format) else Ok([])
  {
    hide ParseEntry, GetI32;
  }

  lemma SizeAnywhere(f: CcMarshal.Format, d: seq<byte>, k: nat, pos: nat)
    requires k <= pos && k <= |d|
    ensures var a, b := GetI32(f, d, pos), GetI32(f, d[k..], pos - k);
            && (a.Got? <==> pos + 4 <= |d|) && (b.Got? <==> pos + 4 <= |d|)
            && (a.Got? ==> a.value == b.value)
  {
    hide FromWord;
    if pos + 4 <= |d| { Slices(d, k, |d|, pos, pos + 4); }
  }

  /** Reading a stretch does not depend on what stands in front of it. */
  lemma {:induction false} ReadsAnywhere(f: CcMarshal.Format, d: seq<byte>, k: nat, pos: nat)
    requires k <= pos && k <= |d|
    ensures var r, q := RecordsFrom(f, d, pos), RecordsFrom(f, d[k..], pos - k);
            if q.Err? then r == q else r.Ok? && EntriesIn(r.value) == EntriesIn(q.value)
    decreases |d| - pos
  {
    hide ParseEntry, GetI32, RecordsFrom, EntriesIn;
    SizeAnywhere(f, d, k, pos);
    var size := GetI32(f, d, pos);
    if size.Bad? || size.value == MIN32 || size.value == 0 {
      SeenEnd(f, d, pos);
      SeenEnd(f, d[k..], pos - k);
    } else {
      var n := if size.value < 0 then -size.value else size.value;
      SeenStep(f, d, pos, n);
      SeenStep(f, d[k..], pos - k, n);
      if pos + 4 + n <= |d| {
        Slices(d, k, |d|, pos + 4, pos + 4 + n);
        ReadsAnywhere(f, d, k, pos + 4 + n);
      }
    }
  }

  /** Readable slots and then whatever follows them. */
  lemma {:induction false} ReadsOver(f: CcMarshal.Format, d: seq<byte>, pos: nat, ss: seq<Slot>, t: seq<byte>)
    requires (forall s | s in ss :: FitsSlot(s)) && AllShown(f, ss)
    requires pos <= |d| && d[pos..] == PutSlots(f, ss) + t
    ensures var r, q := RecordsFrom(f, d, pos), Reads(f, t);
            if q.Err? then r == Err(q.error) else r.Ok? && EntriesIn(r.value) == EntriesOf(f, ss) + q.value
    decreases |ss|
  {
    hide RecordsFrom, PutSlots, ParseEntry, Holds, EntriesOf, AllShown, Readable;
    if ss == [] {
      SlotsNone(f);
      Nothing(t);
      NoSlots(f);
      ReadsAnywhere(f, d, pos, pos);
      if Reads(f, t).Ok? { Nothing(Reads(f, t).value); }
    } else {
      var s, b, rest := ss[0], PutSlot(f, ss[0]), ss[1..];
      assert ss == [s] + rest && s in ss;
      SlotLength(f, s);
      SlotsCons(f, s, rest, t);
      Rest(d, pos, b, PutSlots(f, rest) + t);
      RecordsAt(f, d, pos, s);
      EntriesCons(f, s, rest);
      ShownCons(f, s, rest);
      ReadsOver(f, d, pos + |b|, rest, t);
      if !s.hole && Reads(f, t).Ok? {
        Associate([ParseEntry(f, s.body).value], EntriesOf(f, rest), Reads(f, t).value);
      }
    }
  }

  // ----- adding -----

  predicate Takes(s: Slot, n: nat) { s.hole && |s.body| >= n }

  predicate HasRoom(ss: seq<Slot>, n: nat) { ss != [] && (Takes(ss[0], n) || HasRoom(ss[1..], n)) }

  /** The slots with `body` in the first hole that takes it, which keeps its size, or else behind them. */
  ghost function Placed(ss: seq<Slot>, body: seq<byte>): seq<Slot> {
    if ss == [] then [Slot(false, body)]
    else if Takes(ss[0], |body|) then [Slot(false, body + Zeros(|ss[0].body| - |body|))] + ss[1..]
    else [ss[0]] + Placed(ss[1..], body)
  }

  /** The search at a slot: it is filled, or passed over. */
  lemma AddAt(f: CcMarshal.Format, d: seq<byte>, pos: nat, s: Slot, body: seq<byte>)
    requires FitsSlot(s) && Holds(d, pos, PutSlot(f, s))
    ensures pos + 4 + |s.body| <= |d|
    ensures AddFrom(f, d, pos, body)
            == if Takes(s, |body|)
               then Ok(d[..pos] + (PutI32(f, |s.body|) + (body + Zeros(|s.body| - |body|))) + d[pos + 4 + |s.body|..])
               else AddFrom(f, d, pos + 4 + |s.body|, body)
  {
    hide GetI32, PutSlot, PutI32;
    SizeReads(f, d, pos, s);
  }

  /** What is behind the slots once an entry is added: a placeholder gives its four bytes to the new slot. */
  ghost function TailAfter(ss: seq<Slot>, tail: seq<byte>, n: nat): seq<byte> {
    if HasRoom(ss, n) || |tail| < 4 then tail else tail[4..]
  }

  /** Too few bytes for a placeholder, but some. */
  predicate Stray(tail: seq<byte>) { 0 < |tail| < 4 }

  lemma AddAtEnd(f: CcMarshal.Format, pre: seq<byte>, tail: seq<byte>, body: seq<byte>)
    requires Ended(tail)
    ensures var b := PutSlot(f, Slot(false, body));
            AddFrom(f, pre + tail, |pre|, body) == Ok(pre + if Stray(tail) then tail + b else b + TailAfter([], tail, |body|))
  {
    hide GetI32, PutSlot, Ended;
    var d, b := pre + tail, PutSlot(f, Slot(false, body));
    assert d[|pre|..] == tail && d[..|pre|] == pre;
    EndReads(f, d, |pre|);
    FilledSlot(f, body);
    assert pre + tail + b == pre + (tail + b) && b + [] == b;
    if |tail| >= 4 {
      assert d[|pre| + 4..] == tail[4..];
      assert pre + b + tail[4..] == pre + (b + tail[4..]);
    } else if tail == [] {
      assert d == pre;
    }
  }

  /** The entry is put into the first hole that takes it, whatever is behind the slots, or else behind them. */
  lemma {:induction false} AddPlaces(f: CcMarshal.Format, pre: seq<byte>, ss: seq<Slot>, tail: seq<byte>, body: seq<byte>)
    requires (forall s | s in ss :: FitsSlot(s)) && |body| > 0
    requires HasRoom(ss, |body|) || (Ended(tail) && !Stray(tail))
    ensures AddFrom(f, pre + (PutSlots(f, ss) + tail), |pre|, body)
            == Ok(pre + (PutSlots(f, Placed(ss, body)) + TailAfter(ss, tail, |body|)))
    decreases |ss|
  {
    hide AddFrom, PutSlot, Takes, FitsSlot, Placed, Ended;
    PlacedSteps(ss, body);
    if ss == [] {
      assert PutSlots(f, ss) + tail == tail;
      AddAtEnd(f, pre, tail, body);
      OneSlot(f, Slot(false, body));
    } else {
      var s, b, rest := ss[0], PutSlot(f, ss[0]), PutSlots(f, ss[1..]) + tail;
      assert s in ss;
      assert PutSlots(f, ss) + tail == b + rest;
      if Takes(s, |body|) {
        AddFills(f, pre, s, rest, body);
        PlacedHead(f, ss, body);
        assert PutSlots(f, Placed(ss, body)) + tail == PutSlot(f, Placed(ss, body)[0]) + rest;
      } else {
        var later, end := PutSlots(f, Placed(ss[1..], body)), TailAfter(ss[1..], tail, |body|);
        AddPlaces(f, pre + b, ss[1..], tail, body);
        AddSkips(f, pre, s, rest, body, later + end);
        PlacedTail(f, ss, body);
        assert b + later + end == b + (later + end);
      }
    }
  }

  /** Without room, stray bytes stay where they are and the new slot goes behind them. */
  lemma {:induction false} AddStrays(f: CcMarshal.Format, pre: seq<byte>, ss: seq<Slot>, tail: seq<byte>, body: seq<byte>)
    requires (forall s | s in ss :: FitsSlot(s)) && !HasRoom(ss, |body|) && Stray(tail)
    ensures AddFrom(f, pre + (PutSlots(f, ss) + tail), |pre|, body)
            == Ok(pre + (PutSlots(f, ss) + (tail + PutSlot(f, Slot(false, body)))))
    decreases |ss|
  {
    hide AddFrom, PutSlot, FitsSlot, Ended;
    var now := PutSlot(f, Slot(false, body));
    if ss == [] {
      assert PutSlots(f, ss) + tail == tail && PutSlots(f, ss) + (tail + now) == tail + now;
      assert Ended(tail) by { ShortEnds(tail); }
      AddAtEnd(f, pre, tail, body);
    } else {
      var s, b, rest := ss[0], PutSlot(f, ss[0]), PutSlots(f, ss[1..]) + tail;
      assert s in ss;
      assert PutSlots(f, ss) + tail == b + rest;
      AddStrays(f, pre + b, ss[1..], tail, body);
      AddSkips(f, pre, s, rest, body, PutSlots(f, ss[1..]) + (tail + now));
      assert PutSlots(f, ss) + (tail + now) == b + (PutSlots(f, ss[1..]) + (tail + now));
    }
  }

  lemma ShortEnds(tail: seq<byte>)
    requires |tail| < 4
    ensures Ended(tail)
  {
  }

  lemma OneSlot(f: CcMarshal.Format, s: Slot)
    ensures PutSlots(f, [s]) == PutSlot(f, s)
  {
    assert PutSlots(f, [s]) == PutSlot(f, s) + PutSlots(f, [s][1..]);
  }

  lemma AddFills(f: CcMarshal.Format, pre: seq<byte>, s: Slot, rest: seq<byte>, body: seq<byte>)
    requires FitsSlot(s) && Takes(s, |body|)
    ensures var filled := Slot(false, body + Zeros(|s.body| - |body|));
            AddFrom(f, pre + (PutSlot(f, s) + rest), |pre|, body) == Ok(pre + (PutSlot(f, filled) + rest))
  {
    hide AddFrom, PutSlot, PutI32, Holds, Zeros;
    var b, filled := PutSlot(f, s), body + Zeros(|s.body| - |body|);
    var d, now := pre + (b + rest), PutSlot(f, Slot(false, filled));
    SlotLength(f, s);
    Cut(pre, b, rest);
    AddAt(f, d, |pre|, s, body);
    FilledSlot(f, filled);
    Associate(pre, now, rest);
  }

  lemma Cut<T>(a: seq<T>, b: seq<T>, c: seq<T>)
    ensures var d := a + (b + c);
            d[..|a|] == a && Holds(d, |a|, b) && |a| + |b| <= |d| && d[|a| + |b|..] == c && d == a + b + c
  {
    var d := a + (b + c);
    assert d[|a|..|a| + |b|] == b;
  }

  lemma Associate<T>(a: seq<T>, b: seq<T>, c: seq<T>)
    ensures a + b + c == a + (b + c)
  {
  }

  lemma AddSkips(f: CcMarshal.Format, pre: seq<byte>, s: Slot, rest: seq<byte>, body: seq<byte>, after: seq<byte>)
    requires FitsSlot(s) && !Takes(s, |body|)
    requires AddFrom(f, pre + PutSlot(f, s) + rest, |pre + PutSlot(f, s)|, body) == Ok(pre + PutSlot(f, s) + after)
    ensures AddFrom(f, pre + (PutSlot(f, s) + rest), |pre|, body) == Ok(pre + (PutSlot(f, s) + after))
  {
    hide AddFrom, PutSlot, Holds;
    var b := PutSlot(f, s);
    SlotLength(f, s);
    Cut(pre, b, rest);
    AddAt(f, pre + (b + rest), |pre|, s, body);
    Associate(pre, b, after);
  }

  lemma PlacedHead(f: CcMarshal.Format, ss: seq<Slot>, body: seq<byte>)
    requires ss != [] && Takes(ss[0], |body|)
    ensures Placed(ss, body)[0] == Slot(false, body + Zeros(|ss[0].body| - |body|))
    ensures PutSlots(f, Placed(ss, body)) == PutSlot(f, Placed(ss, body)[0]) + PutSlots(f, ss[1..])
  {
    hide PutSlot;
    assert Placed(ss, body)[1..] == ss[1..];
  }

  lemma PlacedTail(f: CcMarshal.Format, ss: seq<Slot>, body: seq<byte>)
    requires ss != [] && !Takes(ss[0], |body|)
    ensures PutSlots(f, Placed(ss, body)) == PutSlot(f, ss[0]) + PutSlots(f, Placed(ss[1..], body))
  {
    hide PutSlot;
    assert Placed(ss, body)[1..] == Placed(ss[1..], body);
  }

  lemma FilledSlot(f: CcMarshal.Format, body: seq<byte>)
    ensures PutSlot(f, Slot(false, body)) == PutI32(f, |body|) + body
  {
  }

  /** Where the new entry appears among the old ones; one that cannot be read hides what follows it. */
  lemma {:induction false} PlacedEntries(f: CcMarshal.Format, ss: seq<Slot>, e: Entry) returns (a: seq<Entry>, b: seq<Entry>)
    requires f.version != 1 && f.text.Lawful() && InRange(f, e) && AllShown(f, ss)
    ensures EntriesOf(f, ss) == a + b && (b == [] || HasRoom(ss, |Body(f, e)|))
    ensures EntriesOf(f, Placed(ss, Body(f, e))) == a + if Visible(f, e) then [ReadBack(e)] + b else []
    ensures Readable(f, Placed(ss, Body(f, e)))
    ensures Visible(f, e) ==> AllShown(f, Placed(ss, Body(f, e)))
    decreases |ss|
  {
    hide ParseEntry, Body, Visible, InRange, Codec.Lawful, ReadBack, Placed, EntriesOf, AllShown, Readable, Takes;
    var body := Body(f, e);
    PlacedSteps(ss, body);
    NoSlots(f);
    if ss == [] {
      a, b := [], [];
      Nothing([ReadBack(e)]);
      assert body + [] == body;
      BodyReads(f, e, []);
      EntriesCons(f, Slot(false, body), []);
      ShownCons(f, Slot(false, body), []);
      assert [Slot(false, body)] + [] == [Slot(false, body)];
    } else {
      var s, rest := ss[0], ss[1..];
      assert ss == [s] + rest;
      EntriesCons(f, s, rest);
      ShownCons(f, s, rest);
      if Takes(s, |body|) {
        a, b := [], EntriesOf(f, ss);
        Nothing(b);
        Nothing([ReadBack(e)] + b);
        assert s.hole && |s.body| >= |body| by { TakesMeans(s, |body|); }
        var pad := Zeros(|s.body| - |body|);
        BodyReads(f, e, pad);
        EntriesCons(f, Slot(false, body + pad), rest);
        ShownCons(f, Slot(false, body + pad), rest);
        ShownReadable(f, rest);
      } else {
        a, b := PlacedEntries(f, rest, e);
        EntriesCons(f, s, Placed(rest, body));
        ShownCons(f, s, Placed(rest, body));
        if !s.hole {
          var x := ParseEntry(f, s.body).value;
          Associate([x], a, b);
          Associate([x], a, if Visible(f, e) then [ReadBack(e)] + b else []);
          a := [x] + a;
        }
      }
    }
  }

  lemma Nothing<T>(s: seq<T>)
    ensures [] + s == s && s + [] == s
  {
  }

  lemma TakesMeans(s: Slot, n: nat)
    requires Takes(s, n)
    ensures s.hole && |s.body| >= n
  {
  }

  lemma PlacedSteps(ss: seq<Slot>, body: seq<byte>)
    ensures ss == [] ==> Placed(ss, body) == [Slot(false, body)]
    ensures ss != [] && Takes(ss[0], |body|)
            ==> Placed(ss, body) == [Slot(false, body + Zeros(|ss[0].body| - |body|))] + ss[1..]
    ensures ss != [] && !Takes(ss[0], |body|) ==> Placed(ss, body) == [ss[0]] + Placed(ss[1..], body)
  {
  }

  /** The sizes of the slots, which say where each begins. */
  ghost function Sizes(ss: seq<Slot>): seq<nat> { seq(|ss|, i requires 0 <= i < |ss| => |ss[i].body|) }

  lemma SizesNone()
    ensures Sizes([]) == []
  {
  }

  lemma SizesCons(s: Slot, rest: seq<Slot>)
    ensures Sizes([s] + rest) == [|s.body|] + Sizes(rest)
  {
  }

  lemma {:induction false} PlacedSizes(ss: seq<Slot>, body: seq<byte>)
    requires 0 < |body| < TWO31 && forall s | s in ss :: FitsSlot(s)
    ensures forall s | s in Placed(ss, body) :: FitsSlot(s)
    ensures Sizes(Placed(ss, body)) == if HasRoom(ss, |body|) then Sizes(ss) else Sizes(ss) + [|body|]
    decreases |ss|
  {
    hide Placed, Sizes, FitsSlot;
    PlacedSteps(ss, body);
    assert FitsSlot(Slot(false, body)) by { BodyFits(body); }
    if ss == [] {
      SizesCons(Slot(false, body), []);
      assert [Slot(false, body)] == [Slot(false, body)] + [];
      SizesNone();
    } else {
      assert ss == [ss[0]] + ss[1..];
      SizesCons(ss[0], ss[1..]);
      if Takes(ss[0], |body|) {
        var filled := body + Zeros(|ss[0].body| - |body|);
        assert FitsSlot(ss[0]) && |filled| == |ss[0].body|;
        assert FitsSlot(Slot(false, filled)) by { SameSizeFits(ss[0], Slot(false, filled)); }
        SizesCons(Slot(false, filled), ss[1..]);
      } else {
        PlacedSizes(ss[1..], body);
        SizesCons(ss[0], Placed(ss[1..], body));
      }
    }
  }

  lemma BodyFits(body: seq<byte>)
    requires 0 < |body| < TWO31
    ensures FitsSlot(Slot(false, body))
  {
  }

  lemma SameSizeFits(s: Slot, r: Slot)
    requires FitsSlot(s) && |r.body| == |s.body|
    ensures FitsSlot(r)
  {
  }

  /** A keytab these operations keep: nothing unreadable is in it, and reading ends behind the slots. */
  ghost predicate Kept(text: Codec, d: seq<byte>, ss: seq<Slot>, tail: seq<byte>) {
    Framed(text, d, ss, tail) && AllShown(V2(text), ss)
  }

  /** Reading still ends behind the slots once something of this size is added. */
  ghost predicate LeavesEnd(ss: seq<Slot>, tail: seq<byte>, n: nat) {
    HasRoom(ss, n) || (!Stray(tail) && Ended(TailAfter(ss, tail, n)))
  }

  /**
   * Adding moves no slot. The entry is then read among the others, and the keytab is kept, exactly
   * when nothing about the entry is empty; an empty part makes the entry, and whatever stands behind
   * its slot, unreadable.
   */
  lemma AddKeeps(text: Codec, hostBigEndian: bool, d: seq<byte>, ss: seq<Slot>, tail: seq<byte>, e: Entry)
    returns (a: seq<Entry>, b: seq<Entry>, ss2: seq<Slot>, tail2: seq<byte>)
    requires text.Lawful() && Kept(text, d, ss, tail) && InRange(V2(text), e) && |Body(V2(text), e)| < TWO31
    requires LeavesEnd(ss, tail, |Body(V2(text), e)|)
    ensures ss2 == Placed(ss, Body(V2(text), e)) && tail2 == TailAfter(ss, tail, |Body(V2(text), e)|)
    ensures Entries(d, hostBigEndian, text) == Ok(a + b)
    ensures Add(d, text, e).Ok? && Framed(text, Add(d, text, e).value, ss2, tail2)
    ensures Entries(Add(d, text, e).value, hostBigEndian, text) == Ok(a + if Visible(V2(text), e) then [ReadBack(e)] + b else [])
    ensures Visible(V2(text), e) ==> Kept(text, Add(d, text, e).value, ss2, tail2)
    ensures Sizes(ss) <= Sizes(ss2) && (b != [] ==> Sizes(ss) == Sizes(ss2))
  {
    hide Codec.Lawful, ParseEntry, Body, Visible, InRange, ReadBack, Placed, PutSlots, AddFrom, EntriesOf, Entries, Records, FitsSlot, Ended;
    var f, body := V2(text), Body(V2(text), e);
    BodyNonEmpty(f, e);
    ss2, tail2 := Placed(ss, body), TailAfter(ss, tail, |body|);
    FramedReads(text, hostBigEndian, d, ss, tail);
    AddPlaces(f, MAGIC(), ss, tail, body);
    PlacedSizes(ss, body);
    a, b := PlacedEntries(f, ss, e);
    var d2 := Add(d, text, e).value;
    assert Framed(text, d2, ss2, tail2);
    FramedReads(text, hostBigEndian, d2, ss2, tail2);
  }

  /** A big-endian word of four bytes whose last is zero is a multiple of 256. */
  lemma LastByteZero(w: seq<byte>)
    requires |w| == 4 && w[3] == 0
    ensures FromWord(w, true) % 256 == 0 && FromWord(w, true) < TWO32
  {
    var r := Reversed(w);
    assert FromLe(r) == r[0] + 256 * FromLe(r[1..]);
    WordBound(w, true);
    PowFacts();
  }

  /** The first word of stray bytes and a slot behind them says no size that fits, unless it is zero. */
  lemma StrayWord(f: CcMarshal.Format, tail: seq<byte>, body: seq<byte>)
    requires f.be && Stray(tail) && |tail| + |body| < 256
    ensures var v := GetI32(f, tail + PutSlot(f, Slot(false, body)), 0);
            v.Got? && (v.value == 0 || v.value <= -256 || v.value >= 256)
  {
    hide FromWord, Pow256;
    var t, n := tail + PutSlot(f, Slot(false, body)), |body|;
    SmallWord(n);
    FilledSlot(f, body);
    var w := t[0..4];
    assert w[3] == PutI32(f, n)[3 - |tail|] == PutI32(f, n)[..3][3 - |tail|] == 0;
    LastByteZero(w);
    PowFacts();
  }

  lemma StrayReads(f: CcMarshal.Format, tail: seq<byte>, body: seq<byte>)
    requires f.be && Stray(tail) && |tail| + |body| < 256
    ensures var r := Reads(f, tail + PutSlot(f, Slot(false, body))); r.Err? || r == Ok([])
  {
    hide GetI32, PutSlot, ParseEntry;
    StrayWord(f, tail, body);
    SlotLength(f, Slot(false, body));
  }

  /** The file added to, as its slots and what is behind them. */
  lemma AddedReads(text: Codec, hostBigEndian: bool, d: seq<byte>, ss: seq<Slot>, t: seq<byte>)
    requires (forall s | s in ss :: FitsSlot(s)) && AllShown(V2(text), ss)
    requires d == MAGIC() + (PutSlots(V2(text), ss) + t)
    ensures var q := Reads(V2(text), t);
            Entries(d, hostBigEndian, text) == if q.Err? then Err(q.error) else Ok(EntriesOf(V2(text), ss) + q.value)
  {
    hide PutSlots, RecordsFrom, EntriesIn, EntriesOf, AllShown;
    assert d[2..] == PutSlots(V2(text), ss) + t;
    ReadsOver(V2(text), d, 2, ss, t);
  }

  /** What an append needs behind the slots: nothing, or a placeholder with nothing to read behind it. */
  ghost predicate Appendable(f: CcMarshal.Format, tail: seq<byte>) {
    tail == [] || (|tail| >= 4 && Reads(f, tail[4..]) == Ok([]))
  }

  /** One to three stray bytes and a slot behind them that happen to read as the entry all the same. */
  ghost predicate ReadAnyway(f: CcMarshal.Format, tail: seq<byte>, e: Entry) {
    Stray(tail) && Reads(f, tail + PutSlot(f, Slot(false, Body(f, e)))) == Ok([ReadBack(e)])
  }

  /**
   * An added entry is read among the others, and nothing else changes, exactly when a hole takes it
   * or what is behind the slots is nothing, or a placeholder with nothing to read behind it, or
   * stray bytes through which it is read all the same, as no body of less than 256 bytes, counting
   * those, is.
   */
  lemma AddExactly(text: Codec, hostBigEndian: bool, d: seq<byte>, ss: seq<Slot>, tail: seq<byte>, e: Entry)
    returns (a: seq<Entry>, b: seq<Entry>)
    requires text.Lawful() && Kept(text, d, ss, tail)
    requires InRange(V2(text), e) && Visible(V2(text), e) && |Body(V2(text), e)| < TWO31
    ensures Entries(d, hostBigEndian, text) == Ok(a + b) && Add(d, text, e).Ok?
    ensures Entries(Add(d, text, e).value, hostBigEndian, text) == Ok(a + ([ReadBack(e)] + b))
            <==> HasRoom(ss, |Body(V2(text), e)|) || Appendable(V2(text), tail) || ReadAnyway(V2(text), tail, e)
    ensures |tail| + |Body(V2(text), e)| < 256 ==> !ReadAnyway(V2(text), tail, e)
  {
    hide Codec.Lawful, ParseEntry, Body, Visible, InRange, ReadBack, Placed, PutSlots, PutSlot, AddFrom, EntriesOf, Entries,
         Records, FitsSlot, Ended, AllShown, Reads;
    var f, body := V2(text), Body(V2(text), e);
    BodyNonEmpty(f, e);
    assert Readable(f, ss) by { ShownReadable(f, ss); }
    FramedReads(text, hostBigEndian, d, ss, tail);
    a, b := PlacedEntries(f, ss, e);
    var d2 := Add(d, text, e);
    if Stray(tail) && |tail| + |body| < 256 { StrayReads(f, tail, body); }
    if Stray(tail) && !HasRoom(ss, |body|) {
      AddStrays(f, MAGIC(), ss, tail, body);
      var q := Reads(f, tail + PutSlot(f, Slot(false, body)));
      AddedReads(text, hostBigEndian, d2.value, ss, tail + PutSlot(f, Slot(false, body)));
      Nothing([ReadBack(e)]);
      Nothing(a);
      assert q.Ok? ==> (a + q.value == a + [ReadBack(e)] <==> q.value == [ReadBack(e)]) by {
        if q.Ok? { SameBehind(a, q.value, [ReadBack(e)]); }
      }
    } else {
      AddPlaces(f, MAGIC(), ss, tail, body);
      PlacedSizes(ss, body);
      var t := TailAfter(ss, tail, |body|);
      AddedReads(text, hostBigEndian, d2.value, Placed(ss, body), t);
      if HasRoom(ss, |body|) || tail == [] { EndedReads(f, t); }
      var q, es := Reads(f, t), a + ([ReadBack(e)] + b);
      assert q.Ok? ==> (es + q.value == es <==> q.value == []);
    }
  }

  lemma SameBehind<T>(a: seq<T>, x: seq<T>, y: seq<T>)
    ensures a + x == a + y <==> x == y
  {
    assert (a + x)[|a|..] == x && (a + y)[|a|..] == y;
  }

  lemma EndedReads(f: CcMarshal.Format, t: seq<byte>)
    requires Ended(t)
    ensures Reads(f, t) == Ok([])
  {
    assert t[0..] == t;
    RecordsAtEnd(f, t, 0);
  }

  /** In every keytab without room for it and with stray bytes behind its slots, a small entry added is lost to every reader. */
  lemma StrayBytesLoseEntry(text: Codec, hostBigEndian: bool, d: seq<byte>, ss: seq<Slot>, tail: seq<byte>, e: Entry)
    requires Kept(text, d, ss, tail) && Stray(tail)
    requires !HasRoom(ss, |Body(V2(text), e)|) && |tail| + |Body(V2(text), e)| < 256
    ensures Add(d, text, e).Ok?
    ensures var r := Entries(Add(d, text, e).value, hostBigEndian, text); r.Err? || r == Entries(d, hostBigEndian, text)
  {
    hide ParseEntry, Body, PutSlots, PutSlot, AddFrom, EntriesOf, Entries, FitsSlot, Ended, AllShown, Reads;
    var f, body := V2(text), Body(V2(text), e);
    assert Readable(f, ss) by { ShownReadable(f, ss); }
    FramedReads(text, hostBigEndian, d, ss, tail);
    AddStrays(f, MAGIC(), ss, tail, body);
    StrayReads(f, tail, body);
    AddedReads(text, hostBigEndian, Add(d, text, e).value, ss, tail + PutSlot(f, Slot(false, body)));
    Nothing(EntriesOf(f, ss));
  }

  lemma BodyNonEmpty(f: CcMarshal.Format, e: Entry)
    ensures |Body(f, e)| > 0
  {
    I16Length(f, |e.principal.comps|);
  }

  // ----- removing -----

  lemma {:induction false} PutSlotsConcat(f: CcMarshal.Format, a: seq<Slot>, b: seq<Slot>)
    ensures PutSlots(f, a + b) == PutSlots(f, a) + PutSlots(f, b)
    decreases |a|
  {
    hide PutSlot;
    if a == [] {
      assert a + b == b;
    } else {
      assert (a + b)[0] == a[0] && (a + b)[1..] == a[1..] + b;
      PutSlotsConcat(f, a[1..], b);
    }
  }

  lemma PutSlotsAround(f: CcMarshal.Format, ss: seq<Slot>, i: nat)
    requires i < |ss|
    ensures PutSlots(f, ss) == PutSlots(f, ss[..i]) + (PutSlot(f, ss[i]) + PutSlots(f, ss[i + 1..]))
  {
    hide PutSlot;
    assert ss == ss[..i] + ss[i..] && ss[i..][0] == ss[i] && ss[i..][1..] == ss[i + 1..];
    PutSlotsConcat(f, ss[..i], ss[i..]);
  }

  lemma {:induction false} EntriesConcat(f: CcMarshal.Format, a: seq<Slot>, b: seq<Slot>)
    requires AllShown(f, a)
    ensures EntriesOf(f, a + b) == EntriesOf(f, a) + EntriesOf(f, b)
    decreases |a|
  {
    hide ParseEntry;
    if a == [] {
      assert a + b == b;
    } else {
      assert (a + b)[0] == a[0] && (a + b)[1..] == a[1..] + b;
      EntriesConcat(f, a[1..], b);
    }
  }

  lemma {:induction false} LaidAt(f: CcMarshal.Format, ss: seq<Slot>, pos: nat, i: nat)
    requires i < |ss|
    ensures Laid(f, ss, pos)[i] == Record(pos + |PutSlots(f, ss[..i])|, |ss[i].body|, EntryIn(f, ss[i]))
    decreases |ss|
  {
    hide PutSlot, EntryIn;
    if i > 0 {
      SlotLength(f, ss[0]);
      LaidAt(f, ss[1..], pos + 4 + |ss[0].body|, i - 1);
      assert ss[..i][0] == ss[0] && ss[..i][1..] == ss[1..][..i - 1];
    } else {
      assert ss[..0] == [];
    }
  }

  /** The slots with slot `i` made a hole of the same size. */
  ghost function Vacated(ss: seq<Slot>, i: nat): seq<Slot>
    requires i < |ss|
  {
    ss[i := Slot(true, Zeros(|ss[i].body|))]
  }

  lemma VacatedBytes(f: CcMarshal.Format, pre: seq<byte>, ss: seq<Slot>, tail: seq<byte>, i: nat)
    requires i < |ss|
    ensures var d, off, n := pre + (PutSlots(f, ss) + tail), |pre| + |PutSlots(f, ss[..i])|, |ss[i].body|;
            && off + 4 + n <= |d|
            && d[..off] + (PutI32(f, -n) + Zeros(n)) + d[off + 4 + n..] == pre + (PutSlots(f, Vacated(ss, i)) + tail)
  {
    hide PutSlots, PutI32, PutSlot, Zeros, Vacated;
    var n := |ss[i].body|;
    var left, right, was, now := PutSlots(f, ss[..i]), PutSlots(f, ss[i + 1..]), PutSlot(f, ss[i]), PutI32(f, -n) + Zeros(n);
    PutSlotsAround(f, ss, i);
    VacatedAround(f, ss, i);
    SlotLength(f, ss[i]);
    SwapMiddle(pre, left, was, now, right, tail);
  }

  lemma VacatedAround(f: CcMarshal.Format, ss: seq<Slot>, i: nat)
    requires i < |ss|
    ensures var n := |ss[i].body|;
            PutSlots(f, Vacated(ss, i)) == PutSlots(f, ss[..i]) + ((PutI32(f, -n) + Zeros(n)) + PutSlots(f, ss[i + 1..]))
  {
    hide PutSlots, PutI32, PutSlot, Zeros;
    var vs := Vacated(ss, i);
    PutSlotsAround(f, vs, i);
    assert vs[..i] == ss[..i] && vs[i + 1..] == ss[i + 1..];
    HoleSlot(f, |ss[i].body|);
  }

  lemma SwapMiddle<T>(pre: seq<T>, a: seq<T>, b: seq<T>, b2: seq<T>, c: seq<T>, tail: seq<T>)
    ensures var d, off := pre + (a + (b + c) + tail), |pre| + |a|;
            off + |b| <= |d| && d[..off] + b2 + d[off + |b|..] == pre + (a + (b2 + c) + tail)
  {
    Regroup(pre, a, b, c, tail);
    Regroup(pre, a, b2, c, tail);
    Cut(pre + a, b, c + tail);
    Associate(pre + a, b2, c + tail);
  }

  lemma HoleSlot(f: CcMarshal.Format, n: nat)
    ensures PutSlot(f, Slot(true, Zeros(n))) == PutI32(f, -(n as int)) + Zeros(n)
  {
  }

  lemma Regroup<T>(pre: seq<T>, a: seq<T>, b: seq<T>, c: seq<T>, tail: seq<T>)
    ensures pre + (a + (b + c) + tail) == pre + a + (b + (c + tail))
  {
  }

  lemma VacatedEntries(f: CcMarshal.Format, ss: seq<Slot>, i: nat)
    requires i < |ss| && AllShown(f, ss) && !ss[i].hole
    ensures var a, b, x := EntriesOf(f, ss[..i]), EntriesOf(f, ss[i + 1..]), ParseEntry(f, ss[i].body).value;
            EntriesOf(f, ss) == a + ([x] + b) && EntriesOf(f, Vacated(ss, i)) == a + b
    ensures AllShown(f, Vacated(ss, i))
  {
    hide ParseEntry;
    var vs := Vacated(ss, i);
    assert ss == ss[..i] + ss[i..] && ss[i..][0] == ss[i] && ss[i..][1..] == ss[i + 1..];
    assert vs == ss[..i] + vs[i..] && vs[i..][0] == vs[i] && vs[i..][1..] == ss[i + 1..];
    assert ss[i] in ss;
    EntriesConcat(f, ss[..i], ss[i..]);
    EntriesConcat(f, ss[..i], vs[i..]);
  }

  /** The slots with the first entry like `e` made a hole. */
  ghost function SlotsWithout(f: CcMarshal.Format, ss: seq<Slot>, e: Entry): seq<Slot> {
    var i := FirstSame(Laid(f, ss, 2), e);
    if i.None? then ss else Vacated(ss, i.value)
  }

  /**
   * Removing from a kept keytab takes out the first entry with the same name, realm, version and
   * enctype, and that one only; its slot stays as a hole. There is none exactly when the answer is so.
   */
  lemma RemoveKeeps(text: Codec, hostBigEndian: bool, d: seq<byte>, ss: seq<Slot>, tail: seq<byte>, e: Entry)
    returns (a: seq<Entry>, x: Entry, b: seq<Entry>, ss2: seq<Slot>)
    requires Kept(text, d, ss, tail)
    ensures ss2 == SlotsWithout(V2(text), ss, e)
    ensures var r := Remove(d, hostBigEndian, text, e);
            if r.Ok? then
              && Entries(d, hostBigEndian, text) == Ok(a + ([x] + b)) && SameKey(x, e) && (forall y | y in a :: !SameKey(y, e))
              && Kept(text, r.value, ss2, tail) && Sizes(ss2) == Sizes(ss)
              && Entries(r.value, hostBigEndian, text) == Ok(a + b)
            else
              && ss2 == ss && r.error == NotFound && Entries(d, hostBigEndian, text) == Ok(a) && (forall y | y in a :: !SameKey(y, e))
  {
    hide Framed, AllShown, ParseEntry, PutSlots, EntriesOf, Entries, Records, SameKey, Laid, Sizes;
    var f, rs := V2(text), Laid(V2(text), ss, 2);
    ShownReadable(f, ss);
    FramedReads(text, hostBigEndian, d, ss, tail);
    assert Writable(d) by { FramedWritable(text, d, ss, tail); }
    a, x, b, ss2 := EntriesOf(f, ss), e, [], ss;
    var found := FirstSame(rs, e);
    if found.Some? {
      var i := found.value;
      a, x, b, ss2 := VacateKeeps(text, hostBigEndian, d, ss, tail, e, i);
    } else {
      EntriesFrom(f, ss, 2, |ss|, e);
      assert ss[..|ss|] == ss;
    }
  }

  lemma ShownReadable(f: CcMarshal.Format, ss: seq<Slot>)
    requires AllShown(f, ss)
    ensures Readable(f, ss)
  {
  }

  lemma FramedWritable(text: Codec, d: seq<byte>, ss: seq<Slot>, tail: seq<byte>)
    requires Framed(text, d, ss, tail)
    ensures Writable(d)
  {
  }

  /** Making slot `i` a hole takes its entry out of the middle. */
  lemma VacateKeeps(text: Codec, hostBigEndian: bool, d: seq<byte>, ss: seq<Slot>, tail: seq<byte>, e: Entry, i: nat)
    returns (a: seq<Entry>, x: Entry, b: seq<Entry>, ss2: seq<Slot>)
    requires Kept(text, d, ss, tail) && FirstSame(Laid(V2(text), ss, 2), e) == Some(i)
    ensures var rec := Laid(V2(text), ss, 2)[i];
            && rec.off + 4 + rec.size <= |d| && ss2 == Vacated(ss, i)
            && var d2 := d[..rec.off] + (PutI32(V2(text), -(rec.size as int)) + Zeros(rec.size)) + d[rec.off + 4 + rec.size..];
            && Entries(d, hostBigEndian, text) == Ok(a + ([x] + b)) && SameKey(x, e) && (forall y | y in a :: !SameKey(y, e))
            && Kept(text, d2, ss2, tail) && Sizes(ss2) == Sizes(ss)
            && Entries(d2, hostBigEndian, text) == Ok(a + b)
  {
    hide ParseEntry, PutSlots, EntriesOf, Entries, SameKey, Ended, Laid, Records, PutI32;
    var f := V2(text);
    FramedReads(text, hostBigEndian, d, ss, tail);
    LaidAt(f, ss, 2, i);
    VacatedBytes(f, MAGIC(), ss, tail, i);
    VacatedEntries(f, ss, i);
    EntriesFrom(f, ss, 2, i, e);
    a, x, b, ss2 := EntriesOf(f, ss[..i]), ParseEntry(f, ss[i].body).value, EntriesOf(f, ss[i + 1..]), Vacated(ss, i);
    assert FitsSlot(ss[i]);
    var rec := Laid(f, ss, 2)[i];
    var d2 := d[..rec.off] + (PutI32(f, -(rec.size as int)) + Zeros(rec.size)) + d[rec.off + 4 + rec.size..];
    assert Framed(text, d2, ss2, tail);
    FramedReads(text, hostBigEndian, d2, ss2, tail);
  }

  /** No entry of the slots before `i` is like `e` when no record before `i` holds one. */
  lemma {:induction false} EntriesFrom(f: CcMarshal.Format, ss: seq<Slot>, pos: nat, i: nat, e: Entry)
    requires i <= |ss| && AllShown(f, ss)
    requires forall j | 0 <= j < i :: !(Laid(f, ss, pos)[j].entry.Some? && SameKey(Laid(f, ss, pos)[j].entry.value, e))
    ensures forall y | y in EntriesOf(f, ss[..i]) :: !SameKey(y, e)
    decreases i
  {
    hide ParseEntry, SameKey;
    if i > 0 {
      var later := Laid(f, ss[1..], pos + 4 + |ss[0].body|);
      forall j | 0 <= j < i - 1 ensures !(later[j].entry.Some? && SameKey(later[j].entry.value, e)) {
        assert later[j] == Laid(f, ss, pos)[j + 1];
      }
      EntriesFrom(f, ss[1..], pos + 4 + |ss[0].body|, i - 1, e);
      assert ss[..i][0] == ss[0] && ss[..i][1..] == ss[1..][..i - 1];
      assert !(Laid(f, ss, pos)[0].entry.Some? && SameKey(Laid(f, ss, pos)[0].entry.value, e));
    }
  }

  // ----- whole runs -----

  datatype Op = AddOp(entry: Entry) | RemoveOp(entry: Entry)

  function Step(text: Codec, hostBigEndian: bool, d: seq<byte>, op: Op): Result<seq<byte>, KtError> {
    if op.AddOp? then Add(d, text, op.entry) else Remove(d, hostBigEndian, text, op.entry)
  }

  function Run(text: Codec, hostBigEndian: bool, d: seq<byte>, ops: seq<Op>): seq<byte>
    decreases |ops|
  {
    if ops == [] then d else
    var r := Step(text, hostBigEndian, d, ops[0]);
    Run(text, hostBigEndian, if r.Ok? then r.value else d, ops[1..])
  }

  ghost function AddedBy(ops: seq<Op>): multiset<Entry> {
    if ops == [] then multiset{}
    else (if ops[0].AddOp? then multiset{ReadBack(ops[0].entry)} else multiset{}) + AddedBy(ops[1..])
  }

  ghost predicate Proper(text: Codec, op: Op) {
    op.AddOp? ==> InRange(V2(text), op.entry) && Visible(V2(text), op.entry) && |Body(V2(text), op.entry)| < TWO31
  }

  /** Every add of the run finds room, or leaves reading to end behind the slots, as the slots then are. */
  ghost predicate Guarded(f: CcMarshal.Format, ss: seq<Slot>, tail: seq<byte>, ops: seq<Op>)
    decreases |ops|
  {
    ops != [] ==>
      var e := ops[0].entry;
      if ops[0].RemoveOp? then Guarded(f, SlotsWithout(f, ss, e), tail, ops[1..])
      else LeavesEnd(ss, tail, |Body(f, e)|)
           && Guarded(f, Placed(ss, Body(f, e)), TailAfter(ss, tail, |Body(f, e)|), ops[1..])
  }

  /** With any number of zero placeholders behind the slots, or none, every run is guarded. */
  lemma {:induction false} PlaceholdersGuard(f: CcMarshal.Format, ss: seq<Slot>, k: nat, ops: seq<Op>)
    ensures Guarded(f, ss, Zeros(4 * k), ops)
    decreases |ops|
  {
    hide Placed, Body, SlotsWithout, HasRoom;
    if ops != [] {
      var e, tail := ops[0].entry, Zeros(4 * k);
      if ops[0].RemoveOp? {
        PlaceholdersGuard(f, SlotsWithout(f, ss, e), k, ops[1..]);
      } else {
        var n, next := |Body(f, e)|, Placed(ss, Body(f, e));
        assert k > 0 ==> tail[4..] == Zeros(4 * (k - 1));
        assert k > 1 ==> tail[4..][..4] == Zeros(4);
        PlaceholdersGuard(f, next, k, ops[1..]);
        if k > 0 { PlaceholdersGuard(f, next, k - 1, ops[1..]); }
      }
    }
  }

  lemma BagInsert<T>(a: seq<T>, x: T, b: seq<T>)
    ensures multiset(a + ([x] + b)) == multiset(a + b) + multiset{x}
  {
  }

  lemma BagStep<T>(a: multiset<T>, b: multiset<T>, c: multiset<T>, now: multiset<T>, later: multiset<T>, out: multiset<T>, rest: multiset<T>)
    requires b + out == a + now && c + rest == b + later
    ensures c + (rest + out) == a + (now + later)
  {
    assert c + (rest + out) == (c + rest) + out;
    assert (b + later) + out == (b + out) + later;
    assert (a + now) + later == a + (now + later);
  }

  /** One operation, in terms of the entries it adds or takes. */
  lemma StepConserves(text: Codec, hostBigEndian: bool, d: seq<byte>, ss: seq<Slot>, tail: seq<byte>, op: Op, es: seq<Entry>)
    returns (d2: seq<byte>, ss2: seq<Slot>, tail2: seq<byte>, es2: seq<Entry>, taken: multiset<Entry>)
    requires text.Lawful() && Kept(text, d, ss, tail) && Proper(text, op) && Entries(d, hostBigEndian, text) == Ok(es)
    requires op.AddOp? ==> LeavesEnd(ss, tail, |Body(V2(text), op.entry)|)
    ensures op.RemoveOp? ==> ss2 == SlotsWithout(V2(text), ss, op.entry) && tail2 == tail
    ensures op.AddOp? ==> ss2 == Placed(ss, Body(V2(text), op.entry)) && tail2 == TailAfter(ss, tail, |Body(V2(text), op.entry)|)
    ensures var r := Step(text, hostBigEndian, d, op); d2 == if r.Ok? then r.value else d
    ensures Kept(text, d2, ss2, tail2) && Sizes(ss) <= Sizes(ss2) && Entries(d2, hostBigEndian, text) == Ok(es2)
    ensures op.AddOp? ==> taken == multiset{} && multiset(es2) == multiset(es) + multiset{ReadBack(op.entry)}
    ensures op.RemoveOp? ==> multiset(es2) + taken == multiset(es) && |taken| <= 1 && forall x | x in taken :: SameKey(x, op.entry)
    ensures op.RemoveOp? && taken == multiset{} ==> es2 == es && forall x | x in es :: !SameKey(x, op.entry)
  {
    hide Codec.Lawful, Kept, InRange, Visible, Body, ReadBack, Add, Remove, Entries, SameKey, LeavesEnd, Placed, TailAfter, SlotsWithout;
    taken := multiset{};
    var r := Step(text, hostBigEndian, d, op);
    d2 := if r.Ok? then r.value else d;
    if op.AddOp? {
      var a, b;
      a, b, ss2, tail2 := AddKeeps(text, hostBigEndian, d, ss, tail, op.entry);
      es2 := a + ([ReadBack(op.entry)] + b);
      assert es == a + b;
      BagInsert(a, ReadBack(op.entry), b);
    } else {
      var a, x, b;
      a, x, b, ss2 := RemoveKeeps(text, hostBigEndian, d, ss, tail, op.entry);
      tail2 := tail;
      if r.Ok? {
        es2, taken := a + b, multiset{x};
        assert es == a + ([x] + b);
        BagInsert(a, x, b);
      } else {
        ss2, es2 := ss, es;
      }
    }
  }

  /** Conservation: over every run, what is there at the end and what was taken out is what was there and what was added. */
  lemma {:induction false} RunConserves(text: Codec, hostBigEndian: bool, d: seq<byte>, ss: seq<Slot>, tail: seq<byte>,
                                        ops: seq<Op>, es: seq<Entry>)
    returns (es2: seq<Entry>, taken: multiset<Entry>)
    requires text.Lawful() && Kept(text, d, ss, tail) && Entries(d, hostBigEndian, text) == Ok(es)
    requires Guarded(V2(text), ss, tail, ops) && forall op | op in ops :: Proper(text, op)
    ensures Entries(Run(text, hostBigEndian, d, ops), hostBigEndian, text) == Ok(es2)
    ensures multiset(es2) + taken == multiset(es) + AddedBy(ops)
    ensures forall x | x in taken :: exists op | op in ops :: op.RemoveOp? && SameKey(x, op.entry)
    ensures exists ss2, tail2 :: Kept(text, Run(text, hostBigEndian, d, ops), ss2, tail2) && Sizes(ss) <= Sizes(ss2)
    decreases |ops|
  {
    hide Codec.Lawful, Kept, Proper, Step, Entries, SameKey, ReadBack, Sizes, LeavesEnd, Placed, TailAfter, SlotsWithout, Body;
    if ops == [] {
      es2, taken := es, multiset{};
      assert Sizes(ss) <= Sizes(ss);
    } else {
      var d1, ss1, tail1, es1, out := StepConserves(text, hostBigEndian, d, ss, tail, ops[0], es);
      es2, taken := RunConserves(text, hostBigEndian, d1, ss1, tail1, ops[1..], es1);
      ghost var rest := taken;
      taken := taken + out;
      BagStep(multiset(es), multiset(es1), multiset(es2), if ops[0].AddOp? then multiset{ReadBack(ops[0].entry)} else multiset{},
              AddedBy(ops[1..]), out, rest);
      forall x | x in taken ensures exists op | op in ops :: op.RemoveOp? && SameKey(x, op.entry) {
        if x in rest {
          var op :| op in ops[1..] && op.RemoveOp? && SameKey(x, op.entry);
          assert op in ops;
        } else {
          assert ops[0] in ops && SameKey(x, ops[0].entry);
        }
      }
      var ss2, tail2 :| Kept(text, Run(text, hostBigEndian, d1, ops[1..]), ss2, tail2) && Sizes(ss1) <= Sizes(ss2);
      assert Sizes(ss) <= Sizes(ss2);
    }
  }

  /** A file that was only created is kept, and empty. */
  lemma CreatedIsKept(text: Codec, hostBigEndian: bool)
    ensures Kept(text, MAGIC(), [], []) && Entries(MAGIC(), hostBigEndian, text) == Ok([])
  {
    assert MAGIC() == MAGIC() + (PutSlots(V2(text), []) + []);
    FramedReads(text, hostBigEndian, MAGIC(), [], []);
  }

  /** The three high bytes of a small number. */
  lemma SmallWord(n: nat)
    requires n < 256
    ensures Word(Unsigned(n, 4), 4, true)[..3] == Zeros(3)
  {
    PowFacts();
    ModUnique(n, Pow256(4), 0, n);
    assert Unsigned(n, 4) == n;
    var s := Le(n, 4);
    assert s == [n, 0, 0, 0];
  }
}
