/**
 * Sequence and replay tracking of received per-message tokens (section 1.2.3 of RFC 2743): a
 * 64-bit map of the numbers just below the next expected one, against the set of all numbers
 * received.
 */
module SeqState {
  import opened Bytes

  datatype SeqStatus = Complete | Gap | Unseq | Old | Duplicate

  /** A 64-bit word as its bits, the least significant first. */
  type Word = w: seq<bool> | |w| == 64 witness seq(64, _ => false)

  function Bit0(): Word { seq(64, i => i == 0) }

  /** `w << s` for a shift the hardware takes modulo 64. */
  function Shl(w: Word, s: nat): Word {
    var k := s % 64;
    seq(64, i requires 0 <= i < 64 => i >= k && w[i - k])
  }

  function Set(w: Word, i: nat): Word
    requires i < 64
  {
    w[i := true]
  }

  /** The fields; `limit` is one more than the mask: 2^64 or 2^32. */
  datatype State = State(doReplay: bool, doSequence: bool, limit: nat, base: nat, next: nat, recvmap: Word)

  predicate Valid(s: State) {
    (s.limit == TWO64 || s.limit == TWO32) && s.next < s.limit
  }

  function New(base: nat, doReplay: bool, doSequence: bool, wide: bool): (s: State)
    ensures Valid(s)
  {
    State(doReplay, doSequence, if wide then TWO64 else TWO32, base, 0, seq(64, _ => false))
  }

  /** The number relative to the base, wrapped to the mask. */
  function Relative(s: State, num: nat): (r: nat)
    requires Valid(s)
    ensures r < s.limit
  {
    (num - s.base) % s.limit
  }

  /** The map after a step forward over `offset` numbers. */
  function Moved(w: Word, offset: nat): Word {
    if offset >= 64 then Bit0() else Set(Shl(w, offset + 1), 0)
  }

  /** One call of `check`: the state afterwards and the status. */
  function Check(s: State, num: nat): (r: (State, SeqStatus))
    requires Valid(s)
    ensures Valid(r.0)
  {
    if !s.doReplay && !s.doSequence then (s, Complete) else
    var rel := Relative(s, num);
    if rel >= s.next then
      var offset := rel - s.next;
      (s.(recvmap := Moved(s.recvmap, offset), next := (rel + 1) % s.limit), if offset > 0 && s.doSequence then Gap else Complete)
    else
      var offset := s.next - rel;
      if offset > 64 then (s, if s.doSequence then Unseq else Old)
      else if s.doReplay && s.recvmap[offset - 1] then (s, Duplicate)
      else (s.(recvmap := Set(s.recvmap, offset - 1)), if s.doSequence then Unseq else Complete)
  }

  /** The object: `check` updates the next number and the map in place. */
  class Tracker {
    const doReplay: bool
    const doSequence: bool
    const limit: nat
    const base: nat
    var next: nat
    var recvmap: Word

    function Model(): State
      reads this
    {
      State(doReplay, doSequence, limit, base, next, recvmap)
    }

    constructor (base: nat, doReplay: bool, doSequence: bool, wide: bool)
      ensures Model() == New(base, doReplay, doSequence, wide)
    {
      this.doReplay := doReplay;
      this.doSequence := doSequence;
      this.limit := if wide then TWO64 else TWO32;
      this.base := base;
      next := 0;
      recvmap := seq(64, _ => false);
    }

    method CheckNumber(num: nat) returns (status: SeqStatus)
      requires Valid(Model())
      modifies this
      ensures (Model(), status) == Check(old(Model()), num)
      ensures Valid(Model())
    {
      if !doReplay && !doSequence {
        return Complete;
      }
      var rel := (num - base) % limit;
      if rel >= next {
        var offset := rel - next;
        if offset >= 64 {
          recvmap := Bit0();
        } else {
          recvmap := Set(Shl(recvmap, offset + 1), 0);
        }
        next := (rel + 1) % limit;
        return if offset > 0 && doSequence then Gap else Complete;
      }
      var offset := next - rel;
      if offset > 64 {
        return if doSequence then Unseq else Old;
      }
      if doReplay && recvmap[offset - 1] {
        return Duplicate;
      }
      recvmap := Set(recvmap, offset - 1);
      return if doSequence then Unseq else Complete;
    }
  }

  // ----- the reference: remember every number received -----

  /** The next expected number and the set of all relative numbers received. */
  datatype Reference = Reference(next: nat, received: set<nat>)

  /** What the status means, in terms of the numbers received. */
  function Meaning(doReplay: bool, doSequence: bool, r: Reference, rel: nat): SeqStatus {
    if rel >= r.next then
      if rel > r.next && doSequence then Gap else Complete
    else if rel + 64 < r.next then
      if doSequence then Unseq else Old
    else if doReplay && rel in r.received then Duplicate
    else if doSequence then Unseq else Complete
  }

  function Receive(r: Reference, rel: nat): Reference {
    Reference(if rel >= r.next then rel + 1 else r.next, r.received + {rel})
  }

  /** Bit i of the map is set exactly when next - 1 - i was received, for the 64 numbers below next. */
  ghost predicate Tracks(s: State, r: Reference) {
    && s.next == r.next
    && (forall n | n in r.received :: n < r.next)
    && (forall i | 0 <= i < 64 :: s.recvmap[i] <==> r.next - 1 - i in r.received)
  }

  /** A forward jump that shifts the map by exactly 64 while it holds more than its lowest bit. */
  ghost predicate LosesShift(s: State, rel: nat) {
    rel >= s.next && rel - s.next == 63 && exists i | 1 <= i < 64 :: s.recvmap[i]
  }

  /** `check` reports what the set of received numbers says, on any call. */
  lemma StatusMeans(s: State, r: Reference, num: nat)
    requires Valid(s) && Tracks(s, r) && (s.doReplay || s.doSequence)
    ensures Check(s, num).1 == Meaning(s.doReplay, s.doSequence, r, Relative(s, num))
  {
    hide Relative;
    var rel := Relative(s, num);
    if rel < s.next && s.next - rel <= 64 {
      var i := s.next - rel - 1;
      assert s.recvmap[i] <==> r.next - 1 - i in r.received;
    }
  }

  /**
   * The map keeps tracking across a call exactly when the call neither takes the top relative
   * number, which wraps `next` to 0, nor is a jump that loses its shift.
   */
  lemma TracksExactly(s: State, r: Reference, num: nat)
    requires Valid(s) && Tracks(s, r) && (s.doReplay || s.doSequence)
    ensures Tracks(Check(s, num).0, Receive(r, Relative(s, num)))
            <==> Relative(s, num) + 1 < s.limit && !LosesShift(s, Relative(s, num))
  {
    hide Relative, Valid;
    var rel := Relative(s, num);
    assert rel < s.limit && s.next < s.limit by { SmallNext(s); }
    if rel < s.next {
      BackwardBits(s, r, num);
    } else if rel + 1 < s.limit {
      assert (rel + 1) % s.limit == rel + 1;
      ForwardBits(s, r, rel);
    }
  }

  lemma SmallNext(s: State)
    requires Valid(s)
    ensures s.next < s.limit
  {
  }

  lemma BackwardBits(s: State, r: Reference, num: nat)
    requires Valid(s) && Tracks(s, r) && (s.doReplay || s.doSequence) && Relative(s, num) < s.next
    ensures Tracks(Check(s, num).0, Receive(r, Relative(s, num)))
  {
    hide Relative, Valid;
    var rel := Relative(s, num);
    var s', r' := Check(s, num).0, Receive(r, rel);
    forall i | 0 <= i < 64
      ensures s'.recvmap[i] <==> r'.next - 1 - i in r'.received
    {
      assert s.recvmap[i] <==> r.next - 1 - i in r.received;
    }
  }

  /** The moved map, bit by bit: a shift by 64 is a shift by 0. */
  lemma MovedAt(w: Word, offset: nat, i: nat)
    requires i < 64
    ensures Moved(w, offset)[i] <==> i == 0 || (offset < 63 && i > offset && w[i - offset - 1]) || (offset == 63 && w[i])
  {
  }

  /** What the map should hold after a step forward. */
  lemma ShouldHold(s: State, r: Reference, rel: nat, i: nat)
    requires Tracks(s, r) && rel >= s.next && i < 64
    ensures var offset := rel - s.next;
            rel - i in Receive(r, rel).received <==> i == 0 || (i > offset && s.recvmap[i - offset - 1])
  {
    var offset := rel - s.next;
    if i > offset {
      var p := i - offset - 1;
      assert s.recvmap[p] <==> r.next - 1 - p in r.received;
    }
  }

  lemma ForwardBits(s: State, r: Reference, rel: nat)
    requires Tracks(s, r) && rel >= s.next
    ensures Tracks(s.(recvmap := Moved(s.recvmap, rel - s.next), next := rel + 1), Receive(r, rel)) <==> !LosesShift(s, rel)
  {
    hide Moved;
    var offset, w, r' := rel - s.next, Moved(s.recvmap, rel - s.next), Receive(r, rel);
    if LosesShift(s, rel) {
      var i :| 1 <= i < 64 && s.recvmap[i];
      MovedAt(s.recvmap, offset, i);
      ShouldHold(s, r, rel, i);
      assert w[i] && !(r'.next - 1 - i in r'.received);
    } else {
      forall i | 0 <= i < 64
        ensures w[i] <==> r'.next - 1 - i in r'.received
      {
        MovedAt(s.recvmap, offset, i);
        ShouldHold(s, r, rel, i);
      }
    }
  }

  // ----- whole runs -----

  /** The statuses of a run of calls. */
  function Run(s: State, nums: seq<nat>): (r: seq<SeqStatus>)
    requires Valid(s)
    ensures |r| == |nums|
    decreases |nums|
  {
    if nums == [] then [] else [Check(s, nums[0]).1] + Run(Check(s, nums[0]).0, nums[1..])
  }

  /** The statuses the reference gives to a run of relative numbers. */
  function Ideal(doReplay: bool, doSequence: bool, r: Reference, rels: seq<nat>): (res: seq<SeqStatus>)
    ensures |res| == |rels|
    decreases |rels|
  {
    if rels == [] then [] else
    [Meaning(doReplay, doSequence, r, rels[0])] + Ideal(doReplay, doSequence, Receive(r, rels[0]), rels[1..])
  }

  function Relatives(s: State, nums: seq<nat>): (r: seq<nat>)
    requires Valid(s)
    ensures |r| == |nums|
  {
    seq(|nums|, i requires 0 <= i < |nums| => Relative(s, nums[i]))
  }

  /** No call of the run wraps the counter or loses a shift. */
  ghost predicate Regular(s: State, nums: seq<nat>)
    requires Valid(s)
    decreases |nums|
  {
    nums == [] ||
    (&& Relative(s, nums[0]) + 1 < s.limit
     && !LosesShift(s, Relative(s, nums[0]))
     && Regular(Check(s, nums[0]).0, nums[1..]))
  }

  /** On every regular run the 64-bit map answers as the full set of received numbers would. */
  lemma {:induction false} RunRefines(s: State, r: Reference, nums: seq<nat>)
    requires Valid(s) && Tracks(s, r) && (s.doReplay || s.doSequence) && Regular(s, nums)
    ensures Run(s, nums) == Ideal(s.doReplay, s.doSequence, r, Relatives(s, nums))
    decreases |nums|
  {
    hide Relative, Tracks, LosesShift, Valid;
    if nums != [] {
      StatusMeans(s, r, nums[0]);
      TracksExactly(s, r, nums[0]);
      var s' := Check(s, nums[0]).0;
      SameBase(s, nums);
      RunRefines(s', Receive(r, Relative(s, nums[0])), nums[1..]);
    }
  }

  lemma SameBase(s: State, nums: seq<nat>)
    requires Valid(s) && nums != []
    ensures var s' := Check(s, nums[0]).0;
            && s'.doReplay == s.doReplay && s'.doSequence == s.doSequence
            && Relatives(s, nums)[0] == Relative(s, nums[0]) && Relatives(s, nums)[1..] == Relatives(s', nums[1..])
  {
  }

  lemma Fresh(base: nat, doReplay: bool, doSequence: bool, wide: bool)
    ensures Tracks(New(base, doReplay, doSequence, wide), Reference(0, {}))
  {
  }

  /** The map tracks the numbers received after every call of the run. */
  ghost predicate TracksThroughout(s: State, r: Reference, nums: seq<nat>)
    requires Valid(s)
    decreases |nums|
  {
    nums == [] ||
    var s', r' := Check(s, nums[0]).0, Receive(r, Relative(s, nums[0]));
    Tracks(s', r') && TracksThroughout(s', r', nums[1..])
  }

  /** The regular runs are exactly those on which the map stays right. */
  lemma {:induction false} RegularExactly(s: State, r: Reference, nums: seq<nat>)
    requires Valid(s) && Tracks(s, r) && (s.doReplay || s.doSequence)
    ensures Regular(s, nums) <==> TracksThroughout(s, r, nums)
    decreases |nums|
  {
    hide Relative, Tracks, LosesShift, Valid;
    if nums != [] {
      TracksExactly(s, r, nums[0]);
      SameBase(s, nums);
      var s', r' := Check(s, nums[0]).0, Receive(r, Relative(s, nums[0]));
      if Tracks(s', r') {
        RegularExactly(s', r', nums[1..]);
      }
    }
  }

  // ----- repeats -----

  /** The state after a run of calls. */
  function StateAfter(s: State, nums: seq<nat>): (r: State)
    requires Valid(s)
    ensures Valid(r)
    decreases |nums|
  {
    if nums == [] then s else StateAfter(Check(s, nums[0]).0, nums[1..])
  }

  /** `rel` is below the next number, and its bit is set while the map reaches down to it. */
  ghost predicate Remembered(s: State, rel: nat) {
    rel < s.next && (s.next <= rel + 64 ==> s.recvmap[s.next - rel - 1])
  }

  /** A call short of the top relative number remembers its own number and forgets none, lost shift or not. */
  lemma Remembers(s: State, num: nat, rel: nat)
    requires Valid(s) && (s.doReplay || s.doSequence) && Relative(s, num) + 1 < s.limit
    requires Remembered(s, rel) || rel == Relative(s, num)
    ensures Remembered(Check(s, num).0, rel)
  {
    hide Relative, Moved;
    var top := Relative(s, num);
    if top >= s.next {
      assert (top + 1) % s.limit == top + 1;
      if top - rel < 64 { MovedAt(s.recvmap, top - s.next, top - rel); }
    }
  }

  /** And so does a run of such calls, for the number of its first call too. */
  lemma {:induction false} StillRemembered(s: State, nums: seq<nat>, rel: nat)
    requires Valid(s) && (s.doReplay || s.doSequence)
    requires Remembered(s, rel) || (nums != [] && rel == Relative(s, nums[0]))
    requires forall i | 0 <= i < |nums| :: Relative(s, nums[i]) + 1 < s.limit
    ensures Remembered(StateAfter(s, nums), rel)
    decreases |nums|
  {
    hide Relative, Remembered, Valid;
    if nums != [] {
      Remembers(s, nums[0], rel);
      SameBase(s, nums);
      var s' := Check(s, nums[0]).0;
      forall i | 0 <= i < |nums[1..]|
        ensures Relative(s', nums[1..][i]) + 1 < s'.limit
      {
        assert Relatives(s, nums)[1..][i] == Relatives(s', nums[1..])[i];
      }
      StillRemembered(s', nums[1..], rel);
    }
  }

  lemma {:induction false} RunAt(s: State, nums: seq<nat>, k: nat)
    requires Valid(s) && k < |nums|
    ensures Run(s, nums)[k] == Check(StateAfter(s, nums[..k]), nums[k]).1
    decreases k
  {
    hide Check, Valid;
    if k > 0 {
      RunAt(Check(s, nums[0]).0, nums[1..], k - 1);
      assert nums[..k][1..] == nums[1..][..k - 1];
    }
  }

  lemma {:induction false} AfterSplit(s: State, a: seq<nat>, b: seq<nat>)
    requires Valid(s)
    ensures StateAfter(s, a + b) == StateAfter(StateAfter(s, a), b)
    decreases |a|
  {
    hide Check, Valid;
    if a == [] {
      assert a + b == b;
    } else {
      AfterSplit(Check(s, a[0]).0, a[1..], b);
      assert (a + b)[1..] == a[1..] + b;
    }
  }

  lemma {:induction false} AfterBase(s: State, nums: seq<nat>)
    requires Valid(s)
    ensures var t := StateAfter(s, nums);
            t.doReplay == s.doReplay && t.doSequence == s.doSequence && t.limit == s.limit && t.base == s.base
    decreases |nums|
  {
    if nums != [] {
      AfterBase(Check(s, nums[0]).0, nums[1..]);
    }
  }

  /** What a remembered number is answered with. */
  lemma RememberedAnswer(s: State, num: nat)
    requires Valid(s) && s.doReplay && Remembered(s, Relative(s, num))
    ensures Check(s, num).1 == if s.next <= Relative(s, num) + 64 then Duplicate else if s.doSequence then Unseq else Old
  {
    hide Relative;
  }

  /**
   * From any state, a number sent again is never reported complete a second time unless a call
   * from the first sending on took the top relative number: it is a duplicate within the last 64
   * numbers and old or out of sequence below them.
   */
  lemma CompleteOnce(s: State, nums: seq<nat>, j: nat, k: nat)
    requires Valid(s) && s.doReplay && j < k < |nums| && Relative(s, nums[j]) == Relative(s, nums[k])
    requires forall i | j <= i < k :: Relative(s, nums[i]) + 1 < s.limit
    ensures Run(s, nums)[k] == if StateAfter(s, nums[..k]).next <= Relative(s, nums[k]) + 64 then Duplicate
                               else if s.doSequence then Unseq else Old
  {
    hide Run, StateAfter, Valid, Check, Remembered;
    var rel, s', mid := Relative(s, nums[k]), StateAfter(s, nums[..j]), nums[j..k];
    AfterBase(s, nums[..j]);
    AfterBase(s, nums[..k]);
    StillRemembered(s', mid, rel);
    assert nums[..k] == nums[..j] + mid;
    AfterSplit(s, nums[..j], mid);
    RememberedAnswer(StateAfter(s, nums[..k]), nums[k]);
    RunAt(s, nums, k);
  }

  /** After a call that takes the top relative number, any number at all is answered as by a new tracker. */
  lemma WrapForgets(s: State, top: nat, num: nat)
    requires Valid(s) && (s.doReplay || s.doSequence) && Relative(s, top) + 1 == s.limit
    ensures Check(Check(s, top).0, num).1 == if Relative(s, num) > 0 && s.doSequence then Gap else Complete
  {
    hide Relative, Moved;
    SmallNext(s);
    SameBase(s, [top, num]);
    assert s.limit % s.limit == 0;
    assert Relatives(s, [top, num])[1..][0] == Relative(s, num);
  }

  /** So from a new tracker on, the top relative number sent twice is taken as new both times. */
  lemma TopTwice(base: nat, doSequence: bool, wide: bool)
    ensures var s := New(base, true, doSequence, wide);
            var top := base + s.limit - 1;
            var st := if doSequence then Gap else Complete;
            Run(s, [top, top]) == [st, st]
  {
    hide Relative, Check;
    var s := New(base, true, doSequence, wide);
    var top := base + s.limit - 1;
    SmallRelative(s, s.limit - 1);
    assert Relative(s, top) == s.limit - 1;
    WrapForgets(s, top, top);
    FirstAnswer(s, top);
    RunAt(s, [top, top], 0);
    RunAt(s, [top, top], 1);
    assert [top, top][..1] == [top];
    assert [top, top][..0] == [];
    assert StateAfter(s, [top]) == Check(s, top).0;
    assert [top, top][0] == top && [top, top][1] == top;
    var run := Run(s, [top, top]);
    assert run == [run[0], run[1]];
  }

  lemma FirstAnswer(s: State, num: nat)
    requires Valid(s) && s.next == 0 && (s.doReplay || s.doSequence)
    ensures Check(s, num).1 == if Relative(s, num) > 0 && s.doSequence then Gap else Complete
  {
    hide Relative;
  }

  /** The reference state after a run. */
  function After(r: Reference, rels: seq<nat>): Reference
    decreases |rels|
  {
    if rels == [] then r else After(Receive(r, rels[0]), rels[1..])
  }

  lemma {:induction false} IdealAt(doReplay: bool, doSequence: bool, r: Reference, rels: seq<nat>, k: nat)
    requires k < |rels|
    ensures Ideal(doReplay, doSequence, r, rels)[k] == Meaning(doReplay, doSequence, After(r, rels[..k]), rels[k])
    decreases k
  {
    if k == 0 {
      assert rels[..0] == [];
    } else {
      IdealAt(doReplay, doSequence, Receive(r, rels[0]), rels[1..], k - 1);
      assert rels[..k][1..] == rels[1..][..k - 1];
    }
  }

  lemma {:induction false} AfterHolds(r: Reference, rels: seq<nat>)
    ensures forall n :: n in After(r, rels).received <==> n in r.received || n in rels
    ensures forall n | n in rels :: n < After(r, rels).next
    ensures r.next <= After(r, rels).next
    decreases |rels|
  {
    if rels != [] {
      AfterHolds(Receive(r, rels[0]), rels[1..]);
      assert rels == [rels[0]] + rels[1..];
    }
  }

  /** In every regular run, a duplicate is reported exactly for a repeat among the last 64 numbers. */
  lemma DuplicateExactly(base: nat, doSequence: bool, wide: bool, nums: seq<nat>, k: nat)
    requires Regular(New(base, true, doSequence, wide), nums) && k < |nums|
    ensures var s := New(base, true, doSequence, wide);
            var rels := Relatives(s, nums);
            Run(s, nums)[k] == Duplicate
            <==> rels[k] in rels[..k] && After(Reference(0, {}), rels[..k]).next <= rels[k] + 64
  {
    hide Relative, Run, Ideal, Regular, After;
    var s := New(base, true, doSequence, wide);
    var rels := Relatives(s, nums);
    Fresh(base, true, doSequence, wide);
    RunRefines(s, Reference(0, {}), nums);
    IdealAt(true, doSequence, Reference(0, {}), rels, k);
    AfterHolds(Reference(0, {}), rels[..k]);
  }

  /**
   * A jump that loses its shift makes replay checking wrong: some number never received is then
   * reported as a duplicate.
   */
  lemma FalseDuplicate(s: State, r: Reference, rel: nat) returns (never: nat)
    requires Valid(s) && Tracks(s, r) && s.doReplay
    requires rel + 1 < s.limit && LosesShift(s, rel)
    ensures never !in Receive(r, rel).received && Check(Check(s, s.base + rel).0, s.base + never).1 == Duplicate
  {
    hide Moved, Shl, Set;
    SmallRelative(s, rel);
    var i :| 1 <= i < 64 && s.recvmap[i];
    never := rel - i;
    MovedAt(s.recvmap, 63, i);
    ShouldHold(s, r, rel, i);
    var s' := Check(s, s.base + rel).0;
    assert s'.next == rel + 1 && s'.recvmap[i];
    SmallRelative(s', never);
  }

  lemma SmallRelative(s: State, rel: nat)
    requires Valid(s) && rel < s.limit
    ensures Relative(s, s.base + rel) == rel
  {
  }

  /** Such a jump is reachable: 0, 1, then 65. */
  lemma LosingJumpReachable()
    ensures var s := Check(Check(New(0, true, false, true), 0).0, 1).0;
            s.next == 2 && LosesShift(s, 65)
  {
    hide Moved, Relative;
    var s0 := New(0, true, false, true);
    SmallRelative(s0, 0);
    var s1 := Check(s0, 0).0;
    MovedAt(s0.recvmap, 0, 0);
    SmallRelative(s1, 1);
    MovedAt(s1.recvmap, 0, 1);
  }
}
