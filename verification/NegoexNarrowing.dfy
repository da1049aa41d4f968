/**
 * What one call does to the mechanism list, whatever the peer sends: mechanisms only ever
 * leave it, and the initiator is left with exactly one from its second call on.
 */
module NegoexNarrowing {
  import opened Bytes
  import opened Wrappers
  import opened NegoexCodec
  import opened NegoexEngine

  /** The largest token a message with an exchange header can carry is below this. */
  const TOKEN_LIMIT := TWO32 - 64

  /** A mechanism whose tokens and metadata fit the 32-bit length fields. */
  ghost predicate Bounded(m: Mech) {
    && (forall calls :: m.queryMetaData(calls).Ok? ==> |m.queryMetaData(calls).value| < TOKEN_LIMIT)
    && (forall calls :: m.initSecContext(calls).Ok? ==> |m.initSecContext(calls).value.token| < TOKEN_LIMIT)
    && (forall calls :: m.acceptSecContext(calls).Ok? ==> |m.acceptSecContext(calls).value.token| < TOKEN_LIMIT)
    && (forall calls :: m.acceptSecContext(calls).Err? ==> |m.acceptSecContext(calls).error.token| < TOKEN_LIMIT)
  }

  ghost predicate Sane(m: AuthMech) { Bounded(m.mech) && |m.metadata| < TOKEN_LIMIT }

  ghost predicate AllSane(ms: seq<AuthMech>) { forall m | m in ms :: Sane(m) }

  /** How often each scheme occurs in a list. */
  ghost function Bag(ms: seq<AuthMech>): multiset<Guid> { multiset(Schemes(ms)) }

  /** `ms'` is `ms` with mechanisms removed, reordered or advanced, none added. */
  ghost predicate Narrows(ms': seq<AuthMech>, ms: seq<AuthMech>) {
    && Bag(ms') <= Bag(ms)
    && (AllSane(ms) ==> AllSane(ms'))
  }

  lemma BagCons(m: AuthMech, ms: seq<AuthMech>)
    ensures Bag([m] + ms) == multiset{m.scheme} + Bag(ms)
  {
    assert Schemes([m] + ms) == [m.scheme] + Schemes(ms);
  }

  lemma BagHead(ms: seq<AuthMech>)
    requires ms != []
    ensures Bag(ms) == multiset{ms[0].scheme} + Bag(ms[1..])
  {
    assert ms == [ms[0]] + ms[1..];
    BagCons(ms[0], ms[1..]);
  }

  lemma BagRemove(ms: seq<AuthMech>, i: nat)
    requires i < |ms|
    ensures Bag(ms) == multiset{ms[i].scheme} + Bag(RemoveAt(ms, i))
  {
    assert Schemes(ms) == Schemes(ms)[..i] + [ms[i].scheme] + Schemes(ms)[i + 1..];
    assert Schemes(RemoveAt(ms, i)) == Schemes(ms)[..i] + Schemes(ms)[i + 1..];
  }

  lemma BagUpdate(ms: seq<AuthMech>, i: nat, m: AuthMech)
    requires i < |ms| && m.scheme == ms[i].scheme
    ensures Schemes(ms[i := m]) == Schemes(ms)
  {
  }

  lemma NarrowsUpdate(ms: seq<AuthMech>, i: nat, m: AuthMech)
    requires i < |ms| && m.scheme == ms[i].scheme && (Sane(ms[i]) ==> Sane(m))
    ensures Narrows(ms[i := m], ms)
  {
    BagUpdate(ms, i, m);
  }

  lemma NarrowsRemove(ms: seq<AuthMech>, i: nat)
    requires i < |ms|
    ensures Narrows(RemoveAt(ms, i), ms)
  {
    BagRemove(ms, i);
  }

  lemma NarrowsSelect(ms: seq<AuthMech>, i: nat)
    requires i < |ms|
    ensures Narrows([ms[i]], ms)
  {
    BagRemove(ms, i);
    BagCons(ms[i], []);
    assert [ms[i]] + [] == [ms[i]];
  }

  lemma NarrowsTail(ms: seq<AuthMech>)
    requires ms != []
    ensures Narrows(ms[1..], ms)
  {
    BagHead(ms);
  }

  /** A head with the same scheme on a narrowed tail. */
  lemma NarrowsCons(m': AuthMech, rest': seq<AuthMech>, ms: seq<AuthMech>)
    requires ms != [] && m'.scheme == ms[0].scheme && (Sane(ms[0]) ==> Sane(m'))
    requires Narrows(rest', ms[1..])
    ensures Narrows([m'] + rest', ms)
  {
    BagHead(ms);
    BagCons(m', rest');
    assert AllSane(ms) ==> AllSane(ms[1..]);
  }

  lemma {:induction false} QueryNarrows(ms: seq<AuthMech>, initiator: bool)
    ensures Narrows(QueryAll(ms, initiator), ms)
  {
    if ms != [] {
      QueryNarrows(ms[1..], initiator);
      var m := ms[0].Ask(QueryMetaData(initiator));
      var md := m.mech.queryMetaData(m.calls);
      if md.Ok? {
        NarrowsCons(m.(metadata := md.value), QueryAll(ms[1..], initiator), ms);
      } else {
        NarrowsTail(ms);
        assert [] + QueryAll(ms[1..], initiator) == QueryAll(ms[1..], initiator);
      }
    }
  }

  lemma ExchangeOneNarrows(ms: seq<AuthMech>, initiator: bool, msg: Message)
    ensures Narrows(ExchangeOne(ms, initiator, msg), ms)
  {
    if msg.body.ExchangeBody? {
      var i := Locate(ms, msg.body.scheme);
      if i.Some? {
        NarrowsUpdate(ms, i.value, ms[i.value].Ask(ExchangeMetaData(initiator, msg.body.token)));
        NarrowsRemove(ms, i.value);
      }
    }
  }

  lemma {:induction false} ExchangeNarrows(ms: seq<AuthMech>, initiator: bool, msgs: seq<Message>)
    ensures Narrows(ExchangeAll(ms, initiator, msgs), ms)
    decreases |msgs|
  {
    hide ExchangeOne, AllSane;
    if msgs != [] {
      ExchangeOneNarrows(ms, initiator, msgs[0]);
      ExchangeNarrows(ExchangeOne(ms, initiator, msgs[0]), initiator, msgs[1..]);
    }
  }

  lemma OptimisticNarrows(ms: seq<AuthMech>, msgs: seq<Message>)
    ensures Narrows(CheckOptimistic(ms, msgs), ms)
  {
    if ms != [] {
      NarrowsSelect(ms, 0);
      NarrowsUpdate(ms, 0, ms[0].Restart());
    }
  }

  lemma AlertsNarrow(ms: seq<AuthMech>, msgs: seq<Message>)
    ensures Narrows(ProcessAlerts(ms, msgs), ms)
    ensures Schemes(ProcessAlerts(ms, msgs)) == Schemes(ms)
  {
    var a := Find(msgs, Alert);
    if a.Some? && a.value.body.AlertBody? {
      var i := Locate(ms, a.value.body.scheme);
      if i.Some? {
        NarrowsUpdate(ms, i.value, ms[i.value].KeysDropped());
        BagUpdate(ms, i.value, ms[i.value].KeysDropped());
      }
    }
  }

  lemma {:induction false} CommonNarrows(ms: seq<AuthMech>, schemes: seq<Guid>)
    ensures Narrows(Common(ms, schemes), ms)
    decreases |schemes|
  {
    if schemes != [] {
      var i := Locate(ms, schemes[0]);
      if i.Some? {
        var rest := RemoveAt(ms, i.value);
        CommonNarrows(rest, schemes[1..]);
        BagRemove(ms, i.value);
        BagCons(ms[i.value], Common(rest, schemes[1..]));
      } else {
        CommonNarrows(ms, schemes[1..]);
      }
    }
  }

  lemma {:induction false} RestrictNarrows(ms: seq<AuthMech>, schemes: seq<Guid>)
    ensures Narrows(Restrict(ms, schemes), ms)
  {
    if ms != [] {
      RestrictNarrows(ms[1..], schemes);
      if ms[0].scheme in schemes {
        NarrowsCons(ms[0], Restrict(ms[1..], schemes), ms);
      } else {
        NarrowsTail(ms);
        assert [] + Restrict(ms[1..], schemes) == Restrict(ms[1..], schemes);
      }
    }
  }

  /** A produced token fits, when the mechanism is bounded. */
  lemma {:induction false} InitFirstNarrows(ms: seq<AuthMech>, input: Option<seq<byte>>, firstErr: Option<int>)
    ensures var r := InitFirst(ms, input, firstErr);
            && Narrows(r.mechs, ms)
            && (r.result.Ok? ==> r.mechs != [] && r.mechs[0].hasContext)
            && (AllSane(ms) && r.result.Ok? ==> |r.result.value| < TOKEN_LIMIT)
    decreases |ms|
  {
    if ms != [] {
      var m := ms[0].Ask(InitSecContext(input));
      var out := m.mech.initSecContext(m.calls);
      if out.Ok? {
        NarrowsRefl(ms[1..]);
        NarrowsCons(m.Advanced(out.value), ms[1..], ms);
        assert AllSane(ms) ==> Sane(ms[0]);
      } else {
        NarrowsTail(ms);
        InitFirstNarrows(ms[1..], None, if firstErr.Some? then firstErr else Some(out.error));
      }
    }
  }

  lemma MechInitNarrows(c: Ctx, msgs: seq<Message>)
    ensures var r := MechInit(c, msgs);
            && Narrows(r.mechs, c.mechs)
            && (r.result.Ok? && r.result.value != [] ==> r.mechs != [] && r.mechs[0].hasContext)
            && (AllSane(c.mechs) && r.result.Ok? ==> |r.result.value| < TOKEN_LIMIT)
  {
    hide Narrows, AllSane, InitFirst;
    NarrowsRefl(c.mechs);
    if c.mechs != [] {
      var t := ExchangeToken(msgs, Challenge);
      InitFirstNarrows(c.mechs, if t.Some? && t.value.0 == c.mechs[0].scheme then Some(t.value.1) else None, None);
    }
  }

  lemma NarrowsRefl(ms: seq<AuthMech>)
    ensures Narrows(ms, ms)
  {
  }

  lemma Replaced(ms: seq<AuthMech>, m: AuthMech)
    requires ms != [] && m.scheme == ms[0].scheme && (Sane(ms[0]) ==> Sane(m))
    ensures Narrows(ms[0 := m], ms) && Schemes(ms[0 := m]) == Schemes(ms)
  {
    NarrowsUpdate(ms, 0, m);
    BagUpdate(ms, 0, m);
  }

  lemma AcceptFirstNarrows(ms: seq<AuthMech>, step: nat, token: seq<byte>)
    requires ms != []
    ensures var r := AcceptFirst(ms, step, token);
            && Narrows(r.mechs, ms) && Schemes(r.mechs) == Schemes(ms)
            && (AllSane(ms) ==> |r.token| < TOKEN_LIMIT)
  {
    hide Narrows, Bag;
    NarrowsRefl(ms);
    assert AllSane(ms) ==> Sane(ms[0]);
    var m := ms[0].Ask(AcceptSecContext(token));
    var out := m.mech.acceptSecContext(m.calls);
    if out.Ok? {
      Replaced(ms, m.Advanced(out.value));
    } else {
      Replaced(ms, m.Restart());
      Replaced(ms, m.(hasContext := true));
    }
  }

  lemma MechAcceptNarrows(c: Ctx, msgs: seq<Message>)
    requires c.mechs != [] || (c.step != 1 && ExchangeToken(msgs, ApRequest).Some?)
    ensures var r := MechAccept(c, msgs);
            && Narrows(r.mechs, c.mechs)
            && (AllSane(c.mechs) ==> |r.token| < TOKEN_LIMIT)
  {
    hide AcceptFirst, Bag;
    NarrowsRefl(c.mechs);
    var t := ExchangeToken(msgs, ApRequest);
    if t.Some? {
      if c.mechs != [] { AcceptFirstNarrows(c.mechs, c.step, t.value.1); }
      var i := Locate(c.mechs, t.value.0);
      if i.Some? {
        NarrowsSelect(c.mechs, i.value);
        AcceptFirstNarrows([c.mechs[i.value]], c.step, t.value.1);
      }
    }
  }

  lemma NarrowsTrans(a: seq<AuthMech>, b: seq<AuthMech>, c: seq<AuthMech>)
    requires Narrows(a, b) && Narrows(b, c)
    ensures Narrows(a, c)
  {
  }

  lemma InitNarrowNarrows(c: Ctx, msgs: seq<Message>, conv: Guid)
    ensures Narrows(InitNarrow(c, msgs, conv).0.mechs, c.mechs)
  {
    hide Narrows, ProcessAlerts, QueryAll, CheckOptimistic, ExchangeAll, Common, NegoSchemes;
    AlertsNarrow(c.mechs, msgs);
    var m1 := ProcessAlerts(c.mechs, msgs);
    QueryNarrows(m1, c.initiator);
    NarrowsTrans(QueryAll(m1, c.initiator), m1, c.mechs);
    var m2 := CheckOptimistic(m1, msgs);
    OptimisticNarrows(m1, msgs);
    NarrowsTrans(m2, m1, c.mechs);
    var m3 := ExchangeAll(m2, c.initiator, msgs);
    ExchangeNarrows(m2, c.initiator, msgs);
    NarrowsTrans(m3, m2, c.mechs);
    var schemes := NegoSchemes(msgs, AcceptorNego);
    if schemes.Ok? {
      CommonNarrows(m3, schemes.value);
      NarrowsTrans(Common(m3, schemes.value), m3, c.mechs);
    }
  }

  lemma AcceptNarrowNarrows(c: Ctx, msgs: seq<Message>)
    ensures Narrows(AcceptNarrow(c, msgs).0.mechs, c.mechs)
  {
    hide Narrows, ProcessAlerts, QueryAll, ExchangeAll, Restrict, NegoSchemes;
    AlertsNarrow(c.mechs, msgs);
    var m1 := ProcessAlerts(c.mechs, msgs);
    var schemes := NegoSchemes(msgs, InitiatorNego);
    if schemes.Ok? {
      var m2 := Restrict(m1, schemes.value);
      RestrictNarrows(m1, schemes.value);
      NarrowsTrans(m2, m1, c.mechs);
      var m3 := ExchangeAll(m2, c.initiator, msgs);
      ExchangeNarrows(m2, c.initiator, msgs);
      NarrowsTrans(m3, m2, c.mechs);
      QueryNarrows(m3, c.initiator);
      NarrowsTrans(QueryAll(m3, c.initiator), m3, c.mechs);
    }
  }

  lemma PrepareInitNarrows(c: Ctx, input: seq<byte>, conv: Guid)
    ensures var p := PrepareInit(c, input, conv);
            && Narrows(p.ctx.mechs, c.mechs)
            && (p.result.Ok? ==>
              && p.result.value.ctx == p.ctx && p.ctx.step == c.step + 1
              && p.ctx.mechs != [] && (c.step == 1 ==> |p.ctx.mechs| == 1)
              && (AllSane(c.mechs) ==> |p.result.value.out| < TOKEN_LIMIT))
  {
    hide Narrows, InitNarrow, MechInit, AllSane, ParseFrom;
    NarrowsRefl(c.mechs);
    var (c1, msgs) := Receive(c.(step := c.step + 1), input);
    if msgs.Ok? {
      InitNarrowNarrows(c1, msgs.value, conv);
      InitNarrowKeeps(c1, msgs.value, conv);
      var c2 := InitNarrow(c1, msgs.value, conv).0;
      MechInitNarrows(c2, msgs.value);
      var ms := MechInit(c2, msgs.value).mechs;
      NarrowsTrans(ms, c2.mechs, c.mechs);
      SaneThrough(c2.mechs, c.mechs);
      if ms != [] {
        NarrowsSelect(ms, 0);
        NarrowsTrans([ms[0]], ms, c.mechs);
      }
    }
  }

  lemma SaneThrough(ms': seq<AuthMech>, ms: seq<AuthMech>)
    requires Narrows(ms', ms)
    ensures AllSane(ms) ==> AllSane(ms')
  {
  }

  lemma InitNarrowKeeps(c: Ctx, msgs: seq<Message>, conv: Guid)
    ensures var r := InitNarrow(c, msgs, conv).0;
            && r.step == c.step && r.initiator == c.initiator && r.seqnum == c.seqnum && r.transcript == c.transcript
            && r.optimistic == c.optimistic && r.convId == (if c.step == 1 then conv else c.convId)
  {
  }

  lemma AcceptNarrowKeeps(c: Ctx, msgs: seq<Message>)
    ensures var r := AcceptNarrow(c, msgs).0;
            && r.step == c.step && r.initiator == c.initiator && r.seqnum == c.seqnum && r.transcript == c.transcript
            && r.convId == c.convId && r.optimistic == c.optimistic
  {
  }

  lemma PrepareAcceptNarrows(c: Ctx, input: seq<byte>)
    requires InRange(c, input)
    ensures var p := PrepareAccept(c, input);
            && Narrows(p.ctx.mechs, c.mechs)
            && (p.result.Ok? ==>
              && p.result.value.ctx == p.ctx && p.ctx.step == c.step + 1
              && p.ctx.mechs != []
              && (AllSane(c.mechs) ==> |p.result.value.out| < TOKEN_LIMIT))
  {
    hide Narrows, MechAccept, AllSane, ParseFrom, Restrict, QueryAll, ExchangeAll;
    NarrowsRefl(c.mechs);
    var (c1, msgs) := Receive(c.(step := c.step + 1), input);
    if msgs.Ok? {
      AcceptNarrowNarrows(c1, msgs.value);
      var (c2, narrowed) := AcceptNarrow(c1, msgs.value);
      SaneThrough(c2.mechs, c.mechs);
      if !c.initiator && input != [] && narrowed.Ok? {
        MechAcceptNarrows(c2, msgs.value);
        NarrowsTrans(MechAccept(c2, msgs.value).mechs, c2.mechs, c.mechs);
      }
    }
  }

  /** `ms'` differs from `ms` at most in the checksum flags of its first mechanism. */
  ghost predicate OnlyFlags(ms': seq<AuthMech>, ms: seq<AuthMech>) {
    && |ms'| == |ms| > 0 && ms'[1..] == ms[1..]
    && ms'[0].(sentChecksum := ms[0].sentChecksum, verifiedChecksum := ms[0].verifiedChecksum) == ms[0]
  }

  lemma VerifyKeeps(c: Ctx, crypto: Crypto, msgs: seq<Message>, input: seq<byte>)
    requires c.mechs != [] && OffsetsWithin(msgs, |input|)
    ensures OnlyFlags(VerifyChecksum(c, crypto, msgs, input).mechs, c.mechs)
  {
    hide EtypeOfChecksum, Find;
  }

  lemma OutputKeeps(c: Ctx, crypto: Crypto, out: seq<byte>, alert: bool, random: seq<byte>)
    requires c.mechs != []
    ensures var r := MakeOutput(c, crypto, out, alert, random).ctx;
            && OnlyFlags(r.mechs, c.mechs)
            && r.(mechs := c.mechs, seqnum := c.seqnum, transcript := c.transcript) == c
  {
    hide PlainOuts, EncodeAll, MakeChecksum;
  }

  /** The part of a call after its preparation touches only two flags of the first mechanism. */
  lemma FinishKeeps(p: Prepared, crypto: Crypto, input: seq<byte>, random: seq<byte>)
    requires p.ctx.mechs != [] && OffsetsWithin(p.msgs, |input|)
    ensures var r := Finish(p, crypto, input, random).ctx;
            && OnlyFlags(r.mechs, p.ctx.mechs)
            && r.step == p.ctx.step && r.initiator == p.ctx.initiator && r.convId == p.ctx.convId
            && r.optimistic == p.ctx.optimistic
  {
    hide VerifyChecksum, MakeOutput;
    VerifyKeeps(p.ctx, crypto, p.msgs, input);
    var v := if p.verify then VerifyChecksum(p.ctx, crypto, p.msgs, input) else Verified(p.ctx.mechs, Ok(false));
    if v.result.Ok? {
      OutputKeeps(p.ctx.(mechs := v.mechs, transcript := p.ctx.transcript + input), crypto, p.out, v.result.value, random);
    }
  }

  lemma FinishNarrows(p: Prepared, crypto: Crypto, input: seq<byte>, random: seq<byte>)
    requires p.ctx.mechs != [] && OffsetsWithin(p.msgs, |input|)
    ensures Narrows(Finish(p, crypto, input, random).ctx.mechs, p.ctx.mechs)
  {
    hide Finish;
    FinishKeeps(p, crypto, input, random);
    var r, ms := Finish(p, crypto, input, random).ctx.mechs, p.ctx.mechs;
    NarrowsUpdate(ms, 0, r[0]);
    assert r == ms[0 := r[0]];
  }

  /**
   * One `init` call on arbitrary bytes: no mechanism is added, and a success leaves a
   * non-empty list, of exactly one mechanism from the second call on.
   */
  lemma InitShrinks(c: Ctx, crypto: Crypto, input: seq<byte>, conv: Guid, random: seq<byte>)
    ensures var r := Init(c, crypto, input, conv, random);
            && Bag(r.ctx.mechs) <= Bag(c.mechs)
            && (AllSane(c.mechs) ==> AllSane(r.ctx.mechs))
            && (r.result.Ok? ==>
              && r.ctx.step == c.step + 1 && r.ctx.mechs != []
              && (c.step == 1 || (c.step > 1 && |c.mechs| == 1) ==> |r.ctx.mechs| == 1))
  {
    hide PrepareInit, Finish;
    var p := PrepareInit(c, input, conv);
    PrepareInitNarrows(c, input, conv);
    PreparedInit(c, input, conv);
    if p.result.Ok? {
      FinishKeeps(p.result.value, crypto, input, random);
      FinishNarrows(p.result.value, crypto, input, random);
      BagSize(p.ctx.mechs, c.mechs);
    }
  }

  lemma BagSize(a: seq<AuthMech>, b: seq<AuthMech>)
    requires Narrows(a, b)
    ensures |a| <= |b|
  {
    var x, y := Bag(a), Bag(b);
    assert |y| == |x| + |y - x| by { assert y == x + (y - x); }
    assert |x| == |Schemes(a)| && |y| == |Schemes(b)|;
  }

  /** One `accept` call on arbitrary bytes. */
  lemma AcceptShrinks(c: Ctx, crypto: Crypto, input: seq<byte>, random: seq<byte>)
    requires InRange(c, input)
    ensures var r := Accept(c, crypto, input, random);
            && Bag(r.ctx.mechs) <= Bag(c.mechs)
            && (AllSane(c.mechs) ==> AllSane(r.ctx.mechs))
            && (r.result.Ok? ==> r.ctx.step == c.step + 1 && r.ctx.mechs != [] && Ready(r.ctx))
  {
    hide PrepareAccept, Finish;
    var p := PrepareAccept(c, input);
    PrepareAcceptNarrows(c, input);
    PreparedAccept(c, input);
    if p.result.Ok? {
      FinishKeeps(p.result.value, crypto, input, random);
      FinishNarrows(p.result.value, crypto, input, random);
    }
  }

  /** A call after one that left no mechanism fails, whatever it is given, and leaves none. */
  lemma EmptyStaysEmpty(c: Ctx, crypto: Crypto, input: seq<byte>, random: seq<byte>)
    requires c.mechs == [] && InRange(c, input)
    ensures var r := Accept(c, crypto, input, random); r.result.Err? && r.ctx.mechs == []
  {
    hide PrepareAccept, Finish;
    var p := PrepareAccept(c, input);
    PreparedAccept(c, input);
    PrepareAcceptNarrows(c, input);
    BagSize(p.ctx.mechs, c.mechs);
  }

  // ----- whole runs against an arbitrary peer -----

  /** One call's inputs: the peer's bytes and our random bytes. */
  datatype Input = Input(token: seq<byte>, conv: Guid, random: seq<byte>)

  /** The context after feeding an endpoint arbitrary tokens, `None` once a call has failed. */
  ghost function Run(c: Ctx, crypto: Crypto, inputs: seq<Input>): Option<Ctx>
    requires Ready(c)
    decreases |inputs|
  {
    if inputs == [] then Some(c) else
    var i := inputs[0];
    var r := if c.initiator then Init(c, crypto, i.token, i.conv, i.random) else Accept(c, crypto, i.token, i.random);
    InitShrinks(c, crypto, i.token, i.conv, i.random);
    AcceptShrinks(c, crypto, i.token, i.random);
    if r.result.Err? then None else Run(r.ctx, crypto, inputs[1..])
  }

  /**
   * In every run that stops at its first error, the peer cannot add a mechanism, the list is
   * never empty, so every first-mechanism access is in range, and an initiator that has made
   * two calls holds exactly one mechanism.
   */
  lemma {:induction false} RunShrinks(c: Ctx, crypto: Crypto, inputs: seq<Input>)
    requires Ready(c) && (c.initiator && c.step >= 2 ==> |c.mechs| == 1)
    ensures var r := Run(c, crypto, inputs);
            r.Some? ==>
              && Bag(r.value.mechs) <= Bag(c.mechs)
              && r.value.step == c.step + |inputs|
              && (r.value.step >= 1 ==> r.value.mechs != [])
              && (c.initiator && r.value.step >= 2 ==> |r.value.mechs| == 1)
    decreases |inputs|
  {
    hide Init, Accept, Bag;
    if inputs != [] {
      var i := inputs[0];
      InitShrinks(c, crypto, i.token, i.conv, i.random);
      AcceptShrinks(c, crypto, i.token, i.random);
      RolesKept(c, crypto, i.token, i.conv, i.random);
      var r := if c.initiator then Init(c, crypto, i.token, i.conv, i.random) else Accept(c, crypto, i.token, i.random);
      if r.result.Ok? {
        RunShrinks(r.ctx, crypto, inputs[1..]);
      }
    }
  }

  lemma RolesKept(c: Ctx, crypto: Crypto, input: seq<byte>, conv: Guid, random: seq<byte>)
    requires Ready(c)
    ensures Init(c, crypto, input, conv, random).ctx.initiator == c.initiator
    ensures Accept(c, crypto, input, random).ctx.initiator == c.initiator
  {
    hide Finish, MechInit, MechAccept, ParseFrom, InitNarrow, AcceptNarrow;
    PreparedInit(c, input, conv);
    PreparedAccept(c, input);
    var p := PrepareInit(c, input, conv);
    if p.result.Ok? { FinishKeeps(p.result.value, crypto, input, random); }
    var q := PrepareAccept(c, input);
    if q.result.Ok? { FinishKeeps(q.result.value, crypto, input, random); }
    var (c1, msgs) := Receive(c.(step := c.step + 1), input);
    if msgs.Ok? {
      InitNarrowKeeps(c1, msgs.value, conv);
      AcceptNarrowKeeps(c1, msgs.value);
    }
  }
}
