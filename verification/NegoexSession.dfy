/**
 * One initiator and one acceptor over a channel that delivers every token unaltered: what
 * every such run keeps, for arbitrary mechanisms on both sides.
 */
module NegoexSession {
  import opened Bytes
  import opened Wrappers
  import opened NegoexCodec
  import opened NegoexEngine
  import opened NegoexNarrowing

  /** Both endpoints, the tokens sent so far, and what each side's latest call reported. */
  datatype Session = Session(i: Ctx, a: Ctx, sent: seq<seq<byte>>, iDone: bool, aDone: bool)
  {
    /** The token in flight. */
    function Wire(): seq<byte> { if sent == [] then [] else sent[|sent| - 1] }

    predicate InitiatorsTurn() { |sent| % 2 == 0 }

    /** The side that sent the token in flight. */
    function Sender(): Ctx { if InitiatorsTurn() then a else i }

    /** The side that is to receive it. */
    function Receiver(): Ctx { if InitiatorsTurn() then i else a }
  }

  ghost function Start(mi: seq<Mech>, ma: seq<Mech>, oi: bool, oa: bool): Session {
    Session(NewCtx(true, mi, oi), NewCtx(false, ma, oa), [], false, false)
  }

  ghost predicate InitiatorStep(s: Session, s': Session, crypto: Crypto, conv: Guid, random: seq<byte>) {
    var r := Init(s.i, crypto, s.Wire(), conv, random);
    && s.InitiatorsTurn() && |random| == 32 && r.result.Ok?
    && s' == s.(i := r.ctx, sent := s.sent + [r.result.value.token], iDone := r.result.value.complete)
  }

  ghost predicate AcceptorStep(s: Session, s': Session, crypto: Crypto, random: seq<byte>) {
    && !s.InitiatorsTurn() && |random| == 32 && Ready(s.a)
    && var r := Accept(s.a, crypto, s.Wire(), random);
    && r.result.Ok?
    && s' == s.(a := r.ctx, sent := s.sent + [r.result.value.token], aDone := r.result.value.complete)
  }

  /** The receiver of the last token makes one successful call on exactly that token. */
  ghost predicate Next(s: Session, s': Session, crypto: Crypto) {
    || (exists conv: Guid, random :: InitiatorStep(s, s', crypto, conv, random))
    || (exists random :: AcceptorStep(s, s', crypto, random))
  }

  /** A run: any number of successful calls from the start. */
  ghost predicate IsRun(run: seq<Session>, mi: seq<Mech>, ma: seq<Mech>, oi: bool, oa: bool, crypto: Crypto) {
    && run != [] && run[0] == Start(mi, ma, oi, oa)
    && forall k | 0 <= k < |run| - 1 :: Next(run[k], run[k + 1], crypto)
  }

  /** Sizes that the 16- and 32-bit length fields can carry. */
  ghost predicate Representable(mi: seq<Mech>, ma: seq<Mech>, crypto: Crypto) {
    && |mi| < TWO16 && |ma| < TWO16
    && (forall m | m in mi :: Bounded(m)) && (forall m | m in ma :: Bounded(m))
    && SmallChecksums(crypto)
  }

  ghost predicate SmallChecksums(crypto: Crypto) {
    forall e, k, u, d :: crypto.checksum(e, k, u, d).Some? ==> |crypto.checksum(e, k, u, d).value| < TWO32 - 80
  }

  function Concat(ts: seq<seq<byte>>): seq<byte> {
    if ts == [] then [] else Concat(ts[..|ts| - 1]) + ts[|ts| - 1]
  }

  // ----- what one call sends -----

  /** The messages of a call that makes an output token. */
  ghost function Outs(c: Ctx, crypto: Crypto, out: seq<byte>, alert: bool, random: seq<byte>): seq<Outgoing>
    requires c.mechs != []
  {
    if out == [] && c.mechs[0].sentChecksum then [] else
    var plain := PlainOuts(c, out, alert, random);
    if c.mechs[0].sentChecksum then plain else
    var v := MakeChecksum(Send(c, plain), crypto);
    if v.Ok? && v.value.Some? then plain + [v.value.value] else plain
  }

  lemma {:induction false} EncodeAllConcat(a: seq<Outgoing>, b: seq<Outgoing>, seqnum: nat, convId: Guid)
    requires seqnum < TWO32
    ensures EncodeAll(a + b, seqnum, convId) == EncodeAll(a, seqnum, convId) + EncodeAll(b, (seqnum + |a|) % TWO32, convId)
    decreases |a|
  {
    hide Encode;
    if a == [] {
      assert a + b == b;
    } else {
      EncodeAllConcat(a[1..], b, Bump(seqnum), convId);
      AdvanceStep(seqnum, |a|);
      assert (a + b)[1..] == a[1..] + b;
    }
  }

  /** Sending in two parts is sending the whole. */
  lemma SendConcat(c: Ctx, a: seq<Outgoing>, b: seq<Outgoing>)
    requires c.seqnum < TWO32
    ensures Send(Send(c, a), b) == Send(c, a + b)
  {
    hide EncodeAll;
    EncodeAllConcat(a, b, c.seqnum, c.convId);
    assert ((c.seqnum + |a|) % TWO32 + |b|) % TWO32 == (c.seqnum + |a + b|) % TWO32;
    assert c.transcript + (EncodeAll(a, c.seqnum, c.convId) + EncodeAll(b, (c.seqnum + |a|) % TWO32, c.convId))
        == c.transcript + EncodeAll(a, c.seqnum, c.convId) + EncodeAll(b, (c.seqnum + |a|) % TWO32, c.convId);
  }

  /** An output token is exactly the messages sent, and the transcript grows by them. */
  lemma OutputIsOuts(c: Ctx, crypto: Crypto, out: seq<byte>, alert: bool, random: seq<byte>)
    requires c.mechs != [] && c.seqnum < TWO32
    ensures var r := MakeOutput(c, crypto, out, alert, random);
            var os := Outs(c, crypto, out, alert, random);
            r.result.Ok? ==>
              && r.result.value == EncodeAll(os, c.seqnum, c.convId)
              && r.ctx.transcript == c.transcript + r.result.value
              && r.ctx.seqnum == (c.seqnum + |os|) % TWO32
  {
    hide PlainOuts, MakeChecksum, EncodeAll;
    var plain := PlainOuts(c, out, alert, random);
    var v := MakeChecksum(Send(c, plain), crypto);
    Seam(c.transcript, EncodeAll(plain, c.seqnum, c.convId));
    EmptyOuts(c);
    if v.Ok? && v.value.Some? {
      SendConcat(c, plain, [v.value.value]);
      Seam(c.transcript, EncodeAll(plain + [v.value.value], c.seqnum, c.convId));
    }
  }

  lemma EmptyOuts(c: Ctx)
    ensures EncodeAll([], c.seqnum, c.convId) == []
  {
  }

  /** What a message sent from context `c` may be. */
  ghost predicate Proper(o: Outgoing, c: Ctx)
    requires c.mechs != []
  {
    && o.WellTyped() && o.Fits()
    && (o.OutNego? ==> o.ty == NegoType(c.initiator))
    && (o.OutExchange? ==> o.ty == MetaType(c.initiator) || (o.ty == ContextType(c.initiator) && o.scheme == c.mechs[0].scheme))
    && (o.OutVerify? ==> o.scheme == c.mechs[0].scheme && c.mechs[0].key.Some?)
  }

  lemma {:induction false} MetaProper(ms: seq<AuthMech>, c: Ctx)
    requires AllSane(ms) && c.mechs != []
    ensures forall o | o in MetaOuts(ms, MetaType(c.initiator)) :: Proper(o, c) && o.OutExchange? && o.ty == MetaType(c.initiator)
  {
    if ms != [] {
      MetaProper(ms[1..], c);
      assert Sane(ms[0]);
    }
  }

  lemma NegoFits(c: Ctx, random: seq<byte>)
    requires c.mechs != [] && |c.mechs| < TWO16 && |random| == 32
    ensures Proper(OutNego(NegoType(c.initiator), random, Schemes(c.mechs)), c)
  {
  }

  lemma PlainProper(c: Ctx, out: seq<byte>, alert: bool, random: seq<byte>)
    requires c.mechs != [] && |c.mechs| < TWO16 && AllSane(c.mechs) && |out| < TOKEN_LIMIT && |random| == 32
    ensures forall o | o in PlainOuts(c, out, alert, random) :: Proper(o, c) && !o.OutVerify?
    ensures forall o | o in PlainOuts(c, out, alert, random) :: o.Type() == ContextType(c.initiator) ==> out != []
    ensures out != [] ==> exists o | o in PlainOuts(c, out, alert, random) :: o.Type() == ContextType(c.initiator)
  {
    hide MetaOuts, Outgoing.Fits, Outgoing.WellTyped;
    MetaProper(c.mechs, c);
    NegoFits(c, random);
    ContextFits(c, out);
    AlertFits(c);
    var o := OutExchange(ContextType(c.initiator), c.mechs[0].scheme, out);
    assert out != [] ==> o in PlainOuts(c, out, alert, random);
  }

  lemma ContextFits(c: Ctx, out: seq<byte>)
    requires c.mechs != [] && |out| < TOKEN_LIMIT
    ensures Proper(OutExchange(ContextType(c.initiator), c.mechs[0].scheme, out), c)
  {
  }

  lemma AlertFits(c: Ctx)
    requires c.mechs != []
    ensures Proper(OutAlert(c.mechs[0].scheme), c)
  {
  }

  /** What is known of the messages of one call. */
  lemma OutsProper(c: Ctx, crypto: Crypto, out: seq<byte>, alert: bool, random: seq<byte>)
    requires c.mechs != [] && |c.mechs| < TWO16 && AllSane(c.mechs) && |out| < TOKEN_LIMIT && |random| == 32
    requires SmallChecksums(crypto) && MakeOutput(c, crypto, out, alert, random).result.Ok?
    ensures var os := Outs(c, crypto, out, alert, random);
            && (forall o | o in os :: Proper(o, c))
            && (forall o | o in os :: o.Type() == ContextType(c.initiator) ==> out != [])
            && (!c.mechs[0].sentChecksum && (forall o | o in os :: o.Type() != ContextType(c.initiator) && !o.OutVerify?) ==>
                  out == [] && c.mechs[0].key.None? && !c.mechs[0].complete)
  {
    hide PlainOuts, EncodeAll, Outgoing.Fits, Outgoing.WellTyped;
    PlainProper(c, out, alert, random);
    var plain := PlainOuts(c, out, alert, random);
    var c1 := Send(c, plain);
    var v := MakeChecksum(c1, crypto);
    if v.Ok? && v.value.Some? {
      VerifyFits(c1, crypto, v.value.value);
      assert forall o | o in plain + [v.value.value] :: o in plain || o == v.value.value;
      assert v.value.value in plain + [v.value.value];
    }
  }

  lemma VerifyFits(c: Ctx, crypto: Crypto, o: Outgoing)
    requires c.mechs != [] && SmallChecksums(crypto) && MakeChecksum(c, crypto) == Ok(Some(o))
    ensures Proper(o, c) && o.OutVerify?
  {
  }

  // ----- the receiver reads what was sent -----

  lemma {:induction false} MeaningsCome(os: seq<Outgoing>, pos: nat)
    ensures |Meanings(os, pos)| == |os|
    ensures forall k | 0 <= k < |os| :: Meanings(os, pos)[k].ty == os[k].Type()
    ensures forall k | 0 <= k < |os| :: os[k].OutExchange? ==> Meanings(os, pos)[k] == os[k].Meaning(0)
    decreases |os|
  {
    hide Outgoing.Fixed, Outgoing.Payload;
    if os != [] {
      MeaningsCome(os[1..], pos + MESSAGE_HEADER_LENGTH + |os[0].Fixed()| + |os[0].Payload()|);
    }
  }

  /** A message type is found exactly when one of that type was sent. */
  lemma FoundSent(os: seq<Outgoing>, ty: MessageType)
    ensures Find(Meanings(os, 0), ty).Some? <==> exists o | o in os :: o.Type() == ty
  {
    MeaningsCome(os, 0);
    var ms := Meanings(os, 0);
    var m := Find(ms, ty);
    if m.Some? {
      var k :| 0 <= k < |ms| && ms[k] == m.value;
      assert os[k] in os;
    }
    forall k | 0 <= k < |os| && os[k].Type() == ty
      ensures m.Some?
    {
      assert ms[k] in ms;
    }
  }

  /** A context token the receiver reads carries the scheme the sender put first. */
  lemma ContextTokenScheme(os: seq<Outgoing>, c: Ctx)
    requires c.mechs != [] && forall o | o in os :: Proper(o, c)
    ensures var t := ExchangeToken(Meanings(os, 0), ContextType(c.initiator));
            t.Some? ==> t.value.0 == c.mechs[0].scheme && exists o | o in os :: o.Type() == ContextType(c.initiator)
  {
    hide Outgoing.Fits, Outgoing.WellTyped, Meanings;
    MeaningsCome(os, 0);
    var ms, ty := Meanings(os, 0), ContextType(c.initiator);
    var m := Find(ms, ty);
    if m.Some? {
      var k :| 0 <= k < |ms| && ms[k] == m.value;
      assert os[k] in os && os[k].Type() == ty;
    }
  }

  /** `Receive` on a token of ours: the messages sent, and our counter and conversation. */
  lemma ReceiveReads(r: Ctx, s: Ctx, os: seq<Outgoing>)
    requires forall o | o in os :: o.WellTyped() && o.Fits()
    requires r.seqnum < TWO32 && (r.seqnum == 0 || s.convId == r.convId)
    ensures Receive(r, EncodeAll(os, r.seqnum, s.convId))
            == (r.(convId := if os == [] then r.convId else s.convId, seqnum := (r.seqnum + |os|) % TWO32), Ok(Meanings(os, 0)))
  {
    hide ParseFrom, Meanings, EncodeAll, Outgoing.Fits, Outgoing.WellTyped;
    TokenRoundTrip([], os, r.seqnum, s.convId, r.convId);
    assert [] + EncodeAll(os, r.seqnum, s.convId) == EncodeAll(os, r.seqnum, s.convId);
  }

  // ----- the link between the two sides -----

  /** A VERIFY message is last and signs everything both sides have seen before it. */
  ghost predicate Signed(os: seq<Outgoing>, x: Ctx, y: Ctx, crypto: Crypto)
    requires y.mechs != []
  {
    forall k | 0 <= k < |os| && os[k].OutVerify? ::
      && k == |os| - 1
      && y.mechs[0].key.Some? && KnownEtype(y.mechs[0].key.value.etype)
      && os[k].cksumType == ChecksumType(y.mechs[0].key.value.etype)
      && crypto.checksum(y.mechs[0].key.value.etype, y.mechs[0].key.value.contents, KeyUsage(y.initiator, true),
                         x.transcript + EncodeAll(os[..k], x.seqnum, y.convId)) == Some(os[k].cksum)
  }

  /** `wire` is the token `y` last made, holding the messages `os`, and `x` has yet to process it. */
  ghost predicate Link(x: Ctx, y: Ctx, wire: seq<byte>, os: seq<Outgoing>, crypto: Crypto) {
    && y.mechs != [] && x.initiator != y.initiator
    && x.seqnum < TWO32 && (x.seqnum == 0 || x.convId == y.convId)
    && wire == EncodeAll(os, x.seqnum, y.convId)
    && y.transcript == x.transcript + wire
    && y.seqnum == (x.seqnum + |os|) % TWO32
    && (forall o | o in os :: Proper(o, y))
    && Signed(os, x, y, crypto)
  }

  /** The messages of the call that ends with `Finish`. */
  ghost function FinishOuts(p: Prepared, crypto: Crypto, input: seq<byte>, random: seq<byte>): seq<Outgoing>
    requires p.ctx.mechs != [] && OffsetsWithin(p.msgs, |input|)
  {
    var v := if p.verify then VerifyChecksum(p.ctx, crypto, p.msgs, input) else Verified(p.ctx.mechs, Ok(false));
    VerifyKeeps(p.ctx, crypto, p.msgs, input);
    Outs(p.ctx.(mechs := v.mechs, transcript := p.ctx.transcript + input), crypto, p.out,
         if v.result.Ok? then v.result.value else false, random)
  }

  lemma OutsSigned(x: Ctx, c: Ctx, c': Ctx, crypto: Crypto, out: seq<byte>, alert: bool, random: seq<byte>)
    requires c.mechs != [] && |c.mechs| < TWO16 && AllSane(c.mechs) && |out| < TOKEN_LIMIT && |random| == 32
    requires x.transcript == c.transcript && x.seqnum == c.seqnum && c'.convId == c.convId
    requires c'.mechs != [] && c'.mechs[0].key == c.mechs[0].key && c'.initiator == c.initiator
    ensures Signed(Outs(c, crypto, out, alert, random), x, c', crypto)
  {
    hide PlainOuts, EncodeAll, Proper;
    PlainProper(c, out, alert, random);
    var plain := PlainOuts(c, out, alert, random);
    var os := Outs(c, crypto, out, alert, random);
    assert forall j | 0 <= j < |plain| :: !plain[j].OutVerify?;
    assert |os| > |plain| ==> os[..|plain|] == plain;
  }

  /** What `Finish` sends, and what the context is afterwards. */
  lemma FinishSends(p: Prepared, crypto: Crypto, input: seq<byte>, random: seq<byte>)
    requires p.ctx.mechs != [] && OffsetsWithin(p.msgs, |input|) && |random| == 32
    requires |p.ctx.mechs| < TWO16 && AllSane(p.ctx.mechs) && |p.out| < TOKEN_LIMIT && p.ctx.seqnum < TWO32
    requires SmallChecksums(crypto) && Finish(p, crypto, input, random).result.Ok?
    ensures var r, os := Finish(p, crypto, input, random), FinishOuts(p, crypto, input, random);
            var m := p.ctx.mechs[0];
            && r.ctx.mechs != []
            && r.result.value.token == EncodeAll(os, p.ctx.seqnum, p.ctx.convId)
            && r.ctx.transcript == p.ctx.transcript + input + r.result.value.token
            && r.ctx.seqnum == (p.ctx.seqnum + |os|) % TWO32
            && (forall o | o in os :: Proper(o, r.ctx))
            && (forall x: Ctx | x.transcript == p.ctx.transcript + input && x.seqnum == p.ctx.seqnum :: Signed(os, x, r.ctx, crypto))
            && (forall o | o in os :: o.Type() == ContextType(p.ctx.initiator) ==> p.out != [])
            && (!m.sentChecksum && (forall o | o in os :: o.Type() != ContextType(p.ctx.initiator) && !o.OutVerify?) ==>
                  p.out == [] && m.key.None? && !m.complete)
  {
    hide VerifyChecksum, MakeOutput, Outs, EncodeAll, Signed, Outgoing.Fits, Outgoing.WellTyped, AllSane;
    FinishKeeps(p, crypto, input, random);
    VerifyKeeps(p.ctx, crypto, p.msgs, input);
    var v := if p.verify then VerifyChecksum(p.ctx, crypto, p.msgs, input) else Verified(p.ctx.mechs, Ok(false));
    var c := p.ctx.(mechs := v.mechs, transcript := p.ctx.transcript + input);
    FlagsSane(v.mechs, p.ctx.mechs);
    OutputIsOuts(c, crypto, p.out, v.result.value, random);
    OutsProper(c, crypto, p.out, v.result.value, random);
    var r := Finish(p, crypto, input, random);
    forall x: Ctx | x.transcript == p.ctx.transcript + input && x.seqnum == p.ctx.seqnum
      ensures Signed(Outs(c, crypto, p.out, v.result.value, random), x, r.ctx, crypto)
    {
      OutsSigned(x, c, r.ctx, crypto, p.out, v.result.value, random);
    }
    assert v.mechs[0].sentChecksum == p.ctx.mechs[0].sentChecksum by { VerifyKeepsSent(p.ctx, crypto, p.msgs, input); }
  }

  lemma VerifyKeepsSent(c: Ctx, crypto: Crypto, msgs: seq<Message>, input: seq<byte>)
    requires c.mechs != [] && OffsetsWithin(msgs, |input|)
    ensures var r := VerifyChecksum(c, crypto, msgs, input).mechs;
            r != [] && r[0].sentChecksum == c.mechs[0].sentChecksum
  {
    hide EtypeOfChecksum, Find;
  }

  lemma FlagsSane(ms': seq<AuthMech>, ms: seq<AuthMech>)
    requires OnlyFlags(ms', ms) && AllSane(ms)
    ensures AllSane(ms')
  {
    assert ms' == ms[0 := ms'[0]];
    assert Sane(ms[0]);
  }

  // ----- preparing a call -----

  lemma PrepareInitKeeps(c: Ctx, input: seq<byte>, conv: Guid)
    ensures var p := PrepareInit(c, input, conv);
            var (c1, msgs) := Receive(c.(step := c.step + 1), input);
            p.result.Ok? ==>
              && c.initiator && msgs.Ok? && p.result.value.msgs == msgs.value && p.result.value.verify
              && p.ctx == c1.(mechs := p.ctx.mechs, convId := if c.step == 0 then conv else c1.convId)
  {
    hide ParseFrom, InitNarrow, MechInit;
    var (c1, msgs) := Receive(c.(step := c.step + 1), input);
    if msgs.Ok? {
      InitNarrowKeeps(c1, msgs.value, conv);
    }
  }

  lemma PrepareAcceptKeeps(c: Ctx, input: seq<byte>)
    requires Ready(c)
    ensures var p := PrepareAccept(c, input);
            var (c1, msgs) := Receive(c.(step := c.step + 1), input);
            p.result.Ok? ==> !c.initiator && msgs.Ok? && p.result.value.msgs == msgs.value && p.ctx == c1.(mechs := p.ctx.mechs)
  {
    hide ParseFrom, MechAccept, Restrict, QueryAll, ExchangeAll, ProcessAlerts, NegoSchemes;
  }

  /** Sizes and roles that hold throughout. */
  ghost predicate Healthy(c: Ctx) { AllSane(c.mechs) && |c.mechs| < TWO16 && c.seqnum < TWO32 }

  /** Receiving a linked token and finishing the call links the two sides the other way round. */
  lemma Relay(x: Ctx, y: Ctx, wire: seq<byte>, os: seq<Outgoing>, p: Prepared, crypto: Crypto, random: seq<byte>)
    requires Link(x, y, wire, os, crypto)
    requires Healthy(p.ctx) && p.ctx.mechs != [] && |p.out| < TOKEN_LIMIT && OffsetsWithin(p.msgs, |wire|) && |random| == 32
    requires p.ctx.transcript == x.transcript && p.ctx.seqnum == y.seqnum && p.ctx.initiator == x.initiator
    requires p.ctx.convId == if os == [] then x.convId else y.convId
    requires SmallChecksums(crypto) && Finish(p, crypto, wire, random).result.Ok?
    ensures var r := Finish(p, crypto, wire, random);
            Link(y, r.ctx, r.result.value.token, FinishOuts(p, crypto, wire, random), crypto)
  {
    hide Finish, FinishOuts, EncodeAll, Signed, Outgoing.Fits, Outgoing.WellTyped, AllSane;
    FinishSends(p, crypto, wire, random);
    FinishKeeps(p, crypto, wire, random);
  }

  // ----- the first call of each side -----

  /** A mechanism that has not been used yet. */
  ghost predicate Fresh(m: AuthMech) {
    !m.complete && m.key.None? && !m.sentChecksum && !m.verifiedChecksum
  }

  ghost predicate AllFresh(ms: seq<AuthMech>) { forall m | m in ms :: Fresh(m) }

  lemma {:induction false} QueryFresh(ms: seq<AuthMech>, initiator: bool)
    requires AllFresh(ms)
    ensures AllFresh(QueryAll(ms, initiator))
  {
    if ms != [] {
      QueryFresh(ms[1..], initiator);
      assert Fresh(ms[0]);
    }
  }

  lemma {:induction false} RestrictFresh(ms: seq<AuthMech>, schemes: seq<Guid>)
    requires AllFresh(ms)
    ensures AllFresh(Restrict(ms, schemes))
  {
    if ms != [] {
      RestrictFresh(ms[1..], schemes);
      assert Fresh(ms[0]);
    }
  }

  lemma {:induction false} ExchangeFresh(ms: seq<AuthMech>, initiator: bool, msgs: seq<Message>)
    requires AllFresh(ms)
    ensures AllFresh(ExchangeAll(ms, initiator, msgs))
    decreases |msgs|
  {
    if msgs != [] {
      if msgs[0].body.ExchangeBody? {
        var i := Locate(ms, msgs[0].body.scheme);
        assert i.Some? ==> Fresh(ms[i.value]);
      }
      ExchangeFresh(ExchangeOne(ms, initiator, msgs[0]), initiator, msgs[1..]);
    }
  }

  lemma AlertsFresh(ms: seq<AuthMech>, msgs: seq<Message>)
    requires AllFresh(ms)
    ensures AllFresh(ProcessAlerts(ms, msgs))
  {
    var a := Find(msgs, Alert);
    if a.Some? && a.value.body.AlertBody? {
      var i := Locate(ms, a.value.body.scheme);
      assert i.Some? ==> Fresh(ms[i.value]);
    }
  }

  lemma {:induction false} InitFirstUnverified(ms: seq<AuthMech>, input: Option<seq<byte>>, firstErr: Option<int>)
    requires AllFresh(ms)
    ensures var r := InitFirst(ms, input, firstErr).mechs; forall m | m in r :: !m.verifiedChecksum
    decreases |ms|
  {
    if ms != [] {
      var m := ms[0].Ask(InitSecContext(input));
      var out := m.mech.initSecContext(m.calls);
      assert Fresh(ms[0]);
      assert forall m | m in ms[1..] :: Fresh(m);
      if out.Err? {
        InitFirstUnverified(ms[1..], None, if firstErr.Some? then firstErr else Some(out.error));
      }
    }
  }

  /** The initiator's first call: it has verified nothing, and a context token needs a context. */
  lemma FirstInit(c: Ctx, conv: Guid)
    requires c.initiator && c.step == 0 && AllFresh(c.mechs)
    ensures var p := PrepareInit(c, [], conv);
            p.result.Ok? ==>
              && p.result.value.msgs == [] && !p.ctx.mechs[0].verifiedChecksum
              && (p.result.value.out != [] ==> p.ctx.mechs[0].hasContext)
  {
    hide QueryAll, InitFirst, AllSane, Narrows;
    assert ParseFrom([], 0, c.seqnum, c.convId).result == Ok([]);
    assert ProcessAlerts(c.mechs, []) == c.mechs;
    var c2 := InitNarrow(c.(step := 1), [], conv).0;
    QueryFresh(c.mechs, true);
    MechInitNarrows(c2, []);
    InitFirstUnverified(c2.mechs, None, None);
    assert c2.mechs != [] ==> Fresh(c2.mechs[0]);
    var r := InitFirst(c2.mechs, None, None);
    assert r.mechs != [] ==> r.mechs[0] in r.mechs;
  }

  /** The acceptor's first call: anything it says for a mechanism answers the initiator's first choice. */
  lemma FirstAccept(c: Ctx, msgs: seq<Message>)
    requires c.mechs != [] && c.step == 1 && AllFresh(c.mechs)
    ensures var r := MechAccept(c, msgs);
            var t := ExchangeToken(msgs, ApRequest);
            && r.mechs != [] && !r.mechs[0].sentChecksum
            && (r.token != [] || r.mechs[0].key.Some? || r.mechs[0].complete ==>
                  t.Some? && r.mechs[0].scheme == t.value.0)
  {
    assert Fresh(c.mechs[0]);
  }

  lemma AcceptNarrowFresh(c: Ctx, msgs: seq<Message>)
    requires AllFresh(c.mechs)
    ensures AllFresh(AcceptNarrow(c, msgs).0.mechs)
  {
    hide Restrict, QueryAll, ExchangeAll, ProcessAlerts, AllFresh;
    AlertsFresh(c.mechs, msgs);
    var m1 := ProcessAlerts(c.mechs, msgs);
    var schemes := NegoSchemes(msgs, InitiatorNego);
    if schemes.Ok? {
      RestrictFresh(m1, schemes.value);
      ExchangeFresh(Restrict(m1, schemes.value), c.initiator, msgs);
      QueryFresh(ExchangeAll(Restrict(m1, schemes.value), c.initiator, msgs), c.initiator);
    }
  }

  // ----- later calls -----

  lemma SingleScheme(ms: seq<AuthMech>, m: AuthMech)
    requires Narrows(ms, [m]) && ms != []
    ensures |ms| == 1 && ms[0].scheme == m.scheme
  {
    BagSize(ms, [m]);
    assert [m] == [m] + [];
    BagCons(m, []);
    assert ms[0].scheme in Bag(ms) by { assert Schemes(ms)[0] in Schemes(ms); }
  }

  /** A second call answered for the first choice keeps that choice. */
  lemma SecondInit(c: Ctx, msgs: seq<Message>, conv: Guid)
    requires c.step == 2 && c.mechs != [] && c.mechs[0].hasContext
    requires Find(msgs, Challenge).Some? || Find(msgs, Verify).Some?
    ensures var c2 := InitNarrow(c, msgs, conv).0;
            forall ms: seq<AuthMech> | Narrows(ms, c2.mechs) && ms != [] :: |ms| == 1 && ms[0].scheme == c.mechs[0].scheme
  {
    hide ExchangeAll, Common, Narrows, NegoSchemes, Find;
    AlertsKeepFirst(c.mechs, msgs);
    var m1 := ProcessAlerts(c.mechs, msgs);
    var m2 := CheckOptimistic(m1, msgs);
    assert m2 == [m1[0]];
    var m3 := ExchangeAll(m2, c.initiator, msgs);
    ExchangeNarrows(m2, c.initiator, msgs);
    var schemes := NegoSchemes(msgs, AcceptorNego);
    var m4 := if schemes.Ok? then Common(m3, schemes.value) else m3;
    NarrowsRefl(m3);
    if schemes.Ok? { CommonNarrows(m3, schemes.value); }
    NarrowsTrans(m4, m3, m2);
    forall ms: seq<AuthMech> | Narrows(ms, m4) && ms != []
      ensures |ms| == 1 && ms[0].scheme == c.mechs[0].scheme
    {
      NarrowsTrans(ms, m4, m2);
      SingleScheme(ms, m1[0]);
    }
  }

  lemma AlertsKeepFirst(ms: seq<AuthMech>, msgs: seq<Message>)
    requires ms != []
    ensures var r := ProcessAlerts(ms, msgs);
            && |r| == |ms| && r[0].scheme == ms[0].scheme && r[0].hasContext == ms[0].hasContext && r[0].complete == ms[0].complete
  {
  }

  /** An acceptor past its first call either follows the AP_REQUEST or stays with a complete first choice. */
  lemma LaterAccept(c: Ctx, msgs: seq<Message>)
    requires c.mechs != [] && c.step != 1
    ensures var r := MechAccept(c, msgs);
            var t := ExchangeToken(msgs, ApRequest);
            r.result.Ok? || r.token != [] ==>
              if t.Some? then r.mechs[0].scheme == t.value.0 else c.mechs[0].complete && r.mechs == c.mechs
  {
    hide Find;
  }

  // ----- what every run keeps -----

  /** Where the two mechanism lists stand after each token; `os` are the messages in flight. */
  ghost predicate Phase(s: Session, os: seq<Outgoing>) {
    match |s.sent|
    case 0 => true
    case 1 =>
      && s.i.step == 1 && s.a.step == 0 && AllFresh(s.a.mechs) && s.i.mechs != []
      && !s.iDone && !s.aDone
      && ((exists o | o in os :: o.Type() == ApRequest) ==> s.i.mechs[0].hasContext)
    case 2 =>
      && s.i.step == 1 && s.a.step == 1 && s.i.mechs != [] && s.a.mechs != []
      && !s.iDone && (s.aDone ==> s.a.mechs[0].complete)
      && if exists o | o in os :: o.Type() == Challenge || o.Type() == Verify
         then s.i.mechs[0].hasContext && s.a.mechs[0].scheme == s.i.mechs[0].scheme
         else !s.a.mechs[0].complete
    case n =>
      && s.i.step >= 2 && s.a.step >= 1 && |s.i.mechs| == 1 && s.a.mechs != []
      && (s.aDone ==> s.a.mechs[0].complete)
      && (n >= 4 || s.a.mechs[0].complete ==> s.a.mechs[0].scheme == s.i.mechs[0].scheme)
  }

  ghost predicate Untouched(s: Session) {
    && s.i.step == 0 && s.a.step == 0 && AllFresh(s.i.mechs) && AllFresh(s.a.mechs)
    && s.i.seqnum == s.a.seqnum == 0 && s.i.transcript == s.a.transcript == []
    && !s.iDone && !s.aDone
  }

  ghost predicate Inv(s: Session, os: seq<Outgoing>, crypto: Crypto) {
    && Healthy(s.i) && Healthy(s.a) && s.i.initiator && !s.a.initiator
    && (s.sent == [] ==> Untouched(s))
    && (s.sent != [] ==>
          && Link(s.Receiver(), s.Sender(), s.Wire(), os, crypto)
          && s.Sender().transcript == Concat(s.sent)
          && Phase(s, os))
  }

  lemma PrepareInitFollows(c: Ctx, input: seq<byte>, conv: Guid)
    ensures var p := PrepareInit(c, input, conv);
            var (c1, msgs) := Receive(c.(step := c.step + 1), input);
            p.result.Ok? ==> msgs.Ok? && Narrows(p.ctx.mechs, InitNarrow(c1, msgs.value, conv).0.mechs)
  {
    hide ParseFrom, InitNarrow, MechInit, Narrows;
    var (c1, msgs) := Receive(c.(step := c.step + 1), input);
    if msgs.Ok? {
      var c2 := InitNarrow(c1, msgs.value, conv).0;
      MechInitNarrows(c2, msgs.value);
      var ms := MechInit(c2, msgs.value).mechs;
      if ms != [] {
        NarrowsSelect(ms, 0);
        NarrowsTrans([ms[0]], ms, c2.mechs);
      }
    }
  }

  lemma PrepareAcceptFollows(c: Ctx, input: seq<byte>)
    requires Ready(c)
    ensures var p := PrepareAccept(c, input);
            var (c1, msgs) := Receive(c.(step := c.step + 1), input);
            p.result.Ok? ==>
              && msgs.Ok?
              && var c2 := AcceptNarrow(c1, msgs.value).0;
              && c2.mechs != [] && c2.step == c.step + 1
              && var r := MechAccept(c2, msgs.value);
              && p.ctx.mechs == r.mechs && p.result.value.out == r.token && (r.result.Ok? || r.token != [])
  {
    hide ParseFrom, MechAccept, Restrict, QueryAll, ExchangeAll, NegoSchemes, Find, Locate;
  }

  lemma HealthKept(ms: seq<AuthMech>, c: Ctx)
    requires Healthy(c) && Narrows(ms, c.mechs)
    ensures AllSane(ms) && |ms| < TWO16
  {
    BagSize(ms, c.mechs);
  }

  lemma ConcatStep(ts: seq<seq<byte>>, t: seq<byte>)
    ensures Concat(ts + [t]) == Concat(ts) + t
  {
    assert (ts + [t])[..|ts|] == ts;
  }

  /** The call is prepared on a context that has read exactly the messages in flight. */
  lemma InitReads(s: Session, os: seq<Outgoing>, crypto: Crypto, conv: Guid) returns (p: Prepared)
    requires Inv(s, os, crypto) && s.sent != [] && s.InitiatorsTurn() && PrepareInit(s.i, s.Wire(), conv).result.Ok?
    ensures p == PrepareInit(s.i, s.Wire(), conv).result.value && p.ctx == PrepareInit(s.i, s.Wire(), conv).ctx
    ensures p.msgs == Meanings(os, 0) && OffsetsWithin(p.msgs, |s.Wire()|) && p.ctx.mechs != []
    ensures Healthy(p.ctx) && |p.out| < TOKEN_LIMIT && Narrows(p.ctx.mechs, s.i.mechs)
    ensures p.ctx.transcript == s.i.transcript && p.ctx.seqnum == s.a.seqnum && p.ctx.initiator
    ensures p.ctx.convId == (if os == [] then s.i.convId else s.a.convId) && p.ctx.step == s.i.step + 1
  {
    hide PrepareInit, Receive, EncodeAll, Meanings, AllSane, Signed, OffsetsWithin, Narrows, Outgoing.Fits, Outgoing.WellTyped;
    var r := PrepareInit(s.i, s.Wire(), conv);
    p := r.result.value;
    ReceiveReads(s.i.(step := s.i.step + 1), s.a, os);
    PrepareInitKeeps(s.i, s.Wire(), conv);
    PrepareInitNarrows(s.i, s.Wire(), conv);
    PreparedInit(s.i, s.Wire(), conv);
    HealthKept(r.ctx.mechs, s.i);
  }

  /** A run's later initiator calls keep the invariant. */
  lemma InitiatorKeeps(s: Session, s': Session, os: seq<Outgoing>, crypto: Crypto, conv: Guid, random: seq<byte>)
    returns (os': seq<Outgoing>)
    requires Inv(s, os, crypto) && s.sent != [] && SmallChecksums(crypto) && InitiatorStep(s, s', crypto, conv, random)
    ensures Inv(s', os', crypto)
  {
    hide PrepareInit, Finish, Receive, FinishOuts, Concat, Link, Narrows, AllSane, InitNarrow, OffsetsWithin, Meanings;
    var p := InitReads(s, os, crypto, conv);
    os' := FinishOuts(p, crypto, s.Wire(), random);
    var r := Finish(p, crypto, s.Wire(), random);
    Relay(s.i, s.a, s.Wire(), os, p, crypto, random);
    FinishKeeps(p, crypto, s.Wire(), random);
    FinishNarrows(p, crypto, s.Wire(), random);
    NarrowsTrans(r.ctx.mechs, p.ctx.mechs, s.i.mechs);
    HealthKept(r.ctx.mechs, s.i);
    ConcatStep(s.sent, r.result.value.token);
    InitiatorPhase(s, os, crypto, conv, p);
    LinkFacts(s, os, crypto);
    LinkedOut(s.a, r.ctx, r.result.value.token, os', crypto);
    assert s'.sent[|s'.sent| - 1] == r.result.value.token;
  }

  lemma LinkFacts(s: Session, os: seq<Outgoing>, crypto: Crypto)
    requires Inv(s, os, crypto) && s.sent != []
    ensures s.Sender().transcript == s.Receiver().transcript + s.Wire()
  {
  }

  lemma LinkedOut(x: Ctx, y: Ctx, wire: seq<byte>, os: seq<Outgoing>, crypto: Crypto)
    requires Link(x, y, wire, os, crypto)
    ensures y.transcript == x.transcript + wire && y.seqnum < TWO32
  {
  }

  /** The selection after an initiator call: one mechanism, the acceptor's if it has finished with it. */
  lemma InitiatorPhase(s: Session, os: seq<Outgoing>, crypto: Crypto, conv: Guid, p: Prepared)
    requires Inv(s, os, crypto) && s.sent != [] && s.InitiatorsTurn()
    requires PrepareInit(s.i, s.Wire(), conv) == Preparation(p.ctx, Ok(p)) && p.msgs == Meanings(os, 0)
    ensures |p.ctx.mechs| == 1
    ensures |s.sent| >= 4 || s.a.mechs[0].complete ==> p.ctx.mechs[0].scheme == s.a.mechs[0].scheme
  {
    hide PrepareInit, Receive, Narrows, AllSane, InitNarrow, Link, Meanings;
    PrepareInitNarrows(s.i, s.Wire(), conv);
    PrepareInitKeeps(s.i, s.Wire(), conv);
    if |s.sent| >= 4 {
      assert [s.i.mechs[0]] == s.i.mechs;
      SingleScheme(p.ctx.mechs, s.i.mechs[0]);
    } else {
      PrepareInitFollows(s.i, s.Wire(), conv);
      var (c1, msgs) := Receive(s.i.(step := s.i.step + 1), s.Wire());
      FoundSent(os, Challenge);
      FoundSent(os, Verify);
      if s.a.mechs[0].complete {
        SecondInit(c1, msgs.value, conv);
      }
    }
  }

  lemma AcceptReads(s: Session, os: seq<Outgoing>, crypto: Crypto) returns (p: Prepared)
    requires Inv(s, os, crypto) && s.sent != [] && !s.InitiatorsTurn() && Ready(s.a) && PrepareAccept(s.a, s.Wire()).result.Ok?
    ensures p == PrepareAccept(s.a, s.Wire()).result.value && p.ctx == PrepareAccept(s.a, s.Wire()).ctx
    ensures p.msgs == Meanings(os, 0) && OffsetsWithin(p.msgs, |s.Wire()|) && p.ctx.mechs != []
    ensures Healthy(p.ctx) && |p.out| < TOKEN_LIMIT && Narrows(p.ctx.mechs, s.a.mechs)
    ensures p.ctx.transcript == s.a.transcript && p.ctx.seqnum == s.i.seqnum && !p.ctx.initiator
    ensures p.ctx.convId == (if os == [] then s.a.convId else s.i.convId) && p.ctx.step == s.a.step + 1
  {
    hide PrepareAccept, Receive, EncodeAll, Meanings, AllSane, Signed, OffsetsWithin, Narrows, Outgoing.Fits, Outgoing.WellTyped;
    var r := PrepareAccept(s.a, s.Wire());
    p := r.result.value;
    ReceiveReads(s.a.(step := s.a.step + 1), s.i, os);
    PrepareAcceptKeeps(s.a, s.Wire());
    PrepareAcceptNarrows(s.a, s.Wire());
    PreparedAccept(s.a, s.Wire());
    HealthKept(r.ctx.mechs, s.a);
  }

  /** Every acceptor call of a run keeps the invariant. */
  lemma AcceptorKeeps(s: Session, s': Session, os: seq<Outgoing>, crypto: Crypto, random: seq<byte>)
    returns (os': seq<Outgoing>)
    requires Inv(s, os, crypto) && s.sent != [] && SmallChecksums(crypto) && AcceptorStep(s, s', crypto, random)
    ensures Inv(s', os', crypto)
  {
    hide PrepareAccept, Finish, Receive, FinishOuts, Concat, Link, Narrows, AllSane, AcceptNarrow, OffsetsWithin, Meanings, AllFresh;
    var p := AcceptReads(s, os, crypto);
    os' := FinishOuts(p, crypto, s.Wire(), random);
    var r := Finish(p, crypto, s.Wire(), random);
    Relay(s.a, s.i, s.Wire(), os, p, crypto, random);
    FinishKeeps(p, crypto, s.Wire(), random);
    FinishNarrows(p, crypto, s.Wire(), random);
    NarrowsTrans(r.ctx.mechs, p.ctx.mechs, s.a.mechs);
    HealthKept(r.ctx.mechs, s.a);
    ConcatStep(s.sent, r.result.value.token);
    LinkFacts(s, os, crypto);
    LinkedOut(s.i, r.ctx, r.result.value.token, os', crypto);
    assert s'.sent[|s'.sent| - 1] == r.result.value.token;
    FinishDone(p, crypto, s.Wire(), random);
    if |s.sent| == 1 {
      FirstAcceptorPhase(s, os, crypto, p);
      FirstAcceptorSent(p, crypto, s.Wire(), random);
    } else {
      AcceptorPhase(s, os, crypto, p);
    }
  }

  lemma FinishDone(p: Prepared, crypto: Crypto, input: seq<byte>, random: seq<byte>)
    requires p.ctx.mechs != [] && OffsetsWithin(p.msgs, |input|)
    ensures var r := Finish(p, crypto, input, random);
            r.result.Ok? ==> r.ctx.mechs != [] && r.result.value.complete == Done(r.ctx.mechs)
  {
    hide VerifyChecksum, MakeOutput;
    FinishKeeps(p, crypto, input, random);
    VerifyKeeps(p.ctx, crypto, p.msgs, input);
  }

  /** After the acceptor's first call: a CHALLENGE or VERIFY answers the initiator's first choice. */
  lemma FirstAcceptorPhase(s: Session, os: seq<Outgoing>, crypto: Crypto, p: Prepared)
    requires Inv(s, os, crypto) && |s.sent| == 1 && Ready(s.a)
    requires PrepareAccept(s.a, s.Wire()) == Preparation(p.ctx, Ok(p)) && p.msgs == Meanings(os, 0)
    ensures p.ctx.mechs != [] && !p.ctx.mechs[0].sentChecksum
    ensures p.out != [] || p.ctx.mechs[0].key.Some? || p.ctx.mechs[0].complete ==>
              s.i.mechs[0].hasContext && p.ctx.mechs[0].scheme == s.i.mechs[0].scheme
  {
    hide PrepareAccept, Receive, AllSane, AcceptNarrow, MechAccept, ExchangeToken, Meanings, AllFresh;
    PrepareAcceptFollows(s.a, s.Wire());
    PrepareAcceptKeeps(s.a, s.Wire());
    var (c1, msgs) := Receive(s.a.(step := 1), s.Wire());
    AcceptNarrowFresh(c1, msgs.value);
    FirstAccept(AcceptNarrow(c1, msgs.value).0, msgs.value);
    ContextTokenScheme(os, s.i);
  }

  lemma FirstAcceptorSent(p: Prepared, crypto: Crypto, wire: seq<byte>, random: seq<byte>)
    requires p.ctx.mechs != [] && OffsetsWithin(p.msgs, |wire|) && |random| == 32 && !p.ctx.initiator
    requires Healthy(p.ctx) && |p.out| < TOKEN_LIMIT && !p.ctx.mechs[0].sentChecksum
    requires SmallChecksums(crypto) && Finish(p, crypto, wire, random).result.Ok?
    ensures var os := FinishOuts(p, crypto, wire, random);
            if exists o | o in os :: o.Type() == Challenge || o.Type() == Verify
            then p.out != [] || p.ctx.mechs[0].key.Some?
            else !p.ctx.mechs[0].complete
  {
    hide Finish, FinishOuts, EncodeAll, Signed, Outgoing.Fits, AllSane;
    FinishSends(p, crypto, wire, random);
    FinishKeeps(p, crypto, wire, random);
  }

  /** After later acceptor calls both sides hold the same first mechanism. */
  lemma AcceptorPhase(s: Session, os: seq<Outgoing>, crypto: Crypto, p: Prepared)
    requires Inv(s, os, crypto) && |s.sent| >= 3 && !s.InitiatorsTurn() && Ready(s.a)
    requires PrepareAccept(s.a, s.Wire()) == Preparation(p.ctx, Ok(p)) && p.msgs == Meanings(os, 0)
    ensures p.ctx.mechs != [] && p.ctx.mechs[0].scheme == s.i.mechs[0].scheme
  {
    hide PrepareAccept, Receive, AllSane, MechAccept, ExchangeToken, Meanings, Restrict, QueryAll, ExchangeAll, ProcessAlerts;
    PrepareAcceptFollows(s.a, s.Wire());
    PrepareAcceptKeeps(s.a, s.Wire());
    var (c1, msgs) := Receive(s.a.(step := s.a.step + 1), s.Wire());
    var c2 := AcceptNarrow(c1, msgs.value).0;
    AlertsKeepFirst(c1.mechs, msgs.value);
    LaterAccept(c2, msgs.value);
    ContextTokenScheme(os, s.i);
  }

  /** The initiator's first call establishes the link. */
  lemma FirstCall(s: Session, s': Session, crypto: Crypto, conv: Guid, random: seq<byte>) returns (os': seq<Outgoing>)
    requires Inv(s, [], crypto) && s.sent == [] && SmallChecksums(crypto) && InitiatorStep(s, s', crypto, conv, random)
    ensures Inv(s', os', crypto)
  {
    hide PrepareInit, Finish, Receive, FinishOuts, EncodeAll, Signed, AllSane, OffsetsWithin, AllFresh, Narrows, Outgoing.Fits, Outgoing.WellTyped;
    var q := PrepareInit(s.i, [], conv);
    var p := q.result.value;
    PrepareInitKeeps(s.i, [], conv);
    PrepareInitNarrows(s.i, [], conv);
    PreparedInit(s.i, [], conv);
    EmptyReceive(s.i.(step := 1));
    HealthKept(q.ctx.mechs, s.i);
    FirstInit(s.i, conv);
    os' := FinishOuts(p, crypto, [], random);
    var r := Finish(p, crypto, [], random);
    FinishSends(p, crypto, [], random);
    FinishKeeps(p, crypto, [], random);
    FinishNarrows(p, crypto, [], random);
    NarrowsTrans(r.ctx.mechs, p.ctx.mechs, s.i.mechs);
    HealthKept(r.ctx.mechs, s.i);
    NothingVerified(p, crypto, random);
    assert p.ctx.transcript + [] == s.a.transcript;
    assert s'.sent == [r.result.value.token];
    assert Concat(s'.sent) == r.result.value.token;
  }

  lemma EmptyReceive(c: Ctx)
    ensures Receive(c, []) == (c, Ok([]))
  {
  }

  /** Without a message to check, nothing becomes verified. */
  lemma NothingVerified(p: Prepared, crypto: Crypto, random: seq<byte>)
    requires p.ctx.mechs != [] && p.msgs == [] && !p.ctx.mechs[0].verifiedChecksum
    ensures var r := Finish(p, crypto, [], random);
            r.ctx.mechs != [] && !r.ctx.mechs[0].verifiedChecksum && (r.result.Ok? ==> !r.result.value.complete)
  {
    hide PlainOuts, EncodeAll, MakeChecksum;
  }

  lemma StartInv(mi: seq<Mech>, ma: seq<Mech>, oi: bool, oa: bool, crypto: Crypto)
    requires Representable(mi, ma, crypto)
    ensures Inv(Start(mi, ma, oi, oa), [], crypto)
  {
    assert forall m | m in NewMechs(mi) :: exists k :: 0 <= k < |mi| && m == NewMech(mi[k]);
    assert forall m | m in NewMechs(ma) :: exists k :: 0 <= k < |ma| && m == NewMech(ma[k]);
  }

  /** Every state of every run satisfies the invariant. */
  lemma {:induction false} RunInv(run: seq<Session>, mi: seq<Mech>, ma: seq<Mech>, oi: bool, oa: bool, crypto: Crypto)
    returns (os: seq<Outgoing>)
    requires Representable(mi, ma, crypto) && IsRun(run, mi, ma, oi, oa, crypto)
    ensures Inv(run[|run| - 1], os, crypto)
    decreases |run|
  {
    hide Inv, InitiatorStep, AcceptorStep;
    if |run| == 1 {
      StartInv(mi, ma, oi, oa, crypto);
      os := [];
    } else {
      var k := |run| - 2;
      var s, s' := run[k], run[k + 1];
      assert run[..k + 1][|run[..k + 1]| - 1] == s;
      os := RunInv(run[..k + 1], mi, ma, oi, oa, crypto);
      assert Next(run[k], run[k + 1], crypto);
      os := NextInv(s, s', os, crypto);
    }
  }

  lemma NextInv(s: Session, s': Session, os: seq<Outgoing>, crypto: Crypto) returns (os': seq<Outgoing>)
    requires Inv(s, os, crypto) && SmallChecksums(crypto) && Next(s, s', crypto)
    ensures Inv(s', os', crypto)
  {
    hide Init, Accept, Link, Phase, Healthy, Untouched;
    if conv: Guid, random :| InitiatorStep(s, s', crypto, conv, random) {
      if s.sent == [] {
        os' := FirstCall(s, s', crypto, conv, random);
      } else {
        os' := InitiatorKeeps(s, s', os, crypto, conv, random);
      }
    } else {
      var random :| AcceptorStep(s, s', crypto, random);
      os' := AcceptorKeeps(s, s', os, crypto, random);
    }
  }

  // ----- the theorems -----

  /**
   * In every run, once both sides' latest calls report completion they hold the same scheme,
   * and the initiator holds nothing else, despite optimistic tokens, restarts, metadata
   * removals and re-selection.
   */
  lemma CompleteMeansAgreed(run: seq<Session>, mi: seq<Mech>, ma: seq<Mech>, oi: bool, oa: bool, crypto: Crypto)
    requires Representable(mi, ma, crypto) && IsRun(run, mi, ma, oi, oa, crypto)
    ensures var s := run[|run| - 1];
            s.iDone && s.aDone ==>
              |s.i.mechs| == 1 && s.a.mechs != [] && s.a.mechs[0].scheme == s.i.mechs[0].scheme
  {
    hide IsRun, Link;
    var os := RunInv(run, mi, ma, oi, oa, crypto);
  }

  /** From the acceptor's second call on they agree whether or not they have completed. */
  lemma AgreedAfterTwoCalls(run: seq<Session>, mi: seq<Mech>, ma: seq<Mech>, oi: bool, oa: bool, crypto: Crypto)
    requires Representable(mi, ma, crypto) && IsRun(run, mi, ma, oi, oa, crypto)
    ensures var s := run[|run| - 1];
            |s.sent| >= 4 ==> |s.i.mechs| == 1 && s.a.mechs != [] && s.a.mechs[0].scheme == s.i.mechs[0].scheme
  {
    hide IsRun, Link;
    var os := RunInv(run, mi, ma, oi, oa, crypto);
  }

  /**
   * In every run, the side that sent the last token has the concatenation of all tokens as its
   * transcript, and the other side's transcript is that without the token in flight. Reading that
   * token makes the counters equal, and the conversation IDs too unless it holds no message.
   */
  lemma TranscriptsAgree(run: seq<Session>, mi: seq<Mech>, ma: seq<Mech>, oi: bool, oa: bool, crypto: Crypto)
    returns (n: nat)
    requires Representable(mi, ma, crypto) && IsRun(run, mi, ma, oi, oa, crypto) && |run| > 1
    ensures var s := run[|run| - 1];
            && |s.sent| == |run| - 1
            && s.Sender().transcript == Concat(s.sent)
            && s.Sender().transcript == s.Receiver().transcript + s.Wire()
            && s.Receiver().transcript == Concat(s.sent[..|s.sent| - 1])
            && s.Sender().seqnum == (s.Receiver().seqnum + n) % TWO32
            && (s.Receiver().seqnum != 0 ==> s.Receiver().convId == s.Sender().convId)
            && var read := ParseFrom(s.Wire(), 0, s.Receiver().seqnum, s.Receiver().convId);
            && read.result.Ok? && n == |read.result.value|
            && read.seqnum == s.Sender().seqnum
            && (n > 0 ==> read.convId == s.Sender().convId)
  {
    hide EncodeAll, Meanings, ParseFrom, Signed, Phase, Outgoing.Fits, Outgoing.WellTyped, Next;
    var os := RunInv(run, mi, ma, oi, oa, crypto);
    var s := run[|run| - 1];
    TokensSent(run, mi, ma, oi, oa, crypto);
    n := |os|;
    ReceiveReads(s.Receiver(), s.Sender(), os);
    MeaningsCome(os, 0);
    var t := Concat(s.sent[..|s.sent| - 1]);
    assert t + s.Wire() == s.Receiver().transcript + s.Wire();
    assert (t + s.Wire())[..|t|] == t && (s.Receiver().transcript + s.Wire())[..|t|] == s.Receiver().transcript;
  }

  /** Each call of a run sends one token. */
  lemma {:induction false} TokensSent(run: seq<Session>, mi: seq<Mech>, ma: seq<Mech>, oi: bool, oa: bool, crypto: Crypto)
    requires IsRun(run, mi, ma, oi, oa, crypto)
    ensures |run[|run| - 1].sent| == |run| - 1
    decreases |run|
  {
    hide Init, Accept;
    if |run| > 1 {
      var k := |run| - 2;
      assert run[..k + 1][|run[..k + 1]| - 1] == run[k];
      TokensSent(run[..k + 1], mi, ma, oi, oa, crypto);
      assert Next(run[k], run[k + 1], crypto);
    }
  }

  /** The k-th message read is the k-th sent, found where the messages before it end. */
  lemma {:induction false} MeaningAt(os: seq<Outgoing>, pos: nat, seqnum: nat, convId: Guid, k: nat)
    requires k < |os|
    ensures |Meanings(os, pos)| == |os|
    ensures Meanings(os, pos)[k] == os[k].Meaning(pos + |EncodeAll(os[..k], seqnum, convId)|)
    decreases k
  {
    hide Outgoing.Fixed, Outgoing.Payload, Outgoing.Meaning, Encode;
    MeaningsCome(os, pos);
    if k == 0 {
      assert os[..0] == [];
    } else {
      EncodeLength(os[0], seqnum, convId);
      var next := pos + |Encode(os[0], seqnum, convId)|;
      MeaningAt(os[1..], next, Bump(seqnum), convId, k - 1);
      assert os[..k][1..] == os[1..][..k - 1];
    }
  }

  /**
   * The bytes the receiver rebuilds are the bytes the sender signed, under the same key usage:
   * with equal keys an honest VERIFY message is never rejected.
   */
  lemma HonestVerify(x: Ctx, y: Ctx, wire: seq<byte>, os: seq<Outgoing>, c: Ctx, crypto: Crypto)
    requires Link(x, y, wire, os, crypto)
    requires c.mechs != [] && c.transcript == x.transcript && c.initiator == x.initiator && OffsetsWithin(Meanings(os, 0), |wire|)
    requires c.mechs[0].verifyKey.Some? && y.mechs[0].key.Some? ==>
               c.mechs[0].verifyKey.value.contents == y.mechs[0].key.value.contents
    ensures var r := VerifyChecksum(c, crypto, Meanings(os, 0), wire);
            && r.result.Ok?
            && ((exists o | o in os :: o.OutVerify?) && c.mechs[0].scheme == y.mechs[0].scheme && c.mechs[0].verifyKey.Some? ==>
                  r.mechs != [] && r.mechs[0].verifiedChecksum)
  {
    hide Meanings, EncodeAll, OffsetsWithin, Link, Outgoing.Fits, Outgoing.WellTyped;
    var v := Find(Meanings(os, 0), Verify);
    FoundSent(os, Verify);
    if v.Some? {
      var k := SignedBytes(x, y, wire, os, v.value, crypto);
    }
  }

  /** The VERIFY message the receiver finds: it signs the receiver's transcript and what precedes it. */
  lemma SignedBytes(x: Ctx, y: Ctx, wire: seq<byte>, os: seq<Outgoing>, m: Message, crypto: Crypto) returns (k: nat)
    requires Link(x, y, wire, os, crypto) && m in Meanings(os, 0) && m.ty == Verify
    ensures k < |os| && os[k].OutVerify? && m.body.VerifyBody? && m.body.offset <= |wire|
    ensures m.body.scheme == y.mechs[0].scheme && y.mechs[0].key.Some? && m.body.cksum == os[k].cksum
    ensures var key := y.mechs[0].key.value;
            && EtypeOfChecksum(m.body.cksumType) == Some(key.etype)
            && crypto.checksum(key.etype, key.contents, KeyUsage(x.initiator, false), x.transcript + wire[..m.body.offset])
               == Some(m.body.cksum)
  {
    hide Meanings, EncodeAll, Outgoing.Fits, Outgoing.Fixed, Outgoing.Payload;
    MeaningsCome(os, 0);
    k :| 0 <= k < |Meanings(os, 0)| && Meanings(os, 0)[k] == m;
    MeaningAt(os, 0, x.seqnum, y.convId, k);
    EncodeAllConcat(os[..k], os[k..], x.seqnum, y.convId);
    assert os[..k] + os[k..] == os;
    Seam(EncodeAll(os[..k], x.seqnum, y.convId), EncodeAll(os[k..], (x.seqnum + k) % TWO32, y.convId));
    assert Proper(os[k], y);
  }

  /** The key the receiver of the token in flight will check it with, once its call is prepared. */
  ghost predicate KeysMatch(s: Session, conv: Guid)
    requires s.Sender().mechs != [] && Ready(s.a)
  {
    var p := if s.InitiatorsTurn() then PrepareInit(s.i, s.Wire(), conv) else PrepareAccept(s.a, s.Wire());
    p.result.Ok? && p.ctx.mechs != [] && p.ctx.mechs[0].verifyKey.Some? && s.Sender().mechs[0].key.Some? ==>
      p.ctx.mechs[0].verifyKey.value.contents == s.Sender().mechs[0].key.value.contents
  }

  /** In every run, no call on keys that match fails for its checksum. */
  lemma HonestVerifyNeverRejected(run: seq<Session>, mi: seq<Mech>, ma: seq<Mech>, oi: bool, oa: bool, crypto: Crypto,
                                  conv: Guid, random: seq<byte>)
    requires Representable(mi, ma, crypto) && IsRun(run, mi, ma, oi, oa, crypto) && |run| > 1
    ensures var s := run[|run| - 1];
            && s.Sender().mechs != [] && Ready(s.a)
            && (KeysMatch(s, conv) ==>
                  if s.InitiatorsTurn()
                  then Init(s.i, crypto, s.Wire(), conv, random).result != Err(Negoex(InvalidChecksum))
                  else Accept(s.a, crypto, s.Wire(), random).result != Err(Negoex(InvalidChecksum)))
  {
    hide PrepareInit, PrepareAccept, Finish, Link, AllSane, Narrows, Meanings, OffsetsWithin, Next;
    var os := RunInv(run, mi, ma, oi, oa, crypto);
    TokensSent(run, mi, ma, oi, oa, crypto);
    var s := run[|run| - 1];
    SenderHasMech(s, os, crypto);
    if KeysMatch(s, conv) {
      if s.InitiatorsTurn() {
        PrepareInitError(s.i, s.Wire(), conv);
        if PrepareInit(s.i, s.Wire(), conv).result.Ok? {
          var p := InitReads(s, os, crypto, conv);
          HonestVerify(s.i, s.a, s.Wire(), os, p.ctx, crypto);
          FinishError(p, crypto, s.Wire(), random);
        }
      } else {
        PrepareAcceptError(s.a, s.Wire());
        if PrepareAccept(s.a, s.Wire()).result.Ok? {
          var p := AcceptReads(s, os, crypto);
          HonestVerify(s.a, s.i, s.Wire(), os, p.ctx, crypto);
          FinishError(p, crypto, s.Wire(), random);
        }
      }
    }
  }

  lemma SenderHasMech(s: Session, os: seq<Outgoing>, crypto: Crypto)
    requires Inv(s, os, crypto) && s.sent != []
    ensures s.Sender().mechs != [] && Ready(s.a)
  {
  }

  /** Only the checksum test reports a bad checksum. */
  lemma FinishError(p: Prepared, crypto: Crypto, input: seq<byte>, random: seq<byte>)
    requires p.ctx.mechs != [] && OffsetsWithin(p.msgs, |input|)
    requires VerifyChecksum(p.ctx, crypto, p.msgs, input).result.Ok?
    ensures Finish(p, crypto, input, random).result != Err(Negoex(InvalidChecksum))
  {
    hide VerifyChecksum, PlainOuts, EncodeAll;
    VerifyKeeps(p.ctx, crypto, p.msgs, input);
  }

  lemma {:induction false} ParseError(token: seq<byte>, pos: nat, seqnum: nat, convId: Guid)
    requires pos <= |token|
    ensures ParseFrom(token, pos, seqnum, convId).result != Err(InvalidChecksum)
    decreases |token| - pos
  {
    hide ParseMessage;
    if pos < |token| {
      MessageError(token, pos, seqnum, convId);
      var m := ParseMessage(token, pos, seqnum, convId);
      if m.result.Ok? {
        ParseError(token, m.result.value.1, Bump(seqnum), m.convId);
      }
    }
  }

  lemma MessageError(token: seq<byte>, pos: nat, seqnum: nat, convId: Guid)
    requires pos <= |token|
    ensures ParseMessage(token, pos, seqnum, convId).result != Err(InvalidChecksum)
  {
    hide ReadPrologue, ScanAlerts, VectorBase, HasCritical, Guids, FromLe;
    ScanError(Open([]), 0, [], false);
    forall a: NegoexCodec.Input, n: nat, msg: seq<byte>
      ensures ScanAlerts(a, n, msg, false) != Err(InvalidChecksum)
    {
      ScanError(a, n, msg, false);
    }
  }

  lemma {:induction false} ScanError(a: NegoexCodec.Input, n: nat, msg: seq<byte>, noKey: bool)
    ensures ScanAlerts(a, n, msg, noKey) != Err(InvalidChecksum)
    decreases n
  {
    hide VectorBase;
    if n > 0 {
      ScanError(a.Skip(4).Skip(4).Skip(4), n - 1, msg, true);
      ScanError(a.Skip(4).Skip(4).Skip(4), n - 1, msg, noKey);
    }
  }

  lemma PrepareInitError(c: Ctx, input: seq<byte>, conv: Guid)
    ensures PrepareInit(c, input, conv).result != Err(Negoex(InvalidChecksum))
  {
    hide ParseFrom, ExchangeAll, QueryAll, Common, ProcessAlerts, CheckOptimistic, InitFirst, Find, ExchangeToken;
    ParseError(input, 0, c.seqnum, c.convId);
    forall ms: seq<AuthMech>, t: Option<seq<byte>>
      ensures InitFirst(ms, t, None).result != Err(Negoex(InvalidChecksum))
    {
      InitFirstError(ms, t, None);
    }
  }

  lemma {:induction false} InitFirstError(ms: seq<AuthMech>, input: Option<seq<byte>>, firstErr: Option<int>)
    ensures InitFirst(ms, input, firstErr).result != Err(Negoex(InvalidChecksum))
    decreases |ms|
  {
    if ms != [] {
      var m := ms[0].Ask(InitSecContext(input));
      var out := m.mech.initSecContext(m.calls);
      if out.Err? {
        InitFirstError(ms[1..], None, if firstErr.Some? then firstErr else Some(out.error));
      }
    }
  }

  lemma PrepareAcceptError(c: Ctx, input: seq<byte>)
    requires Ready(c)
    ensures PrepareAccept(c, input).result != Err(Negoex(InvalidChecksum))
  {
    hide ParseFrom, ExchangeAll, QueryAll, Restrict, ProcessAlerts, Find, Locate, ExchangeToken;
    ParseError(input, 0, c.seqnum, c.convId);
  }
}
