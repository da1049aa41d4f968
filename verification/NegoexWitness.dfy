/** A NegoEx run that completes on both sides, so that what is said of completed runs is said of something. */
module NegoexWitness {
  import opened Bytes
  import opened Wrappers
  import opened NegoexCodec
  import opened NegoexEngine
  import opened NegoexNarrowing
  import opened NegoexSession

  function SessionKey(): Key { Key(17, []) }

  /** A mechanism that is complete with one token from the initiator. */
  function OneToken(g: Guid): Mech {
    Mech(g, _ => Ok([]), _ => true, _ => Ok(MechOutput([1], true)), _ => Ok(MechOutput([], true)),
         _ => Some(SessionKey()), _ => Some(SessionKey()))
  }

  function EmptySums(): Crypto { Crypto((_, _, _, _) => Some([])) }

  /** The mechanism is complete and has its keys. */
  ghost predicate Up(m: AuthMech, g: Guid, sent: bool) {
    && m.mech == OneToken(g) && m.scheme == g && m.metadata == [] && m.hasContext && m.complete
    && m.key == Some(SessionKey()) && m.verifyKey == Some(SessionKey()) && m.sentChecksum == sent
  }

  /** The messages of an output token that ends with a VERIFY message. */
  ghost function WithVerify(g: Guid, os: seq<Outgoing>): seq<Outgoing> { os + [OutVerify(g, 15, [])] }

  lemma FirstOutput(c: Ctx, g: Guid, out: seq<byte>, random: seq<byte>)
    requires c.mechs != [] && |c.mechs| == 1 && Up(c.mechs[0], g, false) && c.step == 1 && c.seqnum < TWO32
    ensures var nego := [OutNego(NegoType(c.initiator), random, [g])];
            var os := WithVerify(g, nego + if out != [] then [OutExchange(ContextType(c.initiator), g, out)] else []);
            var r := MakeOutput(c, EmptySums(), out, false, random);
            && r.result == Ok(EncodeAll(os, c.seqnum, c.convId))
            && r.ctx.mechs == [c.mechs[0].(sentChecksum := true)]
            && r.ctx.seqnum == (c.seqnum + |os|) % TWO32 && r.ctx.convId == c.convId
            && r.ctx.step == 1 && r.ctx.initiator == c.initiator && r.ctx.optimistic == c.optimistic
  {
    hide EncodeAll;
    assert Schemes(c.mechs) == [g];
    assert MetaOuts(c.mechs, MetaType(c.initiator)) == [] by { assert c.mechs[1..] == []; }
    var plain := [OutNego(NegoType(c.initiator), random, [g])] + if out != [] then [OutExchange(ContextType(c.initiator), g, out)] else [];
    assert PlainOuts(c, out, false, random) == plain;
    assert Outs(c, EmptySums(), out, false, random) == WithVerify(g, plain);
    OutputIsOuts(c, EmptySums(), out, false, random);
  }

  /** A VERIFY message is accepted by a mechanism that is up. */
  lemma Verifies(c: Ctx, g: Guid, msgs: seq<Message>, input: seq<byte>, pos: nat)
    requires c.mechs != [] && Up(c.mechs[0], g, c.mechs[0].sentChecksum) && OffsetsWithin(msgs, |input|)
    requires Find(msgs, Verify) == Some(Message(Verify, VerifyBody(g, 15, [], pos)))
    ensures VerifyChecksum(c, EmptySums(), msgs, input)
            == Verified(c.mechs[0 := c.mechs[0].(verifiedChecksum := true)], Ok(false))
  {
  }

  lemma {:induction false} NoMetaData(mechs: seq<AuthMech>, initiator: bool, msgs: seq<Message>)
    requires forall m | m in msgs :: m.ty != PeerMetaData(initiator)
    ensures ExchangeAll(mechs, initiator, msgs) == mechs
    decreases |msgs|
  {
    if msgs != [] { NoMetaData(mechs, initiator, msgs[1..]); }
  }

  lemma OneAsked(m: AuthMech, initiator: bool, g: Guid)
    requires m.mech == OneToken(g) && m.scheme == g
    ensures QueryAll([m], initiator) == [m.Ask(QueryMetaData(initiator)).(metadata := [])] && Restrict([m], [g]) == [m]
  {
    assert [m][1..] == [];
  }

  lemma FindFirst(m: Message, rest: seq<Message>, ty: MessageType)
    ensures Find([m] + rest, ty) == if m.ty == ty then Some(m) else Find(rest, ty)
  {
    assert ([m] + rest)[1..] == rest;
  }

  lemma Find2(a: Message, b: Message, ty: MessageType)
    ensures Find([a, b], ty) == if a.ty == ty then Some(a) else if b.ty == ty then Some(b) else None
  {
    FindFirst(a, [b], ty);
    FindFirst(b, [], ty);
    assert [a, b] == [a] + [b] && [b] == [b] + [];
  }

  lemma Find3(a: Message, b: Message, c: Message, ty: MessageType)
    ensures Find([a, b, c], ty) == if a.ty == ty then Some(a) else if b.ty == ty then Some(b) else if c.ty == ty then Some(c) else None
  {
    FindFirst(a, [b, c], ty);
    Find2(b, c, ty);
    assert [a, b, c] == [a] + [b, c];
  }

  /** The initiator's first token: what it offers, its one token, and a VERIFY message. */
  ghost function FirstOuts(g: Guid, random: seq<byte>): seq<Outgoing> {
    [OutNego(InitiatorNego, random, [g]), OutExchange(ApRequest, g, [1]), OutVerify(g, 15, [])]
  }

  ghost function SecondOuts(g: Guid, random: seq<byte>): seq<Outgoing> {
    [OutNego(AcceptorNego, random, [g]), OutVerify(g, 15, [])]
  }

  lemma Meanings2(a: Outgoing, b: Outgoing)
    ensures exists p: nat :: Meanings([a, b], 0) == [a.Meaning(0), b.Meaning(p)]
  {
    hide Outgoing.Fixed, Outgoing.Payload, Outgoing.Meaning;
    var p := MESSAGE_HEADER_LENGTH + |a.Fixed()| + |a.Payload()|;
    assert [a, b][1..] == [b] && [b][1..] == [];
    assert Meanings([b], p) == [b.Meaning(p)];
    assert Meanings([a, b], 0) == [a.Meaning(0), b.Meaning(p)];
  }

  lemma Meanings3(a: Outgoing, b: Outgoing, c: Outgoing)
    ensures exists p: nat, q: nat :: Meanings([a, b, c], 0) == [a.Meaning(0), b.Meaning(p), c.Meaning(q)]
  {
    hide Outgoing.Fixed, Outgoing.Payload, Outgoing.Meaning;
    var p := MESSAGE_HEADER_LENGTH + |a.Fixed()| + |a.Payload()|;
    var q := p + MESSAGE_HEADER_LENGTH + |b.Fixed()| + |b.Payload()|;
    assert [a, b, c][1..] == [b, c] && [b, c][1..] == [c] && [c][1..] == [];
    assert Meanings([c], q) == [c.Meaning(q)];
    assert Meanings([b, c], p) == [b.Meaning(p), c.Meaning(q)];
    assert Meanings([a, b, c], 0) == [a.Meaning(0), b.Meaning(p), c.Meaning(q)];
  }

  lemma OutsFit(g: Guid, random: seq<byte>)
    requires |random| == 32
    ensures forall o | o in FirstOuts(g, random) + SecondOuts(g, random) :: o.WellTyped() && o.Fits()
  {
    assert Joined([g]) == g + [] by { assert [g][1..] == []; }
    assert OutNego(InitiatorNego, random, [g]).Fits() && OutNego(AcceptorNego, random, [g]).Fits();
    assert OutExchange(ApRequest, g, [1]).Fits() && OutVerify(g, 15, []).Fits();
  }

  // ----- the three calls -----

  lemma FirstCallUp(g: Guid, conv: Guid, random: seq<byte>)
    requires |random| == 32
    ensures var r := Init(NewCtx(true, [OneToken(g)], true), EmptySums(), [], conv, random);
            && r.result == Ok(Step(EncodeAll(FirstOuts(g, random), 0, conv), false))
            && |r.ctx.mechs| == 1 && Up(r.ctx.mechs[0], g, true)
            && r.ctx.step == 1 && r.ctx.initiator && r.ctx.seqnum == 3 && r.ctx.convId == conv
  {
    hide EncodeAll, MakeOutput;
    var c := NewCtx(true, [OneToken(g)], true);
    EmptyReceive(c.(step := 1));
    var m := NewMech(OneToken(g));
    assert c.mechs == [m];
    OneAsked(m, true, g);
    assert [m.Ask(QueryMetaData(true)).(metadata := [])][1..] == [];
    var p := PrepareInit(c, [], conv).result.value;
    assert |p.ctx.mechs| == 1 && Up(p.ctx.mechs[0], g, false) && p.out == [1] && p.msgs == [];
    var d := p.ctx.(transcript := p.ctx.transcript + []);
    FirstOutput(d, g, [1], random);
    assert WithVerify(g, [OutNego(InitiatorNego, random, [g])] + [OutExchange(ApRequest, g, [1])]) == FirstOuts(g, random);
  }

  /** The acceptor reads what was sent. */
  lemma AcceptorReads(g: Guid, conv: Guid, random: seq<byte>, c: Ctx) returns (q: nat)
    requires |random| == 32 && c.seqnum == 0
    ensures Receive(c, EncodeAll(FirstOuts(g, random), 0, conv))
            == (c.(convId := conv, seqnum := 3),
                Ok([Message(InitiatorNego, NegoBody([g])), Message(ApRequest, ExchangeBody(g, [1])), Message(Verify, VerifyBody(g, 15, [], q))]))
  {
    hide EncodeAll, Meanings, Receive, Outgoing.Fits, Outgoing.WellTyped;
    var os := FirstOuts(g, random);
    OutsFit(g, random);
    assert forall o | o in os :: o in os + SecondOuts(g, random);
    ReceiveReads(c, c.(convId := conv), os);
    Meanings3(os[0], os[1], os[2]);
    var p: nat, r: nat :| Meanings(os, 0) == [os[0].Meaning(0), os[1].Meaning(p), os[2].Meaning(r)];
    q := r;
  }

  lemma AcceptCallUp(g: Guid, conv: Guid, random: seq<byte>, random2: seq<byte>)
    requires |random| == 32 && |random2| == 32
    ensures var r := Accept(NewCtx(false, [OneToken(g)], true), EmptySums(), EncodeAll(FirstOuts(g, random), 0, conv), random2);
            && r.result == Ok(Step(EncodeAll(SecondOuts(g, random2), 3, conv), true))
  {
    hide EncodeAll, MakeOutput, Receive, Find, VerifyChecksum;
    var c, input := NewCtx(false, [OneToken(g)], true), EncodeAll(FirstOuts(g, random), 0, conv);
    assert input != [] by { TokenNonEmpty(g, random, conv); }
    var q := AcceptorReads(g, conv, random, c.(step := 1));
    var a, b, v := Message(InitiatorNego, NegoBody([g])), Message(ApRequest, ExchangeBody(g, [1])), Message(Verify, VerifyBody(g, 15, [], q));
    var msgs := [a, b, v];
    Find3(a, b, v, Alert);
    Find3(a, b, v, InitiatorNego);
    Find3(a, b, v, ApRequest);
    Find3(a, b, v, Verify);
    var m0 := NewMech(OneToken(g));
    assert c.mechs == [m0];
    OneAsked(m0, false, g);
    NoMetaData([m0], false, msgs);
    var prep := PrepareAccept(c, input);
    PreparedAccept(c, input);
    var x := prep.result.value;
    assert |x.ctx.mechs| == 1 && Up(x.ctx.mechs[0], g, false) && x.out == [] && x.msgs == msgs && x.verify;
    Verifies(x.ctx, g, msgs, input, q);
    var m := x.ctx.mechs[0].(verifiedChecksum := true);
    assert x.ctx.mechs[0 := m] == [m];
    var d := x.ctx.(mechs := [m], transcript := x.ctx.transcript + input);
    FirstOutput(d, g, [], random2);
    assert WithVerify(g, [OutNego(AcceptorNego, random2, [g])] + []) == SecondOuts(g, random2);
  }

  lemma TokenNonEmpty(g: Guid, random: seq<byte>, conv: Guid)
    requires |random| == 32
    ensures EncodeAll(FirstOuts(g, random), 0, conv) != []
  {
    hide Encode;
    EncodeLength(FirstOuts(g, random)[0], 0, conv);
  }

  lemma InitiatorReads(g: Guid, conv: Guid, random: seq<byte>, c: Ctx) returns (q: nat)
    requires |random| == 32 && c.seqnum == 3 && c.convId == conv
    ensures Receive(c, EncodeAll(SecondOuts(g, random), 3, conv))
            == (c.(seqnum := 5), Ok([Message(AcceptorNego, NegoBody([g])), Message(Verify, VerifyBody(g, 15, [], q))]))
  {
    hide EncodeAll, Meanings, Receive, Outgoing.Fits, Outgoing.WellTyped;
    var os := SecondOuts(g, random);
    OutsFit(g, random);
    assert forall o | o in os :: o in FirstOuts(g, random) + os;
    ReceiveReads(c, c, os);
    Meanings2(os[0], os[1]);
    q :| Meanings(os, 0) == [os[0].Meaning(0), os[1].Meaning(q)];
  }

  lemma SecondCallDone(g: Guid, conv: Guid, c: Ctx, random: seq<byte>, random2: seq<byte>)
    requires |random2| == 32
    requires |c.mechs| == 1 && Up(c.mechs[0], g, true) && c.step == 1 && c.initiator && c.seqnum == 3 && c.convId == conv
    ensures Init(c, EmptySums(), EncodeAll(SecondOuts(g, random2), 3, conv), conv, random).result == Ok(Step([], true))
  {
    hide EncodeAll, Receive, Find, VerifyChecksum;
    var input := EncodeAll(SecondOuts(g, random2), 3, conv);
    var q := InitiatorReads(g, conv, random2, c.(step := 2));
    var a, v := Message(AcceptorNego, NegoBody([g])), Message(Verify, VerifyBody(g, 15, [], q));
    var msgs := [a, v];
    Find2(a, v, Alert);
    Find2(a, v, AcceptorNego);
    Find2(a, v, Challenge);
    Find2(a, v, Verify);
    var m := c.mechs[0];
    assert c.mechs == [m];
    NoMetaData([m], true, msgs);
    assert Common([m], [g]) == [m] by { assert [g][1..] == [] && Locate([m], g) == Some(0); }
    var prep := PrepareInit(c, input, conv);
    PreparedInit(c, input, conv);
    var x := prep.result.value;
    assert x.ctx.mechs == [m] && x.out == [] && x.msgs == msgs;
    Verifies(x.ctx, g, msgs, input, q);
  }

  /** For every scheme and every random bytes there is a run in which both sides report completion. */
  lemma CompletionReachable(g: Guid, conv: Guid, random: seq<byte>) returns (run: seq<Session>)
    requires |random| == 32
    ensures Representable([OneToken(g)], [OneToken(g)], EmptySums())
    ensures IsRun(run, [OneToken(g)], [OneToken(g)], true, true, EmptySums())
    ensures run[|run| - 1].iDone && run[|run| - 1].aDone
  {
    hide EncodeAll, Init, Accept, Up;
    var ms, crypto := [OneToken(g)], EmptySums();
    var s0 := Start(ms, ms, true, true);
    var r1 := Init(s0.i, crypto, [], conv, random);
    FirstCallUp(g, conv, random);
    var s1 := s0.(i := r1.ctx, sent := [r1.result.value.token], iDone := false);
    assert s0.sent + [r1.result.value.token] == s1.sent;
    assert InitiatorStep(s0, s1, crypto, conv, random);
    var r2 := Accept(s1.a, crypto, s1.Wire(), random);
    AcceptCallUp(g, conv, random, random);
    var s2 := s1.(a := r2.ctx, sent := s1.sent + [r2.result.value.token], aDone := true);
    assert AcceptorStep(s1, s2, crypto, random);
    var r3 := Init(s2.i, crypto, s2.Wire(), conv, random);
    SecondCallDone(g, conv, s2.i, random, random);
    var s3 := s2.(i := r3.ctx, sent := s2.sent + [r3.result.value.token], iDone := true);
    assert InitiatorStep(s2, s3, crypto, conv, random);
    run := [s0, s1, s2, s3];
    assert Next(s0, s1, crypto) && Next(s1, s2, crypto) && Next(s2, s3, crypto);
  }
}
