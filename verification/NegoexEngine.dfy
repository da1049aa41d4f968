/**
 * The NegoEx engine on values: what one call of `init` or `accept` computes from the context,
 * the peer's token and the random bytes drawn. Mechanisms and the checksum function are
 * arbitrary parameters.
 */
module NegoexEngine {
  import opened Bytes
  import opened Wrappers
  import opened NegoexCodec

  const KEYUSAGE_INITIATOR_CHECKSUM := 23
  const KEYUSAGE_ACCEPTOR_CHECKSUM := 25

  datatype Error = Negoex(error: NegoexError) | DefectiveToken | MechError(code: int) | CryptoError

  datatype Key = Key(etype: int, contents: seq<byte>)

  datatype MechOutput = MechOutput(token: seq<byte>, complete: bool)

  datatype MechFailure = MechFailure(code: int, token: seq<byte>)

  /** The calls a mechanism instance can receive that may change it. */
  datatype Call =
    | QueryMetaData(initiator: bool)
    | ExchangeMetaData(initiator: bool, metaData: seq<byte>)
    | InitSecContext(input: Option<seq<byte>>)
    | AcceptSecContext(token: seq<byte>)
    | DeleteSecContext

  /**
   * An arbitrary mechanism: each answer may depend on everything the instance has been asked,
   * the current call being the last element.
   */
  datatype Mech = Mech(
    scheme: Guid,
    queryMetaData: seq<Call> -> Result<seq<byte>, int>,
    exchangeMetaData: seq<Call> -> bool,
    initSecContext: seq<Call> -> Result<MechOutput, int>,
    acceptSecContext: seq<Call> -> Result<MechOutput, MechFailure>,
    key: seq<Call> -> Option<Key>,
    verifyKey: seq<Call> -> Option<Key>)

  datatype AuthMech = AuthMech(
    mech: Mech,
    calls: seq<Call>,
    scheme: Guid,
    metadata: seq<byte>,
    key: Option<Key>,
    verifyKey: Option<Key>,
    hasContext: bool,
    complete: bool,
    sentChecksum: bool,
    verifiedChecksum: bool)
  {
    function Ask(c: Call): AuthMech { this.(calls := calls + [c]) }

    /** `get_session_keys`: a key once seen is kept until it is dropped. */
    function WithSessionKeys(): AuthMech {
      this.(key := if mech.key(calls).Some? then mech.key(calls) else key,
            verifyKey := if mech.verifyKey(calls).Some? then mech.verifyKey(calls) else verifyKey)
    }

    /** `restart`; it leaves `verified_checksum` alone. */
    function Restart(): AuthMech {
      Ask(DeleteSecContext).(hasContext := false, key := None, verifyKey := None, complete := false, sentChecksum := false)
    }

    /** After a context call that succeeded. */
    function Advanced(out: MechOutput): AuthMech {
      this.(hasContext := true, complete := complete || out.complete).WithSessionKeys()
    }

    /** After the peer said it has no key to verify with. */
    function KeysDropped(): AuthMech { this.(sentChecksum := false, key := None, verifyKey := None) }
  }

  function NewMech(m: Mech): AuthMech {
    AuthMech(m, [], m.scheme, [], None, None, false, false, false, false)
  }

  function NewMechs(ms: seq<Mech>): (r: seq<AuthMech>)
    ensures |r| == |ms| && forall i | 0 <= i < |ms| :: r[i] == NewMech(ms[i])
  {
    seq(|ms|, i requires 0 <= i < |ms| => NewMech(ms[i]))
  }

  /** The checksum function of the enctypes: (etype, key, usage, data). */
  datatype Crypto = Crypto(checksum: (int, seq<byte>, int, seq<byte>) -> Option<seq<byte>>)

  predicate KnownEtype(etype: int) { 17 <= etype <= 20 }

  /** The mandatory checksum type of a known enctype. */
  function ChecksumType(etype: int): (r: int)
    requires KnownEtype(etype)
    ensures EtypeOfChecksum(r) == Some(etype)
  {
    if etype == 17 then 15 else if etype == 18 then 16 else etype
  }

  function EtypeOfChecksum(cksumType: int): Option<int> {
    if cksumType == 15 then Some(17)
    else if cksumType == 16 then Some(18)
    else if cksumType == 19 || cksumType == 20 then Some(cksumType)
    else None
  }

  datatype Ctx = Ctx(
    initiator: bool,
    mechs: seq<AuthMech>,
    step: nat,
    seqnum: nat,
    convId: Guid,
    transcript: seq<byte>,
    optimistic: bool)

  function NewCtx(initiator: bool, mechs: seq<Mech>, optimistic: bool): Ctx {
    Ctx(initiator, NewMechs(mechs), 0, 0, ZERO_GUID, [], optimistic)
  }

  datatype Step = Step(token: seq<byte>, complete: bool)

  // ----- lists -----

  /** The first position of `scheme`. */
  function Locate(mechs: seq<AuthMech>, scheme: Guid): (r: Option<nat>)
    ensures r.Some? ==> r.value < |mechs| && mechs[r.value].scheme == scheme
    ensures r.None? ==> forall m | m in mechs :: m.scheme != scheme
  {
    if mechs == [] then None
    else if mechs[0].scheme == scheme then Some(0)
    else
      var r := Locate(mechs[1..], scheme);
      if r.Some? then Some(r.value + 1) else None
  }

  function RemoveAt<T>(s: seq<T>, i: nat): seq<T>
    requires i < |s|
  {
    s[..i] + s[i + 1..]
  }

  function Schemes(mechs: seq<AuthMech>): (r: seq<Guid>)
    ensures |r| == |mechs| && forall i | 0 <= i < |mechs| :: r[i] == mechs[i].scheme
  {
    seq(|mechs|, i requires 0 <= i < |mechs| => mechs[i].scheme)
  }

  /** The first message of a type. */
  function Find(msgs: seq<Message>, ty: MessageType): (r: Option<Message>)
    ensures r.Some? ==> r.value in msgs && r.value.ty == ty
    ensures r.None? ==> forall m | m in msgs :: m.ty != ty
  {
    if msgs == [] then None
    else if msgs[0].ty == ty then Some(msgs[0])
    else Find(msgs[1..], ty)
  }

  function ExchangeToken(msgs: seq<Message>, ty: MessageType): Option<(Guid, seq<byte>)> {
    var m := Find(msgs, ty);
    if m.Some? && m.value.body.ExchangeBody? then Some((m.value.body.scheme, m.value.body.token)) else None
  }

  function NegoSchemes(msgs: seq<Message>, ty: MessageType): Result<seq<Guid>, Error> {
    var m := Find(msgs, ty);
    if m.Some? && m.value.body.NegoBody? then Ok(m.value.body.schemes) else Err(Negoex(MissingNegoMessage))
  }

  // ----- narrowing the mechanism list -----

  /** `query_meta_data`: a mechanism that fails leaves the list. */
  function QueryAll(mechs: seq<AuthMech>, initiator: bool): seq<AuthMech> {
    if mechs == [] then [] else
    var m := mechs[0].Ask(QueryMetaData(initiator));
    var md := m.mech.queryMetaData(m.calls);
    (if md.Ok? then [m.(metadata := md.value)] else []) + QueryAll(mechs[1..], initiator)
  }

  function PeerMetaData(initiator: bool): MessageType {
    if initiator then AcceptorMetaData else InitiatorMetaData
  }

  /** One metadata message: a mechanism that rejects it leaves the list. */
  function ExchangeOne(mechs: seq<AuthMech>, initiator: bool, msg: Message): seq<AuthMech> {
    if msg.ty != PeerMetaData(initiator) || !msg.body.ExchangeBody? then mechs else
    var i := Locate(mechs, msg.body.scheme);
    if i.None? then mechs else
    var m := mechs[i.value].Ask(ExchangeMetaData(initiator, msg.body.token));
    if m.mech.exchangeMetaData(m.calls) then mechs[i.value := m] else RemoveAt(mechs, i.value)
  }

  /** `exchange_meta_data`. */
  function ExchangeAll(mechs: seq<AuthMech>, initiator: bool, msgs: seq<Message>): seq<AuthMech>
    decreases |msgs|
  {
    if msgs == [] then mechs
    else ExchangeAll(ExchangeOne(mechs, initiator, msgs[0]), initiator, msgs[1..])
  }

  /** `check_optimistic_result`. */
  function CheckOptimistic(mechs: seq<AuthMech>, msgs: seq<Message>): seq<AuthMech> {
    if mechs == [] || !mechs[0].hasContext then mechs
    else if Find(msgs, Challenge).Some? || Find(msgs, Verify).Some? then [mechs[0]]
    else mechs[0 := mechs[0].Restart()]
  }

  /** `process_alerts`. */
  function ProcessAlerts(mechs: seq<AuthMech>, msgs: seq<Message>): seq<AuthMech> {
    var a := Find(msgs, Alert);
    if a.Some? && a.value.body.AlertBody? && a.value.body.verifyNoKey then
      var i := Locate(mechs, a.value.body.scheme);
      if i.Some? then mechs[i.value := mechs[i.value].KeysDropped()] else mechs
    else mechs
  }

  /** The mechanisms we share with the acceptor, in its order. */
  function Common(mechs: seq<AuthMech>, schemes: seq<Guid>): seq<AuthMech>
    decreases |schemes|
  {
    if schemes == [] then [] else
    var i := Locate(mechs, schemes[0]);
    if i.Some? then [mechs[i.value]] + Common(RemoveAt(mechs, i.value), schemes[1..])
    else Common(mechs, schemes[1..])
  }

  /** The mechanisms we share with the initiator, in our order. */
  function Restrict(mechs: seq<AuthMech>, schemes: seq<Guid>): seq<AuthMech> {
    if mechs == [] then []
    else (if mechs[0].scheme in schemes then [mechs[0]] else []) + Restrict(mechs[1..], schemes)
  }

  // ----- mechanism calls -----

  datatype Called = Called(mechs: seq<AuthMech>, result: Result<seq<byte>, Error>)

  /** The loop of `mech_init`: try mechanisms in order, dropping those that fail. */
  function InitFirst(mechs: seq<AuthMech>, input: Option<seq<byte>>, firstErr: Option<int>): Called
    decreases |mechs|
  {
    if mechs == [] then
      Called([], Err(if firstErr.Some? then MechError(firstErr.value) else Negoex(NoAvailableMechs)))
    else
      var m := mechs[0].Ask(InitSecContext(input));
      var out := m.mech.initSecContext(m.calls);
      if out.Ok? then Called([m.Advanced(out.value)] + mechs[1..], Ok(out.value.token))
      else InitFirst(mechs[1..], None, if firstErr.Some? then firstErr else Some(out.error))
  }

  /** `mech_init`. */
  function MechInit(c: Ctx, msgs: seq<Message>): Called {
    if c.step == 1 && !c.optimistic then Called(c.mechs, Ok([]))
    else if c.mechs == [] then Called(c.mechs, Err(Negoex(NoAvailableMechs)))
    else if c.mechs[0].complete then Called(c.mechs, Ok([]))
    else
      var t := ExchangeToken(msgs, Challenge);
      InitFirst(c.mechs, if t.Some? && t.value.0 == c.mechs[0].scheme then Some(t.value.1) else None, None)
  }

  datatype Accepted = Accepted(mechs: seq<AuthMech>, result: Result<(), Error>, token: seq<byte>)

  /** The end of `mech_accept`, on the chosen mechanism. */
  function AcceptFirst(mechs: seq<AuthMech>, step: nat, token: seq<byte>): (r: Accepted)
    requires mechs != []
    ensures |r.mechs| == |mechs|
  {
    if mechs[0].complete then Accepted(mechs, Ok(()), []) else
    var m := mechs[0].Ask(AcceptSecContext(token));
    var out := m.mech.acceptSecContext(m.calls);
    if out.Ok? then Accepted(mechs[0 := m.Advanced(out.value)], Ok(()), out.value.token)
    else if step == 1 then Accepted(mechs[0 := m.Restart()], Ok(()), [])
    else Accepted(mechs[0 := m.(hasContext := true)], Err(MechError(out.error.code)), out.error.token)
  }

  /** `mech_accept`. */
  function MechAccept(c: Ctx, msgs: seq<Message>): (r: Accepted)
    requires c.mechs != [] || (c.step != 1 && ExchangeToken(msgs, ApRequest).Some?)
    ensures if c.mechs != [] then r.mechs != [] else r.mechs == [] && r.result.Err? && r.token == []
  {
    var t := ExchangeToken(msgs, ApRequest);
    if t.None? then
      if c.step == 1 || c.mechs[0].complete then Accepted(c.mechs, Ok(()), [])
      else Accepted(c.mechs, Err(Negoex(MissingApRequestMessage)), [])
    else if c.step == 1 then
      if t.value.0 != c.mechs[0].scheme then Accepted(c.mechs, Ok(()), [])
      else AcceptFirst(c.mechs, c.step, t.value.1)
    else
      var i := Locate(c.mechs, t.value.0);
      if i.None? then Accepted(c.mechs, Err(Negoex(NoAvailableMechs)), [])
      else AcceptFirst([c.mechs[i.value]], c.step, t.value.1)
  }

  // ----- checksums -----

  /** `keyusage`; the two names are the wrong way around. */
  function KeyUsage(initiator: bool, make: bool): int {
    if initiator != !make then KEYUSAGE_ACCEPTOR_CHECKSUM else KEYUSAGE_INITIATOR_CHECKSUM
  }

  /** Every VERIFY message was read from inside the token. */
  ghost predicate OffsetsWithin(msgs: seq<Message>, n: nat) {
    forall m | m in msgs && m.body.VerifyBody? :: m.body.offset <= n
  }

  datatype Verified = Verified(mechs: seq<AuthMech>, result: Result<bool, Error>)

  /** `verify_checksum`; the result asks for a VERIFY_NO_KEY alert. */
  function VerifyChecksum(c: Ctx, crypto: Crypto, msgs: seq<Message>, input: seq<byte>): Verified
    requires c.mechs != [] && OffsetsWithin(msgs, |input|)
  {
    var v := Find(msgs, Verify);
    if v.None? || !v.value.body.VerifyBody? then Verified(c.mechs, Ok(false)) else
    var b := v.value.body;
    if b.scheme != c.mechs[0].scheme then Verified(c.mechs, Ok(false))
    else if c.mechs[0].verifyKey.None? then Verified(c.mechs, Ok(true)) else
    var etype := EtypeOfChecksum(b.cksumType);
    if etype.None? then Verified(c.mechs, Err(CryptoError)) else
    var data := c.transcript + input[..b.offset];
    var sum := crypto.checksum(etype.value, c.mechs[0].verifyKey.value.contents, KeyUsage(c.initiator, false), data);
    if sum.None? || sum.value != b.cksum then Verified(c.mechs, Err(Negoex(InvalidChecksum)))
    else Verified(c.mechs[0 := c.mechs[0].(verifiedChecksum := true)], Ok(false))
  }

  /** `make_checksum`: the VERIFY message to send, if a key is there. */
  function MakeChecksum(c: Ctx, crypto: Crypto): Result<Option<Outgoing>, Error>
    requires c.mechs != []
  {
    var m := c.mechs[0];
    if m.key.None? then
      if m.complete then Err(Negoex(NoVerifyKey)) else Ok(None)
    else if !KnownEtype(m.key.value.etype) then Err(CryptoError)
    else
      var sum := crypto.checksum(m.key.value.etype, m.key.value.contents, KeyUsage(c.initiator, true), c.transcript);
      if sum.None? then Err(CryptoError)
      else Ok(Some(OutVerify(m.scheme, ChecksumType(m.key.value.etype), sum.value)))
  }

  // ----- output -----

  /** Append messages to the transcript. */
  function Send(c: Ctx, os: seq<Outgoing>): Ctx {
    c.(transcript := c.transcript + EncodeAll(os, c.seqnum, c.convId), seqnum := (c.seqnum + |os|) % TWO32)
  }

  /** A metadata message for every mechanism that has some. */
  function MetaOuts(mechs: seq<AuthMech>, ty: MessageType): seq<Outgoing> {
    if mechs == [] then [] else
    (if mechs[0].metadata != [] then [OutExchange(ty, mechs[0].scheme, mechs[0].metadata)] else []) + MetaOuts(mechs[1..], ty)
  }

  function NegoType(initiator: bool): MessageType { if initiator then InitiatorNego else AcceptorNego }

  function MetaType(initiator: bool): MessageType { if initiator then InitiatorMetaData else AcceptorMetaData }

  function ContextType(initiator: bool): MessageType { if initiator then ApRequest else Challenge }

  /** The messages before the VERIFY message, in order. */
  function PlainOuts(c: Ctx, out: seq<byte>, alert: bool, random: seq<byte>): seq<Outgoing>
    requires c.mechs != []
  {
    (if c.step == 1
     then [OutNego(NegoType(c.initiator), random, Schemes(c.mechs))] + MetaOuts(c.mechs, MetaType(c.initiator)) else [])
    + (if out != [] then [OutExchange(ContextType(c.initiator), c.mechs[0].scheme, out)] else [])
    + (if alert then [OutAlert(c.mechs[0].scheme)] else [])
  }

  datatype Made = Made(ctx: Ctx, result: Result<seq<byte>, Error>)

  /** `make_output_token`. */
  function MakeOutput(c: Ctx, crypto: Crypto, out: seq<byte>, alert: bool, random: seq<byte>): Made
    requires c.mechs != []
  {
    if out == [] && c.mechs[0].sentChecksum then Made(c, Ok([])) else
    var c1 := Send(c, PlainOuts(c, out, alert, random));
    if c1.mechs[0].sentChecksum then Made(c1, Ok(c1.transcript[|c.transcript|..])) else
    var v := MakeChecksum(c1, crypto);
    if v.Err? then Made(c1, Err(v.error))
    else if v.value.None? then Made(c1, Ok(c1.transcript[|c.transcript|..]))
    else
      var c2 := Send(c1, [v.value.value]);
      Made(c2.(mechs := c2.mechs[0 := c2.mechs[0].(sentChecksum := true)]), Ok(c2.transcript[|c.transcript|..]))
  }

  // ----- one call -----

  predicate Done(mechs: seq<AuthMech>)
    requires mechs != []
  {
    mechs[0].complete && mechs[0].verifiedChecksum
  }

  datatype Outcome = Outcome(ctx: Ctx, result: Result<Step, Error>)

  /** What a call has found out before it checks the peer's checksum. */
  datatype Prepared = Prepared(ctx: Ctx, msgs: seq<Message>, out: seq<byte>, verify: bool)

  datatype Preparation = Preparation(ctx: Ctx, result: Result<Prepared, Error>)

  /** The end of both `init` and `accept`. */
  function Finish(p: Prepared, crypto: Crypto, input: seq<byte>, random: seq<byte>): Outcome
    requires p.ctx.mechs != [] && OffsetsWithin(p.msgs, |input|)
  {
    var v := if p.verify then VerifyChecksum(p.ctx, crypto, p.msgs, input) else Verified(p.ctx.mechs, Ok(false));
    if v.result.Err? then Outcome(p.ctx.(mechs := v.mechs), Err(v.result.error)) else
    var c := p.ctx.(mechs := v.mechs, transcript := p.ctx.transcript + input);
    var made := MakeOutput(c, crypto, p.out, v.result.value, random);
    if made.result.Err? then Outcome(made.ctx, Err(made.result.error))
    else Outcome(made.ctx, Ok(Step(made.result.value, Done(made.ctx.mechs))))
  }

  /** `parse_token` on a context; an absent token has no messages. */
  function Receive(c: Ctx, input: seq<byte>): (r: (Ctx, Result<seq<Message>, Error>))
    ensures r.0.mechs == c.mechs && r.0.transcript == c.transcript && r.0.step == c.step && r.0.initiator == c.initiator
  {
    var t := ParseFrom(input, 0, c.seqnum, c.convId);
    (c.(convId := t.convId, seqnum := t.seqnum), if t.result.Ok? then Ok(t.result.value) else Err(Negoex(t.result.error)))
  }

  /** The mechanism list of the initiator before its mechanism is called. */
  function InitNarrow(c: Ctx, msgs: seq<Message>, conv: Guid): (Ctx, Result<(), Error>) {
    var c1 := c.(mechs := ProcessAlerts(c.mechs, msgs));
    if c.step == 1 then (c1.(convId := conv, mechs := QueryAll(c1.mechs, c.initiator)), Ok(()))
    else if c.step == 2 then
      var c2 := c1.(mechs := ExchangeAll(CheckOptimistic(c1.mechs, msgs), c.initiator, msgs));
      var schemes := NegoSchemes(msgs, AcceptorNego);
      if schemes.Err? then (c2, Err(schemes.error))
      else (c2.(mechs := Common(c2.mechs, schemes.value)), Ok(()))
    else (c1, Ok(()))
  }

  /** `init` up to its `verify_checksum`. */
  function PrepareInit(c: Ctx, input: seq<byte>, conv: Guid): Preparation {
    if !c.initiator || (c.step == 0 && input != []) then Preparation(c, Err(DefectiveToken)) else
    var (c1, msgs) := Receive(c.(step := c.step + 1), input);
    if msgs.Err? then Preparation(c1, Err(msgs.error)) else
    var (c2, narrowed) := InitNarrow(c1, msgs.value, conv);
    if narrowed.Err? then Preparation(c2, Err(narrowed.error)) else
    var called := MechInit(c2, msgs.value);
    var c3 := c2.(mechs := called.mechs);
    if called.result.Err? then Preparation(c3, Err(called.result.error))
    else if c3.mechs == [] then Preparation(c3, Err(Negoex(NoAvailableMechs)))
    else
      var c4 := if c3.step == 2 then c3.(mechs := [c3.mechs[0]]) else c3;
      Preparation(c4, Ok(Prepared(c4, msgs.value, called.result.value, true)))
  }

  /** `init` with the peer's token, `[]` for none; `conv` and `random` are the random bytes drawn. */
  function Init(c: Ctx, crypto: Crypto, input: seq<byte>, conv: Guid, random: seq<byte>): Outcome {
    var p := PrepareInit(c, input, conv);
    PreparedInit(c, input, conv);
    if p.result.Err? then Outcome(p.ctx, Err(p.result.error)) else Finish(p.result.value, crypto, input, random)
  }

  /** The mechanism list of the acceptor before its mechanism is called. */
  function AcceptNarrow(c: Ctx, msgs: seq<Message>): (Ctx, Result<(), Error>) {
    var c1 := c.(mechs := ProcessAlerts(c.mechs, msgs));
    if c.step != 1 then (c1, Ok(())) else
    var schemes := NegoSchemes(msgs, InitiatorNego);
    if schemes.Err? then (c1, Err(schemes.error)) else
    var c2 := c1.(mechs := QueryAll(ExchangeAll(Restrict(c1.mechs, schemes.value), c.initiator, msgs), c.initiator));
    (c2, if c2.mechs == [] then Err(Negoex(NoAvailableMechs)) else Ok(()))
  }

  /** What `accept` needs after its first call: its first call succeeded. */
  predicate Ready(c: Ctx) { c.step >= 1 ==> c.mechs != [] }

  /**
   * `accept` reads the first mechanism of an empty list exactly when this fails: a call after one
   * that left no mechanism, whose token is read and holds no AP_REQUEST.
   */
  predicate InRange(c: Ctx, input: seq<byte>) {
    Ready(c) || c.initiator || input == [] ||
    var msgs := Receive(c.(step := c.step + 1), input).1;
    msgs.Ok? ==> ExchangeToken(msgs.value, ApRequest).Some?
  }

  /** `accept` up to its `verify_checksum`. */
  function PrepareAccept(c: Ctx, input: seq<byte>): Preparation
    requires InRange(c, input)
  {
    if c.initiator || input == [] then Preparation(c, Err(DefectiveToken)) else
    var (c1, msgs) := Receive(c.(step := c.step + 1), input);
    if msgs.Err? then Preparation(c1, Err(msgs.error)) else
    var (c2, narrowed) := AcceptNarrow(c1, msgs.value);
    if narrowed.Err? then Preparation(c2, Err(narrowed.error)) else
    var a := MechAccept(c2, msgs.value);
    var c3 := c2.(mechs := a.mechs);
    if a.result.Err? && a.token == [] then Preparation(c3, Err(a.result.error))
    else Preparation(c3, Ok(Prepared(c3, msgs.value, a.token, a.result.Ok?)))
  }

  /** `accept` with the peer's token. */
  function Accept(c: Ctx, crypto: Crypto, input: seq<byte>, random: seq<byte>): Outcome
    requires InRange(c, input)
  {
    var p := PrepareAccept(c, input);
    PreparedAccept(c, input);
    if p.result.Err? then Outcome(p.ctx, Err(p.result.error)) else Finish(p.result.value, crypto, input, random)
  }

  // ----- every access is in range -----

  lemma {:induction false} ParsedOffsets(token: seq<byte>, pos: nat, seqnum: nat, convId: Guid)
    requires pos <= |token|
    ensures var t := ParseFrom(token, pos, seqnum, convId);
            t.result.Ok? ==> OffsetsWithin(t.result.value, |token|)
    decreases |token| - pos
  {
    hide ParseMessage;
    if pos < |token| {
      var m := ParseMessage(token, pos, seqnum, convId);
      if m.result.Ok? {
        ParsedOffsets(token, m.result.value.1, Bump(seqnum), m.convId);
      }
    }
  }

  lemma PreparedInit(c: Ctx, input: seq<byte>, conv: Guid)
    ensures var p := PrepareInit(c, input, conv);
            p.result.Ok? ==> p.result.value.ctx.mechs != [] && OffsetsWithin(p.result.value.msgs, |input|)
  {
    hide ParseFrom, InitNarrow, MechInit, OffsetsWithin;
    ParsedOffsets(input, 0, c.seqnum, c.convId);
  }

  /** A call comes to `mech_accept` with no mechanism and no AP_REQUEST exactly when it is not in range. */
  lemma InRangeExactly(c: Ctx, input: seq<byte>)
    ensures var (c1, msgs) := Receive(c.(step := c.step + 1), input);
            !InRange(c, input) <==>
              && !c.initiator && input != [] && msgs.Ok?
              && AcceptNarrow(c1, msgs.value).1.Ok? && AcceptNarrow(c1, msgs.value).0.mechs == []
              && ExchangeToken(msgs.value, ApRequest).None?
  {
    hide ParseFrom, ExchangeToken, ExchangeAll, QueryAll, Restrict, NegoSchemes;
    var (c1, msgs) := Receive(c.(step := c.step + 1), input);
    if msgs.Ok? { AlertsKeepLength(c.mechs, msgs.value); }
  }

  lemma AlertsKeepLength(ms: seq<AuthMech>, msgs: seq<Message>)
    ensures |ProcessAlerts(ms, msgs)| == |ms|
  {
  }

  lemma PreparedAccept(c: Ctx, input: seq<byte>)
    requires InRange(c, input)
    ensures var p := PrepareAccept(c, input);
            p.result.Ok? ==> p.result.value.ctx.mechs != [] && OffsetsWithin(p.result.value.msgs, |input|)
  {
    hide ParseFrom, MechAccept, OffsetsWithin, ExchangeAll, QueryAll, Restrict, NegoSchemes;
    ParsedOffsets(input, 0, c.seqnum, c.convId);
  }
}
