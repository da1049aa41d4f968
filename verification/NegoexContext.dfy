/**
 * The NegoEx context as the object it is: its methods update the step, the counter, the
 * conversation ID, the transcript and the mechanism list in place. Each is proved to compute
 * what the engine functions say, so the results about runs are results about this object.
 */
module NegoexContext {
  import opened Bytes
  import opened Wrappers
  import opened NegoexCodec
  import opened NegoexEngine
  import opened NegoexNarrowing
  import opened NegoexSession

  /** The extension loop of `parse_message`. */
  method CheckExtensions(exts: seq<byte>) returns (critical: bool)
    ensures critical == HasCritical(exts)
  {
    var pos := 0;
    while pos + EXTENSION_LENGTH <= |exts|
      invariant 0 <= pos <= |exts|
      invariant HasCritical(exts) == HasCritical(exts[pos..])
      decreases |exts| - pos
    {
      assert exts[pos..][..4] == exts[pos..pos + 4];
      assert exts[pos..][EXTENSION_LENGTH..] == exts[pos + EXTENSION_LENGTH..];
      if FromLe(exts[pos..pos + 4]) >= TWO31 {
        return true;
      }
      pos := pos + EXTENSION_LENGTH;
    }
    return false;
  }

  /** The alert loop of `parse_message`. */
  method ReadAlerts(alerts: seq<byte>, n: nat, msg: seq<byte>) returns (r: Result<bool, NegoexError>)
    ensures r == ScanAlerts(Open(alerts), n, msg, false)
  {
    var a := Open(alerts);
    var noKey := false;
    for k := 0 to n
      invariant ScanAlerts(Open(alerts), n, msg, false) == ScanAlerts(a, n - k, msg, noKey)
    {
      var atype := a.U(4);
      var a1 := a.Skip(4);
      var voff := a1.U(4);
      var a2 := a1.Skip(4);
      var vlen := a2.U(4);
      var v := VectorBase(voff, vlen, 1, msg);
      if v.None? {
        return Err(InvalidMessageSize);
      }
      if atype == ALERT_TYPE_PULSE && vlen >= ALERT_PULSE_LENGTH {
        if Open(v.value).Skip(4).U(4) == ALERT_VERIFY_NO_KEY {
          noKey := true;
        }
      }
      a := a2.Skip(4);
    }
    return Ok(noKey);
  }

  /** The type-specific part of `parse_message`, reading the header with a cursor. */
  method ReadBody(ty: MessageType, header: seq<byte>, msg: seq<byte>, pos: nat) returns (r: Result<Body, NegoexError>)
    ensures r == ParseBody(ty, Open(header), msg, pos)
  {
    hide VectorBase, FromLe, HasCritical, ScanAlerts, Guids;
    var h := Open(header);
    if IsNego(ty) {
      h := h.Skip(32);
      if h.U(8) != 0 {
        return Err(UnsupportedVersion);
      }
      h := h.Skip(8);
      var off := h.U(4);
      h := h.Skip(4);
      var count := h.U(2);
      h := h.Skip(2);
      var schemes := VectorBase(off, count, GUID_LENGTH, msg);
      if schemes.None? {
        return Err(InvalidMessageSize);
      }
      off := h.U(4);
      h := h.Skip(4);
      count := h.U(2);
      h := h.Skip(2);
      var exts := VectorBase(off, count, EXTENSION_LENGTH, msg);
      if exts.None? {
        return Err(InvalidMessageSize);
      }
      var critical := CheckExtensions(exts.value);
      if critical {
        return Err(UnsupportedCriticalExtension);
      }
      r := Ok(NegoBody(Guids(schemes.value)));
    } else if IsExchange(ty) {
      var scheme := h.Guid();
      h := h.Skip(GUID_LENGTH);
      var off := h.U(4);
      h := h.Skip(4);
      var len := h.U(4);
      h := h.Skip(4);
      var token := VectorBase(off, len, 1, msg);
      if token.None? {
        return Err(InvalidMessageSize);
      }
      r := Ok(ExchangeBody(scheme, token.value));
    } else if ty.Verify? {
      var scheme := h.Guid();
      h := h.Skip(GUID_LENGTH);
      if h.U(4) != CHECKSUM_HEADER_LENGTH {
        return Err(InvalidMessageSize);
      }
      h := h.Skip(4);
      if h.U(4) != CHECKSUM_SCHEME_RFC3961 {
        return Err(UnknownChecksumScheme);
      }
      h := h.Skip(4);
      var cksumType := AsI32(h.U(4));
      h := h.Skip(4);
      var off := h.U(4);
      h := h.Skip(4);
      var len := h.U(4);
      h := h.Skip(4);
      var cksum := VectorBase(off, len, 1, msg);
      if cksum.None? {
        return Err(InvalidMessageSize);
      }
      r := Ok(VerifyBody(scheme, cksumType, cksum.value, pos));
    } else {
      var scheme := h.Guid();
      h := h.Skip(GUID_LENGTH);
      h := h.Skip(4);
      var off := h.U(4);
      h := h.Skip(4);
      var n := h.U(4);
      h := h.Skip(4);
      var alerts := VectorBase(off, n, ALERT_LENGTH, msg);
      if alerts.None? {
        return Err(InvalidMessageSize);
      }
      var noKey := ReadAlerts(alerts.value, n, msg);
      if noKey.Err? {
        return Err(noKey.error);
      }
      r := Ok(AlertBody(scheme, noKey.value));
    }
    if h.failed {
      return Err(InvalidMessageSize);
    }
  }

  class Negoex {
    const initiator: bool
    const optimistic: bool
    var mechs: seq<AuthMech>
    var step: nat
    var seqnum: nat
    var convId: Guid
    var transcript: seq<byte>

    /** The context as a value. */
    function Model(): Ctx
      reads this
    {
      Ctx(initiator, mechs, step, seqnum, convId, transcript, optimistic)
    }

    constructor (initiator: bool, mechs: seq<Mech>, optimistic: bool)
      ensures Model() == NewCtx(initiator, mechs, optimistic)
    {
      this.initiator := initiator;
      this.optimistic := optimistic;
      this.mechs := NewMechs(mechs);
      step := 0;
      seqnum := 0;
      convId := ZERO_GUID;
      transcript := [];
    }

    method ParseMessage(token: seq<byte>, pos: nat) returns (r: Result<(Message, nat), Error>)
      requires pos <= |token|
      modifies this`seqnum, this`convId
      ensures var p := NegoexCodec.ParseMessage(token, pos, old(seqnum), old(convId));
              && convId == p.convId
              && seqnum == (if p.result.Ok? then Bump(old(seqnum)) else old(seqnum))
              && r == (if p.result.Ok? then Ok(p.result.value) else Err(Negoex(p.result.error)))
    {
      hide ReadPrologue, ParseBody;
      var rest := token[pos..];
      var p := ReadPrologue(rest);
      if p.failed || p.msgLen > |rest| || p.headerLen > p.msgLen || p.headerLen < MESSAGE_HEADER_LENGTH {
        return Err(Negoex(InvalidMessageSize));
      }
      if p.signature != MESSAGE_SIGNATURE {
        return Err(Negoex(InvalidMessageSignature));
      }
      if p.seqnum != seqnum {
        return Err(Negoex(MessageOutOfSequence));
      }
      if p.seqnum == 0 {
        convId := p.convId;
      } else if p.convId != convId {
        return Err(Negoex(InvalidConversationId));
      }
      var ty := TypeOf(p.ty);
      if ty.None? {
        return Err(Negoex(InvalidMessageType));
      }
      var body := ReadBody(ty.value, rest[MESSAGE_HEADER_LENGTH..p.headerLen], rest[..p.msgLen], pos);
      if body.Err? {
        return Err(Negoex(body.error));
      }
      seqnum := Bump(seqnum);
      return Ok((Message(ty.value, body.value), pos + p.msgLen));
    }

    /** Reads a token message by message; afterwards the context is the one `Receive` describes. */
    method ParseToken(token: seq<byte>) returns (r: Result<seq<Message>, Error>)
      modifies this`seqnum, this`convId
      ensures (Model(), r) == Receive(old(Model()), token)
    {
      hide NegoexCodec.ParseMessage;
      ghost var whole := ParseFrom(token, 0, seqnum, convId);
      var out: seq<Message> := [];
      var pos := 0;
      assert whole.result.Ok? ==> out + whole.result.value == whole.result.value;
      while pos < |token|
        invariant 0 <= pos <= |token|
        invariant var t := ParseFrom(token, pos, seqnum, convId);
                  && whole.convId == t.convId && whole.seqnum == t.seqnum
                  && whole.result == (if t.result.Ok? then Ok(out + t.result.value) else t.result)
        decreases |token| - pos
      {
        ghost var t := ParseFrom(token, pos, seqnum, convId);
        var m := ParseMessage(token, pos);
        if m.Err? {
          return Err(m.error);
        }
        ghost var t' := ParseFrom(token, m.value.1, seqnum, convId);
        assert t'.result.Ok? ==> out + ([m.value.0] + t'.result.value) == out + [m.value.0] + t'.result.value;
        out := out + [m.value.0];
        pos := m.value.1;
      }
      assert out + [] == out;
      return Ok(out);
    }

    method PutHeader(ty: MessageType, payloadLen: nat) returns (headerLen: nat)
      modifies this`transcript, this`seqnum
      ensures headerLen == HeaderLen(ty) && seqnum == Bump(old(seqnum))
      ensures transcript == old(transcript) + Header(ty, payloadLen, old(seqnum), convId)
    {
      hide Le;
      headerLen := HeaderLen(ty);
      transcript := transcript + Le(MESSAGE_SIGNATURE, 8);
      transcript := transcript + Le(Code(ty), 4);
      transcript := transcript + Le(seqnum, 4);
      transcript := transcript + Le(headerLen, 4);
      transcript := transcript + Le(headerLen + payloadLen, 4);
      transcript := transcript + convId;
      seqnum := Bump(seqnum);
    }

    method AddNegoMessage(ty: MessageType, random: seq<byte>)
      requires IsNego(ty)
      modifies this`transcript, this`seqnum
      ensures Model() == Send(old(Model()), [OutNego(ty, random, Schemes(mechs))])
    {
      hide Le, Header;
      var schemes := Schemes(mechs);
      ghost var o := OutNego(ty, random, schemes);
      var start := PutHeader(ty, |schemes| * GUID_LENGTH);
      transcript := transcript + (random + (Le(0, 8) + (Le(start, 4) + (Le(|schemes|, 2) + (Le(start, 4) + (Le(0, 2) + Zeros(4)))))));
      ghost var t0 := transcript;
      var k := 0;
      assert Joined(schemes[..0]) == [];
      while k < |schemes|
        invariant 0 <= k <= |schemes|
        invariant transcript == t0 + Joined(schemes[..k]) && seqnum == Bump(old(seqnum))
      {
        JoinedSnoc(schemes, k);
        transcript := transcript + schemes[k];
        k := k + 1;
      }
      assert schemes[..|schemes|] == schemes;
      OneSent(old(Model()), o);
    }

    method AddExchangeMessage(ty: MessageType, scheme: Guid, token: seq<byte>)
      requires IsExchange(ty)
      modifies this`transcript, this`seqnum
      ensures Model() == Send(old(Model()), [OutExchange(ty, scheme, token)])
    {
      hide Le, Header;
      var start := PutHeader(ty, |token|);
      transcript := transcript + (scheme + (Le(start, 4) + Le(|token|, 4)));
      transcript := transcript + token;
      OneSent(old(Model()), OutExchange(ty, scheme, token));
    }

    method AddVerifyMessage(scheme: Guid, cksumType: int, cksum: seq<byte>)
      modifies this`transcript, this`seqnum
      ensures Model() == Send(old(Model()), [OutVerify(scheme, cksumType, cksum)])
    {
      hide Le, Header;
      var start := PutHeader(Verify, |cksum|);
      transcript := transcript + (scheme + (Le(CHECKSUM_HEADER_LENGTH, 4) + (Le(CHECKSUM_SCHEME_RFC3961, 4) +
                      (Le(AsU32(cksumType), 4) + (Le(start, 4) + (Le(|cksum|, 4) + Zeros(4)))))));
      transcript := transcript + cksum;
      OneSent(old(Model()), OutVerify(scheme, cksumType, cksum));
    }

    method AddVerifyNoKeyAlert(scheme: Guid)
      modifies this`transcript, this`seqnum
      ensures Model() == Send(old(Model()), [OutAlert(scheme)])
    {
      hide Le, Header;
      var start := PutHeader(Alert, ALERT_LENGTH + ALERT_PULSE_LENGTH);
      transcript := transcript + (scheme + (Le(0, 4) + (Le(start, 4) + (Le(1, 2) + Zeros(6)))));
      transcript := transcript + (Le(ALERT_TYPE_PULSE, 4) + (Le(start + ALERT_LENGTH, 4) + (Le(ALERT_PULSE_LENGTH, 4) +
                      (Le(ALERT_PULSE_LENGTH, 4) + Le(ALERT_VERIFY_NO_KEY, 4)))));
      OneSent(old(Model()), OutAlert(scheme));
    }

    method QueryMetaData()
      modifies this`mechs
      ensures mechs == QueryAll(old(mechs), initiator)
    {
      hide QueryAll;
      var kept: seq<AuthMech> := [];
      var k := 0;
      QueryEnds(mechs, initiator);
      while k < |mechs|
        invariant 0 <= k <= |mechs| && mechs == old(mechs)
        invariant QueryAll(mechs, initiator) == kept + QueryAll(mechs[k..], initiator)
      {
        var m := mechs[k].Ask(NegoexEngine.QueryMetaData(initiator));
        var md := m.mech.queryMetaData(m.calls);
        QueryAt(mechs, k, initiator, kept);
        if md.Ok? {
          kept := kept + [m.(metadata := md.value)];
        }
        k := k + 1;
      }
      mechs := kept;
    }

    method ExchangeMetaData(msgs: seq<Message>)
      modifies this`mechs
      ensures mechs == ExchangeAll(old(mechs), initiator, msgs)
    {
      hide ExchangeOne;
      var k := 0;
      while k < |msgs|
        invariant 0 <= k <= |msgs|
        invariant ExchangeAll(old(mechs), initiator, msgs) == ExchangeAll(mechs, initiator, msgs[k..])
      {
        assert msgs[k..][0] == msgs[k] && msgs[k..][1..] == msgs[k + 1..];
        ExchangeMessage(msgs[k]);
        k := k + 1;
      }
    }

    /** The body of the metadata loop. */
    method ExchangeMessage(msg: Message)
      modifies this`mechs
      ensures mechs == ExchangeOne(old(mechs), initiator, msg)
    {
      if msg.ty != PeerMetaData(initiator) || !msg.body.ExchangeBody? {
        return;
      }
      var i := Locate(mechs, msg.body.scheme);
      if i.None? {
        return;
      }
      var m := mechs[i.value].Ask(NegoexEngine.ExchangeMetaData(initiator, msg.body.token));
      if m.mech.exchangeMetaData(m.calls) {
        mechs := mechs[i.value := m];
      } else {
        mechs := RemoveAt(mechs, i.value);
      }
    }

    method CheckOptimisticResult(msgs: seq<Message>)
      modifies this`mechs
      ensures mechs == CheckOptimistic(old(mechs), msgs)
    {
      if mechs == [] || !mechs[0].hasContext {
        return;
      }
      if Find(msgs, Challenge).Some? || Find(msgs, Verify).Some? {
        mechs := [mechs[0]];
      } else {
        mechs := mechs[0 := mechs[0].Restart()];
      }
    }

    method ProcessAlerts(msgs: seq<Message>)
      modifies this`mechs
      ensures mechs == NegoexEngine.ProcessAlerts(old(mechs), msgs)
    {
      var a := Find(msgs, Alert);
      if a.Some? && a.value.body.AlertBody? && a.value.body.verifyNoKey {
        var i := Locate(mechs, a.value.body.scheme);
        if i.Some? {
          mechs := mechs[i.value := mechs[i.value].KeysDropped()];
        }
      }
    }

    method MechInit(msgs: seq<Message>) returns (r: Result<seq<byte>, Error>)
      modifies this`mechs
      ensures Called(mechs, r) == NegoexEngine.MechInit(old(Model()), msgs)
    {
      hide ExchangeToken;
      if step == 1 && !optimistic {
        return Ok([]);
      }
      if mechs == [] {
        return Err(Negoex(NoAvailableMechs));
      }
      var t := ExchangeToken(msgs, Challenge);
      var input := if t.Some? && t.value.0 == mechs[0].scheme then Some(t.value.1) else None;
      if mechs[0].complete {
        return Ok([]);
      }
      var firstErr: Option<int> := None;
      ghost var all := InitFirst(mechs, input, None);
      while mechs != []
        invariant all == InitFirst(mechs, input, firstErr)
        decreases |mechs|
      {
        var m := mechs[0].Ask(InitSecContext(input));
        var out := m.mech.initSecContext(m.calls);
        if out.Ok? {
          mechs := [m.Advanced(out.value)] + mechs[1..];
          return Ok(out.value.token);
        }
        if firstErr.None? {
          firstErr := Some(out.error);
        }
        mechs := mechs[1..];
        input := None;
      }
      return Err(if firstErr.Some? then MechError(firstErr.value) else Negoex(NoAvailableMechs));
    }

    method MechAccept(msgs: seq<Message>) returns (r: Result<(), Error>, token: seq<byte>)
      requires mechs != [] || (step != 1 && ExchangeToken(msgs, ApRequest).Some?)
      modifies this`mechs
      ensures Accepted(mechs, r, token) == NegoexEngine.MechAccept(old(Model()), msgs)
    {
      hide ExchangeToken;
      var t := ExchangeToken(msgs, ApRequest);
      if t.None? {
        if step == 1 || mechs[0].complete {
          return Ok(()), [];
        }
        return Err(Negoex(MissingApRequestMessage)), [];
      }
      if step == 1 {
        if t.value.0 != mechs[0].scheme {
          return Ok(()), [];
        }
      } else {
        var i := Locate(mechs, t.value.0);
        if i.None? {
          return Err(Negoex(NoAvailableMechs)), [];
        }
        mechs := [mechs[i.value]];
      }
      if mechs[0].complete {
        return Ok(()), [];
      }
      var m := mechs[0].Ask(AcceptSecContext(t.value.1));
      var out := m.mech.acceptSecContext(m.calls);
      if out.Ok? {
        mechs := mechs[0 := m.Advanced(out.value)];
        return Ok(()), out.value.token;
      }
      if step == 1 {
        mechs := mechs[0 := m.Restart()];
        return Ok(()), [];
      }
      mechs := mechs[0 := m.(hasContext := true)];
      return Err(MechError(out.error.code)), out.error.token;
    }

    method VerifyChecksum(crypto: Crypto, msgs: seq<Message>, input: seq<byte>) returns (r: Result<bool, Error>)
      requires mechs != [] && OffsetsWithin(msgs, |input|)
      modifies this`mechs
      ensures Verified(mechs, r) == NegoexEngine.VerifyChecksum(old(Model()), crypto, msgs, input)
    {
      var usage := KeyUsage(initiator, false);
      var v := Find(msgs, Verify);
      if v.None? || !v.value.body.VerifyBody? {
        return Ok(false);
      }
      var b := v.value.body;
      if b.scheme != mechs[0].scheme {
        return Ok(false);
      }
      if mechs[0].verifyKey.None? {
        return Ok(true);
      }
      var etype := EtypeOfChecksum(b.cksumType);
      if etype.None? {
        return Err(CryptoError);
      }
      var data := transcript + input[..b.offset];
      var sum := crypto.checksum(etype.value, mechs[0].verifyKey.value.contents, usage, data);
      if sum.None? || sum.value != b.cksum {
        return Err(Negoex(InvalidChecksum));
      }
      mechs := mechs[0 := mechs[0].(verifiedChecksum := true)];
      return Ok(false);
    }

    /** Appends the VERIFY message, if a key is there; the signed bytes are the transcript before it. */
    method MakeChecksum(crypto: Crypto) returns (r: Result<(), Error>)
      requires mechs != []
      modifies this`mechs, this`transcript, this`seqnum
      ensures var v := NegoexEngine.MakeChecksum(old(Model()), crypto);
              && (v.Err? ==> Model() == old(Model()) && r == Err(v.error))
              && (v.Ok? && v.value.None? ==> Model() == old(Model()) && r == Ok(()))
              && (v.Ok? && v.value.Some? ==>
                    && r == Ok(())
                    && var c := Send(old(Model()), [v.value.value]);
                    Model() == c.(mechs := c.mechs[0 := c.mechs[0].(sentChecksum := true)]))
    {
      hide Send;
      var usage := KeyUsage(initiator, true);
      var m := mechs[0];
      if m.key.None? {
        if m.complete {
          return Err(Negoex(NoVerifyKey));
        }
        return Ok(());
      }
      if !KnownEtype(m.key.value.etype) {
        return Err(CryptoError);
      }
      var sum := crypto.checksum(m.key.value.etype, m.key.value.contents, usage, transcript);
      if sum.None? {
        return Err(CryptoError);
      }
      AddVerifyMessage(m.scheme, ChecksumType(m.key.value.etype), sum.value);
      SendKeepsMechs(old(Model()), [OutVerify(m.scheme, ChecksumType(m.key.value.etype), sum.value)]);
      mechs := mechs[0 := mechs[0].(sentChecksum := true)];
      return Ok(());
    }

    method MakeOutputToken(crypto: Crypto, out: seq<byte>, alert: bool, random: seq<byte>) returns (r: Result<seq<byte>, Error>)
      requires mechs != [] && seqnum < TWO32
      modifies this`mechs, this`transcript, this`seqnum
      ensures Made(Model(), r) == MakeOutput(old(Model()), crypto, out, alert, random)
      ensures mechs != []
    {
      hide EncodeAll, NegoexEngine.MakeChecksum;
      var before := |transcript|;
      if out == [] && mechs[0].sentChecksum {
        return Ok([]);
      }
      AddPlain(out, alert, random);
      if !mechs[0].sentChecksum {
        var made := MakeChecksum(crypto);
        if made.Err? {
          return Err(made.error);
        }
      }
      return Ok(transcript[before..]);
    }

    /** The messages before the VERIFY message. */
    method AddPlain(out: seq<byte>, alert: bool, random: seq<byte>)
      requires mechs != [] && seqnum < TWO32
      modifies this`transcript, this`seqnum
      ensures Model() == Send(old(Model()), PlainOuts(old(Model()), out, alert, random))
    {
      hide EncodeAll, MetaOuts, Schemes;
      ghost var c := Model();
      ghost var sent: seq<Outgoing> := [];
      SendNothing(c);
      if step == 1 {
        AddNegoMessage(NegoType(initiator), random);
        sent := [OutNego(NegoType(initiator), random, Schemes(mechs))];
        AddMetaData();
        SendConcat(c, sent, MetaOuts(mechs, MetaType(initiator)));
        sent := sent + MetaOuts(mechs, MetaType(initiator));
      }
      var scheme := mechs[0].scheme;
      if out != [] {
        AddExchangeMessage(ContextType(initiator), scheme, out);
        SendConcat(c, sent, [OutExchange(ContextType(initiator), scheme, out)]);
        sent := sent + [OutExchange(ContextType(initiator), scheme, out)];
      }
      if alert {
        AddVerifyNoKeyAlert(scheme);
        SendConcat(c, sent, [OutAlert(scheme)]);
        sent := sent + [OutAlert(scheme)];
      }
      assert sent == PlainOuts(c, out, alert, random);
    }

    /** The metadata loop of `make_output_token`. */
    method AddMetaData()
      requires seqnum < TWO32
      modifies this`transcript, this`seqnum
      ensures Model() == Send(old(Model()), MetaOuts(mechs, MetaType(initiator)))
    {
      hide Send, MetaOuts;
      var ty := MetaType(initiator);
      ghost var c := Model();
      ghost var sent: seq<Outgoing> := [];
      SendNothing(c);
      MetaEnds(mechs, ty);
      var k := 0;
      while k < |mechs|
        invariant 0 <= k <= |mechs|
        invariant Model() == Send(c, sent)
        invariant MetaOuts(mechs, ty) == sent + MetaOuts(mechs[k..], ty)
      {
        var m := mechs[k];
        MetaAt(mechs, k, ty, sent);
        if m.metadata != [] {
          AddExchangeMessage(ty, m.scheme, m.metadata);
          SendConcat(c, sent, [OutExchange(ty, m.scheme, m.metadata)]);
          sent := sent + [OutExchange(ty, m.scheme, m.metadata)];
        }
        k := k + 1;
      }
    }

    /** The loop that keeps the schemes the acceptor listed, in its order. */
    method KeepCommon(schemes: seq<Guid>)
      modifies this`mechs
      ensures mechs == Common(old(mechs), schemes)
    {
      var list: seq<AuthMech> := [];
      var k := 0;
      while k < |schemes|
        invariant 0 <= k <= |schemes|
        invariant Common(old(mechs), schemes) == list + Common(mechs, schemes[k..])
      {
        assert schemes[k..][0] == schemes[k] && schemes[k..][1..] == schemes[k + 1..];
        var i := Locate(mechs, schemes[k]);
        if i.Some? {
          list := list + [mechs[i.value]];
          mechs := RemoveAt(mechs, i.value);
        }
        k := k + 1;
      }
      mechs := list;
    }

    /** `init`: the whole call computes what the engine's `Init` says, errors included. */
    method Init(crypto: Crypto, input: seq<byte>, conv: Guid, random: seq<byte>) returns (r: Result<Step, Error>)
      requires seqnum < TWO32
      modifies this
      ensures Outcome(Model(), r) == NegoexEngine.Init(old(Model()), crypto, input, conv, random)
      ensures seqnum < TWO32
    {
      hide ParseFrom, NegoexEngine.ProcessAlerts, CheckOptimistic, ExchangeAll, QueryAll, Common, NegoSchemes,
           NegoexEngine.MechInit, NegoexEngine.VerifyChecksum, MakeOutput, OffsetsWithin;
      ghost var c := Model();
      PreparedInit(c, input, conv);
      if !initiator || (step == 0 && input != []) {
        return Err(DefectiveToken);
      }
      step := step + 1;
      var msgs := ParseToken(input);
      CountBounded(input, c.seqnum, c.convId);
      if msgs.Err? {
        return Err(msgs.error);
      }
      ProcessAlerts(msgs.value);
      if step == 1 {
        convId := conv;
        QueryMetaData();
      } else if step == 2 {
        CheckOptimisticResult(msgs.value);
        ExchangeMetaData(msgs.value);
        var schemes := NegoSchemes(msgs.value, AcceptorNego);
        if schemes.Err? {
          return Err(schemes.error);
        }
        KeepCommon(schemes.value);
      }
      var out := MechInit(msgs.value);
      if out.Err? {
        return Err(out.error);
      }
      if mechs == [] {
        return Err(Negoex(NoAvailableMechs));
      }
      if step == 2 {
        mechs := [mechs[0]];
      }
      assert PrepareInit(c, input, conv) == Preparation(Model(), Ok(Prepared(Model(), msgs.value, out.value, true)));
      r := Conclude(crypto, msgs.value, input, out.value, true, random);
    }

    /** The common end of `init` and `accept`. */
    method Conclude(crypto: Crypto, msgs: seq<Message>, input: seq<byte>, out: seq<byte>, verify: bool, random: seq<byte>)
      returns (r: Result<Step, Error>)
      requires mechs != [] && OffsetsWithin(msgs, |input|) && seqnum < TWO32
      modifies this`mechs, this`transcript, this`seqnum
      ensures Outcome(Model(), r) == Finish(Prepared(old(Model()), msgs, out, verify), crypto, input, random)
      ensures seqnum < TWO32
    {
      hide NegoexEngine.VerifyChecksum, MakeOutput, OffsetsWithin;
      ghost var c := Model();
      var alert := false;
      if verify {
        VerifyKeepsLength(c, crypto, msgs, input);
        var v := VerifyChecksum(crypto, msgs, input);
        if v.Err? {
          return Err(v.error);
        }
        alert := v.value;
      }
      transcript := transcript + input;
      OutputCounts(Model(), crypto, out, alert, random);
      var token := MakeOutputToken(crypto, out, alert, random);
      if token.Err? {
        return Err(token.error);
      }
      return Ok(Step(token.value, Done(mechs)));
    }

    /** `accept`: needs what `InRange` says, that it will not read the first of no mechanisms. */
    method Accept(crypto: Crypto, input: seq<byte>, random: seq<byte>) returns (r: Result<Step, Error>)
      requires seqnum < TWO32 && InRange(Model(), input)
      modifies this
      ensures Outcome(Model(), r) == NegoexEngine.Accept(old(Model()), crypto, input, random)
      ensures seqnum < TWO32 && (r.Ok? ==> Ready(Model()))
    {
      hide ParseFrom, NegoexEngine.ProcessAlerts, ExchangeAll, QueryAll, Restrict, NegoSchemes,
           NegoexEngine.MechAccept, NegoexEngine.VerifyChecksum, MakeOutput, OffsetsWithin;
      ghost var c := Model();
      PreparedAccept(c, input);
      if initiator || input == [] {
        return Err(DefectiveToken);
      }
      step := step + 1;
      var msgs := ParseToken(input);
      CountBounded(input, c.seqnum, c.convId);
      if msgs.Err? {
        return Err(msgs.error);
      }
      AlertsKeepLength(mechs, msgs.value);
      ProcessAlerts(msgs.value);
      if step == 1 {
        var schemes := NegoSchemes(msgs.value, InitiatorNego);
        if schemes.Err? {
          return Err(schemes.error);
        }
        mechs := Restrict(mechs, schemes.value);
        ExchangeMetaData(msgs.value);
        QueryMetaData();
        if mechs == [] {
          return Err(Negoex(NoAvailableMechs));
        }
      }
      var res, out := MechAccept(msgs.value);
      if res.Err? && out == [] {
        return Err(res.error);
      }
      assert PrepareAccept(c, input) == Preparation(Model(), Ok(Prepared(Model(), msgs.value, out, res.Ok?)));
      ghost var p := Prepared(Model(), msgs.value, out, res.Ok?);
      FinishReady(p, crypto, input, random);
      r := Conclude(crypto, msgs.value, input, out, res.Ok?, random);
    }
  }

  // ----- small facts the methods use -----

  lemma {:induction false} JoinedSnoc(schemes: seq<Guid>, k: nat)
    requires k < |schemes|
    ensures Joined(schemes[..k + 1]) == Joined(schemes[..k]) + schemes[k]
    decreases k
  {
    if k == 0 {
      assert schemes[..1][1..] == [] && schemes[..0] == [];
    } else {
      JoinedSnoc(schemes[1..], k - 1);
      assert schemes[..k + 1][1..] == schemes[1..][..k] && schemes[..k][1..] == schemes[1..][..k - 1];
    }
  }

  lemma QueryEnds(ms: seq<AuthMech>, initiator: bool)
    ensures QueryAll(ms, initiator) == [] + QueryAll(ms[0..], initiator)
    ensures forall kept :: kept + QueryAll(ms[|ms|..], initiator) == kept
  {
    assert ms[0..] == ms;
    assert QueryAll(ms[|ms|..], initiator) == [];
  }

  lemma QueryAt(ms: seq<AuthMech>, k: nat, initiator: bool, kept: seq<AuthMech>)
    requires k < |ms|
    ensures var m := ms[k].Ask(QueryMetaData(initiator));
            var md := m.mech.queryMetaData(m.calls);
            kept + QueryAll(ms[k..], initiator)
            == (if md.Ok? then kept + [m.(metadata := md.value)] else kept) + QueryAll(ms[k + 1..], initiator)
  {
    assert ms[k..][0] == ms[k] && ms[k..][1..] == ms[k + 1..];
  }

  lemma MetaEnds(ms: seq<AuthMech>, ty: MessageType)
    ensures MetaOuts(ms, ty) == [] + MetaOuts(ms[0..], ty)
    ensures forall sent :: sent + MetaOuts(ms[|ms|..], ty) == sent
  {
    assert ms[0..] == ms;
    assert MetaOuts(ms[|ms|..], ty) == [];
  }

  lemma MetaAt(ms: seq<AuthMech>, k: nat, ty: MessageType, sent: seq<Outgoing>)
    requires k < |ms|
    ensures var m := ms[k];
            sent + MetaOuts(ms[k..], ty)
            == (if m.metadata != [] then sent + [OutExchange(ty, m.scheme, m.metadata)] else sent) + MetaOuts(ms[k + 1..], ty)
  {
    assert ms[k..][0] == ms[k] && ms[k..][1..] == ms[k + 1..];
  }

  lemma OneSent(c: Ctx, o: Outgoing)
    ensures Send(c, [o]) == c.(transcript := c.transcript + Header(o.Type(), |o.Payload()|, c.seqnum, c.convId) + o.Fixed() + o.Payload(),
                               seqnum := Bump(c.seqnum))
  {
    hide Header, Outgoing.Fixed, Outgoing.Payload;
    assert EncodeAll([o][1..], Bump(c.seqnum), c.convId) == [];
    assert EncodeAll([o], c.seqnum, c.convId) == Encode(o, c.seqnum, c.convId) + [];
  }

  lemma SendNothing(c: Ctx)
    requires c.seqnum < TWO32
    ensures Send(c, []) == c
  {
  }

  lemma SendKeepsMechs(c: Ctx, os: seq<Outgoing>)
    ensures Send(c, os).mechs == c.mechs
  {
  }

  lemma {:induction false} CountBounded(token: seq<byte>, seqnum: nat, convId: Guid, pos: nat := 0)
    requires pos <= |token| && seqnum < TWO32
    ensures ParseFrom(token, pos, seqnum, convId).seqnum < TWO32
    decreases |token| - pos
  {
    hide ParseMessage;
    if pos < |token| {
      var m := ParseMessage(token, pos, seqnum, convId);
      if m.result.Ok? {
        CountBounded(token, Bump(seqnum), m.convId, m.result.value.1);
      }
    }
  }

  lemma VerifyKeepsLength(c: Ctx, crypto: Crypto, msgs: seq<Message>, input: seq<byte>)
    requires c.mechs != [] && OffsetsWithin(msgs, |input|)
    ensures NegoexEngine.VerifyChecksum(c, crypto, msgs, input).mechs != []
  {
    VerifyKeepsSent(c, crypto, msgs, input);
  }

  lemma OutputCounts(c: Ctx, crypto: Crypto, out: seq<byte>, alert: bool, random: seq<byte>)
    requires c.mechs != [] && c.seqnum < TWO32
    ensures MakeOutput(c, crypto, out, alert, random).ctx.seqnum < TWO32
  {
    hide PlainOuts, EncodeAll, NegoexEngine.MakeChecksum;
  }

  lemma FinishReady(p: Prepared, crypto: Crypto, input: seq<byte>, random: seq<byte>)
    requires p.ctx.mechs != [] && OffsetsWithin(p.msgs, |input|)
    ensures Ready(Finish(p, crypto, input, random).ctx)
  {
    hide Finish;
    FinishKeeps(p, crypto, input, random);
  }
}
