/** The IAKERB endpoints as objects, with the phase loop. */
module IakerbEndpoints {
  import opened Bytes
  import opened Iakerb
  import opened Token
  import opened Wrappers

  /** `make_token`. */
  method BuildToken(env: Env, realm: string, cookie: Option<seq<byte>>, msg: seq<byte>) returns (tok: seq<byte>)
    ensures tok == MakeToken(env, realm, cookie, msg)
  {
    hide MakeHeader, SeqLen;
    var body := env.encode(Header(realm, cookie)) + msg;
    tok := MakeTokenHeader(MECH_IAKERB(), |body|, Some(TOK_PROXY));
    tok := tok + body;
  }

  method ReadProxyBody(tok: seq<byte>) returns (r: Option<seq<byte>>)
    ensures r == ProxyBody(tok)
  {
    hide ParseHeader;
    var p := ParseTokenHeader(tok);
    if p.None? || p.value.0 != MECH_IAKERB() || |p.value.1| < 2 || p.value.1[..2] != TokId(Some(TOK_PROXY)) { return None; }
    r := Some(p.value.1[2..]);
  }

  /** `parse_token`. */
  method ReadToken(env: Env, tok: seq<byte>) returns (r: Option<Parsed>)
    ensures r == ParseToken(env, tok)
  {
    hide ProxyBody, ReadLen;
    var body := ReadProxyBody(tok);
    if body.None? || body.value == [] || body.value[0] != 0x30 { return None; }
    var len := ReadLength(body.value, 1);
    if len.None? || len.value.1 + len.value.0 > |body.value| { return None; }
    var n := len.value.1 + len.value.0;
    var h := env.decode(body.value[..n]);
    if h.None? { return None; }
    r := Some(Parsed(h.value.realm, h.value.cookie, body.value[n..]));
  }

  class IakerbInitiator {
    const env: Env
    const password: bool
    var phase: Phase
    var realm: string
    var tgt: Option<Credential>
    var service: Option<Credential>
    var asInputs: Option<seq<seq<byte>>>
    var tgsInputs: Option<seq<seq<byte>>>
    var conv: seq<byte>
    var krb5: Option<Ap<Option<seq<byte>>>>

    ghost function State(): Initiator
      reads this
    {
      Initiator(phase, realm, password, tgt, service, asInputs, tgsInputs, conv, krb5)
    }

    constructor (env: Env, realm: string, password: bool, tgt: Option<Credential>, service: Option<Credential>)
      ensures this.env == env && State() == NewInitiator(realm, password, tgt, service)
    {
      this.env, this.realm, this.password, this.tgt, this.service := env, realm, password, tgt, service;
      asInputs, tgsInputs, conv, krb5 := None, None, [], None;
      phase := if realm == "" then RealmDiscovery else if service.Some? then ApReq else if tgt.Some? then TgsReq else AsReq;
    }

    method EmitToken(r: string, cookie: Option<seq<byte>>, msg: seq<byte>) returns (s: Iakerb.Step)
      modifies this`conv
      ensures (State(), s) == EmitFrom(env, old(State()), r, cookie, msg)
    {
      hide MakeToken;
      var tok := BuildToken(env, r, cookie, msg);
      conv := conv + tok;
      s := Emit(tok);
    }

    /** `iakerb_step`. */
    method Proxy(input: Option<seq<byte>>) returns (s: Iakerb.Step)
      modifies this
      ensures (State(), s) == ProxyStep(env, old(State()), input)
    {
      hide MakeToken, ParseToken;
      var kdcIn: seq<byte>, cookie, serverRealm: string := [], None, "";
      var first := input.None? || input.value == [];
      if !first {
        var p := ReadToken(env, input.value);
        if p.None? { return Fail(Defective); }
        var failure := ProxyFailure(env, phase, p.value.message);
        conv := conv + input.value;
        serverRealm, cookie, kdcIn := p.value.realm, p.value.cookie, p.value.message;
        if failure.Some? { return Fail(failure.value); }
      }
      s := RunPhases(first, serverRealm, cookie, kdcIn);
    }

    /** The AS exchange's turn; `None` goes on to the next phase. */
    method AsPhase(ghost first: bool, ghost serverRealm: string, cookie: Option<seq<byte>>, kdcIn: seq<byte>)
      returns (s: Option<Iakerb.Step>)
      requires phase == AsReq
      modifies this
      ensures var all := Phases(env, old(State()), first, serverRealm, cookie, kdcIn);
              if s.Some? then all == (State(), s.value)
              else phase == TgsReq && all == Phases(env, State(), first, serverRealm, cookie, [])
    {
      hide MakeToken;
      if asInputs.None? && !password { return Some(Fail(NoCred)); }
      var ins := Inputs(asInputs, kdcIn);
      var x := env.asStep(realm, ins);
      asInputs := Some(ins);
      if x.Failed? && tgt.None? { return Some(Fail(x.error)); }
      if x.Send? {
        var out := EmitToken(x.realm, cookie, x.data);
        return Some(out);
      }
      if x.Done? { tgt := Some(x.cred); }
      asInputs := None;
      phase := TgsReq;
      s := None;
    }

    /** The TGS exchange's turn. */
    method TgsPhase(ghost first: bool, ghost serverRealm: string, cookie: Option<seq<byte>>, kdcIn: seq<byte>)
      returns (s: Iakerb.Step)
      requires phase == TgsReq
      modifies this
      ensures (State(), s) == Phases(env, old(State()), first, serverRealm, cookie, kdcIn)
    {
      hide MakeToken;
      if tgsInputs.None? && tgt.None? { return Fail(NoCred); }
      var ins := Inputs(tgsInputs, kdcIn);
      var x := env.tgsStep(if tgt.Some? then tgt.value else Credential([]), ins);
      tgsInputs := Some(ins);
      if x.Failed? { return Fail(x.error); }
      if x.Send? {
        s := EmitToken(x.realm, cookie, x.data);
        return;
      }
      service := Some(x.cred);
      tgsInputs := None;
      phase := ApReq;
      s := Proceed;
    }

    /** The loop of `iakerb_step` over the phases. */
    method RunPhases(first: bool, sentRealm: string, cookie: Option<seq<byte>>, message: seq<byte>) returns (s: Iakerb.Step)
      modifies this
      ensures (State(), s) == Phases(env, old(State()), first, sentRealm, cookie, message)
    {
      hide MakeToken;
      var serverRealm, kdcIn := sentRealm, message;
      ghost var all := Phases(env, State(), first, serverRealm, cookie, kdcIn);
      while true
        invariant Phases(env, State(), first, serverRealm, cookie, kdcIn) == all
        decreases 3 - Rank(phase)
      {
        match phase {
          case RealmDiscovery =>
            if first {
              s := EmitToken("", cookie, []);
              return;
            }
            if serverRealm == "" { return Fail(Defective); }
            realm, serverRealm := serverRealm, "";
            phase := AsReq;
            kdcIn := [];
          case AsReq =>
            var out := AsPhase(first, serverRealm, cookie, kdcIn);
            if out.Some? { return out.value; }
            kdcIn := [];
          case TgsReq =>
            s := TgsPhase(first, serverRealm, cookie, kdcIn);
            return;
          case ApReq => return Proceed;
        }
      }
    }

    /** `step`. */
    method Step(input: Option<seq<byte>>) returns (r: Result<Output, Error>)
      modifies this
      ensures (State(), r) == InitStep(env, old(State()), input)
    {
      hide ProxyStep;
      if phase != ApReq {
        var s := Proxy(input);
        match s {
          case Emit(tok) => return Ok(Continue(tok));
          case Fail(e) => return Err(e);
          case Proceed =>
        }
      }
      var first := krb5.None?;
      if service.None? { return Err(NoCred); }
      if first {
        var refused := env.apNew(service.value, tgt);
        if refused.Some? { return Err(refused.value); }
        krb5 := Some(Ap(conv, []));
      }
      ghost var none: seq<Option<seq<byte>>> := [];
      assert none + [None] == [None];
      krb5 := Some(krb5.value.(inputs := krb5.value.inputs + [if first then None else input]));
      r := env.apInit(service.value, krb5.value.conv, krb5.value.inputs);
    }
  }

  class IakerbAcceptor {
    const env: Env
    const realm: Option<string>
    var conv: seq<byte>
    var count: nat
    var pending: Option<string>
    var keys: bool
    var krb5: Option<Ap<seq<byte>>>

    ghost function State(): Acceptor
      reads this
    {
      Acceptor(realm, conv, count, pending, keys, krb5)
    }

    constructor (env: Env, realm: Option<string>)
      ensures this.env == env && State() == NewAcceptor(realm)
    {
      this.env, this.realm, conv, count, pending, keys, krb5 := env, realm, [], 0, None, true, None;
    }

    method EmitToken(r: string, msg: seq<byte>) returns (tok: seq<byte>)
      modifies this
      ensures (State(), tok) == EmitTo(env, old(State()), r, msg)
    {
      hide MakeToken;
      tok := BuildToken(env, r, None, msg);
      conv, count := conv + tok, count + 1;
    }

    /** `step`. */
    method Step(input: seq<byte>) returns (r: Result<Accepted, Error>)
      modifies this
      ensures (State(), r) == AcceptStep(env, old(State()), input)
    {
      hide MakeToken, ParseToken, ProxyBody;
      var proxied := ReadProxyBody(input);
      if proxied.Some? {
        if krb5.Some? || pending.Some? { return Err(Defective); }
        if count >= MAX_HOPS { return Err(TooManyHops); }
        var p := ReadToken(env, input);
        if p.None? { return Err(Defective); }
        conv := conv + input;
        if p.value.realm == "" && p.value.message == [] {
          if realm.Some? {
            var tok := EmitToken(realm.value, []);
            return Ok(Reply(Continue(tok)));
          }
          var e := env.makeError(KDC_NOT_FOUND);
          if e.None? { return Err(Other(0)); }
          var tok := EmitToken("", e.value);
          return Ok(Reply(Continue(tok)));
        }
        if p.value.realm == "" || p.value.message == [] { return Err(Defective); }
        pending := Some(p.value.realm);
        return Ok(SendToKdc(p.value.realm, p.value.message));
      }
      if pending.Some? { return Err(Defective); }
      if krb5.None? {
        if !keys { return Err(NoContext); }
        krb5 := Some(Ap(conv, []));
      }
      keys := false;
      assert [] + [input] == [input];
      krb5 := Some(krb5.value.(inputs := krb5.value.inputs + [input]));
      var x := env.apAccept(krb5.value.conv, krb5.value.inputs);
      r := if x.Ok? then Ok(Reply(x.value)) else Err(x.error);
    }

    /** `kdc_reply`. */
    method TakeReply(reply: Answer) returns (r: Result<seq<byte>, Error>)
      modifies this
      ensures (State(), r) == KdcReply(env, old(State()), reply)
    {
      hide MakeToken;
      if pending.None? { return Err(NoContext); }
      var target := pending.value;
      pending := None;
      var data;
      match reply {
        case Replied(d) => data := d;
        case Unreachable(code) =>
          var e := env.makeError(code);
          if e.None? { return Err(Other(0)); }
          data := e.value;
        case Broken(e) => return Err(e);
      }
      var tok := EmitToken(target, data);
      r := Ok(tok);
    }
  }
}
