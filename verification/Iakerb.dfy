/** IAKERB: the acceptor carries the initiator's KDC exchanges, and both keep a transcript of them. */
module Iakerb {
  import opened Bytes
  import opened Token
  import opened Wrappers

  const TOK_PROXY := 0x0501
  const KDC_NOT_FOUND := 85
  const KDC_NO_RESPONSE := 86
  const MAX_HOPS := 26

  function MECH_IAKERB(): seq<byte> { [0x2b, 0x06, 0x01, 0x05, 0x02, 0x05] }

  datatype Header = Header(realm: string, cookie: Option<seq<byte>>)

  datatype Credential = Credential(data: seq<byte>)

  datatype Error = Defective | NoCred | NoContext | KdcFailed(code: int) | NoRealm | TooManyHops | Other(code: int)

  /** What a KDC exchange does with its latest input. */
  datatype Exchanged = Send(data: seq<byte>, realm: string) | Done(cred: Credential) | Failed(error: Error)

  /** A token to send on, or the exchange's end with perhaps a last token. */
  datatype Output = Continue(token: seq<byte>) | Complete(last: Option<seq<byte>>)

  /**
   * Everything the proxying does not decide: the DER of its header, the AS and TGS exchanges (by the
   * inputs they have had), the krb5 mechanism on either side, and the KRB-ERROR messages.
   */
  datatype Env = Env(
    encode: Header -> seq<byte>,
    decode: seq<byte> -> Option<Header>,
    asStep: (string, seq<seq<byte>>) -> Exchanged,
    tgsStep: (Credential, seq<seq<byte>>) -> Exchanged,
    apNew: (Credential, Option<Credential>) -> Option<Error>,
    apInit: (Credential, seq<byte>, seq<Option<seq<byte>>>) -> Result<Output, Error>,
    apAccept: (seq<byte>, seq<seq<byte>>) -> Result<Output, Error>,
    errorCode: seq<byte> -> Option<int>,
    makeError: int -> Option<seq<byte>>)
  {
    /** The header is a DER SEQUENCE that decodes to itself. */
    ghost predicate DerLawful() {
      && (forall h: Header :: decode(encode(h)) == Some(h))
      && (forall h: Header | |encode(h)| < TWO32 :: IsElement(encode(h)))
    }

    /** The krb5 mechanism's tokens do not carry the proxy identifier. */
    ghost predicate ApLawful() {
      && (forall c: Credential, conv: seq<byte>, ins: seq<Option<seq<byte>>> :: ApOutput(apInit(c, conv, ins)))
      && (forall conv: seq<byte>, ins: seq<seq<byte>> :: ApOutput(apAccept(conv, ins)))
    }
  }

  /** The token an output carries. */
  function Carried(o: Output): Option<seq<byte>> { if o.Continue? then Some(o.token) else o.last }

  predicate ApOutput(r: Result<Output, Error>) {
    r.Ok? && Carried(r.value).Some? ==> !IsIakerbToken(Carried(r.value).value)
  }

  ghost predicate IsElement(e: seq<byte>) { exists c: seq<byte> :: |c| < TWO32 && e == TagLen(0x30, |c|) + c }

  // ----- tokens -----

  function Payload(env: Env, realm: string, cookie: Option<seq<byte>>, msg: seq<byte>): seq<byte> {
    env.encode(Header(realm, cookie)) + msg
  }

  /** `make_token`. */
  function MakeToken(env: Env, realm: string, cookie: Option<seq<byte>>, msg: seq<byte>): seq<byte> {
    var body := Payload(env, realm, cookie, msg);
    MakeHeader(MECH_IAKERB(), |body|, Some(TOK_PROXY)) + body
  }

  /** `der_element_len`. */
  function ElementLen(b: seq<byte>): Option<nat> {
    var len := ReadLen(b, 1);
    if len.None? || len.value.1 + len.value.0 > |b| then None else Some(len.value.1 + len.value.0)
  }

  datatype Parsed = Parsed(realm: string, cookie: Option<seq<byte>>, message: seq<byte>)

  /** The body of a token under the IAKERB mechanism with the proxy identifier. */
  function ProxyBody(tok: seq<byte>): Option<seq<byte>> {
    var p := ParseHeader(tok);
    if p.None? || p.value.0 != MECH_IAKERB() || |p.value.1| < 2 || p.value.1[..2] != TokId(Some(TOK_PROXY)) then None
    else Some(p.value.1[2..])
  }

  /** `is_iakerb_token`. */
  predicate IsIakerbToken(tok: seq<byte>) { ProxyBody(tok).Some? }

  /** `parse_token`; `None` is a defective token. */
  function ParseToken(env: Env, tok: seq<byte>): Option<Parsed> {
    var body := ProxyBody(tok);
    if body.None? || body.value == [] || body.value[0] != 0x30 then None else
    var n := ElementLen(body.value);
    if n.None? then None else
    var h := env.decode(body.value[..n.value]);
    if h.None? then None else Some(Parsed(h.value.realm, h.value.cookie, body.value[n.value..]))
  }

  lemma ElementReads(e: seq<byte>, msg: seq<byte>)
    requires IsElement(e)
    ensures ElementLen(e + msg) == Some(|e|) && (e + msg)[0] == 0x30
  {
    hide DerLen, ReadLen;
    var c: seq<byte> :| |c| < TWO32 && e == TagLen(0x30, |c|) + c;
    var len, b := DerLen(|c|), e + msg;
    assert b == [0x30] + len + c + msg;
    assert b[1..1 + |len|] == len;
    ReadsLen(b, 1, |c|);
  }

  /** The content of the token is of a size the framing can carry. */
  ghost predicate Carriable(env: Env, realm: string, cookie: Option<seq<byte>>, msg: seq<byte>) {
    SeqLen(MECH_IAKERB(), |Payload(env, realm, cookie, msg)|, Some(TOK_PROXY)) < TWO32
  }

  /** A token of less than 2^32 bytes has such a content. */
  lemma SmallIsCarriable(env: Env, realm: string, cookie: Option<seq<byte>>, msg: seq<byte>)
    requires |MakeToken(env, realm, cookie, msg)| < TWO32
    ensures Carriable(env, realm, cookie, msg)
  {
    hide MakeHeader, SeqLen;
    HeaderLength(|Payload(env, realm, cookie, msg)|);
  }

  /** A proxy token is recognized, and gives back the realm, cookie and message put in it. */
  lemma TokenRoundTrip(env: Env, realm: string, cookie: Option<seq<byte>>, msg: seq<byte>)
    requires env.DerLawful() && Carriable(env, realm, cookie, msg)
    ensures var tok := MakeToken(env, realm, cookie, msg);
            IsIakerbToken(tok) && ParseToken(env, tok) == Some(Parsed(realm, cookie, msg))
  {
    hide ParseHeader, MakeHeader, ElementLen, IsElement, TokId;
    var h, body := Header(realm, cookie), Payload(env, realm, cookie, msg);
    var e, id := env.encode(h), TokId(Some(TOK_PROXY));
    HeaderRoundTrip(MECH_IAKERB(), Some(TOK_PROXY), body);
    assert (id + body)[..2] == id && (id + body)[2..] == body;
    assert |e| < TWO32 && IsElement(e) && env.decode(e) == Some(h);
    ElementReads(e, msg);
    assert ProxyBody(MakeToken(env, realm, cookie, msg)) == Some(body);
    assert body == e + msg && body[..|e|] == e && body[|e|..] == msg;
    assert body != [] by { assert |e| > 0 by { NonEmpty(e); } }
    assert ElementLen(body) == Some(|e|);
    assert env.decode(body[..|e|]) == Some(h);
  }

  lemma NonEmpty(e: seq<byte>)
    requires IsElement(e)
    ensures |e| > 0
  {
  }

  lemma HeaderLength(n: nat)
    ensures |MakeHeader(MECH_IAKERB(), n, Some(TOK_PROXY))| + n >= SeqLen(MECH_IAKERB(), n, Some(TOK_PROXY))
  {
    assert |TagLen(0x06, 6)| == 2;
  }

  // ----- the initiator -----

  datatype Phase = RealmDiscovery | AsReq | TgsReq | ApReq

  function Rank(p: Phase): nat {
    match p case RealmDiscovery => 0 case AsReq => 1 case TgsReq => 2 case ApReq => 3
  }

  /** The krb5 mechanism once started: the transcript it was given and its inputs so far. */
  datatype Ap<T> = Ap(conv: seq<byte>, inputs: seq<T>)

  datatype Initiator = Initiator(
    phase: Phase, realm: string, password: bool, tgt: Option<Credential>, service: Option<Credential>,
    asInputs: Option<seq<seq<byte>>>, tgsInputs: Option<seq<seq<byte>>>,
    conv: seq<byte>, krb5: Option<Ap<Option<seq<byte>>>>)

  /** `IakerbInitiator::new`. */
  function NewInitiator(realm: string, password: bool, tgt: Option<Credential>, service: Option<Credential>): Initiator {
    Initiator(
      if realm == "" then RealmDiscovery else if service.Some? then ApReq else if tgt.Some? then TgsReq else AsReq,
      realm, password, tgt, service, None, None, [], None)
  }

  /** Either a token to emit, the AP phase, or a failure. */
  datatype Step = Emit(token: seq<byte>) | Proceed | Fail(error: Error)

  function EmitFrom(env: Env, i: Initiator, realm: string, cookie: Option<seq<byte>>, msg: seq<byte>): (Initiator, Step) {
    var tok := MakeToken(env, realm, cookie, msg);
    (i.(conv := i.conv + tok), Emit(tok))
  }

  function Inputs(history: Option<seq<seq<byte>>>, kdcIn: seq<byte>): seq<seq<byte>> {
    (if history.Some? then history.value else []) + [kdcIn]
  }

  /** The phase loop of `iakerb_step`; it ends because the phase only moves forward. */
  function Phases(env: Env, i: Initiator, first: bool, serverRealm: string, cookie: Option<seq<byte>>, kdcIn: seq<byte>):
    (r: (Initiator, Step))
    ensures Rank(r.0.phase) >= Rank(i.phase) && (r.1.Proceed? ==> r.0.phase == ApReq)
    ensures r.0.krb5 == i.krb5 && r.0.conv == i.conv + if r.1.Emit? then r.1.token else []
    decreases 3 - Rank(i.phase)
  {
    match i.phase
    case RealmDiscovery =>
      if first then EmitFrom(env, i, "", cookie, [])
      else if serverRealm == "" then (i, Fail(Defective))
      else Phases(env, i.(realm := serverRealm, phase := AsReq), first, "", cookie, [])
    case AsReq =>
      if i.asInputs.None? && !i.password then (i, Fail(NoCred)) else
      var ins := Inputs(i.asInputs, kdcIn);
      var x := env.asStep(i.realm, ins);
      if x.Send? then EmitFrom(env, i.(asInputs := Some(ins)), x.realm, cookie, x.data)
      else if x.Failed? && i.tgt.None? then (i.(asInputs := Some(ins)), Fail(x.error))
      else Phases(env, i.(tgt := if x.Done? then Some(x.cred) else i.tgt, asInputs := None, phase := TgsReq),
                  first, serverRealm, cookie, [])
    case TgsReq =>
      if i.tgsInputs.None? && i.tgt.None? then (i, Fail(NoCred)) else
      var ins := Inputs(i.tgsInputs, kdcIn);
      var x := env.tgsStep(if i.tgt.Some? then i.tgt.value else Credential([]), ins);
      if x.Send? then EmitFrom(env, i.(tgsInputs := Some(ins)), x.realm, cookie, x.data)
      else if x.Failed? then (i.(tgsInputs := Some(ins)), Fail(x.error))
      else (i.(service := Some(x.cred), tgsInputs := None, phase := ApReq), Proceed)
    case ApReq => (i, Proceed)
  }

  /** A KRB-ERROR from the proxy itself that ends the exchange. */
  function ProxyFailure(env: Env, phase: Phase, msg: seq<byte>): Option<Error> {
    if msg == [] || msg[0] != 0x7e then None else
    var code := env.errorCode(msg);
    if code.None? then Some(Other(0))
    else if code.value == KDC_NOT_FOUND && phase == RealmDiscovery then Some(NoRealm)
    else if code.value == KDC_NOT_FOUND || code.value == KDC_NO_RESPONSE then Some(KdcFailed(code.value))
    else None
  }

  /** `iakerb_step`. */
  function ProxyStep(env: Env, i: Initiator, input: Option<seq<byte>>): (Initiator, Step) {
    if input.None? || input.value == [] then Phases(env, i, true, "", None, []) else
    var p := ParseToken(env, input.value);
    if p.None? then (i, Fail(Defective)) else
    var heard := i.(conv := i.conv + input.value);
    var failure := ProxyFailure(env, i.phase, p.value.message);
    if failure.Some? then (heard, Fail(failure.value))
    else Phases(env, heard, false, p.value.realm, p.value.cookie, p.value.message)
  }

  /** The AP exchange, started with the transcript on its first step. */
  function ApStep(env: Env, i: Initiator, input: Option<seq<byte>>): (Initiator, Result<Output, Error>) {
    if i.service.None? then (i, Err(NoCred))
    else if i.krb5.None? then
      var refused := env.apNew(i.service.value, i.tgt);
      if refused.Some? then (i, Err(refused.value))
      else (i.(krb5 := Some(Ap(i.conv, [None]))), env.apInit(i.service.value, i.conv, [None]))
    else
      var k := i.krb5.value.(inputs := i.krb5.value.inputs + [input]);
      (i.(krb5 := Some(k)), env.apInit(i.service.value, k.conv, k.inputs))
  }

  /** `IakerbInitiator::step`. */
  function InitStep(env: Env, i: Initiator, input: Option<seq<byte>>): (Initiator, Result<Output, Error>) {
    if i.phase == ApReq then ApStep(env, i, input) else
    var (j, s) := ProxyStep(env, i, input);
    match s
    case Emit(tok) => (j, Ok(Continue(tok)))
    case Fail(e) => (j, Err(e))
    case Proceed => ApStep(env, j, input)
  }

  // ----- the acceptor -----

  datatype Acceptor = Acceptor(
    realm: Option<string>, conv: seq<byte>, count: nat, pending: Option<string>, keys: bool,
    krb5: Option<Ap<seq<byte>>>)

  function NewAcceptor(realm: Option<string>): Acceptor { Acceptor(realm, [], 0, None, true, None) }

  datatype Accepted = Reply(output: Output) | SendToKdc(realm: string, data: seq<byte>)

  function EmitTo(env: Env, a: Acceptor, realm: string, msg: seq<byte>): (Acceptor, seq<byte>) {
    var tok := MakeToken(env, realm, None, msg);
    (a.(conv := a.conv + tok, count := a.count + 1), tok)
  }

  /** Realm discovery answered, or a request passed on. */
  function AcceptProxy(env: Env, a: Acceptor, input: seq<byte>): (Acceptor, Result<Accepted, Error>) {
    if a.krb5.Some? || a.pending.Some? then (a, Err(Defective))
    else if a.count >= MAX_HOPS then (a, Err(TooManyHops)) else
    var p := ParseToken(env, input);
    if p.None? then (a, Err(Defective)) else
    var heard := a.(conv := a.conv + input);
    if p.value.realm == "" && p.value.message == [] then
      if a.realm.Some? then
        var (b, tok) := EmitTo(env, heard, a.realm.value, []);
        (b, Ok(Reply(Continue(tok))))
      else
        var e := env.makeError(KDC_NOT_FOUND);
        if e.None? then (heard, Err(Other(0))) else
        var (b, tok) := EmitTo(env, heard, "", e.value);
        (b, Ok(Reply(Continue(tok))))
    else if p.value.realm == "" || p.value.message == [] then (heard, Err(Defective))
    else (heard.(pending := Some(p.value.realm)), Ok(SendToKdc(p.value.realm, p.value.message)))
  }

  function AcceptAp(env: Env, a: Acceptor, input: seq<byte>): (Acceptor, Result<Accepted, Error>) {
    if a.krb5.None? && !a.keys then (a, Err(NoContext)) else
    var k := if a.krb5.Some? then a.krb5.value.(inputs := a.krb5.value.inputs + [input]) else Ap(a.conv, [input]);
    var r := env.apAccept(k.conv, k.inputs);
    (a.(keys := false, krb5 := Some(k)), if r.Ok? then Ok(Reply(r.value)) else Err(r.error))
  }

  /** `IakerbAcceptor::step`. */
  function AcceptStep(env: Env, a: Acceptor, input: seq<byte>): (Acceptor, Result<Accepted, Error>) {
    if IsIakerbToken(input) then AcceptProxy(env, a, input)
    else if a.pending.Some? then (a, Err(Defective))
    else AcceptAp(env, a, input)
  }

  /** A KDC's reply, or why there is none: an unreachable KDC or unknown realm has a code. */
  datatype Answer = Replied(data: seq<byte>) | Unreachable(code: int) | Broken(error: Error)

  /** `kdc_reply`. */
  function KdcReply(env: Env, a: Acceptor, reply: Answer): (Acceptor, Result<seq<byte>, Error>) {
    if a.pending.None? then (a, Err(NoContext)) else
    var b := a.(pending := None);
    var data := match reply
      case Replied(d) => Some(d)
      case Unreachable(code) => env.makeError(code)
      case Broken(_) => None;
    if data.None? then (b, Err(if reply.Broken? then reply.error else Other(0))) else
    var (c, tok) := EmitTo(env, b, a.pending.value, data.value);
    (c, Ok(tok))
  }
}
