/**
 * The NegoEx message codec (MS-NEGOEX section 2.2.6): the reader used on tokens from the
 * peer, the writer used for the messages we send, and the proof that the reader undoes the
 * writer on exactly the messages whose lengths fit their fields.
 */
module NegoexCodec {
  import opened Bytes
  import opened Wrappers

  const GUID_LENGTH := 16
  const MESSAGE_SIGNATURE := 0x535458454F47454E
  const MESSAGE_HEADER_LENGTH := 40
  const EXTENSION_LENGTH := 12
  const CHECKSUM_HEADER_LENGTH := 20
  const CHECKSUM_SCHEME_RFC3961 := 1
  const ALERT_LENGTH := 12
  const ALERT_PULSE_LENGTH := 8
  const ALERT_TYPE_PULSE := 1
  const ALERT_VERIFY_NO_KEY := 1

  /** An auth scheme or conversation ID. */
  type Guid = g: seq<byte> | |g| == GUID_LENGTH witness Zeros(GUID_LENGTH)

  function Zeros(n: nat): (r: seq<byte>)
    ensures |r| == n
  {
    seq(n, _ => 0)
  }

  const ZERO_GUID: Guid := Zeros(GUID_LENGTH)

  datatype MessageType =
    | InitiatorNego
    | AcceptorNego
    | InitiatorMetaData
    | AcceptorMetaData
    | Challenge
    | ApRequest
    | Verify
    | Alert

  datatype NegoexError =
    | InvalidMessageSignature
    | InvalidMessageType
    | InvalidMessageSize
    | InvalidConversationId
    | MissingNegoMessage
    | MissingApRequestMessage
    | NoAvailableMechs
    | NoVerifyKey
    | UnknownChecksumScheme
    | InvalidChecksum
    | UnsupportedCriticalExtension
    | UnsupportedVersion
    | MessageOutOfSequence

  function Code(ty: MessageType): nat {
    match ty
    case InitiatorNego => 0
    case AcceptorNego => 1
    case InitiatorMetaData => 2
    case AcceptorMetaData => 3
    case Challenge => 4
    case ApRequest => 5
    case Verify => 6
    case Alert => 7
  }

  function TypeOf(code: nat): Option<MessageType> {
    match code
    case 0 => Some(InitiatorNego)
    case 1 => Some(AcceptorNego)
    case 2 => Some(InitiatorMetaData)
    case 3 => Some(AcceptorMetaData)
    case 4 => Some(Challenge)
    case 5 => Some(ApRequest)
    case 6 => Some(Verify)
    case 7 => Some(Alert)
    case _ => None
  }

  function HeaderLen(ty: MessageType): (r: nat)
    ensures MESSAGE_HEADER_LENGTH < r <= 96
  {
    match ty
    case InitiatorNego => 96
    case AcceptorNego => 96
    case InitiatorMetaData => 64
    case AcceptorMetaData => 64
    case Challenge => 64
    case ApRequest => 64
    case Verify => 80
    case Alert => 72
  }

  predicate IsNego(ty: MessageType) { ty.InitiatorNego? || ty.AcceptorNego? }

  predicate IsExchange(ty: MessageType) {
    ty.InitiatorMetaData? || ty.AcceptorMetaData? || ty.Challenge? || ty.ApRequest?
  }

  datatype Body =
    | NegoBody(schemes: seq<Guid>)
    | ExchangeBody(scheme: Guid, token: seq<byte>)
    | VerifyBody(scheme: Guid, cksumType: int, cksum: seq<byte>, offset: nat)
    | AlertBody(scheme: Guid, verifyNoKey: bool)

  datatype Message = Message(ty: MessageType, body: Body)

  // ----- reading -----

  /** A cursor over `data` at `pos`: a read past the end sets `failed` for good and yields zeros. */
  datatype Input = Input(data: seq<byte>, pos: nat, failed: bool) {

    predicate Has(n: nat) { !failed && pos + n <= |data| }

    function Skip(n: nat): Input {
      if Has(n) then this.(pos := pos + n) else this.(failed := true)
    }

    function Guid(): Guid {
      if Has(GUID_LENGTH) then data[pos..pos + GUID_LENGTH] else ZERO_GUID
    }

    function U(n: nat): nat {
      if Has(n) then FromLe(data[pos..pos + n]) else 0
    }
  }

  function Open(data: seq<byte>): Input { Input(data, 0, false) }

  /** The `count` elements of `width` bytes at `offset`, when they lie inside `msg`. */
  function VectorBase(offset: nat, count: nat, width: nat, msg: seq<byte>): (r: Option<seq<byte>>)
    requires width > 0
    ensures r.Some? ==> offset + count * width <= |msg| && r.value == msg[offset..offset + count * width]
    ensures r.Some? <==> offset + count * width <= |msg|
  {
    VectorFits(offset, count, width, |msg|);
    if offset > |msg| || count > (|msg| - offset) / width then None
    else Some(msg[offset..offset + count * width])
  }

  lemma VectorFits(offset: nat, count: nat, width: nat, len: nat)
    requires width > 0
    ensures offset + count * width <= len <==> !(offset > len || count > (len - offset) / width)
  {
    if offset <= len {
      var room := len - offset;
      var q, r := room / width, room % width;
      assert room == width * q + r;
      MulBounds(width, count - q);
      assert width * count == width * q + width * (count - q);
      if count <= q {
        assert width * (q - count) >= 0;
      }
    }
  }

  /** `as_chunks::<16>().0` of a whole number of GUIDs. */
  function Guids(s: seq<byte>): seq<Guid> {
    if |s| < GUID_LENGTH then [] else [s[..GUID_LENGTH]] + Guids(s[GUID_LENGTH..])
  }

  /** Whether any 12-byte extension entry has the critical bit of its type set. */
  predicate HasCritical(exts: seq<byte>) {
    |exts| >= EXTENSION_LENGTH
    && (FromLe(exts[..4]) >= TWO31 || HasCritical(exts[EXTENSION_LENGTH..]))
  }

  /** The alert loop: every entry's value must lie inside the message. */
  function ScanAlerts(a: Input, n: nat, msg: seq<byte>, noKey: bool): Result<bool, NegoexError>
    decreases n
  {
    if n == 0 then Ok(noKey) else
    var atype := a.U(4);
    var voff := a.Skip(4).U(4);
    var vlen := a.Skip(4).Skip(4).U(4);
    var v := VectorBase(voff, vlen, 1, msg);
    if v.None? then Err(InvalidMessageSize) else
    var pulse := atype == ALERT_TYPE_PULSE && vlen >= ALERT_PULSE_LENGTH
                 && Open(v.value).Skip(4).U(4) == ALERT_VERIFY_NO_KEY;
    ScanAlerts(a.Skip(4).Skip(4).Skip(4), n - 1, msg, noKey || pulse)
  }

  /** `u32 as i32`. */
  function AsI32(v: nat): int { if v % TWO32 < TWO31 then v % TWO32 else v % TWO32 - TWO32 }

  /** `i32 as u32`. */
  function AsU32(v: int): nat { v % TWO32 }

  /** The type-specific part of `parse_message`; `h` reads the header past its first 40 bytes. */
  function ParseBody(ty: MessageType, h: Input, msg: seq<byte>, pos: nat): (r: Result<Body, NegoexError>)
    ensures r.Ok? && r.value.VerifyBody? ==> r.value.offset == pos
  {
    if IsNego(ty) then ParseNego(h.Skip(32), msg)
    else if IsExchange(ty) then ParseExchange(h, msg)
    else if ty.Verify? then ParseVerify(h, msg, pos)
    else ParseAlert(h, msg)
  }

  /** `h` is past the 32 random bytes. */
  function ParseNego(h: Input, msg: seq<byte>): (r: Result<Body, NegoexError>)
    ensures r.Ok? ==> r.value.NegoBody?
  {
    if h.U(8) != 0 then Err(UnsupportedVersion) else
    var h1 := h.Skip(8);
    var schemes := VectorBase(h1.U(4), h1.Skip(4).U(2), GUID_LENGTH, msg);
    if schemes.None? then Err(InvalidMessageSize) else
    var h2 := h1.Skip(4).Skip(2);
    var exts := VectorBase(h2.U(4), h2.Skip(4).U(2), EXTENSION_LENGTH, msg);
    if exts.None? then Err(InvalidMessageSize)
    else if HasCritical(exts.value) then Err(UnsupportedCriticalExtension)
    else if h2.Skip(4).Skip(2).failed then Err(InvalidMessageSize)
    else Ok(NegoBody(Guids(schemes.value)))
  }

  function ParseExchange(h: Input, msg: seq<byte>): (r: Result<Body, NegoexError>)
    ensures r.Ok? ==> r.value.ExchangeBody?
  {
    var h1 := h.Skip(GUID_LENGTH);
    var token := VectorBase(h1.U(4), h1.Skip(4).U(4), 1, msg);
    if token.None? || h1.Skip(4).Skip(4).failed then Err(InvalidMessageSize)
    else Ok(ExchangeBody(h.Guid(), token.value))
  }

  function ParseVerify(h: Input, msg: seq<byte>, pos: nat): (r: Result<Body, NegoexError>)
    ensures r.Ok? ==> r.value.VerifyBody? && r.value.offset == pos
  {
    var h1 := h.Skip(GUID_LENGTH);
    if h1.U(4) != CHECKSUM_HEADER_LENGTH then Err(InvalidMessageSize) else
    var h2 := h1.Skip(4);
    if h2.U(4) != CHECKSUM_SCHEME_RFC3961 then Err(UnknownChecksumScheme) else
    var h3 := h2.Skip(4);
    var h4 := h3.Skip(4);
    var cksum := VectorBase(h4.U(4), h4.Skip(4).U(4), 1, msg);
    if cksum.None? || h4.Skip(4).Skip(4).failed then Err(InvalidMessageSize)
    else Ok(VerifyBody(h.Guid(), AsI32(h3.U(4)), cksum.value, pos))
  }

  function ParseAlert(h: Input, msg: seq<byte>): (r: Result<Body, NegoexError>)
    ensures r.Ok? ==> r.value.AlertBody?
  {
    var h1 := h.Skip(GUID_LENGTH).Skip(4);
    var n := h1.Skip(4).U(4);
    var alerts := VectorBase(h1.U(4), n, ALERT_LENGTH, msg);
    if alerts.None? then Err(InvalidMessageSize) else
    var noKey := ScanAlerts(Open(alerts.value), n, msg, false);
    if noKey.Err? then Err(noKey.error)
    else if h1.Skip(4).Skip(4).failed then Err(InvalidMessageSize)
    else Ok(AlertBody(h.Guid(), noKey.value))
  }

  /** The fields every message starts with. */
  datatype Prologue = Prologue(signature: nat, ty: nat, seqnum: nat, headerLen: nat, msgLen: nat, convId: Guid, failed: bool)

  function ReadPrologue(rest: seq<byte>): Prologue {
    var i0 := Open(rest);
    var i1 := i0.Skip(8);
    var i2 := i1.Skip(4);
    var i3 := i2.Skip(4);
    var i4 := i3.Skip(4);
    var i5 := i4.Skip(4);
    Prologue(i0.U(8), i1.U(4), i2.U(4), i3.U(4), i4.U(4), i5.Guid(), i5.Skip(GUID_LENGTH).failed)
  }

  /** The outcome of reading one message: our conversation ID afterwards, and the message with its end. */
  datatype Parsed = Parsed(convId: Guid, result: Result<(Message, nat), NegoexError>)

  /** `parse_message` at `pos`, when `seqnum` messages have gone before. */
  function ParseMessage(token: seq<byte>, pos: nat, seqnum: nat, convId: Guid): (r: Parsed)
    requires pos <= |token|
    ensures r.result.Ok? ==> pos + MESSAGE_HEADER_LENGTH <= r.result.value.1 <= |token|
    ensures r.result.Ok? && r.result.value.0.body.VerifyBody? ==> r.result.value.0.body.offset == pos
  {
    var rest := token[pos..];
    var p := ReadPrologue(rest);
    if p.failed || p.msgLen > |rest| || p.headerLen > p.msgLen || p.headerLen < MESSAGE_HEADER_LENGTH then
      Parsed(convId, Err(InvalidMessageSize))
    else if p.signature != MESSAGE_SIGNATURE then Parsed(convId, Err(InvalidMessageSignature))
    else if p.seqnum != seqnum then Parsed(convId, Err(MessageOutOfSequence))
    else if p.seqnum != 0 && p.convId != convId then Parsed(convId, Err(InvalidConversationId))
    else
      var conv := if p.seqnum == 0 then p.convId else convId;
      var ty := TypeOf(p.ty);
      if ty.None? then Parsed(conv, Err(InvalidMessageType)) else
      var body := ParseBody(ty.value, Open(rest[MESSAGE_HEADER_LENGTH..p.headerLen]), rest[..p.msgLen], pos);
      if body.Err? then Parsed(conv, Err(body.error))
      else Parsed(conv, Ok((Message(ty.value, body.value), pos + p.msgLen)))
  }

  /** `seqnum += 1` on a `u32`. */
  function Bump(seqnum: nat): nat { (seqnum + 1) % TWO32 }

  datatype Tokens = Tokens(convId: Guid, seqnum: nat, result: Result<seq<Message>, NegoexError>)

  /** `parse_token` from `pos` on. */
  function ParseFrom(token: seq<byte>, pos: nat, seqnum: nat, convId: Guid): Tokens
    requires pos <= |token|
    decreases |token| - pos
  {
    if pos == |token| then Tokens(convId, seqnum, Ok([])) else
    var m := ParseMessage(token, pos, seqnum, convId);
    if m.result.Err? then Tokens(m.convId, seqnum, Err(m.result.error)) else
    var t := ParseFrom(token, m.result.value.1, Bump(seqnum), m.convId);
    if t.result.Err? then t
    else t.(result := Ok([m.result.value.0] + t.result.value))
  }

  // ----- writing -----

  /** A message as the `add_*` functions are asked to write it. */
  datatype Outgoing =
    | OutNego(ty: MessageType, random: seq<byte>, schemes: seq<Guid>)
    | OutExchange(ty: MessageType, scheme: Guid, token: seq<byte>)
    | OutVerify(scheme: Guid, cksumType: int, cksum: seq<byte>)
    | OutAlert(scheme: Guid)
  {
    /** What the callers of the `add_*` functions always pass. */
    ghost predicate WellTyped() {
      match this
      case OutNego(ty, random, _) => IsNego(ty) && |random| == 32
      case OutExchange(ty, _, _) => IsExchange(ty)
      case OutVerify(_, t, _) => -TWO31 <= t < TWO31
      case OutAlert(_) => true
    }

    function Type(): MessageType {
      match this
      case OutNego(ty, _, _) => ty
      case OutExchange(ty, _, _) => ty
      case OutVerify(_, _, _) => Verify
      case OutAlert(_) => Alert
    }

    /** The header fields after the prologue. */
    function Fixed(): seq<byte> {
      var start := HeaderLen(Type());
      match this
      case OutNego(_, random, schemes) =>
        random + (Le(0, 8) + (Le(start, 4) + (Le(|schemes|, 2) + (Le(start, 4) + (Le(0, 2) + Zeros(4))))))
      case OutExchange(_, scheme, token) =>
        scheme + (Le(start, 4) + Le(|token|, 4))
      case OutVerify(scheme, t, cksum) =>
        scheme + (Le(CHECKSUM_HEADER_LENGTH, 4) + (Le(CHECKSUM_SCHEME_RFC3961, 4) +
                  (Le(AsU32(t), 4) + (Le(start, 4) + (Le(|cksum|, 4) + Zeros(4))))))
      case OutAlert(scheme) =>
        scheme + (Le(0, 4) + (Le(start, 4) + (Le(1, 2) + Zeros(6))))
    }

    function Payload(): seq<byte> {
      match this
      case OutNego(_, _, schemes) => Joined(schemes)
      case OutExchange(_, _, token) => token
      case OutVerify(_, _, cksum) => cksum
      case OutAlert(_) =>
        Le(ALERT_TYPE_PULSE, 4) + (Le(HeaderLen(Alert) + ALERT_LENGTH, 4) + (Le(ALERT_PULSE_LENGTH, 4) +
           (Le(ALERT_PULSE_LENGTH, 4) + Le(ALERT_VERIFY_NO_KEY, 4))))
    }

    /** The message the peer should read when this one starts at `pos` of its token. */
    function Meaning(pos: nat): Message {
      match this
      case OutNego(ty, _, schemes) => Message(ty, NegoBody(schemes))
      case OutExchange(ty, scheme, token) => Message(ty, ExchangeBody(scheme, token))
      case OutVerify(scheme, t, cksum) => Message(Verify, VerifyBody(scheme, t, cksum, pos))
      case OutAlert(scheme) => Message(Alert, AlertBody(scheme, true))
    }

    /** Every length fits the field it is written to. */
    ghost predicate Fits() {
      && HeaderLen(Type()) + |Payload()| < TWO32
      && (OutNego? ==> |schemes| < TWO16)
    }
  }

  /** The schemes a 16-bit count can announce. */
  function Counted(schemes: seq<Guid>): (r: seq<Guid>)
    ensures r == schemes <==> |schemes| < TWO16
  {
    var n := |schemes| % TWO16;
    assert n == |schemes| ==> schemes[..n] == schemes;
    schemes[..n]
  }

  function Joined(schemes: seq<Guid>): (r: seq<byte>)
    ensures |r| == GUID_LENGTH * |schemes|
  {
    if schemes == [] then [] else schemes[0] + Joined(schemes[1..])
  }

  /** `put_header`. */
  function Header(ty: MessageType, payloadLen: nat, seqnum: nat, convId: Guid): (r: seq<byte>)
    ensures |r| == MESSAGE_HEADER_LENGTH
  {
    Le(MESSAGE_SIGNATURE, 8) + (Le(Code(ty), 4) + (Le(seqnum, 4) + (Le(HeaderLen(ty), 4) +
       (Le(HeaderLen(ty) + payloadLen, 4) + convId))))
  }

  /** The bytes appended to the transcript for one message. */
  function Encode(o: Outgoing, seqnum: nat, convId: Guid): (r: seq<byte>)
    ensures |r| >= MESSAGE_HEADER_LENGTH
  {
    Header(o.Type(), |o.Payload()|, seqnum, convId) + (o.Fixed() + o.Payload())
  }

  function EncodeAll(os: seq<Outgoing>, seqnum: nat, convId: Guid): seq<byte> {
    if os == [] then [] else Encode(os[0], seqnum, convId) + EncodeAll(os[1..], Bump(seqnum), convId)
  }

  /** The messages the peer should read from `EncodeAll(os, ..)` placed at `pos`. */
  function Meanings(os: seq<Outgoing>, pos: nat): seq<Message> {
    if os == [] then [] else
    [os[0].Meaning(pos)] + Meanings(os[1..], pos + MESSAGE_HEADER_LENGTH + |os[0].Fixed()| + |os[0].Payload()|)
  }

  // ----- the reader undoes the writer -----

  lemma {:induction false} GuidsJoined(schemes: seq<Guid>)
    ensures Guids(Joined(schemes)) == schemes
  {
    if schemes != [] {
      GuidsJoined(schemes[1..]);
      Seam(schemes[0], Joined(schemes[1..]));
    }
  }

  lemma {:induction false} JoinedPrefix(schemes: seq<Guid>, k: nat)
    requires k <= |schemes|
    ensures Joined(schemes)[..GUID_LENGTH * k] == Joined(schemes[..k])
  {
    if k > 0 {
      JoinedPrefix(schemes[1..], k - 1);
      assert schemes[..k][1..] == schemes[1..][..k - 1];
      PrefixOfSum(schemes[0], Joined(schemes[1..]), GUID_LENGTH * (k - 1));
    }
  }

  lemma PrefixOfSum(a: seq<byte>, b: seq<byte>, n: nat)
    requires n <= |b|
    ensures (a + b)[..|a| + n] == a + b[..n]
  {
  }

  lemma PrologueLayout(d: seq<byte>, a: seq<byte>, b: seq<byte>, c: seq<byte>, e: seq<byte>, f: seq<byte>, g: Guid, more: seq<byte>)
    requires |a| == 8 && |b| == |c| == |e| == |f| == 4
    requires d == (a + (b + (c + (e + (f + g))))) + more
    ensures |d| >= 40 && d[0..8] == a && d[8..12] == b && d[12..16] == c && d[16..20] == e && d[20..24] == f && d[24..40] == g
  {
  }

  lemma PrologueFields(d: seq<byte>)
    requires |d| >= 40
    ensures ReadPrologue(d) == Prologue(FromLe(d[0..8]), FromLe(d[8..12]), FromLe(d[12..16]), FromLe(d[16..20]),
                                        FromLe(d[20..24]), d[24..40], false)
  {
    var i1 := Open(d).Skip(8);
    assert i1 == Input(d, 8, false);
    var i2 := i1.Skip(4);
    assert i2 == Input(d, 12, false);
    var i3 := i2.Skip(4);
    assert i3 == Input(d, 16, false);
    var i4 := i3.Skip(4);
    assert i4 == Input(d, 20, false);
    assert i4.Skip(4) == Input(d, 24, false);
  }

  lemma PrologueReads(ty: MessageType, payloadLen: nat, seqnum: nat, convId: Guid, more: seq<byte>)
    ensures ReadPrologue(Header(ty, payloadLen, seqnum, convId) + more)
            == Prologue(MESSAGE_SIGNATURE, Code(ty), seqnum % TWO32, HeaderLen(ty),
                        (HeaderLen(ty) + payloadLen) % TWO32, convId, false)
  {
    hide Le, FromLe;
    var d := Header(ty, payloadLen, seqnum, convId) + more;
    PrologueLayout(d, Le(MESSAGE_SIGNATURE, 8), Le(Code(ty), 4), Le(seqnum, 4), Le(HeaderLen(ty), 4),
                   Le(HeaderLen(ty) + payloadLen, 4), convId, more);
    PrologueFields(d);
    Le64(MESSAGE_SIGNATURE);
    Le32(Code(ty));
    Le32(seqnum);
    Le32(HeaderLen(ty));
    Le32(HeaderLen(ty) + payloadLen);
  }

  lemma FixedLength(o: Outgoing)
    requires o.WellTyped()
    ensures MESSAGE_HEADER_LENGTH + |o.Fixed()| == HeaderLen(o.Type())
  {
  }

  lemma NegoLayout(d: seq<byte>, random: seq<byte>, version: seq<byte>, off: seq<byte>, count: seq<byte>,
                   off': seq<byte>, count': seq<byte>, pad: seq<byte>)
    requires |random| == 32 && |version| == 8 && |off| == |off'| == 4 && |count| == |count'| == 2
    requires d == random + (version + (off + (count + (off' + (count' + pad)))))
    ensures |d| >= 52 && d[32..40] == version && d[40..44] == off && d[44..46] == count && d[46..50] == off' && d[50..52] == count'
  {
  }

  lemma NegoFields(d: seq<byte>, msg: seq<byte>)
    requires |d| >= 52 && FromLe(d[32..40]) == 0 && FromLe(d[50..52]) == 0 && FromLe(d[46..50]) <= |msg|
    requires FromLe(d[40..44]) + FromLe(d[44..46]) * GUID_LENGTH <= |msg|
    ensures ParseNego(Open(d).Skip(32), msg)
            == Ok(NegoBody(Guids(msg[FromLe(d[40..44])..FromLe(d[40..44]) + FromLe(d[44..46]) * GUID_LENGTH])))
  {
    hide Le, FromLe;
    var h := Open(d).Skip(32);
    assert h == Input(d, 32, false);
    var h1 := h.Skip(8);
    assert h1 == Input(d, 40, false);
    assert h1.Skip(4) == Input(d, 44, false);
    var h2 := h1.Skip(4).Skip(2);
    assert h2 == Input(d, 46, false);
    assert h2.Skip(4) == Input(d, 50, false);
    assert h2.Skip(4).Skip(2) == Input(d, 52, false);
  }

  lemma NegoReads(o: Outgoing, msg: seq<byte>)
    requires o.OutNego? && o.WellTyped() && 96 + |o.Payload()| < TWO32
    requires |msg| == 96 + |o.Payload()| && msg[96..] == o.Payload()
    ensures ParseNego(Open(o.Fixed()).Skip(32), msg) == Ok(NegoBody(Counted(o.schemes)))
  {
    hide Le, FromLe, Joined;
    var n, start := |o.schemes|, HeaderLen(o.ty);
    var k := n % TWO16;
    NegoLayout(o.Fixed(), o.random, Le(0, 8), Le(start, 4), Le(n, 2), Le(start, 4), Le(0, 2), Zeros(4));
    Le64(0);
    Le32(start);
    Le16(n);
    Le16(0);
    JoinedPrefix(o.schemes, k);
    assert msg[96..][..GUID_LENGTH * k] == msg[96..96 + k * GUID_LENGTH];
    GuidsJoined(o.schemes[..k]);
    NegoFields(o.Fixed(), msg);
  }

  lemma ExchangeLayout(d: seq<byte>, scheme: Guid, off: seq<byte>, len: seq<byte>)
    requires |off| == |len| == 4 && d == scheme + (off + len)
    ensures |d| == 24 && d[..16] == scheme && d[16..20] == off && d[20..24] == len
  {
  }

  lemma ExchangeFields(d: seq<byte>, msg: seq<byte>)
    requires |d| >= 24
    requires FromLe(d[16..20]) + FromLe(d[20..24]) <= |msg|
    ensures ParseExchange(Open(d), msg)
            == Ok(ExchangeBody(d[..16], msg[FromLe(d[16..20])..FromLe(d[16..20]) + FromLe(d[20..24])]))
  {
    var h1 := Open(d).Skip(GUID_LENGTH);
    assert h1 == Input(d, 16, false);
    assert h1.Skip(4) == Input(d, 20, false);
    assert h1.Skip(4).Skip(4) == Input(d, 24, false);
  }

  lemma ExchangeReads(o: Outgoing, msg: seq<byte>)
    requires o.OutExchange? && o.WellTyped() && o.Fits()
    requires |msg| == 64 + |o.Payload()| && msg[64..] == o.Payload()
    ensures ParseExchange(Open(o.Fixed()), msg) == Ok(ExchangeBody(o.scheme, o.token))
  {
    hide Le, FromLe;
    var start := HeaderLen(o.ty);
    ExchangeLayout(o.Fixed(), o.scheme, Le(start, 4), Le(|o.token|, 4));
    Le32(start);
    Le32(|o.token|);
    ExchangeFields(o.Fixed(), msg);
    assert msg[64..64 + |o.token|] == o.token;
  }

  lemma VerifyLayout(d: seq<byte>, scheme: Guid, a: seq<byte>, b: seq<byte>, t: seq<byte>, off: seq<byte>,
                     len: seq<byte>, pad: seq<byte>)
    requires |a| == |b| == |t| == |off| == |len| == 4
    requires d == scheme + (a + (b + (t + (off + (len + pad)))))
    ensures |d| >= 36 && d[..16] == scheme && d[16..20] == a && d[20..24] == b && d[24..28] == t && d[28..32] == off && d[32..36] == len
  {
  }

  lemma VerifyFields(d: seq<byte>, msg: seq<byte>, pos: nat)
    requires |d| >= 36
    requires FromLe(d[16..20]) == CHECKSUM_HEADER_LENGTH && FromLe(d[20..24]) == CHECKSUM_SCHEME_RFC3961
    requires FromLe(d[28..32]) + FromLe(d[32..36]) <= |msg|
    ensures ParseVerify(Open(d), msg, pos)
            == Ok(VerifyBody(d[..16], AsI32(FromLe(d[24..28])), msg[FromLe(d[28..32])..FromLe(d[28..32]) + FromLe(d[32..36])], pos))
  {
    var h1 := Open(d).Skip(GUID_LENGTH);
    assert h1 == Input(d, 16, false);
    var h2 := h1.Skip(4);
    assert h2 == Input(d, 20, false);
    var h3 := h2.Skip(4);
    assert h3 == Input(d, 24, false);
    var h4 := h3.Skip(4);
    assert h4 == Input(d, 28, false);
    assert h4.Skip(4) == Input(d, 32, false);
    assert h4.Skip(4).Skip(4) == Input(d, 36, false);
  }

  lemma VerifyReads(o: Outgoing, msg: seq<byte>, pos: nat)
    requires o.OutVerify? && o.WellTyped() && o.Fits()
    requires |msg| == 80 + |o.Payload()| && msg[80..] == o.Payload()
    ensures ParseVerify(Open(o.Fixed()), msg, pos) == Ok(VerifyBody(o.scheme, o.cksumType, o.cksum, pos))
  {
    hide Le, FromLe;
    var start, t := HeaderLen(Verify), AsU32(o.cksumType);
    VerifyLayout(o.Fixed(), o.scheme, Le(CHECKSUM_HEADER_LENGTH, 4), Le(CHECKSUM_SCHEME_RFC3961, 4), Le(t, 4), Le(start, 4),
                 Le(|o.cksum|, 4), Zeros(4));
    Le32(CHECKSUM_HEADER_LENGTH);
    Le32(CHECKSUM_SCHEME_RFC3961);
    Le32(t);
    Le32(start);
    Le32(|o.cksum|);
    VerifyFields(o.Fixed(), msg, pos);
    assert msg[80..80 + |o.cksum|] == o.cksum;
  }

  lemma AlertLayout(d: seq<byte>, scheme: Guid, reason: seq<byte>, off: seq<byte>, count: seq<byte>, pad: seq<byte>)
    requires |reason| == |off| == |count| == 4
    requires d == scheme + (reason + (off + (count + pad)))
    ensures |d| >= 28 && d[..16] == scheme && d[20..24] == off && d[24..28] == count
  {
  }

  lemma AlertFields(d: seq<byte>, msg: seq<byte>)
    requires |d| >= 28 && FromLe(d[20..24]) + FromLe(d[24..28]) * ALERT_LENGTH <= |msg|
    ensures var off, n := FromLe(d[20..24]), FromLe(d[24..28]);
            var noKey := ScanAlerts(Open(msg[off..off + n * ALERT_LENGTH]), n, msg, false);
            noKey.Ok? ==> ParseAlert(Open(d), msg) == Ok(AlertBody(d[..16], noKey.value))
  {
    hide FromLe, ScanAlerts, VectorBase;
    assert Open(d).Skip(GUID_LENGTH) == Input(d, 16, false);
    var h1 := Open(d).Skip(GUID_LENGTH).Skip(4);
    assert h1 == Input(d, 20, false);
    assert h1.Skip(4) == Input(d, 24, false);
    assert h1.Skip(4).Skip(4) == Input(d, 28, false);
  }

  lemma EntryLayout(d: seq<byte>, ty: seq<byte>, off: seq<byte>, len: seq<byte>)
    requires |ty| == |off| == |len| == 4 && d == ty + (off + len)
    ensures |d| == 12 && d[0..4] == ty && d[4..8] == off && d[8..12] == len
  {
  }

  lemma EntryFields(d: seq<byte>, msg: seq<byte>, v: seq<byte>)
    requires |d| == 12 && |v| == 8
    requires FromLe(d[0..4]) == ALERT_TYPE_PULSE && FromLe(d[8..12]) == ALERT_PULSE_LENGTH && FromLe(v[4..8]) == ALERT_VERIFY_NO_KEY
    requires FromLe(d[4..8]) + 8 <= |msg| && msg[FromLe(d[4..8])..FromLe(d[4..8]) + 8] == v
    ensures ScanAlerts(Open(d), 1, msg, false) == Ok(true)
  {
    hide FromLe, VectorBase, ScanAlerts;
    var a := Open(d);
    assert a.Skip(4) == Input(d, 4, false);
    assert a.Skip(4).Skip(4) == Input(d, 8, false);
    assert Open(v).Skip(4) == Input(v, 4, false);
    var off := FromLe(d[4..8]);
    assert VectorBase(off, 8, 1, msg) == Some(v);
    ScanOne(a, 1, msg, off, v);
  }

  /** One alert entry that points at a no-key pulse. */
  lemma ScanOne(a: Input, n: nat, msg: seq<byte>, off: nat, v: seq<byte>)
    requires n == 1 && a.U(4) == ALERT_TYPE_PULSE && a.Skip(4).U(4) == off && a.Skip(4).Skip(4).U(4) == 8
    requires VectorBase(off, 8, 1, msg) == Some(v) && Open(v).Skip(4).U(4) == ALERT_VERIFY_NO_KEY
    ensures ScanAlerts(a, n, msg, false) == Ok(true)
  {
    hide FromLe, VectorBase, Input.U, Input.Skip;
    assert ScanAlerts(a.Skip(4).Skip(4).Skip(4), n - 1, msg, true) == Ok(true);
  }

  /** The alert payload: one 12-byte entry and the 8-byte pulse it points at. */
  lemma PulseLayout(ty: seq<byte>, off: seq<byte>, len: seq<byte>, no: seq<byte>, p: seq<byte>)
    requires |ty| == |off| == |len| == |no| == 4 && p == ty + (off + (len + (len + no)))
    ensures |p| == 20 && p[..12] == ty + (off + len) && p[12..20] == len + no && p[12..20][4..8] == no
  {
  }

  lemma AlertEntryReads(msg: seq<byte>, p: seq<byte>)
    requires p == OutAlert(ZERO_GUID).Payload() && |msg| == 72 + |p| && msg[72..] == p
    ensures |p| == 20 && ScanAlerts(Open(msg[72..84]), 1, msg, false) == Ok(true)
  {
    hide Le, FromLe, ScanAlerts;
    var value := HeaderLen(Alert) + ALERT_LENGTH;
    var ty, off, len, no := Le(ALERT_TYPE_PULSE, 4), Le(value, 4), Le(ALERT_PULSE_LENGTH, 4), Le(ALERT_VERIFY_NO_KEY, 4);
    PulseLayout(ty, off, len, no, p);
    EntryLayout(p[..12], ty, off, len);
    Le32(ALERT_TYPE_PULSE);
    Le32(value);
    Le32(ALERT_PULSE_LENGTH);
    Le32(ALERT_VERIFY_NO_KEY);
    MovedSlices(msg, p);
    EntryFields(msg[72..84], msg, p[12..20]);
  }

  lemma MovedSlices(msg: seq<byte>, p: seq<byte>)
    requires |p| == 20 && |msg| == 92 && msg[72..] == p
    ensures msg[72..84] == p[..12] && msg[84..92] == p[12..20]
  {
  }

  /** The 16-bit alert count and its padding read as a 32-bit count. */
  lemma CountField()
    ensures Le(1, 2) + Zeros(6) == Le(1, 4) + Zeros(4)
  {
    PowFacts();
  }

  lemma AlertReads(o: Outgoing, msg: seq<byte>)
    requires o.OutAlert?
    requires |msg| == 72 + |o.Payload()| && msg[72..] == o.Payload()
    ensures ParseAlert(Open(o.Fixed()), msg) == Ok(AlertBody(o.scheme, true))
  {
    hide FromLe;
    AlertEntryReads(msg, o.Payload());
    var start, count := HeaderLen(Alert), Le(1, 4);
    CountField();
    AlertLayout(o.Fixed(), o.scheme, Le(0, 4), Le(start, 4), count, Zeros(4));
    Le32(start);
    Le32(1);
    AlertFields(o.Fixed(), msg);
  }

  /** What the type-specific part of a message reads as, when its payload length fits. */
  function Reading(o: Outgoing, pos: nat): Body {
    if o.OutNego? then NegoBody(Counted(o.schemes)) else o.Meaning(pos).body
  }

  lemma BodyReads(o: Outgoing, msg: seq<byte>, pos: nat)
    requires o.WellTyped() && HeaderLen(o.Type()) + |o.Payload()| < TWO32
    requires |msg| == HeaderLen(o.Type()) + |o.Payload()| && msg[HeaderLen(o.Type())..] == o.Payload()
    ensures ParseBody(o.Type(), Open(o.Fixed()), msg, pos) == Ok(Reading(o, pos))
  {
    hide Le, FromLe, ParseNego, ParseExchange, ParseVerify, ParseAlert;
    match o
    case OutNego(_, _, _) => NegoReads(o, msg);
    case OutExchange(_, _, _) => ExchangeReads(o, msg);
    case OutVerify(_, _, _) => VerifyReads(o, msg, pos);
    case OutAlert(_) => AlertReads(o, msg);
  }

  lemma MessageLayout(pre: seq<byte>, header: seq<byte>, fixed: seq<byte>, payload: seq<byte>, post: seq<byte>)
    ensures var msg := header + (fixed + payload);
            var rest := (pre + msg + post)[|pre|..];
            && rest == header + ((fixed + payload) + post)
            && rest[..|msg|] == msg
            && rest[|header|..|header| + |fixed|] == fixed
            && msg[|header| + |fixed|..] == payload
  {
  }

  /** What reading a message we wrote should give: the sender's conversation, the message and its end. */
  function Faithful(pre: seq<byte>, o: Outgoing, seqnum: nat, sender: Guid): Parsed {
    Parsed(sender, Ok((o.Meaning(|pre|), |pre| + |Encode(o, seqnum, sender)|)))
  }

  /**
   * A message written at the end of `pre` is read back from there, whatever follows it, exactly
   * when its lengths fit the fields they are written to.
   */
  lemma MessageRoundTrip(pre: seq<byte>, o: Outgoing, post: seq<byte>, seqnum: nat, sender: Guid, receiver: Guid)
    requires o.WellTyped()
    requires seqnum < TWO32 && (seqnum == 0 || sender == receiver)
    ensures ParseMessage(pre + Encode(o, seqnum, sender) + post, |pre|, seqnum, receiver) == Faithful(pre, o, seqnum, sender)
            <==> o.Fits()
  {
    hide Le, FromLe, ReadPrologue, ParseBody, Header, Outgoing.Fixed, Outgoing.Payload;
    var msg := Encode(o, seqnum, sender);
    var header := Header(o.Type(), |o.Payload()|, seqnum, sender);
    FixedLength(o);
    MessageLayout(pre, header, o.Fixed(), o.Payload(), post);
    PrologueReads(o.Type(), |o.Payload()|, seqnum, sender, (o.Fixed() + o.Payload()) + post);
    if HeaderLen(o.Type()) + |o.Payload()| < TWO32 {
      BodyReads(o, msg, |pre|);
    }
  }

  lemma AdvanceStep(seqnum: nat, n: nat)
    requires n > 0
    ensures (Bump(seqnum) + (n - 1)) % TWO32 == (seqnum + n) % TWO32
  {
    var q := (seqnum + 1) / TWO32;
    assert seqnum + n == TWO32 * q + (Bump(seqnum) + (n - 1));
  }

  /** A token made of written messages is read back whole, by a peer that has counted as far as we have. */
  lemma {:induction false} TokenRoundTrip(pre: seq<byte>, os: seq<Outgoing>, seqnum: nat, sender: Guid, receiver: Guid)
    requires forall o | o in os :: o.WellTyped() && o.Fits()
    requires seqnum < TWO32 && (seqnum == 0 || sender == receiver)
    ensures ParseFrom(pre + EncodeAll(os, seqnum, sender), |pre|, seqnum, receiver)
            == Tokens(if os == [] then receiver else sender, (seqnum + |os|) % TWO32, Ok(Meanings(os, |pre|)))
    decreases |os|
  {
    hide Encode, ParseMessage, Outgoing.Fixed, Outgoing.Payload, Outgoing.Meaning, Outgoing.Fits, Outgoing.WellTyped;
    if os == [] {
      assert pre + EncodeAll(os, seqnum, sender) == pre;
    } else {
      var o, msg := os[0], Encode(os[0], seqnum, sender);
      var post := EncodeAll(os[1..], Bump(seqnum), sender);
      var token := pre + (msg + post);
      assert token == pre + msg + post;
      MessageRoundTrip(pre, o, post, seqnum, sender, receiver);
      TokenRoundTrip(pre + msg, os[1..], Bump(seqnum), sender, sender);
      AdvanceStep(seqnum, |os|);
      EncodeLength(o, seqnum, sender);
    }
  }

  lemma EncodeLength(o: Outgoing, seqnum: nat, convId: Guid)
    ensures |Encode(o, seqnum, convId)| == MESSAGE_HEADER_LENGTH + |o.Fixed()| + |o.Payload()|
  {
  }

  // ----- tokens from an arbitrary peer -----

  /** `token[start..end]` is one frame: our signature, the expected number, and its own length. */
  ghost predicate Frame(token: seq<byte>, start: nat, end: nat, seqnum: nat) {
    && start + MESSAGE_HEADER_LENGTH <= end <= |token|
    && FromLe(token[start..start + 8]) == MESSAGE_SIGNATURE
    && FromLe(token[start + 12..start + 16]) == seqnum
    && start + FromLe(token[start + 20..start + 24]) == end
  }

  /** The frames ending at `ends` follow one another from `pos` to the end of the token. */
  ghost predicate Tiles(token: seq<byte>, pos: nat, ends: seq<nat>, seqnum: nat)
    decreases |ends|
  {
    if ends == [] then pos == |token|
    else Frame(token, pos, ends[0], seqnum) && Tiles(token, ends[0], ends[1..], Bump(seqnum))
  }

  lemma FrameOf(token: seq<byte>, pos: nat, seqnum: nat, convId: Guid)
    requires pos <= |token| && ParseMessage(token, pos, seqnum, convId).result.Ok?
    ensures Frame(token, pos, ParseMessage(token, pos, seqnum, convId).result.value.1, seqnum)
  {
    hide FromLe, ParseBody, ReadPrologue;
    var rest := token[pos..];
    ShortPrologue(rest);
    PrologueFields(rest);
    assert rest[0..8] == token[pos..pos + 8];
    assert rest[12..16] == token[pos + 12..pos + 16];
    assert rest[20..24] == token[pos + 20..pos + 24];
  }

  lemma ShortPrologue(d: seq<byte>)
    ensures |d| < MESSAGE_HEADER_LENGTH ==> ReadPrologue(d).failed
  {
  }

  /**
   * Whatever bytes the peer sends, an accepted token is tiled by its messages and moves our
   * counter by their number.
   */
  lemma {:induction false} AcceptedTokenIsTiled(token: seq<byte>, pos: nat, seqnum: nat, convId: Guid)
    returns (ends: seq<nat>)
    requires pos <= |token| && ParseFrom(token, pos, seqnum, convId).result.Ok?
    ensures Tiles(token, pos, ends, seqnum)
    ensures |ends| == |ParseFrom(token, pos, seqnum, convId).result.value|
    ensures |ends| > 0 ==> ParseFrom(token, pos, seqnum, convId).seqnum == (seqnum + |ends|) % TWO32
    decreases |token| - pos
  {
    hide ParseMessage, Frame;
    ends := [];
    if pos < |token| {
      var m := ParseMessage(token, pos, seqnum, convId);
      FrameOf(token, pos, seqnum, convId);
      var rest := AcceptedTokenIsTiled(token, m.result.value.1, Bump(seqnum), m.convId);
      ends := [m.result.value.1] + rest;
      AdvanceStep(seqnum, |ends|);
    }
  }
}
