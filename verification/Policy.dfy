/** The KDC's ticket policy: flags, end times and renewal times, along chains of derived tickets. */
module Policy {
  import opened Bytes
  import opened Wrappers

  datatype KdcOption =
    | FORWARDABLE | FORWARDED | PROXIABLE | PROXY | ALLOW_POSTDATE | POSTDATED | RENEWABLE | REQUEST_ANONYMOUS
    | RENEWABLE_OK | RENEW | VALIDATE

  datatype TicketFlag =
    | Forwardable | Forwarded | Proxiable | Proxy | MayPostdate | Postdated | Invalid | Renewable | Initial
    | PreAuthent | HwAuthent | TransitedPolicyChecked | OkAsDelegate | EncPaRep | Anonymous

  datatype Attribute = DISALLOW_RENEWABLE | DISALLOW_PROXIABLE | DISALLOW_FORWARDABLE | OK_AS_DELEGATE

  type Options = set<KdcOption>
  type Flags = set<TicketFlag>

  /** Lives in seconds; `None` is no cap. */
  datatype Entry = Entry(attributes: set<Attribute>, maxLife: Option<nat>, maxRenewableLife: Option<nat>)

  datatype KdcError = BadOption | TicketNotYetValid | TicketExpired | Refused(code: int)

  /** A realm's limits: no life limit is 0, the renewable life is literal. */
  datatype Limits = Limits(maxLife: int, maxRenewableLife: int)

  const KDC_INFINITY: int := TWO32 - 1
  const I32_MIN: int := -0x8000_0000
  const I32_MAX: int := 0x7fff_ffff
  const I64_MIN: int := -TWO63
  const I64_MAX: int := TWO63 - 1

  function Min(a: int, b: int): int { if a < b then a else b }
  function Max(a: int, b: int): int { if a > b then a else b }

  /** `secs`. */
  function Secs(d: nat): int { Min(d, I64_MAX) }

  /** `i64::saturating_add`. */
  function SatAdd(a: int, b: int): int { Max(I64_MIN, Min(a + b, I64_MAX)) }

  // ----- flags -----

  /** `check_tgs_opts`: the rules in order, then the invalid ticket. */
  function CheckTgsOpts(opts: Options, header: Flags): Result<(), KdcError> {
    if (FORWARDED in opts && Forwardable !in header)
       || (PROXY in opts && Proxiable !in header)
       || (({ALLOW_POSTDATE, POSTDATED} * opts != {}) && MayPostdate !in header)
       || (VALIDATE in opts && Invalid !in header)
       || (RENEW in opts && Renewable !in header) then Err(BadOption)
    else if Invalid in header && VALIDATE !in opts then Err(TicketNotYetValid)
    else Ok(())
  }

  const PAIRS: seq<(KdcOption, TicketFlag)> :=
    [(FORWARDABLE, Forwardable), (FORWARDED, Forwarded), (PROXIABLE, Proxiable), (PROXY, Proxy),
     (ALLOW_POSTDATE, MayPostdate), (POSTDATED, Postdated), (REQUEST_ANONYMOUS, Anonymous)]

  /** The flags the options ask for, by the first `n` pairs. */
  function Asked(opts: Options, n: nat): Flags
    requires n <= |PAIRS|
  {
    set j | 0 <= j < n && PAIRS[j].0 in opts :: PAIRS[j].1
  }

  lemma AskedMeans(opts: Options)
    ensures var asked := Asked(opts, |PAIRS|);
            && (Forwardable in asked <==> FORWARDABLE in opts) && (Forwarded in asked <==> FORWARDED in opts)
            && (Proxiable in asked <==> PROXIABLE in opts) && (Proxy in asked <==> PROXY in opts)
            && (Anonymous in asked <==> REQUEST_ANONYMOUS in opts)
            && asked !! {Invalid, Renewable, Initial, PreAuthent, HwAuthent}
  {
    assert PAIRS[0] == (FORWARDABLE, Forwardable) && PAIRS[1] == (FORWARDED, Forwarded);
    assert PAIRS[2] == (PROXIABLE, Proxiable) && PAIRS[3] == (PROXY, Proxy) && PAIRS[6] == (REQUEST_ANONYMOUS, Anonymous);
  }

  predicate Denies(client: Option<Entry>, server: Entry, a: Attribute) {
    (client.Some? && a in client.value.attributes) || a in server.attributes
  }

  /** `get_ticket_flags`. */
  function TicketFlags(opts: Options, client: Option<Entry>, server: Entry, header: Option<Flags>): Flags {
    if opts * {VALIDATE, RENEW} != {} && header.Some? then header.value - {Invalid} else
    var start := {EncPaRep} + Asked(opts, |PAIRS|);
    var flags := if header.None? then start + {Initial}
      else start + header.value * {Forwarded, Proxy, PreAuthent, HwAuthent, Anonymous}
           + if OK_AS_DELEGATE in server.attributes then {OkAsDelegate} else {};
    var lacks := (f: TicketFlag) => header.Some? && f !in header.value;
    flags
      - (if Denies(client, server, DISALLOW_PROXIABLE) || lacks(Proxiable) then {Proxiable} else {})
      - (if Denies(client, server, DISALLOW_FORWARDABLE) || lacks(Forwardable) then {Forwardable} else {})
      - (if lacks(Anonymous) then {Anonymous} else {})
  }

  /** `get_ticket_flags`, step by step. */
  method MakeTicketFlags(opts: Options, client: Option<Entry>, server: Entry, header: Option<Flags>) returns (flags: Flags)
    ensures flags == TicketFlags(opts, client, server, header)
  {
    if opts * {VALIDATE, RENEW} != {} {
      if header.Some? { return header.value - {Invalid}; }
    }
    flags := {EncPaRep};
    for i := 0 to |PAIRS|
      invariant flags == {EncPaRep} + Asked(opts, i)
    {
      if PAIRS[i].0 in opts { flags := flags + {PAIRS[i].1}; }
    }
    if header.Some? {
      flags := flags + header.value * {Forwarded, Proxy, PreAuthent, HwAuthent, Anonymous};
      if OK_AS_DELEGATE in server.attributes { flags := flags + {OkAsDelegate}; }
    } else {
      flags := flags + {Initial};
    }
    if Denies(client, server, DISALLOW_PROXIABLE) || (header.Some? && Proxiable !in header.value) { flags := flags - {Proxiable}; }
    if Denies(client, server, DISALLOW_FORWARDABLE) || (header.Some? && Forwardable !in header.value) { flags := flags - {Forwardable}; }
    if header.Some? && Anonymous !in header.value { flags := flags - {Anonymous}; }
  }

  /** What a derived ticket's flags keep of its header's. */
  ghost predicate Inherits(header: Flags, flags: Flags) {
    && (forall f | f in {PreAuthent, HwAuthent, Anonymous} :: f in flags <==> f in header)
    && (forall f | f in {Forwardable, Proxiable, Initial} :: f in flags ==> f in header)
    && (forall f | f in {Forwarded, Proxy} :: f in header ==> f in flags)
    && (Forwarded in flags ==> Forwarded in header || Forwardable in header)
    && (Proxy in flags ==> Proxy in header || Proxiable in header)
    && Invalid !in flags
  }

  lemma DerivedFlags(opts: Options, client: Option<Entry>, server: Entry, header: Flags)
    requires CheckTgsOpts(opts, header).Ok?
    ensures Inherits(header, TicketFlags(opts, client, server, Some(header)))
  {
    hide Asked;
    AskedMeans(opts);
    var flags := TicketFlags(opts, client, server, Some(header));
    assert forall f | f in {Forwarded, Proxy} :: f in header ==> f in flags;
  }

  /** A ticket got by an AS request is initial, and the deny attributes hold back the flags they name. */
  lemma InitialFlags(opts: Options, client: Option<Entry>, server: Entry)
    ensures var flags := TicketFlags(opts, client, server, None);
            && Initial in flags && EncPaRep in flags && Invalid !in flags && Renewable !in flags
            && (Forwardable in flags <==> FORWARDABLE in opts && !Denies(client, server, DISALLOW_FORWARDABLE))
            && (Proxiable in flags <==> PROXIABLE in opts && !Denies(client, server, DISALLOW_PROXIABLE))
            && (Anonymous in flags <==> REQUEST_ANONYMOUS in opts)
  {
    hide Asked;
    AskedMeans(opts);
  }

  // ----- end times -----

  function Capped(life: int, cap: Option<nat>): int {
    if cap.Some? && Secs(cap.value) != 0 then Min(life, Secs(cap.value)) else life
  }

  function ClientLife(client: Option<Entry>): Option<nat> { if client.Some? then client.value.maxLife else None }
  function ClientRenewable(client: Option<Entry>): Option<nat> { if client.Some? then client.value.maxRenewableLife else None }

  /** How long the request and the header leave, held to 32 bits. */
  function Window(starttime: int, endtime: int, till: int): int {
    var until := Min(if till <= 0 then KDC_INFINITY else Min(till, KDC_INFINITY), endtime);
    var life := Max(until - starttime, I32_MIN);
    if until > starttime then Min(life, I32_MAX) else life
  }

  /** The bounds on a ticket's life that are in force. */
  function Bounds(limits: Limits, starttime: int, endtime: int, till: int, client: Option<Entry>, server: Entry): (r: seq<int>)
    ensures r != []
  {
    [Window(starttime, endtime, till)] + Active(ClientLife(client)) + Active(server.maxLife)
    + if limits.maxLife != 0 then [limits.maxLife] else []
  }

  function Active(cap: Option<nat>): seq<int> { if cap.Some? && cap.value != 0 then [Secs(cap.value)] else [] }

  ghost predicate IsMinimum(m: int, bs: seq<int>) { m in bs && forall b | b in bs :: m <= b }

  /** `get_ticket_endtime`: the start and the least of the bounds in force. */
  method TicketEndtime(limits: Limits, starttime: int, endtime: int, till: int, client: Option<Entry>, server: Entry)
    returns (r: int)
    ensures IsMinimum(r - starttime, Bounds(limits, starttime, endtime, till, client, server))
  {
    var t := if till <= 0 then KDC_INFINITY else Min(till, KDC_INFINITY);
    var until := Min(t, endtime);
    var life := Max(until - starttime, I32_MIN);
    if until > starttime { life := Min(life, I32_MAX); }
    ghost var bs := [Window(starttime, endtime, till)];
    assert IsMinimum(life, bs);
    if client.Some? { life := Capped(life, client.value.maxLife); }
    MinimumCapped(life, bs, ClientLife(client));
    bs := bs + Active(ClientLife(client));
    life := Capped(life, server.maxLife);
    bs := bs + Active(server.maxLife);
    if limits.maxLife != 0 { life := Min(life, limits.maxLife); }
    r := starttime + life;
  }

  lemma MinimumCapped(life: int, bs: seq<int>, cap: Option<nat>)
    requires exists before :: IsMinimum(before, bs) && life == Capped(before, cap)
    ensures IsMinimum(life, bs + Active(cap))
  {
  }

  lemma MinimumOnce(a: int, b: int, bs: seq<int>)
    requires IsMinimum(a, bs) && IsMinimum(b, bs)
    ensures a == b
  {
  }

  /** The end time, as a value: the minimum is unique. */
  function Least(bs: seq<int>): (m: int)
    requires bs != []
    ensures m in bs && forall b | b in bs :: m <= b
  {
    assert bs == [bs[0]] + bs[1..];
    if |bs| == 1 then bs[0] else Min(bs[0], Least(bs[1..]))
  }

  function Endtime(limits: Limits, starttime: int, endtime: int, till: int, client: Option<Entry>, server: Entry): int {
    starttime + Least(Bounds(limits, starttime, endtime, till, client, server))
  }

  /** A derived ticket ends no later than its header exactly when the header has not been over for 2^31 seconds. */
  lemma EndtimeWithinHeader(limits: Limits, starttime: int, endtime: int, till: int, client: Option<Entry>, server: Entry)
    requires limits.maxLife >= 0
    ensures Endtime(limits, starttime, endtime, till, client, server) <= endtime <==> starttime + I32_MIN <= endtime
  {
    var bs := Bounds(limits, starttime, endtime, till, client, server);
    assert bs[0] == Window(starttime, endtime, till) && bs[0] in bs;
    if starttime + I32_MIN > endtime {
      assert Window(starttime, endtime, till) == I32_MIN;
      forall b | b in bs ensures I32_MIN <= b { }
      assert Least(bs) == I32_MIN;
    }
  }

  // ----- renewal times -----

  datatype Times = Times(authtime: int, starttime: int, endtime: int, renewTill: int)

  datatype HeaderRenewal = HeaderRenewal(flags: Flags, renewTill: int)

  /** What is asked for, when renewal is asked for at all. */
  function WantedRenewal(opts: Options, rtime: int, till: int, endtime: int): Option<int> {
    if RENEWABLE in opts then Some(if rtime > 0 then Min(rtime, KDC_INFINITY) else KDC_INFINITY)
    else if RENEWABLE_OK in opts && till > endtime then Some(Min(till, KDC_INFINITY))
    else None
  }

  /** Principals and header permit renewal. */
  predicate MayRenew(tgt: Option<HeaderRenewal>, client: Option<Entry>, server: Entry) {
    !Denies(client, server, DISALLOW_RENEWABLE) && (tgt.Some? ==> Renewable in tgt.value.flags)
  }

  function RenewableLife(limits: Limits, client: Option<Entry>, server: Entry): (r: int) {
    var a := limits.maxRenewableLife;
    var b := if server.maxRenewableLife.Some? then Min(a, Secs(server.maxRenewableLife.value)) else a;
    if ClientRenewable(client).Some? then Min(b, Secs(ClientRenewable(client).value)) else b
  }

  /** The renewal time offered. */
  function Offered(limits: Limits, wanted: int, tgt: Option<HeaderRenewal>, client: Option<Entry>, server: Entry, starttime: int): int {
    Min(if tgt.Some? then Min(wanted, tgt.value.renewTill) else wanted,
        SatAdd(starttime, RenewableLife(limits, client, server)))
  }

  function Renewal(limits: Limits, opts: Options, rtime: int, till: int, tgt: Option<HeaderRenewal>,
                   client: Option<Entry>, server: Entry, times: Times): Option<int> {
    var wanted := WantedRenewal(opts, rtime, till, times.endtime);
    if !MayRenew(tgt, client, server) || wanted.None? then None else
    var offered := Offered(limits, wanted.value, tgt, client, server, times.starttime);
    if RENEWABLE !in opts && offered <= times.endtime then None else Some(offered)
  }

  /** A ticket being made: its flags and times are adjusted in place. */
  class Draft {
    var flags: Flags
    var times: Times

    constructor (flags: Flags, times: Times)
      ensures this.flags == flags && this.times == times
    {
      this.flags, this.times := flags, times;
    }

    /** `get_ticket_renewtime`. */
    method SetRenewTime(limits: Limits, opts: Options, rtime: int, till: int, tgt: Option<HeaderRenewal>,
                        client: Option<Entry>, server: Entry)
      modifies this
      ensures var r := Renewal(limits, opts, rtime, till, tgt, client, server, old(times));
              && times == old(times).(renewTill := if r.Some? then r.value else 0)
              && flags == if r.Some? then old(flags) + {Renewable} else old(flags) - {Renewable}
    {
      flags := flags - {Renewable};
      times := times.(renewTill := 0);
      if DISALLOW_RENEWABLE in server.attributes { return; }
      if client.Some? && DISALLOW_RENEWABLE in client.value.attributes { return; }
      if tgt.Some? && Renewable !in tgt.value.flags { return; }
      var r;
      if RENEWABLE in opts {
        r := if rtime > 0 then Min(rtime, KDC_INFINITY) else KDC_INFINITY;
      } else if RENEWABLE_OK in opts && till > times.endtime {
        r := Min(till, KDC_INFINITY);
      } else {
        return;
      }
      if tgt.Some? { r := Min(r, tgt.value.renewTill); }
      var life := limits.maxRenewableLife;
      if server.maxRenewableLife.Some? { life := Min(life, Secs(server.maxRenewableLife.value)); }
      if client.Some? && client.value.maxRenewableLife.Some? { life := Min(life, Secs(client.value.maxRenewableLife.value)); }
      r := Min(r, SatAdd(times.starttime, life));
      if RENEWABLE !in opts && r <= times.endtime { return; }
      flags := flags + {Renewable};
      times := times.(renewTill := r);
    }

    /** `check_policy`: each module in turn, the first refusal ending it. */
    method CheckPolicy(modules: seq<Module>, tgs: bool, req: Request, now: int) returns (r: Result<(), KdcError>)
      modifies this`times
      ensures var n := Accepting(modules, tgs, req);
              && times == Lowered(old(times), now, Granted(modules[..n], tgs, req))
              && r == if n == |modules| then Ok(()) else Err(Refused(modules[n].check(tgs, req).error))
    {
      for i := 0 to |modules|
        invariant i <= Accepting(modules, tgs, req)
        invariant times == Lowered(old(times), now, Granted(modules[..i], tgs, req))
      {
        var l := modules[i].check(tgs, req);
        if l.Err? {
          assert Accepting(modules, tgs, req) == i;
          return Err(Refused(l.error));
        }
        assert modules[..i + 1][..i] == modules[..i];
        assert Granted(modules[..i + 1], tgs, req) == Granted(modules[..i], tgs, req) + [l.value];
        LoweredLast(times, old(times), now, Granted(modules[..i], tgs, req), l.value);
        if l.value.lifetime != 0 { times := times.(endtime := Min(times.endtime, SatAdd(now, l.value.lifetime))); }
        if l.value.renewLifetime != 0 { times := times.(renewTill := Min(times.renewTill, SatAdd(now, l.value.renewLifetime))); }
      }
      assert modules[..|modules|] == modules;
      r := Ok(());
    }
  }

  function CapFrom(start: int, life: Option<nat>): seq<int> {
    if life.Some? then [SatAdd(start, Secs(life.value))] else []
  }

  /** Every limit on a renewal time that was asked for. */
  function RenewalCaps(limits: Limits, wanted: int, tgt: Option<HeaderRenewal>, client: Option<Entry>, server: Entry, start: int): seq<int> {
    [wanted, SatAdd(start, limits.maxRenewableLife)] + (if tgt.Some? then [tgt.value.renewTill] else [])
    + CapFrom(start, server.maxRenewableLife) + CapFrom(start, ClientRenewable(client))
  }

  lemma OfferedIsLeast(limits: Limits, wanted: int, tgt: Option<HeaderRenewal>, client: Option<Entry>, server: Entry, start: int)
    ensures IsMinimum(Offered(limits, wanted, tgt, client, server, start), RenewalCaps(limits, wanted, tgt, client, server, start))
  {
    var b, c := CapFrom(start, server.maxRenewableLife), CapFrom(start, ClientRenewable(client));
    var caps := RenewalCaps(limits, wanted, tgt, client, server, start);
    assert caps[0] == wanted && caps[1] == SatAdd(start, limits.maxRenewableLife);
    assert tgt.Some? ==> caps[2] == tgt.value.renewTill;
    assert b != [] ==> b[0] in b && b[0] in caps;
    assert c != [] ==> c[0] in c && c[0] in caps;
  }

  /**
   * Renewal is granted exactly when principals and header permit it, it was asked for, and, where
   * only a longer ticket was asked for, it reaches beyond the end; the time is then the least of its
   * limits.
   */
  lemma RenewalBounds(limits: Limits, opts: Options, rtime: int, till: int, tgt: Option<HeaderRenewal>,
                      client: Option<Entry>, server: Entry, times: Times)
    ensures var r, wanted := Renewal(limits, opts, rtime, till, tgt, client, server, times), WantedRenewal(opts, rtime, till, times.endtime);
            && (r.Some? <==> MayRenew(tgt, client, server) && wanted.Some?
                             && (RENEWABLE in opts
                                 || forall c | c in RenewalCaps(limits, wanted.value, tgt, client, server, times.starttime) :: times.endtime < c))
            && (r.Some? ==> IsMinimum(r.value, RenewalCaps(limits, wanted.value, tgt, client, server, times.starttime)))
    ensures var r := Renewal(limits, opts, rtime, till, tgt, client, server, times);
            r.Some? && tgt.Some? ==> Renewable in tgt.value.flags && r.value <= tgt.value.renewTill
  {
    hide Offered, RenewalCaps;
    var wanted := WantedRenewal(opts, rtime, till, times.endtime);
    if wanted.Some? {
      OfferedIsLeast(limits, wanted.value, tgt, client, server, times.starttime);
      OfferedWithin(limits, wanted.value, tgt, client, server, times.starttime);
    }
  }

  lemma OfferedWithin(limits: Limits, wanted: int, tgt: Option<HeaderRenewal>, client: Option<Entry>, server: Entry, start: int)
    ensures tgt.Some? ==> Offered(limits, wanted, tgt, client, server, start) <= tgt.value.renewTill
  {
  }

  // ----- policy modules -----

  datatype Request = Request(client: Option<string>, server: string, ticketClient: Option<string>, indicators: seq<string>)

  /** What a module grants; 0 leaves a time alone. */
  datatype Grant = Grant(lifetime: int, renewLifetime: int)

  datatype Module = Module(check: (bool, Request) -> Result<Grant, int>)

  /** How many modules accept before the first refusal. */
  function Accepting(modules: seq<Module>, tgs: bool, req: Request): (n: nat)
    ensures n <= |modules|
    ensures n < |modules| ==> modules[n].check(tgs, req).Err?
    ensures forall i | 0 <= i < n :: modules[i].check(tgs, req).Ok?
  {
    if modules == [] || modules[0].check(tgs, req).Err? then 0 else 1 + Accepting(modules[1..], tgs, req)
  }

  function Granted(modules: seq<Module>, tgs: bool, req: Request): (r: seq<Grant>)
    ensures |r| <= |modules|
    ensures |r| == |modules| <==> forall i | 0 <= i < |modules| :: modules[i].check(tgs, req).Ok?
  {
    if modules == [] then []
    else
      var rest := Granted(modules[..|modules| - 1], tgs, req);
      var l := modules[|modules| - 1].check(tgs, req);
      if l.Ok? then rest + [l.value] else rest
  }

  function Lowest(start: int, now: int, lives: seq<int>): int {
    if lives == [] then start
    else
      var rest := Lowest(start, now, lives[..|lives| - 1]);
      var l := lives[|lives| - 1];
      if l != 0 then Min(rest, SatAdd(now, l)) else rest
  }

  function Lives(gs: seq<Grant>): seq<int> { seq(|gs|, i requires 0 <= i < |gs| => gs[i].lifetime) }
  function RenewLives(gs: seq<Grant>): seq<int> { seq(|gs|, i requires 0 <= i < |gs| => gs[i].renewLifetime) }

  function Lowered(times: Times, now: int, gs: seq<Grant>): Times {
    times.(endtime := Lowest(times.endtime, now, Lives(gs)), renewTill := Lowest(times.renewTill, now, RenewLives(gs)))
  }

  lemma LoweredLast(times: Times, start: Times, now: int, gs: seq<Grant>, g: Grant)
    requires times == Lowered(start, now, gs)
    ensures var all := Lowered(start, now, gs + [g]);
            && all.endtime == (if g.lifetime != 0 then Min(times.endtime, SatAdd(now, g.lifetime)) else times.endtime)
            && all.renewTill == (if g.renewLifetime != 0 then Min(times.renewTill, SatAdd(now, g.renewLifetime)) else times.renewTill)
  {
    assert Lives(gs + [g])[..|gs|] == Lives(gs);
    assert RenewLives(gs + [g])[..|gs|] == RenewLives(gs);
  }

  /** The lowered time is the least of the start and every nonzero grant, and nothing else. */
  lemma {:induction false} LowestIsLeast(start: int, now: int, lives: seq<int>)
    ensures var m := Lowest(start, now, lives);
            && m <= start
            && (forall l | l in lives && l != 0 :: m <= SatAdd(now, l))
            && (m == start || exists l | l in lives :: l != 0 && m == SatAdd(now, l))
    decreases |lives|
  {
    if lives != [] {
      var init, last := lives[..|lives| - 1], lives[|lives| - 1];
      LowestIsLeast(start, now, init);
      assert lives == init + [last];
      var m := Lowest(start, now, init);
      if m != start {
        var l :| l in init && l != 0 && m == SatAdd(now, l);
        assert l in lives;
      }
      assert last in lives;
    }
  }

  /** The same lifetimes, in whatever order and number, lower a time alike. */
  lemma LowestByMembers(start: int, now: int, lives: seq<int>, others: seq<int>)
    requires forall l :: l in lives <==> l in others
    ensures Lowest(start, now, lives) == Lowest(start, now, others)
  {
    LowestIsLeast(start, now, lives);
    LowestIsLeast(start, now, others);
  }

  lemma {:induction false} GrantedAt(modules: seq<Module>, tgs: bool, req: Request, i: nat)
    requires i < |modules| && Accepting(modules, tgs, req) == |modules|
    ensures |Granted(modules, tgs, req)| == |modules| && Granted(modules, tgs, req)[i] == modules[i].check(tgs, req).value
    decreases |modules|
  {
    var n := |modules| - 1;
    var init := modules[..n];
    assert forall j | 0 <= j < |modules| :: modules[j].check(tgs, req).Ok?;
    assert forall j | 0 <= j < n :: init[j] == modules[j];
    assert Accepting(init, tgs, req) == n;
    if i < n { GrantedAt(init, tgs, req, i); }
  }

  /** A lifetime is granted exactly when some module grants it. */
  lemma GrantedLives(modules: seq<Module>, tgs: bool, req: Request, l: int)
    requires Accepting(modules, tgs, req) == |modules|
    ensures l in Lives(Granted(modules, tgs, req)) <==> exists m | m in modules :: m.check(tgs, req).value.lifetime == l
    ensures l in RenewLives(Granted(modules, tgs, req)) <==> exists m | m in modules :: m.check(tgs, req).value.renewLifetime == l
  {
    hide Granted, Accepting;
    var gs := Granted(modules, tgs, req);
    assert |gs| == |modules| by { if modules != [] { GrantedAt(modules, tgs, req, 0); } else { GrantedNone(tgs, req); } }
    forall i | 0 <= i < |modules| ensures gs[i] == modules[i].check(tgs, req).value { GrantedAt(modules, tgs, req, i); }
    forall m | m in modules
      ensures m.check(tgs, req).value.lifetime in Lives(gs) && m.check(tgs, req).value.renewLifetime in RenewLives(gs)
    {
      var i :| 0 <= i < |modules| && modules[i] == m;
      assert Lives(gs)[i] == gs[i].lifetime && RenewLives(gs)[i] == gs[i].renewLifetime;
    }
    if l in Lives(gs) {
      var i :| 0 <= i < |gs| && Lives(gs)[i] == l;
      assert modules[i] in modules;
    }
    if l in RenewLives(gs) {
      var i :| 0 <= i < |gs| && RenewLives(gs)[i] == l;
      assert modules[i] in modules;
    }
  }

  lemma GrantedNone(tgs: bool, req: Request)
    ensures Granted([], tgs, req) == []
  {
  }

  /** Two lists of the same accepting modules, in whatever order, lower both times alike. */
  lemma {:induction false} OrderIndependent(times: Times, now: int, modules: seq<Module>, others: seq<Module>, tgs: bool, req: Request)
    requires Accepting(modules, tgs, req) == |modules| && Accepting(others, tgs, req) == |others|
    requires forall m :: m in modules <==> m in others
    ensures Lowered(times, now, Granted(modules, tgs, req)) == Lowered(times, now, Granted(others, tgs, req))
  {
    hide Granted, Accepting, Lowest, Lives, RenewLives;
    var a, b := Granted(modules, tgs, req), Granted(others, tgs, req);
    forall l ensures (l in Lives(a) <==> l in Lives(b)) && (l in RenewLives(a) <==> l in RenewLives(b)) {
      GrantedLives(modules, tgs, req, l);
      GrantedLives(others, tgs, req, l);
    }
    LowestByMembers(times.endtime, now, Lives(a), Lives(b));
    LowestByMembers(times.renewTill, now, RenewLives(a), RenewLives(b));
  }
}
