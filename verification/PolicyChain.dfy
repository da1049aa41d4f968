/** Tickets derived one from another by TGS requests. */
module PolicyChain {
  import opened Policy
  import opened Wrappers

  /** `starttime` is 0 when the ticket carries none, `renewTill` when it cannot be renewed. */
  datatype Ticket = Ticket(flags: Flags, authtime: int, starttime: int, endtime: int, renewTill: int)

  /** A TGS request as the policy sees it, with the principals it names and the KDC's clock and modules. */
  datatype TgsRequest = TgsRequest(opts: Options, till: int, rtime: int, client: Option<Entry>, server: Entry,
                                   authtime: int, now: int, limits: Limits, modules: seq<Module>, facts: Request)

  /** Options this KDC rejects. */
  const UNSUPPORTED: Options := {ALLOW_POSTDATE, POSTDATED, VALIDATE, PROXY}

  function StartOf(t: Ticket): int { if t.starttime != 0 then t.starttime else t.authtime }

  /** The flags and times of a TGS reply before the policy modules. */
  function Prepared(header: Ticket, q: TgsRequest): (Flags, Times) {
    var endtime :=
      if RENEW in q.opts then Min(header.renewTill, q.now + (header.endtime - StartOf(header)))
      else Endtime(q.limits, q.now, header.endtime, q.till, q.client, q.server);
    var times := Times(q.authtime, q.now, endtime, 0);
    var r := Renewal(q.limits, q.opts, q.rtime, q.till, Some(HeaderRenewal(header.flags, header.renewTill)),
                     q.client, q.server, times);
    var flags := TicketFlags(q.opts, q.client, q.server, Some(header.flags));
    if r.Some? then (flags + {Renewable}, times.(renewTill := r.value)) else (flags - {Renewable}, times)
  }

  /** The ticket a TGS request gets from its header ticket. */
  function Derived(header: Ticket, q: TgsRequest): Result<Ticket, KdcError> {
    if q.opts * UNSUPPORTED != {} then Err(BadOption) else
    var checked := CheckTgsOpts(q.opts, header.flags);
    if checked.Err? then Err(checked.error)
    else if RENEW in q.opts && q.now > header.renewTill then Err(TicketExpired) else
    var (flags, times) := Prepared(header, q);
    var n := Accepting(q.modules, true, q.facts);
    if n < |q.modules| then Err(Refused(q.modules[n].check(true, q.facts).error)) else
    var low := Lowered(times, q.now, Granted(q.modules, true, q.facts));
    Ok(Ticket(flags, low.authtime, if low.starttime == low.authtime then 0 else low.starttime, low.endtime, low.renewTill))
  }

  /** The same, as the KDC does it step by step. */
  method IssueTgs(header: Ticket, q: TgsRequest) returns (r: Result<Ticket, KdcError>)
    ensures r == Derived(header, q)
  {
    hide TicketFlags, Renewal, Lowered, Bounds, Accepting, Granted;
    if q.opts * UNSUPPORTED != {} { return Err(BadOption); }
    var checked := CheckTgsOpts(q.opts, header.flags);
    if checked.Err? { return Err(checked.error); }
    if RENEW in q.opts && q.now > header.renewTill { return Err(TicketExpired); }
    var flags := MakeTicketFlags(q.opts, q.client, q.server, Some(header.flags));
    var endtime;
    if RENEW in q.opts {
      endtime := Min(header.renewTill, q.now + (header.endtime - StartOf(header)));
    } else {
      endtime := TicketEndtime(q.limits, q.now, header.endtime, q.till, q.client, q.server);
      ghost var bs := Bounds(q.limits, q.now, header.endtime, q.till, q.client, q.server);
      MinimumOnce(endtime - q.now, Least(bs), bs);
    }
    var draft := new Draft(flags, Times(q.authtime, q.now, endtime, 0));
    draft.SetRenewTime(q.limits, q.opts, q.rtime, q.till, Some(HeaderRenewal(header.flags, header.renewTill)), q.client, q.server);
    var starttime := if draft.times.starttime == draft.times.authtime then 0 else draft.times.starttime;
    assert (draft.flags, draft.times) == Prepared(header, q);
    ghost var before := draft.times;
    var ok := draft.CheckPolicy(q.modules, true, q.facts, q.now);
    assert q.modules[..|q.modules|] == q.modules;
    if ok.Err? { return Err(ok.error); }
    LoweredKeeps(before, q.now, Granted(q.modules, true, q.facts));
    r := Ok(Ticket(draft.flags, draft.times.authtime, starttime, draft.times.endtime, draft.times.renewTill));
  }

  lemma LoweredKeeps(times: Times, now: int, gs: seq<Grant>)
    ensures var low := Lowered(times, now, gs);
            && low.authtime == times.authtime && low.starttime == times.starttime
            && low.endtime <= times.endtime && low.renewTill <= times.renewTill
  {
    LowestIsLeast(times.endtime, now, Lives(gs));
    LowestIsLeast(times.renewTill, now, RenewLives(gs));
  }

  // ----- flags -----

  /** The flags of a ticket derived from one with the flags `header`, whatever is decided about renewal. */
  ghost predicate FlagStep(header: Flags, opts: Options, client: Option<Entry>, server: Entry, flags: Flags) {
    && CheckTgsOpts(opts, header).Ok?
    && flags - {Renewable} == TicketFlags(opts, client, server, Some(header)) - {Renewable}
  }

  datatype FlagRequest = FlagRequest(opts: Options, client: Option<Entry>, server: Entry)

  /** Flags each got from the ones before by the option check and then `get_ticket_flags`. */
  ghost predicate IsFlagChain(fs: seq<Flags>, qs: seq<FlagRequest>) {
    && |fs| == |qs| + 1
    && forall i | 0 <= i < |qs| :: FlagStep(fs[i], qs[i].opts, qs[i].client, qs[i].server, fs[i + 1])
  }

  lemma FlagStepInherits(header: Flags, opts: Options, client: Option<Entry>, server: Entry, flags: Flags)
    requires FlagStep(header, opts, client, server, flags)
    ensures Inherits(header, flags)
  {
    hide TicketFlags, CheckTgsOpts;
    var made := TicketFlags(opts, client, server, Some(header));
    DerivedFlags(opts, client, server, header);
    forall f | f != Renewable ensures f in flags <==> f in made {
      assert f in flags - {Renewable} <==> f in made - {Renewable};
    }
  }

  ghost predicate Descends(first: Flags, last: Flags) {
    && (forall f | f in {PreAuthent, HwAuthent, Anonymous} :: f in last <==> f in first)
    && (forall f | f in {Forwardable, Proxiable, Initial} :: f in last ==> f in first)
    && (forall f | f in {Forwarded, Proxy} :: f in first ==> f in last)
    && (Forwarded in last ==> Forwarded in first || Forwardable in first)
    && (Proxy in last ==> Proxy in first || Proxiable in first)
  }

  lemma DescendsStep(a: Flags, b: Flags, c: Flags)
    requires Descends(a, b) && Inherits(b, c)
    ensures Descends(a, c)
  {
  }

  lemma DescendsSelf(f: Flags)
    ensures Descends(f, f)
  {
  }

  /**
   * Along every chain of flags: authentication and anonymity are preserved exactly, privileges are
   * never regained, marks of delegation never lost, and nothing derived is invalid.
   */
  lemma {:induction false} FlagsDescend(fs: seq<Flags>, qs: seq<FlagRequest>, k: nat)
    requires IsFlagChain(fs, qs) && k < |fs|
    ensures Descends(fs[0], fs[k]) && (k > 0 ==> Invalid !in fs[k])
    decreases k
  {
    hide FlagStep, Descends;
    if k == 0 {
      DescendsSelf(fs[0]);
    } else {
      var q := qs[k - 1];
      FlagsDescend(fs, qs, k - 1);
      FlagStepInherits(fs[k - 1], q.opts, q.client, q.server, fs[k]);
      DescendsStep(fs[0], fs[k - 1], fs[k]);
    }
  }

  /** Forwarded flags can be traced to the forwardable ones they were first got from. */
  lemma {:induction false} ForwardedFrom(fs: seq<Flags>, qs: seq<FlagRequest>, k: nat) returns (i: nat)
    requires IsFlagChain(fs, qs) && k < |fs| && Forwarded in fs[k] && Forwarded !in fs[0]
    ensures i < k && Forwarded !in fs[i] && Forwardable in fs[i]
    ensures forall j | i < j <= k :: Forwarded in fs[j]
    decreases k
  {
    hide FlagStep;
    var q := qs[k - 1];
    FlagStepInherits(fs[k - 1], q.opts, q.client, q.server, fs[k]);
    if Forwarded in fs[k - 1] {
      i := ForwardedFrom(fs, qs, k - 1);
    } else {
      i := k - 1;
    }
  }

  // ----- tickets -----

  /** Tickets each derived from the one before. */
  ghost predicate IsChain(ts: seq<Ticket>, qs: seq<TgsRequest>) {
    |ts| == |qs| + 1 && forall i | 0 <= i < |qs| :: Derived(ts[i], qs[i]) == Ok(ts[i + 1])
  }

  /** One derivation takes a step of the flag chain, and renewability is not regained. */
  lemma DerivedFollows(header: Ticket, q: TgsRequest)
    requires Derived(header, q).Ok?
    ensures var t := Derived(header, q).value;
            && FlagStep(header.flags, q.opts, q.client, q.server, t.flags)
            && (Renewable in t.flags ==> Renewable in header.flags && t.renewTill <= header.renewTill)
  {
    hide TicketFlags, Endtime, Renewal, Lowered, CheckTgsOpts;
    var (flags, times) := Prepared(header, q);
    LoweredKeeps(times, q.now, Granted(q.modules, true, q.facts));
    var mid := Times(q.authtime, q.now, times.endtime, 0);
    var tgt := Some(HeaderRenewal(header.flags, header.renewTill));
    if Renewal(q.limits, q.opts, q.rtime, q.till, tgt, q.client, q.server, mid).Some? {
      RenewalBounds(q.limits, q.opts, q.rtime, q.till, tgt, q.client, q.server, mid);
    }
  }

  /** Along every chain of tickets the flags descend, and renewability is never regained. */
  lemma {:induction false} ChainDescends(ts: seq<Ticket>, qs: seq<TgsRequest>, k: nat)
    requires IsChain(ts, qs) && k < |ts|
    ensures Descends(ts[0].flags, ts[k].flags) && (Renewable in ts[k].flags ==> Renewable in ts[0].flags)
    ensures k > 0 ==> Invalid !in ts[k].flags
    decreases k
  {
    hide Derived, FlagStep, Descends;
    if k == 0 {
      DescendsSelf(ts[0].flags);
    } else {
      var q := qs[k - 1];
      ChainDescends(ts, qs, k - 1);
      assert Derived(ts[k - 1], q) == Ok(ts[k]);
      DerivedFollows(ts[k - 1], q);
      FlagStepInherits(ts[k - 1].flags, q.opts, q.client, q.server, ts[k].flags);
      DescendsStep(ts[0].flags, ts[k - 1].flags, ts[k].flags);
    }
  }

  /** The last moment a ticket, or one renewed from it, can be good for. */
  function Horizon(t: Ticket): int { if Renewable in t.flags then Max(t.endtime, t.renewTill) else t.endtime }

  /** The realm's life limit is no negative number, and the header has not been over for 2^31 seconds. */
  ghost predicate Timely(header: Ticket, q: TgsRequest) { q.limits.maxLife >= 0 && q.now + I32_MIN <= header.endtime }

  /** One timely derivation moves neither the end, unless it renews, nor the horizon out. */
  lemma DerivedWithin(header: Ticket, q: TgsRequest)
    requires Derived(header, q).Ok? && Timely(header, q)
    ensures var t := Derived(header, q).value;
            (RENEW !in q.opts ==> t.endtime <= header.endtime) && Horizon(t) <= Horizon(header)
  {
    hide TicketFlags, Endtime, Renewal, Lowered, CheckTgsOpts;
    DerivedFollows(header, q);
    var (flags, times) := Prepared(header, q);
    LoweredKeeps(times, q.now, Granted(q.modules, true, q.facts));
    EndtimeWithinHeader(q.limits, q.now, header.endtime, q.till, q.client, q.server);
    assert RENEW in q.opts ==> Renewable in header.flags by { RenewNeedsRenewable(q.opts, header.flags); }
  }

  lemma RenewNeedsRenewable(opts: Options, header: Flags)
    requires CheckTgsOpts(opts, header).Ok?
    ensures RENEW in opts ==> Renewable in header
  {
  }

  /** Along every chain of timely derivations no ticket outlives the horizon of the first. */
  lemma {:induction false} ChainWithin(ts: seq<Ticket>, qs: seq<TgsRequest>, k: nat)
    requires IsChain(ts, qs) && k < |ts| && forall i | 0 <= i < |qs| :: Timely(ts[i], qs[i])
    ensures Horizon(ts[k]) <= Horizon(ts[0])
    decreases k
  {
    hide Derived, Horizon, Timely;
    if k > 0 {
      ChainWithin(ts, qs, k - 1);
      assert Derived(ts[k - 1], qs[k - 1]) == Ok(ts[k]);
      DerivedWithin(ts[k - 1], qs[k - 1]);
    }
  }
}
