/** Runs of IAKERB: an acceptor against any peer, and two honest endpoints over an unaltered channel. */
module IakerbSession {
  import opened Bytes
  import opened Iakerb
  import opened Wrappers

  // ----- the initiator against any peer -----

  /** The credentials a phase needs are there. */
  ghost predicate Equipped(i: Initiator) {
    && (i.phase == TgsReq ==> i.tgt.Some?)
    && (i.phase == ApReq ==> i.service.Some?)
    && (i.krb5.Some? ==> i.phase == ApReq && i.krb5.value.conv == i.conv)
  }

  lemma NewIsEquipped(realm: string, password: bool, tgt: Option<Credential>, service: Option<Credential>)
    ensures Equipped(NewInitiator(realm, password, tgt, service))
  {
  }

  ghost predicate IsMade(env: Env, tok: seq<byte>) {
    exists realm: string, cookie: Option<seq<byte>>, msg: seq<byte> :: tok == MakeToken(env, realm, cookie, msg)
  }

  lemma {:induction false} PhasesEquipped(env: Env, i: Initiator, first: bool, serverRealm: string, cookie: Option<seq<byte>>, kdcIn: seq<byte>)
    requires Equipped(i) && i.krb5.None?
    ensures var (j, s) := Phases(env, i, first, serverRealm, cookie, kdcIn);
            Equipped(j) && (s.Emit? ==> IsMade(env, s.token) && j.phase != ApReq)
    decreases 3 - Rank(i.phase)
  {
    hide MakeToken;
    match i.phase
    case RealmDiscovery =>
      if !first && serverRealm != "" {
        PhasesEquipped(env, i.(realm := serverRealm, phase := AsReq), first, "", cookie, []);
      }
    case AsReq =>
      var x := env.asStep(i.realm, Inputs(i.asInputs, kdcIn));
      if !x.Send? && (x.Done? || i.tgt.Some?) {
        PhasesEquipped(env, i.(tgt := if x.Done? then Some(x.cred) else i.tgt, asInputs := None, phase := TgsReq),
                       first, serverRealm, cookie, []);
      }
    case TgsReq =>
    case ApReq =>
  }

  /**
   * Whatever arrives, a step keeps the initiator equipped, never moves it back, and only adds to its
   * transcript; once the AP exchange has begun the transcript stays as it was handed over.
   */
  lemma InitStepForward(env: Env, i: Initiator, input: Option<seq<byte>>)
    requires Equipped(i)
    ensures var (j, r) := InitStep(env, i, input);
            && Equipped(j) && Rank(j.phase) >= Rank(i.phase) && i.conv <= j.conv
            && (i.krb5.Some? ==> j.krb5.Some? && j.conv == i.conv)
  {
    hide Phases, ParseToken, ProxyFailure;
    if i.phase != ApReq {
      var none := input.None? || input.value == [];
      if none {
        PhasesEquipped(env, i, true, "", None, []);
      } else if ParseToken(env, input.value).Some? {
        var p := ParseToken(env, input.value).value;
        PhasesEquipped(env, i.(conv := i.conv + input.value), false, p.realm, p.cookie, p.message);
      }
    }
  }

  function InitAll(env: Env, i: Initiator, inputs: seq<Option<seq<byte>>>): Initiator
    decreases |inputs|
  {
    if inputs == [] then i else InitAll(env, InitStep(env, i, inputs[0]).0, inputs[1..])
  }

  lemma {:induction false} InitAllForward(env: Env, i: Initiator, inputs: seq<Option<seq<byte>>>)
    requires Equipped(i)
    ensures var j := InitAll(env, i, inputs);
            && Equipped(j) && Rank(j.phase) >= Rank(i.phase) && i.conv <= j.conv
            && (i.krb5.Some? ==> j.krb5.Some? && j.conv == i.conv)
    decreases |inputs|
  {
    hide InitStep, Equipped;
    if inputs != [] {
      InitStepForward(env, i, inputs[0]);
      InitAllForward(env, InitStep(env, i, inputs[0]).0, inputs[1..]);
    }
  }

  /** Over any inputs whatever: a phase once left is not come back to, and a transcript handed over stays. */
  lemma PhasesMoveForward(env: Env, realm: string, password: bool, tgt: Option<Credential>, service: Option<Credential>,
                          before: seq<Option<seq<byte>>>, after: seq<Option<seq<byte>>>)
    ensures var i := InitAll(env, NewInitiator(realm, password, tgt, service), before);
            var j := InitAll(env, i, after);
            && Equipped(i) && Rank(j.phase) >= Rank(i.phase) && i.conv <= j.conv
            && (i.krb5.Some? ==> j.krb5.Some? && j.krb5.value.conv == i.krb5.value.conv)
  {
    hide InitAll;
    NewIsEquipped(realm, password, tgt, service);
    var i := InitAll(env, NewInitiator(realm, password, tgt, service), before);
    InitAllForward(env, NewInitiator(realm, password, tgt, service), before);
    InitAllForward(env, i, after);
  }

  // ----- the acceptor against any peer -----

  /** The hop bound, one thing at a time, and a transcript that is handed over as it stands. */
  ghost predicate Steady(a: Acceptor) {
    && a.count + (if a.pending.Some? then 1 else 0) <= MAX_HOPS
    && (a.krb5.Some? ==> a.pending.None? && a.krb5.value.conv == a.conv)
    && (a.krb5.None? ==> a.keys)
  }

  datatype Event = Arrives(token: seq<byte>) | KdcAnswers(answer: Answer)

  function After(env: Env, a: Acceptor, e: Event): Acceptor {
    match e
    case Arrives(tok) => AcceptStep(env, a, tok).0
    case KdcAnswers(answer) => KdcReply(env, a, answer).0
  }

  function AfterAll(env: Env, a: Acceptor, es: seq<Event>): Acceptor
    decreases |es|
  {
    if es == [] then a else AfterAll(env, After(env, a, es[0]), es[1..])
  }

  lemma AfterSteady(env: Env, a: Acceptor, e: Event)
    requires Steady(a)
    ensures var b := After(env, a, e);
            Steady(b) && (a.krb5.Some? ==> b.krb5.Some? && b.conv == a.conv && b.count == a.count)
  {
    hide MakeToken, ParseToken;
  }

  /** The proxy token an event makes the acceptor emit. */
  function EmittedBy(env: Env, a: Acceptor, e: Event): seq<seq<byte>> {
    match e
    case Arrives(tok) =>
      var r := AcceptStep(env, a, tok).1;
      if IsIakerbToken(tok) && r.Ok? && r.value.Reply? && r.value.output.Continue? then [r.value.output.token] else []
    case KdcAnswers(answer) =>
      var r := KdcReply(env, a, answer).1;
      if r.Ok? then [r.value] else []
  }

  function EmittedAll(env: Env, a: Acceptor, es: seq<Event>): seq<seq<byte>>
    decreases |es|
  {
    if es == [] then [] else EmittedBy(env, a, es[0]) + EmittedAll(env, After(env, a, es[0]), es[1..])
  }

  /** The hop count is the number of proxy tokens emitted: each emission counts one, and nothing else does. */
  lemma CountsEmissions(env: Env, a: Acceptor, e: Event)
    ensures After(env, a, e).count == a.count + |EmittedBy(env, a, e)|
  {
    hide MakeToken, ParseToken, ProxyBody;
  }

  lemma {:induction false} HopsFrom(env: Env, a: Acceptor, es: seq<Event>)
    requires Steady(a)
    ensures var b := AfterAll(env, a, es);
            && Steady(b) && b.count == a.count + |EmittedAll(env, a, es)|
            && (a.krb5.Some? ==> b.krb5.Some? && b.conv == a.conv && b.count == a.count)
    decreases |es|
  {
    hide After, Steady, EmittedBy;
    if es != [] {
      AfterSteady(env, a, es[0]);
      CountsEmissions(env, a, es[0]);
      HopsFrom(env, After(env, a, es[0]), es[1..]);
    }
  }

  /** Over any events whatever, the acceptor emits at most 26 proxy tokens. */
  lemma HopsBounded(env: Env, realm: Option<string>, es: seq<Event>)
    ensures |EmittedAll(env, NewAcceptor(realm), es)| <= MAX_HOPS && Steady(AfterAll(env, NewAcceptor(realm), es))
  {
    hide AfterAll, EmittedAll;
    HopsFrom(env, NewAcceptor(realm), es);
  }

  /** Proxy tokens are refused, without effect, while a reply is awaited and once the AP exchange has begun. */
  lemma NoProxyWhileBusy(env: Env, a: Acceptor, tok: seq<byte>)
    requires IsIakerbToken(tok) && (a.pending.Some? || a.krb5.Some?)
    ensures AcceptStep(env, a, tok) == (a, Err(Defective))
  {
  }

  /**
   * Once the AP exchange has begun, whatever events follow: none emits a proxy token, none changes
   * the transcript, and a proxy token that then arrives is refused without effect.
   */
  lemma NoProxyAfterAp(env: Env, realm: Option<string>, before: seq<Event>, after: seq<Event>, tok: seq<byte>)
    requires AfterAll(env, NewAcceptor(realm), before).krb5.Some? && IsIakerbToken(tok)
    ensures var a := AfterAll(env, NewAcceptor(realm), before);
            var b := AfterAll(env, a, after);
            && EmittedAll(env, a, after) == [] && b.conv == a.conv
            && AcceptStep(env, b, tok) == (b, Err(Defective))
  {
    hide AfterAll, EmittedAll, AcceptStep, IsIakerbToken;
    HopsFrom(env, NewAcceptor(realm), before);
    var a := AfterAll(env, NewAcceptor(realm), before);
    HopsFrom(env, a, after);
    NoProxyWhileBusy(env, AfterAll(env, a, after), tok);
  }

  // ----- two endpoints -----

  datatype Wire = ToInitiator(input: Option<seq<byte>>) | ToAcceptor(token: seq<byte>) | AtKdc | Over

  /** The endpoints, what is under way, and every proxy token sent so far, either way, end to end. */
  datatype Session = Session(i: Initiator, a: Acceptor, wire: Wire, log: seq<byte>)

  function Logged(log: seq<byte>, tok: seq<byte>): seq<byte> { if IsIakerbToken(tok) then log + tok else log }

  function Toward(s: Session, tok: Option<seq<byte>>, acceptor: bool): Session {
    if tok.None? then s.(wire := Over)
    else s.(wire := if acceptor then ToAcceptor(tok.value) else ToInitiator(tok), log := Logged(s.log, tok.value))
  }

  ghost predicate Next(env: Env, s: Session, t: Session) {
    match s.wire
    case ToInitiator(input) =>
      var (i, r) := InitStep(env, s.i, input);
      t == Toward(s.(i := i), if r.Ok? then Carried(r.value) else None, true)
    case ToAcceptor(tok) =>
      var (a, r) := AcceptStep(env, s.a, tok);
      if r.Ok? && r.value.SendToKdc? then t == s.(a := a, wire := AtKdc)
      else t == Toward(s.(a := a), if r.Ok? then Carried(r.value.output) else None, false)
    case AtKdc =>
      exists answer: Answer ::
        var (a, r) := KdcReply(env, s.a, answer);
        t == Toward(s.(a := a), if r.Ok? then Some(r.value) else None, false)
    case Over => false
  }

  ghost predicate Start(s: Session) {
    && (exists realm: string, password: bool, tgt: Option<Credential>, service: Option<Credential> ::
          s.i == NewInitiator(realm, password, tgt, service))
    && (exists realm: Option<string> :: s.a == NewAcceptor(realm))
    && s.wire == ToInitiator(None) && s.log == []
  }

  /** The tokens on the wire are of a size the framing can carry. */
  ghost predicate Sized(s: Session) {
    && (s.wire.ToAcceptor? ==> |s.wire.token| < TWO32)
    && (s.wire.ToInitiator? && s.wire.input.Some? ==> |s.wire.input.value| < TWO32)
  }

  ghost predicate IsRun(env: Env, run: seq<Session>) {
    && run != [] && Start(run[0])
    && (forall k | 0 <= k < |run| - 1 :: Next(env, run[k], run[k + 1]))
    && (forall k | 0 <= k < |run| :: Sized(run[k]))
  }

  /** Where the transcripts stand, by what is on the wire. */
  ghost predicate Aligned(s: Session) {
    match s.wire
    case ToInitiator(input) =>
      && s.a.pending.None?
      && if s.i.krb5.Some? then s.a.krb5.Some?
         else s.a.krb5.None? && s.a.conv == s.log
              && if input.None? then s.i.conv == s.log else s.i.phase != ApReq && input.value != [] && s.log == s.i.conv + input.value
    case ToAcceptor(tok) =>
      && s.a.pending.None?
      && if s.i.krb5.Some? then !IsIakerbToken(tok) && (s.a.krb5.None? ==> s.a.conv == s.log)
         else IsIakerbToken(tok) && s.a.krb5.None? && s.i.phase != ApReq && s.i.conv == s.log == s.a.conv + tok
    case AtKdc =>
      s.i.krb5.None? && s.i.phase != ApReq && s.a.krb5.None? && s.a.pending.Some? && s.a.conv == s.i.conv == s.log
    case Over => true
  }

  ghost predicate Inv(s: Session) {
    && Equipped(s.i) && Steady(s.a) && Aligned(s)
    && (s.i.krb5.Some? ==> s.i.krb5.value.conv == s.log)
    && (s.a.krb5.Some? ==> s.i.krb5.Some? && s.a.krb5.value.conv == s.log)
  }

  lemma MadeIsProxy(env: Env, tok: seq<byte>)
    requires env.DerLawful() && IsMade(env, tok)
    ensures tok != [] && (|tok| < TWO32 ==> IsIakerbToken(tok))
  {
    hide MakeToken, IsIakerbToken;
    var realm: string, cookie: Option<seq<byte>>, msg: seq<byte> :| tok == MakeToken(env, realm, cookie, msg);
    MadeNonEmpty(env, realm, cookie, msg);
    if |tok| < TWO32 {
      SmallIsCarriable(env, realm, cookie, msg);
      TokenRoundTrip(env, realm, cookie, msg);
    }
  }

  lemma MadeNonEmpty(env: Env, realm: string, cookie: Option<seq<byte>>, msg: seq<byte>)
    ensures MakeToken(env, realm, cookie, msg) != []
  {
  }

  /** A proxying step: nothing said, or a made token that ends the new transcript. */
  lemma ProxyStepMeans(env: Env, i: Initiator, input: Option<seq<byte>>)
    requires Equipped(i) && i.krb5.None? && (input.Some? ==> input.value != [])
    ensures var (j, s) := ProxyStep(env, i, input);
            && Equipped(j) && j.krb5.None?
            && (!s.Fail? ==> j.conv == i.conv + (if input.Some? then input.value else []) + if s.Emit? then s.token else [])
            && (s.Emit? ==> IsMade(env, s.token) && j.phase != ApReq)
            && (s.Proceed? ==> j.phase == ApReq)
  {
    hide Phases, ParseToken, ProxyFailure, MakeToken;
    if input.None? {
      PhasesEquipped(env, i, true, "", None, []);
      assert i.conv + [] == i.conv;
    } else if ParseToken(env, input.value).Some? {
      var p := ParseToken(env, input.value).value;
      PhasesEquipped(env, i.(conv := i.conv + input.value), false, p.realm, p.cookie, p.message);
    }
  }

  lemma ApStepMeans(env: Env, i: Initiator, input: Option<seq<byte>>)
    requires env.ApLawful() && Equipped(i) && i.phase == ApReq
    ensures var (j, r) := ApStep(env, i, input);
            && Equipped(j) && j.conv == i.conv && j.phase == ApReq && (i.krb5.Some? ==> j.krb5.Some?)
            && (r.Ok? ==> j.krb5.Some?) && ApOutput(r)
  {
    hide IsIakerbToken;
  }

  lemma InitiatorKeeps(env: Env, s: Session, t: Session)
    requires env.DerLawful() && env.ApLawful() && Inv(s) && s.wire.ToInitiator? && Next(env, s, t) && Sized(t)
    ensures Inv(t)
  {
    hide IsIakerbToken, ProxyStep, ApStep, Env.DerLawful, Env.ApLawful, IsMade, Equipped, Steady;
    var input := s.wire.input;
    if s.i.phase == ApReq {
      ApStepMeans(env, s.i, input);
    } else {
      assert s.i.krb5.None? by { NotYet(s.i); }
      ProxyStepMeans(env, s.i, input);
      var (j, step) := ProxyStep(env, s.i, input);
      assert s.log + [] == s.log && s.i.conv + [] == s.i.conv;
      if step.Emit? {
        MadeIsProxy(env, step.token);
      } else if step.Proceed? {
        ApStepMeans(env, j, input);
      }
    }
    assert t.i.krb5.Some? ==> t.i.krb5.value.conv == t.i.conv by { HandedOver(t.i); }
    assert s.i.krb5.Some? ==> s.i.krb5.value.conv == s.i.conv by { HandedOver(s.i); }
  }

  lemma NotYet(i: Initiator)
    requires Equipped(i) && i.phase != ApReq
    ensures i.krb5.None?
  {
  }

  lemma HandedOver(i: Initiator)
    requires Equipped(i)
    ensures i.krb5.Some? ==> i.krb5.value.conv == i.conv
  {
  }

  lemma AcceptorKeeps(env: Env, s: Session, t: Session)
    requires env.DerLawful() && env.ApLawful() && Inv(s) && s.wire.ToAcceptor? && Next(env, s, t) && Sized(t)
    ensures Inv(t)
  {
    hide IsIakerbToken, ParseToken, MakeToken, Env.DerLawful, Equipped;
    var (a, r) := AcceptStep(env, s.a, s.wire.token);
    AfterSteady(env, s.a, Arrives(s.wire.token));
    if IsIakerbToken(s.wire.token) && r.Ok? && r.value.Reply? {
      assert IsMade(env, r.value.output.token);
      MadeIsProxy(env, r.value.output.token);
    }
  }

  lemma KdcKeeps(env: Env, s: Session, t: Session)
    requires env.DerLawful() && Inv(s) && s.wire.AtKdc? && Next(env, s, t) && Sized(t)
    ensures Inv(t)
  {
    hide IsIakerbToken, MakeToken, Env.DerLawful, Equipped;
    var answer: Answer :|
      var (a, r) := KdcReply(env, s.a, answer);
      t == Toward(s.(a := a), if r.Ok? then Some(r.value) else None, false);
    AfterSteady(env, s.a, KdcAnswers(answer));
    var r := KdcReply(env, s.a, answer).1;
    if r.Ok? {
      assert IsMade(env, r.value);
      MadeIsProxy(env, r.value);
    }
  }

  lemma {:induction false} RunInv(env: Env, run: seq<Session>, k: nat)
    requires env.DerLawful() && env.ApLawful() && IsRun(env, run) && k < |run|
    ensures Inv(run[k])
    decreases k
  {
    hide Inv, Next, Sized, Env.DerLawful, Env.ApLawful;
    if k == 0 {
      StartInv(run[0]);
    } else {
      RunInv(env, run, k - 1);
      assert Next(env, run[k - 1], run[k]);
      NextInv(env, run[k - 1], run[k]);
    }
  }

  lemma NextInv(env: Env, s: Session, t: Session)
    requires env.DerLawful() && env.ApLawful() && Inv(s) && Next(env, s, t) && Sized(t)
    ensures Inv(t)
  {
    hide Inv, Sized, Env.DerLawful, Env.ApLawful, InitStep, AcceptStep, KdcReply;
    match s.wire
    case ToInitiator(_) => InitiatorKeeps(env, s, t);
    case ToAcceptor(_) => AcceptorKeeps(env, s, t);
    case AtKdc => KdcKeeps(env, s, t);
    case Over =>
  }

  lemma StartInv(s: Session)
    requires Start(s)
    ensures Inv(s)
  {
  }

  /**
   * In every run over an unaltered channel, whatever the exchanges, the KDCs and the krb5 mechanism
   * do: when both sides are in the AP exchange they were handed the same transcript, and it is
   * every proxy token sent, in order.
   */
  lemma TranscriptsAgree(env: Env, run: seq<Session>, k: nat)
    requires env.DerLawful() && env.ApLawful() && IsRun(env, run) && k < |run|
    requires run[k].a.krb5.Some?
    ensures run[k].i.krb5.Some? && run[k].i.krb5.value.conv == run[k].a.krb5.value.conv == run[k].log
  {
    hide IsRun, Env.DerLawful, Env.ApLawful;
    RunInv(env, run, k);
  }
}
