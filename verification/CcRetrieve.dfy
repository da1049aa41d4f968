/** Credential matching, and choosing among the matches by enctype preference. */
module CcRetrieve {
  import opened Bytes
  import opened CcMarshal
  import opened Wrappers

  datatype MatchFlag =
    | TIMES | IS_SKEY | FLAGS | TIMES_EXACT | FLAGS_EXACT | AUTHDATA | SRV_NAMEONLY | SECOND_TKT | KTYPE | SUPPORTED_KTYPES

  type MatchFlags = set<MatchFlag>

  datatype MatchCred = MatchCred(
    client: Option<(Principal, string)>,
    server: Option<(Principal, string)>,
    etype: int,
    authtime: nat, starttime: nat, endtime: nat, renewTill: nat,
    isSkey: bool, ticketFlags: nat,
    authdata: Option<seq<Typed>>,
    secondTicket: Option<seq<byte>>)

  datatype CcError = Format | BadVno | NotFound | NotKtype | Io

  /** Realm and components; the name type is not compared. */
  predicate PrincEq(p: (Principal, string), name: Principal, realm: string) {
    p.1 == realm && p.0.comps == name.comps
  }

  /** Every bit of `want` is set in `have`. */
  predicate HasBits(have: nat, want: nat) {
    want == 0 || ((want % 2 == 1 ==> have % 2 == 1) && HasBits(have / 2, want / 2))
  }

  function OrEmpty<T>(s: Option<seq<T>>): seq<T> { if s.Some? then s.value else [] }

  /** `creds_match_request`. */
  predicate Matches(flags: MatchFlags, m: MatchCred, c: Cred) {
    && (m.client.Some? ==> PrincEq(m.client.value, c.client, c.crealm))
    && (m.server.Some? ==>
          if SRV_NAMEONLY in flags then m.server.value.0.comps == c.server.comps
          else PrincEq(m.server.value, c.server, c.srealm))
    && c.isSkey == (IS_SKEY in flags && m.isSkey)
    && (FLAGS_EXACT in flags ==> m.ticketFlags == c.ticketFlags)
    && (FLAGS in flags ==> HasBits(c.ticketFlags, m.ticketFlags))
    && (TIMES_EXACT in flags ==>
          m.authtime == c.authtime && m.starttime == c.starttime && m.endtime == c.endtime && m.renewTill == c.renewTill)
    && (TIMES in flags ==>
          && (m.renewTill == 0 || m.renewTill <= c.renewTill)
          && (m.endtime == 0 || m.endtime <= c.endtime))
    && (AUTHDATA in flags ==> OrEmpty(m.authdata) == c.authdata)
    && (SECOND_TKT in flags ==> OrEmpty(m.secondTicket) == c.secondTicket)
    && (KTYPE in flags ==> m.etype == c.keytype)
  }

  /** `position`: where `t` first stands in the list; the length when it does not. */
  function Position(ks: seq<int>, t: int): (p: nat)
    ensures p <= |ks|
    ensures p < |ks| ==> ks[p] == t
    ensures forall i | 0 <= i < p :: ks[i] != t
  {
    if ks == [] || ks[0] == t then 0 else 1 + Position(ks[1..], t)
  }

  /** A smaller number is preferred; without a list all are alike. */
  function Pref(ktypes: Option<seq<int>>, c: Cred): nat {
    if ktypes.Some? then Position(ktypes.value, c.keytype) else 0
  }

  predicate Eligible(flags: MatchFlags, m: MatchCred, ktypes: Option<seq<int>>, c: Cred) {
    Matches(flags, m, c) && (ktypes.Some? ==> Pref(ktypes, c) < |ktypes.value|)
  }

  /** Credential `i` is the first among the most preferred eligible ones. */
  ghost predicate Chosen(creds: seq<Cred>, flags: MatchFlags, m: MatchCred, ktypes: Option<seq<int>>, i: nat)
    requires i < |creds|
  {
    && Eligible(flags, m, ktypes, creds[i])
    && forall j | 0 <= j < |creds| && Eligible(flags, m, ktypes, creds[j]) ::
         Pref(ktypes, creds[i]) < Pref(ktypes, creds[j]) || (Pref(ktypes, creds[i]) == Pref(ktypes, creds[j]) && i <= j)
  }

  /** What a retrieval must answer. */
  ghost predicate Retrieved(creds: seq<Cred>, flags: MatchFlags, m: MatchCred, ktypes: Option<seq<int>>,
                            r: Result<Cred, CcError>) {
    match r
    case Ok(c) => exists i | 0 <= i < |creds| :: creds[i] == c && Chosen(creds, flags, m, ktypes, i)
    case Err(e) =>
      && (forall i | 0 <= i < |creds| :: !Eligible(flags, m, ktypes, creds[i]))
      && e == if exists i | 0 <= i < |creds| :: Matches(flags, m, creds[i]) then NotKtype else NotFound
  }

  /** The answer is determined: two caches with the same list retrieve the same. */
  lemma RetrievedOnce(creds: seq<Cred>, flags: MatchFlags, m: MatchCred, ktypes: Option<seq<int>>,
                      r: Result<Cred, CcError>, s: Result<Cred, CcError>)
    requires Retrieved(creds, flags, m, ktypes, r) && Retrieved(creds, flags, m, ktypes, s)
    ensures r == s
  {
    hide Matches, Pref;
    if r.Ok? && s.Ok? {
      var i :| 0 <= i < |creds| && creds[i] == r.value && Chosen(creds, flags, m, ktypes, i);
      var j :| 0 <= j < |creds| && creds[j] == s.value && Chosen(creds, flags, m, ktypes, j);
      assert i == j;
    }
  }

  /** `retrieve_in`. */
  method RetrieveIn(creds: seq<Cred>, flags: MatchFlags, m: MatchCred, ktypes: Option<seq<int>>)
    returns (r: Result<Cred, CcError>)
    ensures Retrieved(creds, flags, m, ktypes, r)
  {
    hide Matches, Position;
    var best: Option<(nat, Cred)>, nomatch := None, NotFound;
    ghost var at: nat := 0;
    for k := 0 to |creds|
      invariant best.Some? ==> ktypes.Some? && at < k && best.value == (Pref(ktypes, creds[at]), creds[at])
      invariant best.Some? ==> Chosen(creds[..k], flags, m, ktypes, at)
      invariant best.None? ==> forall j | 0 <= j < k :: !Eligible(flags, m, ktypes, creds[j])
      invariant nomatch == NotFound || nomatch == NotKtype
      invariant nomatch == NotKtype ==> exists j | 0 <= j < k :: Matches(flags, m, creds[j])
      invariant best.None? && nomatch == NotFound ==> forall j | 0 <= j < k :: !Matches(flags, m, creds[j])
      invariant ktypes.None? ==> forall j | 0 <= j < k :: !Matches(flags, m, creds[j])
    {
      var c := creds[k];
      if Matches(flags, m, c) {
        if ktypes.None? {
          assert Chosen(creds, flags, m, ktypes, k);
          return Ok(c);
        }
        var pref := Position(ktypes.value, c.keytype);
        if pref == |ktypes.value| {
          nomatch := NotKtype;
        } else if best.None? || pref < best.value.0 {
          best, at := Some((pref, c)), k;
        }
      }
    }
    if best.Some? {
      assert creds[..|creds|] == creds;
      return Ok(best.value.1);
    }
    r := Err(nomatch);
  }
}
