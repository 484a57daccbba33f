/** The certificate resolver and the issuance of certificates (src/tls.rs, src/acme.rs). */
module AcmeManagers {
  import opened Prelude
  import opened CertCache
  import opened Zones

  const ACME_TLS_ALPN_NAME := "acme-tls/1"

  datatype ClientHello = ClientHello(alpn: Option<seq<string>>, serverName: Option<string>)

  /** What a handshake presents: the production certificate, or a validation certificate made for
      a challenge digest. */
  datatype Presented = Production(cert: IssuedCert) | ValidationCert(digest: string)

  /** Whether this is a validation handshake (section 3 of RFC 8737). */
  predicate IsValidation(hello: ClientHello) {
    hello.alpn.Some? && "acme-tls/1" in hello.alpn.value
  }

  class AcmeResolver {
    var current: Option<IssuedCert>
    var challenges: map<string, string>

    constructor Empty()
      ensures current == None && challenges == map[]
    {
      current, challenges := None, map[];
    }

    method Store(cert: IssuedCert)
      modifies this`current
      ensures current == Some(cert)
    {
      current := Some(cert);
    }

    method SetChallenge(domain: string, digest: string)
      modifies this`challenges
      ensures challenges == old(challenges)[domain := digest]
    {
      var clone := challenges;
      clone := clone[domain := digest];
      challenges := clone;
    }

    method ClearChallenge(domain: string)
      modifies this`challenges
      ensures challenges == old(challenges) - {domain}
    {
      var clone := challenges;
      clone := clone - {domain};
      challenges := clone;
    }

    /** A validation handshake gets the validation certificate of the name it asks for or nothing,
        never the production certificate; any other handshake gets the production certificate. */
    method Resolve(hello: ClientHello) returns (r: Option<Presented>)
      ensures hello.alpn.Some? && "acme-tls/1" in hello.alpn.value ==> r.None? || r.value.ValidationCert?
      ensures r.Some? ==> (r.value.ValidationCert? <==> IsValidation(hello))
      ensures IsValidation(hello) ==>
        (r.Some? <==> hello.serverName.Some? && hello.serverName.value in challenges)
      ensures IsValidation(hello) && r.Some? ==> r.value.digest == challenges[hello.serverName.value]
      ensures !IsValidation(hello) ==> (r.Some? <==> current.Some?)
      ensures !IsValidation(hello) && r.Some? ==> r.value.cert == current.value
    {
      if hello.alpn.Some? && ACME_TLS_ALPN_NAME in hello.alpn.value {
        if hello.serverName.Some? {
          var name := hello.serverName.value;
          return if name in challenges then Some(ValidationCert(challenges[name])) else None;
        }
        return None;
      }
      return if current.Some? then Some(Production(current.value)) else None;
    }
  }

  class Http01Tokens {
    var inner: map<string, string>

    constructor ()
      ensures inner == map[]
    {
      inner := map[];
    }

    method Insert(token: string, keyAuthorization: string)
      modifies this
      ensures inner == old(inner)[token := keyAuthorization]
    {
      var clone := inner;
      clone := clone[token := keyAuthorization];
      inner := clone;
    }

    method Remove(token: string)
      modifies this
      ensures inner == old(inner) - {token}
    {
      var clone := inner;
      clone := clone - {token};
      inner := clone;
    }
  }

  /** A DNS TXT record. */
  datatype Txt = Txt(name: string, value: string)

  /** The challenge records there are in DNS, as the DNS provider publishes and removes them. */
  class DnsRecords {
    var records: set<Txt>

    constructor ()
      ensures records == {}
    {
      records := {};
    }

    method Publish(r: Txt)
      modifies this
      ensures records == old(records) + {r}
    {
      records := records + {r};
    }

    /** Removal is best effort. */
    method Cleanup(r: Txt, works: bool)
      modifies this
      ensures records == if works then old(records) - {r} else old(records)
    {
      if works {
        records := records - {r};
      }
    }
  }

  // ----- what the authority and the system answer during one issuance

  datatype Challenge = Http01 | TlsAlpn01 | Dns01

  datatype Offer = Offer(token: string, keyAuthorization: string, digest: string, dnsValue: string)

  /** One authorization of an order. `responded`: the validation certificate could be made, or the
      DNS record published. `ready`: the authority took note of the response. */
  datatype Authz =
    | FetchFailed
    | AlreadyValid
    | NotPending
    | Pending(domain: string, offer: Option<Offer>, responded: bool, ready: bool)

  /** `final` is what finalization and download give, `ordered` whether account and order were
      obtained, `stuck` the records whose removal fails, and the rest how caching goes. */
  datatype Answers = Answers(ordered: bool, auths: seq<Authz>, final: Option<IssuedCert>, stuck: set<Txt>,
                             dirMade: bool, certWrite: Write, keyWrite: Write)

  /** The responses in place: by token, by domain, and in DNS. */
  datatype Responses = Responses(tokens: map<string, string>, challenges: map<string, string>, records: set<Txt>)

  const NO_RESPONSES := Responses(map[], map[], {})

  /** The authorization loop: the responses in place, the tokens, domains and records it has put
      there, and whether it returned early. */
  datatype Setup = Setup(placed: Responses, http: seq<string>, alpn: seq<string>, dns: seq<Txt>, failed: bool)

  function RecordOf(domain: string, o: Offer): Txt {
    Txt(DnsRecordName(domain), o.dnsValue)
  }

  function SetUpOne(kind: Challenge, su: Setup, a: Authz): Setup {
    if su.failed then su else
    match a
    case FetchFailed => su.(failed := true)
    case AlreadyValid => su
    case NotPending => su.(failed := true)
    case Pending(_, None, _, _) => su.(failed := true)
    case Pending(domain, Some(o), responded, ready) =>
      var r := su.placed;
      match kind
      case Http01 =>
        su.(placed := r.(tokens := r.tokens[o.token := o.keyAuthorization]), http := su.http + [o.token], failed := !ready)
      case TlsAlpn01 =>
        if !responded then su.(failed := true)
        else su.(placed := r.(challenges := r.challenges[domain := o.digest]), alpn := su.alpn + [domain], failed := !ready)
      case Dns01 =>
        if !responded then su.(failed := true)
        else
          var record := RecordOf(domain, o);
          su.(placed := r.(records := r.records + {record}), dns := su.dns + [record], failed := !ready)
  }

  function SetUp(kind: Challenge, auths: seq<Authz>, k: nat, before: Responses): Setup
    requires k <= |auths|
  {
    if k == 0 then Setup(before, [], [], [], false)
    else SetUpOne(kind, SetUp(kind, auths, k - 1, before), auths[k - 1])
  }

  function Elements<T>(xs: seq<T>): set<T> {
    set x | x in xs
  }

  /** The loop changes only what it lists, and all it lists is in place. */
  ghost predicate OnlyListed(su: Setup, before: Responses) {
    && (forall t :: t in su.http ==> t in su.placed.tokens)
    && (forall d :: d in su.alpn ==> d in su.placed.challenges)
    && (forall r :: r in su.dns ==> r in su.placed.records)
    && su.placed.tokens - Elements(su.http) == before.tokens - Elements(su.http)
    && su.placed.challenges - Elements(su.alpn) == before.challenges - Elements(su.alpn)
    && su.placed.records == before.records + Elements(su.dns)
  }

  lemma {:induction false} SetUpOnlyListed(kind: Challenge, auths: seq<Authz>, k: nat, before: Responses)
    requires k <= |auths|
    ensures OnlyListed(SetUp(kind, auths, k, before), before)
  {
    if k > 0 {
      hide SetUp;
      SetUpOnlyListed(kind, auths, k - 1, before);
      SetUpStep(kind, auths, k, before);
      OneOnlyListed(kind, SetUp(kind, auths, k - 1, before), auths[k - 1], before);
    }
  }

  lemma {:induction false} SetUpStep(kind: Challenge, auths: seq<Authz>, k: nat, before: Responses)
    requires 0 < k <= |auths|
    ensures SetUp(kind, auths, k, before) == SetUpOne(kind, SetUp(kind, auths, k - 1, before), auths[k - 1])
  {
    hide SetUpOne;
  }

  lemma {:induction false} OneOnlyListed(kind: Challenge, su: Setup, a: Authz, before: Responses)
    requires OnlyListed(su, before)
    ensures OnlyListed(SetUpOne(kind, su, a), before)
  {
    if !su.failed && a.Pending? && a.offer.Some? {
      hide Elements, RecordOf;
      var o := a.offer.value;
      match kind {
        case Http01 => ListedOneMore(su.placed.tokens, before.tokens, su.http, o.token, o.keyAuthorization);
        case TlsAlpn01 => ListedOneMore(su.placed.challenges, before.challenges, su.alpn, a.domain, o.digest);
        case Dns01 => ElementsOneMore(su.dns, RecordOf(a.domain, o));
      }
    }
  }

  lemma {:induction false} ElementsOneMore<T>(xs: seq<T>, x: T)
    ensures Elements(xs + [x]) == Elements(xs) + {x}
  {
  }

  lemma {:induction false} ListedOneMore(m: map<string, string>, before: map<string, string>, listed: seq<string>, k: string, v: string)
    requires m - Elements(listed) == before - Elements(listed)
    ensures m[k := v] - Elements(listed + [k]) == before - Elements(listed + [k])
  {
    ElementsOneMore(listed, k);
    var l, r := m[k := v] - Elements(listed + [k]), before - Elements(listed + [k]);
    forall x
      ensures x in l <==> x in r
      ensures x in l ==> l[x] == r[x]
    {
      assert x in m - Elements(listed) <==> x in before - Elements(listed);
    }
  }

  class AcmeManager {
    const challenge: Challenge
    const cached: bool
    const httpTokens: Http01Tokens
    const resolver: AcmeResolver
    const dns: DnsRecords
    var disk: Disk

    constructor (challenge: Challenge, cached: bool, httpTokens: Http01Tokens, resolver: AcmeResolver, dns: DnsRecords, disk: Disk)
      ensures this.challenge == challenge && this.cached == cached && this.disk == disk
      ensures this.httpTokens == httpTokens && this.resolver == resolver && this.dns == dns
    {
      this.challenge, this.cached, this.disk := challenge, cached, disk;
      this.httpTokens, this.resolver, this.dns := httpTokens, resolver, dns;
    }

    function View(): System
      reads this, resolver
    {
      System(cached, disk, resolver.current)
    }

    function InPlace(): Responses
      reads httpTokens, resolver, dns
    {
      Responses(httpTokens.inner, resolver.challenges, dns.records)
    }

    function SettingUp(auths: seq<Authz>): Setup
      reads httpTokens, resolver, dns
    {
      SetUp(challenge, auths, |auths|, InPlace())
    }

    /** Puts a usable cached certificate in the resolver. */
    method LoadCached(pki: Pki, now: int) returns (installed: bool)
      modifies resolver`current
      ensures installed <==> cached && CertCache.LoadCached(pki, disk, now).Some?
      ensures installed
              <==> && cached && disk.cert.Some? && disk.key.Some?
                   && pki.remaining(disk.cert.value, now).Some?
                   && pki.remaining(disk.cert.value, now).value > 30 * 24 * 60 * 60
                   && pki.certKey(disk.cert.value).Some? && pki.certKey(disk.cert.value) == pki.publicKey(disk.key.value)
      ensures resolver.current == if installed then LoadCert(disk) else old(resolver.current)
      ensures installed ==> Certifies(pki, resolver.current.value) && !NeedsRenewal(pki, resolver.current.value, now)
    {
      if !cached {
        return false;
      }
      if disk.cert.None? || disk.key.None? {
        return false;
      }
      var cert := IssuedCert(disk.cert.value, disk.key.value);
      if NeedsRenewal(pki, cert, now) {
        return false;
      }
      if !Certifies(pki, cert) {
        return false;
      }
      resolver.Store(cert);
      return true;
    }

    /** The files change as the writes go. */
    method Cache(cert: IssuedCert, certWrite: Write, keyWrite: Write) returns (ok: bool)
      modifies this`disk
      ensures disk == StoreCert(old(disk), cert, certWrite, keyWrite)
      ensures ok <==> certWrite.Done? && keyWrite.Done?
    {
      match certWrite {
        case Cut(left) =>
          disk := disk.(cert := left);
          return false;
        case Done =>
          disk := disk.(cert := Some(cert.certPem));
      }
      match keyWrite {
        case Cut(left) =>
          disk := disk.(key := left);
          return false;
        case Done =>
          disk := disk.(key := Some(cert.keyPem));
      }
      return true;
    }

    /** The authorization loop. */
    method Respond(auths: seq<Authz>) returns (http: seq<string>, alpn: seq<string>, records: seq<Txt>, failed: bool)
      modifies httpTokens, resolver`challenges, dns
      ensures Setup(InPlace(), http, alpn, records, failed) == old(SettingUp(auths))
    {
      http, alpn, records, failed := [], [], [], false;
      ghost var before := InPlace();
      for i := 0 to |auths|
        invariant Setup(InPlace(), http, alpn, records, failed) == SetUp(challenge, auths, i, before)
        invariant !failed
      {
        hide SetUp, RecordOf;
        SetUpStep(challenge, auths, i + 1, before);
        match auths[i] {
          case FetchFailed => failed := true;
          case AlreadyValid =>
          case NotPending => failed := true;
          case Pending(domain, None, _, _) => failed := true;
          case Pending(domain, Some(o), responded, ready) =>
            match challenge {
              case Http01 =>
                httpTokens.Insert(o.token, o.keyAuthorization);
                http := http + [o.token];
                failed := !ready;
              case TlsAlpn01 =>
                if !responded {
                  failed := true;
                } else {
                  resolver.SetChallenge(domain, o.digest);
                  alpn := alpn + [domain];
                  failed := !ready;
                }
              case Dns01 =>
                if !responded {
                  failed := true;
                } else {
                  dns.Publish(RecordOf(domain, o));
                  records := records + [RecordOf(domain, o)];
                  failed := !ready;
                }
            }
        }
        if failed {
          FailedStays(challenge, auths, i + 1, |auths|, before);
          return;
        }
      }
    }

    /** The teardown loops. */
    method TearDown(http: seq<string>, alpn: seq<string>, records: seq<Txt>, stuck: set<Txt>)
      modifies httpTokens, resolver`challenges, dns
      ensures httpTokens.inner == old(httpTokens.inner) - Elements(http)
      ensures resolver.challenges == old(resolver.challenges) - Elements(alpn)
      ensures dns.records == old(dns.records) - (Elements(records) - stuck)
    {
      for i := 0 to |http|
        invariant httpTokens.inner == old(httpTokens.inner) - Elements(http[..i])
        invariant resolver.challenges == old(resolver.challenges) && dns.records == old(dns.records)
      {
        assert Elements(http[..i + 1]) == Elements(http[..i]) + {http[i]};
        httpTokens.Remove(http[i]);
      }
      assert http[..|http|] == http;
      for i := 0 to |alpn|
        invariant httpTokens.inner == old(httpTokens.inner) - Elements(http)
        invariant resolver.challenges == old(resolver.challenges) - Elements(alpn[..i])
        invariant dns.records == old(dns.records)
      {
        assert Elements(alpn[..i + 1]) == Elements(alpn[..i]) + {alpn[i]};
        resolver.ClearChallenge(alpn[i]);
      }
      assert alpn[..|alpn|] == alpn;
      for i := 0 to |records|
        invariant httpTokens.inner == old(httpTokens.inner) - Elements(http)
        invariant resolver.challenges == old(resolver.challenges) - Elements(alpn)
        invariant dns.records == old(dns.records) - (Elements(records[..i]) - stuck)
      {
        assert Elements(records[..i + 1]) == Elements(records[..i]) + {records[i]};
        dns.Cleanup(records[i], records[i] !in stuck);
      }
      assert records[..|records|] == records;
    }

    /** An issuance serves the certificate it obtains if and only if everything goes well: the order,
        every authorization, the download of a certificate with its own key, and the caching if
        there is a cache; whatever was served before. Otherwise it leaves the served certificate
        alone. One that gets to finalization removes its responses, as far as
        DNS lets it, and touches no others; one that returns from the authorization loop leaves
        its responses behind. */
    method Issue(pki: Pki, answers: Answers) returns (r: Option<IssuedCert>)
      modifies this`disk, httpTokens, resolver, dns
      ensures r.Some? <==> GoesWell(pki, challenge, cached, answers)
      ensures r.None? ==> resolver.current == old(resolver.current)
      ensures r.Some? ==> resolver.current == r && r == answers.final
      ensures View() == Next(pki, old(View()), CertCache.Issue(OutcomeOf(answers, old(SettingUp(answers.auths)))))
      ensures r.Some? <==> Succeeds(pki, old(View()), OutcomeOf(answers, old(SettingUp(answers.auths))))
      ensures InPlace() == LeftInPlace(answers, old(SettingUp(answers.auths)), old(InPlace()))
    {
      hide SetUp, Certifies, StoreCert, Reached;
      if !answers.ordered {
        return None;
      }
      SetUpOnlyListed(challenge, answers.auths, |answers.auths|, InPlace());
      FailsIfStopped(challenge, answers.auths, |answers.auths|, InPlace());
      var http, alpn, records, failed := Respond(answers.auths);
      if failed {
        return None;
      }
      TearDown(http, alpn, records, answers.stuck);
      if answers.final.None? {
        return None;
      }
      var issued := answers.final.value;
      if cached {
        if !answers.dirMade {
          return None;
        }
        var ok := Cache(issued, answers.certWrite, answers.keyWrite);
        if !ok {
          return None;
        }
      }
      if !Certifies(pki, issued) {
        return None;
      }
      resolver.Store(issued);
      return Some(issued);
    }
  }

  /** Everything an issuance needs goes well. */
  predicate GoesWell(pki: Pki, kind: Challenge, cached: bool, answers: Answers) {
    && answers.ordered && Reached(kind, answers.auths, |answers.auths|)
    && answers.final.Some? && Certifies(pki, answers.final.value)
    && (cached ==> answers.dirMade && answers.certWrite.Done? && answers.keyWrite.Done?)
  }

  /** What an issuance comes to for the served certificate and the cache. */
  function OutcomeOf(answers: Answers, su: Setup): Outcome {
    if !answers.ordered || su.failed || answers.final.None? then Refused
    else Obtained(answers.final.value, answers.dirMade, answers.certWrite, answers.keyWrite)
  }

  /** The responses in place after an issuance: without an order, those there were; after an early
      return from the authorization loop, its own as well; otherwise those there were less its own,
      except for DNS records that could not be removed. */
  function LeftInPlace(answers: Answers, su: Setup, before: Responses): Responses {
    if !answers.ordered then before
    else if su.failed then su.placed
    else
      Responses(before.tokens - Elements(su.http), before.challenges - Elements(su.alpn),
                before.records + Elements(su.dns) - (Elements(su.dns) - answers.stuck))
  }

  lemma {:induction false} FailedStays(kind: Challenge, auths: seq<Authz>, i: nat, k: nat, before: Responses)
    requires i <= k <= |auths|
    requires SetUp(kind, auths, i, before).failed
    ensures SetUp(kind, auths, k, before) == SetUp(kind, auths, i, before)
    decreases k - i
  {
    if i < k {
      FailedStays(kind, auths, i, k - 1, before);
    }
  }

  // ----- what is put in place

  /** The response an offer asks for is in place: the key authorization under its token, the digest
      under its domain, the value in the domain's challenge record. */
  predicate Serves(kind: Challenge, r: Responses, domain: string, o: Offer) {
    match kind
    case Http01 => o.token in r.tokens && r.tokens[o.token] == o.keyAuthorization
    case TlsAlpn01 => domain in r.challenges && r.challenges[domain] == o.digest
    case Dns01 => Txt("_acme-challenge." + (if "*." <= domain then domain[2..] else domain), o.dnsValue) in r.records
  }

  /** The two are kept in the same place, where the later replaces the earlier. */
  predicate SamePlace(kind: Challenge, a: Authz, b: Authz) {
    && a.Pending? && a.offer.Some? && b.Pending? && b.offer.Some?
    && match kind
       case Http01 => a.offer.value.token == b.offer.value.token
       case TlsAlpn01 => a.domain == b.domain
       case Dns01 => false
  }

  lemma {:induction false} OneServes(kind: Challenge, su: Setup, a: Authz)
    requires !su.failed && Answered(kind, a)
    ensures Serves(kind, SetUpOne(kind, su, a).placed, a.domain, a.offer.value)
  {
  }

  lemma {:induction false} OneKeeps(kind: Challenge, su: Setup, a: Authz, b: Authz)
    requires a.Pending? && a.offer.Some? && Serves(kind, su.placed, a.domain, a.offer.value)
    requires su.failed || !Answered(kind, b) || !SamePlace(kind, a, b)
    ensures Serves(kind, SetUpOne(kind, su, b).placed, a.domain, a.offer.value)
  {
  }

  /** Every authorization the loop gets to answer is answered with what was offered for it, from then
      on until a later one replaces it. */
  lemma {:induction false} AnsweredServes(kind: Challenge, auths: seq<Authz>, i: nat, k: nat, before: Responses)
    requires i < k <= |auths| && Reached(kind, auths, i) && Answered(kind, auths[i])
    requires forall j :: i < j < k && Reached(kind, auths, j) && Answered(kind, auths[j]) ==> !SamePlace(kind, auths[i], auths[j])
    ensures Serves(kind, SetUp(kind, auths, k, before).placed, auths[i].domain, auths[i].offer.value)
    decreases k
  {
    hide SetUp, Serves, SamePlace, Reached, SetUpOne;
    SetUpStep(kind, auths, k, before);
    FailsIfStopped(kind, auths, k - 1, before);
    if i + 1 == k {
      OneServes(kind, SetUp(kind, auths, i, before), auths[i]);
    } else {
      AnsweredServes(kind, auths, i, k - 1, before);
      OneKeeps(kind, SetUp(kind, auths, k - 1, before), auths[i], auths[k - 1]);
    }
  }

  /** Whatever an issuance does not list for teardown it leaves as it was. */
  lemma {:induction false} OthersUntouched(kind: Challenge, answers: Answers, before: Responses)
    ensures var su := SetUp(kind, answers.auths, |answers.auths|, before);
            var left := LeftInPlace(answers, su, before);
            && left.tokens - Elements(su.http) == before.tokens - Elements(su.http)
            && left.challenges - Elements(su.alpn) == before.challenges - Elements(su.alpn)
            && left.records - Elements(su.dns) == before.records - Elements(su.dns)
  {
    hide SetUp;
    SetUpOnlyListed(kind, answers.auths, |answers.auths|, before);
  }

  // ----- what stays behind

  /** The loop returns at this authorization. */
  predicate Stops(kind: Challenge, a: Authz) {
    match a
    case FetchFailed => true
    case AlreadyValid => false
    case NotPending => true
    case Pending(_, offer, responded, ready) => offer.None? || (!kind.Http01? && !responded) || !ready
  }

  /** The loop puts a response for this authorization in place. */
  predicate Answered(kind: Challenge, a: Authz) {
    a.Pending? && a.offer.Some? && (kind.Http01? || a.responded)
  }

  /** The loop gets as far as authorization `i`. */
  predicate Reached(kind: Challenge, auths: seq<Authz>, i: nat)
    requires i <= |auths|
  {
    forall j :: 0 <= j < i ==> !Stops(kind, auths[j])
  }

  lemma {:induction false} FailsIfStopped(kind: Challenge, auths: seq<Authz>, k: nat, before: Responses)
    requires k <= |auths|
    ensures SetUp(kind, auths, k, before).failed <==> !Reached(kind, auths, k)
  {
    if k > 0 {
      FailsIfStopped(kind, auths, k - 1, before);
    }
  }

  /** Nothing is listed for teardown. */
  predicate ListsNothing(su: Setup) {
    su.http == [] && su.alpn == [] && su.dns == []
  }

  lemma {:induction false} ListsIfAnswered(kind: Challenge, auths: seq<Authz>, k: nat, before: Responses)
    requires k <= |auths|
    ensures ListsNothing(SetUp(kind, auths, k, before))
            <==> forall i :: 0 <= i < k && Reached(kind, auths, i) ==> !Answered(kind, auths[i])
  {
    if k > 0 {
      hide SetUp, Reached, Answered;
      ListsIfAnswered(kind, auths, k - 1, before);
      FailsIfStopped(kind, auths, k - 1, before);
      SetUpStep(kind, auths, k, before);
      OneLists(kind, SetUp(kind, auths, k - 1, before), auths[k - 1]);
    } else {
      assert SetUp(kind, auths, 0, before) == Setup(before, [], [], [], false);
    }
  }

  lemma {:induction false} OneLists(kind: Challenge, su: Setup, a: Authz)
    ensures ListsNothing(SetUpOne(kind, su, a)) <==> ListsNothing(su) && (su.failed || !Answered(kind, a))
  {
    hide RecordOf;
  }

  /** A record whose removal will fail is published for one of the first `k` authorizations. */
  ghost predicate Sticks(kind: Challenge, auths: seq<Authz>, k: nat, stuck: set<Txt>)
    requires k <= |auths|
  {
    exists i :: 0 <= i < k && StickyAt(kind, auths[i], stuck)
  }

  predicate StickyAt(kind: Challenge, a: Authz, stuck: set<Txt>) {
    kind.Dns01? && Answered(kind, a) && RecordOf(a.domain, a.offer.value) in stuck
  }

  lemma {:induction false} StuckIfSticks(kind: Challenge, auths: seq<Authz>, k: nat, before: Responses, stuck: set<Txt>)
    requires k <= |auths| && Reached(kind, auths, k)
    ensures Elements(SetUp(kind, auths, k, before).dns) !! stuck <==> !Sticks(kind, auths, k, stuck)
  {
    if k == 0 {
      assert SetUp(kind, auths, 0, before) == Setup(before, [], [], [], false);
    } else {
      hide SetUp, RecordOf, Elements;
      assert Reached(kind, auths, k - 1);
      StuckIfSticks(kind, auths, k - 1, before, stuck);
      FailsIfStopped(kind, auths, k - 1, before);
      SetUpStep(kind, auths, k, before);
      var su, a := SetUp(kind, auths, k - 1, before), auths[k - 1];
      OneSticks(kind, su, a, stuck);
      assert Sticks(kind, auths, k, stuck) <==> Sticks(kind, auths, k - 1, stuck) || StickyAt(kind, a, stuck);
    }
  }

  lemma {:induction false} OneSticks(kind: Challenge, su: Setup, a: Authz, stuck: set<Txt>)
    requires !su.failed
    ensures Elements(SetUpOne(kind, su, a).dns) !! stuck <==> Elements(su.dns) !! stuck && !StickyAt(kind, a, stuck)
  {
    hide RecordOf, Elements;
    if kind.Dns01? && Answered(kind, a) {
      ElementsOneMore(su.dns, RecordOf(a.domain, a.offer.value));
    }
  }

  /** Nothing the run put in place is still there. */
  ghost predicate Cleared(answers: Answers, su: Setup, before: Responses) {
    var left := LeftInPlace(answers, su, before);
    answers.ordered ==>
      && (forall t :: t in su.http ==> t !in left.tokens)
      && (forall d :: d in su.alpn ==> d !in left.challenges)
      && (forall r :: r in su.dns ==> r !in left.records)
  }

  /** What a caller could know: there is no order; or the loop runs through, and every record it
      publishes can be removed; or it returns before anything is answered. */
  ghost predicate LeavesNothing(kind: Challenge, answers: Answers) {
    var auths := answers.auths;
    || !answers.ordered
    || if Reached(kind, auths, |auths|) then !Sticks(kind, auths, |auths|, answers.stuck)
       else forall i :: 0 <= i < |auths| && Reached(kind, auths, i) ==> !Answered(kind, auths[i])
  }

  lemma {:induction false} LessNothing(m: map<string, string>)
    ensures m - {} == m
  {
  }

  lemma {:induction false} ClearedByLists(answers: Answers, su: Setup, before: Responses)
    requires OnlyListed(su, before) && answers.ordered
    ensures Cleared(answers, su, before)
            <==> if su.failed then ListsNothing(su) else Elements(su.dns) !! answers.stuck
    ensures before == NO_RESPONSES ==> (LeftInPlace(answers, su, before) == NO_RESPONSES <==> Cleared(answers, su, before))
  {
    var left := LeftInPlace(answers, su, before);
    if su.failed {
      if su.http != [] {
        assert su.http[0] in su.http;
      }
      if su.alpn != [] {
        assert su.alpn[0] in su.alpn;
      }
      if su.dns != [] {
        assert su.dns[0] in su.dns;
      }
      if ListsNothing(su) {
        assert Elements(su.http) == {} && Elements(su.alpn) == {} && Elements(su.dns) == {};
        LessNothing(left.tokens);
        LessNothing(before.tokens);
        LessNothing(left.challenges);
        LessNothing(before.challenges);
      }
    } else {
      forall r | r in su.dns
        ensures r in left.records <==> r in answers.stuck
      {
        assert r in Elements(su.dns);
      }
      if before == NO_RESPONSES {
        assert left.tokens == map[] && left.challenges == map[];
        assert left.records == Elements(su.dns) * answers.stuck;
      }
    }
  }

  /** The responses of a run are torn down if and only if `LeavesNothing`, whichever the kind of
      challenge; if there were none before the run, there are none after it under exactly that
      condition. */
  lemma {:induction false} ClearedExactly(kind: Challenge, answers: Answers, before: Responses)
    ensures var su := SetUp(kind, answers.auths, |answers.auths|, before);
            && (Cleared(answers, su, before) <==> LeavesNothing(kind, answers))
            && (before == NO_RESPONSES ==>
                  (LeftInPlace(answers, su, before) == NO_RESPONSES <==> LeavesNothing(kind, answers)))
  {
    hide SetUp, Reached, Answered, OnlyListed, Sticks;
    var auths := answers.auths;
    if answers.ordered {
      var su := SetUp(kind, auths, |auths|, before);
      SetUpOnlyListed(kind, auths, |auths|, before);
      FailsIfStopped(kind, auths, |auths|, before);
      ListsIfAnswered(kind, auths, |auths|, before);
      if Reached(kind, auths, |auths|) {
        StuckIfSticks(kind, auths, |auths|, before, answers.stuck);
      }
      hide Cleared, LeftInPlace;
      ClearedByLists(answers, su, before);
    }
  }

  /** Such an early return: one authorization answered, the next cannot be fetched. Whichever the
      kind of challenge, the first one's response stays. */
  lemma {:induction false} ResponseLeftBehind(kind: Challenge, answers: Answers, domain: string, o: Offer, before: Responses)
    requires answers.ordered
    requires answers.auths == [Pending(domain, Some(o), true, true), FetchFailed]
    ensures var su := SetUp(kind, answers.auths, 2, before);
            var left := LeftInPlace(answers, su, before);
            && !Cleared(answers, su, before)
            && match kind
               case Http01 => o.token in left.tokens
               case TlsAlpn01 => domain in left.challenges
               case Dns01 => RecordOf(domain, o) in left.records
  {
    hide SetUp, RecordOf;
    var auths := answers.auths;
    assert SetUp(kind, auths, 0, before) == Setup(before, [], [], [], false) by {
      SetUpNone(kind, auths, before);
    }
    SetUpStep(kind, auths, 1, before);
    SetUpStep(kind, auths, 2, before);
    var su := SetUp(kind, auths, 2, before);
    match kind {
      case Http01 => assert su.http == [o.token] && su.http[0] in su.http;
      case TlsAlpn01 => assert su.alpn == [domain] && su.alpn[0] in su.alpn;
      case Dns01 => assert su.dns == [RecordOf(domain, o)] && su.dns[0] in su.dns;
    }
  }

  lemma {:induction false} SetUpNone(kind: Challenge, auths: seq<Authz>, before: Responses)
    ensures SetUp(kind, auths, 0, before) == Setup(before, [], [], [], false)
  {
  }
}
