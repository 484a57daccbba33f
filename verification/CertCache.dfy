/** The served certificate and its two cache files (src/acme.rs). */
module CertCache {
  import opened Prelude

  /** An issued certificate: PEM chain and PEM private key. */
  datatype IssuedCert = IssuedCert(certPem: string, keyPem: string)

  /** How PEM texts read: the public key a chain is for, the public key of a private key, and the
      seconds of validity left to a chain at a time. */
  datatype Pki = Pki(certKey: string -> Option<nat>, publicKey: string -> Option<nat>,
                     remaining: (string, int) -> Option<nat>)

  const RENEW_BEFORE: nat := 30 * 24 * 60 * 60

  /** Whether the pair makes a certified key: both parse, and the key is the certificate's. */
  predicate Certifies(pki: Pki, c: IssuedCert) {
    pki.certKey(c.certPem).Some? && pki.certKey(c.certPem) == pki.publicKey(c.keyPem)
  }

  predicate NeedsRenewal(pki: Pki, c: IssuedCert, now: int) {
    var left := pki.remaining(c.certPem, now);
    left.None? || left.value <= RENEW_BEFORE
  }

  /** The contents of `cert.pem` and `key.pem`. */
  datatype Disk = Disk(cert: Option<string>, key: Option<string>)

  /** How a file write ends. One that fails, or is cut short by a crash, leaves something behind. */
  datatype Write = Done | Cut(left: Option<string>)

  function LoadCert(d: Disk): Option<IssuedCert> {
    if d.cert.Some? && d.key.Some? then Some(IssuedCert(d.cert.value, d.key.value)) else None
  }

  /** The certificate is written first; its key only if that succeeds. */
  function StoreCert(d: Disk, c: IssuedCert, certWrite: Write, keyWrite: Write): Disk {
    match (certWrite, keyWrite)
    case (Cut(left), _) => Disk(left, d.key)
    case (Done, Cut(left)) => Disk(Some(c.certPem), left)
    case (Done, Done) => Disk(Some(c.certPem), Some(c.keyPem))
  }

  /** What `load_cached` installs from these files. */
  function LoadCached(pki: Pki, d: Disk, now: int): Option<IssuedCert> {
    var c := LoadCert(d);
    if c.Some? && !NeedsRenewal(pki, c.value, now) && Certifies(pki, c.value) then c else None
  }

  // ----- issuance, crashes and restarts

  /** What an issuance gets to: an error before there is a certificate, or a certificate and how
      caching it goes. */
  datatype Outcome =
    | Refused
    | Obtained(cert: IssuedCert, dirMade: bool, certWrite: Write, keyWrite: Write)

  datatype System = System(cached: bool, disk: Disk, served: Option<IssuedCert>)

  function Caching(s: System, o: Outcome): Disk {
    if s.cached && o.Obtained? && o.dirMade then StoreCert(s.disk, o.cert, o.certWrite, o.keyWrite) else s.disk
  }

  predicate Succeeds(pki: Pki, s: System, o: Outcome) {
    && o.Obtained?
    && (s.cached ==> o.dirMade && o.certWrite.Done? && o.keyWrite.Done?)
    && Certifies(pki, o.cert)
  }

  datatype Action = Issue(outcome: Outcome) | Crash(outcome: Outcome) | Restart(now: int)

  /** An issuance that returns; a process that dies at some point of one; a process that starts. */
  function Next(pki: Pki, s: System, a: Action): System {
    match a
    case Issue(o) =>
      System(s.cached, Caching(s, o), if Succeeds(pki, s, o) then Some(o.cert) else s.served)
    case Crash(o) =>
      System(s.cached, Caching(s, o), None)
    case Restart(now) =>
      System(s.cached, s.disk, if s.cached then LoadCached(pki, s.disk, now) else None)
  }

  function After(pki: Pki, s: System, acts: seq<Action>, k: nat): System
    requires k <= |acts|
  {
    if k == 0 then s else Next(pki, After(pki, s, acts, k - 1), acts[k - 1])
  }

  /** Over any number of issuances, crashes and restarts, from any files, and whatever cut-short
      writes leave behind: the served certificate is served with its own key. */
  lemma {:induction false} ServedCertifies(pki: Pki, s: System, acts: seq<Action>, k: nat)
    requires k <= |acts|
    requires s.served.Some? ==> Certifies(pki, s.served.value)
    ensures var t := After(pki, s, acts, k); t.served.Some? ==> Certifies(pki, t.served.value)
  {
    if k > 0 {
      ServedCertifies(pki, s, acts, k - 1);
    }
  }

  /** The certificate this action obtains, if it does. */
  function CertOf(a: Action): Option<IssuedCert> {
    if !a.Restart? && a.outcome.Obtained? then Some(a.outcome.cert) else None
  }

  ghost predicate ObtainedBefore(acts: seq<Action>, k: nat, c: IssuedCert)
    requires k <= |acts|
  {
    exists i :: 0 <= i < k && CertOf(acts[i]) == Some(c)
  }

  /** The authority certifies the key it was asked to. */
  predicate ForItsKey(pki: Pki, c: IssuedCert) {
    pki.certKey(c.certPem).Some? ==> pki.certKey(c.certPem) == pki.publicKey(c.keyPem)
  }

  /** Two orders have different key pairs. */
  predicate OwnKey(pki: Pki, c: IssuedCert, d: IssuedCert) {
    pki.publicKey(c.keyPem).Some? ==> pki.publicKey(c.keyPem) != pki.publicKey(d.keyPem)
  }

  /** Every order makes its own key pair. */
  ghost predicate OwnKeys(pki: Pki, acts: seq<Action>) {
    && (forall i :: 0 <= i < |acts| && CertOf(acts[i]).Some? ==> ForItsKey(pki, CertOf(acts[i]).value))
    && (forall i, j :: 0 <= i < |acts| && 0 <= j < |acts| && i != j && CertOf(acts[i]).Some? && CertOf(acts[j]).Some? ==>
          OwnKey(pki, CertOf(acts[i]).value, CertOf(acts[j]).value))
  }

  /** What a write that does not finish may leave: the file as it was; of a chain, something that
      reads as nothing or, its first certificate being whole, as for the same key; of a private
      key, something that reads as nothing, or all of it. */
  predicate TornWrites(pki: Pki, d: Disk, o: Outcome) {
    o.Obtained? ==>
      && (o.certWrite.Cut? ==>
            var left := o.certWrite.left;
            || left == d.cert || left.None? || pki.certKey(left.value).None?
            || pki.certKey(left.value) == pki.certKey(o.cert.certPem))
      && (o.keyWrite.Cut? ==>
            var left := o.keyWrite.left;
            || left == d.key || left.None? || pki.publicKey(left.value).None?
            || left == Some(o.cert.keyPem))
  }

  predicate TornRun(pki: Pki, s: System, acts: seq<Action>, k: nat)
    requires k <= |acts|
  {
    forall i :: 0 <= i < k && !acts[i].Restart? ==> TornWrites(pki, After(pki, s, acts, i).disk, acts[i].outcome)
  }

  /** Action `i` obtained the certificate that `cert` is, or is a torn piece of; a torn piece never
      lies beside its own key. */
  ghost predicate CertFrom(pki: Pki, acts: seq<Action>, i: nat, cert: string, key: Option<string>)
    requires i < |acts|
  {
    && CertOf(acts[i]).Some?
    && var c := CertOf(acts[i]).value;
       && pki.certKey(cert) == pki.certKey(c.certPem)
       && (cert == c.certPem || key.None? || pki.publicKey(key.value) != pki.publicKey(c.keyPem))
  }

  ghost predicate KeyFrom(acts: seq<Action>, j: nat, key: string)
    requires j < |acts|
  {
    CertOf(acts[j]).Some? && key == CertOf(acts[j]).value.keyPem
  }

  /** Where the files come from: each reads as nothing, or stems from some issuance, not always
      from the same one. */
  ghost predicate FilesTraced(pki: Pki, acts: seq<Action>, k: nat, d: Disk)
    requires k <= |acts|
  {
    && (d.cert.Some? && pki.certKey(d.cert.value).Some? ==>
          exists i :: 0 <= i < k && CertFrom(pki, acts, i, d.cert.value, d.key))
    && (d.key.Some? && pki.publicKey(d.key.value).Some? ==> exists j :: 0 <= j < k && KeyFrom(acts, j, d.key.value))
  }

  /** A torn piece of this issuance's chain lies beside the key of another, or none. */
  lemma {:induction false} TornBesideOther(pki: Pki, acts: seq<Action>, k: nat, d: Disk, o: Outcome)
    requires k < |acts| && !acts[k].Restart? && acts[k].outcome == o && o.Obtained?
    requires OwnKeys(pki, acts) && FilesTraced(pki, acts, k, d)
    requires pki.certKey(o.cert.certPem).Some?
    ensures d.key.Some? ==> pki.publicKey(d.key.value) != pki.publicKey(o.cert.keyPem)
  {
    assert CertOf(acts[k]).Some? && ForItsKey(pki, CertOf(acts[k]).value);
    if d.key.Some? && pki.publicKey(d.key.value).Some? {
      var j :| 0 <= j < k && KeyFrom(acts, j, d.key.value);
      assert OwnKey(pki, CertOf(acts[j]).value, CertOf(acts[k]).value);
    }
  }

  lemma {:induction false} FilesStayTraced(pki: Pki, acts: seq<Action>, k: nat, d: Disk, o: Outcome)
    requires k < |acts| && !acts[k].Restart? && acts[k].outcome == o && o.Obtained?
    requires OwnKeys(pki, acts) && FilesTraced(pki, acts, k, d) && TornWrites(pki, d, o)
    ensures FilesTraced(pki, acts, k + 1, StoreCert(d, o.cert, o.certWrite, o.keyWrite))
  {
    hide OwnKeys;
    var after := StoreCert(d, o.cert, o.certWrite, o.keyWrite);
    assert KeyFrom(acts, k, o.cert.keyPem);
    if o.certWrite.Done? {
      assert CertFrom(pki, acts, k, o.cert.certPem, after.key);
    } else if after.cert != d.cert && after.cert.Some? && pki.certKey(after.cert.value).Some? {
      TornBesideOther(pki, acts, k, d, o);
      assert CertFrom(pki, acts, k, after.cert.value, after.key);
    }
  }

  /** A pair of files that certifies was issued as a pair. */
  lemma {:induction false} LoadedAsIssued(pki: Pki, acts: seq<Action>, k: nat, d: Disk, now: int)
    requires k <= |acts| && OwnKeys(pki, acts) && FilesTraced(pki, acts, k, d)
    requires LoadCached(pki, d, now).Some?
    ensures ObtainedBefore(acts, k, LoadCached(pki, d, now).value)
  {
    var i :| 0 <= i < k && CertFrom(pki, acts, i, d.cert.value, d.key);
    var j :| 0 <= j < k && KeyFrom(acts, j, d.key.value);
    assert ForItsKey(pki, CertOf(acts[i]).value);
    assert i != j ==> OwnKey(pki, CertOf(acts[i]).value, CertOf(acts[j]).value);
    assert CertOf(acts[i]) == Some(LoadCached(pki, d, now).value);
  }

  lemma {:induction false} FilesCarryOver(pki: Pki, acts: seq<Action>, k: nat, d: Disk)
    requires k < |acts| && FilesTraced(pki, acts, k, d)
    ensures FilesTraced(pki, acts, k + 1, d)
  {
  }

  lemma {:induction false} StillObtained(acts: seq<Action>, k: nat)
    requires k < |acts|
    ensures forall c :: ObtainedBefore(acts, k, c) ==> ObtainedBefore(acts, k + 1, c)
  {
  }

  lemma {:induction false} JustObtained(acts: seq<Action>, k: nat)
    requires k < |acts| && !acts[k].Restart? && acts[k].outcome.Obtained?
    ensures ObtainedBefore(acts, k + 1, acts[k].outcome.cert)
  {
    assert CertOf(acts[k]) == Some(acts[k].outcome.cert);
  }

  /** From an empty cache, with writes that tear as files do: whatever is served, at every point of
      every run, is a certificate the authority issued, whole and with the key it was issued for;
      no crash point mixes two issuances. */
  lemma {:induction false} ServedAsIssued(pki: Pki, s: System, acts: seq<Action>, k: nat)
    requires k <= |acts| && OwnKeys(pki, acts) && TornRun(pki, s, acts, k)
    requires s.served.None? && s.disk == Disk(None, None)
    ensures var t := After(pki, s, acts, k);
            && (t.served.Some? ==> ObtainedBefore(acts, k, t.served.value))
            && FilesTraced(pki, acts, k, t.disk)
  {
    hide OwnKeys, ObtainedBefore, LoadCached, StoreCert, TornWrites;
    if k > 0 {
      hide FilesTraced;
      ServedAsIssued(pki, s, acts, k - 1);
      var t, a := After(pki, s, acts, k - 1), acts[k - 1];
      StillObtained(acts, k - 1);
      FilesCarryOver(pki, acts, k - 1, t.disk);
      if a.Restart? {
        if t.cached && LoadCached(pki, t.disk, a.now).Some? {
          LoadedAsIssued(pki, acts, k - 1, t.disk, a.now);
        }
      } else if a.outcome.Obtained? {
        FilesStayTraced(pki, acts, k - 1, t.disk, a.outcome);
        JustObtained(acts, k - 1);
      }
    }
  }

  /** What a restart serves after a crash while one pair replaces another: before the first write the
      old pair, after the second the new one, and in between nothing. */
  lemma {:induction false} CrashPoints(pki: Pki, s: System, oldCert: IssuedCert, newCert: IssuedCert, certDone: bool, keyDone: bool, now: int)
    requires s.cached && s.disk == Disk(Some(oldCert.certPem), Some(oldCert.keyPem))
    requires pki.certKey(newCert.certPem) != pki.publicKey(oldCert.keyPem)
    ensures var o := Obtained(newCert, true, if certDone then Done else Cut(s.disk.cert), if keyDone then Done else Cut(s.disk.key));
            var t := Next(pki, Next(pki, s, Crash(o)), Restart(now));
            t.served
            == if !certDone then (if Certifies(pki, oldCert) && !NeedsRenewal(pki, oldCert, now) then Some(oldCert) else None)
               else if !keyDone then None
               else if Certifies(pki, newCert) && !NeedsRenewal(pki, newCert, now) then Some(newCert) else None
  {
  }

  /** What is served is served again after a crash and a restart, if the cache holds it and it is not
      near its end by then. */
  lemma {:induction false} RestartResumes(pki: Pki, s: System, now: int)
    requires s.cached && s.served.Some? && LoadCert(s.disk) == s.served && Certifies(pki, s.served.value)
    ensures var t := Next(pki, Next(pki, s, Crash(Refused)), Restart(now));
            t.served == if NeedsRenewal(pki, s.served.value, now) then None else s.served
  {
  }

  // ----- renewal

  /** Whether the renewal loop re-issues: nothing is served, or the cached certificate (not the
      served one) is missing or near its end. */
  predicate Due(pki: Pki, s: System, now: int) {
    var c := LoadCert(s.disk);
    s.served.None? || !s.cached || c.None? || NeedsRenewal(pki, c.value, now)
  }

  /** Time only takes from what a chain has left. */
  predicate Ages(pki: Pki, certPem: string, now: int, later: int) {
    pki.remaining(certPem, later).Some? ==>
      && pki.remaining(certPem, now).Some?
      && pki.remaining(certPem, later).value <= pki.remaining(certPem, now).value
  }

  /** The files a failed issuance leaves read as a certificate that is not due at `later`: the new
      one beside whatever the key write left; what a cut-short certificate write left beside the
      key that was there; or, if it wrote nothing, the pair that was there. */
  predicate Misleads(pki: Pki, s: System, o: Outcome, later: int) {
    && s.served.Some? && s.cached
    && if !o.Obtained? || !o.dirMade then
         && s.disk.cert.Some? && s.disk.key.Some?
         && !NeedsRenewal(pki, IssuedCert(s.disk.cert.value, s.disk.key.value), later)
       else if o.certWrite.Done? then
         (o.keyWrite.Done? || o.keyWrite.left.Some?) && !NeedsRenewal(pki, o.cert, later)
       else
         && o.certWrite.left.Some? && s.disk.key.Some?
         && !NeedsRenewal(pki, IssuedCert(o.certWrite.left.value, s.disk.key.value), later)
  }

  /** A renewal that failed is due again at a later check, as its log line says, if and only if the
      files do not mislead the loop, which takes them for the served certificate. This holds
      whatever a failed write leaves behind. If the renewal was due, only one that got to writing
      can mislead, as long as the cached certificate just ages. */
  lemma {:induction false} RetriedExactly(pki: Pki, s: System, o: Outcome, now: int, later: int)
    requires !Succeeds(pki, s, o)
    ensures Due(pki, Next(pki, s, Issue(o)), later) <==> !Misleads(pki, s, o, later)
    ensures Due(pki, s, now) && (s.disk.cert.Some? ==> Ages(pki, s.disk.cert.value, now, later)) ==>
      (Misleads(pki, s, o, later) ==> o.Obtained? && o.dirMade)
  {
  }

  /** This issuance succeeds, or stops before it writes anything. */
  predicate CleanIssue(pki: Pki, s: System, a: Action) {
    a.Issue? ==> Succeeds(pki, s, a.outcome) || !a.outcome.Obtained? || !a.outcome.dirMade
  }

  lemma {:induction false} AfterNone(pki: Pki, s: System, acts: seq<Action>)
    ensures After(pki, s, acts, 0) == s
  {
  }

  lemma {:induction false} AfterStep(pki: Pki, s: System, acts: seq<Action>, k: nat)
    requires 0 < k <= |acts|
    ensures After(pki, s, acts, k) == Next(pki, After(pki, s, acts, k - 1), acts[k - 1])
  {
  }

  /** Over runs: as long as every issuance that returns does so, crashes at any point allowed, the
      cache holds the served certificate in every state, so that renewal is due exactly when the
      served certificate is near its end. */
  lemma {:induction false} DueTracksServed(pki: Pki, s: System, acts: seq<Action>, k: nat, now: int)
    requires k <= |acts| && s.served.None?
    requires forall i :: 0 <= i < k ==> CleanIssue(pki, After(pki, s, acts, i), acts[i])
    ensures var t := After(pki, s, acts, k);
            t.cached && t.served.Some? ==>
              && LoadCert(t.disk) == t.served
              && (Due(pki, t, now) <==> NeedsRenewal(pki, t.served.value, now))
  {
    hide Certifies, NeedsRenewal, After;
    if k == 0 {
      AfterNone(pki, s, acts);
    } else {
      DueTracksServed(pki, s, acts, k - 1, now);
      AfterStep(pki, s, acts, k);
      assert CleanIssue(pki, After(pki, s, acts, k - 1), acts[k - 1]);
    }
  }

  const DAY: nat := 86400

  /** Such a failure: the served certificate is a day from its end and the new key file is left
      empty. For two months no renewal is due, and the served certificate expires. */
  lemma {:induction false} FailedRenewalForgotten()
    ensures exists pki: Pki, s: System, o: Outcome ::
              && s.served.Some? && Certifies(pki, s.served.value)
              && Due(pki, s, 0) && !Succeeds(pki, s, o)
              && var t := Next(pki, s, Issue(o));
                 && t.served == s.served && pki.remaining(t.served.value.certPem, 2 * DAY) == None
                 && forall later :: 0 <= later < 60 * DAY ==> !Due(pki, t, later)
  {
    var read := (pem: string) => if pem == "a" then Some(1) else if pem == "b" then Some(2) else None;
    var left := (pem: string, now: int) =>
      var end := if pem == "a" then DAY else 90 * DAY;
      if now <= end then Some(end - now) else None;
    var pki := Pki(read, read, left);
    var s := System(true, Disk(Some("a"), Some("a")), Some(IssuedCert("a", "a")));
    var o := Obtained(IssuedCert("b", "b"), true, Done, Cut(Some("")));
    ForgottenAt(pki, s, o);
  }

  lemma {:induction false} ForgottenAt(pki: Pki, s: System, o: Outcome)
    requires s == System(true, Disk(Some("a"), Some("a")), Some(IssuedCert("a", "a")))
    requires o == Obtained(IssuedCert("b", "b"), true, Done, Cut(Some("")))
    requires pki.certKey("a") == pki.publicKey("a") == Some(1)
    requires forall now :: 0 <= now ==> pki.remaining("a", now) == if now <= DAY then Some(DAY - now) else None
    requires forall now :: 0 <= now < 60 * DAY ==> pki.remaining("b", now) == Some(90 * DAY - now)
    ensures s.served.Some? && Certifies(pki, s.served.value) && Due(pki, s, 0) && !Succeeds(pki, s, o)
    ensures var t := Next(pki, s, Issue(o));
            && t.served == s.served && pki.remaining(t.served.value.certPem, 2 * DAY) == None
            && forall later :: 0 <= later < 60 * DAY ==> !Due(pki, t, later)
  {
    assert pki.remaining("a", 0) == Some(DAY);
    assert LoadCert(Next(pki, s, Issue(o)).disk) == Some(IssuedCert("b", ""));
  }
}
