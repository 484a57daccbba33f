/** Which DNS zone a challenge record belongs to (src/acme.rs). */
module Zones {
  import opened Prelude

  const CHALLENGE_PREFIX := "_acme-challenge."

  function Base(recordName: string): string {
    if CHALLENGE_PREFIX <= recordName then recordName[|CHALLENGE_PREFIX|..] else recordName
  }

  /** The record a domain's challenge is published under. */
  function DnsRecordName(domain: string): string {
    CHALLENGE_PREFIX + if "*." <= domain then domain[2..] else domain
  }

  /** The zone of a domain's record is looked up from the domain itself, and a wildcard shares the
      record of what it stands for. */
  lemma {:induction false} BaseOfRecord(domain: string)
    ensures Base(DnsRecordName("*." + domain)) == domain
    ensures !("*." <= domain) ==> DnsRecordName(domain) == DnsRecordName("*." + domain)
  {
    assert ("*." + domain)[2..] == domain;
    assert (CHALLENGE_PREFIX + domain)[|CHALLENGE_PREFIX|..] == domain;
  }

  /** The first dot at or after `i`, or the end. */
  function NextDot(s: string, i: nat): (d: nat)
    requires i <= |s|
    ensures i <= d <= |s|
    ensures forall j :: i <= j < d ==> s[j] != '.'
    ensures d < |s| ==> s[d] == '.'
    decreases |s| - i
  {
    if i == |s| || s[i] == '.' then i else NextDot(s, i + 1)
  }

  predicate IsLabel(l: string) {
    l != "" && '.' !in l
  }

  /** The non-empty pieces between the dots, from `i` on. */
  function LabelsFrom(s: string, i: nat): (ls: seq<string>)
    requires i <= |s|
    ensures forall k :: 0 <= k < |ls| ==> IsLabel(ls[k])
    decreases |s| - i
  {
    var d := NextDot(s, i);
    (if d == i then [] else [s[i..d]]) + (if d == |s| then [] else LabelsFrom(s, d + 1))
  }

  /** Labels `i` and on, joined by dots. */
  function JoinFrom(ls: seq<string>, i: nat): (s: string)
    requires i < |ls|
    decreases |ls| - i
  {
    if i + 1 == |ls| then ls[i] else ls[i] + "." + JoinFrom(ls, i + 1)
  }

  function LabelsOf(recordName: string): (ls: seq<string>)
    ensures forall k :: 0 <= k < |ls| ==> IsLabel(ls[k])
  {
    LabelsFrom(Base(recordName), 0)
  }

  /** The names to ask for, from the most specific up. */
  function ZoneCandidates(recordName: string): (cs: seq<string>) {
    var ls := LabelsOf(recordName);
    seq(|ls|, i requires 0 <= i < |ls| => JoinFrom(ls, i))
  }

  // ----- what the candidates are

  /** `c` is all of `name`, or what follows one of its dots. */
  ghost predicate IsLabelSuffix(c: string, name: string) {
    c == name || exists p: string :: name == p + "." + c
  }

  /** `name` is written without empty labels. */
  predicate WellFormedFrom(s: string, i: nat)
    requires i <= |s|
  {
    && i < |s| && s[i] != '.' && s[|s| - 1] != '.'
    && forall j :: i <= j < |s| - 1 ==> !(s[j] == '.' && s[j + 1] == '.')
  }

  /** Splitting a well-formed name and joining the labels gives the name back. */
  lemma {:induction false} JoinLabels(s: string, i: nat)
    requires i <= |s| && WellFormedFrom(s, i)
    ensures var ls := LabelsFrom(s, i); ls != [] && JoinFrom(ls, 0) == s[i..]
    decreases |s| - i
  {
    hide NextDot, JoinFrom, WellFormedFrom, LabelsFrom;
    var d := NextDot(s, i);
    WellFormedRest(s, i);
    LabelsStep(s, i);
    var l := s[i..d];
    if d == |s| {
      assert l == s[i..];
      JoinLast(l);
    } else {
      var rest := LabelsFrom(s, d + 1);
      JoinLabels(s, d + 1);
      JoinFirst(l, rest);
      assert s[i..] == l + "." + s[d + 1..];
    }
  }

  lemma {:induction false} WellFormedRest(s: string, i: nat)
    requires i <= |s| && WellFormedFrom(s, i)
    ensures var d := NextDot(s, i);
            i < d && (d < |s| ==> WellFormedFrom(s, d + 1))
  {
  }

  lemma {:induction false} LabelsStep(s: string, i: nat)
    requires i <= |s| && i < NextDot(s, i)
    ensures var d := NextDot(s, i);
            LabelsFrom(s, i) == if d == |s| then [s[i..d]] else [s[i..d]] + LabelsFrom(s, d + 1)
  {
    hide NextDot;
  }

  lemma {:induction false} JoinLast(l: string)
    ensures JoinFrom([l], 0) == l
  {
  }

  lemma {:induction false} JoinFirst(l: string, ls: seq<string>)
    requires ls != []
    ensures JoinFrom([l] + ls, 0) == l + "." + JoinFrom(ls, 0)
  {
    JoinShift(l, ls, 0);
  }

  lemma {:induction false} JoinShift(l: string, ls: seq<string>, i: nat)
    requires i < |ls|
    ensures JoinFrom([l] + ls, i + 1) == JoinFrom(ls, i)
    decreases |ls| - i
  {
    if i + 1 < |ls| {
      JoinShift(l, ls, i + 1);
    }
  }

  /** Each candidate is shorter than the one before it. */
  lemma {:induction false} CandidatesShrink(recordName: string, i: nat, j: nat)
    requires i < j < |ZoneCandidates(recordName)|
    ensures 0 < |ZoneCandidates(recordName)[j]| < |ZoneCandidates(recordName)[i]|
  {
    JoinsShrink(LabelsOf(recordName), i, j);
  }

  lemma {:induction false} JoinsShrink(ls: seq<string>, i: nat, j: nat)
    requires i < j < |ls|
    requires forall k :: 0 <= k < |ls| ==> IsLabel(ls[k])
    ensures 0 < |JoinFrom(ls, j)| < |JoinFrom(ls, i)|
    decreases j - i
  {
    if i + 1 < j {
      JoinsShrink(ls, i + 1, j);
    } else {
      assert IsLabel(ls[j]);
    }
  }

  /** The joins of label suffixes are exactly the label suffixes of the whole join. */
  lemma {:induction false} JoinIsSuffix(ls: seq<string>, i: nat, j: nat)
    requires i <= j < |ls|
    ensures IsLabelSuffix(JoinFrom(ls, j), JoinFrom(ls, i))
    decreases j - i
  {
    if i < j {
      JoinIsSuffix(ls, i + 1, j);
      var c, rest := JoinFrom(ls, j), JoinFrom(ls, i + 1);
      if rest == c {
        assert JoinFrom(ls, i) == ls[i] + "." + c;
      } else {
        var p :| rest == p + "." + c;
        assert JoinFrom(ls, i) == (ls[i] + "." + p) + "." + c;
      }
    }
  }

  lemma {:induction false} SuffixIsJoin(ls: seq<string>, i: nat, p: string, c: string) returns (j: nat)
    requires i < |ls|
    requires forall k :: 0 <= k < |ls| ==> IsLabel(ls[k])
    requires JoinFrom(ls, i) == p + "." + c
    ensures i < j < |ls| && JoinFrom(ls, j) == c
    decreases |ls| - i
  {
    var name, l := JoinFrom(ls, i), ls[i];
    assert name[|p|] == '.' && name[|p| + 1..] == c && name[..|p|] == p;
    assert IsLabel(l);
    assert forall k :: 0 <= k < |l| ==> name[k] == l[k];
    assert |l| <= |p|;
    if i + 1 == |ls| {
      assert false;
    } else {
      var rest := JoinFrom(ls, i + 1);
      assert name == l + "." + rest;
      assert name[|l| + 1..] == rest;
      if |p| == |l| {
        j := i + 1;
      } else {
        var q := p[|l| + 1..];
        assert rest == q + "." + c by {
          assert rest == name[|l| + 1..] && p == name[..|p|];
        }
        j := SuffixIsJoin(ls, i + 1, q, c);
      }
    }
  }

  /** The name of a record with its empty labels left out. */
  function NormalName(recordName: string): string {
    var ls := LabelsOf(recordName);
    if ls == [] then "" else JoinFrom(ls, 0)
  }

  /** Most names have none. */
  lemma {:induction false} NormalIsBase(recordName: string)
    requires WellFormedFrom(Base(recordName), 0)
    ensures NormalName(recordName) == Base(recordName)
  {
    hide LabelsFrom, WellFormedFrom, Base;
    var name := Base(recordName);
    JoinLabels(name, 0);
    assert name[0..] == name;
  }

  /** The candidates of a record: all the non-empty label suffixes of its name and nothing else. */
  lemma {:induction false} CandidatesAreSuffixes(recordName: string, c: string)
    ensures c in ZoneCandidates(recordName) <==> c != "" && IsLabelSuffix(c, NormalName(recordName))
  {
    hide LabelsOf;
    var ls, cs := LabelsOf(recordName), ZoneCandidates(recordName);
    if ls != [] {
      var name := NormalName(recordName);
      assert name == JoinFrom(ls, 0) == cs[0];
      assert IsLabel(ls[0]);
      if c in cs {
        var j :| 0 <= j < |cs| && cs[j] == c;
        JoinIsSuffix(ls, 0, j);
        assert IsLabel(ls[j]);
      }
      if c != name && IsLabelSuffix(c, name) {
        var p :| name == p + "." + c;
        var j := SuffixIsJoin(ls, 0, p, c);
        assert cs[j] == c;
      }
    }
  }

  // ----- asking

  datatype DnsError = LookupFailed(candidate: string) | NoZoneFound

  /** The zones of the account, by name. */
  type ZoneMap = map<string, string>

  /** Asking for each candidate in turn. A lookup for a name in `down` fails. */
  function Uncached(zones: ZoneMap, down: set<string>, cs: seq<string>, i: nat): Result<string, DnsError>
    requires i <= |cs|
    decreases |cs| - i
  {
    if i == |cs| then Err(NoZoneFound)
    else if cs[i] in down then Err(LookupFailed(cs[i]))
    else if cs[i] in zones then Ok(zones[cs[i]])
    else Uncached(zones, down, cs, i + 1)
  }

  /** The same with a cache in front of each lookup; a zone found is added to it. */
  function Cached(zones: ZoneMap, down: set<string>, cache: ZoneMap, cs: seq<string>, i: nat)
    : (Result<string, DnsError>, ZoneMap)
    requires i <= |cs|
    decreases |cs| - i
  {
    if i == |cs| then (Err(NoZoneFound), cache)
    else if cs[i] in cache then (Ok(cache[cs[i]]), cache)
    else if cs[i] in down then (Err(LookupFailed(cs[i])), cache)
    else if cs[i] in zones then (Ok(zones[cs[i]]), cache[cs[i] := zones[cs[i]]])
    else Cached(zones, down, cache, cs, i + 1)
  }

  /** What the cache holds is so. */
  predicate Sound(cache: ZoneMap, zones: ZoneMap) {
    forall c :: c in cache ==> c in zones && cache[c] == zones[c]
  }

  /** A lookup keeps the cache sound; if the uncached one answers, it gives that answer; and it
      fails only with the failure the uncached one fails with. */
  lemma {:induction false} CachedAgrees(zones: ZoneMap, down: set<string>, cache: ZoneMap, cs: seq<string>, i: nat)
    requires i <= |cs| && Sound(cache, zones)
    ensures var (r, after) := Cached(zones, down, cache, cs, i);
            && Sound(after, zones)
            && (Uncached(zones, down, cs, i).Ok? || r.Err? ==> r == Uncached(zones, down, cs, i))
    decreases |cs| - i
  {
    if i < |cs| {
      CachedAgrees(zones, down, cache, cs, i + 1);
    }
  }

  /** Whatever the cache and whichever lookups fail: an answer is the zone of the first candidate
      that is one, and no zone is found only if no candidate is one. */
  lemma {:induction false} CachedIsFirst(zones: ZoneMap, down: set<string>, cache: ZoneMap, cs: seq<string>, i: nat)
    requires i <= |cs| && Sound(cache, zones)
    ensures var r := Cached(zones, down, cache, cs, i).0;
            && (r.Ok? ==> exists j ::
                  && i <= j < |cs| && cs[j] in zones && r.value == zones[cs[j]]
                  && forall k :: i <= k < j ==> cs[k] !in zones)
            && (r == Err(NoZoneFound) ==> forall k :: i <= k < |cs| ==> cs[k] !in zones)
            && (r.Err? && r.error.LookupFailed? ==> exists j ::
                  && i <= j < |cs| && cs[j] in down && r.error.candidate == cs[j]
                  && forall k :: i <= k < j ==> cs[k] !in zones)
    decreases |cs| - i
  {
    if i < |cs| {
      if cs[i] !in cache && cs[i] !in down && cs[i] !in zones {
        CachedIsFirst(zones, down, cache, cs, i + 1);
      }
    }
  }

  /** `c` is the longest of the non-empty label suffixes of `name` that are zones. */
  ghost predicate IsZoneOf(zones: ZoneMap, name: string, c: string) {
    && c in zones && c != "" && IsLabelSuffix(c, name)
    && forall d :: d in zones && IsLabelSuffix(d, name) ==> |d| <= |c|
  }

  /** The resolver finds the zone of the longest label suffix that is one, whatever it has cached
      and whichever lookups fail; and says there is none only when there is none. */
  lemma {:induction false} ResolvesLongest(zones: ZoneMap, down: set<string>, cache: ZoneMap, recordName: string)
    requires Sound(cache, zones)
    ensures var r := Cached(zones, down, cache, ZoneCandidates(recordName), 0).0;
            && (r.Ok? ==> exists c :: IsZoneOf(zones, NormalName(recordName), c) && r.value == zones[c])
            && (r == Err(NoZoneFound) ==> forall c :: c in zones && c != "" ==> !IsLabelSuffix(c, NormalName(recordName)))
            && (r.Err? && r.error.LookupFailed? ==>
                  var c := r.error.candidate;
                  && c in down && c != "" && IsLabelSuffix(c, NormalName(recordName))
                  && forall d :: d in zones && IsLabelSuffix(d, NormalName(recordName)) ==> |d| <= |c|)
  {
    hide NormalName, ZoneCandidates, Cached, IsLabelSuffix;
    var name, cs := NormalName(recordName), ZoneCandidates(recordName);
    var r := Cached(zones, down, cache, cs, 0).0;
    CachedIsFirst(zones, down, cache, cs, 0);
    forall c
      ensures c in cs <==> c != "" && IsLabelSuffix(c, name)
    {
      CandidatesAreSuffixes(recordName, c);
    }
    if r.Ok? {
      var j :| 0 <= j < |cs| && cs[j] in zones && r.value == zones[cs[j]] && forall k :: 0 <= k < j ==> cs[k] !in zones;
      assert cs[j] in cs;
      forall d | d != "" && d in zones && IsLabelSuffix(d, name)
        ensures |d| <= |cs[j]|
      {
        var k :| 0 <= k < |cs| && cs[k] == d;
        if j < k {
          CandidatesShrink(recordName, j, k);
        }
      }
      assert IsZoneOf(zones, name, cs[j]);
    } else if r.error.LookupFailed? {
      var j :| 0 <= j < |cs| && cs[j] in down && r.error.candidate == cs[j] && forall k :: 0 <= k < j ==> cs[k] !in zones;
      assert cs[j] in cs;
      forall d | d != "" && d in zones && IsLabelSuffix(d, name)
        ensures |d| <= |cs[j]|
      {
        var k :| 0 <= k < |cs| && cs[k] == d;
        if j < k {
          CandidatesShrink(recordName, j, k);
        }
      }
    }
  }

  lemma {:induction false} SuffixOfLength(name: string, c: string, d: string)
    requires IsLabelSuffix(c, name) && IsLabelSuffix(d, name) && |c| == |d|
    ensures c == d
  {
    assert c == name[|name| - |c|..] && d == name[|name| - |d|..];
  }

  /** The zone of a name is found unless a lookup for a suffix at least as long fails. */
  lemma {:induction false} ZoneIsFound(zones: ZoneMap, down: set<string>, cache: ZoneMap, recordName: string, c: string)
    requires Sound(cache, zones) && IsZoneOf(zones, NormalName(recordName), c)
    requires forall d :: d in down && IsLabelSuffix(d, NormalName(recordName)) ==> |d| < |c|
    ensures Cached(zones, down, cache, ZoneCandidates(recordName), 0).0 == Ok(zones[c])
  {
    hide NormalName, ZoneCandidates, Cached, IsLabelSuffix;
    ResolvesLongest(zones, down, cache, recordName);
    var r := Cached(zones, down, cache, ZoneCandidates(recordName), 0).0;
    if r.Ok? {
      var e :| IsZoneOf(zones, NormalName(recordName), e) && r.value == zones[e];
      SuffixOfLength(NormalName(recordName), c, e);
    }
  }

  /** And once found it is remembered: the same record is then answered without asking for its zone
      again, failing only if a lookup for a longer suffix does. */
  lemma {:induction false} FoundIsRemembered(zones: ZoneMap, down: set<string>, cache: ZoneMap, cs: seq<string>, i: nat, j: nat, down': set<string>)
    requires i <= j < |cs| && Sound(cache, zones) && cs[j] in zones
    requires forall k :: i <= k < j ==> cs[k] !in zones && cs[k] !in down'
    requires Cached(zones, down, cache, cs, i).0.Ok?
    ensures var after := Cached(zones, down, cache, cs, i).1;
            cs[j] in after && Cached(zones, down', after, cs, i).0 == Ok(zones[cs[j]])
    decreases j - i
  {
    if i < j {
      assert cs[i] !in cache;
      FoundIsRemembered(zones, down, cache, cs, i + 1, j, down');
      var after := Cached(zones, down, cache, cs, i).1;
      CachedAgrees(zones, down, cache, cs, i);
      assert cs[i] !in after;
    }
  }

  /** In terms of domains: the record of a domain without empty labels, wildcard or not, goes to the
      zone of the longest label suffix of that domain that is one. */
  lemma {:induction false} DomainResolves(zones: ZoneMap, down: set<string>, cache: ZoneMap, domain: string)
    requires Sound(cache, zones) && WellFormedFrom(domain, 0)
    ensures var r := Cached(zones, down, cache, ZoneCandidates(DnsRecordName("*." + domain)), 0).0;
            && (r.Ok? ==> exists c :: IsZoneOf(zones, domain, c) && r.value == zones[c])
            && (r == Err(NoZoneFound) ==> forall c :: c in zones && c != "" ==> !IsLabelSuffix(c, domain))
  {
    hide WellFormedFrom, NormalName, ZoneCandidates, Cached, IsLabelSuffix, DnsRecordName, Base, IsZoneOf;
    var record := DnsRecordName("*." + domain);
    BaseOfRecord(domain);
    NormalIsBase(record);
    ResolvesLongest(zones, down, cache, record);
  }

  /** One lookup of a run: the record, and the names whose lookups fail while it runs. */
  datatype Query = Query(recordName: string, down: set<string>)

  /** The cache after the first `k` lookups of a run. */
  function CacheAfter(zones: ZoneMap, qs: seq<Query>, k: nat): ZoneMap
    requires k <= |qs|
  {
    if k == 0 then map[]
    else Cached(zones, qs[k - 1].down, CacheAfter(zones, qs, k - 1), ZoneCandidates(qs[k - 1].recordName), 0).1
  }

  /** In every run against fixed zones, the answer to any lookup is that of a resolver without a
      cache, except that a lookup already answered may no longer fail. */
  lemma {:induction false} RunAgrees(zones: ZoneMap, qs: seq<Query>, k: nat)
    requires k < |qs|
    ensures Sound(CacheAfter(zones, qs, k), zones)
    ensures var cs := ZoneCandidates(qs[k].recordName);
            var cached := Cached(zones, qs[k].down, CacheAfter(zones, qs, k), cs, 0).0;
            && (cached.Err? ==> cached == Uncached(zones, qs[k].down, cs, 0))
            && (cached.Ok? ==> cached == Uncached(zones, {}, cs, 0))
            && (qs[k].down == {} ==> cached == Uncached(zones, {}, cs, 0))
  {
    hide Cached, Uncached, ZoneCandidates, Sound;
    RunKeepsSound(zones, qs, k);
    var cache, cs := CacheAfter(zones, qs, k), ZoneCandidates(qs[k].recordName);
    CachedAgrees(zones, qs[k].down, cache, cs, 0);
    AnswerIgnoresFailures(zones, qs[k].down, cache, cs, 0);
  }

  lemma {:induction false} RunKeepsSound(zones: ZoneMap, qs: seq<Query>, k: nat)
    requires k <= |qs|
    ensures Sound(CacheAfter(zones, qs, k), zones)
  {
    hide Cached, Uncached, ZoneCandidates;
    if k > 0 {
      RunKeepsSound(zones, qs, k - 1);
      var q := qs[k - 1];
      CachedAgrees(zones, q.down, CacheAfter(zones, qs, k - 1), ZoneCandidates(q.recordName), 0);
    }
  }

  /** An answer does not depend on which lookups fail. */
  lemma {:induction false} AnswerIgnoresFailures(zones: ZoneMap, down: set<string>, cache: ZoneMap, cs: seq<string>, i: nat)
    requires i <= |cs| && Sound(cache, zones)
    ensures var r := Cached(zones, down, cache, cs, i).0;
            r.Ok? || down == {} ==> r == Uncached(zones, {}, cs, i)
    decreases |cs| - i
  {
    if i < |cs| {
      AnswerIgnoresFailures(zones, down, cache, cs, i + 1);
    }
  }

  class CloudflareDnsProvider {
    const zoneId: Option<string>
    var zoneCache: ZoneMap

    constructor (zoneId: Option<string>)
      ensures this.zoneId == zoneId && zoneCache == map[]
    {
      this.zoneId := zoneId;
      zoneCache := map[];
    }

    /** A configured zone id answers everything; otherwise the cached lookup does. */
    method ResolveZoneId(recordName: string, zones: ZoneMap, down: set<string>) returns (r: Result<string, DnsError>)
      modifies this
      ensures zoneId.Some? ==> r == Ok(zoneId.value) && zoneCache == old(zoneCache)
      ensures zoneId.None? ==>
        (r, zoneCache) == Cached(zones, down, old(zoneCache), ZoneCandidates(recordName), 0)
      ensures old(Sound(zoneCache, zones)) ==> Sound(zoneCache, zones)
    {
      hide ZoneCandidates;
      if zoneId.Some? {
        return Ok(zoneId.value);
      }
      var cs := ZoneCandidates(recordName);
      for i := 0 to |cs|
        invariant zoneCache == old(zoneCache)
        invariant Cached(zones, down, old(zoneCache), cs, 0) == Cached(zones, down, old(zoneCache), cs, i)
      {
        if cs[i] in zoneCache {
          return Ok(zoneCache[cs[i]]);
        }
        if cs[i] in down {
          return Err(LookupFailed(cs[i]));
        }
        if cs[i] in zones {
          zoneCache := zoneCache[cs[i] := zones[cs[i]]];
          return Ok(zones[cs[i]]);
        }
      }
      return Err(NoZoneFound);
    }
  }
}
