/** What the route table promises across routes: independence of input order, and the precedence
    of discovered routes over file routes (src/config.rs). */
module RouteLaws {
  import opened Prelude
  import opened Routes

  /** The answer of the table built from `routes`. */
  function Lookup(routes: seq<Route>, host: string, path: string): Option<Route> {
    Select(NewTable(routes), host, path)
  }

  lemma {:induction false} LookupIsBest(routes: seq<Route>, host: string, path: string)
    ensures Lookup(routes, host, path).None? <==> forall j :: 0 <= j < |routes| ==> !Matches(routes[j], host, path)
    ensures forall b :: 0 <= b < |routes| && IsBest(routes, host, path, b) ==> Lookup(routes, host, path) == Some(routes[b])
    ensures Lookup(routes, host, path).Some? ==>
      exists b: nat :: IsBest(routes, host, path, b) && Lookup(routes, host, path) == Some(routes[b])
  {
    hide Matches, NewTable, SortOrder, StablySorted, IsBest, Select;
    NewTableSorts(routes);
    SelectIsBest(routes, NewTable(routes), SortOrder(routes, |routes|), host, path);
  }

  // ----- independence of input order

  /** Two routes the table can only tell apart by their input order: of equal specificity, for
      the same host, and with prefixes one of which lies under the other once the trailing
      slashes, which do count for specificity, are dropped for matching. */
  predicate Clash(a: Route, b: Route) {
    && Specificity(a) == Specificity(b)
    && EqIgnoreCase(a.host, b.host)
    && (|| PathPrefixMatches(a.pathPrefix, TrimSlashes(b.pathPrefix))
        || PathPrefixMatches(b.pathPrefix, TrimSlashes(a.pathPrefix)))
  }

  /** Two routes of equal specificity clash if and only if some request matches both. */
  lemma {:induction false} ClashMeansBothMatch(a: Route, b: Route, host: string, path: string)
    requires Specificity(a) == Specificity(b)
    requires Matches(a, host, path) && Matches(b, host, path)
    ensures Clash(a, b)
  {
    UnderOneAnother(a.pathPrefix, b.pathPrefix, path);
    if a.host != "" {
      SameHost(a.host, b.host, host);
    }
  }

  lemma {:induction false} SameHost(a: string, b: string, host: string)
    requires EqIgnoreCase(host, a) && EqIgnoreCase(host, b)
    ensures EqIgnoreCase(a, b)
  {
    forall i | 0 <= i < |a|
      ensures LowerChar(a[i]) == LowerChar(b[i])
    {
      assert LowerChar(host[i]) == LowerChar(a[i]);
    }
  }

  lemma {:induction false} UnderOneAnother(p: string, q: string, path: string)
    requires PathPrefixMatches(p, path) && PathPrefixMatches(q, path)
    ensures PathPrefixMatches(p, TrimSlashes(q)) || PathPrefixMatches(q, TrimSlashes(p))
  {
    var s, t := TrimSlashes(p), TrimSlashes(q);
    if s != "" && t != "" {
      if |s| <= |t| {
        assert s == path[..|s|] == t[..|s|];
      } else {
        assert t == path[..|t|] == s[..|t|];
      }
    }
  }

  /** A request that both of two clashing routes match. */
  function CommonPath(a: Route, b: Route): string {
    if PathPrefixMatches(a.pathPrefix, TrimSlashes(b.pathPrefix)) then TrimSlashes(b.pathPrefix)
    else TrimSlashes(a.pathPrefix)
  }

  lemma {:induction false} ClashingBothMatch(a: Route, b: Route)
    requires Clash(a, b)
    ensures Matches(a, a.host, CommonPath(a, b)) && Matches(b, a.host, CommonPath(a, b))
  {
    MatchesOwnPrefix(a.pathPrefix);
    MatchesOwnPrefix(b.pathPrefix);
  }

  lemma {:induction false} MatchesOwnPrefix(p: string)
    ensures PathPrefixMatches(p, TrimSlashes(p))
  {
  }

  /** No two positions hold clashing routes, unless they hold the same route. */
  predicate NoClash(routes: seq<Route>) {
    forall i, j :: 0 <= i < |routes| && 0 <= j < |routes| && Clash(routes[i], routes[j]) ==> routes[i] == routes[j]
  }

  lemma {:induction false} BestAgainst(routes: seq<Route>, host: string, path: string, b: nat, r: Route)
    requires IsBest(routes, host, path, b)
    requires r in routes && Matches(r, host, path)
    ensures AtLeast(Specificity(routes[b]), Specificity(r))
  {
    hide Matches, Specificity;
    var j :| 0 <= j < |routes| && routes[j] == r;
  }

  /** The answer to every request is the same for every order of the routes. */
  ghost predicate OrderFree(routes: seq<Route>) {
    forall routes', host, path :: multiset(routes') == multiset(routes) ==>
      Lookup(routes', host, path) == Lookup(routes, host, path)
  }

  /** `c` hides the clash of `a` and `b`: it is more specific, and matches the request that is
      theirs in common. */
  predicate Covers(c: Route, a: Route, b: Route) {
    && Above(Specificity(c), Specificity(a))
    && (c.host == "" || EqIgnoreCase(a.host, c.host))
    && PathPrefixMatches(c.pathPrefix, CommonPath(a, b))
  }

  ghost predicate Covered(routes: seq<Route>, a: Route, b: Route) {
    exists c :: c in routes && Covers(c, a, b)
  }

  ghost predicate ClashesCovered(routes: seq<Route>) {
    forall a, b :: a in routes && b in routes && a != b && Clash(a, b) ==> Covered(routes, a, b)
  }

  /** The order of the routes never shows if and only if every clash of two different routes is
      hidden by a more specific third. */
  lemma {:induction false} OrderFreeExactly(routes: seq<Route>)
    ensures OrderFree(routes) <==> ClashesCovered(routes)
  {
    hide Lookup, Clash, Covered;
    if ClashesCovered(routes) {
      forall routes', host, path | multiset(routes') == multiset(routes)
        ensures Lookup(routes', host, path) == Lookup(routes, host, path)
      {
        CoveredSameAnswer(routes, routes', host, path);
      }
    }
    if OrderFree(routes) {
      forall a, b | a in routes && b in routes && a != b && Clash(a, b)
        ensures Covered(routes, a, b)
      {
        OrderFreeCovers(routes, a, b);
      }
    }
  }

  // A covering route matches wherever both clashing routes match.

  lemma {:induction false} UnderUnder(p: string, q: string, path: string)
    requires PathPrefixMatches(p, TrimSlashes(q)) && PathPrefixMatches(q, path)
    ensures PathPrefixMatches(p, path)
  {
    var s, t := TrimSlashes(p), TrimSlashes(q);
    if s != "" {
      assert s <= t <= path;
      if |s| < |t| {
        assert path[|s|] == t[|s|];
      }
    }
  }

  lemma {:induction false} CoverMatches(c: Route, a: Route, b: Route, host: string, path: string)
    requires Covers(c, a, b)
    requires Matches(a, host, path) && Matches(b, host, path)
    ensures Matches(c, host, path)
  {
    if c.host != "" {
      assert a.host != "";
      MatchesCase(a.host, c.host, host);
    }
    if PathPrefixMatches(a.pathPrefix, TrimSlashes(b.pathPrefix)) {
      UnderUnder(c.pathPrefix, b.pathPrefix, path);
    } else {
      UnderUnder(c.pathPrefix, a.pathPrefix, path);
    }
  }

  lemma {:induction false} NotAboveBest(a: Key, b: Key)
    ensures AtLeast(a, b) ==> !Above(b, a)
  {
  }

  lemma {:induction false} CoveredSameAnswer(routes: seq<Route>, routes': seq<Route>, host: string, path: string)
    requires multiset(routes) == multiset(routes')
    requires ClashesCovered(routes)
    ensures Lookup(routes', host, path) == Lookup(routes, host, path)
  {
    hide Matches, Lookup, Specificity, Clash, Covers, Above, AtLeast;
    SameMembers(routes, routes');
    LookupIsBest(routes, host, path);
    LookupIsBest(routes', host, path);
    if Lookup(routes', host, path).Some? {
      AnswerTravels(routes', routes, host, path);
    }
    if Lookup(routes, host, path).Some? {
      AnswerTravels(routes, routes', host, path);
      var b: nat :| IsBest(routes, host, path, b) && Lookup(routes, host, path) == Some(routes[b]);
      var c: nat :| IsBest(routes', host, path, c) && Lookup(routes', host, path) == Some(routes'[c]);
      var x, y := routes[b], routes'[c];
      BestAgainst(routes, host, path, b, y);
      BestAgainst(routes', host, path, c, x);
      AtLeastBothWays(Specificity(x), Specificity(y));
      ClashMeansBothMatch(x, y, host, path);
      if x != y {
        assert Covered(routes, x, y);
        var r :| r in routes && Covers(r, x, y);
        CoverMatches(r, x, y, host, path);
        BestAgainst(routes, host, path, b, r);
        CoverIsAbove(r, x, y);
        NotAboveBest(Specificity(x), Specificity(r));
      }
    }
  }

  lemma {:induction false} CoverIsAbove(c: Route, a: Route, b: Route)
    requires Covers(c, a, b)
    ensures Above(Specificity(c), Specificity(a))
  {
  }

  lemma {:induction false} AtLeastBothWays(a: Key, b: Key)
    requires AtLeast(a, b) && AtLeast(b, a)
    ensures a == b
  {
  }

  // A clash that nothing covers shows when one or the other route comes first.

  /** More than the length of every host. */
  function BeyondHosts(routes: seq<Route>): (n: nat)
    ensures forall r :: r in routes ==> |r.host| < n
  {
    if routes == [] then 1
    else
      var n, r := BeyondHosts(routes[1..]), routes[0];
      if |r.host| < n then n else |r.host| + 1
  }

  /** A host that, of the routes, those for `a`'s host match, and those for any host. */
  function AskedHost(routes: seq<Route>, a: Route): string {
    if a.host != "" then a.host else seq(BeyondHosts(routes), _ => 'x')
  }

  lemma {:induction false} AskedHostMatches(routes: seq<Route>, a: Route, b: Route, r: Route)
    requires Clash(a, b) && r in routes
    ensures Matches(a, AskedHost(routes, a), CommonPath(a, b)) && Matches(b, AskedHost(routes, a), CommonPath(a, b))
    ensures Matches(r, AskedHost(routes, a), CommonPath(a, b)) && Above(Specificity(r), Specificity(a)) ==> Covers(r, a, b)
  {
    hide Above;
    ClashingBothMatch(a, b);
  }

  function ToFront(routes: seq<Route>, i: nat): seq<Route>
    requires i < |routes|
  {
    [routes[i]] + routes[..i] + routes[i + 1..]
  }

  lemma {:induction false} ToFrontSame(routes: seq<Route>, i: nat)
    requires i < |routes|
    ensures multiset(ToFront(routes, i)) == multiset(routes)
  {
    assert routes == routes[..i] + [routes[i]] + routes[i + 1..];
  }

  /** A matching route that comes first and that no matching route is above is the answer. */
  lemma {:induction false} FrontWins(routes: seq<Route>, i: nat, host: string, path: string)
    requires i < |routes| && Matches(routes[i], host, path)
    requires forall r :: r in routes && Matches(r, host, path) ==> !Above(Specificity(r), Specificity(routes[i]))
    ensures Lookup(ToFront(routes, i), host, path) == Some(routes[i])
  {
    hide Matches, Lookup, Specificity, Above, ToFront;
    var front := ToFront(routes, i);
    ToFrontSame(routes, i);
    SameMembers(front, routes);
    LookupIsBest(front, host, path);
    assert front[0] == routes[i] by {
      FrontIsFirst(routes, i);
    }
    forall j | 0 <= j < |front| && j != 0 && Matches(front[j], host, path)
      ensures Before(front, 0, j)
    {
      assert front[j] in front;
      KeysCompare(Specificity(front[0]), Specificity(front[j]));
    }
    assert IsBest(front, host, path, 0);
  }

  lemma {:induction false} FrontIsFirst(routes: seq<Route>, i: nat)
    requires i < |routes|
    ensures |ToFront(routes, i)| > 0 && ToFront(routes, i)[0] == routes[i]
  {
  }

  lemma {:induction false} OrderFreeCovers(routes: seq<Route>, a: Route, b: Route)
    requires OrderFree(routes)
    requires a in routes && b in routes && a != b && Clash(a, b)
    ensures Covered(routes, a, b)
  {
    hide Matches, Lookup, Specificity, Above, Covers, ToFront, CommonPath, AskedHost;
    if !Covered(routes, a, b) {
      var host, path := AskedHost(routes, a), CommonPath(a, b);
      forall r | r in routes
        ensures Matches(r, host, path) ==> !Above(Specificity(r), Specificity(a))
      {
        AskedHostMatches(routes, a, b, r);
      }
      AskedHostMatches(routes, a, b, a);
      var i :| 0 <= i < |routes| && routes[i] == a;
      var j :| 0 <= j < |routes| && routes[j] == b;
      FrontWins(routes, i, host, path);
      FrontWins(routes, j, host, path);
      ToFrontSame(routes, i);
      ToFrontSame(routes, j);
    }
  }

  /** In particular, without clashes the order does not show. */
  lemma {:induction false} OrderIndependent(routes: seq<Route>, routes': seq<Route>, host: string, path: string)
    requires multiset(routes) == multiset(routes')
    requires NoClash(routes)
    ensures Lookup(routes, host, path) == Lookup(routes', host, path)
  {
    hide Lookup, Clash;
    forall a, b | a in routes && b in routes && Clash(a, b)
      ensures a == b
    {
      var i :| 0 <= i < |routes| && routes[i] == a;
      var j :| 0 <= j < |routes| && routes[j] == b;
    }
    CoveredSameAnswer(routes, routes', host, path);
  }

  lemma {:induction false} AnswerTravels(routes: seq<Route>, routes': seq<Route>, host: string, path: string)
    requires multiset(routes) == multiset(routes')
    requires Lookup(routes, host, path).Some?
    ensures Lookup(routes', host, path).Some?
  {
    hide Matches, Lookup;
    SameMembers(routes, routes');
    LookupIsBest(routes, host, path);
    LookupIsBest(routes', host, path);
    var b: nat :| IsBest(routes, host, path, b);
    assert routes[b] in routes';
    var j :| 0 <= j < |routes'| && routes'[j] == routes[b];
  }

  lemma {:induction false} SameMembers(a: seq<Route>, b: seq<Route>)
    requires multiset(a) == multiset(b)
    ensures forall r :: r in a <==> r in b
  {
    forall r
      ensures r in a <==> r in b
    {
      assert r in a <==> r in multiset(a);
      assert r in b <==> r in multiset(b);
    }
  }

  /** For two routes nothing can hide a clash: both orders give every request the same answer
      if and only if the routes are equal or do not clash. */
  lemma {:induction false} PairOrderExactly(a: Route, b: Route)
    ensures (forall host, path :: Lookup([a, b], host, path) == Lookup([b, a], host, path))
            <==> a == b || !Clash(a, b)
  {
    hide Lookup, Clash;
    OrderFreeExactly([a, b]);
    PairOrderFree(a, b);
    ClashSymmetric(a, b);
    PairNotCovered(a, b);
    PairNotCovered(b, a);
    assert a in [a, b] && b in [a, b];
  }

  lemma {:induction false} PairOrderFree(a: Route, b: Route)
    ensures OrderFree([a, b]) <==> forall host, path :: Lookup([a, b], host, path) == Lookup([b, a], host, path)
  {
    hide Lookup;
    assert multiset([b, a]) == multiset([a, b]);
    if forall host, path :: Lookup([a, b], host, path) == Lookup([b, a], host, path) {
      forall routes', host, path | multiset(routes') == multiset([a, b])
        ensures Lookup(routes', host, path) == Lookup([a, b], host, path)
      {
        PairOrders(routes', a, b);
      }
    }
  }

  lemma {:induction false} PairOrders(routes': seq<Route>, a: Route, b: Route)
    requires multiset(routes') == multiset([a, b])
    ensures routes' == [a, b] || routes' == [b, a]
  {
    assert |routes'| == |multiset(routes')| == |multiset([a, b])| == 2;
    var x, y := routes'[0], routes'[1];
    assert routes' == [x, y];
    assert x in multiset(routes') && y in multiset(routes');
    assert multiset{x, y} - multiset{x} == multiset{a, b} - multiset{x};
  }

  lemma {:induction false} PairNotCovered(a: Route, b: Route)
    ensures Clash(a, b) ==> !Covered([a, b], a, b) && !Covered([b, a], a, b)
  {
  }

  lemma {:induction false} ClashSymmetric(a: Route, b: Route)
    ensures Clash(a, b) <==> Clash(b, a)
  {
  }

  /** The plain condition: no prefix ends in a slash, and no two positions share host, prefix
      and source rank. It rules out every clash, so the order does not show. */
  predicate SameRule(a: Route, b: Route) {
    EqIgnoreCase(a.host, b.host) && a.pathPrefix == b.pathPrefix && RouteRank(a.source) == RouteRank(b.source)
  }

  predicate EndsInSlash(p: string) {
    p != "" && p[|p| - 1] == '/'
  }

  lemma {:induction false} PlainRulesDoNotClash(routes: seq<Route>)
    requires forall i :: 0 <= i < |routes| ==> !EndsInSlash(routes[i].pathPrefix)
    requires forall i, j :: 0 <= i < j < |routes| ==> !SameRule(routes[i], routes[j])
    ensures NoClash(routes) && OrderFree(routes)
  {
    hide Lookup;
    forall i, j | 0 <= i < |routes| && 0 <= j < |routes| && Clash(routes[i], routes[j])
      ensures routes[i] == routes[j]
    {
      UntrimmedClash(routes[i], routes[j]);
      UntrimmedClash(routes[j], routes[i]);
    }
    forall routes', host, path | multiset(routes') == multiset(routes)
      ensures Lookup(routes', host, path) == Lookup(routes, host, path)
    {
      OrderIndependent(routes, routes', host, path);
    }
  }

  lemma {:induction false} UntrimmedClash(a: Route, b: Route)
    requires Clash(a, b) || Clash(b, a)
    requires !EndsInSlash(a.pathPrefix) && !EndsInSlash(b.pathPrefix)
    ensures SameRule(a, b)
  {
  }

  /** Why the slash condition is there: any two routes for the same host and of the same rank
      with these different prefixes clash, so their input order shows. */
  lemma {:induction false} TrailingSlashesClash(a: Route, b: Route)
    requires a.pathPrefix == "/a//" && b.pathPrefix == "/a/b"
    requires a.host == b.host && a.source == b.source
    ensures Clash(a, b)
    ensures exists host, path :: Lookup([a, b], host, path) != Lookup([b, a], host, path)
  {
    hide Lookup;
    assert "/a/"[..2] == "/a" && "/a//"[..3] == "/a/";
    assert TrimSlashes("/a") == "/a";
    assert TrimSlashes("/a/") == "/a";
    assert TrimSlashes("/a//") == "/a";
    assert TrimSlashes("/a/b") == "/a/b";
    PairOrderExactly(a, b);
  }

  // ----- precedence

  /** A request that some route matches gets a route at least as specific. */
  lemma {:induction false} MatchedGetsAsSpecific(routes: seq<Route>, host: string, path: string, i: nat)
    requires i < |routes| && Matches(routes[i], host, path)
    ensures Lookup(routes, host, path).Some?
    ensures AtLeast(Specificity(Lookup(routes, host, path).value), Specificity(routes[i]))
  {
    hide Matches, Lookup, Specificity;
    LookupIsBest(routes, host, path);
    var b: nat :| IsBest(routes, host, path, b) && Lookup(routes, host, path) == Some(routes[b]);
    BestAgainst(routes, host, path, b, routes[i]);
  }

  /** A file route that shares host and prefix with a discovered one is never selected. */
  lemma {:induction false} OverriddenNeverSelected(routes: seq<Route>, host: string, path: string, i: nat, j: nat)
    requires i < |routes| && j < |routes|
    requires routes[i].source in {File, Default} && routes[j].source in {Discovered, Env, Cli}
    requires EqIgnoreCase(routes[i].host, routes[j].host) && routes[i].pathPrefix == routes[j].pathPrefix
    ensures Lookup(routes, host, path) != Some(routes[i])
  {
    if Lookup(routes, host, path) == Some(routes[i]) {
      LookupIsBest(routes, host, path);
      var b: nat :| IsBest(routes, host, path, b) && Lookup(routes, host, path) == Some(routes[b]);
      if routes[i].host != "" {
        MatchesCase(routes[i].host, routes[j].host, host);
      }
      BestAgainst(routes, host, path, b, routes[j]);
    }
  }

  lemma {:induction false} MatchesCase(a: string, b: string, host: string)
    requires EqIgnoreCase(a, b) && EqIgnoreCase(host, a)
    ensures EqIgnoreCase(host, b)
  {
    forall i | 0 <= i < |b|
      ensures LowerChar(host[i]) == LowerChar(b[i])
    {
      assert LowerChar(a[i]) == LowerChar(b[i]);
    }
  }
}
