/** What the route table answers, in terms of what routes and requests are written as
    (src/config.rs): hosts in any case, path segments, and the order of preference. */
module RouteMeaning {
  import opened Prelude
  import opened Routes
  import opened RouteLaws
  import opened Tokens

  /** Hosts are the same up to the case of ASCII letters. */
  lemma {:induction false} HostMeans(a: string, b: string)
    ensures EqIgnoreCase(a, b) <==> Lower(a) == Lower(b)
  {
    hide LowerChar;
    if Lower(a) == Lower(b) {
      forall i | 0 <= i < |a|
        ensures LowerChar(a[i]) == LowerChar(b[i])
      {
        assert Lower(a)[i] == Lower(b)[i];
      }
    }
  }

  predicate AllSlashes(s: string) {
    forall i :: 0 <= i < |s| ==> s[i] == '/'
  }

  /** A prefix that does not end in a slash matches itself, and whatever goes on behind it with a
      slash: `/v1` matches `/v1` and `/v1/x`, not `/v123`. */
  lemma {:induction false} PrefixMeans(p: string, path: string)
    requires p != "" && !EndsInSlash(p)
    ensures PathPrefixMatches(p, path) <==> path == p || exists q :: path == p + "/" + q
  {
    assert TrimSlashes(p) == p;
    if PathPrefixMatches(p, path) && path != p {
      assert path == p + "/" + path[|p| + 1..];
    }
  }

  /** Slashes at the end of a prefix change nothing, and a prefix of nothing else matches all. */
  lemma {:induction false} SlashesDoNotMatter(p: string, s: string, path: string)
    requires AllSlashes(s)
    ensures PathPrefixMatches(p + s, path) <==> PathPrefixMatches(p, path)
    ensures PathPrefixMatches(s, path)
    decreases |s|
  {
    if s == "" {
      assert p + s == p;
    } else {
      var init := s[..|s| - 1];
      SlashesDoNotMatter(p, init, path);
      assert (p + s)[..|p + s| - 1] == p + init;
    }
  }

  /** The path lies under the prefix, without trimming anything. */
  ghost predicate Under(prefix: string, path: string) {
    exists t, s :: UnderAs(prefix, path, t, s)
  }

  ghost predicate UnderAs(prefix: string, path: string, t: string, s: string) {
    && prefix == t + s && !EndsInSlash(t) && AllSlashes(s)
    && (t == "" || path == t || exists q :: path == t + "/" + q)
  }

  lemma {:induction false} UnderMeans(prefix: string, path: string)
    ensures PathPrefixMatches(prefix, path) <==> Under(prefix, path)
  {
    hide PathPrefixMatches;
    var t := TrimSlashes(prefix);
    var s := prefix[|t|..];
    assert prefix == t + s && !EndsInSlash(t) && AllSlashes(s);
    if PathPrefixMatches(prefix, path) {
      SlashesDoNotMatter(t, s, path);
      if t != "" {
        PrefixMeans(t, path);
      }
      assert UnderAs(prefix, path, t, s);
    }
    if Under(prefix, path) {
      var t', s' :| UnderAs(prefix, path, t', s');
      SlashesDoNotMatter(t', s', path);
      if t' != "" {
        PrefixMeans(t', path);
      } else {
        assert prefix == s';
      }
    }
  }

  /** A route is for a request: its host is the request's in any case, or it has none, and the path
      lies under its prefix. */
  ghost predicate IsFor(r: Route, host: string, path: string) {
    (r.host == "" || Lower(host) == Lower(r.host)) && Under(r.pathPrefix, path)
  }

  lemma {:induction false} MatchesMeans(r: Route, host: string, path: string)
    ensures Matches(r, host, path) <==> IsFor(r, host, path)
  {
    hide PathPrefixMatches, Under, EqIgnoreCase, Lower;
    HostMeans(host, r.host);
    UnderMeans(r.pathPrefix, path);
  }

  /** Routes that come from the file, and those that override them. */
  predicate IsDynamic(r: Route) {
    r.source in {Discovered, Env, Cli}
  }

  /** `a` is preferred to `b`: it names a host and `b` does not; or its prefix as written is longer;
      or, these being equal, it is discovered and `b` is from the file. */
  predicate Preferred(a: Route, b: Route) {
    if (a.host == "") != (b.host == "") then a.host != ""
    else if |a.pathPrefix| != |b.pathPrefix| then |a.pathPrefix| > |b.pathPrefix|
    else IsDynamic(a) && !IsDynamic(b)
  }

  lemma {:induction false} PreferredMeans(a: Route, b: Route)
    ensures Above(Specificity(a), Specificity(b)) <==> Preferred(a, b)
  {
  }

  /** Route `b` is for the request; no route for it is preferred, and none before `b` in the list is
      as good. */
  ghost predicate IsChoice(routes: seq<Route>, host: string, path: string, b: nat) {
    && b < |routes| && IsFor(routes[b], host, path)
    && forall j :: 0 <= j < |routes| && IsFor(routes[j], host, path) ==>
         !Preferred(routes[j], routes[b]) && (j < b ==> Preferred(routes[b], routes[j]))
  }

  lemma {:induction false} ChoiceMeans(routes: seq<Route>, host: string, path: string, b: nat)
    ensures IsBest(routes, host, path, b) <==> IsChoice(routes, host, path, b)
  {
    hide Matches, IsFor, Specificity, Preferred, Above;
    if b < |routes| {
      forall j | 0 <= j < |routes|
        ensures Matches(routes[j], host, path) <==> IsFor(routes[j], host, path)
        ensures j != b ==> (Before(routes, b, j) <==> !Preferred(routes[j], routes[b]) && (j < b ==> Preferred(routes[b], routes[j])))
        ensures !Preferred(routes[b], routes[b])
      {
        MatchesMeans(routes[j], host, path);
        PreferredMeans(routes[j], routes[b]);
        PreferredMeans(routes[b], routes[j]);
        PreferredMeans(routes[b], routes[b]);
        KeysCompare(Specificity(routes[b]), Specificity(routes[j]));
        AboveIsStrict(Specificity(routes[b]), Specificity(routes[j]));
        AboveIsStrict(Specificity(routes[b]), Specificity(routes[b]));
      }
    }
  }

  lemma {:induction false} AboveIsStrict(a: Key, b: Key)
    ensures !(Above(a, b) && Above(b, a)) && !(a == b && Above(a, b))
  {
  }

  /** The table's answer: the choice among the routes as they were given; none if and only if no
      route is for the request. */
  lemma {:induction false} LookupMeans(routes: seq<Route>, host: string, path: string)
    ensures Lookup(routes, host, path).None? <==> forall j :: 0 <= j < |routes| ==> !IsFor(routes[j], host, path)
    ensures Lookup(routes, host, path).Some? ==>
      exists b: nat :: IsChoice(routes, host, path, b) && Lookup(routes, host, path) == Some(routes[b])
    ensures forall b :: 0 <= b < |routes| && IsChoice(routes, host, path, b) ==> Lookup(routes, host, path) == Some(routes[b])
  {
    hide Lookup, Matches, IsFor, IsBest, IsChoice;
    LookupIsBest(routes, host, path);
    forall j | 0 <= j < |routes|
      ensures Matches(routes[j], host, path) <==> IsFor(routes[j], host, path)
    {
      MatchesMeans(routes[j], host, path);
    }
    forall b: nat
      ensures IsBest(routes, host, path, b) <==> IsChoice(routes, host, path, b)
    {
      ChoiceMeans(routes, host, path, b);
    }
  }
}
