/** What the label parser promises: the fate of every group, and that declared routes read back
    (src/discovery/labels.rs). */
module LabelLaws {
  import opened Prelude
  import opened Ordered
  import opened Routes
  import opened Tokens
  import opened Labels

  // ----- grouping

  /** Key `i` is the last of the first `k` to set this field of this route. */
  predicate SetsLast(keys: seq<string>, k: nat, i: nat, name: string, field: string)
    requires i < k <= |keys|
  {
    && SplitKey(keys[i]) == Named(name, field)
    && forall j :: i < j < k ==> SplitKey(keys[j]) != Named(name, field)
  }

  predicate HasField(g: Groups, name: string, field: string) {
    name in g && field in g[name]
  }

  /** A field is in its group if and only if some label sets it, and then with the value of the
      last label that does. */
  lemma {:induction false} GroupedExactly(labels: Fields, keys: seq<string>, k: nat, name: string, field: string)
    requires k <= |keys|
    requires forall i :: 0 <= i < |keys| ==> keys[i] in labels
    ensures HasField(Grouped(labels, keys, k), name, field)
            <==> exists i :: 0 <= i < k && SplitKey(keys[i]) == Named(name, field)
    ensures forall i :: 0 <= i < k && SetsLast(keys, k, i, name, field) ==>
      HasField(Grouped(labels, keys, k), name, field) && Grouped(labels, keys, k)[name][field] == labels[keys[i]]
  {
    hide SplitKey;
    if k > 0 {
      GroupedExactly(labels, keys, k - 1, name, field);
      forall i | 0 <= i < k - 1 && SetsLast(keys, k, i, name, field)
        ensures SetsLast(keys, k - 1, i, name, field)
      {
      }
    }
  }

  /** No group is empty. */
  lemma {:induction false} GroupsHaveFields(labels: Fields, keys: seq<string>, k: nat, name: string) returns (field: string)
    requires k <= |keys|
    requires forall i :: 0 <= i < |keys| ==> keys[i] in labels
    requires name in Grouped(labels, keys, k)
    ensures HasField(Grouped(labels, keys, k), name, field)
  {
    hide SplitKey;
    var sp := SplitKey(keys[k - 1]);
    if sp.Named? && sp.name == name {
      field := sp.field;
    } else {
      field := GroupsHaveFields(labels, keys, k - 1, name);
    }
  }

  // ----- the fate of every group

  function RouteName(id: string, name: string): string {
    "docker/" + Short(id) + "/" + name
  }

  lemma {:induction false} CharsOfAscii(s: string, i: nat, n: nat)
    requires i <= |s| && forall k :: 0 <= k < |s| ==> s[k] as int < 0x80
    ensures CharsEnd(s, i, n) == if i + n <= |s| then i + n else |s|
    decreases n
  {
    if n > 0 && i < |s| {
      assert SkipContinuation(s, i + 1) == i + 1;
      CharsOfAscii(s, i + 1, n - 1);
    }
  }

  /** Of an ASCII id, which container ids are, twelve octets are kept. */
  lemma {:induction false} ShortOfAscii(id: string)
    requires forall k :: 0 <= k < |id| ==> id[k] as int < 0x80
    ensures Short(id) == if |id| <= 12 then id else id[..12]
  {
    hide CharsEnd;
    CharsOfAscii(id, 0, SHORT_CHARS);
  }

  /** Distinct groups of one container never share a route name. */
  lemma {:induction false} RouteNamesDistinct(id: string, a: string, b: string)
    ensures RouteName(id, a) == RouteName(id, b) ==> a == b
  {
    var p := "docker/" + Short(id) + "/";
    if RouteName(id, a) == RouteName(id, b) {
      assert RouteName(id, a)[|p|..] == a && RouteName(id, b)[|p|..] == b;
    }
  }

  /** Every group gives exactly one route or exactly one warning: their numbers add up. */
  lemma {:induction false} FatesAddUp(id: string, g: Groups, names: seq<string>, k: nat, gs: Option<bool>)
    requires k <= |names|
    requires forall i :: 0 <= i < |names| ==> names[i] in g
    ensures |Explicit(id, g, names, k, gs)| + |Missing(g, names, k)| == k
  {
    if k > 0 {
      FatesAddUp(id, g, names, k - 1, gs);
    }
  }

  /** How many of the first `k` of `xs` satisfy `p`. */
  function CountIf<T>(xs: seq<T>, p: T -> bool, k: nat): nat
    requires k <= |xs|
  {
    if k == 0 then 0 else CountIf(xs, p, k - 1) + (if p(xs[k - 1]) then 1 else 0)
  }

  lemma {:induction false} CountIfPrefix<T>(xs: seq<T>, more: seq<T>, p: T -> bool, k: nat)
    requires k <= |xs|
    ensures CountIf(xs + more, p, k) == CountIf(xs, p, k)
  {
    if k > 0 {
      CountIfPrefix(xs, more, p, k - 1);
    }
  }

  lemma {:induction false} CountIfOneMore<T>(xs: seq<T>, x: T, p: T -> bool)
    ensures CountIf(xs + [x], p, |xs + [x]|) == CountIf(xs, p, |xs|) + (if p(x) then 1 else 0)
  {
    CountIfPrefix(xs, [x], p, |xs|);
  }

  /** How many of these routes carry this name. */
  function RoutesNamed(rs: seq<Route>, name: string): nat {
    CountIf(rs, (r: Route) => r.name == name, |rs|)
  }

  /** How often this group is reported to lack an upstream. */
  function WarningsOf(ws: seq<Warning>, name: string): nat {
    CountIf(ws, (w: Warning) => w == MissingUpstream(name), |ws|)
  }

  /** Of the first `k` groups, group `i` gives one route if it names an upstream, and none if not. */
  lemma {:induction false} RouteOfGroup(id: string, g: Groups, names: seq<string>, k: nat, gs: Option<bool>, i: nat)
    requires k <= |names| && i < |names|
    requires StrictlyAscending(names)
    requires forall j :: 0 <= j < |names| ==> names[j] in g
    ensures var rs := Explicit(id, g, names, k, gs);
            RoutesNamed(rs, RouteName(id, names[i])) == if i < k && "upstream" in g[names[i]] then 1 else 0
    decreases k
  {
    hide RouteName, StrictlyAscending, CountIf, RouteOf;
    var name := RouteName(id, names[i]);
    if k == 0 {
      EmptyCount((r: Route) => r.name == name);
    } else {
      RouteOfGroup(id, g, names, k - 1, gs, i);
      var rs, f := Explicit(id, g, names, k - 1, gs), g[names[k - 1]];
      NamesDiffer(names, i, k - 1);
      RouteNamesDistinct(id, names[i], names[k - 1]);
      if "upstream" in f {
        NameOfRoute(id, names[k - 1], f, gs);
        CountIfOneMore(rs, RouteOf(id, names[k - 1], f, gs), (r: Route) => r.name == name);
      } else {
        assert Explicit(id, g, names, k, gs) == rs;
      }
    }
  }

  /** And one warning if it does not. */
  lemma {:induction false} WarningOfGroup(g: Groups, names: seq<string>, k: nat, i: nat)
    requires k <= |names| && i < |names|
    requires StrictlyAscending(names)
    requires forall j :: 0 <= j < |names| ==> names[j] in g
    ensures WarningsOf(Missing(g, names, k), names[i])
            == if i < k && "upstream" !in g[names[i]] then 1 else 0
    decreases k
  {
    hide StrictlyAscending, CountIf;
    var name := names[i];
    if k == 0 {
      EmptyCount((w: Warning) => w == MissingUpstream(name));
    } else {
      WarningOfGroup(g, names, k - 1, i);
      NamesDiffer(names, i, k - 1);
      var ws := Missing(g, names, k - 1);
      if "upstream" in g[names[k - 1]] {
        assert Missing(g, names, k) == ws;
      } else {
        CountIfOneMore(ws, MissingUpstream(names[k - 1]), (w: Warning) => w == MissingUpstream(name));
      }
    }
  }

  lemma {:induction false} EmptyCount<T>(p: T -> bool)
    ensures CountIf([], p, 0) == 0
  {
  }

  lemma {:induction false} NameOfRoute(id: string, name: string, f: Fields, gs: Option<bool>)
    requires "upstream" in f
    ensures RouteOf(id, name, f, gs).name == RouteName(id, name)
  {
  }

  lemma {:induction false} NamesDiffer(names: seq<string>, i: nat, j: nat)
    requires i < |names| && j < |names| && StrictlyAscending(names)
    ensures names[i] == names[j] ==> i == j
  {
    Irreflexive(names[i]);
    if i < j {
      assert Less(names[i], names[j]);
    } else if j < i {
      assert Less(names[j], names[i]);
    }
  }

  /** Routes that come from groups: one per group with an upstream. */
  function FromGroups(id: string, labels: Fields): seq<Route> {
    var g := AllGroups(labels);
    var names := Names(g);
    Explicit(id, g, names, |names|, GetBool(labels, GLOBAL_STRICT_KEY))
  }

  lemma {:induction false} FromGroupsEmptyExactly(id: string, labels: Fields)
    ensures FromGroups(id, labels) == [] <==> forall n :: n in AllGroups(labels) ==> "upstream" !in AllGroups(labels)[n]
  {
    hide AllGroups, RouteOf, ParseBool, RouteName, Ascending;
    var g, gs := AllGroups(labels), GetBool(labels, GLOBAL_STRICT_KEY);
    var names := Names(g);
    forall n | n in g && "upstream" in g[n]
      ensures FromGroups(id, labels) != []
    {
      assert n in Ascending(g.Keys);
      var i :| 0 <= i < |names| && names[i] == n;
      AscendingIsSorted(g.Keys);
      RouteOfGroup(id, g, names, |names|, gs, i);
    }
    if forall n :: n in g ==> "upstream" !in g[n] {
      NoneExplicit(id, g, names, |names|, gs);
    }
  }

  lemma {:induction false} NoneExplicit(id: string, g: Groups, names: seq<string>, k: nat, gs: Option<bool>)
    requires k <= |names|
    requires forall i :: 0 <= i < |names| ==> names[i] in g && "upstream" !in g[names[i]]
    ensures Explicit(id, g, names, k, gs) == []
  {
    if k > 0 {
      NoneExplicit(id, g, names, k - 1, gs);
    }
  }

  /** A container is opted in, and then either its groups give routes and nothing else does, or
      none does and the top-level upstream, if there is one, gives the one implicit route. */
  lemma {:induction false} RoutesOfContainer(id: string, labels: Fields)
    ensures var g := AllGroups(labels);
            var someRoute := exists n :: n in g && "upstream" in g[n];
            Parse(id, labels).routes
            == if !IsEnabled(labels) then []
               else if someRoute then FromGroups(id, labels)
               else if IMPLICIT_UPSTREAM_KEY in labels then [Implicit(id, labels)]
               else []
  {
    hide AllGroups, Implicit, ParseBool;
    FromGroupsEmptyExactly(id, labels);
  }

  lemma {:induction false} CountIfConcat<T>(xs: seq<T>, ys: seq<T>, p: T -> bool)
    ensures CountIf(xs + ys, p, |xs + ys|) == CountIf(xs, p, |xs|) + CountIf(ys, p, |ys|)
    decreases |ys|
  {
    hide CountIf;
    if ys == [] {
      assert xs + ys == xs;
      EmptyCount(p);
    } else {
      var init, last := ys[..|ys| - 1], ys[|ys| - 1];
      assert ys == init + [last] && xs + ys == (xs + init) + [last];
      CountIfConcat(xs, init, p);
      CountIfOneMore(init, last, p);
      CountIfOneMore(xs + init, last, p);
    }
  }

  lemma {:induction false} MalformedCountsNone(keys: seq<string>, k: nat, name: string)
    requires k <= |keys|
    ensures WarningsOf(MalformedOf(keys, k), name) == 0
  {
    hide SplitKey, CountIf;
    var p := (w: Warning) => w == MissingUpstream(name);
    EmptyCount(p);
    if k > 0 {
      MalformedCountsNone(keys, k - 1, name);
      var ws := MalformedOf(keys, k - 1);
      if SplitKey(keys[k - 1]).Malformed? {
        CountIfOneMore(ws, MalformedLabel(keys[k - 1]), p);
      } else {
        assert MalformedOf(keys, k) == ws;
      }
    }
  }

  /** Every group of an opted-in container gives exactly one route, or exactly one warning that
      it lacks an upstream, and never both. */
  lemma {:induction false} OneFatePerGroup(id: string, labels: Fields, name: string)
    requires IsEnabled(labels) && name in AllGroups(labels)
    ensures RoutesNamed(Parse(id, labels).routes, RouteName(id, name))
            == if "upstream" in AllGroups(labels)[name] then 1 else 0
    ensures WarningsOf(Parse(id, labels).warnings, name)
            == if "upstream" in AllGroups(labels)[name] then 0 else 1
  {
    hide AllGroups, Explicit, Missing, MalformedOf, ParseBool, Ascending, CountIf, RouteName, Implicit, IsEnabled;
    var keys, g, gs := Ascending(labels.Keys), AllGroups(labels), GetBool(labels, GLOBAL_STRICT_KEY);
    var names := Names(g);
    AscendingIsSorted(g.Keys);
    assert name in Ascending(g.Keys);
    var i :| 0 <= i < |names| && names[i] == name;
    RouteOfGroup(id, g, names, |names|, gs, i);
    WarningOfGroup(g, names, |names|, i);
    MalformedCountsNone(keys, |keys|, name);
    var p := (w: Warning) => w == MissingUpstream(name);
    var ws := MalformedOf(keys, |keys|) + Missing(g, names, |names|);
    CountIfConcat(MalformedOf(keys, |keys|), Missing(g, names, |names|), p);
    CountIfOneMore(ws, NoRoutes, p);
    if IMPLICIT_UPSTREAM_KEY in labels {
      ImplicitNameDiffers(id, labels, name);
      var q := (r: Route) => r.name == RouteName(id, name);
      EmptyCount(q);
      CountIfOneMore([], Implicit(id, labels), q);
      assert [] + [Implicit(id, labels)] == [Implicit(id, labels)];
    }
  }

  lemma {:induction false} ImplicitNameDiffers(id: string, labels: Fields, name: string)
    requires IMPLICIT_UPSTREAM_KEY in labels
    ensures Implicit(id, labels).name != RouteName(id, name)
  {
    assert |RouteName(id, name)| > |Implicit(id, labels).name|;
  }

  // ----- declared routes read back

  /** A route as a container's author means it. */
  datatype Declared = Declared(upstream: string, host: Option<string>, pathPrefix: Option<string>, strict: Option<bool>)

  function FieldsOf(d: Declared): Fields {
    map["upstream" := d.upstream]
    + (if d.host.Some? then map["host" := d.host.value] else map[])
    + (if d.pathPrefix.Some? then map["pathprefix" := d.pathPrefix.value] else map[])
    + (if d.strict.Some? then map["strict" := BoolText(d.strict.value)] else map[])
  }

  function RouteKey(name: string, field: string): string {
    "archetype.route." + (name + "." + field)
  }

  /** The labels of an opted-in container that declare exactly these routes: its route labels
      are the fields of the declarations and no others. Names may contain dots. */
  ghost predicate Renders(labels: Fields, decl: map<string, Declared>) {
    && IsEnabled(labels)
    && (forall n, f :: n in decl && f in FieldsOf(decl[n]) ==>
          RouteKey(n, f) in labels && labels[RouteKey(n, f)] == FieldsOf(decl[n])[f])
    && (forall k :: k in labels && ROUTE_PREFIX <= k ==>
          exists n, f :: n in decl && f in FieldsOf(decl[n]) && k == RouteKey(n, f))
  }

  /** The route a declaration means. */
  function DeclaredRoute(id: string, name: string, d: Declared, gs: Option<bool>): Route {
    Route(
      RouteName(id, name),
      d.host.GetOr(""),
      d.pathPrefix.GetOr(""),
      d.upstream,
      if d.strict.Some? then d.strict else gs,
      Discovered
    )
  }

  lemma {:induction false} DropPrefix(p: string, s: string)
    ensures p <= p + s && (p + s)[|p|..] == s
  {
  }

  /** The last dot of `<name>.<field>` is the one before the field. */
  lemma {:induction false} LastDotBeforeField(name: string, field: string)
    requires '.' !in field
    ensures var rest := name + "." + field;
            var d := LastDot(rest, |rest|);
            d == |name| && rest[..d] == name && rest[d + 1..] == field
  {
    hide LastDot;
    var rest := name + "." + field;
    assert rest[|name|] == '.';
    assert forall i :: |name| < i < |rest| ==> rest[i] == field[i - |name| - 1] && rest[i] != '.';
  }

  lemma {:induction false} SplitRouteKey(name: string, field: string)
    requires '.' !in field
    ensures SplitKey(RouteKey(name, field)) == Named(name, Lower(field))
  {
    hide Lower, LastDot;
    DropPrefix(ROUTE_PREFIX, name + "." + field);
    LastDotBeforeField(name, field);
  }

  /** The four field names are in lower case and have no dot. */
  lemma {:induction false} FieldNames(d: Declared, f: string)
    requires f in FieldsOf(d)
    ensures '.' !in f && Lower(f) == f
  {
    assert f == "upstream" || f == "host" || f == "pathprefix" || f == "strict";
  }

  /** A declared field's own key splits back into it. */
  lemma {:induction false} DeclaredKeySplits(decl: map<string, Declared>, n: string, f: string)
    requires n in decl && f in FieldsOf(decl[n])
    ensures SplitKey(RouteKey(n, f)) == Named(n, f)
  {
    hide SplitKey, RouteKey, FieldsOf, Lower;
    FieldNames(decl[n], f);
    SplitRouteKey(n, f);
  }

  /** Any label that sets a field is that field's own key, so of a declared route. */
  lemma {:induction false} SplitsOnlyDeclared(labels: Fields, decl: map<string, Declared>, k: string)
    requires Renders(labels, decl) && k in labels
    ensures !SplitKey(k).Malformed?
    ensures SplitKey(k).Named? ==>
      var n, f := SplitKey(k).name, SplitKey(k).field;
      n in decl && f in FieldsOf(decl[n]) && k == RouteKey(n, f)
  {
    hide RouteKey, FieldsOf;
    if ROUTE_PREFIX <= k {
      hide SplitKey;
      var n, f :| n in decl && f in FieldsOf(decl[n]) && k == RouteKey(n, f);
      DeclaredKeySplits(decl, n, f);
    }
  }

  function DeclaredGroups(decl: map<string, Declared>): Groups {
    map n | n in decl :: FieldsOf(decl[n])
  }

  /** Grouping the rendered labels gives back the declared fields of every route. */
  lemma {:induction false} GroupsReadBack(labels: Fields, decl: map<string, Declared>)
    requires Renders(labels, decl)
    ensures AllGroups(labels) == DeclaredGroups(decl)
  {
    hide Renders, SplitKey, FieldsOf, Grouped, Ascending, RouteKey;
    var g := AllGroups(labels);
    forall n, f
      ensures HasField(g, n, f) <==> n in decl && f in FieldsOf(decl[n])
      ensures HasField(g, n, f) ==> n in decl && f in FieldsOf(decl[n]) && g[n][f] == FieldsOf(decl[n])[f]
    {
      FieldReadsBack(labels, decl, n, f);
    }
    forall n | n in g
      ensures n in decl && g[n] == FieldsOf(decl[n])
    {
      var keys := Ascending(labels.Keys);
      assert forall i :: 0 <= i < |keys| ==> keys[i] in keys;
      var f := GroupsHaveFields(labels, keys, |keys|, n);
      assert HasField(g, n, f);
      assert forall f :: f in g[n] <==> HasField(g, n, f);
      assert g[n].Keys == FieldsOf(decl[n]).Keys;
    }
    forall n | n in decl
      ensures n in g
    {
      UpstreamDeclared(decl[n]);
      assert HasField(g, n, "upstream");
    }
    assert g.Keys == decl.Keys;
  }

  lemma {:induction false} UpstreamDeclared(d: Declared)
    ensures "upstream" in FieldsOf(d)
  {
  }

  lemma {:induction false} FieldReadsBack(labels: Fields, decl: map<string, Declared>, n: string, f: string)
    requires Renders(labels, decl)
    ensures var g := AllGroups(labels);
            && (HasField(g, n, f) <==> n in decl && f in FieldsOf(decl[n]))
            && (HasField(g, n, f) ==> n in decl && f in FieldsOf(decl[n]) && g[n][f] == FieldsOf(decl[n])[f])
  {
    hide SplitKey, FieldsOf, Grouped, Ascending, RouteKey, IsEnabled;
    var keys := Ascending(labels.Keys);
    assert forall i :: 0 <= i < |keys| ==> keys[i] in keys;
    GroupedExactly(labels, keys, |keys|, n, f);
    if HasField(AllGroups(labels), n, f) {
      var i :| 0 <= i < |keys| && SplitKey(keys[i]) == Named(n, f);
      SplitsOnlyDeclared(labels, decl, keys[i]);
      AscendingIsSorted(labels.Keys);
      OnlySetter(labels, decl, keys, i, n, f);
    }
    if n in decl && f in FieldsOf(decl[n]) {
      DeclaredKeySplits(decl, n, f);
      assert RouteKey(n, f) in keys;
      var i :| 0 <= i < |keys| && keys[i] == RouteKey(n, f);
    }
  }

  lemma {:induction false} OnlySetter(labels: Fields, decl: map<string, Declared>, keys: seq<string>, i: nat, n: string, f: string)
    requires Renders(labels, decl)
    requires i < |keys| && StrictlyAscending(keys)
    requires forall j :: 0 <= j < |keys| ==> keys[j] in labels
    requires SplitKey(keys[i]) == Named(n, f)
    ensures SetsLast(keys, |keys|, i, n, f)
  {
    hide SplitKey, Renders, FieldsOf, RouteKey;
    SplitsOnlyDeclared(labels, decl, keys[i]);
    forall j | i < j < |keys|
      ensures SplitKey(keys[j]) != Named(n, f)
    {
      assert Less(keys[i], keys[j]);
      Irreflexive(keys[i]);
      if SplitKey(keys[j]) == Named(n, f) {
        SplitsOnlyDeclared(labels, decl, keys[j]);
      }
    }
  }

  lemma {:induction false} NoneMalformed(labels: Fields, decl: map<string, Declared>, keys: seq<string>, k: nat)
    requires Renders(labels, decl)
    requires k <= |keys|
    requires forall i :: 0 <= i < |keys| ==> keys[i] in labels
    ensures MalformedOf(keys, k) == []
  {
    hide SplitKey, Renders;
    if k > 0 {
      NoneMalformed(labels, decl, keys, k - 1);
      SplitsOnlyDeclared(labels, decl, keys[k - 1]);
    }
  }

  lemma {:induction false} RouteReadsBack(id: string, n: string, d: Declared, gs: Option<bool>)
    ensures "upstream" in FieldsOf(d)
    ensures RouteOf(id, n, FieldsOf(d), gs) == DeclaredRoute(id, n, d, gs)
  {
    hide ParseBool;
    BoolReadsBack();
  }

  lemma {:induction false} NeitherIsNone(b: Option<bool>)
    ensures b == None || b == Some(true) || b == Some(false)
  {
    if b.Some? && b.value {
      assert b == Some(true);
    }
  }

  /** A strictness that is no token is as good as none: the container's default holds. */
  lemma {:induction false} UnreadStrictness(id: string, n: string, f: Fields, gs: Option<bool>)
    requires "upstream" in f
    requires "strict" in f ==> !Says(f["strict"], TRUE_TOKENS) && !Says(f["strict"], FALSE_TOKENS)
    ensures RouteOf(id, n, f, gs).strictAttestation == gs
  {
    hide Says, ParseBool;
    if "strict" in f {
      ParseBoolMeans(f["strict"]);
      NeitherIsNone(ParseBool(f["strict"]));
    }
  }

  /** The declared routes in name order. */
  function DeclaredRoutes(id: string, decl: map<string, Declared>, names: seq<string>, k: nat, gs: Option<bool>): seq<Route>
    requires k <= |names|
    requires forall i :: 0 <= i < |names| ==> names[i] in decl
  {
    if k == 0 then []
    else DeclaredRoutes(id, decl, names, k - 1, gs) + [DeclaredRoute(id, names[k - 1], decl[names[k - 1]], gs)]
  }

  lemma {:induction false} ExplicitReadsBack(id: string, decl: map<string, Declared>, names: seq<string>, k: nat, gs: Option<bool>)
    requires k <= |names|
    requires forall i :: 0 <= i < |names| ==> names[i] in decl
    ensures Explicit(id, DeclaredGroups(decl), names, k, gs) == DeclaredRoutes(id, decl, names, k, gs)
    ensures Missing(DeclaredGroups(decl), names, k) == []
  {
    hide FieldsOf, RouteOf, DeclaredRoute;
    if k > 0 {
      ExplicitReadsBack(id, decl, names, k - 1, gs);
      RouteReadsBack(id, names[k - 1], decl[names[k - 1]], gs);
    }
  }

  /** Parsing labels that declare some routes, among whatever other labels, gives exactly those
      routes, in the order of their names, and no warning. */
  lemma {:induction false} RoundTrip(id: string, labels: Fields, decl: map<string, Declared>)
    requires Renders(labels, decl) && decl != map[]
    ensures var names := Ascending(decl.Keys);
            && (forall i :: 0 <= i < |names| ==> names[i] in decl)
            && Parse(id, labels)
               == Parsed(DeclaredRoutes(id, decl, names, |names|, GetBool(labels, GLOBAL_STRICT_KEY)), [])
  {
    hide AllGroups, Explicit, Missing, MalformedOf, ParseBool, Implicit, FieldsOf;
    GroupsReadBack(labels, decl);
    var keys, names := Ascending(labels.Keys), Ascending(decl.Keys);
    assert forall i :: 0 <= i < |keys| ==> keys[i] in keys;
    assert forall i :: 0 <= i < |names| ==> names[i] in names;
    assert DeclaredGroups(decl).Keys == decl.Keys;
    NoneMalformed(labels, decl, keys, |keys|);
    ExplicitReadsBack(id, decl, names, |names|, GetBool(labels, GLOBAL_STRICT_KEY));
  }

  /** The keys of all declared fields. */
  function RouteKeys(decl: map<string, Declared>): set<string> {
    set n, f | n in decl && f in FieldsOf(decl[n]) :: RouteKey(n, f)
  }

  /** The field a key is for. */
  function DeclaredValue(decl: map<string, Declared>, k: string): string {
    var sp := SplitKey(k);
    if sp.Named? && sp.name in decl && sp.field in FieldsOf(decl[sp.name]) then FieldsOf(decl[sp.name])[sp.field] else ""
  }

  /** The labels an author writes: the opt-in, the default for strictness if there is one, and one
      label per declared field. */
  function Render(decl: map<string, Declared>, globalStrict: Option<bool>): Fields {
    map["archetype.enable" := "true"]
    + (if globalStrict.Some? then map["archetype.attestation.strict" := BoolText(globalStrict.value)] else map[])
    + (map k | k in RouteKeys(decl) :: DeclaredValue(decl, k))
  }

  /** A route label is neither the opt-in nor the strictness default. */
  lemma {:induction false} RouteKeysApart(n: string, f: string)
    ensures ROUTE_PREFIX <= RouteKey(n, f)
    ensures RouteKey(n, f) != ENABLE_KEY && RouteKey(n, f) != GLOBAL_STRICT_KEY
    ensures !(ROUTE_PREFIX <= ENABLE_KEY) && !(ROUTE_PREFIX <= GLOBAL_STRICT_KEY)
  {
    assert RouteKey(n, f)[10] == ROUTE_PREFIX[10] == 'r';
    assert ENABLE_KEY[10] == 'e' && GLOBAL_STRICT_KEY[10] == 'a';
  }

  lemma {:induction false} FlagsApart(decl: map<string, Declared>)
    ensures ENABLE_KEY !in RouteKeys(decl) && GLOBAL_STRICT_KEY !in RouteKeys(decl)
  {
    hide RouteKey, FieldsOf;
    forall n, f
      ensures RouteKey(n, f) != ENABLE_KEY && RouteKey(n, f) != GLOBAL_STRICT_KEY
    {
      RouteKeysApart(n, f);
    }
  }

  lemma {:induction false} RenderedFlags(decl: map<string, Declared>, globalStrict: Option<bool>)
    ensures IsEnabled(Render(decl, globalStrict))
    ensures GetBool(Render(decl, globalStrict), GLOBAL_STRICT_KEY) == globalStrict
  {
    hide RouteKeys, DeclaredValue, ParseBool;
    BoolReadsBack();
    FlagsApart(decl);
  }

  lemma {:induction false} RenderedField(decl: map<string, Declared>, globalStrict: Option<bool>, n: string, f: string)
    requires n in decl && f in FieldsOf(decl[n])
    ensures var labels := Render(decl, globalStrict);
            RouteKey(n, f) in labels && labels[RouteKey(n, f)] == FieldsOf(decl[n])[f]
  {
    hide RouteKey, FieldsOf, SplitKey;
    DeclaredKeySplits(decl, n, f);
    assert RouteKey(n, f) in RouteKeys(decl);
  }

  lemma {:induction false} RenderedOnly(decl: map<string, Declared>, globalStrict: Option<bool>, k: string)
    requires k in Render(decl, globalStrict) && ROUTE_PREFIX <= k
    ensures k in RouteKeys(decl)
  {
    hide RouteKeys, DeclaredValue;
    RouteKeysApart("", "");
  }

  /** No two declared fields share a label, so every declaration is rendered. */
  lemma {:induction false} RenderRenders(decl: map<string, Declared>, globalStrict: Option<bool>)
    ensures Renders(Render(decl, globalStrict), decl)
  {
    hide RouteKey, FieldsOf, Render, IsEnabled;
    var labels := Render(decl, globalStrict);
    RenderedFlags(decl, globalStrict);
    forall n, f | n in decl && f in FieldsOf(decl[n])
      ensures RouteKey(n, f) in labels && labels[RouteKey(n, f)] == FieldsOf(decl[n])[f]
    {
      RenderedField(decl, globalStrict, n, f);
    }
    forall k | k in labels && ROUTE_PREFIX <= k
      ensures k in RouteKeys(decl)
    {
      RenderedOnly(decl, globalStrict, k);
    }
  }

  /** Rendering any declared routes and parsing the labels gives those routes back. */
  lemma {:induction false} RenderParses(id: string, decl: map<string, Declared>, globalStrict: Option<bool>)
    requires decl != map[]
    ensures var names := Ascending(decl.Keys);
            && (forall i :: 0 <= i < |names| ==> names[i] in decl)
            && Parse(id, Render(decl, globalStrict))
               == Parsed(DeclaredRoutes(id, decl, names, |names|, globalStrict), [])
  {
    hide Render, Renders, Parse, Ascending, ParseBool, DeclaredRoutes;
    RenderRenders(decl, globalStrict);
    RenderedFlags(decl, globalStrict);
    RoundTrip(id, Render(decl, globalStrict), decl);
  }

  // ----- opting in, and the other warnings

  /** A container opts in by a true token under `archetype.enable`, and in no other way. */
  lemma {:induction false} OptsInExactly(labels: Fields)
    ensures IsEnabled(labels) <==> "archetype.enable" in labels && Says(labels["archetype.enable"], TRUE_TOKENS)
  {
    hide Says, ParseBool;
    if "archetype.enable" in labels {
      ParseBoolMeans(labels["archetype.enable"]);
    }
  }

  /** One that does not gives nothing, whatever else its labels say. */
  lemma {:induction false} NotOptedIn(id: string, labels: Fields)
    requires "archetype.enable" in labels ==> !Says(labels["archetype.enable"], TRUE_TOKENS)
    ensures Parse(id, labels) == Parsed([], [])
  {
    hide Says, IsEnabled;
    OptsInExactly(labels);
  }

  lemma {:induction false} MalformedExactly(keys: seq<string>, k: nat, key: string)
    requires k <= |keys|
    ensures MalformedLabel(key) in MalformedOf(keys, k) <==> key in keys[..k] && SplitKey(key).Malformed?
    ensures forall w :: w in MalformedOf(keys, k) ==> w.MalformedLabel?
  {
    hide SplitKey;
    if k > 0 {
      MalformedExactly(keys, k - 1, key);
      assert keys[..k] == keys[..k - 1] + [keys[k - 1]];
    }
  }

  lemma {:induction false} MalformedMeans(key: string)
    ensures SplitKey(key).Malformed? <==> ROUTE_PREFIX <= key && '.' !in key[|ROUTE_PREFIX|..]
  {
  }

  lemma {:induction false} MissingOnly(g: Groups, names: seq<string>, k: nat)
    requires k <= |names|
    requires forall i :: 0 <= i < |names| ==> names[i] in g
    ensures forall w :: w in Missing(g, names, k) ==> w.MissingUpstream?
  {
    if k > 0 {
      MissingOnly(g, names, k - 1);
    }
  }

  /** An opted-in container is warned about a route label exactly if there is no dot in what follows
      the prefix, and about having no routes exactly if it has none. */
  lemma {:induction false} OtherWarnings(id: string, labels: Fields, key: string)
    requires IsEnabled(labels)
    ensures MalformedLabel(key) in Parse(id, labels).warnings
            <==> key in labels && ROUTE_PREFIX <= key && '.' !in key[|ROUTE_PREFIX|..]
    ensures NoRoutes in Parse(id, labels).warnings <==> Parse(id, labels).routes == []
  {
    hide IsEnabled, AllGroups, Explicit, Missing, MalformedOf, SplitKey, ParseBool, Implicit;
    var keys, g := Ascending(labels.Keys), AllGroups(labels);
    var names := Names(g);
    MalformedExactly(keys, |keys|, key);
    MalformedMeans(key);
    MissingOnly(g, names, |names|);
    assert keys[..|keys|] == keys;
  }

  // ----- the implicit route reads back

  /** The labels of a container with one unnamed route. */
  function ImplicitLabels(d: Declared): Fields {
    map["archetype.enable" := "true", "archetype.upstream" := d.upstream]
    + (if d.host.Some? then map["archetype.host" := d.host.value] else map[])
    + (if d.pathPrefix.Some? then map["archetype.pathprefix" := d.pathPrefix.value] else map[])
    + (if d.strict.Some? then map["archetype.attestation.strict" := BoolText(d.strict.value)] else map[])
  }

  lemma {:induction false} ImplicitRoundTrip(id: string, d: Declared)
    ensures Parse(id, ImplicitLabels(d))
            == Parsed([Route("docker/" + Short(id), d.host.GetOr(""), d.pathPrefix.GetOr(""), d.upstream, d.strict, Discovered)], [])
  {
    var labels := ImplicitLabels(d);
    ImplicitFields(id, d);
    ImplicitKeys(d);
    hide ImplicitLabels, SplitKey, Ascending, ParseBool, Implicit, IsEnabled;
    var keys := Ascending(labels.Keys);
    assert forall i :: 0 <= i < |keys| ==> keys[i] in keys;
    NoRouteLabels(labels, keys, |keys|);
  }

  lemma {:induction false} ImplicitFields(id: string, d: Declared)
    ensures var labels := ImplicitLabels(d);
            && IsEnabled(labels) && IMPLICIT_UPSTREAM_KEY in labels
            && Implicit(id, labels)
               == Route("docker/" + Short(id), d.host.GetOr(""), d.pathPrefix.GetOr(""), d.upstream, d.strict, Discovered)
  {
    hide ParseBool, LastDot;
    BoolReadsBack();
  }

  /** None of those labels is a route label: all differ from the prefix in the same place. */
  lemma {:induction false} ImplicitKeys(d: Declared)
    ensures forall k :: k in ImplicitLabels(d) ==> SplitKey(k).NotRoute?
  {
    hide LastDot, Lower;
    forall k | k in ImplicitLabels(d)
      ensures SplitKey(k).NotRoute?
    {
      assert k == ENABLE_KEY || k == IMPLICIT_UPSTREAM_KEY || k == IMPLICIT_HOST_KEY || k == IMPLICIT_PREFIX_KEY
          || k == GLOBAL_STRICT_KEY;
      assert |k| > 10 && k[10] != ROUTE_PREFIX[10];
    }
  }

  lemma {:induction false} NoRouteLabels(labels: Fields, keys: seq<string>, k: nat)
    requires k <= |keys|
    requires forall i :: 0 <= i < |keys| ==> keys[i] in labels && SplitKey(keys[i]).NotRoute?
    ensures Grouped(labels, keys, k) == map[] && MalformedOf(keys, k) == []
  {
    hide SplitKey;
    if k > 0 {
      NoRouteLabels(labels, keys, k - 1);
    }
  }
}
