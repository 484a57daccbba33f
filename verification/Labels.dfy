/** Container labels as routes (src/discovery/labels.rs). */
module Labels {
  import opened Prelude
  import opened Ordered
  import opened Routes
  import opened Tokens

  const ENABLE_KEY := "archetype.enable"
  const GLOBAL_STRICT_KEY := "archetype.attestation.strict"
  const IMPLICIT_UPSTREAM_KEY := "archetype.upstream"
  const IMPLICIT_HOST_KEY := "archetype.host"
  const IMPLICIT_PREFIX_KEY := "archetype.pathprefix"
  const ROUTE_PREFIX := "archetype.route."

  datatype Warning = MalformedLabel(key: string) | MissingUpstream(name: string) | NoRoutes

  type Fields = map<string, string>

  /** The position of the last dot, or the length if there is none. */
  function LastDot(s: string, k: nat): (d: nat)
    requires k <= |s|
    ensures d <= |s|
    ensures d < |s| ==> d < k && s[d] == '.' && forall i :: d < i < k ==> s[i] != '.'
    ensures d == |s| ==> forall i :: 0 <= i < k ==> s[i] != '.'
  {
    if k == 0 then |s| else if s[k - 1] == '.' then k - 1 else LastDot(s, k - 1)
  }

  datatype Split = NotRoute | Malformed | Named(name: string, field: string)

  /** How a label key reads: `archetype.route.<name>.<field>`, split at the last dot, the field
      in lower case. */
  function SplitKey(k: string): Split {
    if !(ROUTE_PREFIX <= k) then NotRoute
    else
      var rest := k[|ROUTE_PREFIX|..];
      var d := LastDot(rest, |rest|);
      if d == |rest| then Malformed else Named(rest[..d], Lower(rest[d + 1..]))
  }

  type Groups = map<string, Fields>

  function AddField(g: Groups, name: string, field: string, value: string): Groups {
    g[name := (if name in g then g[name] else map[])[field := value]]
  }

  /** The fields grouped by route name, from the first `k` of `keys`. */
  function Grouped(labels: Fields, keys: seq<string>, k: nat): Groups
    requires k <= |keys|
    requires forall i :: 0 <= i < |keys| ==> keys[i] in labels
  {
    if k == 0 then map[]
    else
      var g, sp := Grouped(labels, keys, k - 1), SplitKey(keys[k - 1]);
      if sp.Named? then AddField(g, sp.name, sp.field, labels[keys[k - 1]]) else g
  }

  function MalformedOf(keys: seq<string>, k: nat): seq<Warning>
    requires k <= |keys|
  {
    if k == 0 then []
    else
      MalformedOf(keys, k - 1) + (if SplitKey(keys[k - 1]).Malformed? then [MalformedLabel(keys[k - 1])] else [])
  }

  /** Whether an octet continues a character of UTF-8 text. */
  predicate IsContinuation(c: char) {
    0x80 <= c as int < 0xC0
  }

  function SkipContinuation(s: string, i: nat): (j: nat)
    requires i <= |s|
    ensures i <= j <= |s|
    decreases |s| - i
  {
    if i < |s| && IsContinuation(s[i]) then SkipContinuation(s, i + 1) else i
  }

  /** Where the first `n` characters from `i` on end. */
  function CharsEnd(s: string, i: nat, n: nat): (j: nat)
    requires i <= |s|
    ensures i <= j <= |s|
    decreases n
  {
    if n == 0 || i == |s| then i else CharsEnd(s, SkipContinuation(s, i + 1), n - 1)
  }

  const SHORT_CHARS: nat := 12

  /** The first characters of a container's id. */
  function Short(id: string): string {
    id[..CharsEnd(id, 0, SHORT_CHARS)]
  }

  /** The route of a group that names an upstream. */
  function RouteOf(id: string, name: string, f: Fields, globalStrict: Option<bool>): Route
    requires "upstream" in f
  {
    var strict := GetBool(f, "strict");
    Route(
      "docker/" + Short(id) + "/" + name,
      Get(f, "host").GetOr(""),
      Get(f, "pathprefix").GetOr(""),
      f["upstream"],
      if strict.Some? then strict else globalStrict,
      Discovered
    )
  }

  /** The routes of the first `k` of `names`. */
  function Explicit(id: string, g: Groups, names: seq<string>, k: nat, globalStrict: Option<bool>): seq<Route>
    requires k <= |names|
    requires forall i :: 0 <= i < |names| ==> names[i] in g
  {
    if k == 0 then []
    else
      var f := g[names[k - 1]];
      Explicit(id, g, names, k - 1, globalStrict)
      + (if "upstream" in f then [RouteOf(id, names[k - 1], f, globalStrict)] else [])
  }

  /** The warnings for those without an upstream. */
  function Missing(g: Groups, names: seq<string>, k: nat): seq<Warning>
    requires k <= |names|
    requires forall i :: 0 <= i < |names| ==> names[i] in g
  {
    if k == 0 then []
    else Missing(g, names, k - 1) + (if "upstream" in g[names[k - 1]] then [] else [MissingUpstream(names[k - 1])])
  }

  function Implicit(id: string, labels: Fields): Route
    requires IMPLICIT_UPSTREAM_KEY in labels
  {
    Route(
      "docker/" + Short(id),
      Get(labels, IMPLICIT_HOST_KEY).GetOr(""),
      Get(labels, IMPLICIT_PREFIX_KEY).GetOr(""),
      labels[IMPLICIT_UPSTREAM_KEY],
      GetBool(labels, GLOBAL_STRICT_KEY),
      Discovered
    )
  }

  predicate IsEnabled(labels: Fields) {
    GetBool(labels, ENABLE_KEY) == Some(true)
  }

  function AllGroups(labels: Fields): Groups {
    var keys := Ascending(labels.Keys);
    assert forall i :: 0 <= i < |keys| ==> keys[i] in keys;
    Grouped(labels, keys, |keys|)
  }

  function Names(g: Groups): (names: seq<string>)
    ensures forall i :: 0 <= i < |names| ==> names[i] in g
  {
    var names := Ascending(g.Keys);
    assert forall i :: 0 <= i < |names| ==> names[i] in names;
    names
  }

  datatype Parsed = Parsed(routes: seq<Route>, warnings: seq<Warning>)

  /** All that a container's labels declare. */
  function Parse(id: string, labels: Fields): Parsed {
    if !IsEnabled(labels) then Parsed([], [])
    else
      var keys, g := Ascending(labels.Keys), AllGroups(labels);
      var names := Names(g);
      var explicit := Explicit(id, g, names, |names|, GetBool(labels, GLOBAL_STRICT_KEY));
      var warnings := MalformedOf(keys, |keys|) + Missing(g, names, |names|);
      if explicit != [] then Parsed(explicit, warnings)
      else if IMPLICIT_UPSTREAM_KEY in labels then Parsed([Implicit(id, labels)], warnings)
      else Parsed([], warnings + [NoRoutes])
  }

  method RoutesFromLabels(id: string, labels: Fields) returns (routes: seq<Route>, warnings: seq<Warning>)
    ensures Parsed(routes, warnings) == Parse(id, labels)
  {
    hide SplitKey, RouteOf, Implicit, Ascending, ParseBool, AddField;
    routes, warnings := [], [];
    if !IsEnabled(labels) {
      return;
    }
    var globalStrict := GetBool(labels, GLOBAL_STRICT_KEY);
    var keys := Ascending(labels.Keys);
    assert forall i :: 0 <= i < |keys| ==> keys[i] in keys;
    var grouped: Groups := map[];
    for i := 0 to |keys|
      invariant grouped == Grouped(labels, keys, i)
      invariant warnings == MalformedOf(keys, i)
    {
      var sp := SplitKey(keys[i]);
      match sp {
        case NotRoute =>
        case Malformed => warnings := warnings + [MalformedLabel(keys[i])];
        case Named(name, field) => grouped := AddField(grouped, name, field, labels[keys[i]]);
      }
    }
    var names := Names(grouped);
    for i := 0 to |names|
      invariant routes == Explicit(id, grouped, names, i, globalStrict)
      invariant warnings == MalformedOf(keys, |keys|) + Missing(grouped, names, i)
    {
      var fields := grouped[names[i]];
      if "upstream" in fields {
        routes := routes + [RouteOf(id, names[i], fields, globalStrict)];
      } else {
        warnings := warnings + [MissingUpstream(names[i])];
      }
    }
    if routes == [] {
      if IMPLICIT_UPSTREAM_KEY in labels {
        routes := [Implicit(id, labels)];
      } else {
        warnings := warnings + [NoRoutes];
      }
    }
  }
}
