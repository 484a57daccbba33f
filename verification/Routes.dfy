/** Routes and the table that picks one (src/config.rs). Strings stand for their UTF-8 octets. */
module Routes {
  import opened Prelude

  datatype Source = Default | File | Discovered | Env | Cli

  /** Tie-breaker between routes of equal match rule. */
  function RouteRank(s: Source): (r: nat)
    ensures r <= 1
  {
    match s
    case Discovered => 1
    case Env => 1
    case Cli => 1
    case File => 0
    case Default => 0
  }

  datatype Route = Route(
    name: string,
    host: string,
    pathPrefix: string,
    upstream: string,
    strictAttestation: Option<bool>,
    source: Source
  )

  /** The ordering key: host given, length of the prefix as written, source rank. */
  datatype Key = Key(host: nat, prefix: nat, rank: nat)

  function Specificity(r: Route): Key {
    Key(if r.host == "" then 0 else 1, |r.pathPrefix|, RouteRank(r.source))
  }

  predicate Above(a: Key, b: Key) {
    || a.host > b.host
    || (a.host == b.host && a.prefix > b.prefix)
    || (a.host == b.host && a.prefix == b.prefix && a.rank > b.rank)
  }

  predicate AtLeast(a: Key, b: Key) {
    a == b || Above(a, b)
  }

  function LowerChar(c: char): char {
    if 'A' <= c <= 'Z' then c - 'A' + 'a' else c
  }

  predicate EqIgnoreCase(a: string, b: string) {
    |a| == |b| && forall i :: 0 <= i < |a| ==> LowerChar(a[i]) == LowerChar(b[i])
  }

  /** `p` without the slashes it ends in. */
  function TrimSlashes(p: string): (t: string)
    ensures t <= p
    ensures t == "" || t[|t| - 1] != '/'
    ensures forall i :: |t| <= i < |p| ==> p[i] == '/'
  {
    if p != "" && p[|p| - 1] == '/' then TrimSlashes(p[..|p| - 1]) else p
  }

  /** `path` lies under `prefix`, on a segment boundary. */
  predicate PathPrefixMatches(prefix: string, path: string) {
    var p := TrimSlashes(prefix);
    p == "" || (p <= path && (|path| == |p| || path[|p|] == '/'))
  }

  predicate Matches(r: Route, host: string, path: string) {
    && (r.host == "" || EqIgnoreCase(host, r.host))
    && PathPrefixMatches(r.pathPrefix, path)
  }

  // ----- the table

  /** `i` goes before `j` in a stable sort, most specific first. */
  predicate Before(routes: seq<Route>, i: nat, j: nat)
    requires i < |routes| && j < |routes|
  {
    || Above(Specificity(routes[i]), Specificity(routes[j]))
    || (Specificity(routes[i]) == Specificity(routes[j]) && i < j)
  }

  /** `order` lists every position of `routes[..k]` once. */
  ghost predicate Lists(order: seq<nat>, k: nat) {
    && |order| == k
    && (forall a :: 0 <= a < |order| ==> order[a] < k)
    && (forall i :: 0 <= i < k ==> i in order)
    && (forall a, b :: 0 <= a < b < |order| ==> order[a] != order[b])
  }

  ghost predicate InOrder(routes: seq<Route>, order: seq<nat>) {
    && (forall a :: 0 <= a < |order| ==> order[a] < |routes|)
    && (forall a, b :: 0 <= a < b < |order| ==> Before(routes, order[a], order[b]))
  }

  /** `table` is the stable sort of `routes`, most specific first: what the library's sort
      promises, whatever its algorithm. */
  ghost predicate StablySorted(routes: seq<Route>, table: seq<Route>, order: seq<nat>) {
    && Lists(order, |routes|) && InOrder(routes, order)
    && |table| == |routes|
    && forall a :: 0 <= a < |table| ==> table[a] == routes[order[a]]
  }

  /** Where position `i` belongs among `order`, which lists earlier positions: behind all that
      are at least as specific. */
  function Slot(routes: seq<Route>, order: seq<nat>, i: nat, p: nat): (q: nat)
    requires i < |routes| && p <= |order|
    requires forall a :: 0 <= a < |order| ==> order[a] < |routes|
    ensures p <= q <= |order|
    ensures forall a :: p <= a < q ==> !Above(Specificity(routes[i]), Specificity(routes[order[a]]))
    ensures q < |order| ==> Above(Specificity(routes[i]), Specificity(routes[order[q]]))
    decreases |order| - p
  {
    if p == |order| || Above(Specificity(routes[i]), Specificity(routes[order[p]])) then p
    else Slot(routes, order, i, p + 1)
  }

  /** The positions of `routes[..k]`, stably sorted. */
  function SortOrder(routes: seq<Route>, k: nat): (order: seq<nat>)
    requires k <= |routes|
    ensures |order| == k
    ensures forall a :: 0 <= a < k ==> order[a] < k
  {
    if k == 0 then []
    else
      var o := SortOrder(routes, k - 1);
      Inserted(o, Slot(routes, o, k - 1, 0), k - 1)
  }

  function Inserted(o: seq<nat>, p: nat, i: nat): (o': seq<nat>)
    requires p <= |o|
    ensures |o'| == |o| + 1
    ensures forall a :: 0 <= a < |o'| ==> o'[a] == if a < p then o[a] else if a == p then i else o[a - 1]
  {
    o[..p] + [i] + o[p..]
  }

  function NewTable(routes: seq<Route>): (table: seq<Route>)
    ensures |table| == |routes|
  {
    var order := SortOrder(routes, |routes|);
    seq(|routes|, a requires 0 <= a < |routes| => routes[order[a]])
  }

  lemma {:induction false} InsertedLists(o: seq<nat>, p: nat)
    requires Lists(o, |o|) && p <= |o|
    ensures Lists(Inserted(o, p, |o|), |o| + 1)
  {
    var o' := Inserted(o, p, |o|);
    forall i | 0 <= i < |o'|
      ensures i in o'
    {
      if i == |o| {
        assert o'[p] == i;
      } else {
        assert i in o;
        var a :| 0 <= a < |o| && o[a] == i;
        assert o'[if a < p then a else a + 1] == i;
      }
    }
  }

  lemma {:induction false} InsertedInOrder(routes: seq<Route>, o: seq<nat>, i: nat)
    requires InOrder(routes, o) && i < |routes|
    requires forall a :: 0 <= a < |o| ==> o[a] < i
    ensures InOrder(routes, Inserted(o, Slot(routes, o, i, 0), i))
  {
    hide Specificity;
    var p := Slot(routes, o, i, 0);
    var o' := Inserted(o, p, i);
    forall a, b | 0 <= a < b < |o'|
      ensures Before(routes, o'[a], o'[b])
    {
      if b == p {
        KeysCompare(Specificity(routes[i]), Specificity(routes[o[a]]));
      } else if a == p && b - 1 > p {
        assert Before(routes, o[p], o[b - 1]);
      }
    }
  }

  lemma {:induction false} KeysCompare(a: Key, b: Key)
    ensures a == b || Above(a, b) || Above(b, a)
  {
  }

  lemma {:induction false} SortOrderSorts(routes: seq<Route>, k: nat)
    requires k <= |routes|
    ensures Lists(SortOrder(routes, k), k)
    ensures InOrder(routes, SortOrder(routes, k))
  {
    hide InOrder, Inserted, Slot;
    if k == 0 {
      EmptyInOrder(routes);
    } else {
      var o := SortOrder(routes, k - 1);
      SortOrderSorts(routes, k - 1);
      InsertedLists(o, Slot(routes, o, k - 1, 0));
      InsertedInOrder(routes, o, k - 1);
    }
  }

  lemma {:induction false} EmptyInOrder(routes: seq<Route>)
    ensures InOrder(routes, [])
  {
  }

  /** The table is a stable sort of the routes. */
  lemma {:induction false} NewTableSorts(routes: seq<Route>)
    ensures StablySorted(routes, NewTable(routes), SortOrder(routes, |routes|))
  {
    hide Lists, InOrder, SortOrder;
    SortOrderSorts(routes, |routes|);
  }

  /** The first route of the table that matches. */
  function SelectFrom(table: seq<Route>, host: string, path: string, k: nat): (r: Option<Route>)
    requires k <= |table|
    decreases |table| - k
  {
    if k == |table| then None
    else if Matches(table[k], host, path) then Some(table[k])
    else SelectFrom(table, host, path, k + 1)
  }

  function Select(table: seq<Route>, host: string, path: string): Option<Route> {
    SelectFrom(table, host, path, 0)
  }

  lemma {:induction false} SelectFirst(table: seq<Route>, host: string, path: string, k: nat) returns (f: nat)
    requires k <= |table|
    ensures k <= f <= |table|
    ensures forall a :: k <= a < f ==> !Matches(table[a], host, path)
    ensures f < |table| ==> Matches(table[f], host, path) && SelectFrom(table, host, path, k) == Some(table[f])
    ensures f == |table| ==> SelectFrom(table, host, path, k) == None
    decreases |table| - k
  {
    hide Matches;
    f := k;
    if k < |table| && !Matches(table[k], host, path) {
      f := SelectFirst(table, host, path, k + 1);
    }
  }

  /** Position `b` holds the best match: it matches, and every other match is less specific, or
      as specific and later. */
  ghost predicate IsBest(routes: seq<Route>, host: string, path: string, b: nat) {
    && b < |routes| && Matches(routes[b], host, path)
    && forall j :: 0 <= j < |routes| && j != b && Matches(routes[j], host, path) ==> Before(routes, b, j)
  }

  /** First match in the sorted table is best match in the unsorted list. */
  lemma {:induction false} SelectIsBest(routes: seq<Route>, table: seq<Route>, order: seq<nat>, host: string, path: string)
    requires StablySorted(routes, table, order)
    ensures Select(table, host, path).None? <==> forall j :: 0 <= j < |routes| ==> !Matches(routes[j], host, path)
    ensures forall b :: 0 <= b < |routes| && IsBest(routes, host, path, b) ==> Select(table, host, path) == Some(routes[b])
    ensures Select(table, host, path).Some? ==>
      exists b: nat :: IsBest(routes, host, path, b) && Select(table, host, path) == Some(routes[b])
  {
    hide Matches, Specificity;
    var f := SelectFirst(table, host, path, 0);
    if f < |table| {
      var b := order[f];
      forall j | 0 <= j < |routes| && j != b && Matches(routes[j], host, path)
        ensures Before(routes, b, j)
      {
        assert j in order;
        var q :| 0 <= q < |order| && order[q] == j;
      }
      assert IsBest(routes, host, path, b);
    } else {
      forall j | 0 <= j < |routes|
        ensures !Matches(routes[j], host, path)
      {
        assert j in order;
        var q :| 0 <= q < |order| && order[q] == j;
      }
    }
  }
}
