/** The Kubernetes watcher's stores (src/discovery/k8s.rs). */
module Watch {
  import opened Prelude
  import opened Routes
  import opened Tokens

  const ENABLE := "archetype.li/enable"
  const UPSTREAM := "archetype.li/upstream"
  const HOST := "archetype.li/host"
  const PATH_PREFIX := "archetype.li/path-prefix"
  const STRICT := "archetype.li/strict"

  datatype Object = Object(namespace: Option<string>, name: Option<string>, annotations: map<string, string>)

  function RouteFromAnnotations(name: string, a: map<string, string>): Option<Route> {
    if GetBool(a, ENABLE) != Some(true) || UPSTREAM !in a then None
    else
      Some(Route(
             "k8s/" + name,
             Get(a, HOST).GetOr(""),
             Get(a, PATH_PREFIX).GetOr(""),
             a[UPSTREAM],
             GetBool(a, STRICT),
             Discovered
           ))
  }

  /** The annotations that opt an object in. */
  function Annotations(upstream: string, host: Option<string>, pathPrefix: Option<string>, strict: Option<bool>): map<string, string> {
    map["archetype.li/enable" := "true", "archetype.li/upstream" := upstream]
    + (if host.Some? then map["archetype.li/host" := host.value] else map[])
    + (if pathPrefix.Some? then map["archetype.li/path-prefix" := pathPrefix.value] else map[])
    + (if strict.Some? then map["archetype.li/strict" := BoolText(strict.value)] else map[])
  }

  /** A route written as annotations reads back. */
  lemma {:induction false} AnnotationsReadBack(
    name: string, upstream: string, host: Option<string>, pathPrefix: Option<string>, strict: Option<bool>)
    ensures RouteFromAnnotations(name, Annotations(upstream, host, pathPrefix, strict))
            == Some(Route("k8s/" + name, host.GetOr(""), pathPrefix.GetOr(""), upstream, strict, Discovered))
  {
    hide ParseBool;
    BoolReadsBack();
  }

  /** An object gives a route if and only if a true token opts it in and it names an upstream. */
  lemma {:induction false} OptsInExactly(name: string, a: map<string, string>)
    ensures RouteFromAnnotations(name, a).Some?
            <==> "archetype.li/enable" in a && Says(a["archetype.li/enable"], TRUE_TOKENS) && "archetype.li/upstream" in a
  {
    hide Says, ParseBool;
    if "archetype.li/enable" in a {
      ParseBoolMeans(a["archetype.li/enable"]);
    }
  }

  function RouteOf(o: Object): Option<Route> {
    RouteFromAnnotations(o.name.GetOr(""), o.annotations)
  }

  function ObjectKey(o: Object): string {
    o.namespace.GetOr("") + "/" + o.name.GetOr("")
  }

  /** Namespaces without a slash, as the cluster has them, make keys unambiguous. */
  lemma {:induction false} ObjectKeysDistinct(a: Object, b: Object)
    requires '/' !in a.namespace.GetOr("") && '/' !in b.namespace.GetOr("")
    requires ObjectKey(a) == ObjectKey(b)
    ensures a.namespace.GetOr("") == b.namespace.GetOr("")
    ensures a.name.GetOr("") == b.name.GetOr("")
  {
    var s, t := a.namespace.GetOr(""), b.namespace.GetOr("");
    var k := ObjectKey(a);
    assert k[|s|] == '/' && k[|t|] == '/';
    assert forall i :: 0 <= i < |s| ==> k[i] == s[i] && s[i] != '/';
    assert forall i :: 0 <= i < |t| ==> k[i] == t[i] && t[i] != '/';
    assert k[..|s|] == s && k[..|t|] == t;
    assert k[|s| + 1..] == a.name.GetOr("") && k[|t| + 1..] == b.name.GetOr("");
  }

  /** One event of a watch stream. */
  datatype Event = Init | InitApply(o: Object) | InitDone | Apply(o: Object) | Delete(o: Object)

  /** The same for the stores: objects reduced to key and optional route. */
  datatype Op =
    | OpInit
    | OpInitApply(key: string, route: Option<Route>)
    | OpInitDone
    | OpApply(key: string, route: Option<Route>)
    | OpDelete(key: string)

  function ToOp(e: Event): Op {
    match e
    case Init => OpInit
    case InitDone => OpInitDone
    case InitApply(o) => OpInitApply(ObjectKey(o), RouteOf(o))
    case Apply(o) => OpApply(ObjectKey(o), RouteOf(o))
    case Delete(o) => OpDelete(ObjectKey(o))
  }

  type RouteMap = map<string, Route>

  /** A kind's committed routes and the buffer of a listing in progress. */
  datatype Store = Store(committed: RouteMap, buffer: Option<RouteMap>)

  const EMPTY_STORE := Store(map[], None)

  /** The effect of one operation on a store. */
  function Step(s: Store, op: Op): Store {
    match op
    case OpInit => s.(buffer := Some(map[]))
    case OpInitApply(k, r) =>
      if s.buffer.Some? && r.Some? then s.(buffer := Some(s.buffer.value[k := r.value])) else s
    case OpInitDone => Store(s.buffer.GetOr(map[]), None)
    case OpApply(k, r) => s.(committed := if r.Some? then s.committed[k := r.value] else s.committed - {k})
    case OpDelete(k) => s.(committed := s.committed - {k})
  }

  class KindStore {
    var committed: RouteMap
    var buffer: Option<RouteMap>

    ghost function State(): Store
      reads this
    {
      Store(committed, buffer)
    }

    constructor ()
      ensures State() == EMPTY_STORE
    {
      committed, buffer := map[], None;
    }

    /** Apply one operation; the answer is whether the committed routes changed. */
    method Apply(op: Op) returns (changed: bool)
      modifies this
      ensures State() == Step(old(State()), op)
      ensures changed <==> committed != old(committed)
    {
      match op {
        case OpInit =>
          buffer := Some(map[]);
          changed := false;
        case OpInitApply(key, route) =>
          if buffer.Some? && route.Some? {
            buffer := Some(buffer.value[key := route.value]);
          }
          changed := false;
        case OpInitDone =>
          var next := buffer.GetOr(map[]);
          buffer := None;
          changed := next != committed;
          committed := next;
        case OpApply(key, route) =>
          if route.Some? {
            changed := key !in committed || committed[key] != route.value;
            committed := committed[key := route.value];
          } else {
            changed := key in committed;
            committed := committed - {key};
          }
        case OpDelete(key) =>
          changed := key in committed;
          committed := committed - {key};
      }
    }
  }

  // ----- the cluster a watch stream describes

  type Objects = map<string, Object>

  /** The objects known to exist, and those named so far by a listing in progress. */
  datatype View = View(known: Objects, listing: Option<Objects>)

  const EMPTY_VIEW := View(map[], None)

  /** What an event says about the cluster. A listing replaces all that was known once it is
      complete; one that starts over forgets what it had named. */
  function Observe(v: View, e: Event): View {
    match e
    case Init => v.(listing := Some(map[]))
    case InitApply(o) => if v.listing.Some? then v.(listing := Some(v.listing.value[ObjectKey(o) := o])) else v
    case InitDone => if v.listing.Some? then View(v.listing.value, None) else v
    case Apply(o) => v.(known := v.known[ObjectKey(o) := o])
    case Delete(o) => v.(known := v.known - {ObjectKey(o)})
  }

  /** The routes of the opted-in objects. */
  function Image(objects: Objects): RouteMap {
    map k | k in objects && RouteOf(objects[k]).Some? :: RouteOf(objects[k]).value
  }

  /** A listing does not name an object again that it first named opted in and then opted out. */
  predicate Consistent(v: View, e: Event) {
    && (e.InitApply? && v.listing.Some? && ObjectKey(e.o) in v.listing.value ==>
          RouteOf(e.o).Some? || RouteOf(v.listing.value[ObjectKey(e.o)]).None?)
    && (e.InitDone? ==> v.listing.Some?)
  }

  /** The store reflects the view. */
  ghost predicate Reflects(s: Store, v: View) {
    && s.committed == Image(v.known)
    && (s.buffer.Some? <==> v.listing.Some?)
    && (s.buffer.Some? ==> s.buffer.value == Image(v.listing.value))
  }

  lemma {:induction false} ImageAdd(objects: Objects, o: Object)
    requires RouteOf(o).Some?
    ensures Image(objects[ObjectKey(o) := o]) == Image(objects)[ObjectKey(o) := RouteOf(o).value]
  {
    hide RouteOf;
    assert Image(objects[ObjectKey(o) := o]).Keys == Image(objects)[ObjectKey(o) := RouteOf(o).value].Keys;
  }

  lemma {:induction false} ImageDrop(objects: Objects, o: Object)
    requires RouteOf(o).None?
    ensures Image(objects[ObjectKey(o) := o]) == Image(objects) - {ObjectKey(o)}
  {
    hide RouteOf;
    assert Image(objects[ObjectKey(o) := o]).Keys == Image(objects).Keys - {ObjectKey(o)};
  }

  lemma {:induction false} ImageRemove(objects: Objects, k: string)
    ensures Image(objects - {k}) == Image(objects) - {k}
  {
    hide RouteOf;
    assert Image(objects - {k}).Keys == Image(objects).Keys - {k};
  }

  /** One event keeps the store a reflection of the view if and only if it is consistent; the
      one exception is the completion of a listing that never began, which empties the store
      and is harmless only when the view is empty of opted-in objects. */
  lemma {:induction false} StepReflects(s: Store, v: View, e: Event)
    requires Reflects(s, v)
    ensures Consistent(v, e) ==> Reflects(Step(s, ToOp(e)), Observe(v, e))
    ensures !Consistent(v, e) && e.InitApply? ==> !Reflects(Step(s, ToOp(e)), Observe(v, e))
    ensures !Consistent(v, e) && e.InitDone? ==>
      (Reflects(Step(s, ToOp(e)), Observe(v, e)) <==> Image(v.known) == map[])
  {
    hide RouteOf, ObjectKey, Image;
    match e {
      case Init =>
        ImageEmpty();
      case InitDone =>
      case InitApply(o) =>
        if v.listing.Some? {
          InitApplyReflects(s, v, o);
        }
      case Apply(o) =>
        if RouteOf(o).Some? {
          ImageAdd(v.known, o);
        } else {
          ImageDrop(v.known, o);
        }
      case Delete(o) =>
        ImageRemove(v.known, ObjectKey(o));
    }
  }

  lemma {:induction false} ImageEmpty()
    ensures Image(map[]) == map[]
  {
  }

  lemma {:induction false} InitApplyReflects(s: Store, v: View, o: Object)
    requires Reflects(s, v) && v.listing.Some?
    ensures Reflects(Step(s, ToOp(InitApply(o))), Observe(v, InitApply(o))) <==> Consistent(v, InitApply(o))
  {
    hide RouteOf, ObjectKey;
    var was, k := v.listing.value, ObjectKey(o);
    if RouteOf(o).Some? {
      ImageAdd(was, o);
    } else {
      ImageDrop(was, o);
      assert k in Image(was) <==> k in was && RouteOf(was[k]).Some?;
      assert k !in Image(was) ==> Image(was) - {k} == Image(was);
      assert k in Image(was) ==> k !in Image(was) - {k};
    }
  }

  /** The view and the store after the first `k` events. */
  function ViewAfter(events: seq<Event>, k: nat): View
    requires k <= |events|
  {
    if k == 0 then EMPTY_VIEW else Observe(ViewAfter(events, k - 1), events[k - 1])
  }

  function StoreAfter(events: seq<Event>, k: nat): Store
    requires k <= |events|
  {
    if k == 0 then EMPTY_STORE else Step(StoreAfter(events, k - 1), ToOp(events[k - 1]))
  }

  /** A stream of consistent events, with any number of listings, also broken-off ones. */
  ghost predicate WellFormed(events: seq<Event>) {
    forall i :: 0 <= i < |events| ==> Consistent(ViewAfter(events, i), events[i])
  }

  /** At every point of every well-formed stream the committed routes are those of the opted-in
      objects then known. */
  lemma {:induction false} StoreTracksCluster(events: seq<Event>, k: nat)
    requires WellFormed(events) && k <= |events|
    ensures Reflects(StoreAfter(events, k), ViewAfter(events, k))
  {
    hide Reflects, Step, Observe, ToOp, Consistent;
    if k == 0 {
      EmptyReflects();
    } else {
      StoreTracksCluster(events, k - 1);
      StepReflects(StoreAfter(events, k - 1), ViewAfter(events, k - 1), events[k - 1]);
    }
  }

  lemma {:induction false} EmptyReflects()
    ensures Reflects(EMPTY_STORE, EMPTY_VIEW)
  {
    ImageEmpty();
  }

  /** From the start of a listing to its end, only live changes touch the committed routes:
      events `i..k` that belong to a listing leave them at the last committed snapshot. */
  lemma {:induction false} ListingIsInvisible(events: seq<Event>, i: nat, k: nat)
    requires i <= k <= |events|
    requires forall j :: i <= j < k ==> events[j].Init? || events[j].InitApply?
    ensures StoreAfter(events, k).committed == StoreAfter(events, i).committed
    decreases k
  {
    hide RouteOf, ObjectKey;
    if i < k {
      ListingIsInvisible(events, i, k - 1);
    }
  }
}
