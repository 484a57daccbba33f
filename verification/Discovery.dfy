/** Discovery as a whole: watcher, poller, bounded queue and manager, interleaved in any way
    (src/discovery, and the wiring in src/main.rs). */
module Discovery {
  import opened Prelude
  import opened Ordered
  import opened Routes
  import opened RouteLaws
  import opened Watch
  import opened RouteManagers
  import opened Providers

  const QUEUE_CAPACITY: nat := 16

  /** `services`, `ingresses` and `polled` record what the backends have said so far; the program
      itself does not hold them. */
  datatype System = System(
    watcher: Watcher,
    watching: bool,
    docker: DockerSide,
    queue: seq<Update>,
    provided: Snapshots,
    table: seq<Route>,
    services: View,
    ingresses: View,
    polled: Option<seq<Route>>
  )

  function Start(files: seq<Route>): System {
    System(NEW_WATCHER, true, DockerSide(None, None), [], map[], NewTable(files), EMPTY_VIEW, EMPTY_VIEW, None)
  }

  datatype Action =
    | Watched(kind: Kind, event: Event)
    | WatchFails
    | WatchEnds
    | WatcherSends
    | PollSucceeds(routes: seq<Route>)
    | PollFails
    | PollerSends
    | ManagerReceives

  /** A provider that waits to send does nothing else, and can send only while the queue has
      room. The watch streams are well formed. */
  predicate Enabled(s: System, a: Action) {
    match a
    case Watched(kind, e) =>
      s.watching && s.watcher.pending.None? && Consistent(if kind.Service? then s.services else s.ingresses, e)
    case WatchFails => s.watching && s.watcher.pending.None?
    case WatchEnds => s.watching && s.watcher.pending.None?
    case WatcherSends => s.watcher.pending.Some? && |s.queue| < QUEUE_CAPACITY
    case PollSucceeds(_) => s.docker.pending.None?
    case PollFails => s.docker.pending.None?
    case PollerSends => s.docker.pending.Some? && |s.queue| < QUEUE_CAPACITY
    case ManagerReceives => s.queue != []
  }

  function Next(files: seq<Route>, s: System, a: Action): System
    requires Enabled(s, a)
  {
    match a
    case Watched(kind, e) =>
      s.(watcher := OnOp(s.watcher, kind, ToOp(e)),
         services := if kind.Service? then Observe(s.services, e) else s.services,
         ingresses := if kind.Ingress? then Observe(s.ingresses, e) else s.ingresses)
    case WatchFails => s
    case WatchEnds => s.(watching := false)
    case WatcherSends =>
      s.(queue := s.queue + [Update(KUBERNETES, s.watcher.pending.value)], watcher := Sent(s.watcher))
    case PollSucceeds(routes) =>
      s.(docker := OnPoll(s.docker, routes), polled := Some(routes))
    case PollFails => s
    case PollerSends =>
      s.(queue := s.queue + [Update(DOCKER, s.docker.pending.value)], docker := PollSent(s.docker))
    case ManagerReceives =>
      var provided := s.provided[s.queue[0].provider := s.queue[0].routes];
      s.(queue := s.queue[1..], provided := provided, table := NewTable(Merged(files, provided)))
  }

  // ----- the invariant

  /** The snapshots the manager will hold once the queue has been received. */
  function Upcoming(s: System): Snapshots {
    Applied(s.provided, s.queue, |s.queue|)
  }

  function Entry(p: string, routes: Option<seq<Route>>): Snapshots {
    if routes.Some? then map[p := routes.value] else map[]
  }

  /** The snapshots the providers sent last. */
  function LastSent(s: System): Snapshots {
    Entry(DOCKER, s.docker.last) + Entry(KUBERNETES, s.watcher.lastSent)
  }

  ghost predicate DockerTracks(d: DockerSide, polled: Option<seq<Route>>) {
    if d.pending.Some? then d.pending == polled else d.last == polled
  }

  ghost predicate Inv(files: seq<Route>, s: System) {
    && |s.queue| <= QUEUE_CAPACITY
    && s.table == NewTable(Merged(files, s.provided))
    && Upcoming(s) == LastSent(s)
    && Tracks(s.watcher)
    && DockerTracks(s.docker, s.polled)
    && Reflects(s.watcher.svc, s.services)
    && Reflects(s.watcher.ing, s.ingresses)
  }

  lemma {:induction false} StartInv(files: seq<Route>)
    ensures Inv(files, Start(files))
  {
    EmptyReflects();
    assert Merged(files, map[]) == files;
  }

  lemma {:induction false} AppliedAppend(provided: Snapshots, queue: seq<Update>, u: Update)
    ensures Applied(provided, queue + [u], |queue| + 1) == Applied(provided, queue, |queue|)[u.provider := u.routes]
  {
    AppliedPrefix(provided, queue, [u], |queue|);
  }

  lemma {:induction false} AppliedPrefix(provided: Snapshots, queue: seq<Update>, more: seq<Update>, k: nat)
    requires k <= |queue|
    ensures Applied(provided, queue + more, k) == Applied(provided, queue, k)
  {
    if k > 0 {
      AppliedPrefix(provided, queue, more, k - 1);
    }
  }

  /** Receiving the head of the queue does not change what the whole queue amounts to. */
  lemma {:induction false} AppliedTail(provided: Snapshots, queue: seq<Update>, k: nat)
    requires queue != [] && 1 <= k <= |queue|
    ensures Applied(provided[queue[0].provider := queue[0].routes], queue[1..], k - 1) == Applied(provided, queue, k)
  {
    if k > 1 {
      AppliedTail(provided, queue, k - 1);
    } else {
      assert Applied(provided, queue, 0) == provided;
    }
  }

  /** Every step of every interleaving keeps the invariant. */
  lemma {:induction false} NextInv(files: seq<Route>, s: System, a: Action)
    requires Inv(files, s) && Enabled(s, a)
    ensures Inv(files, Next(files, s, a))
  {
    hide Merged, NewTable, Tracks, Reflects, OnOp, Observe, Consistent, ToOp, Applied;
    match a {
      case Watched(kind, e) => WatchedInv(files, s, kind, e);
      case WatchFails =>
      case WatchEnds =>
      case PollSucceeds(_) =>
      case PollFails =>
      case WatcherSends => WatcherSendsInv(files, s);
      case PollerSends => PollerSendsInv(files, s);
      case ManagerReceives => AppliedTail(s.provided, s.queue, |s.queue|);
    }
  }

  lemma {:induction false} WatcherSendsInv(files: seq<Route>, s: System)
    requires Inv(files, s) && Enabled(s, WatcherSends)
    ensures Inv(files, Next(files, s, WatcherSends))
  {
    hide Merged, NewTable, Tracks, Reflects, Upcoming, LastSent, DockerTracks;
    WatcherSendsUpcoming(files, s);
    SentTracks(s.watcher);
  }

  lemma {:induction false} EntriesUpdate(docker: Option<seq<Route>>, kubernetes: Option<seq<Route>>, routes: seq<Route>)
    ensures var sent := Entry(DOCKER, docker) + Entry(KUBERNETES, kubernetes);
            && sent[KUBERNETES := routes] == Entry(DOCKER, docker) + Entry(KUBERNETES, Some(routes))
            && sent[DOCKER := routes] == Entry(DOCKER, Some(routes)) + Entry(KUBERNETES, kubernetes)
  {
    assert DOCKER != KUBERNETES;
  }

  lemma {:induction false} WatcherSendsUpcoming(files: seq<Route>, s: System)
    requires Upcoming(s) == LastSent(s) && Enabled(s, WatcherSends)
    ensures var t := Next(files, s, WatcherSends); Upcoming(t) == LastSent(t)
  {
    hide Applied, Entry;
    AppliedAppend(s.provided, s.queue, Update(KUBERNETES, s.watcher.pending.value));
    EntriesUpdate(s.docker.last, s.watcher.lastSent, s.watcher.pending.value);
  }

  lemma {:induction false} PollerSendsInv(files: seq<Route>, s: System)
    requires Inv(files, s) && Enabled(s, PollerSends)
    ensures Inv(files, Next(files, s, PollerSends))
  {
    hide Merged, NewTable, Tracks, Reflects, Upcoming, LastSent;
    PollerSendsUpcoming(files, s);
  }

  lemma {:induction false} PollerSendsUpcoming(files: seq<Route>, s: System)
    requires Upcoming(s) == LastSent(s) && Enabled(s, PollerSends)
    ensures var t := Next(files, s, PollerSends); Upcoming(t) == LastSent(t)
  {
    hide Applied, Entry;
    AppliedAppend(s.provided, s.queue, Update(DOCKER, s.docker.pending.value));
    EntriesUpdate(s.docker.last, s.watcher.lastSent, s.docker.pending.value);
  }

  lemma {:induction false} SentTracks(w: Watcher)
    requires Tracks(w) && w.pending.Some?
    ensures Tracks(Sent(w)) && Sent(w).pending.None?
  {
  }

  lemma {:induction false} WatchedInv(files: seq<Route>, s: System, kind: Kind, e: Event)
    requires Inv(files, s) && Enabled(s, Watched(kind, e))
    ensures Inv(files, Next(files, s, Watched(kind, e)))
  {
    hide Merged, NewTable, Snapshot, Reflects, Observe, Consistent, ToOp, Applied, Step;
    OnOpTracks(s.watcher, kind, ToOp(e));
    if kind.Service? {
      StepReflects(s.watcher.svc, s.services, e);
    } else {
      StepReflects(s.watcher.ing, s.ingresses, e);
    }
  }

  // ----- runs

  /** The system after the first `k` actions of a schedule; an action that is not possible when
      its turn comes does not happen. */
  ghost function After(files: seq<Route>, start: System, actions: seq<Action>, k: nat): System
    requires k <= |actions|
  {
    if k == 0 then start
    else
      var s := After(files, start, actions, k - 1);
      if Enabled(s, actions[k - 1]) then Next(files, s, actions[k - 1]) else s
  }

  lemma {:induction false} RunInv(files: seq<Route>, start: System, actions: seq<Action>, k: nat)
    requires k <= |actions|
    requires Inv(files, start)
    ensures Inv(files, After(files, start, actions, k))
  {
    hide Inv, Enabled, Next;
    if k > 0 {
      RunInv(files, start, actions, k - 1);
      var s := After(files, start, actions, k - 1);
      if Enabled(s, actions[k - 1]) {
        NextInv(files, s, actions[k - 1]);
      }
    }
  }

  /** Nothing is on its way. */
  predicate Quiet(s: System) {
    s.queue == [] && s.watcher.pending.None? && s.docker.pending.None?
  }

  /** The routes that should be live: the file's, those of the newest successful Docker poll,
      and those of the opted-in services and ingresses the cluster is known to have. */
  function Desired(files: seq<Route>, s: System): seq<Route> {
    files + s.polled.GetOr([]) + Snapshot(Image(s.services.known), Image(s.ingresses.known))
  }

  /** Whenever nothing is on its way, the live table is the table of the desired routes. */
  lemma {:induction false} QuietIsCurrent(files: seq<Route>, s: System)
    requires Inv(files, s) && Quiet(s)
    ensures s.table == NewTable(Desired(files, s))
  {
    hide NewTable, Image, Merged, Snapshot;
    assert s.provided == LastSent(s);
    MergedTwo(files, s.provided);
    assert DOCKER != KUBERNETES;
    if s.watcher.lastSent.None? {
      EmptySnapshot();
    }
  }

  lemma {:induction false} EmptySnapshot()
    ensures Snapshot(map[], map[]) == []
  {
  }

  /** The same over whole runs from the start, whatever the interleaving. */
  lemma {:induction false} LiveTableConverges(files: seq<Route>, actions: seq<Action>, k: nat)
    requires k <= |actions|
    requires Quiet(After(files, Start(files), actions, k))
    ensures var s := After(files, Start(files), actions, k);
            s.table == NewTable(Desired(files, s))
  {
    hide Inv, Quiet, Desired, Start;
    StartInv(files);
    RunInv(files, Start(files), actions, k);
    QuietIsCurrent(files, After(files, Start(files), actions, k));
  }

  /** The desired routes in terms of the cluster: behind the file's and Docker's, one route for each
      opted-in service and then one for each opted-in ingress. */
  ghost predicate IsDesired(files: seq<Route>, s: System, services: seq<Route>, ingresses: seq<Route>) {
    && s.table == NewTable(files + s.polled.GetOr([]) + services + ingresses)
    && ListsRoutes(services, Image(s.services.known)) && ListsRoutes(ingresses, Image(s.ingresses.known))
  }

  lemma {:induction false} QuietIsDesired(files: seq<Route>, actions: seq<Action>, k: nat) returns (services: seq<Route>, ingresses: seq<Route>)
    requires k <= |actions| && Quiet(After(files, Start(files), actions, k))
    ensures IsDesired(files, After(files, Start(files), actions, k), services, ingresses)
  {
    hide After, Start, Quiet, NewTable, Image, ListsRoutes, Values;
    var s := After(files, Start(files), actions, k);
    LiveTableConverges(files, actions, k);
    services, ingresses := Values(Image(s.services.known)), Values(Image(s.ingresses.known));
    ValuesList(Image(s.services.known));
    ValuesList(Image(s.ingresses.known));
    var first := files + s.polled.GetOr([]);
    assert first + services + ingresses == first + (services + ingresses);
  }

  lemma {:induction false} TableHas(routes: seq<Route>, r: Route)
    ensures r in NewTable(routes) <==> r in routes
  {
    hide NewTable, SortOrder;
    NewTableSorts(routes);
    var order, table := SortOrder(routes, |routes|), NewTable(routes);
    if r in routes {
      var i :| 0 <= i < |routes| && routes[i] == r;
      assert i in order;
      var a :| 0 <= a < |order| && order[a] == i;
      assert table[a] == r;
    }
    if r in table {
      var a :| 0 <= a < |table| && table[a] == r;
    }
  }

  /** In a table, of two equally specific routes the one that came first in the list is first. */
  lemma {:induction false} TableKeepsOrder(first: seq<Route>, second: seq<Route>, x: Route, y: Route) returns (p: nat)
    requires x in first && y !in first && Specificity(x) == Specificity(y)
    ensures var table := NewTable(first + second);
            p < |table| && table[p] == x && forall q :: 0 <= q < |table| && table[q] == y ==> p < q
  {
    hide NewTable, SortOrder, Specificity;
    var routes := first + second;
    NewTableSorts(routes);
    var order, table := SortOrder(routes, |routes|), NewTable(routes);
    var i :| 0 <= i < |first| && first[i] == x;
    assert routes[i] == x && i in order;
    p :| 0 <= p < |order| && order[p] == i;
    forall q | 0 <= q < |table| && table[q] == y
      ensures p < q
    {
      NotAmongFirst(first, second, order[q]);
      FirstStaysFirst(routes, order, p, q);
    }
  }

  lemma {:induction false} NotAmongFirst(first: seq<Route>, second: seq<Route>, j: nat)
    requires j < |first + second| && (first + second)[j] !in first
    ensures |first| <= j
  {
  }

  lemma {:induction false} FirstStaysFirst(routes: seq<Route>, order: seq<nat>, p: nat, q: nat)
    requires InOrder(routes, order) && p < |order| && q < |order|
    requires order[p] < order[q] && Specificity(routes[order[p]]) == Specificity(routes[order[q]])
    ensures p < q
  {
    hide Specificity;
    assert !Before(routes, order[q], order[p]);
  }

  /** In every state of every run with nothing on its way, the table holds one route for each file
      route, each polled route and each opted-in service and ingress, and no other; and of a service
      and an ingress that are equally specific, the service comes first. */
  lemma {:induction false} QuietTableHolds(files: seq<Route>, actions: seq<Action>, k: nat)
    requires k <= |actions| && Quiet(After(files, Start(files), actions, k))
    ensures var s := After(files, Start(files), actions, k);
            var svc, ing, first := Image(s.services.known), Image(s.ingresses.known), files + s.polled.GetOr([]);
            && |s.table| == |files| + |s.polled.GetOr([])| + |svc| + |ing|
            && (forall r :: r in s.table <==> r in first || (exists o :: o in svc && svc[o] == r) || (exists o :: o in ing && ing[o] == r))
            && (forall o, o' :: o in svc && o' in ing && Specificity(svc[o]) == Specificity(ing[o']) ==>
                  ServedBefore(s.table, first, svc, svc[o], ing[o']))
  {
    hide After, Start, Quiet, NewTable, Image, Specificity;
    var s := After(files, Start(files), actions, k);
    var services, ingresses := QuietIsDesired(files, actions, k);
    var svc, ing, first := Image(s.services.known), Image(s.ingresses.known), files + s.polled.GetOr([]);
    TableLength(first + services + ingresses);
    forall r
      ensures r in s.table <==> r in first || r in services || r in ingresses
    {
      TableHas(first + services + ingresses, r);
    }
    forall o, o' | o in svc && o' in ing && Specificity(svc[o]) == Specificity(ing[o'])
      ensures ServedBefore(s.table, first, svc, svc[o], ing[o'])
    {
      if !(ing[o'] in first || exists o :: o in svc && svc[o] == ing[o']) {
        assert ing[o'] !in first + services;
        assert svc[o] in first + services;
        var p := TableKeepsOrder(first + services, ingresses, svc[o], ing[o']);
      }
    }
  }

  /** `x` is in the table before every `y`, unless `y` is also a file or polled route or a service. */
  ghost predicate ServedBefore(table: seq<Route>, first: seq<Route>, svc: RouteMap, x: Route, y: Route) {
    || y in first || (exists o :: o in svc && svc[o] == y)
    || exists p :: 0 <= p < |table| && table[p] == x && forall q :: 0 <= q < |table| && table[q] == y ==> p < q
  }

  /** At every moment of every run, quiet or not, receiving the queue in order will give the
      manager exactly what the providers sent last. */
  lemma {:induction false} QueueCarriesTheDifference(files: seq<Route>, actions: seq<Action>, k: nat)
    requires k <= |actions|
    ensures var s := After(files, Start(files), actions, k);
            && |s.queue| <= 16
            && Upcoming(s) == LastSent(s)
            && s.table == NewTable(Merged(files, s.provided))
  {
    hide NewTable, Merged, Applied;
    StartInv(files);
    RunInv(files, Start(files), actions, k);
  }

  // ----- failures, and the queue

  function Interrupted(actions: seq<Action>, i: nat, failure: Action): seq<Action>
    requires i <= |actions|
  {
    actions[..i] + [failure] + actions[i..]
  }

  lemma {:induction false} AfterPrefix(files: seq<Route>, s: System, a: seq<Action>, b: seq<Action>, k: nat)
    requires k <= |a| && k <= |b| && forall i :: 0 <= i < k ==> a[i] == b[i]
    ensures After(files, s, a, k) == After(files, s, b, k)
  {
    hide Enabled, Next;
    if k > 0 {
      AfterPrefix(files, s, a, b, k - 1);
    }
  }

  /** A watch error or a failed poll, wherever it comes in a run, changes nothing: everything goes on
      as if it had not been. */
  lemma {:induction false} FailureIsInvisible(files: seq<Route>, s: System, actions: seq<Action>, i: nat, failure: Action, k: nat)
    requires i <= k <= |actions| && (failure.WatchFails? || failure.PollFails?)
    ensures After(files, s, Interrupted(actions, i, failure), k + 1) == After(files, s, actions, k)
    decreases k
  {
    var more := Interrupted(actions, i, failure);
    if k == i {
      AfterPrefix(files, s, actions, more, i);
      AfterStep(files, s, more, i);
      hide After, Enabled;
    } else {
      hide Enabled, Next;
      FailureIsInvisible(files, s, actions, i, failure, k - 1);
      AfterStep(files, s, more, k);
      AfterStep(files, s, actions, k - 1);
      assert more[k] == actions[k - 1];
    }
  }

  /** A provider with a snapshot to send waits if and only if sixteen updates are queued. */
  lemma {:induction false} SendsWhileRoom(s: System)
    requires |s.queue| <= 16
    ensures s.watcher.pending.Some? ==> (!Enabled(s, WatcherSends) <==> |s.queue| == 16)
    ensures s.docker.pending.Some? ==> (!Enabled(s, PollerSends) <==> |s.queue| == 16)
  {
  }

  // ----- left to itself

  /** The next send or receive, if any is due. */
  function Due(s: System): Option<Action> {
    if s.queue != [] then Some(ManagerReceives)
    else if s.watcher.pending.Some? then Some(WatcherSends)
    else if s.docker.pending.Some? then Some(PollerSends)
    else None
  }

  /** How many sends and receives are outstanding. */
  function Outstanding(s: System): nat {
    |s.queue| + (if s.watcher.pending.Some? then 2 else 0) + (if s.docker.pending.Some? then 2 else 0)
  }

  predicate IsTransfer(a: Action) {
    a.WatcherSends? || a.PollerSends? || a.ManagerReceives?
  }

  /** Sends and receives only, each possible when its turn comes. */
  ghost predicate Transfers(files: seq<Route>, s: System, schedule: seq<Action>) {
    forall k :: 0 <= k < |schedule| ==> IsTransfer(schedule[k]) && Enabled(After(files, s, schedule, k), schedule[k])
  }

  lemma {:induction false} TransferStep(files: seq<Route>, s: System, a: Action)
    requires Inv(files, s) && IsTransfer(a) && Enabled(s, a)
    ensures var s' := Next(files, s, a);
            Inv(files, s') && Outstanding(s') + 1 == Outstanding(s) && Desired(files, s') == Desired(files, s)
  {
    hide Inv, NewTable, Merged, Snapshot, Image;
    NextInv(files, s, a);
  }

  lemma {:induction false} TransfersCount(files: seq<Route>, s: System, schedule: seq<Action>, k: nat)
    requires Inv(files, s) && Transfers(files, s, schedule) && k <= |schedule|
    ensures var t := After(files, s, schedule, k);
            Inv(files, t) && Outstanding(t) + k == Outstanding(s) && Desired(files, t) == Desired(files, s)
  {
    hide Inv, Next, Enabled, Desired, Outstanding, IsTransfer;
    if k > 0 {
      TransfersCount(files, s, schedule, k - 1);
      TransferStep(files, After(files, s, schedule, k - 1), schedule[k - 1]);
    }
  }

  lemma {:induction false} TransferBound(files: seq<Route>, s: System)
    requires Inv(files, s)
    ensures Outstanding(s) <= QUEUE_CAPACITY + 4
  {
  }

  lemma {:induction false} DueIsPossible(s: System)
    ensures Quiet(s) <==> Outstanding(s) == 0
    ensures !Quiet(s) ==> Due(s).Some? && IsTransfer(Due(s).value) && Enabled(s, Due(s).value)
  {
  }

  /** With no new events the system settles in whatever order the sends and receives happen: no
      schedule of them has more than twenty steps, one is always possible until nothing is on its
      way (a provider waiting for a full queue is never stuck), and then the desired routes are
      served. */
  lemma {:induction false} Settles(files: seq<Route>, s: System, schedule: seq<Action>)
    requires Inv(files, s) && Transfers(files, s, schedule)
    ensures |schedule| <= Outstanding(s) <= 20
    ensures var t := After(files, s, schedule, |schedule|);
            && (Quiet(t) <==> |schedule| == Outstanding(s))
            && (Quiet(t) ==> t.table == NewTable(Desired(files, s)))
            && (!Quiet(t) ==> exists a :: IsTransfer(a) && Enabled(t, a))
  {
    hide Inv, After, Next, Enabled, NewTable, Desired, Outstanding, IsTransfer, Transfers, Quiet, Due;
    var t := After(files, s, schedule, |schedule|);
    TransfersCount(files, s, schedule, |schedule|);
    TransferBound(files, s);
    DueIsPossible(t);
    if Quiet(t) {
      QuietIsCurrent(files, t);
    }
  }

  /** A poll that succeeds gets its routes served, through the queue. */
  lemma {:induction false} PollIsServed(files: seq<Route>, routes: seq<Route>)
    ensures var actions := [PollSucceeds(routes), PollerSends, ManagerReceives];
            var t := After(files, Start(files), actions, 3);
            Quiet(t) && t.table == NewTable(files + routes)
  {
    hide NewTable, Merged, After, Snapshot, Image;
    var actions, s := [PollSucceeds(routes), PollerSends, ManagerReceives], Start(files);
    AfterNone(files, s, actions);
    AfterStep(files, s, actions, 0);
    AfterStep(files, s, actions, 1);
    AfterStep(files, s, actions, 2);
    var t := After(files, s, actions, 3);
    assert t.provided == map[DOCKER := routes];
    MergedTwo(files, t.provided);
    assert DOCKER != KUBERNETES;
    assert files + routes + [] == files + routes;
  }

  // ----- after the watch has ended

  lemma {:induction false} EndedStays(files: seq<Route>, actions: seq<Action>, i: nat, k: nat)
    requires i <= k <= |actions|
    requires !After(files, Start(files), actions, i).watching
    ensures var s, t := After(files, Start(files), actions, i), After(files, Start(files), actions, k);
            !t.watching && t.services == s.services && t.ingresses == s.ingresses
    decreases k
  {
    hide NewTable, Merged, OnOp, Observe, Consistent;
    if i < k {
      EndedStays(files, actions, i, k - 1);
    }
  }

  lemma {:induction false} TableLength(routes: seq<Route>)
    ensures |NewTable(routes)| == |routes|
  {
    hide NewTable, SortOrder;
    NewTableSorts(routes);
  }

  /** When the watch streams have ended, the routes of the objects known then stay live, in every
      later state with nothing on its way. They add nothing if and only if none of those objects
      was opted in; and file routes alone are served, as the log line has it, if and only if
      moreover the newest Docker poll that succeeded gave none. */
  lemma {:induction false} EndedWatchStaysLive(files: seq<Route>, actions: seq<Action>, i: nat, k: nat)
    requires i <= k <= |actions|
    requires !After(files, Start(files), actions, i).watching
    requires Quiet(After(files, Start(files), actions, k))
    ensures var s, t := After(files, Start(files), actions, i), After(files, Start(files), actions, k);
            var polled := t.polled.GetOr([]);
            var svc, ing := Image(s.services.known), Image(s.ingresses.known);
            && t.table == NewTable(files + polled + Snapshot(svc, ing))
            && (t.table == NewTable(files + polled) <==> svc == map[] && ing == map[])
            && (t.table == NewTable(files) <==> svc == map[] && ing == map[] && polled == [])
  {
    hide After, Start, Quiet, NewTable, Image;
    LiveTableConverges(files, actions, k);
    EndedStays(files, actions, i, k);
    var s, t := After(files, Start(files), actions, i), After(files, Start(files), actions, k);
    var polled := t.polled.GetOr([]);
    var kept := Snapshot(Image(s.services.known), Image(s.ingresses.known));
    TableLength(files + polled + kept);
    TableLength(files + polled);
    TableLength(files);
    if kept == [] {
      assert files + polled + kept == files + polled;
    }
    if polled == [] {
      assert files + polled == files;
    }
  }

  /** A run in which the line is wrong: one opted-in service, then the end of the watch. */
  lemma {:induction false} EndedWatchServesMore(files: seq<Route>, o: Object)
    requires RouteOf(o).Some?
    ensures var actions := [Watched(Service, Apply(o)), WatcherSends, ManagerReceives, WatchEnds];
            var t := After(files, Start(files), actions, 4);
            !t.watching && Quiet(t) && t.table != NewTable(files)
  {
    hide NewTable, RouteOf, Merged;
    var actions := [Watched(Service, Apply(o)), WatcherSends, ManagerReceives, WatchEnds];
    OneServiceSent(files, o, actions);
    var t := After(files, Start(files), actions, 4);
    hide After, Start, Image;
    EndedWatchStaysLive(files, actions, 4, 4);
    KnownImage(o);
  }

  lemma {:induction false} KnownImage(o: Object)
    requires RouteOf(o).Some?
    ensures Image(map[ObjectKey(o) := o]) != map[]
  {
    hide RouteOf;
    assert ObjectKey(o) in Image(map[ObjectKey(o) := o]);
  }

  lemma {:induction false} AfterStep(files: seq<Route>, start: System, actions: seq<Action>, k: nat)
    requires k < |actions|
    ensures var s := After(files, start, actions, k);
            After(files, start, actions, k + 1) == if Enabled(s, actions[k]) then Next(files, s, actions[k]) else s
  {
    hide Enabled, Next;
  }

  lemma {:induction false} OneServiceSent(files: seq<Route>, o: Object, actions: seq<Action>)
    requires RouteOf(o).Some?
    requires actions == [Watched(Service, Apply(o)), WatcherSends, ManagerReceives, WatchEnds]
    ensures var t := After(files, Start(files), actions, 4);
            !t.watching && Quiet(t) && t.services.known == map[ObjectKey(o) := o]
  {
    hide NewTable, RouteOf, Merged, After, Snapshot;
    var s := Start(files);
    assert After(files, s, actions, 0) == s by {
      AfterNone(files, s, actions);
    }
    AfterStep(files, s, actions, 0);
    AfterStep(files, s, actions, 1);
    AfterStep(files, s, actions, 2);
    AfterStep(files, s, actions, 3);
    var w := OnOp(NEW_WATCHER, Service, ToOp(Apply(o)));
    assert ObjectKey(o) in w.svc.committed;
    assert w.pending.Some?;
    var s1 := After(files, s, actions, 1);
    assert s1.watcher == w && s1.queue == [] && s1.watching;
    assert s1.services.known == map[ObjectKey(o) := o];
    var s2 := After(files, s, actions, 2);
    assert |s2.queue| == 1 && s2.watcher.pending.None?;
    var s3 := After(files, s, actions, 3);
    assert s3.queue == [];
  }

  lemma {:induction false} AfterNone(files: seq<Route>, s: System, actions: seq<Action>)
    ensures After(files, s, actions, 0) == s
  {
  }

  // ----- what a request gets meanwhile

  lemma {:induction false} ConcatHas(parts: seq<seq<Route>>, k: nat, i: nat, r: Route)
    requires i < k <= |parts| && r in parts[i]
    ensures r in Concat(parts, k)
  {
    if i < k - 1 {
      ConcatHas(parts, k - 1, i, r);
    }
  }

  lemma {:induction false} MergedHas(files: seq<Route>, provided: Snapshots, p: string, r: Route)
    requires p in provided && r in provided[p]
    ensures r in Merged(files, provided)
  {
    hide Ascending, Concat;
    var ks := Ascending(provided.Keys);
    assert p in ks;
    var i :| 0 <= i < |ks| && ks[i] == p;
    ConcatHas(Values(provided), |provided|, i, r);
  }

  /** In every state of every run, a request that a file route matches gets a route at least as
      specific. */
  lemma {:induction false} FileRoutesAlwaysServe(files: seq<Route>, actions: seq<Action>, k: nat, i: nat, host: string, path: string)
    requires k <= |actions|
    requires i < |files| && Matches(files[i], host, path)
    ensures var answer := Select(After(files, Start(files), actions, k).table, host, path);
            answer.Some? && AtLeast(Specificity(answer.value), Specificity(files[i]))
  {
    hide Matches, NewTable, Concat, After, Specificity, Applied;
    QueueCarriesTheDifference(files, actions, k);
    var s := After(files, Start(files), actions, k);
    var all := Merged(files, s.provided);
    assert all[i] == files[i];
    MatchedGetsAsSpecific(all, host, path, i);
  }

  /** In every state of every run, a file route with the host and prefix of a discovered route
      the manager holds is never selected. */
  lemma {:induction false} DiscoveredOverridesFile(
    files: seq<Route>, actions: seq<Action>, k: nat, i: nat, p: string, r: Route, host: string, path: string)
    requires k <= |actions|
    requires i < |files| && files[i].source in {File, Default}
    requires var s := After(files, Start(files), actions, k); p in s.provided && r in s.provided[p]
    requires r.source in {Discovered, Env, Cli}
    requires EqIgnoreCase(files[i].host, r.host) && files[i].pathPrefix == r.pathPrefix
    ensures Select(After(files, Start(files), actions, k).table, host, path) != Some(files[i])
  {
    hide NewTable, Concat, After, EqIgnoreCase, Applied;
    QueueCarriesTheDifference(files, actions, k);
    var s := After(files, Start(files), actions, k);
    var all := Merged(files, s.provided);
    assert all[i] == files[i];
    MergedHas(files, s.provided, p, r);
    var j :| 0 <= j < |all| && all[j] == r;
    OverriddenNeverSelected(all, host, path, i, j);
  }
}
