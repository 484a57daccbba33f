/** The owner of the live route table (src/discovery/mod.rs). */
module RouteManagers {
  import opened Ordered
  import opened Routes

  /** A provider's complete current set of routes. */
  datatype Update = Update(provider: string, routes: seq<Route>)

  type Snapshots = map<string, seq<Route>>

  /** Concatenation of the first `k` of `parts`. */
  function Concat(parts: seq<seq<Route>>, k: nat): seq<Route>
    requires k <= |parts|
  {
    if k == 0 then [] else Concat(parts, k - 1) + parts[k - 1]
  }

  /** File routes, then each provider's snapshot by provider name. */
  function Merged(files: seq<Route>, provided: Snapshots): seq<Route> {
    files + Concat(Values(provided), |provided|)
  }

  /** The snapshots after the first `k` updates. */
  function Applied(provided: Snapshots, updates: seq<Update>, k: nat): Snapshots
    requires k <= |updates|
  {
    if k == 0 then provided
    else Applied(provided, updates, k - 1)[updates[k - 1].provider := updates[k - 1].routes]
  }

  class RouteManager {
    const fileRoutes: seq<Route>
    var providerRoutes: Snapshots
    var table: seq<Route>

    /** The table readers see is the one of the routes held. */
    ghost predicate Valid()
      reads this
    {
      table == NewTable(Merged(fileRoutes, providerRoutes))
    }

    constructor (files: seq<Route>)
      ensures Valid()
      ensures fileRoutes == files && providerRoutes == map[]
    {
      fileRoutes, providerRoutes, table := files, map[], NewTable(files);
      new;
      assert Merged(files, map[]) == files;
    }

    method Recompute()
      modifies this`table
      ensures Valid()
    {
      var all := fileRoutes;
      var parts := Values(providerRoutes);
      for i := 0 to |parts|
        invariant all == fileRoutes + Concat(parts, i)
      {
        all := all + parts[i];
      }
      table := NewTable(all);
    }

    /** Consume updates until the senders are gone. */
    method Run(updates: seq<Update>)
      requires Valid()
      modifies this
      ensures Valid()
      ensures providerRoutes == Applied(old(providerRoutes), updates, |updates|)
    {
      for i := 0 to |updates|
        invariant Valid()
        invariant providerRoutes == Applied(old(providerRoutes), updates, i)
      {
        providerRoutes := providerRoutes[updates[i].provider := updates[i].routes];
        Recompute();
      }
    }
  }

  const DOCKER := "docker"
  const KUBERNETES := "kubernetes"

  function SnapshotOf(provided: Snapshots, p: string): seq<Route> {
    if p in provided then provided[p] else []
  }

  /** With the two providers there are, Docker's routes come before Kubernetes'. */
  lemma {:induction false} MergedTwo(files: seq<Route>, provided: Snapshots)
    requires provided.Keys <= {DOCKER, KUBERNETES}
    ensures Merged(files, provided) == files + SnapshotOf(provided, DOCKER) + SnapshotOf(provided, KUBERNETES)
  {
    hide Ascending, Concat;
    DockerFirst();
    ConcatShort(Values(provided));
    if DOCKER in provided {
      AscendingFrom(provided.Keys, DOCKER);
      if KUBERNETES in provided {
        AscendingFrom(provided.Keys - {DOCKER}, KUBERNETES);
        AscendingNone(provided.Keys - {DOCKER} - {KUBERNETES});
        assert files + (provided[DOCKER] + provided[KUBERNETES]) == files + provided[DOCKER] + provided[KUBERNETES];
      } else {
        AscendingNone(provided.Keys - {DOCKER});
      }
    } else if KUBERNETES in provided {
      AscendingFrom(provided.Keys, KUBERNETES);
      AscendingNone(provided.Keys - {KUBERNETES});
      assert files + [] == files;
    } else {
      assert provided == map[];
    }
  }

  lemma {:induction false} ConcatShort(parts: seq<seq<Route>>)
    ensures Concat(parts, 0) == []
    ensures |parts| >= 1 ==> Concat(parts, 1) == parts[0]
    ensures |parts| >= 2 ==> Concat(parts, 2) == parts[0] + parts[1]
  {
  }

  lemma {:induction false} AscendingFrom(keys: set<string>, m: string)
    requires IsLeast(m, keys)
    ensures Ascending(keys) == [m] + Ascending(keys - {m})
  {
    LeastUnique(m, Least(keys), keys);
  }

  lemma {:induction false} AscendingNone(keys: set<string>)
    requires keys == {}
    ensures Ascending(keys) == []
  {
  }

  lemma {:induction false} DockerFirst()
    ensures Less(DOCKER, KUBERNETES) && !Less(KUBERNETES, DOCKER)
  {
    assert DOCKER[0] == 'd' && KUBERNETES[0] == 'k';
  }
}
