/**
 * The exporter's scrape: Collect runs one worker per configured island
 * (or one implicit worker when no roles are configured), and each worker
 * obtains a client, enumerates clusters and services and emits samples.
 *
 * The AWS side of a tenant is given as a TenantApi value: whether a
 * client could be obtained, the responses of the list calls, the
 * describe calls as functions, and the order in which each cluster's
 * describe batches arrive.
 */
module Exporter {
  import opened EcsTypes
  import opened Paging
  import opened Batching
  import opened Enumerators
  import opened Metrics

  /** The roles configuration: island name to role ARN. */
  type Roles = map<string, string>

  /** One worker's tenant: an island label and the role its client takes on. */
  datatype Tenant = Tenant(island: string, role: string)

  /** The island-to-role map Collect iterates: the configured roles, or the implicit tenant. */
  function Islands(roles: Roles): map<string, string> {
    if |roles| != 0 then roles else map["" := ""]
  }

  /** The tenant of island k. */
  function TenantOf(roles: Roles, k: string): Tenant
    requires k in Islands(roles)
  {
    Tenant(k, Islands(roles)[k])
  }

  /** How a worker obtains its ECS client. */
  datatype ClientKind = Ambient | StsRole(role: string)

  /** worker's choice: the ambient credentials for an empty island and role, else the tenant's role through STS. */
  function ClientFor(t: Tenant): ClientKind {
    if t.role == "" && t.island == "" then Ambient else StsRole(t.role)
  }

  /**
   * Collect always runs at least one worker: exactly one, for the empty
   * island and the empty role, when no roles are configured, and
   * otherwise one per configured island with its configured role.
   */
  lemma TenantsOfConfig(roles: Roles)
    ensures |Islands(roles)| == if |roles| == 0 then 1 else |roles|
    ensures |roles| == 0 ==> forall k :: k in Islands(roles) ==> TenantOf(roles, k) == Tenant("", "")
    ensures |roles| != 0 ==> forall k :: k in Islands(roles) <==> k in roles
    ensures |roles| != 0 ==> forall k :: k in roles ==> TenantOf(roles, k) == Tenant(k, roles[k])
  {
    if |roles| == 0 {
      assert map["" := ""].Keys == {""};
    }
  }

  /**
   * Some worker uses the ambient credentials exactly when no roles are
   * configured or the configuration maps the empty island to the empty
   * role; every other worker uses its tenant's role through STS.
   */
  lemma AmbientClientIff(roles: Roles)
    ensures (exists k :: k in Islands(roles) && ClientFor(TenantOf(roles, k)) == Ambient) <==>
            |roles| == 0 || ("" in roles && roles[""] == "")
    ensures forall k :: k in Islands(roles) && ClientFor(TenantOf(roles, k)) != Ambient ==>
              ClientFor(TenantOf(roles, k)) == StsRole(Islands(roles)[k])
  {
    if |roles| == 0 || ("" in roles && roles[""] == "") {
      assert "" in Islands(roles) && ClientFor(TenantOf(roles, "")) == Ambient;
    }
  }

  /** The AWS side of one tenant, as data. */
  datatype TenantApi = TenantApi(
    acquire: ClientKind -> bool,
    clusterListing: seq<ListResponse>,
    describeClusters: ClusterDescriber,
    serviceListing: string -> seq<ListResponse>,
    describeServices: ServiceDescriber,
    arrival: string -> seq<nat>)

  /** Every list call sequence ends, and every arrival order fits its cluster's batches. */
  ghost predicate Answerable(api: TenantApi) {
    && Terminates(api.clusterListing)
    && forall id :: Terminates(api.serviceListing(id)) && ArrivalFits(api.serviceListing(id), api.arrival(id))
  }

  /** The getServices outcome of every cluster. */
  function FetchedAll(api: TenantApi, cs: seq<Cluster>): (fs: seq<Fetched>)
    requires Answerable(api)
    ensures |fs| == |cs|
  {
    seq(|cs|, i requires 0 <= i < |cs| =>
      Services(cs[i], api.serviceListing(cs[i].id), api.describeServices, api.arrival(cs[i].id)))
  }

  /** What a worker emits for tenant t. */
  function WorkerSamples(region: string, t: Tenant, api: TenantApi): seq<Sample>
    requires Answerable(api)
  {
    var listing := Clusters(api.clusterListing, api.describeClusters);
    TenantSamples(region, t.island, api.acquire(ClientFor(t)), listing,
                  if listing.Success? then FetchedAll(api, listing.value) else [])
  }

  /**
   * worker: obtain the client, list the clusters, emit up and
   * clusters_total, then for each cluster run getServices and emit its
   * samples. A failed cluster listing emits up=0 and ends the worker; a
   * failed getServices skips that cluster only.
   */
  method Worker(region: string, t: Tenant, api: TenantApi) returns (samples: seq<Sample>)
    requires Answerable(api)
    ensures samples == WorkerSamples(region, t, api)
  {
    if !api.acquire(ClientFor(t)) {
      return [];
    }
    var listing := GetClusters(api.clusterListing, api.describeClusters);
    if listing.Failure? {
      return [Sample(Up, [region, t.island], 0)];
    }
    var cs := listing.value;
    ghost var fs := FetchedAll(api, cs);
    var emitted: seq<Sample> := [];
    for i := 0 to |cs|
      invariant emitted == ClustersSamples(region, t.island, cs[..i], fs[..i])
    {
      var out := ClusterTask(region, t.island, cs[i], api);
      assert out == ClusterSamples(region, t.island, cs[i], fs[i]);
      ClustersSamplesSnoc(region, t.island, cs, fs, i);
      emitted := emitted + out;
    }
    assert cs[..|cs|] == cs && fs[..|fs|] == fs;
    samples := [Sample(Up, [region, t.island], 1), Sample(ClustersTotal, [region, t.island], |cs|)] + emitted;
  }

  /**
   * The goroutine a worker starts for one cluster: run getServices, and emit
   * services_total and four samples per service, or nothing on error.
   */
  method ClusterTask(region: string, island: string, c: Cluster, api: TenantApi) returns (out: seq<Sample>)
    requires Answerable(api)
    ensures out == ClusterSamples(region, island, c,
                                  Services(c, api.serviceListing(c.id), api.describeServices, api.arrival(c.id)))
  {
    var fetched, _ := GetServices(c, api.serviceListing(c.id), api.describeServices, api.arrival(c.id));
    if fetched.err.Some? {
      return [];
    }
    out := [ServicesTotalSample(region, island, c, fetched)];
    var services := fetched.services;
    for j := 0 to |services|
      invariant out == [ServicesTotalSample(region, island, c, fetched)]
                       + ServiceSamples(region, island, c.name, services[..j])
    {
      assert services[..j + 1][..j] == services[..j];
      out := out + FourSamples(region, island, c.name, services[j]);
    }
    assert services[..|services|] == services;
  }

  /**
   * One failed describe batch silences its whole cluster: getServices
   * reports an error, and the cluster's task emits neither services_total
   * nor any per-service sample, whatever order the batches arrive in.
   */
  lemma FailedBatchSilencesCluster(region: string, island: string, c: Cluster, listing: seq<ListResponse>,
                                   describe: ServiceDescriber, arrival: seq<nat>, b: seq<Arn>)
    requires Terminates(listing) && ArrivalFits(listing, arrival)
    requires Listed(listing).Success?
    requires b in Blocks(Listed(listing).value, MaxResults) && describe(c.id, b).Failure?
    ensures Services(c, listing, describe, arrival).err.Some?
    ensures ClusterSamples(region, island, c, Services(c, listing, describe, arrival)) == []
  {
    ServicesSucceedIff(c, listing, describe, arrival);
  }

  /** `order` lists each island of the map exactly once: an iteration order of a Go map. */
  ghost predicate IsIterationOrder(order: seq<string>, islands: map<string, string>) {
    && (forall i, j :: 0 <= i < j < |order| ==> order[i] != order[j])
    && (forall k :: k in order <==> k in islands)
  }

  /** What each worker emits, in the order the workers are listed. */
  function WorkersSamples(region: string, roles: Roles, order: seq<string>, apis: string -> TenantApi): seq<seq<Sample>>
    requires forall k :: k in order ==> k in Islands(roles) && Answerable(apis(k))
  {
    seq(|order|, i requires 0 <= i < |order| => WorkerSamples(region, TenantOf(roles, order[i]), apis(order[i])))
  }

  /** What a scrape emits, the workers' samples one worker after another. */
  function CollectSamples(region: string, roles: Roles, order: seq<string>, apis: string -> TenantApi): seq<Sample>
    requires forall k :: k in order ==> k in Islands(roles) && Answerable(apis(k))
  {
    Concat(WorkersSamples(region, roles, order, apis))
  }

  /**
   * Collect: start one worker per island, in the map's iteration order
   * `order`, and gather what they emit. `apis(k)` is island k's AWS side.
   */
  method Collect(region: string, roles: Roles, order: seq<string>, apis: string -> TenantApi)
    returns (samples: seq<Sample>)
    requires IsIterationOrder(order, Islands(roles))
    requires forall k :: Answerable(apis(k))
    ensures samples == CollectSamples(region, roles, order, apis)
  {
    var islands := map["" := ""];
    if |roles| != 0 {
      islands := roles;
    }
    assert islands == Islands(roles);
    samples := [];
    for i := 0 to |order|
      invariant samples == Concat(WorkersSamples(region, roles, order[..i], apis))
    {
      var island := order[i];
      assert island in Islands(roles);
      var role := islands[island];
      assert Tenant(island, role) == TenantOf(roles, island);
      var out := Worker(region, Tenant(island, role), apis(island));
      CollectStep(region, roles, order, apis, i);
      samples := samples + out;
    }
    assert order[..|order|] == order;
  }

  /** The samples of the first i+1 workers: those of the first i, then worker i's. */
  lemma CollectStep(region: string, roles: Roles, order: seq<string>, apis: string -> TenantApi, i: nat)
    requires i < |order|
    requires forall k :: k in order ==> k in Islands(roles) && Answerable(apis(k))
    ensures Concat(WorkersSamples(region, roles, order[..i + 1], apis)) ==
            Concat(WorkersSamples(region, roles, order[..i], apis))
            + WorkerSamples(region, TenantOf(roles, order[i]), apis(order[i]))
  {
    WorkersSamplesSnoc(region, roles, order, apis, i);
    ConcatSnoc(WorkersSamples(region, roles, order[..i], apis),
               WorkerSamples(region, TenantOf(roles, order[i]), apis(order[i])));
  }

  /** One more worker's samples. */
  lemma WorkersSamplesSnoc(region: string, roles: Roles, order: seq<string>, apis: string -> TenantApi, i: nat)
    requires i < |order|
    requires forall k :: k in order ==> k in Islands(roles) && Answerable(apis(k))
    ensures WorkersSamples(region, roles, order[..i + 1], apis) ==
            WorkersSamples(region, roles, order[..i], apis)
            + [WorkerSamples(region, TenantOf(roles, order[i]), apis(order[i]))]
  {
    var longer, shorter := order[..i + 1], order[..i];
    assert forall k :: k in longer ==> k in order;
    assert forall k :: k in shorter ==> k in order;
    var a := WorkersSamples(region, roles, longer, apis);
    var b := WorkersSamples(region, roles, shorter, apis)
             + [WorkerSamples(region, TenantOf(roles, order[i]), apis(order[i]))];
    assert |a| == |b| == i + 1;
    forall j | 0 <= j <= i
      ensures a[j] == b[j]
    {
      assert longer[j] == order[j];
      if j < i {
        assert shorter[j] == order[j];
      }
    }
  }

  /** A scrape emits exactly what the workers of the configured islands emit. */
  lemma CollectMembers(region: string, roles: Roles, order: seq<string>, apis: string -> TenantApi, smp: Sample)
    requires IsIterationOrder(order, Islands(roles))
    requires forall k :: Answerable(apis(k))
    ensures smp in CollectSamples(region, roles, order, apis) <==>
            exists k :: k in Islands(roles) && smp in WorkerSamples(region, TenantOf(roles, k), apis(k))
  {
    var ws := WorkersSamples(region, roles, order, apis);
    ConcatMembers(ws, smp);
    forall k | k in Islands(roles) && smp in WorkerSamples(region, TenantOf(roles, k), apis(k))
      ensures smp in CollectSamples(region, roles, order, apis)
    {
      var i :| 0 <= i < |order| && order[i] == k;
      assert smp in ws[i];
    }
  }

  /**
   * Every island gets an up sample in a scrape exactly when its worker
   * obtained a client: up=1 when its clusters were listed, up=0 when not.
   */
  lemma CollectUpPerIsland(region: string, roles: Roles, order: seq<string>, apis: string -> TenantApi, k: string)
    requires IsIterationOrder(order, Islands(roles))
    requires forall k :: Answerable(apis(k))
    requires k in Islands(roles)
    ensures (exists v :: Sample(Up, [region, k], v) in CollectSamples(region, roles, order, apis)) <==>
            apis(k).acquire(ClientFor(TenantOf(roles, k)))
    ensures apis(k).acquire(ClientFor(TenantOf(roles, k))) ==>
              var listed := Clusters(apis(k).clusterListing, apis(k).describeClusters).Success?;
              Sample(Up, [region, k], if listed then 1 else 0) in CollectSamples(region, roles, order, apis)
    ensures forall v :: Sample(Up, [region, k], v) in CollectSamples(region, roles, order, apis) ==>
              v == (if Clusters(apis(k).clusterListing, apis(k).describeClusters).Success? then 1 else 0)
  {
    var api := apis(k);
    var t := TenantOf(roles, k);
    var listing := Clusters(api.clusterListing, api.describeClusters);
    var fs := if listing.Success? then FetchedAll(api, listing.value) else [];
    TenantSamplesUp(region, k, api.acquire(ClientFor(t)), listing, fs);
    forall v | Sample(Up, [region, k], v) in CollectSamples(region, roles, order, apis)
      ensures api.acquire(ClientFor(t))
      ensures v == (if listing.Success? then 1 else 0)
    {
      UpFromOwnWorker(region, roles, order, apis, k, v);
    }
    if api.acquire(ClientFor(t)) {
      var smp := Sample(Up, [region, k], if listing.Success? then 1 else 0);
      assert smp in WorkerSamples(region, t, api);
      CollectMembers(region, roles, order, apis, smp);
    }
  }

  /**
   * An up sample labelled with island k comes from k's worker, which
   * therefore obtained a client, and its value is the one k's listing decides.
   */
  lemma UpFromOwnWorker(region: string, roles: Roles, order: seq<string>, apis: string -> TenantApi,
                        k: string, v: int)
    requires IsIterationOrder(order, Islands(roles))
    requires forall k :: Answerable(apis(k))
    requires k in Islands(roles)
    requires Sample(Up, [region, k], v) in CollectSamples(region, roles, order, apis)
    ensures apis(k).acquire(ClientFor(TenantOf(roles, k)))
    ensures v == (if Clusters(apis(k).clusterListing, apis(k).describeClusters).Success? then 1 else 0)
  {
    var smp := Sample(Up, [region, k], v);
    CollectMembers(region, roles, order, apis, smp);
    var k' :| k' in Islands(roles) && smp in WorkerSamples(region, TenantOf(roles, k'), apis(k'));
    var api' := apis(k');
    var t' := TenantOf(roles, k');
    var listing' := Clusters(api'.clusterListing, api'.describeClusters);
    var fs' := if listing'.Success? then FetchedAll(api', listing'.value) else [];
    TenantSamplesUp(region, k', api'.acquire(ClientFor(t')), listing', fs');
    assert k' == k;
    TenantUpValue(region, k, api'.acquire(ClientFor(t')), listing', fs', v);
  }
}
