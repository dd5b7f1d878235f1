/**
 * getClusters and getServices: list every ARN, describe them, and build
 * ECSCluster / ECSService records. getServices describes its ARNs in
 * batches of MaxResults, one concurrent task per batch, and joins the
 * results in whatever order they arrive.
 */
module Enumerators {
  import opened EcsTypes
  import opened Paging
  import opened Batching
  import opened Arrival
  import opened Join

  /** maxResults: the page size of the list calls and the size of a describe batch. */
  const MaxResults: nat := 10

  /** DescribeClusters, as a function of the ARNs requested. */
  type ClusterDescriber = seq<Arn> -> Result<seq<ClusterEntry>>

  /** DescribeServices, as a function of the cluster id and the ARNs requested. */
  type ServiceDescriber = (string, seq<Arn>) -> Result<seq<ServiceEntry>>

  /** The ECSCluster built from one described cluster. */
  function ClusterOf(e: ClusterEntry): Cluster {
    Cluster(StringValue(e.clusterArn), StringValue(e.clusterName))
  }

  /** What getClusters returns. */
  function Clusters(listing: seq<ListResponse>, describe: ClusterDescriber): Result<seq<Cluster>>
    requires Terminates(listing)
  {
    match Listed(listing)
    case Failure(e) => Failure(e)
    case Success(arns) =>
      match describe(arns)
      case Failure(e) => Failure(e)
      case Success(entries) => Success(seq(|entries|, i requires 0 <= i < |entries| => ClusterOf(entries[i])))
  }

  /** getClusters: list every cluster ARN, describe them all in one call, and map the entries. */
  method GetClusters(listing: seq<ListResponse>, describe: ClusterDescriber) returns (r: Result<seq<Cluster>>)
    requires Terminates(listing)
    ensures r == Clusters(listing, describe)
  {
    var listed, _ := ListAll(listing);
    if listed.Failure? {
      return Failure(listed.error);
    }
    var resp := describe(listed.value);
    if resp.Failure? {
      return Failure(resp.error);
    }
    var entries := resp.value;
    var clusters: seq<Cluster> := [];
    for i := 0 to |entries|
      invariant clusters == seq(i, j requires 0 <= j < i => ClusterOf(entries[j]))
    {
      clusters := clusters + [ClusterOf(entries[i])];
    }
    return Success(clusters);
  }

  /**
   * getClusters never returns a partial list: it fails exactly when the
   * listing or the describe call fails, and otherwise returns one cluster
   * per described entry, in response order, after describing exactly the
   * listed ARNs.
   */
  lemma ClustersAllOrNothing(listing: seq<ListResponse>, describe: ClusterDescriber)
    requires Terminates(listing)
    ensures Clusters(listing, describe).Failure? <==>
              Listed(listing).Failure? || describe(Listed(listing).value).Failure?
    ensures Listed(listing).Failure? ==> Clusters(listing, describe).error == Listed(listing).error
    ensures Listed(listing).Success? && describe(Listed(listing).value).Failure? ==>
              Clusters(listing, describe).error == describe(Listed(listing).value).error
    ensures Clusters(listing, describe).Success? ==>
              var entries := describe(Listed(listing).value).value;
              var cs := Clusters(listing, describe).value;
              |cs| == |entries| &&
              forall i :: 0 <= i < |cs| ==>
                cs[i].id == StringValue(entries[i].clusterArn) && cs[i].name == StringValue(entries[i].clusterName)
  {
  }

  /** The ECSService built from one described service. */
  function ServiceOf(e: ServiceEntry): Service {
    Service(StringValue(e.serviceArn), StringValue(e.serviceName), |e.deployments|,
            Int64Value(e.desiredCount), Int64Value(e.runningCount), Int64Value(e.pendingCount))
  }

  /** The result a describe task sends for one DescribeServices response. */
  function BatchOf(resp: Result<seq<ServiceEntry>>): BatchResult {
    match resp
    case Failure(e) => BatchFailed(e)
    case Success(entries) => BatchOk(seq(|entries|, i requires 0 <= i < |entries| => ServiceOf(entries[i])))
  }

  /**
   * The body of one describe task: describe one block and map every entry
   * to an ECSService, its deployment count being the number of deployment
   * records and its task counts copied unchanged.
   */
  method DescribeBatch(clusterId: string, block: seq<Arn>, describe: ServiceDescriber) returns (r: BatchResult)
    ensures r == BatchOf(describe(clusterId, block))
    ensures r.BatchOk? <==> describe(clusterId, block).Success?
    ensures r.BatchOk? ==>
              var entries := describe(clusterId, block).value;
              |r.services| == |entries| &&
              forall i :: 0 <= i < |entries| ==>
                && r.services[i].id == StringValue(entries[i].serviceArn)
                && r.services[i].name == StringValue(entries[i].serviceName)
                && r.services[i].deployments == |entries[i].deployments|
                && r.services[i].desiredTasks == Int64Value(entries[i].desiredCount)
                && r.services[i].runningTasks == Int64Value(entries[i].runningCount)
                && r.services[i].pendingTasks == Int64Value(entries[i].pendingCount)
  {
    var resp := describe(clusterId, block);
    if resp.Failure? {
      return BatchFailed(resp.error);
    }
    var entries := resp.value;
    var services: seq<Service> := [];
    for i := 0 to |entries|
      invariant services == seq(i, j requires 0 <= j < i => ServiceOf(entries[j]))
    {
      services := services + [ServiceOf(entries[i])];
    }
    return BatchOk(services);
  }

  /** The results of the describe tasks, in block order. */
  function BatchResults(clusterId: string, blocks: seq<seq<Arn>>, describe: ServiceDescriber): seq<BatchResult> {
    seq(|blocks|, i requires 0 <= i < |blocks| => BatchOf(describe(clusterId, blocks[i])))
  }

  /** `arrival` is an order in which the batches of this listing can arrive. */
  predicate ArrivalFits(listing: seq<ListResponse>, arrival: seq<nat>)
    requires Terminates(listing)
  {
    Listed(listing).Success? ==> IsArrivalOrder(arrival, CeilDiv(|Listed(listing).value|, MaxResults))
  }

  /** What getServices returns when the batch results arrive in the order `arrival`. */
  function Services(cluster: Cluster, listing: seq<ListResponse>, describe: ServiceDescriber, arrival: seq<nat>): Fetched
    requires Terminates(listing) && ArrivalFits(listing, arrival)
  {
    match Listed(listing)
    case Failure(e) => Fetched([], Some(e))
    case Success(arns) =>
      var results := BatchResults(cluster.id, Blocks(arns, MaxResults), describe);
      BlocksCount(arns, MaxResults);
      ArrivalIsPermutation(results, arrival);
      Joined(Pick(results, arrival))
  }

  /**
   * getServices: list every service ARN of the cluster, start one describe
   * task per block, and join their results. `counter` is the number of
   * tasks started.
   */
  method GetServices(cluster: Cluster, listing: seq<ListResponse>, describe: ServiceDescriber, arrival: seq<nat>)
    returns (o: Fetched, counter: nat)
    requires Terminates(listing) && ArrivalFits(listing, arrival)
    ensures o == Services(cluster, listing, describe, arrival)
    ensures counter == if Listed(listing).Success? then CeilDiv(|Listed(listing).value|, MaxResults) else 0
  {
    var listed, _ := ListAll(listing);
    if listed.Failure? {
      return Fetched([], Some(listed.error)), 0;
    }
    var blocks;
    blocks, counter := PartitionBlocks(listed.value, MaxResults);
    var results: seq<BatchResult> := [];
    for i := 0 to |blocks|
      invariant results == BatchResults(cluster.id, blocks, describe)[..i]
    {
      var r := DescribeBatch(cluster.id, blocks[i], describe);
      results := results + [r];
    }
    assert results == BatchResults(cluster.id, blocks, describe);
    ArrivalIsPermutation(results, arrival);
    var arrivals := Pick(results, arrival);
    var received;
    o, received := JoinResults(counter, arrivals);
  }

  /**
   * getServices reports no error exactly when the listing and every
   * batch's describe call succeed; the services it then returns are those
   * of all batches, whatever order they arrived in.
   */
  lemma ServicesSucceedIff(cluster: Cluster, listing: seq<ListResponse>, describe: ServiceDescriber, arrival: seq<nat>)
    requires Terminates(listing) && ArrivalFits(listing, arrival)
    ensures Services(cluster, listing, describe, arrival).err.None? <==>
              && Listed(listing).Success?
              && forall b :: b in Blocks(Listed(listing).value, MaxResults) ==> describe(cluster.id, b).Success?
    ensures Services(cluster, listing, describe, arrival).err.None? ==>
              multiset(Services(cluster, listing, describe, arrival).services) ==
              multiset(Merged(BatchResults(cluster.id, Blocks(Listed(listing).value, MaxResults), describe)))
  {
    if Listed(listing).Success? {
      var blocks := Blocks(Listed(listing).value, MaxResults);
      var results := BatchResults(cluster.id, blocks, describe);
      BlocksCount(Listed(listing).value, MaxResults);
      ArrivalIsPermutation(results, arrival);
      JoinedOrderInsensitive(Pick(results, arrival), results);
      JoinedSucceedsIff(results);
      AllBatchesOk(cluster.id, blocks, describe);
    }
  }

  /** Every describe task succeeds exactly when every block's describe call succeeds. */
  lemma AllBatchesOk(clusterId: string, blocks: seq<seq<Arn>>, describe: ServiceDescriber)
    ensures (forall j :: 0 <= j < |blocks| ==> BatchResults(clusterId, blocks, describe)[j].BatchOk?) <==>
            (forall b :: b in blocks ==> describe(clusterId, b).Success?)
  {
    var results := BatchResults(clusterId, blocks, describe);
    forall b | b in blocks
      ensures (forall j :: 0 <= j < |results| ==> results[j].BatchOk?) ==> describe(clusterId, b).Success?
    {
      var j :| 0 <= j < |blocks| && blocks[j] == b;
      assert results[j] == BatchOf(describe(clusterId, b));
    }
  }

  /**
   * When every batch is described in full (one entry per requested ARN),
   * the merged services are exactly as many as the listed ARNs.
   */
  lemma {:induction false} MergedCoversBlocks(clusterId: string, blocks: seq<seq<Arn>>, describe: ServiceDescriber)
    requires forall b :: b in blocks ==> describe(clusterId, b).Success? && |describe(clusterId, b).value| == |b|
    ensures |Merged(BatchResults(clusterId, blocks, describe))| == |Concat(blocks)|
    decreases |blocks|
  {
    if blocks != [] {
      var results := BatchResults(clusterId, blocks, describe);
      assert results[1..] == BatchResults(clusterId, blocks[1..], describe);
      MergedCoversBlocks(clusterId, blocks[1..], describe);
    }
  }

  /**
   * With every describe call succeeding in full, getServices returns one
   * service per listed ARN, after ceil(K / MaxResults) describe tasks.
   */
  lemma ServicesCount(cluster: Cluster, listing: seq<ListResponse>, describe: ServiceDescriber, arrival: seq<nat>)
    requires Terminates(listing) && ArrivalFits(listing, arrival)
    requires Listed(listing).Success?
    requires forall b :: b in Blocks(Listed(listing).value, MaxResults) ==>
               describe(cluster.id, b).Success? && |describe(cluster.id, b).value| == |b|
    ensures Services(cluster, listing, describe, arrival).err.None?
    ensures |Services(cluster, listing, describe, arrival).services| == |Listed(listing).value|
  {
    var arns := Listed(listing).value;
    var blocks := Blocks(arns, MaxResults);
    ServicesSucceedIff(cluster, listing, describe, arrival);
    MergedCoversBlocks(cluster.id, blocks, describe);
    BlocksCover(arns, MaxResults);
    var o := Services(cluster, listing, describe, arrival);
    assert |o.services| == |multiset(o.services)|;
  }

  /** A cluster with no services starts no describe task and returns no services and no error. */
  lemma NoServicesNoBatches(cluster: Cluster, listing: seq<ListResponse>, describe: ServiceDescriber, arrival: seq<nat>)
    requires Terminates(listing) && ArrivalFits(listing, arrival)
    requires Listed(listing) == Success([])
    ensures arrival == []
    ensures Services(cluster, listing, describe, arrival) == Fetched([], None)
  {
    ArrivalOrderInRange(arrival, 0);
    assert Pick(BatchResults(cluster.id, [], describe), []) == [];
  }
}
