/**
 * The exporter's metrics: the seven descriptors that Describe announces
 * and the samples a tenant's worker emits for what it discovered. A
 * sample is a metric, its label values and an integer value.
 */
module Metrics {
  import opened EcsTypes

  datatype Metric =
    | Up
    | ClustersTotal
    | ServicesTotal
    | ServiceDesiredTasks
    | ServicePendingTasks
    | ServiceRunningTasks
    | ServiceDeployments

  /** A metric descriptor: its name within the "ecs" namespace, help text and label names. */
  datatype Desc = Desc(name: string, help: string, variableLabels: seq<string>)

  /** The package-level descriptor of each metric. */
  function DescOf(m: Metric): Desc {
    match m
    case Up => Desc("up", "Was the last query of ecs successful.", ["region", "island"])
    case ClustersTotal => Desc("clusters_total", "The total number of ecs clusters.", ["region", "island"])
    case ServicesTotal => Desc("services_total", "The total number of services.", ["region", "island", "ecsCluster"])
    case ServiceDesiredTasks =>
      Desc("service_desired_tasks_total", "The number of tasks to have running.",
           ["region", "island", "ecsCluster", "service"])
    case ServicePendingTasks =>
      Desc("service_pending_tasks_total", "The number of tasks that are in the PENDING state.",
           ["region", "island", "ecsCluster", "service"])
    case ServiceRunningTasks =>
      Desc("service_running_tasks_total", "The number of tasks that are in the RUNNING state.",
           ["region", "island", "ecsCluster", "service"])
    case ServiceDeployments =>
      Desc("service_deployments_total", "The number of deployments a service has.",
           ["region", "island", "ecsCluster", "service"])
  }

  /**
   * Exporter.Describe: the descriptors sent to the registry, in a fixed
   * order; every metric is announced, and no descriptor twice.
   */
  function Describe(): (ds: seq<Desc>)
    ensures |ds| == 7
    ensures forall m: Metric :: DescOf(m) in ds
    ensures forall i, j :: 0 <= i < j < |ds| ==> ds[i] != ds[j]
  {
    [DescOf(Up), DescOf(ClustersTotal), DescOf(ServicesTotal), DescOf(ServiceDesiredTasks),
     DescOf(ServicePendingTasks), DescOf(ServiceRunningTasks), DescOf(ServiceDeployments)]
  }

  /** Every descriptor is labelled by region and island first, so every sample names its tenant. */
  lemma DescriptorLabels(m: Metric)
    ensures |DescOf(m).variableLabels| >= 2 && DescOf(m).variableLabels[..2] == ["region", "island"]
  {
  }

  datatype Sample = Sample(metric: Metric, labels: seq<string>, value: int)

  /**
   * MustNewConstMetric panics unless it is given one label value per label
   * name of the descriptor; a sample of the tenant (region, island) also
   * starts with those two label values.
   */
  predicate InScope(smp: Sample, region: string, island: string) {
    && |smp.labels| == |DescOf(smp.metric).variableLabels|
    && |smp.labels| >= 2
    && smp.labels[0] == region
    && smp.labels[1] == island
  }

  /** The four samples of one service, in emission order. */
  function FourSamples(region: string, island: string, clusterName: string, s: Service): seq<Sample> {
    var labels := [region, island, clusterName, s.name];
    [Sample(ServiceDesiredTasks, labels, s.desiredTasks),
     Sample(ServicePendingTasks, labels, s.pendingTasks),
     Sample(ServiceRunningTasks, labels, s.runningTasks),
     Sample(ServiceDeployments, labels, s.deployments)]
  }

  /** The samples of a cluster's services: four per service. */
  function ServiceSamples(region: string, island: string, clusterName: string, services: seq<Service>): (r: seq<Sample>)
    ensures |r| == 4 * |services|
    decreases |services|
  {
    if services == [] then []
    else ServiceSamples(region, island, clusterName, services[..|services| - 1])
         + FourSamples(region, island, clusterName, services[|services| - 1])
  }

  /** services_total for one cluster. */
  function ServicesTotalSample(region: string, island: string, c: Cluster, f: Fetched): Sample {
    Sample(ServicesTotal, [region, island, c.name], |f.services|)
  }

  /** One cluster's task: nothing when getServices failed, else services_total and the per-service samples. */
  function ClusterSamples(region: string, island: string, c: Cluster, f: Fetched): seq<Sample> {
    if f.err.Some? then []
    else [ServicesTotalSample(region, island, c, f)] + ServiceSamples(region, island, c.name, f.services)
  }

  /** The samples of all clusters' tasks, cluster by cluster. */
  function ClustersSamples(region: string, island: string, cs: seq<Cluster>, fs: seq<Fetched>): seq<Sample>
    requires |cs| == |fs|
    decreases |cs|
  {
    if cs == [] then []
    else ClustersSamples(region, island, cs[..|cs| - 1], fs[..|fs| - 1])
         + ClusterSamples(region, island, cs[|cs| - 1], fs[|fs| - 1])
  }

  /** The clusters' samples up to cluster i, then cluster i's. */
  lemma ClustersSamplesSnoc(region: string, island: string, cs: seq<Cluster>, fs: seq<Fetched>, i: nat)
    requires |cs| == |fs| && i < |cs|
    ensures ClustersSamples(region, island, cs[..i + 1], fs[..i + 1]) ==
            ClustersSamples(region, island, cs[..i], fs[..i]) + ClusterSamples(region, island, cs[i], fs[i])
  {
    assert cs[..i + 1][..i] == cs[..i] && fs[..i + 1][..i] == fs[..i];
  }

  /**
   * The samples of one worker, given whether its client was obtained,
   * the outcome of getClusters and each cluster's getServices outcome.
   */
  function TenantSamples(region: string, island: string, acquired: bool,
                         listing: Result<seq<Cluster>>, fs: seq<Fetched>): seq<Sample>
    requires listing.Success? ==> |fs| == |listing.value|
  {
    if !acquired then []
    else if listing.Failure? then [Sample(Up, [region, island], 0)]
    else [Sample(Up, [region, island], 1), Sample(ClustersTotal, [region, island], |listing.value|)]
         + ClustersSamples(region, island, listing.value, fs)
  }

  /** A sample is among a cluster's service samples exactly when it is one of a service's four. */
  lemma {:induction false} ServiceSamplesMembers(region: string, island: string, clusterName: string,
                                                 services: seq<Service>, smp: Sample)
    ensures smp in ServiceSamples(region, island, clusterName, services) <==>
            exists s :: s in services && smp in FourSamples(region, island, clusterName, s)
    decreases |services|
  {
    if services != [] {
      var init, last := services[..|services| - 1], services[|services| - 1];
      ServiceSamplesMembers(region, island, clusterName, init, smp);
      assert services == init + [last];
    }
  }

  /** A sample is among the clusters' samples exactly when one cluster's task emitted it. */
  lemma ClustersSamplesMembers(region: string, island: string, cs: seq<Cluster>, fs: seq<Fetched>, smp: Sample)
    requires |cs| == |fs|
    ensures smp in ClustersSamples(region, island, cs, fs) <==>
            exists i :: 0 <= i < |cs| && smp in ClusterSamples(region, island, cs[i], fs[i])
  {
    if smp in ClustersSamples(region, island, cs, fs) {
      var i := EmittingCluster(region, island, cs, fs, smp);
    } else {
      forall i | 0 <= i < |cs|
        ensures smp !in ClusterSamples(region, island, cs[i], fs[i])
      {
        if smp in ClusterSamples(region, island, cs[i], fs[i]) {
          ClusterSamplesIncluded(region, island, cs, fs, i, smp);
        }
      }
    }
  }

  /** The cluster whose task emitted a sample. */
  lemma {:induction false} EmittingCluster(region: string, island: string, cs: seq<Cluster>, fs: seq<Fetched>,
                                           smp: Sample) returns (i: nat)
    requires |cs| == |fs|
    requires smp in ClustersSamples(region, island, cs, fs)
    ensures i < |cs| && smp in ClusterSamples(region, island, cs[i], fs[i])
    decreases |cs|
  {
    var n := |cs| - 1;
    if smp in ClusterSamples(region, island, cs[n], fs[n]) {
      i := n;
    } else {
      i := EmittingCluster(region, island, cs[..n], fs[..n], smp);
      assert cs[..n][i] == cs[i] && fs[..n][i] == fs[i];
    }
  }

  /** What any cluster's task emits is among the clusters' samples. */
  lemma {:induction false} ClusterSamplesIncluded(region: string, island: string, cs: seq<Cluster>, fs: seq<Fetched>,
                                                  i: nat, smp: Sample)
    requires |cs| == |fs| && i < |cs|
    requires smp in ClusterSamples(region, island, cs[i], fs[i])
    ensures smp in ClustersSamples(region, island, cs, fs)
    decreases |cs|
  {
    var n := |cs| - 1;
    var init := ClustersSamples(region, island, cs[..n], fs[..n]);
    var last := ClusterSamples(region, island, cs[n], fs[n]);
    assert ClustersSamples(region, island, cs, fs) == init + last;
    if i < n {
      assert cs[..n][i] == cs[i] && fs[..n][i] == fs[i];
      ClusterSamplesIncluded(region, island, cs[..n], fs[..n], i, smp);
      assert smp in init;
    } else {
      assert smp in last;
    }
  }

  /** Every sample of a cluster's services is a well-formed per-service sample of the tenant. */
  lemma ServiceSamplesInScope(region: string, island: string, clusterName: string, services: seq<Service>)
    ensures forall smp :: smp in ServiceSamples(region, island, clusterName, services) ==>
              InScope(smp, region, island) && smp.metric != Up && smp.metric != ClustersTotal
  {
    forall smp | smp in ServiceSamples(region, island, clusterName, services)
      ensures InScope(smp, region, island) && smp.metric != Up && smp.metric != ClustersTotal
    {
      ServiceSamplesMembers(region, island, clusterName, services, smp);
      var s :| s in services && smp in FourSamples(region, island, clusterName, s);
      FourSamplesInScope(region, island, clusterName, s, smp);
    }
  }

  /** Each of a service's four samples is a per-service sample of the tenant. */
  lemma FourSamplesInScope(region: string, island: string, clusterName: string, s: Service, smp: Sample)
    requires smp in FourSamples(region, island, clusterName, s)
    ensures InScope(smp, region, island) && smp.metric != Up && smp.metric != ClustersTotal
    ensures smp.labels == [region, island, clusterName, s.name]
  {
  }

  /**
   * The emission shape of a worker whose cluster listing succeeded: up=1,
   * clusters_total, and for each cluster whose services loaded, its
   * services_total and four samples per service; nothing else, and in
   * particular nothing for a cluster whose getServices failed.
   */
  lemma TenantSamplesShape(region: string, island: string, cs: seq<Cluster>, fs: seq<Fetched>, smp: Sample)
    requires |cs| == |fs|
    ensures smp in TenantSamples(region, island, true, Success(cs), fs) <==>
            || smp == Sample(Up, [region, island], 1)
            || smp == Sample(ClustersTotal, [region, island], |cs|)
            || exists i :: 0 <= i < |cs| && fs[i].err.None? &&
                 (|| smp == ServicesTotalSample(region, island, cs[i], fs[i])
                  || exists s :: s in fs[i].services && smp in FourSamples(region, island, cs[i].name, s))
  {
    ClustersSamplesMembers(region, island, cs, fs, smp);
    forall i | 0 <= i < |cs|
      ensures smp in ClusterSamples(region, island, cs[i], fs[i]) <==>
              fs[i].err.None? &&
              (|| smp == ServicesTotalSample(region, island, cs[i], fs[i])
               || exists s :: s in fs[i].services && smp in FourSamples(region, island, cs[i].name, s))
    {
      ServiceSamplesMembers(region, island, cs[i].name, fs[i].services, smp);
    }
  }

  /**
   * up and clusters_total: no sample at all when no client was obtained;
   * up=0 alone when the cluster listing failed; otherwise up=1 and
   * clusters_total first, and neither of them again. Every sample is
   * well-formed for its descriptor and carries the tenant's labels.
   */
  /** A worker's up sample has the one value its cluster listing decides: 1 when listed, 0 when not. */
  lemma TenantUpValue(region: string, island: string, acquired: bool,
                      listing: Result<seq<Cluster>>, fs: seq<Fetched>, v: int)
    requires listing.Success? ==> |fs| == |listing.value|
    requires Sample(Up, [region, island], v) in TenantSamples(region, island, acquired, listing, fs)
    ensures acquired
    ensures v == (if listing.Success? then 1 else 0)
  {
    TenantSamplesUp(region, island, acquired, listing, fs);
    if listing.Success? {
      var samples := TenantSamples(region, island, acquired, listing, fs);
      var i :| 0 <= i < |samples| && samples[i] == Sample(Up, [region, island], v);
      assert i == 0;
    }
  }

  lemma TenantSamplesUp(region: string, island: string, acquired: bool,
                        listing: Result<seq<Cluster>>, fs: seq<Fetched>)
    requires listing.Success? ==> |fs| == |listing.value|
    ensures !acquired ==> TenantSamples(region, island, acquired, listing, fs) == []
    ensures acquired && listing.Failure? ==>
              TenantSamples(region, island, acquired, listing, fs) == [Sample(Up, [region, island], 0)]
    ensures acquired && listing.Success? ==>
              var samples := TenantSamples(region, island, acquired, listing, fs);
              && |samples| >= 2
              && samples[0] == Sample(Up, [region, island], 1)
              && samples[1] == Sample(ClustersTotal, [region, island], |listing.value|)
              && forall i :: 2 <= i < |samples| ==> samples[i].metric != Up && samples[i].metric != ClustersTotal
    ensures forall smp :: smp in TenantSamples(region, island, acquired, listing, fs) ==> InScope(smp, region, island)
  {
    if acquired && listing.Success? {
      var samples := TenantSamples(region, island, acquired, listing, fs);
      forall i | 2 <= i < |samples|
        ensures InScope(samples[i], region, island)
        ensures samples[i].metric != Up && samples[i].metric != ClustersTotal
      {
        assert samples[i] in ClustersSamples(region, island, listing.value, fs);
        ClustersSampleInScope(region, island, listing.value, fs, samples[i]);
      }
    }
  }

  /** Every sample of the clusters' tasks is a per-cluster or per-service sample of the tenant. */
  lemma ClustersSampleInScope(region: string, island: string, cs: seq<Cluster>, fs: seq<Fetched>, smp: Sample)
    requires |cs| == |fs|
    requires smp in ClustersSamples(region, island, cs, fs)
    ensures InScope(smp, region, island) && smp.metric != Up && smp.metric != ClustersTotal
  {
    ClustersSamplesMembers(region, island, cs, fs, smp);
    var k :| 0 <= k < |cs| && smp in ClusterSamples(region, island, cs[k], fs[k]);
    ClusterSampleInScope(region, island, cs[k], fs[k], smp);
  }

  /** Every sample of one cluster's task is a per-cluster or per-service sample of the tenant. */
  lemma ClusterSampleInScope(region: string, island: string, c: Cluster, f: Fetched, smp: Sample)
    requires smp in ClusterSamples(region, island, c, f)
    ensures InScope(smp, region, island) && smp.metric != Up && smp.metric != ClustersTotal
  {
    if smp != ServicesTotalSample(region, island, c, f) {
      ServiceSamplesInScope(region, island, c.name, f.services);
    }
  }
}
