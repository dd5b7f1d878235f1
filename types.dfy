/**
 * The values that flow through the exporter's collection pipeline
 * (cmd/ecs-exporter/main.go): what the ECS API answers, the ECSCluster
 * and ECSService records built from it, and the per-batch results that
 * the service enumerator joins.
 */
module EcsTypes {

  datatype Option<+T> = None | Some(value: T)

  /** An error returned by a call to the remote API; its content is opaque. */
  datatype ApiError = ApiError(message: string)

  /** A call that either returns a value or fails with an error. */
  datatype Result<+T> = Success(value: T) | Failure(error: ApiError)

  type Arn = string

  /** A `*string` of the AWS SDK: nil or a string. */
  type StringPtr = Option<string>

  /** A `*int64` of the AWS SDK: nil or a number. */
  type Int64Ptr = Option<int>

  /** aws.StringValue: the pointed-to string, or "" for nil. */
  function StringValue(p: StringPtr): string {
    if p.Some? then p.value else ""
  }

  /** aws.Int64Value: the pointed-to number, or 0 for nil. */
  function Int64Value(p: Int64Ptr): int {
    if p.Some? then p.value else 0
  }

  /** ECSCluster: the exporter's record of one described cluster. */
  datatype Cluster = Cluster(id: string, name: string)

  /** ECSService: the exporter's record of one described service. */
  datatype Service = Service(
    id: string,
    name: string,
    deployments: int,
    desiredTasks: int,
    runningTasks: int,
    pendingTasks: int)

  /** One response of ListClusters or ListServices: a page of ARNs and the cursor for the next call. */
  datatype ListResponse =
    | ListPage(arns: seq<Arn>, nextToken: StringPtr)
    | ListError(error: ApiError)

  /** One entry of a DescribeClusters response. */
  datatype ClusterEntry = ClusterEntry(clusterArn: StringPtr, clusterName: StringPtr)

  /** One deployment record of a described service; only their number matters. */
  datatype Deployment = Deployment(id: StringPtr)

  /** One entry of a DescribeServices response. */
  datatype ServiceEntry = ServiceEntry(
    serviceArn: StringPtr,
    serviceName: StringPtr,
    desiredCount: Int64Ptr,
    runningCount: Int64Ptr,
    pendingCount: Int64Ptr,
    deployments: seq<Deployment>)

  /** ecsResult: what one describe-services task sends on the join channel. */
  datatype BatchResult =
    | BatchOk(services: seq<Service>)
    | BatchFailed(error: ApiError)

  /**
   * What getServices returns: the services merged so far and, when a call
   * failed, the error (the services are then partial and are not published).
   */
  datatype Fetched = Fetched(services: seq<Service>, err: Option<ApiError>)
}
