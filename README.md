# ecs-exporter collection pipeline, in Dafny

A model of the scrape path of ecs-exporter, a Prometheus exporter for AWS ECS
(`cmd/ecs-exporter/main.go`). On every scrape, `Collect` starts one worker per
island of the roles configuration, or one implicit worker for the empty island
when no roles are configured. Each worker does the following:

- obtains an ECS client, with the ambient credentials or through an STS role;
- lists and describes the clusters (`getClusters`);
- emits `up` and `clusters_total`;
- for each cluster, lists its services and describes them in batches of
  `maxResults` = 10 (`getServices`);
- emits `services_total` and four per-service samples for every cluster whose
  services loaded.

The remote ECS API is given as data:

- A list operation is a script of responses, one per call. The script holds a
  page of ARNs with its `NextToken`, or an error.
- A describe operation is a function from its request to its response.
- The order in which a cluster's describe batches arrive on the join channel is
  any permutation of the batch indices.

Each loop of the source is a method proved equal to a specification function.
The properties the code promises are lemmas about those functions: coverage and
ordering of the pages, the block arithmetic of the batch loop, the early exit of
the join, independence from arrival order, and the shape of the emitted samples.

Modules:

- `EcsTypes`: API responses, `ECSCluster`, `ECSService`, `ecsResult`.
- `Paging`: the `NextToken` loops.
- `Batching`: the partition of service ARNs into describe blocks.
- `Arrival`: arrival orders.
- `Join`: the join loop.
- `Enumerators`: `getClusters`, `getServices` and the per-service mapping.
- `Metrics`: the descriptors and the sample-emission shape.
- `Exporter`: tenants, the client choice, `worker` and `Collect`.

## Model

| member | source | states |
|---|---|---|
| Paging.ListAll | cmd/ecs-exporter/main.go:208-221 | The listing loop returns `Listed(responses)`. Every request after the first carries the `NextToken` of the page before it. It makes `LastCall + 1` calls. |
| Paging.LastCall | cmd/ecs-exporter/main.go:217-219 | The loop's last call is the first response that is an error or has a nil or empty `NextToken`. No earlier response ends the listing. |
| Paging.ListedFirstPage | cmd/ecs-exporter/main.go:247-260 | Read from the front, a failed first call fails the listing. A last first page is the whole listing. Otherwise the first page's ARNs come before the ARNs of the remaining calls, and a later failure discards them all. |
| Paging.ListedIgnoresLaterResponses | cmd/ecs-exporter/main.go:217-219 | No call is made after the first page whose token is nil or `""`. Later responses never affect the result. |
| Batching.PartitionBlocks | cmd/ecs-exporter/main.go:262-274 | The loop over `i <= len/N`, with its break at `pos >= len` and its clamped `end`, dispatches exactly `Blocks(s, N)`. `counter` equals the number of blocks, which is ceil(K/N). |
| Batching.BlocksCount | cmd/ecs-exporter/main.go:262-266 | There are ceil(K/N) blocks. K = 0 gives none. |
| Batching.BlocksCover | cmd/ecs-exporter/main.go:262-273 | The blocks, concatenated in dispatch order, give back the ARN list. |
| Batching.BlocksSizes | cmd/ecs-exporter/main.go:267-273 | Every block holds between 1 and N ARNs. Every block but the last holds exactly N. |
| Batching.BlockAt | cmd/ecs-exporter/main.go:263-273 | Block i is `serviceArns[i*N : min((i+1)*N, K)]`, and its start `i*N` is below K. |
| Arrival.ArrivalIsPermutation | cmd/ecs-exporter/main.go:298-302 | Whatever order the `counter` results arrive in, each block's result is received exactly once. |
| Join.JoinResults | cmd/ecs-exporter/main.go:300-308 | The join returns `Joined(arrivals)`. It receives all `counter` results when none failed, and otherwise stops right after the first failed one. |
| Join.JoinedSucceedsIff | cmd/ecs-exporter/main.go:303-307 | The join reports no error exactly when every batch succeeded, and then returns all their services in order. A reported error is one of the failed batches' errors. |
| Join.JoinedOrderInsensitive | cmd/ecs-exporter/main.go:300-308 | Any two arrival orders of the same results both succeed or both fail. On success they yield the same services up to order. |
| Join.MergedPermutation | cmd/ecs-exporter/main.go:306 | Appending batch results in any order merges the same multiset of services. |
| Join.FirstFailure | cmd/ecs-exporter/main.go:303-305 | The position where the join stops: every earlier result succeeded, and the one there failed, unless none did. |
| Enumerators.GetClusters | cmd/ecs-exporter/main.go:202-238 | `getClusters` returns `Clusters(listing, describe)`: list every ARN, describe them in one call, and map every entry. |
| Enumerators.ClustersAllOrNothing | cmd/ecs-exporter/main.go:209-237 | `getClusters` fails exactly when the listing or the describe call fails, returning that error. Otherwise it returns one cluster per described entry, in response order, with `aws.StringValue` of its ARN and name. |
| Enumerators.DescribeBatch | cmd/ecs-exporter/main.go:275-297 | A batch task succeeds exactly when its describe call does. It then yields one `ECSService` per entry: `Deployments` is the number of deployment records, the three task counts are copied, and ARN and name are read with nil as `""`. |
| Enumerators.GetServices | cmd/ecs-exporter/main.go:239-309 | `getServices` returns `Services(...)`, the join of the batch results in the given arrival order. It starts ceil(K/10) tasks, or none when the listing fails. |
| Enumerators.ServicesSucceedIff | cmd/ecs-exporter/main.go:239-309 | `getServices` reports no error exactly when the listing and every block's describe call succeed. The services are then, up to order, those of all blocks. |
| Enumerators.AllBatchesOk | cmd/ecs-exporter/main.go:281-297 | Every batch result is a success exactly when every block's describe call succeeds. |
| Enumerators.MergedCoversBlocks | cmd/ecs-exporter/main.go:285-296 | When every describe returns one entry per requested ARN, the merge has one service per ARN of all blocks. |
| Enumerators.ServicesCount | cmd/ecs-exporter/main.go:262-308 | When every describe call returns one entry per requested ARN, `getServices` succeeds with exactly K services. |
| Enumerators.NoServicesNoBatches | cmd/ecs-exporter/main.go:262-266 | A cluster with no services starts no task. It returns an empty service list and no error. |
| Metrics.Describe | cmd/ecs-exporter/main.go:119-127 | `Describe` sends exactly the seven descriptors, one for each of the seven metrics, each once. |
| Metrics.DescriptorLabels | cmd/ecs-exporter/main.go:29-70 | Every descriptor's label names start with `region`, `island`. |
| Metrics.ServiceSamples | cmd/ecs-exporter/main.go:160-165 | Four samples per service. |
| Metrics.ServiceSamplesMembers | cmd/ecs-exporter/main.go:160-165 | A per-service sample is emitted exactly when it is one of the four samples of a returned service. |
| Metrics.ClustersSamplesMembers | cmd/ecs-exporter/main.go:148-165 | A sample comes from the cluster tasks exactly when one cluster's task emitted it. |
| Metrics.FourSamplesInScope | cmd/ecs-exporter/main.go:160-165 | A service's four samples carry region, island, cluster name and service name, one value per label name. |
| Metrics.TenantSamplesShape | cmd/ecs-exporter/main.go:148-165 | With the clusters listed, a worker emits exactly the following: `up=1`, `clusters_total=len(clusters)`, and for each cluster whose services loaded, `services_total` and four samples per service. Nothing is emitted for a cluster whose `getServices` failed. |
| Metrics.TenantSamplesUp | cmd/ecs-exporter/main.go:138-149 | With no client there are no samples at all. A failed cluster listing gives `up=0` alone. Otherwise `up=1` and `clusters_total` come first and never again. Every sample has one value per label name and starts with the tenant's region and island. |
| Metrics.TenantUpValue | cmd/ecs-exporter/main.go:142-148 | Any `up` sample a worker emits for its own island means it obtained a client, and its value is 1 when the clusters were listed and 0 when not. |
| Metrics.ClustersSampleInScope | cmd/ecs-exporter/main.go:150-165 | Every sample of the cluster tasks carries the tenant's labels, and is neither `up` nor `clusters_total`. |
| Exporter.TenantsOfConfig | cmd/ecs-exporter/main.go:171-181 | `Collect` runs at least one worker. With no roles configured it runs exactly one, for island `""` and role `""`. Otherwise it runs one per configured island, with that island's role. |
| Exporter.AmbientClientIff | cmd/ecs-exporter/main.go:133-137 | Some worker uses the ambient credentials exactly when no roles are configured or the empty island maps to the empty role. Every other worker uses its own role through STS. |
| Exporter.Worker | cmd/ecs-exporter/main.go:128-166 | `worker` emits `WorkerSamples`: nothing without a client, `up=0` on a failed cluster listing, else `up=1`, `clusters_total` and every cluster task's samples. |
| Exporter.ClusterTask | cmd/ecs-exporter/main.go:150-164 | A cluster's task emits `services_total` and four samples per service, or nothing when `getServices` failed. |
| Exporter.FailedBatchSilencesCluster | cmd/ecs-exporter/main.go:153-156 | One failed describe batch makes `getServices` fail, whatever the arrival order. The cluster then emits no sample. |
| Exporter.Collect | cmd/ecs-exporter/main.go:170-183 | `Collect` runs one worker per island in the map's iteration order and gathers their samples. |
| Exporter.CollectMembers | cmd/ecs-exporter/main.go:170-183 | A scrape emits exactly what the workers of the islands emit. |
| Exporter.CollectUpPerIsland | cmd/ecs-exporter/main.go:138-148 | An island gets an `up` sample exactly when its worker obtained a client. Its value is 1 when its clusters were listed and 0 when not, and no `up` sample of that island carries any other value. Other islands' failures do not affect it. |

## Left out

- `getSTSClient` and `getClient` (main.go:184-201) call the AWS SDK. Whether a tenant obtains a client is a parameter (`TenantApi.acquire`) of the client kind the worker asks for.
- Goroutines, `sync.WaitGroup` and channels are not modelled.
  - A cluster's describe results arrive in an arbitrary given order (`arrival`).
  - A worker's cluster tasks emit one after another, in cluster order.
  - Workers emit one after another, in the map's iteration order.
  - The real interleavings of samples on the metrics channel are not modelled. The membership lemmas state what is emitted independently of order.
- The join returns at the first failed result, and any describe goroutine still running then blocks forever on the unbuffered channel. This goroutine leak is not modelled.
- The batch goroutine has no `return` after sending an error (main.go:282-285). As written it then reads `resp.Services` from a response that may be nil, depending on the SDK, and sends a second result. The join never receives that second send, since it has already returned at the error, so that goroutine blocks forever; the join's outcome is the one the model computes. The model follows the evidently intended behaviour of exactly one result per block.
- `log.Fatalf` after a failed cluster listing (main.go:145) ends the whole process. It is modelled as the worker returning after `up=0`. Other workers are not stopped in the model.
- Logging (`log.Error`, `log.Debugf`) is not modelled.
- `float64` sample values are integers. `int64` is unbounded: wrap-around of counts above 2^63 is not modelled.
- `prometheus.BuildFQName` is not modelled, and nor is `MustNewConstMetric` beyond the one-value-per-label-name condition (`Metrics.InScope`). Descriptor names are the short names, without the `ecs_` prefix.
- `main` and `init` (main.go:311-354 and 73-76) are not part of this model: flags, YAML decoding, the HTTP server and the logger.
- A list operation is modelled only for servers that eventually answer with a last page or an error (`Paging.Terminates`). A server that returns a non-empty `NextToken` forever makes the source loop forever.
- `getClusters` calls `DescribeClusters` even when the listing returned no ARNs (main.go:226). The model does the same (`Enumerators.Clusters`).
- A listing makes one call per page the server returns, whatever the page sizes. `Paging.ListAll` counts those calls; the number of pages is not tied to the number of ARNs.
