# Pipeline statistics store — a Dafny model

This project models the statistics store of codelite7/stats. Data pipelines report counters
(records handled, bytes handled, errors, retries). The store keeps each report as one document
of the `pipeline_stats` collection and answers three requests:

- **ReportPipelineStats** inserts one document. The document carries the reported counters and
  the server's clock reading as its `timestamp`.
- **GetPipelineStats** runs a two-stage aggregation:
  - a `$match` stage keeps the documents inside an inclusive time window, and only those of
    the requested pipelines when `ids` is non-empty. The window is not exactly `[from, to]`.
    The builder prints the bounds into JSON text and decodes that text into a generic map, and
    the decoding turns every number into a float64. So the store applies the window
    `[ToFloat64(from), ToFloat64(to)]`, each bound rounded to the nearest double. Nanosecond
    timestamps of current dates lie above 2^53, where doubles are 256 apart, so the rounding
    is real;
  - a `$group` stage groups the kept documents by `pipeline_id`, sums the four counters and,
    with `includeStats`, also collects the documents themselves.

  A loop then adds every group into the global totals, using Go's wrapping `int64 +=`. The same
  loop stores each group in a map keyed by pipeline id.
- **ClearPipelineStats** deletes the documents of the listed pipelines inside the window. Its
  bounds are rounded to doubles in the same way. Unlike the read filter, the id test is always
  present in the delete filter, so an empty `ids` deletes nothing.

Files:

- `go_int64.dfy` (module `GoInt64`): Go's `int64` as a subset type, and `Wrap`, the
  two's-complement wrap-around of an exact result.
- `go_float64.dfy` (module `GoFloat64`): `ToFloat64`, the double nearest to an integer (ties
  to even), written in integer arithmetic.
- `models.dfy` (module `Models`): the stored document `PipelineStat`, the counters, the
  aggregate row, and the request and response types.
- `grouping.dfy` (module `Grouping`): the meaning of the `$group` stage. `GroupBy` is a left
  fold over the input that finds the document's group or opens a new one. It is proved against
  the reference functions `OfPipeline` (a pipeline's documents, in order) and `SumOf`.
- `queries.dfy` (module `Queries`): the query builders, which produce a typed filter or
  pipeline, together with the meaning of those filters and stages on a sequence of documents.
- `mongodb_store.dfy` (module `Store`): class `MongodbStore` holds the collection as a
  `seq<PipelineStat>`. Its three methods are the three requests. `FoldGroups` is the response
  loop.

## Model

| member | source | states |
|---|---|---|
| GoInt64.WrapIsShift | src/store/mongodb_store/mongodb_store.go:55-58 | An int64 `+=` result differs from the exact sum by whole multiples of 2^64, and an exact sum already in int64 range is kept as it is. |
| GoInt64.WrapOfWrappedSum | src/store/mongodb_store/mongodb_store.go:55-58 | Wrapping after each `+=` gives the same int64 as wrapping the exact total once. |
| GoFloat64.ToFloat64Exact | src/store/mongodb_store/queries/queries.go:75-77 | Decoding keeps every integer of magnitude at most 2^53 exactly. |
| GoFloat64.ToFloat64Monotone | src/store/mongodb_store/queries/queries.go:75-77 | Rounding to a double keeps order: `x <= y` implies `ToFloat64(x) <= ToFloat64(y)`. |
| GoFloat64.ToFloat64Nearest | src/store/mongodb_store/queries/queries.go:75-77 | Decoding gives the nearest double, ties to even. The result is a whole number of spacings (`2^UlpExp(x)`) and at most half a spacing from `x`. No multiple of the spacing is closer. On a tie the number of spacings is even. Negative numbers round symmetrically. |
| GoFloat64.NanosecondTimestampRounds | src/store/mongodb_store/queries/queries.go:29 | Current nanosecond bounds are rounded to the nearest multiple of 256, ties to even: `…001` decodes to `…000`, `…200` to `…256`, `…128` to `…000`, `…384` to `…512` (all after 1700000000000000). |
| Grouping.FindGroup | src/store/mongodb_store/queries/queries.go:48 | The index of the group whose `_id` is the given pipeline id, or -1 exactly when no group has that id. |
| Grouping.AccumulateIsGrouping | src/store/mongodb_store/queries/queries.go:45-62 | Feeding one more document to a correct grouping gives a correct grouping of the longer input: the document's own group gains it, or a new group opens for it. |
| Grouping.GroupByIsGrouping | src/store/mongodb_store/queries/queries.go:45-62 | Grouping makes one group per pipeline id occurring in the input, with distinct keys. Each group's four totals are the sums of exactly that pipeline's documents. Its `stats` are those documents, in collection order, with `$push`, and empty without it. |
| Grouping.GroupBySumsAllRecords | src/store/mongodb_store/queries/queries.go:47-53 | Summed over all groups, the totals equal the sum over every input document: no document is counted twice or lost. |
| Queries.GetPipelineStatsMatchQuery | src/store/mongodb_store/queries/queries.go:26-43 | The timestamp conjunct is always present. The `$in` conjunct is present if and only if `ids` is non-empty. A document matches iff `ToFloat64(from) <= timestamp <= ToFloat64(to)` and (`ids` is empty or its id is in `ids`). |
| Queries.GetClearPipelineStatsQuery | src/store/mongodb_store/queries/queries.go:65-72 | A document matches iff its id is in `ids` and `ToFloat64(from) <= timestamp <= ToFloat64(to)`. With empty `ids`, no document matches. |
| Queries.RunMatchMembers | src/store/mongodb_store/queries/queries.go:26-43 | The `$match` stage keeps exactly the documents that satisfy every conjunct. |
| Queries.RunMatchConcat | src/store/mongodb_store/queries/queries.go:26-43 | The `$match` stage keeps collection order: it filters each part of a concatenation separately. |
| Queries.MatchedOfPipeline | src/store/mongodb_store/queries/queries.go:26-43 | For a pipeline that passes the id test, its matched documents are exactly the ones it reported inside the rounded window `[ToFloat64(from), ToFloat64(to)]`. |
| Queries.GroupStageSemantics | src/store/mongodb_store/queries/queries.go:45-62 | The `$group` stage built for a request groups on `pipeline_id`, sums each pipeline's counters, and carries the documents exactly when `includeStats` is set. |
| Queries.StatsQueryResult | src/store/mongodb_store/queries/queries.go:11-24 | The pipeline's two stages, `$match` then `$group`, yield one group per pipeline that passes the id test and reported in the rounded window, and no other group. Each group is that pipeline's window aggregate: its totals, and, with `includeStats`, a list of exactly the contributing documents (so its length is their number). The groups together sum every matched document. |
| Queries.ReportCountsOnce | test/stats_test.go:192-209 | A new report adds its counters to its own pipeline's window totals exactly once when its timestamp is inside the window. Otherwise, and for every other pipeline, the totals stay as they were. |
| Queries.WindowExclusion | test/stats_test.go:130-156 | A document whose timestamp is outside the rounded window `[ToFloat64(from), ToFloat64(to)]` changes nothing in the query's result, wherever it sits in the collection. |
| Queries.InvertedWindowIsEmpty | src/store/mongodb_store/queries/queries.go:29 | When the rounded bounds are inverted (`ToFloat64(from) > ToFloat64(to)`), the query returns no group. |
| Queries.InvertedNanosecondWindowMatches | src/store/mongodb_store/queries/queries.go:29 | `from > to` alone does not empty the window. With `from` = 1700000000000000001 and `to` = 1700000000000000000, a document stamped 1700000000000000000 matches. |
| Queries.ExactWindowForSmallBounds | src/store/mongodb_store/queries/queries.go:26-43 | With both bounds of magnitude at most 2^53, the read filter is the plain inclusive window `[from, to]`. |
| Store.DeleteManyMembers | src/store/mongodb_store/mongodb_store.go:117-118 | After the bulk delete, a document remains iff it was in the collection and does not match the filter. |
| Store.DeleteManyPartitions | src/store/mongodb_store/mongodb_store.go:117-118 | The kept documents plus the matched documents make up the original collection as a multiset, duplicates included. |
| Store.DeleteManyConcat | src/store/mongodb_store/mongodb_store.go:118 | The bulk delete keeps the order of the remaining documents. |
| Store.DeleteManyIdempotent | src/store/mongodb_store/mongodb_store.go:107-129 | Clearing twice with the same request leaves what clearing once leaves. |
| Store.ClearWithoutIdsKeepsAll | src/store/mongodb_store/queries/queries.go:70 | A clear with no pipeline ids leaves the collection unchanged. |
| Store.ClearThenQueryIsEmpty | test/stats_test.go:212-235 | After a clear, a read of some of the cleared pipelines over part of the cleared window finds no group. |
| Store.WrappedSumIsWrappedTotal | src/store/mongodb_store/mongodb_store.go:54-58 | Accumulating the groups' totals with wrapping `+=` gives the int64 image of the exact element-wise sum over the groups. With no group, the totals are zero. |
| Store.SumEntriesOfListing | src/store/mongodb_store/mongodb_store.go:53-69 | Summing the entries of the response map, in any order, gives the sum over the groups the map was filled from. |
| Store.FoldGroups | src/store/mongodb_store/mongodb_store.go:53-69 | The response loop leaves the wrapped fold of the groups' totals in the totals. The map has one entry per group, under the group's pipeline id, holding that group. |
| Store.MongodbStore.ReportPipelineStats | src/store/mongodb_store/mongodb_store.go:73-105 | The collection gains exactly one document at its end: the request's pipeline id and counters, stamped with the server's clock reading. Nothing else changes. |
| Store.MongodbStore.ClearPipelineStats | src/store/mongodb_store/mongodb_store.go:107-129 | The collection becomes exactly its documents that the delete filter does not match, in their original order. The filter's window is `[ToFloat64(from), ToFloat64(to)]`. |
| Store.MongodbStore.GetPipelineStats | src/store/mongodb_store/mongodb_store.go:27-71 | The totals are the wrapped sum of the map entries and of every matched document. The map has an entry for `p` iff `p` passes the id test and reported in the rounded window, and that entry is `p`'s window aggregate (listed in full below). |

`Store.MongodbStore.GetPipelineStats` states four things:

- The response's totals are the wrapped sum of its map entries.
- They are also the wrapped sum of every document the `$match` stage keeps.
- The map has an entry for pipeline `p` iff `p` passes the id test and reported inside the rounded window `[ToFloat64(from), ToFloat64(to)]`. So when `ids` is non-empty, every key is one of `ids`.
- The entry under `p` is `p`'s window aggregate.

## Left out

- MongoDB sessions, transactions, cursors and the driver are not modelled. Each request is one step on the collection held by `MongodbStore`.
- The store's `Aggregate`, `InsertOne` and `DeleteMany` calls receive `context.Background()`, not the session context, so they run outside the session's transaction. A failure is therefore not rolled back. Treating each request as one atomic step rests on the model being sequential, not on the transaction. Concurrent requests are not modelled.
- Error paths are not modelled: driver errors, the `panic`s they raise, and the recovery that reports them (`sentryutils`, `logrus`). Logging is not modelled.
- The clock `time.Now().UnixNano()` is not modelled; `ReportPipelineStats` takes the reading as its `now` parameter.
- The JSON, `sjson`, `protojson` and BSON encodings are not modelled as text. Their one effect on values is modelled: the window bounds in both filters are decoded as float64, which `ToFloat64` captures. The builders produce the typed filter or stage that results. The copies between the store's rows and the response's rows are taken to preserve every field; the counters travel as decimal strings, which keep int64 values exact.
- The store is taken to compare an int64 timestamp with a double bound by exact numeric value.
- `models.PipelineAggregateStats`, the row type that the store's aggregation results are read into, is not part of this model. Its fields are taken to be the pipeline id, the four totals and the pushed documents.
- The store-assigned `_id` (an ObjectID) of each document is not modelled.
- The `Initialize` connection set-up and the store's other operations (fleet aggregates, time series) are not part of this model.
- Grouping.GroupBy: a group's `$sum` totals are exact integers. The store's promotion of an overflowing sum to a wider type is not modelled; only the response loop's `int64 +=` wraps.
- Grouping.GroupBy: the documents in a group's `stats` are in collection order. `$push` collects them in the order the `$match` stage delivers them. The query has no `$sort`, so the store does not promise that order. Collection order is a modelling choice: the contents and the count of `stats` are what the source promises. The same holds for `IsGroupOf` and `IsWindowAggregate`.
- Grouping.GroupBy: groups are produced in the order of their first document. The store does not fix an order, and the response is a map, so nothing observable depends on it.
- Store.MongodbStore.ClearPipelineStats: a request with no ids deletes nothing. In the service, an empty list arrives as a nil slice, which is marshalled to `null`. The store rejects that filter and the request fails, which also leaves the collection unchanged. The failure itself is not modelled.
