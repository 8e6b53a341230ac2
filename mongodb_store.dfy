/** The `pipeline_stats` collection and the three store operations on it: report one record,
    read the grouped statistics, and clear the records that match a delete filter. The model is
    sequential: each operation is one step on the collection, with no other request interleaved.
    (The store's database calls are not bound to the session's transaction, so no transaction
    makes them atomic.) */
module Store {
  import opened GoInt64
  import opened GoFloat64
  import opened Models
  import opened Grouping
  import opened Queries

  /** `DeleteMany`: the records that do not match `f`, in collection order. */
  function DeleteMany(rs: seq<PipelineStat>, f: Filter): seq<PipelineStat>
    decreases |rs|
  {
    if |rs| == 0 then [] else DeleteMany(rs[..|rs| - 1], f) + (if Matches(f, rs[|rs| - 1]) then [] else [rs[|rs| - 1]])
  }

  /** DeleteMany keeps exactly the records that do not match. */
  lemma {:induction false} DeleteManyMembers(rs: seq<PipelineStat>, f: Filter)
    ensures forall r :: r in DeleteMany(rs, f) <==> r in rs && !Matches(f, r)
    decreases |rs|
  {
    if |rs| > 0 {
      var init := rs[..|rs| - 1];
      DeleteManyMembers(init, f);
      assert rs == init + [rs[|rs| - 1]];
    }
  }

  /** Nothing is lost but the matching records: what is kept and what the filter matches together
      make up the collection, copies included. */
  lemma {:induction false} DeleteManyPartitions(rs: seq<PipelineStat>, f: Filter)
    ensures multiset(rs) == multiset(DeleteMany(rs, f)) + multiset(RunMatch(f, rs))
    decreases |rs|
  {
    if |rs| > 0 {
      DeleteManyPartitions(rs[..|rs| - 1], f);
      PartitionStep(rs, f);
    }
  }

  lemma {:induction false} PartitionStep(rs: seq<PipelineStat>, f: Filter)
    requires |rs| > 0
    requires var init := rs[..|rs| - 1];
      multiset(init) == multiset(DeleteMany(init, f)) + multiset(RunMatch(f, init))
    ensures multiset(rs) == multiset(DeleteMany(rs, f)) + multiset(RunMatch(f, rs))
  {
    var init, last := rs[..|rs| - 1], rs[|rs| - 1];
    assert rs == init + [last];
    if Matches(f, last) {
      assert DeleteMany(rs, f) == DeleteMany(init, f) + [];
      assert RunMatch(f, rs) == RunMatch(f, init) + [last];
      MultisetSnoc(init, DeleteMany(init, f), RunMatch(f, init), last);
    } else {
      assert DeleteMany(rs, f) == DeleteMany(init, f) + [last];
      assert RunMatch(f, rs) == RunMatch(f, init) + [];
      MultisetSnoc(init, RunMatch(f, init), DeleteMany(init, f), last);
    }
  }

  /** Appending `x` to one side of a split multiset. */
  lemma {:induction false} MultisetSnoc(a: seq<PipelineStat>, b: seq<PipelineStat>, c: seq<PipelineStat>, x: PipelineStat)
    requires multiset(a) == multiset(b) + multiset(c)
    ensures multiset(a + [x]) == multiset(b + []) + multiset(c + [x])
    ensures multiset(a + [x]) == multiset(c + [x]) + multiset(b + [])
  {
    assert b + [] == b;
  }

  /** DeleteMany keeps the order of the collection: it filters each part of a concatenation alone. */
  lemma {:induction false} DeleteManyConcat(a: seq<PipelineStat>, b: seq<PipelineStat>, f: Filter)
    ensures DeleteMany(a + b, f) == DeleteMany(a, f) + DeleteMany(b, f)
    decreases |b|
  {
    if |b| == 0 {
      assert a + b == a;
    } else {
      var init := b[..|b| - 1];
      DeleteManyConcat(a, init, f);
      assert (a + b)[..|a + b| - 1] == a + init;
    }
  }

  /** Clearing twice with the same filter removes nothing the second time. */
  lemma {:induction false} DeleteManyIdempotent(rs: seq<PipelineStat>, f: Filter)
    ensures DeleteMany(DeleteMany(rs, f), f) == DeleteMany(rs, f)
    decreases |rs|
  {
    if |rs| > 0 {
      var init, last := rs[..|rs| - 1], rs[|rs| - 1];
      DeleteManyIdempotent(init, f);
      var kept := DeleteMany(init, f);
      var tail := if Matches(f, last) then [] else [last];
      DeleteManyConcat(kept, tail, f);
      if !Matches(f, last) {
        assert DeleteMany([last], f) == [last] by { assert [last][..0] == []; }
      }
    }
  }

  /** A clear with no pipeline ids deletes nothing. */
  lemma {:induction false} ClearWithoutIdsKeepsAll(rs: seq<PipelineStat>, from: Int64, to: Int64)
    ensures DeleteMany(rs, GetClearPipelineStatsQuery([], from, to)) == rs
    decreases |rs|
  {
    if |rs| > 0 {
      ClearWithoutIdsKeepsAll(rs[..|rs| - 1], from, to);
    }
  }

  /** After a clear, a read of some of the cleared pipelines over part of the cleared window finds
      no group. */
  lemma ClearThenQueryIsEmpty(rs: seq<PipelineStat>, ids: seq<string>, from: Int64, to: Int64,
                               readIds: seq<string>, readFrom: Int64, readTo: Int64, includeStats: bool)
    requires |readIds| > 0 && forall p :: p in readIds ==> p in ids
    requires from <= readFrom && readTo <= to
    ensures RunPipeline(GetPipelineStatsQuery(readIds, readFrom, readTo, includeStats),
                        DeleteMany(rs, GetClearPipelineStatsQuery(ids, from, to))) == []
  {
    ToFloat64Monotone(from, readFrom);
    ToFloat64Monotone(readTo, to);
    var kept := DeleteMany(rs, GetClearPipelineStatsQuery(ids, from, to));
    DeleteManyMembers(rs, GetClearPipelineStatsQuery(ids, from, to));
    RunMatchNone(GetPipelineStatsMatchQuery(readIds, readFrom, readTo), kept);
  }

  /** Total of the per-pipeline entries of a response map, in no particular order. */
  ghost function SumEntries(m: map<string, PipelineAggregateStats>): Counters
    decreases |m|
  {
    if |m| == 0 then NoCounts
    else
      var k := PickKey(m);
      SumEntries(m - {k}).Plus(m[k].totals)
  }

  ghost function PickKey(m: map<string, PipelineAggregateStats>): (k: string)
    requires |m| > 0
    ensures k in m
  {
    var k :| k in m; k
  }

  /** `gs` lists the entries of `m`, each once. */
  ghost predicate Lists(gs: seq<PipelineAggregateStats>, m: map<string, PipelineAggregateStats>)
  {
    && DistinctKeys(gs)
    && m.Keys == KeySet(gs)
    && forall i :: 0 <= i < |gs| ==> gs[i].pipelineId in m && m[gs[i].pipelineId] == gs[i]
  }

  lemma {:induction false} SumGroupsRemoveAt(gs: seq<PipelineAggregateStats>, i: nat)
    requires i < |gs|
    ensures SumGroups(gs) == SumGroups(gs[..i] + gs[i + 1..]).Plus(gs[i].totals)
    decreases |gs|
  {
    var n := |gs|;
    if i < n - 1 {
      var init := gs[..n - 1];
      SumGroupsRemoveAt(init, i);
      assert gs[..i] + gs[i + 1..] == (init[..i] + init[i + 1..]) + [gs[n - 1]];
      SumGroupsSnoc(init[..i] + init[i + 1..], gs[n - 1]);
    } else {
      assert gs[..i] + gs[i + 1..] == gs[..n - 1];
    }
  }

  lemma {:induction false} KeySetSnoc(gs: seq<PipelineAggregateStats>, g: PipelineAggregateStats)
    ensures KeySet(gs + [g]) == KeySet(gs) + {g.pipelineId}
  {
    var gs' := gs + [g];
    forall p | p in KeySet(gs') ensures p in KeySet(gs) + {g.pipelineId} {
      var j :| 0 <= j < |gs'| && gs'[j].pipelineId == p;
      if j < |gs| {
        assert gs[j] == gs'[j];
      }
    }
    forall p | p in KeySet(gs) ensures p in KeySet(gs') {
      var j :| 0 <= j < |gs| && gs[j].pipelineId == p;
      assert gs'[j] == gs[j];
    }
    assert gs'[|gs|] == g;
  }

  /** Adding `t` to the int64 totals field by field, each addition wrapping, wraps the exact sum. */
  lemma {:induction false} WrapCountersStep(acc: Counters, s: Counters, t: Counters)
    requires acc == WrapCounters(s)
    ensures WrapCounters(s.Plus(t)) == Counters(
      Wrap(acc.recordsHandled + t.recordsHandled), Wrap(acc.bytesHandled + t.bytesHandled),
      Wrap(acc.numErrors + t.numErrors), Wrap(acc.numRetries + t.numRetries))
  {
    WrapOfWrappedSum(s.recordsHandled, t.recordsHandled);
    WrapOfWrappedSum(s.bytesHandled, t.bytesHandled);
    WrapOfWrappedSum(s.numErrors, t.numErrors);
    WrapOfWrappedSum(s.numRetries, t.numRetries);
  }

  /** Dropping one group from a listing lists the map without that group's key. */
  lemma {:induction false} ListsRemoveAt(gs: seq<PipelineAggregateStats>, m: map<string, PipelineAggregateStats>, i: nat)
    requires Lists(gs, m) && i < |gs|
    ensures Lists(gs[..i] + gs[i + 1..], m - {gs[i].pipelineId})
  {
    var k, rest := gs[i].pipelineId, gs[..i] + gs[i + 1..];
    DistinctKeysRemoveAt(gs, i);
    RemoveAtKeySet(gs, i);
    forall j | 0 <= j < |rest| ensures rest[j].pipelineId in m - {k} && (m - {k})[rest[j].pipelineId] == rest[j] {
      var j' := if j < i then j else j + 1;
      assert rest[j] == gs[j'];
    }
  }

  /** One more turn of the response loop: the next group joins the listing and the sum. */
  lemma {:induction false} FoldStep(gs: seq<PipelineAggregateStats>, i: nat, m: map<string, PipelineAggregateStats>)
    requires i < |gs| && DistinctKeys(gs) && Lists(gs[..i], m)
    ensures Lists(gs[..i + 1], m[gs[i].pipelineId := gs[i]])
  {
    assert gs[..i + 1] == gs[..i] + [gs[i]];
    ListsSnoc(gs[..i], m, gs[i]);
  }

  /** Inserting a group under a fresh key extends a listing by that group. */
  lemma {:induction false} ListsSnoc(gs: seq<PipelineAggregateStats>, m: map<string, PipelineAggregateStats>, g: PipelineAggregateStats)
    requires Lists(gs, m) && DistinctKeys(gs + [g])
    ensures Lists(gs + [g], m[g.pipelineId := g])
  {
    KeySetSnoc(gs, g);
    var gs' := gs + [g];
    forall j | 0 <= j < |gs|
      ensures gs'[j].pipelineId in m[g.pipelineId := g] && m[g.pipelineId := g][gs'[j].pipelineId] == gs'[j]
    {
      assert gs'[j].pipelineId != gs'[|gs|].pipelineId;
    }
  }

  lemma {:induction false} DistinctKeysRemoveAt(gs: seq<PipelineAggregateStats>, i: nat)
    requires DistinctKeys(gs) && i < |gs|
    ensures DistinctKeys(gs[..i] + gs[i + 1..])
  {
    var rest := gs[..i] + gs[i + 1..];
    forall a, b | 0 <= a < b < |rest| ensures rest[a].pipelineId != rest[b].pipelineId {
      var a', b' := if a < i then a else a + 1, if b < i then b else b + 1;
      assert rest[a] == gs[a'] && rest[b] == gs[b'];
    }
  }

  lemma {:induction false} RemoveAtKeySet(gs: seq<PipelineAggregateStats>, i: nat)
    requires DistinctKeys(gs) && i < |gs|
    ensures KeySet(gs[..i] + gs[i + 1..]) == KeySet(gs) - {gs[i].pipelineId}
  {
    var k, rest := gs[i].pipelineId, gs[..i] + gs[i + 1..];
    forall p | p in KeySet(rest) ensures p in KeySet(gs) - {k} {
      var j :| 0 <= j < |rest| && rest[j].pipelineId == p;
      var j' := if j < i then j else j + 1;
      assert rest[j] == gs[j'];
    }
    forall p | p in KeySet(gs) - {k} ensures p in KeySet(rest) {
      var j :| 0 <= j < |gs| && gs[j].pipelineId == p;
      var j' := if j < i then j else j - 1;
      assert rest[j'] == gs[j];
    }
  }

  /** Summing a map's entries gives the same as summing any list of them. */
  lemma {:induction false} SumEntriesOfListing(gs: seq<PipelineAggregateStats>, m: map<string, PipelineAggregateStats>)
    requires Lists(gs, m)
    ensures SumEntries(m) == SumGroups(gs)
    decreases |gs|
  {
    if |gs| == 0 {
      assert m.Keys == {};
      assert m == map[];
    } else {
      assert gs[0].pipelineId in m;
      var k := PickKey(m);
      var i :| 0 <= i < |gs| && gs[i].pipelineId == k;
      ListsRemoveAt(gs, m, i);
      SumEntriesOfListing(gs[..i] + gs[i + 1..], m - {k});
      SumGroupsRemoveAt(gs, i);
    }
  }

  /** What a response assembled from the statistics query's groups says: its totals are the
      (wrapped) sum of its entries and of every matched record, and it has one entry per pipeline
      that passes the id test and reported in the window, that pipeline's aggregate. */
  lemma AssembledResponse(req: GetPipelineStatsRequest, rs: seq<PipelineStat>, resp: GetPipelineStatsResponse)
    requires var gs := RunPipeline(GetPipelineStatsQuery(req.ids, req.fromTimestamp, req.toTimestamp, req.includeStats), rs);
      Lists(gs, resp.stats) && resp.totals == WrapCounters(SumGroups(gs))
    ensures resp.totals == WrapCounters(SumEntries(resp.stats))
    ensures resp.totals == WrapCounters(SumOf(RunMatch(GetPipelineStatsMatchQuery(req.ids, req.fromTimestamp, req.toTimestamp), rs)))
    ensures forall p :: p in resp.stats <==>
      |ReportedInWindow(rs, p, ToFloat64(req.fromTimestamp), ToFloat64(req.toTimestamp))| > 0 && (|req.ids| == 0 || p in req.ids)
    ensures forall p :: p in resp.stats ==>
      resp.stats[p].pipelineId == p && IsWindowAggregate(resp.stats[p], req.ids, ToFloat64(req.fromTimestamp), ToFloat64(req.toTimestamp), req.includeStats, rs)
  {
    var gs := RunPipeline(GetPipelineStatsQuery(req.ids, req.fromTimestamp, req.toTimestamp, req.includeStats), rs);
    var m := resp.stats;
    SumEntriesOfListing(gs, m);
    StatsQueryResult(req.ids, req.fromTimestamp, req.toTimestamp, req.includeStats, rs);
    forall p | p in m ensures m[p].pipelineId == p &&
      IsWindowAggregate(m[p], req.ids, ToFloat64(req.fromTimestamp), ToFloat64(req.toTimestamp), req.includeStats, rs)
    {
      var j :| 0 <= j < |gs| && gs[j].pipelineId == p;
    }
    forall p | |ReportedInWindow(rs, p, ToFloat64(req.fromTimestamp), ToFloat64(req.toTimestamp))| > 0 && (|req.ids| == 0 || p in req.ids)
      ensures p in m
    {
      var mine := ReportedInWindow(rs, p, ToFloat64(req.fromTimestamp), ToFloat64(req.toTimestamp));
      ReportedInWindowMembers(rs, p, ToFloat64(req.fromTimestamp), ToFloat64(req.toTimestamp));
      assert mine[0] in mine;
    }
  }

  /** Adds `t` into the int64 totals `acc` field by field, each addition wrapping as Go's `+=` does. */
  function AddWrapped(acc: Counters, t: Counters): Counters
  {
    Counters(Wrap(acc.recordsHandled + t.recordsHandled), Wrap(acc.bytesHandled + t.bytesHandled),
             Wrap(acc.numErrors + t.numErrors), Wrap(acc.numRetries + t.numRetries))
  }

  /** The global totals as Go accumulates them: the groups' totals added in order with wrapping `+=`. */
  function WrappedSum(gs: seq<PipelineAggregateStats>): Counters
  {
    if |gs| == 0 then NoCounts else AddWrapped(WrappedSum(gs[..|gs| - 1]), gs[|gs| - 1].totals)
  }

  /** Wrapping after every `+=` gives the exact sum of the groups' totals, wrapped once: the global
      totals are the int64 image of the element-wise sum over the groups. */
  lemma {:induction false} WrappedSumIsWrappedTotal(gs: seq<PipelineAggregateStats>)
    ensures WrappedSum(gs) == WrapCounters(SumGroups(gs))
  {
    if |gs| > 0 {
      WrappedSumIsWrappedTotal(gs[..|gs| - 1]);
      WrapCountersStep(WrappedSum(gs[..|gs| - 1]), SumGroups(gs[..|gs| - 1]), gs[|gs| - 1].totals);
    }
  }

  /** The loop over the aggregation's groups: adds each group's totals into the global totals and
      stores the group in the map under its pipeline id. */
  method FoldGroups(aggResult: seq<PipelineAggregateStats>) returns (totals: Counters, stats: map<string, PipelineAggregateStats>)
    requires DistinctKeys(aggResult)
    ensures totals == WrappedSum(aggResult)
    ensures Lists(aggResult, stats)
  {
    totals := NoCounts;
    stats := map[];
    var i := 0;
    while i < |aggResult|
      invariant 0 <= i <= |aggResult|
      invariant totals == WrappedSum(aggResult[..i])
      invariant Lists(aggResult[..i], stats)
    {
      var pipelineStats := aggResult[i];
      assert aggResult[..i + 1][..i] == aggResult[..i];
      totals := AddWrapped(totals, pipelineStats.totals);
      FoldStep(aggResult, i, stats);
      stats := stats[pipelineStats.pipelineId := pipelineStats];
      i := i + 1;
    }
    assert aggResult[..i] == aggResult;
  }

  class MongodbStore {
    /** The documents of the `pipeline_stats` collection, in insertion order. */
    var collection: seq<PipelineStat>

    constructor ()
      ensures collection == []
    {
      collection := [];
    }

    /** Inserts one record: the request's pipeline id and counters, stamped with the server's
        clock reading `now`. */
    method ReportPipelineStats(req: ReportPipelineStatsRequest, now: Int64)
      modifies this
      ensures collection == old(collection) + [PipelineStat(req.pipelineId, now, req.recordsHandled,
                                                            req.bytesHandled, req.numErrors, req.numRetries)]
    {
      var model := PipelineStat(req.pipelineId, now, req.recordsHandled, req.bytesHandled, req.numErrors, req.numRetries);
      collection := collection + [model];
    }

    /** Deletes every record of one of `req.ids` whose timestamp is in the window. */
    method ClearPipelineStats(req: ClearPipelineStatsRequest)
      modifies this
      ensures collection == DeleteMany(old(collection), GetClearPipelineStatsQuery(req.ids, req.fromTimestamp, req.toTimestamp))
    {
      var query := GetClearPipelineStatsQuery(req.ids, req.fromTimestamp, req.toTimestamp);
      collection := DeleteMany(collection, query);
    }

    /** Runs the statistics query and folds its groups into the global totals (with Go's int64
        wrap-around) and the per-pipeline map. */
    method GetPipelineStats(req: GetPipelineStatsRequest) returns (resp: GetPipelineStatsResponse)
      ensures resp.totals == WrapCounters(SumEntries(resp.stats))
      ensures resp.totals == WrapCounters(SumOf(RunMatch(GetPipelineStatsMatchQuery(req.ids, req.fromTimestamp, req.toTimestamp), collection)))
      ensures forall p :: p in resp.stats <==>
        |ReportedInWindow(collection, p, ToFloat64(req.fromTimestamp), ToFloat64(req.toTimestamp))| > 0 && (|req.ids| == 0 || p in req.ids)
      ensures forall p :: p in resp.stats ==>
        resp.stats[p].pipelineId == p &&
        IsWindowAggregate(resp.stats[p], req.ids, ToFloat64(req.fromTimestamp), ToFloat64(req.toTimestamp), req.includeStats, collection)
    {
      var pipeline := GetPipelineStatsQuery(req.ids, req.fromTimestamp, req.toTimestamp, req.includeStats);
      var aggResult := RunPipeline(pipeline, collection);
      assert DistinctKeys(aggResult) by {
        StatsQueryResult(req.ids, req.fromTimestamp, req.toTimestamp, req.includeStats, collection);
      }
      var totals, stats := FoldGroups(aggResult);
      WrappedSumIsWrappedTotal(aggResult);
      resp := GetPipelineStatsResponse(totals, stats);
      AssembledResponse(req, collection, resp);
    }
  }
}
