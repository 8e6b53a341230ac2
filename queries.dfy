/** The query builders of the statistics store, on a typed representation of the filters and
    stages they produce, and the meaning of those filters and stages on a sequence of records. */
module Queries {
  import opened GoInt64
  import opened GoFloat64
  import opened Models
  import opened Grouping

  /** One condition of an `$and` filter. The bounds of a timestamp condition reach the store as
      doubles, so they are whole numbers a double can hold, up to 2^63 (the double nearest to the
      largest int64); the store compares them with a record's int64 timestamp by exact value. */
  datatype Predicate =
    | TimestampBetween(gte: int, lte: int)  // {"timestamp": {"$gte": gte, "$lte": lte}}
    | PipelineIdIn(ids: seq<string>)        // {"pipeline_id": {"$in": ids}}

  /** A filter document `{"$and": [...]}`. */
  datatype Filter = And(conjuncts: seq<Predicate>)

  /** The `$group` stage: `_id` is `$pipeline_id`, the four `total_*` fields `$sum` the counters,
      and `stats` `$push`es `$$ROOT` when pushStats is set. */
  datatype GroupStage = GroupByPipelineId(pushStats: bool)

  /** The aggregation pipeline of the statistics query: a `$match` stage, then a `$group` stage. */
  datatype StatsPipeline = StatsPipeline(matchStage: Filter, groupStage: GroupStage)

  predicate Holds(c: Predicate, r: PipelineStat)
  {
    match c
    case TimestampBetween(gte, lte) => gte <= r.timestamp <= lte
    case PipelineIdIn(ids) => r.pipelineId in ids
  }

  /** A record matches an `$and` filter when it satisfies every conjunct. */
  predicate Matches(f: Filter, r: PipelineStat)
  {
    forall c :: c in f.conjuncts ==> Holds(c, r)
  }

  /** The `$match` filter of the statistics query. The time window is always a conjunct; the id
      test is added only when `ids` is non-empty, so empty `ids` means every pipeline. The window
      bounds are printed into JSON text and decoded back into a generic map, which turns them
      into doubles: the window the store applies is [ToFloat64(from), ToFloat64(to)]. */
  function GetPipelineStatsMatchQuery(ids: seq<string>, from: Int64, to: Int64): (f: Filter)
    ensures TimestampBetween(ToFloat64(from), ToFloat64(to)) in f.conjuncts
    ensures PipelineIdIn(ids) in f.conjuncts <==> |ids| > 0
    ensures forall r :: Matches(f, r) <==>
      ToFloat64(from) <= r.timestamp <= ToFloat64(to) && (|ids| == 0 || r.pipelineId in ids)
  {
    var window := [TimestampBetween(ToFloat64(from), ToFloat64(to))];
    And(if |ids| > 0 then window + [PipelineIdIn(ids)] else window)
  }

  function GetPipelineStatsGroupQuery(includeStats: bool): GroupStage
  {
    GroupByPipelineId(includeStats)
  }

  function GetPipelineStatsQuery(ids: seq<string>, from: Int64, to: Int64, includeStats: bool): StatsPipeline
  {
    StatsPipeline(GetPipelineStatsMatchQuery(ids, from, to), GetPipelineStatsGroupQuery(includeStats))
  }

  /** The filter of the bulk delete. Unlike the read filter the id test is always present, so an
      empty `ids` matches nothing. The whole filter is decoded from JSON text into a generic map,
      so its window bounds, too, become doubles. */
  function GetClearPipelineStatsQuery(ids: seq<string>, from: Int64, to: Int64): (f: Filter)
    ensures forall r :: Matches(f, r) <==> r.pipelineId in ids && ToFloat64(from) <= r.timestamp <= ToFloat64(to)
    ensures |ids| == 0 ==> forall r :: !Matches(f, r)
  {
    var f := And([PipelineIdIn(ids), TimestampBetween(ToFloat64(from), ToFloat64(to))]);
    assert forall r :: Matches(f, r) <==> Holds(f.conjuncts[0], r) && Holds(f.conjuncts[1], r);
    f
  }

  /** The `$match` stage: the matching records, in collection order. */
  function RunMatch(f: Filter, rs: seq<PipelineStat>): seq<PipelineStat>
    decreases |rs|
  {
    if |rs| == 0 then [] else RunMatch(f, rs[..|rs| - 1]) + (if Matches(f, rs[|rs| - 1]) then [rs[|rs| - 1]] else [])
  }

  function RunGroup(g: GroupStage, rs: seq<PipelineStat>): seq<PipelineAggregateStats>
  {
    GroupBy(rs, g.pushStats)
  }

  /** The two stages in order: the `$group` stage sees only what passed the `$match` stage. */
  function RunPipeline(q: StatsPipeline, rs: seq<PipelineStat>): seq<PipelineAggregateStats>
  {
    RunGroup(q.groupStage, RunMatch(q.matchStage, rs))
  }

  /** Reference: the records reported for pipeline `p` with `from <= timestamp <= to`, in
      collection order. */
  function ReportedInWindow(rs: seq<PipelineStat>, p: string, from: int, to: int): seq<PipelineStat>
    decreases |rs|
  {
    if |rs| == 0 then []
    else
      var last := rs[|rs| - 1];
      ReportedInWindow(rs[..|rs| - 1], p, from, to) + (if last.pipelineId == p && from <= last.timestamp <= to then [last] else [])
  }

  /** RunMatch keeps exactly the matching records. */
  lemma {:induction false} RunMatchMembers(f: Filter, rs: seq<PipelineStat>)
    ensures forall r :: r in RunMatch(f, rs) <==> r in rs && Matches(f, r)
    decreases |rs|
  {
    if |rs| > 0 {
      var init := rs[..|rs| - 1];
      RunMatchMembers(f, init);
      assert rs == init + [rs[|rs| - 1]];
    }
  }

  /** ReportedInWindow keeps exactly the reports of `p` inside the window. */
  lemma {:induction false} ReportedInWindowMembers(rs: seq<PipelineStat>, p: string, from: int, to: int)
    ensures forall r :: r in ReportedInWindow(rs, p, from, to) <==> r in rs && r.pipelineId == p && from <= r.timestamp <= to
    decreases |rs|
  {
    if |rs| > 0 {
      var init := rs[..|rs| - 1];
      ReportedInWindowMembers(init, p, from, to);
      assert rs == init + [rs[|rs| - 1]];
    }
  }

  /** A new report counts towards its own pipeline's totals, once, and only when its timestamp is
      in the window; every other pipeline's totals stay as they were. */
  lemma {:induction false} ReportCountsOnce(rs: seq<PipelineStat>, r: PipelineStat, p: string, from: int, to: int)
    ensures SumOf(ReportedInWindow(rs + [r], p, from, to)) ==
      if r.pipelineId == p && from <= r.timestamp <= to then SumOf(ReportedInWindow(rs, p, from, to)).Plus(r.Counts())
      else SumOf(ReportedInWindow(rs, p, from, to))
  {
    assert (rs + [r])[..|rs|] == rs;
    var mine := ReportedInWindow(rs, p, from, to);
    if r.pipelineId == p && from <= r.timestamp <= to {
      SumOfSnoc(mine, r);
    } else {
      assert mine + [] == mine;
    }
  }

  /** RunMatch keeps the order of the collection: it filters each part of a concatenation alone. */
  lemma {:induction false} RunMatchConcat(f: Filter, a: seq<PipelineStat>, b: seq<PipelineStat>)
    ensures RunMatch(f, a + b) == RunMatch(f, a) + RunMatch(f, b)
    decreases |b|
  {
    if |b| == 0 {
      assert a + b == a;
    } else {
      var init := b[..|b| - 1];
      RunMatchConcat(f, a, init);
      assert (a + b)[..|a + b| - 1] == a + init;
    }
  }

  /** Of the matched records, those of a requested pipeline are exactly the ones it reported in
      the rounded window. */
  lemma {:induction false} MatchedOfPipeline(ids: seq<string>, from: Int64, to: Int64, rs: seq<PipelineStat>, p: string)
    requires |ids| == 0 || p in ids
    ensures OfPipeline(RunMatch(GetPipelineStatsMatchQuery(ids, from, to), rs), p) ==
      ReportedInWindow(rs, p, ToFloat64(from), ToFloat64(to))
    decreases |rs|
  {
    if |rs| > 0 {
      var f, init, last := GetPipelineStatsMatchQuery(ids, from, to), rs[..|rs| - 1], rs[|rs| - 1];
      MatchedOfPipeline(ids, from, to, init, p);
      OfPipelineSnoc(RunMatch(f, init), last, p);
      if !Matches(f, last) {
        assert RunMatch(f, rs) == RunMatch(f, init);
        assert OfPipeline(RunMatch(f, init), p) + [] == OfPipeline(RunMatch(f, init), p);
      }
    }
  }

  /** The `$group` stage built for a request groups its input by pipeline id, sums the four
      counters of each pipeline, and carries the records themselves exactly when `includeStats`. */
  lemma GroupStageSemantics(includeStats: bool, rs: seq<PipelineStat>)
    ensures IsGroupingOf(RunGroup(GetPipelineStatsGroupQuery(includeStats), rs), rs, includeStats)
  {
    GroupByIsGrouping(rs, includeStats);
  }

  /** What the statistics query returns: one group per pipeline that passes the id test and has a
      record in the rounded window, and no other; each group's totals are the sums of exactly that
      pipeline's records in that window, which it also lists (in collection order, so as many as
      contributed) when `includeStats` is set; and all groups together sum every matched record. */
  lemma StatsQueryResult(ids: seq<string>, from: Int64, to: Int64, includeStats: bool, rs: seq<PipelineStat>)
    ensures var gs := RunPipeline(GetPipelineStatsQuery(ids, from, to, includeStats), rs);
      && DistinctKeys(gs)
      && (forall r :: r in rs && ToFloat64(from) <= r.timestamp <= ToFloat64(to) && (|ids| == 0 || r.pipelineId in ids) ==>
            r.pipelineId in KeySet(gs))
      && (forall i :: 0 <= i < |gs| ==> IsWindowAggregate(gs[i], ids, ToFloat64(from), ToFloat64(to), includeStats, rs))
      && SumGroups(gs) == SumOf(RunMatch(GetPipelineStatsMatchQuery(ids, from, to), rs))
  {
    var f := GetPipelineStatsMatchQuery(ids, from, to);
    var matched := RunMatch(f, rs);
    var gs := GroupBy(matched, includeStats);
    GroupByIsGrouping(matched, includeStats);
    GroupBySumsAllRecords(matched, includeStats);
    RunMatchMembers(f, rs);
    forall i | 0 <= i < |gs| ensures IsWindowAggregate(gs[i], ids, ToFloat64(from), ToFloat64(to), includeStats, rs) {
      var p := gs[i].pipelineId;
      assert IsGroupOf(gs[i], matched, includeStats);
      var x := OfPipeline(matched, p)[0];
      OfPipelineMembers(matched, p);
      assert x in OfPipeline(matched, p);
      assert x in matched && x.pipelineId == p;
      MatchedOfPipeline(ids, from, to, rs, p);
    }
  }

  /** `g` is pipeline `g.pipelineId`'s aggregate over the window: the pipeline passes the id test,
      reported at least once in the window, and `g` sums (and, when asked, lists) exactly those
      reports. */
  ghost predicate IsWindowAggregate(g: PipelineAggregateStats, ids: seq<string>, from: int, to: int, includeStats: bool, rs: seq<PipelineStat>)
  {
    var mine := ReportedInWindow(rs, g.pipelineId, from, to);
    && (|ids| == 0 || g.pipelineId in ids)
    && |mine| > 0
    && g.totals == SumOf(mine)
    && g.stats == (if includeStats then mine else [])
  }

  /** A record outside the rounded window changes nothing in the statistics query's result,
      wherever it sits in the collection. */
  lemma WindowExclusion(ids: seq<string>, from: Int64, to: Int64, includeStats: bool, before: seq<PipelineStat>, r: PipelineStat, after: seq<PipelineStat>)
    requires r.timestamp < ToFloat64(from) || ToFloat64(to) < r.timestamp
    ensures var q := GetPipelineStatsQuery(ids, from, to, includeStats);
      RunPipeline(q, before + [r] + after) == RunPipeline(q, before + after)
  {
    var f := GetPipelineStatsMatchQuery(ids, from, to);
    RunMatchConcat(f, before + [r], after);
    RunMatchConcat(f, before, [r]);
    RunMatchConcat(f, before, after);
    assert RunMatch(f, [r]) == [] by { assert [r][..0] == []; }
    assert RunMatch(f, before) + [] == RunMatch(f, before);
  }

  /** A window whose rounded bounds are inverted matches no record, so the query returns no
      group. Rounding is monotone, so this needs `from > to`; `from > to` alone is not enough,
      since two bounds a few nanoseconds apart can round to the same double. */
  lemma InvertedWindowIsEmpty(ids: seq<string>, from: Int64, to: Int64, includeStats: bool, rs: seq<PipelineStat>)
    requires ToFloat64(from) > ToFloat64(to)
    ensures RunPipeline(GetPipelineStatsQuery(ids, from, to, includeStats), rs) == []
  {
    RunMatchNone(GetPipelineStatsMatchQuery(ids, from, to), rs);
  }

  /** A filter no record satisfies lets nothing through. */
  lemma {:induction false} RunMatchNone(f: Filter, rs: seq<PipelineStat>)
    requires forall r :: r in rs ==> !Matches(f, r)
    ensures RunMatch(f, rs) == []
    decreases |rs|
  {
    if |rs| > 0 {
      RunMatchNone(f, rs[..|rs| - 1]);
    }
  }

  /** Below 2^53 in magnitude the bounds are kept exactly, and the read filter is the plain
      inclusive window. */
  lemma ExactWindowForSmallBounds(ids: seq<string>, from: Int64, to: Int64)
    requires -TWO_TO_THE_53 <= from <= TWO_TO_THE_53 && -TWO_TO_THE_53 <= to <= TWO_TO_THE_53
    ensures forall r :: Matches(GetPipelineStatsMatchQuery(ids, from, to), r) <==>
      from <= r.timestamp <= to && (|ids| == 0 || r.pipelineId in ids)
  {
    ToFloat64Exact(from);
    ToFloat64Exact(to);
  }

  /** With nanosecond bounds a window can be inverted and still match: `from` lies one nanosecond
      after `to`, both round to the same double, and a record stamped at that double matches. */
  lemma InvertedNanosecondWindowMatches(p: string)
    ensures var from, to := 1_700_000_000_000_000_001, 1_700_000_000_000_000_000;
      from > to &&
      Matches(GetPipelineStatsMatchQuery([], from, to), PipelineStat(p, 1_700_000_000_000_000_000, 0, 0, 0, 0))
  {
    NanosecondTimestampRounds();
  }
}
