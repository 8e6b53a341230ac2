/** The `$group` stage of the statistics query: group the matched records by `pipeline_id`,
    `$sum` the four counters and, when asked, `$push` every record (`$$ROOT`) into `stats`.
    GroupBy folds the records one at a time into a list of open groups, the way the store's
    hash aggregation does; OfPipeline and SumOf are the reference it is proved against. */
module Grouping {
  import opened Models

  /** The records of pipeline `p`, in collection order. */
  function OfPipeline(rs: seq<PipelineStat>, p: string): seq<PipelineStat>
    decreases |rs|
  {
    if |rs| == 0 then [] else OfPipeline(rs[..|rs| - 1], p) + (if rs[|rs| - 1].pipelineId == p then [rs[|rs| - 1]] else [])
  }

  /** OfPipeline keeps exactly the records of `p`. */
  lemma {:induction false} OfPipelineMembers(rs: seq<PipelineStat>, p: string)
    ensures forall r :: r in OfPipeline(rs, p) <==> r in rs && r.pipelineId == p
    decreases |rs|
  {
    if |rs| > 0 {
      var init := rs[..|rs| - 1];
      OfPipelineMembers(init, p);
      assert rs == init + [rs[|rs| - 1]];
    }
  }

  /** Field-wise sum of the counters of `rs`. */
  function SumOf(rs: seq<PipelineStat>): Counters
    decreases |rs|
  {
    if |rs| == 0 then NoCounts else SumOf(rs[..|rs| - 1]).Plus(rs[|rs| - 1].Counts())
  }

  /** Field-wise sum of the totals of the groups `gs`. */
  function SumGroups(gs: seq<PipelineAggregateStats>): Counters
    decreases |gs|
  {
    if |gs| == 0 then NoCounts else SumGroups(gs[..|gs| - 1]).Plus(gs[|gs| - 1].totals)
  }

  /** The pipeline ids of the groups. */
  function KeySet(gs: seq<PipelineAggregateStats>): set<string>
  {
    set j | 0 <= j < |gs| :: gs[j].pipelineId
  }

  ghost predicate DistinctKeys(gs: seq<PipelineAggregateStats>)
  {
    forall i, j :: 0 <= i < j < |gs| ==> gs[i].pipelineId != gs[j].pipelineId
  }

  /** `gs` is the result of grouping `rs` by pipeline id: one group per pipeline that has a record
      in `rs` and no other, each group summing exactly its pipeline's records and holding them
      when `push` is set. */
  ghost predicate IsGroupingOf(gs: seq<PipelineAggregateStats>, rs: seq<PipelineStat>, push: bool)
  {
    && DistinctKeys(gs)
    && (forall r :: r in rs ==> r.pipelineId in KeySet(gs))
    && (forall i :: 0 <= i < |gs| ==> IsGroupOf(gs[i], rs, push))
  }

  /** `g` sums exactly the (non-empty) records of its pipeline in `rs`, and holds them when `push`. */
  ghost predicate IsGroupOf(g: PipelineAggregateStats, rs: seq<PipelineStat>, push: bool)
  {
    var members := OfPipeline(rs, g.pipelineId);
    && |members| > 0
    && g.totals == SumOf(members)
    && g.stats == (if push then members else [])
  }

  /** Index of the group of pipeline `p`, or -1 when there is none. */
  function FindGroup(gs: seq<PipelineAggregateStats>, p: string): (i: int)
    ensures -1 <= i < |gs|
    ensures 0 <= i ==> gs[i].pipelineId == p
    ensures i < 0 ==> forall j :: 0 <= j < |gs| ==> gs[j].pipelineId != p
    decreases |gs|
  {
    if |gs| == 0 then -1
    else if gs[0].pipelineId == p then 0
    else
      var k := FindGroup(gs[1..], p);
      if k < 0 then -1 else k + 1
  }

  function NewGroup(r: PipelineStat, push: bool): PipelineAggregateStats
  {
    PipelineAggregateStats(r.pipelineId, r.Counts(), if push then [r] else [])
  }

  function AddToGroup(g: PipelineAggregateStats, r: PipelineStat, push: bool): PipelineAggregateStats
  {
    g.(totals := g.totals.Plus(r.Counts()), stats := if push then g.stats + [r] else g.stats)
  }

  /** Feeds one record to the open groups: into its pipeline's group, or a new group at the end. */
  function Accumulate(gs: seq<PipelineAggregateStats>, r: PipelineStat, push: bool): seq<PipelineAggregateStats>
  {
    var i := FindGroup(gs, r.pipelineId);
    if i < 0 then gs + [NewGroup(r, push)] else gs[i := AddToGroup(gs[i], r, push)]
  }

  /** The `$group` stage over `rs`, keyed on pipeline id. */
  function GroupBy(rs: seq<PipelineStat>, push: bool): seq<PipelineAggregateStats>
    decreases |rs|
  {
    if |rs| == 0 then [] else Accumulate(GroupBy(rs[..|rs| - 1], push), rs[|rs| - 1], push)
  }

  lemma {:induction false} OfPipelineSnoc(rs: seq<PipelineStat>, r: PipelineStat, p: string)
    ensures OfPipeline(rs + [r], p) == OfPipeline(rs, p) + (if r.pipelineId == p then [r] else [])
  {
    assert (rs + [r])[..|rs|] == rs;
  }

  lemma {:induction false} SumOfSnoc(rs: seq<PipelineStat>, r: PipelineStat)
    ensures SumOf(rs + [r]) == SumOf(rs).Plus(r.Counts())
  {
    assert (rs + [r])[..|rs|] == rs;
  }

  /** Feeding one more record keeps the result a grouping of the longer input. */
  lemma {:induction false} AccumulateIsGrouping(gs: seq<PipelineAggregateStats>, rs: seq<PipelineStat>, r: PipelineStat, push: bool)
    requires IsGroupingOf(gs, rs, push)
    ensures IsGroupingOf(Accumulate(gs, r, push), rs + [r], push)
  {
    var i := FindGroup(gs, r.pipelineId);
    if i < 0 {
      OpenGroupIsGrouping(gs, rs, r, push);
    } else {
      JoinGroupIsGrouping(gs, rs, r, push, i);
    }
  }

  /** A record of another pipeline leaves a group as it was. */
  lemma {:induction false} OtherRecordKeepsGroup(g: PipelineAggregateStats, rs: seq<PipelineStat>, r: PipelineStat, push: bool)
    requires IsGroupOf(g, rs, push) && g.pipelineId != r.pipelineId
    ensures IsGroupOf(g, rs + [r], push)
  {
    OfPipelineSnoc(rs, r, g.pipelineId);
    assert OfPipeline(rs, g.pipelineId) + [] == OfPipeline(rs, g.pipelineId);
  }

  /** A pipeline without records has no members. */
  lemma {:induction false} OfPipelineNone(rs: seq<PipelineStat>, p: string)
    requires forall r :: r in rs ==> r.pipelineId != p
    ensures OfPipeline(rs, p) == []
    decreases |rs|
  {
    if |rs| > 0 {
      OfPipelineNone(rs[..|rs| - 1], p);
    }
  }

  /** A record of a pipeline without a group opens a new group at the end. */
  lemma {:induction false} OpenGroupIsGrouping(gs: seq<PipelineAggregateStats>, rs: seq<PipelineStat>, r: PipelineStat, push: bool)
    requires IsGroupingOf(gs, rs, push)
    requires forall j :: 0 <= j < |gs| ==> gs[j].pipelineId != r.pipelineId
    ensures IsGroupingOf(gs + [NewGroup(r, push)], rs + [r], push)
  {
    NoGroupNoRecords(gs, rs, r.pipelineId);
    NewGroupIsGroup(rs, r, push);
    OtherGroupsKept(gs, rs, r, push);
    OpenGroupCovers(gs, rs, r, push);
    DistinctKeysSnoc(gs, NewGroup(r, push));
  }

  /** A group under a fresh key keeps the keys distinct. */
  lemma {:induction false} DistinctKeysSnoc(gs: seq<PipelineAggregateStats>, g: PipelineAggregateStats)
    requires DistinctKeys(gs)
    requires forall j :: 0 <= j < |gs| ==> gs[j].pipelineId != g.pipelineId
    ensures DistinctKeys(gs + [g])
  {
    var gs' := gs + [g];
    forall i, j | 0 <= i < j < |gs'| ensures gs'[i].pipelineId != gs'[j].pipelineId {
      assert gs'[i] == gs[i];
    }
  }

  /** Opening a group for a new pipeline keeps every group, old and new, a group of the longer history. */
  lemma {:induction false} OtherGroupsKept(gs: seq<PipelineAggregateStats>, rs: seq<PipelineStat>, r: PipelineStat, push: bool)
    requires forall j :: 0 <= j < |gs| ==> IsGroupOf(gs[j], rs, push) && gs[j].pipelineId != r.pipelineId
    requires IsGroupOf(NewGroup(r, push), rs + [r], push)
    ensures forall j :: 0 <= j < |gs| + 1 ==> IsGroupOf((gs + [NewGroup(r, push)])[j], rs + [r], push)
  {
    var gs' := gs + [NewGroup(r, push)];
    forall j | 0 <= j < |gs'| ensures IsGroupOf(gs'[j], rs + [r], push) {
      if j < |gs| {
        assert gs'[j] == gs[j];
        OtherRecordKeepsGroup(gs[j], rs, r, push);
      }
    }
  }

  /** A pipeline without a group has no record yet. */
  lemma {:induction false} NoGroupNoRecords(gs: seq<PipelineAggregateStats>, rs: seq<PipelineStat>, p: string)
    requires forall r :: r in rs ==> r.pipelineId in KeySet(gs)
    requires forall j :: 0 <= j < |gs| ==> gs[j].pipelineId != p
    ensures OfPipeline(rs, p) == []
  {
    forall x | x in rs ensures x.pipelineId != p {
      var j :| 0 <= j < |gs| && gs[j].pipelineId == x.pipelineId;
    }
    OfPipelineNone(rs, p);
  }

  /** The first record of a pipeline makes a group of its own. */
  lemma {:induction false} NewGroupIsGroup(rs: seq<PipelineStat>, r: PipelineStat, push: bool)
    requires OfPipeline(rs, r.pipelineId) == []
    ensures IsGroupOf(NewGroup(r, push), rs + [r], push)
  {
    OfPipelineSnoc(rs, r, r.pipelineId);
    assert OfPipeline(rs + [r], r.pipelineId) == [r];
    assert SumOf([r]) == r.Counts() by { assert [r][..0] == []; }
  }

  lemma {:induction false} OpenGroupCovers(gs: seq<PipelineAggregateStats>, rs: seq<PipelineStat>, r: PipelineStat, push: bool)
    requires forall x :: x in rs ==> x.pipelineId in KeySet(gs)
    ensures forall x :: x in rs + [r] ==> x.pipelineId in KeySet(gs + [NewGroup(r, push)])
  {
    var gs' := gs + [NewGroup(r, push)];
    forall x | x in rs + [r] ensures x.pipelineId in KeySet(gs') {
      var j :| 0 <= j < |gs'| && gs'[j].pipelineId == x.pipelineId by {
        if x in rs {
          var j :| 0 <= j < |gs| && gs[j].pipelineId == x.pipelineId;
          assert gs'[j] == gs[j];
        } else {
          assert gs'[|gs|].pipelineId == x.pipelineId;
        }
      }
    }
  }

  /** A record of a pipeline that has group `i` is added into that group. */
  lemma {:induction false} JoinGroupIsGrouping(gs: seq<PipelineAggregateStats>, rs: seq<PipelineStat>, r: PipelineStat, push: bool, i: nat)
    requires IsGroupingOf(gs, rs, push)
    requires i < |gs| && gs[i].pipelineId == r.pipelineId
    ensures IsGroupingOf(gs[i := AddToGroup(gs[i], r, push)], rs + [r], push)
  {
    JoinedGroupIsGroup(gs[i], rs, r, push);
    JoinKeepsGroups(gs, gs[i := AddToGroup(gs[i], r, push)], rs, r, push, i);
    JoinCovers(gs, rs, r, push, i);
    DistinctKeysUpdate(gs, i, AddToGroup(gs[i], r, push));
  }

  /** A record added into its pipeline's group keeps that group exact. */
  lemma {:induction false} JoinedGroupIsGroup(g: PipelineAggregateStats, rs: seq<PipelineStat>, r: PipelineStat, push: bool)
    requires IsGroupOf(g, rs, push) && g.pipelineId == r.pipelineId
    ensures IsGroupOf(AddToGroup(g, r, push), rs + [r], push)
  {
    OfPipelineSnoc(rs, r, r.pipelineId);
    SumOfSnoc(OfPipeline(rs, r.pipelineId), r);
  }

  /** Updating the group of `r`'s pipeline keeps every group a group of the longer history. */
  lemma {:induction false} JoinKeepsGroups(gs: seq<PipelineAggregateStats>, gs': seq<PipelineAggregateStats>, rs: seq<PipelineStat>, r: PipelineStat, push: bool, i: nat)
    requires DistinctKeys(gs) && forall j :: 0 <= j < |gs| ==> IsGroupOf(gs[j], rs, push)
    requires i < |gs| && gs[i].pipelineId == r.pipelineId && gs' == gs[i := AddToGroup(gs[i], r, push)]
    requires IsGroupOf(gs'[i], rs + [r], push)
    ensures forall k :: 0 <= k < |gs'| ==> IsGroupOf(gs'[k], rs + [r], push)
  {
    forall k | 0 <= k < |gs'| ensures IsGroupOf(gs'[k], rs + [r], push) {
      if k != i {
        assert gs'[k] == gs[k];
        OtherRecordKeepsGroup(gs[k], rs, r, push);
      }
    }
  }

  /** Every record, old or new, still has a group after the join. */
  lemma {:induction false} JoinCovers(gs: seq<PipelineAggregateStats>, rs: seq<PipelineStat>, r: PipelineStat, push: bool, i: nat)
    requires forall x :: x in rs ==> x.pipelineId in KeySet(gs)
    requires i < |gs| && gs[i].pipelineId == r.pipelineId
    ensures forall x :: x in rs + [r] ==> x.pipelineId in KeySet(gs[i := AddToGroup(gs[i], r, push)])
  {
    var gs' := gs[i := AddToGroup(gs[i], r, push)];
    forall x | x in rs + [r] ensures x.pipelineId in KeySet(gs') {
      var j :| 0 <= j < |gs| && gs[j].pipelineId == x.pipelineId by {
        if x !in rs {
          assert gs[i].pipelineId == x.pipelineId;
        }
      }
      assert gs'[j].pipelineId == x.pipelineId;
    }
  }

  /** Replacing a group by one with the same key keeps the keys distinct. */
  lemma {:induction false} DistinctKeysUpdate(gs: seq<PipelineAggregateStats>, i: nat, g: PipelineAggregateStats)
    requires DistinctKeys(gs) && i < |gs| && g.pipelineId == gs[i].pipelineId
    ensures DistinctKeys(gs[i := g])
  {
    var gs' := gs[i := g];
    forall a, b | 0 <= a < b < |gs'| ensures gs'[a].pipelineId != gs'[b].pipelineId {
      assert gs'[a].pipelineId == gs[a].pipelineId && gs'[b].pipelineId == gs[b].pipelineId;
    }
  }


  /** GroupBy meets the grouping specification. */
  lemma {:induction false} GroupByIsGrouping(rs: seq<PipelineStat>, push: bool)
    ensures IsGroupingOf(GroupBy(rs, push), rs, push)
    decreases |rs|
  {
    if |rs| > 0 {
      var init := rs[..|rs| - 1];
      GroupByIsGrouping(init, push);
      AccumulateIsGrouping(GroupBy(init, push), init, rs[|rs| - 1], push);
      assert init + [rs[|rs| - 1]] == rs;
    }
  }

  lemma {:induction false} SumGroupsSnoc(gs: seq<PipelineAggregateStats>, g: PipelineAggregateStats)
    ensures SumGroups(gs + [g]) == SumGroups(gs).Plus(g.totals)
  {
    assert (gs + [g])[..|gs|] == gs;
  }

  /** Adding `c` to one group's totals adds `c` to the sum over all groups. */
  lemma {:induction false} SumGroupsUpdate(gs: seq<PipelineAggregateStats>, i: nat, g: PipelineAggregateStats, c: Counters)
    requires i < |gs| && g.totals == gs[i].totals.Plus(c)
    ensures SumGroups(gs[i := g]) == SumGroups(gs).Plus(c)
    decreases |gs|
  {
    var gs' := gs[i := g];
    var n := |gs|;
    if i < n - 1 {
      assert gs'[..n - 1] == gs[..n - 1][i := g];
      SumGroupsUpdate(gs[..n - 1], i, g, c);
    } else {
      assert gs'[..n - 1] == gs[..n - 1];
    }
  }

  /** The grouping loses and duplicates nothing: the totals of all groups together are the totals
      of all records. */
  lemma {:induction false} GroupBySumsAllRecords(rs: seq<PipelineStat>, push: bool)
    ensures SumGroups(GroupBy(rs, push)) == SumOf(rs)
    decreases |rs|
  {
    if |rs| > 0 {
      var init, r := rs[..|rs| - 1], rs[|rs| - 1];
      GroupBySumsAllRecords(init, push);
      var gs := GroupBy(init, push);
      var i := FindGroup(gs, r.pipelineId);
      if i < 0 {
        SumGroupsSnoc(gs, NewGroup(r, push));
      } else {
        SumGroupsUpdate(gs, i, AddToGroup(gs[i], r, push), r.Counts());
      }
    }
  }
}
