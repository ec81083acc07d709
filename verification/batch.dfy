/** `batch_vote` end to end: read the id range, classify each task's replies
    with `process_task`, and feed the entries to the reassembler in the order
    the workers finish. The pool size and the throttling only change that
    order, so they are not parameters. */
module BatchVote {
  import opened Wrappers
  import opened Vote
  import opened Reassembler
  import opened Inputs

  /** The entry each task produces, given the probe and vote replies per id. */
  function TaskOutcome(checkFirst: bool, probes: int -> Reply, replies: int -> Reply): int -> Entry {
    id => ProcessTask(checkFirst, probes(id), replies(id))
  }

  /** The entry each task produces under the corrected `process_task`. */
  function IntendedOutcome(probes: int -> Reply, replies: int -> Reply): int -> Entry {
    id => ProcessTaskIntended(true, probes(id), replies(id))
  }

  /** The run: `None` when the range is not two integers or the final
      "确定开始？" question is not answered `y` (the menu returns before any
      task), otherwise the reassembler's state once the tasks finished in
      `completion` order. `confirmed` is that answer. */
  function BatchVote(startAnswer: string, endAnswer: string, checkFirst: bool, confirmed: bool,
                     probes: int -> Reply, replies: int -> Reply, completion: seq<int>): (r: Option<State>)
    ensures r.Some? <==> ReadRange(startAnswer, endAnswer).Some? && confirmed
    ensures r.Some? ==> r.value.order == TaskIds(ReadRange(startAnswer, endAnswer).value.0, ReadRange(startAnswer, endAnswer).value.1)
  {
    match ReadRange(startAnswer, endAnswer)
    case None => None
    case Some((lo, hi)) =>
      if !confirmed then None
      else Some(Run(TaskIds(lo, hi), completion, TaskOutcome(checkFirst, probes, replies)))
  }

  /** A completion order in which every task of the range finishes once. */
  ghost predicate Completes(lo: int, hi: int, completion: seq<int>) {
    Distinct(completion) && forall x :: x in completion <==> lo <= x <= hi
  }

  /** A record stream in which every entry failed. */
  lemma {:induction false} AllFailed(rs: seq<Record>)
    requires forall i :: 0 <= i < |rs| ==> rs[i].entry.kind == Failed
    ensures CountKind(rs, Failed) == |rs| && CountKind(rs, Success) == 0 && CountKind(rs, Already) == 0
    ensures IdsOfKind(rs, Success) == [] && IdsOfKind(rs, Already) == []
  {
    if |rs| > 0 {
      AllFailed(rs[..|rs| - 1]);
    }
  }

  lemma TaskIdsDistinct(lo: int, hi: int)
    ensures Distinct(TaskIds(lo, hi)) && Increasing(TaskIds(lo, hi))
    ensures forall x :: x in TaskIds(lo, hi) <==> lo <= x <= hi
  {
    TaskIdsShape(lo, hi);
  }

  /** Without the probe, whatever order the workers finish in: one line per
      id, ascending, the three counters add up to the number of ids, and the
      success and already-done lists are ascending and hold exactly the ids
      whose vote reply classifies that way. */
  lemma {:induction false} BatchVoteReport(startAnswer: string, endAnswer: string, probes: int -> Reply, replies: int -> Reply,
                        completion: seq<int>, lo: int, hi: int)
    requires ReadRange(startAnswer, endAnswer) == Some((lo, hi))
    requires Completes(lo, hi, completion)
    ensures var r := BatchVote(startAnswer, endAnswer, false, true, probes, replies, completion).value;
            && r.next == hi - lo + 1 && r.buffer == map[]
            && r.success + r.already + r.failed == hi - lo + 1
            && |r.records| == hi - lo + 1
            && (forall i :: 0 <= i < |r.records| ==> r.records[i].id == lo + i)
            && Increasing(r.successIds) && Increasing(r.alreadyIds)
            && (forall x :: x in r.successIds <==> lo <= x <= hi && Classify(replies(x)) == Success)
            && (forall x :: x in r.alreadyIds <==> lo <= x <= hi && Classify(replies(x)) == Already)
  {
    var order := TaskIds(lo, hi);
    var outcome := TaskOutcome(false, probes, replies);
    TaskIdsDistinct(lo, hi);
    RunComplete(order, completion, outcome);
    IdsOfKindIncreasing(order, outcome, Success);
    IdsOfKindIncreasing(order, outcome, Already);
    forall x
      ensures x in IdsOfKind(Records(order, outcome), Success) <==> lo <= x <= hi && Classify(replies(x)) == Success
      ensures x in IdsOfKind(Records(order, outcome), Already) <==> lo <= x <= hi && Classify(replies(x)) == Already
    {
      IdsOfKindMembers(order, outcome, Success, x);
      IdsOfKindMembers(order, outcome, Already, x);
    }
  }

  /** With the probe switched on, every task of the range ends failed and
      nothing is voted, whatever the server would answer. */
  lemma {:induction false} CheckFirstBatchAllFailed(startAnswer: string, endAnswer: string, probes: int -> Reply, replies: int -> Reply,
                                 completion: seq<int>, lo: int, hi: int)
    requires ReadRange(startAnswer, endAnswer) == Some((lo, hi))
    requires Completes(lo, hi, completion)
    ensures var r := BatchVote(startAnswer, endAnswer, true, true, probes, replies, completion).value;
            && r.failed == hi - lo + 1
            && r.success == 0 && r.already == 0
            && r.successIds == [] && r.alreadyIds == []
  {
    var order := TaskIds(lo, hi);
    var outcome := TaskOutcome(true, probes, replies);
    TaskIdsDistinct(lo, hi);
    RunComplete(order, completion, outcome);
    AllFailed(Records(order, outcome));
  }

  /** With the corrected `process_task`, a probed run votes exactly the
      tasks the probe accepts: an id is in the success list iff its probe
      says valid and its vote reply classifies as a success. */
  lemma {:induction false} IntendedProbeRun(lo: int, hi: int, probes: int -> Reply, replies: int -> Reply, completion: seq<int>)
    requires Completes(lo, hi, completion)
    ensures var r := Run(TaskIds(lo, hi), completion, IntendedOutcome(probes, replies));
            forall x :: x in r.successIds <==> lo <= x <= hi && VoteCheck(probes(x)).valid && Classify(replies(x)) == Success
  {
    var order := TaskIds(lo, hi);
    var outcome := IntendedOutcome(probes, replies);
    TaskIdsDistinct(lo, hi);
    RunComplete(order, completion, outcome);
    forall x
      ensures x in IdsOfKind(Records(order, outcome), Success) <==> lo <= x <= hi && VoteCheck(probes(x)).valid && Classify(replies(x)) == Success
    {
      IdsOfKindMembers(order, outcome, Success, x);
    }
  }
}
