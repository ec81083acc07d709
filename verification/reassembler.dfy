/** The ordered reassembler of `batch_vote`: workers finish in any order and
    put their `(result_type, code, msg, data)` entry into `output_buffer`;
    `flush_output` then emits, in `output_order` sequence, every entry it can
    reach without a gap, counting each one exactly once. The lock around the
    insert-then-drain step makes each submission atomic, so the model is a
    sequential state machine fed by an arbitrary completion order. */
module Reassembler {
  import opened Vote

  /** One emitted line: the task id and its entry (what is printed and handed
      to `saver.save_record`). */
  datatype Record = Record(id: int, entry: Entry)

  /** The variables `flush_output` closes over. `records` is the stream of
      emitted lines, in emission order. */
  datatype State = State(
    order: seq<int>,
    next: nat,
    buffer: map<int, Entry>,
    success: nat,
    already: nat,
    failed: nat,
    successIds: seq<int>,
    alreadyIds: seq<int>,
    records: seq<Record>)

  /** The state right before the pool starts. */
  function Init(order: seq<int>): (s: State)
    ensures s.next == 0 && s.buffer == map[] && s.records == []
    ensures Tallied(s)
  {
    State(order, 0, map[], 0, 0, 0, [], [], [])
  }

  /** Number of records of kind `k`. */
  function CountKind(rs: seq<Record>, k: Kind): nat {
    if |rs| == 0 then 0
    else CountKind(rs[..|rs| - 1], k) + (if rs[|rs| - 1].entry.kind == k then 1 else 0)
  }

  /** Ids of the records of kind `k`, in record order. */
  function IdsOfKind(rs: seq<Record>, k: Kind): seq<int> {
    if |rs| == 0 then []
    else IdsOfKind(rs[..|rs| - 1], k) + (if rs[|rs| - 1].entry.kind == k then [rs[|rs| - 1].id] else [])
  }

  /** The counters and id lists are exactly the tallies of the emitted records. */
  predicate Tallied(s: State) {
    && s.success == CountKind(s.records, Success)
    && s.already == CountKind(s.records, Already)
    && s.failed == CountKind(s.records, Failed)
    && s.successIds == IdsOfKind(s.records, Success)
    && s.alreadyIds == IdsOfKind(s.records, Already)
  }

  /** Every record has exactly one of the three kinds. */
  lemma {:induction false} KindsPartition(rs: seq<Record>)
    ensures CountKind(rs, Success) + CountKind(rs, Already) + CountKind(rs, Failed) == |rs|
  {
    if |rs| > 0 {
      KindsPartition(rs[..|rs| - 1]);
    }
  }

  /** The tallies of a state whose counters match its records add up to the
      number of emitted records. */
  lemma TalliedConserves(s: State)
    requires Tallied(s)
    ensures s.success + s.already + s.failed == |s.records|
  {
    KindsPartition(s.records);
  }

  /** One pass of the `while` body of `flush_output` that finds the next id
      in the buffer: bump one counter, extend one id list, emit, delete from
      the buffer, advance. */
  function Emit(s: State): (r: State)
    requires s.next < |s.order| && s.order[s.next] in s.buffer
    ensures r.order == s.order && r.next == s.next + 1
    ensures r.buffer == s.buffer - {s.order[s.next]}
    ensures r.records == s.records + [Record(s.order[s.next], s.buffer[s.order[s.next]])]
    ensures r.success + r.already + r.failed == s.success + s.already + s.failed + 1
    ensures Tallied(s) ==> Tallied(r)
  {
    var id := s.order[s.next];
    var e := s.buffer[id];
    var rs := s.records + [Record(id, e)];
    assert rs[..|rs| - 1] == s.records;
    var t := s.(buffer := s.buffer - {id}, next := s.next + 1, records := rs);
    match e.kind
    case Success => t.(success := s.success + 1, successIds := s.successIds + [id])
    case Already => t.(already := s.already + 1, alreadyIds := s.alreadyIds + [id])
    case Failed => t.(failed := s.failed + 1)
  }

  /** `flush_output`: drain the buffer in `order` sequence, stopping at the
      first id that has not been submitted yet. */
  function Flush(s: State): (r: State)
    ensures r.order == s.order && s.next <= r.next
    ensures s.next <= |s.order| ==> r.next <= |s.order|
    // nothing beyond a gap: the drain stops at the first missing id
    ensures r.next < |r.order| ==> r.order[r.next] !in r.buffer
    // one counter per emitted entry
    ensures r.success + r.already + r.failed + s.next == s.success + s.already + s.failed + r.next
    ensures Tallied(s) ==> Tallied(r)
    decreases |s.order| - s.next
  {
    if s.next < |s.order| && s.order[s.next] in s.buffer then Flush(Emit(s)) else s
  }

  /** Everything `Flush` emits was waiting in the buffer, and it is emitted
      in `order` sequence after the records already out. */
  lemma {:induction false} FlushRecords(s: State)
    ensures var r := Flush(s);
            && |r.records| == |s.records| + (r.next - s.next)
            && r.records[..|s.records|] == s.records
            && (forall i :: s.next <= i < r.next ==> s.order[i] in s.buffer)
            && (forall i :: s.next <= i < r.next ==>
                  r.records[|s.records| + (i - s.next)] == Record(s.order[i], s.buffer[s.order[i]]))
    decreases |s.order| - s.next
  {
    if s.next < |s.order| && s.order[s.next] in s.buffer {
      var s1 := Emit(s);
      FlushRecords(s1);
      var r := Flush(s1);
      assert r == Flush(s);
      assert r.records[..|s.records|] == s.records by {
        assert r.records[..|s1.records|][..|s.records|] == s1.records[..|s.records|];
      }
      assert r.records[|s.records|] == Record(s.order[s.next], s.buffer[s.order[s.next]]) by {
        assert r.records[..|s1.records|][|s.records|] == s1.records[|s.records|];
      }
      forall i | s.next < i < r.next
        ensures s.order[i] in s.buffer
        ensures r.records[|s.records| + (i - s.next)] == Record(s.order[i], s.buffer[s.order[i]])
      {
        assert s1.order[i] in s1.buffer;
      }
    }
  }

  /** Each id `Flush` emits leaves the buffer; nothing else in it changes. */
  lemma {:induction false} FlushBuffer(s: State)
    requires s.next <= |s.order|
    ensures var r := Flush(s);
            && (forall id :: id in r.buffer <==> id in s.buffer && id !in s.order[s.next..r.next])
            && (forall id :: id in r.buffer ==> r.buffer[id] == s.buffer[id])
    decreases |s.order| - s.next
  {
    if s.next < |s.order| && s.order[s.next] in s.buffer {
      var s1 := Emit(s);
      FlushBuffer(s1);
      var r := Flush(s1);
      assert r == Flush(s);
      SliceCons(s.order, s.next, r.next);
    }
  }

  lemma SliceCons(xs: seq<int>, a: nat, b: nat)
    requires a < b <= |xs|
    ensures forall x :: x in xs[a..b] <==> x == xs[a] || x in xs[a + 1..b]
  {
    assert xs[a..b] == [xs[a]] + xs[a + 1..b];
  }

  /** The critical section of `process_task`: store the entry, then flush. */
  function Submit(s: State, id: int, e: Entry): (r: State)
    ensures r.order == s.order && s.next <= r.next
    ensures r.next < |r.order| ==> r.order[r.next] !in r.buffer
    ensures r.success + r.already + r.failed + s.next == s.success + s.already + s.failed + r.next
    ensures Tallied(s) ==> Tallied(r)
  {
    Flush(s.(buffer := s.buffer[id := e]))
  }

  /** The reassembler after the tasks finished in the order `completion`,
      task `id` producing `outcome(id)`. */
  function Run(order: seq<int>, completion: seq<int>, outcome: int -> Entry): (r: State)
    ensures r.order == order && r.next <= |order|
    ensures r.success + r.already + r.failed == r.next
    ensures Tallied(r)
  {
    if |completion| == 0 then Init(order)
    else
      var n := |completion| - 1;
      Submit(Run(order, completion[..n], outcome), completion[n], outcome(completion[n]))
  }

  predicate Distinct(xs: seq<int>) {
    forall i, j :: 0 <= i < j < |xs| ==> xs[i] != xs[j]
  }

  /** The records of `ids`, in that order. */
  function Records(ids: seq<int>, outcome: int -> Entry): (rs: seq<Record>)
    ensures |rs| == |ids|
    ensures forall i :: 0 <= i < |ids| ==> rs[i] == Record(ids[i], outcome(ids[i]))
  {
    seq(|ids|, i requires 0 <= i < |ids| => Record(ids[i], outcome(ids[i])))
  }

  /** The emitted records are `order[..next]`, each with its own outcome,
      and the counters tally them. */
  ghost predicate EmittedPrefix(s: State, order: seq<int>, outcome: int -> Entry) {
    && s.order == order
    && s.next <= |order|
    && s.records == Records(order[..s.next], outcome)
    && Tallied(s)
  }

  /** `next` sits at the first id of `order` not yet submitted. */
  ghost predicate AtFirstGap(s: State, order: seq<int>, submitted: seq<int>)
    requires s.next <= |order|
  {
    && (forall i :: 0 <= i < s.next ==> order[i] in submitted)
    && (s.next < |order| ==> order[s.next] !in submitted)
  }

  /** The buffer holds exactly the submitted ids not yet emitted, with their
      outcomes. */
  ghost predicate Waiting(s: State, order: seq<int>, outcome: int -> Entry, submitted: seq<int>)
    requires s.next <= |order|
  {
    && (forall id :: id in s.buffer <==> id in submitted && id !in order[..s.next])
    && (forall id :: id in s.buffer ==> s.buffer[id] == outcome(id))
  }

  /** What holds between submissions, once the ids in `submitted` are in:
      exactly the longest fully submitted prefix of `order` has been emitted,
      in order and each with its own outcome, and every other submitted id
      waits in the buffer. */
  ghost predicate Inv(s: State, order: seq<int>, outcome: int -> Entry, submitted: seq<int>) {
    && EmittedPrefix(s, order, outcome)
    && AtFirstGap(s, order, submitted)
    && Waiting(s, order, outcome, submitted)
  }

  lemma InitInv(order: seq<int>, outcome: int -> Entry)
    ensures Inv(Init(order), order, outcome, [])
  {
  }

  /** One more task finishing keeps the invariant. */
  lemma SubmitKeepsInv(s: State, order: seq<int>, outcome: int -> Entry, submitted: seq<int>, id: int)
    requires Distinct(order) && Inv(s, order, outcome, submitted)
    requires id in order && id !in submitted
    ensures Inv(Submit(s, id, outcome(id)), order, outcome, submitted + [id])
  {
    SubmitEmitted(s, order, outcome, submitted, id);
    SubmitWaiting(s, order, outcome, submitted, id);
    SubmitAtGap(s, order, outcome, submitted, id);
  }

  lemma SubmitEmitted(s: State, order: seq<int>, outcome: int -> Entry, submitted: seq<int>, id: int)
    requires EmittedPrefix(s, order, outcome)
    requires s.next <= |order| && Waiting(s, order, outcome, submitted)
    ensures EmittedPrefix(Submit(s, id, outcome(id)), order, outcome)
  {
    var s1 := s.(buffer := s.buffer[id := outcome(id)]);
    FlushRecords(s1);
    SubmitRecords(s, s1, Flush(s1), order, outcome);
  }

  lemma SubmitWaiting(s: State, order: seq<int>, outcome: int -> Entry, submitted: seq<int>, id: int)
    requires Inv(s, order, outcome, submitted)
    requires id in order && id !in submitted
    ensures Submit(s, id, outcome(id)).next <= |order|
    ensures Waiting(Submit(s, id, outcome(id)), order, outcome, submitted + [id])
  {
    var s1 := s.(buffer := s.buffer[id := outcome(id)]);
    var r := Flush(s1);
    assert id !in order[..s.next];
    FlushBuffer(s1);
    SubmitBufferStep(order, submitted, id, s.next, r.next, s1.buffer, r.buffer);
  }

  lemma SubmitAtGap(s: State, order: seq<int>, outcome: int -> Entry, submitted: seq<int>, id: int)
    requires Distinct(order) && Inv(s, order, outcome, submitted)
    requires id in order && id !in submitted
    ensures Submit(s, id, outcome(id)).next <= |order|
    ensures AtFirstGap(Submit(s, id, outcome(id)), order, submitted + [id])
  {
    var s1 := s.(buffer := s.buffer[id := outcome(id)]);
    var r := Flush(s1);
    assert id !in order[..s.next];
    FlushRecords(s1);
    FlushBuffer(s1);
    SubmitBufferStep(order, submitted, id, s.next, r.next, s1.buffer, r.buffer);
    SubmitGap(s, s1, r, order, outcome, submitted, id);
  }

  lemma SubmitGap(s: State, s1: State, r: State, order: seq<int>, outcome: int -> Entry, submitted: seq<int>, id: int)
    requires Distinct(order) && s.order == order && s1.order == order && r.order == order
    requires s.next == s1.next <= r.next <= |order|
    requires forall i :: 0 <= i < s.next ==> order[i] in submitted
    requires forall i :: s.next <= i < r.next ==> order[i] in s1.buffer
    requires forall x :: x in s1.buffer ==> x in submitted + [id]
    requires forall x :: x in r.buffer <==> x in submitted + [id] && x !in order[..r.next]
    requires r.next < |order| ==> order[r.next] !in r.buffer
    ensures AtFirstGap(r, order, submitted + [id])
  {
    forall i | 0 <= i < r.next
      ensures order[i] in submitted + [id]
    {
      if i < s.next {
        assert order[i] in submitted;
      } else {
        assert order[i] in s1.buffer;
      }
    }
    if r.next < |order| {
      var x := order[r.next];
      DistinctNotBefore(order, r.next);
      assert x !in submitted + [id];
      assert (submitted + [id])[..|submitted|] == submitted;
    }
  }

  lemma SubmitRecords(s: State, s1: State, r: State, order: seq<int>, outcome: int -> Entry)
    requires s.order == order && s1.order == order && s1.next == s.next <= r.next <= |order|
    requires s1.records == s.records == Records(order[..s.next], outcome)
    requires |r.records| == |s1.records| + (r.next - s1.next)
    requires r.records[..|s1.records|] == s1.records
    requires forall i :: s1.next <= i < r.next ==> s1.order[i] in s1.buffer
    requires forall i :: s1.next <= i < r.next ==>
               r.records[|s1.records| + (i - s1.next)] == Record(s1.order[i], s1.buffer[s1.order[i]])
    requires forall x :: x in s1.buffer ==> s1.buffer[x] == outcome(x)
    ensures r.records == Records(order[..r.next], outcome)
  {
    forall i | 0 <= i < r.next
      ensures r.records[i] == Record(order[i], outcome(order[i]))
    {
      if i < s.next {
        assert r.records[i] == r.records[..|s.records|][i];
      } else {
        assert r.records[|s.records| + (i - s.next)] == Record(order[i], s1.buffer[order[i]]);
      }
    }
  }

  lemma DistinctNotBefore(order: seq<int>, k: nat)
    requires Distinct(order) && k < |order|
    ensures order[k] !in order[..k]
  {
  }

  /** Buffer bookkeeping of one submission: the ids waiting after it are the
      submitted ones not yet emitted. */
  lemma SubmitBufferStep(order: seq<int>, submitted: seq<int>, id: int, a: nat, b: nat,
                         before: map<int, Entry>, after: map<int, Entry>)
    requires a <= b <= |order|
    requires forall x :: x in before <==> x in submitted + [id] && x !in order[..a]
    requires forall x :: x in after <==> x in before && x !in order[a..b]
    ensures forall x :: x in after <==> x in submitted + [id] && x !in order[..b]
  {
    assert order[..b] == order[..a] + order[a..b];
  }

  /** Any completion order of distinct tasks of `order`, at any point of the
      run: the emitted records are the longest completed prefix of `order`,
      and the rest of the completed tasks wait in the buffer. */
  lemma {:induction false} RunInv(order: seq<int>, completion: seq<int>, outcome: int -> Entry)
    requires Distinct(order) && Distinct(completion)
    requires forall i :: 0 <= i < |completion| ==> completion[i] in order
    ensures Inv(Run(order, completion, outcome), order, outcome, completion)
  {
    if |completion| > 0 {
      var n := |completion| - 1;
      var pre := completion[..n];
      assert Distinct(pre) && forall i :: 0 <= i < |pre| ==> pre[i] in order;
      RunInv(order, pre, outcome);
      assert completion == pre + [completion[n]];
      forall i | 0 <= i < |pre|
        ensures pre[i] != completion[n]
      {
        assert pre[i] == completion[i];
      }
      SubmitKeepsInv(Run(order, pre, outcome), order, outcome, pre, completion[n]);
    }
  }

  /** The state a finished run must end in: everything emitted in `order`
      sequence, the buffer empty, and the counters and id lists tallying the
      outcomes. */
  function Final(order: seq<int>, outcome: int -> Entry): State {
    var rs := Records(order, outcome);
    State(order, |order|, map[],
          CountKind(rs, Success), CountKind(rs, Already), CountKind(rs, Failed),
          IdsOfKind(rs, Success), IdsOfKind(rs, Already), rs)
  }

  /** Once every task of `order` has finished, in whatever order: the buffer
      is empty, every id was emitted once in `order` sequence with its own
      outcome, and the counters and id lists are the tallies of those
      outcomes, adding up to the number of tasks. */
  lemma {:induction false} RunComplete(order: seq<int>, completion: seq<int>, outcome: int -> Entry)
    requires Distinct(order) && Distinct(completion)
    requires forall x :: x in completion <==> x in order
    ensures Run(order, completion, outcome) == Final(order, outcome)
    ensures var r := Final(order, outcome);
            r.success + r.already + r.failed == |order|
  {
    RunDrains(order, completion, outcome);
    TalliedConserves(Run(order, completion, outcome));
  }

  /** The drained state: cursor at the end, buffer empty, every record out. */
  lemma {:induction false} RunDrains(order: seq<int>, completion: seq<int>, outcome: int -> Entry)
    requires Distinct(order) && Distinct(completion)
    requires forall x :: x in completion <==> x in order
    ensures var r := Run(order, completion, outcome);
            r.next == |order| && r.buffer == map[] && r.records == Records(order, outcome)
  {
    assert forall i :: 0 <= i < |completion| ==> completion[i] in order by {
      forall i | 0 <= i < |completion|
        ensures completion[i] in order
      {
        assert completion[i] in completion;
      }
    }
    RunInv(order, completion, outcome);
    InvAllDone(Run(order, completion, outcome), order, outcome, completion);
  }

  /** The invariant with every task of `order` submitted: all emitted. */
  lemma InvAllDone(r: State, order: seq<int>, outcome: int -> Entry, completion: seq<int>)
    requires Inv(r, order, outcome, completion)
    requires forall x :: x in completion <==> x in order
    ensures r.next == |order| && r.buffer == map[] && r.records == Records(order, outcome)
  {
    forall i | 0 <= i < |order|
      ensures order[i] in completion
    {
      var x := order[i];
      assert x in order;
      assert x in completion <==> x in order;
    }
    assert r.next == |order|;
    assert order[..r.next] == order;
    forall x
      ensures x !in r.buffer
    {
      assert x in r.buffer ==> x in completion && x !in order;
    }
    assert r.buffer == map[];
  }

  /** The final state does not depend on the completion order: a pool of one
      worker and a pool of fifty give the same counts, lists and emission
      stream. */
  lemma {:induction false} RunIndependentOfCompletion(order: seq<int>, c1: seq<int>, c2: seq<int>, outcome: int -> Entry)
    requires Distinct(order) && Distinct(c1) && Distinct(c2)
    requires forall x :: x in c1 <==> x in order
    requires forall x :: x in c2 <==> x in order
    ensures Run(order, c1, outcome) == Run(order, c2, outcome)
  {
    RunComplete(order, c1, outcome);
    RunComplete(order, c2, outcome);
  }

  lemma RecordsPrefix(ids: seq<int>, outcome: int -> Entry, n: nat)
    requires n <= |ids|
    ensures Records(ids, outcome)[..n] == Records(ids[..n], outcome)
  {
  }

  /** An id is in the list for kind `k` exactly when it is a task whose
      outcome has kind `k`. */
  lemma {:induction false} IdsOfKindMembers(ids: seq<int>, outcome: int -> Entry, k: Kind, x: int)
    ensures x in IdsOfKind(Records(ids, outcome), k) <==> x in ids && outcome(x).kind == k
  {
    if |ids| > 0 {
      var n := |ids| - 1;
      var rs := Records(ids, outcome);
      RecordsPrefix(ids, outcome, n);
      IdsOfKindMembers(ids[..n], outcome, k, x);
      assert ids == ids[..n] + [ids[n]];
    }
  }

  /** No id is both a success and an already-done one. */
  lemma SuccessAlreadyDisjoint(ids: seq<int>, outcome: int -> Entry, x: int)
    ensures !(x in IdsOfKind(Records(ids, outcome), Success) && x in IdsOfKind(Records(ids, outcome), Already))
  {
    IdsOfKindMembers(ids, outcome, Success, x);
    IdsOfKindMembers(ids, outcome, Already, x);
  }

  predicate Increasing(xs: seq<int>) {
    forall i, j :: 0 <= i < j < |xs| ==> xs[i] < xs[j]
  }

  /** Over an ascending `order` the id lists come out ascending. */
  lemma {:induction false} IdsOfKindIncreasing(ids: seq<int>, outcome: int -> Entry, k: Kind)
    requires Increasing(ids)
    ensures Increasing(IdsOfKind(Records(ids, outcome), k))
  {
    if |ids| > 0 {
      var n := |ids| - 1;
      var rs := Records(ids, outcome);
      RecordsPrefix(ids, outcome, n);
      assert rs[..n] == Records(ids[..n], outcome);
      IdsOfKindIncreasing(ids[..n], outcome, k);
      var pre := IdsOfKind(Records(ids[..n], outcome), k);
      forall j | 0 <= j < |pre|
        ensures pre[j] < ids[n]
      {
        IdsOfKindMembers(ids[..n], outcome, k, pre[j]);
      }
    }
  }

  /** The counter of a kind is the length of its id list. */
  lemma {:induction false} CountIsIdsLength(rs: seq<Record>, k: Kind)
    ensures CountKind(rs, k) == |IdsOfKind(rs, k)|
  {
    if |rs| > 0 {
      CountIsIdsLength(rs[..|rs| - 1], k);
    }
  }
}
