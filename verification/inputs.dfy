/** Numeric input handling of the interactive menus: clamping a typed
    setting into its range, falling back to the default on an empty or
    unparsable answer, and the start/end id range of `batch_vote`. */
module Inputs {
  import opened Wrappers
  import opened Text

  /** `max(lo, min(hi, x))`. */
  function Clamp(lo: int, hi: int, x: int): (r: int)
    requires lo <= hi
    ensures lo <= r <= hi
    ensures lo <= x <= hi ==> r == x
    ensures x < lo ==> r == lo
    ensures x > hi ==> r == hi
  {
    if x < lo then lo else if x > hi then hi else x
  }

  /** A typed numeric setting: `int(answer.strip() or str(default))` clamped
      into `[lo, hi]`; when `int` raises, the `except` branch assigns the
      default unclamped. */
  function ReadSetting(answer: string, default: int, lo: int, hi: int): (r: int)
    requires lo <= hi
    ensures lo <= default <= hi ==> lo <= r <= hi
    ensures Strip(answer) == "" ==> r == Clamp(lo, hi, default)
    ensures forall v :: ParseInt(answer) == Some(v) ==> r == Clamp(lo, hi, v)
    ensures Strip(answer) != "" && ParseInt(answer).None? ==> r == default
  {
    var t := Strip(answer);
    StripIdempotent(answer);
    assert ParseInt(t) == ParseInt(answer);
    if t == "" then Clamp(lo, hi, default)
    else match ParseInt(t)
      case Some(v) => Clamp(lo, hi, v)
      case None => default
  }

  /** Page count of the username search (default 30, range 1 to 5000). */
  function SearchPages(answer: string): (r: int)
    ensures 1 <= r <= 5000
  {
    ReadSetting(answer, 30, 1, 5000)
  }

  /** Thread count of the username search (default 8, range 1 to 200). */
  function SearchThreads(answer: string): (r: int)
    ensures 1 <= r <= 200
  {
    ReadSetting(answer, 8, 1, 200)
  }

  /** Thread count of `batch_vote` (recommended 100, range 10 to 500). */
  function VoteThreads(answer: string): (r: int)
    ensures 10 <= r <= 500
  {
    ReadSetting(answer, 100, 10, 500)
  }

  /** The start and end ids of `batch_vote`: both must parse (otherwise the
      menu reports an input error and returns), and a reversed pair is
      swapped. */
  function ReadRange(startAnswer: string, endAnswer: string): (r: Option<(int, int)>)
    ensures r.Some? <==> ParseInt(startAnswer).Some? && ParseInt(endAnswer).Some?
    ensures r.Some? ==> r.value.0 <= r.value.1
    ensures r.Some? ==> {r.value.0, r.value.1} == {ParseInt(startAnswer).value, ParseInt(endAnswer).value}
  {
    match (ParseInt(startAnswer), ParseInt(endAnswer))
    case (Some(a), Some(b)) => if a > b then Some((b, a)) else Some((a, b))
    case _ => None
  }

  /** `list(range(start, end + 1))`. */
  function TaskIds(start: int, end: int): (r: seq<int>)
    ensures |r| == if end < start then 0 else end - start + 1
    ensures forall i :: 0 <= i < |r| ==> r[i] == start + i
    decreases end - start
  {
    if end < start then [] else [start] + TaskIds(start + 1, end)
  }

  /** The ids of a range are ascending and each lies in the range. */
  lemma TaskIdsShape(start: int, end: int)
    ensures forall i, j :: 0 <= i < j < |TaskIds(start, end)| ==> TaskIds(start, end)[i] < TaskIds(start, end)[j]
    ensures forall x :: x in TaskIds(start, end) <==> start <= x <= end
  {
    var r := TaskIds(start, end);
    forall x | start <= x <= end
      ensures x in r
    {
      assert r[x - start] == x;
    }
  }
}
