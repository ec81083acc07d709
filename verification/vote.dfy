/** The vote classifier: `vote_check` (the validity probe), `vote_do` (the
    vote call) and the per-task mapping of `process_task` inside
    `batch_vote`. The HTTP exchange itself is an input: a `Reply` stands for
    whatever `requests.post` and `r.json()` produced. */
module Vote {
  import opened Wrappers
  import opened Text

  /** The decoded body of a status-200 reply. */
  datatype Body =
    /** `r.json()` raised, or the JSON value is not an object, so `data.get`
        raises. */
    | Malformed
    /** A JSON object; `None` for `code` or `msg` means the key is absent. */
    | Object(code: Option<int>, msg: Option<string>, data: string)

  datatype Reply =
    /** `requests.post` raised (timeout, connection refused, ...). */
    | Raised
    | Http(status: int, body: Body)

  /** The status text `vote_do` and `vote_check` return. */
  datatype Label = Voted | AlreadyVoted | VoteFailed | HttpNot200 | RequestError

  function LabelText(l: Label): string {
    match l
    case Voted => "投票成功"
    case AlreadyVoted => "已投过票"
    case VoteFailed => "投票失败"
    case HttpNot200 => "HTTP 非 200"
    case RequestError => "请求异常"
  }

  /** The result tuple `(ok, label, code, msg, data)` of `vote_do`; a `None`
      code is Python's `None`. */
  datatype VoteDoResult = VoteDoResult(ok: bool, status: Label, code: Option<int>, msg: string, data: string)

  /** The result tuple `(valid, status, code, data)` of `vote_check`. */
  datatype CheckResult = CheckResult(valid: bool, status: string, code: Option<int>, data: string)

  /** The three result types `process_task` produces. */
  datatype Kind = Success | Already | Failed

  /** One `(result_type, code, msg, data)` entry of `output_buffer`. */
  datatype Entry = Entry(kind: Kind, code: Option<int>, msg: string, data: string)

  /** The message markers by which the server says the vote already happened. */
  predicate AlreadyMarked(msg: string) {
    Contains(msg, "已投") || Contains(msg, "重复") || Contains(msg, "投过")
  }

  /** Reference classification of a vote reply: success on a 200 reply with
      code 1, already-done on a 200 reply with code 0 and an "already" marker
      in the message, failure on everything else. */
  function Classify(reply: Reply): Kind {
    if reply.Http? && reply.status == 200 && reply.body.Object? then
      if reply.body.code == Some(1) then Success
      else if reply.body.code == Some(0) && AlreadyMarked(reply.body.msg.GetOr("")) then Already
      else Failed
    else Failed
  }

  /** `vote_do`: turns the reply of the vote call into its result tuple. */
  function VoteDo(reply: Reply): (r: VoteDoResult)
    ensures r.ok <==> Classify(reply) != Failed
    ensures r.ok ==> r.code == (if Classify(reply) == Success then Some(1) else Some(0))
    ensures r.status == Voted <==> Classify(reply) == Success
    ensures r.status == AlreadyVoted <==> Classify(reply) == Already
    ensures r.status == HttpNot200 <==> reply.Http? && reply.status != 200
    ensures r.status == HttpNot200 ==> r.code == Some(reply.status) && r.msg == "" && r.data == ""
    ensures r.status == RequestError <==> reply.Raised? || (reply.Http? && reply.status == 200 && reply.body.Malformed?)
    ensures r.status == RequestError ==> r.code == Some(0) && r.msg == "" && r.data == ""
    ensures reply.Http? && reply.status == 200 && reply.body.Object? ==>
              r.code == reply.body.code && r.msg == reply.body.msg.GetOr("") && r.data == reply.body.data
  {
    match reply
    case Raised => VoteDoResult(false, RequestError, Some(0), "", "")
    case Http(status, body) =>
      if status != 200 then VoteDoResult(false, HttpNot200, Some(status), "", "")
      else
        match body
        case Malformed => VoteDoResult(false, RequestError, Some(0), "", "")
        case Object(code, msg0, data) =>
          var msg := msg0.GetOr("");
          if code == Some(1) then VoteDoResult(true, Voted, code, msg, data)
          else if code == Some(0) && AlreadyMarked(msg) then VoteDoResult(true, AlreadyVoted, code, msg, data)
          else VoteDoResult(false, VoteFailed, code, msg, data)
  }

  /** `vote_check`: the validity probe. A task is valid when the probe's reply
      is a 200 object with code 1; a missing code reads as 0. */
  function VoteCheck(reply: Reply): (r: CheckResult)
    ensures r.valid <==> reply.Http? && reply.status == 200 && reply.body.Object? && reply.body.code == Some(1)
    ensures reply.Http? && reply.status == 200 && reply.body.Object? ==>
              r.code == Some(reply.body.code.GetOr(0)) && r.status == reply.body.msg.GetOr("") && r.data == reply.body.data
    ensures reply.Http? && reply.status != 200 ==> r.code == Some(reply.status) && r.status == "HTTP 非 200" && r.data == ""
    ensures reply.Raised? || (reply.Http? && reply.status == 200 && reply.body.Malformed?) ==> r.code == Some(0) && r.data == ""
  {
    match reply
    case Raised => CheckResult(false, "请求异常", Some(0), "")
    case Http(status, body) =>
      if status != 200 then CheckResult(false, "HTTP 非 200", Some(status), "")
      else
        match body
        case Malformed => CheckResult(false, "请求异常", Some(0), "")
        case Object(code, msg, data) =>
          CheckResult(code == Some(1), msg.GetOr(""), Some(code.GetOr(0)), data)
  }

  /** The probe and the vote call read a reply alike: the probe accepts a
      task exactly when the vote call would classify the same reply as a
      success, and it then reports the same code. */
  lemma ProbeAgreesWithVote(reply: Reply)
    ensures VoteCheck(reply).valid <==> Classify(reply) == Success
    ensures VoteCheck(reply).valid ==> VoteCheck(reply).code == VoteDo(reply).code == Some(1)
  {
  }

  /** The entry `process_task` stores when its body raises. */
  const ProcessingError := Entry(Failed, Some(0), "处理异常", "")

  /** `process_task` as written. With `checkFirst`, the probe's four-element
      result is unpacked into five names, which raises ValueError whatever the
      probe answered; the handler turns that into `ProcessingError`, so the
      vote call is never made. `probe` is the probe's reply and `reply` the
      vote call's reply. */
  function ProcessTask(checkFirst: bool, probe: Reply, reply: Reply): (e: Entry)
    ensures checkFirst ==> e == ProcessingError
    ensures !checkFirst ==> e.kind == Classify(reply)
    ensures !checkFirst ==> e.code == VoteDo(reply).code && e.msg == VoteDo(reply).msg && e.data == VoteDo(reply).data
  {
    if checkFirst then ProcessingError
    else
      VoteOutcome(reply)
  }

  /** The part of `process_task` after the (optional) probe: `vote_do`'s tuple
      mapped to a result type, ok with code 1 being success and ok with any
      other code being already-done. */
  function VoteOutcome(reply: Reply): (e: Entry)
    ensures e.kind == Classify(reply)
  {
    var v := VoteDo(reply);
    var kind := if v.ok then (if v.code == Some(1) then Success else Already) else Failed;
    Entry(kind, v.code, v.msg, v.data)
  }

  /** `process_task` as evidently intended: an invalid probe fails the task
      with the probe's code, status text and data; a valid probe goes on to
      the vote. */
  function ProcessTaskIntended(checkFirst: bool, probe: Reply, reply: Reply): (e: Entry)
    ensures checkFirst && !VoteCheck(probe).valid ==>
              e == Entry(Failed, VoteCheck(probe).code, VoteCheck(probe).status, VoteCheck(probe).data)
    ensures !checkFirst || VoteCheck(probe).valid ==> e.kind == Classify(reply)
    ensures !checkFirst || VoteCheck(probe).valid ==> e == ProcessTask(false, probe, reply)
  {
    if checkFirst && !VoteCheck(probe).valid then
      var c := VoteCheck(probe);
      Entry(Failed, c.code, c.status, c.data)
    else
      VoteOutcome(reply)
  }

  /** With the probe switched on, every task fails as written, even when the
      probe accepts it and the vote would have succeeded. */
  lemma CheckFirstAlwaysFails(probe: Reply, reply: Reply)
    requires VoteCheck(probe).valid && Classify(reply) == Success
    ensures ProcessTask(true, probe, reply).kind == Failed
    ensures ProcessTaskIntended(true, probe, reply).kind == Success
  {
  }

  /** Without the probe the two definitions agree. */
  lemma IntendedAgreesWithoutProbe(probe: Reply, reply: Reply)
    ensures ProcessTaskIntended(false, probe, reply) == ProcessTask(false, probe, reply)
  {
  }

  /** Worked cases of the classification: a 200 reply with code 1 is a success; code 0
      with "已投" in the message is already-done; code 0 without a marker and
      any other code fail. */
  lemma ClassifierExamples(msg: string)
    ensures ProcessTask(false, Raised, Http(200, Object(Some(1), Some(msg), ""))).kind == Success
    ensures ProcessTask(false, Raised, Http(200, Object(Some(0), Some("已投"), ""))).kind == Already
    ensures ProcessTask(false, Raised, Http(200, Object(Some(0), Some("您今天" + "重复" + "了"), ""))).kind == Already
    ensures ProcessTask(false, Raised, Http(200, Object(Some(0), Some("x"), ""))).kind == Failed
    ensures ProcessTask(false, Raised, Http(200, Object(Some(2), Some("已投"), ""))).kind == Failed
    ensures ProcessTask(false, Raised, Http(500, Object(Some(1), Some(msg), ""))).kind == Failed
  {
    assert Contains("已投", "已投");
    var m := "您今天" + "重复" + "了";
    assert m[3..] == "重复" + "了";
    assert "重复" <= m[3..];
    assert Contains(m[3..], "重复");
    assert Contains(m[2..], "重复");
    assert Contains(m[1..], "重复");
    assert !Contains("x", "已投") && !Contains("x", "重复") && !Contains("x", "投过") by {
      assert !Contains("x"[1..], "已投");
      assert !Contains("x"[1..], "重复");
      assert !Contains("x"[1..], "投过");
    }
  }
}
