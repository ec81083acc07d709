/** The GUI log of `MainScreen`: `log` buffers each line and schedules at
    most one flush; `_flush_log_buffer` appends the buffered lines to the
    label text and keeps the text bounded. The Kivy clock is modelled by a
    `pending` count of scheduled callbacks and a `Fire` event that runs one. */
module LogPanel {

  const MaxLength := 15000
  const KeptLength := 10000

  datatype Panel = Panel(buffer: seq<string>, scheduled: bool, text: string, pending: nat)

  /** The total length of some strings. */
  function TotalLength(args: seq<string>): nat {
    if |args| == 0 then 0 else |args[0]| + TotalLength(args[1..])
  }

  /** `' '.join(args)`: the arguments with one space between each two. */
  function Join(args: seq<string>): (r: string)
    ensures |r| == TotalLength(args) + (if |args| == 0 then 0 else |args| - 1)
    ensures |args| > 0 ==> args[0] <= r
  {
    if |args| == 0 then ""
    else if |args| == 1 then args[0]
    else args[0] + " " + Join(args[1..])
  }

  /** Joining one more argument appends a space and that argument: the
      join read from the other end. */
  lemma {:induction false} JoinSnoc(args: seq<string>, a: string)
    requires |args| > 0
    ensures Join(args + [a]) == Join(args) + " " + a
  {
    if |args| == 1 {
      assert args + [a] == [args[0], a];
    } else {
      assert (args + [a])[1..] == args[1..] + [a];
      JoinSnoc(args[1..], a);
    }
  }

  /** `''.join(lines)`. */
  function Concat(lines: seq<string>): string {
    if |lines| == 0 then "" else Concat(lines[..|lines| - 1]) + lines[|lines| - 1]
  }

  predicate IsSuffix(a: string, b: string) {
    |a| <= |b| && b[|b| - |a|..] == a
  }

  /** `log(*args)`: buffer the line; schedule a flush unless one is pending. */
  function Log(p: Panel, args: seq<string>): (r: Panel)
    ensures r.buffer == p.buffer + [Join(args) + "\n"] && r.text == p.text
    ensures r.scheduled
    ensures r.pending == if p.scheduled then p.pending else p.pending + 1
  {
    var line := Join(args) + "\n";
    if p.scheduled then p.(buffer := p.buffer + [line])
    else p.(buffer := p.buffer + [line], scheduled := true, pending := p.pending + 1)
  }

  /** `_flush_log_buffer`. */
  function FlushLog(p: Panel): (r: Panel)
    ensures !r.scheduled && r.buffer == [] && r.pending == p.pending
    ensures p.buffer == [] ==> r.text == p.text
    ensures p.buffer != [] ==> |r.text| <= MaxLength && IsSuffix(r.text, p.text + Concat(p.buffer))
    ensures |p.text + Concat(p.buffer)| <= MaxLength ==> r.text == p.text + Concat(p.buffer)
    ensures p.buffer != [] && |p.text + Concat(p.buffer)| > MaxLength ==> |r.text| == KeptLength
  {
    if p.buffer == [] then p.(scheduled := false)
    else
      var combined := p.text + Concat(p.buffer);
      var text := if |combined| > MaxLength then combined[|combined| - KeptLength..] else combined;
      p.(scheduled := false, buffer := [], text := text)
  }

  /** The clock runs one scheduled callback, if any. */
  function Fire(p: Panel): (r: Panel)
    ensures p.pending == 0 ==> r == p
    ensures p.pending > 0 ==> r.pending == p.pending - 1 && !r.scheduled && r.buffer == []
    ensures p.pending > 0 ==> r.text == FlushLog(p).text
    ensures p.pending > 0 && p.buffer != [] ==> IsSuffix(r.text, p.text + Concat(p.buffer)) && |r.text| <= MaxLength
  {
    if p.pending == 0 then p else FlushLog(p).(pending := p.pending - 1)
  }

  datatype Event = LogCall(args: seq<string>) | Tick

  function Step(p: Panel, e: Event): Panel {
    match e
    case LogCall(args) => Log(p, args)
    case Tick => Fire(p)
  }

  function RunEvents(p: Panel, events: seq<Event>): Panel
    decreases |events|
  {
    if |events| == 0 then p else RunEvents(Step(p, events[0]), events[1..])
  }

  /** The line an event logs: a log call's joined arguments and newline. */
  function Line(e: Event): string {
    match e
    case LogCall(args) => Join(args) + "\n"
    case Tick => ""
  }

  /** Everything logged by `events`, in order. */
  function Logged(events: seq<Event>): string
    decreases |events|
  {
    if |events| == 0 then "" else Line(events[0]) + Logged(events[1..])
  }

  /** At most one flush is pending, the flag says whether one is, every
      buffered line has a flush coming, and the text is bounded. */
  predicate PanelInv(p: Panel) {
    && p.pending <= 1
    && (p.scheduled <==> p.pending == 1)
    && (p.buffer != [] ==> p.scheduled)
    && |p.text| <= MaxLength
  }

  lemma StepKeepsInv(p: Panel, e: Event)
    requires PanelInv(p)
    ensures PanelInv(Step(p, e))
  {
  }

  lemma ConcatAppend(lines: seq<string>, line: string)
    ensures Concat(lines + [line]) == Concat(lines) + line
  {
    assert (lines + [line])[..|lines|] == lines;
  }

  lemma SuffixAppend(a: string, b: string, c: string)
    requires IsSuffix(a, b)
    ensures IsSuffix(a + c, b + c)
  {
    assert (b + c)[|b + c| - |a + c|..] == b[|b| - |a|..] + c;
  }

  lemma SuffixTrans(a: string, b: string, c: string)
    requires IsSuffix(a, b) && IsSuffix(b, c)
    ensures IsSuffix(a, c)
  {
    assert c[|c| - |a|..] == c[|c| - |b|..][|b| - |a|..];
  }

  lemma AppendAssoc(a: string, b: string, c: string)
    ensures (a + b) + c == a + (b + c)
  {
  }

  /** One event keeps "shown text plus buffer is a suffix of the history",
      the history growing by the event's line. */
  lemma StepKeepsSuffix(p: Panel, e: Event, history: string)
    requires IsSuffix(p.text + Concat(p.buffer), history)
    ensures var q := Step(p, e);
            IsSuffix(q.text + Concat(q.buffer), history + Line(e))
  {
    var q := Step(p, e);
    if e.LogCall? {
      ConcatAppend(p.buffer, Line(e));
      assert q.text + Concat(q.buffer) == (p.text + Concat(p.buffer)) + Line(e);
      SuffixAppend(p.text + Concat(p.buffer), history, Line(e));
    } else {
      assert history + Line(e) == history;
      if p.pending > 0 && p.buffer != [] {
        assert q.text + Concat(q.buffer) == q.text;
        SuffixTrans(q.text, p.text + Concat(p.buffer), history);
      }
    }
  }

  /** What the panel shows plus what it still buffers is always a suffix of
      the initial text followed by every logged line: lines are only ever
      dropped from the front. */
  lemma {:induction false} RunKeepsSuffix(p: Panel, events: seq<Event>, history: string)
    requires IsSuffix(p.text + Concat(p.buffer), history)
    ensures var r := RunEvents(p, events);
            IsSuffix(r.text + Concat(r.buffer), history + Logged(events))
    decreases |events|
  {
    if |events| > 0 {
      var q := Step(p, events[0]);
      var h := history + Line(events[0]);
      assert IsSuffix(q.text + Concat(q.buffer), h) by {
        StepKeepsSuffix(p, events[0], history);
      }
      RunKeepsSuffix(q, events[1..], h);
      var r := RunEvents(q, events[1..]);
      assert r == RunEvents(p, events);
      assert Logged(events) == Line(events[0]) + Logged(events[1..]);
      AppendAssoc(history, Line(events[0]), Logged(events[1..]));
    }
  }
}
