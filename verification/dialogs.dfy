/** Non-widget logic of `MainScreen`: the numeric defaults of the batch
    dialogs and the masking of saved accounts' phone numbers. */
module Dialogs {
  import opened Wrappers
  import opened Text

  /** A dialog field that is missing or left empty. */
  predicate Blank(values: map<string, string>, key: string) {
    key !in values || values[key] == ""
  }

  /** `int(values.get(key, default) or default)`: a missing key or an empty
      answer gives the default; any other answer is parsed as given, and one
      `int` rejects raises (modelled as `None`), ending the callback. Only
      the empty string is falsy: a field of spaces is not blank and raises. */
  function DialogInt(values: map<string, string>, key: string, default: int): (r: Option<int>)
    ensures Blank(values, key) ==> r == Some(default)
    ensures !Blank(values, key) ==> r == ParseInt(values[key])
    ensures !Blank(values, key) && Strip(values[key]) == "" ==> r == None
  {
    if Blank(values, key) then Some(default) else ParseInt(values[key])
  }

  /** A field holding the printed form of a number gives that number, not
      the default. */
  lemma DialogIntReadsBack(values: map<string, string>, key: string, default: int, n: int)
    requires key in values && values[key] == Decimal(n)
    ensures DialogInt(values, key, default) == Some(n)
  {
    DecimalRoundTrip(n);
  }

  /** `_do_batch_crawl`: start page (default 1) and page count (default 3).
      The crawl runs exactly when each field is blank or an integer; a blank
      field takes its default and any other field its own value. */
  function DoBatchCrawl(values: map<string, string>): (r: Option<(int, int)>)
    ensures r.Some? <==> (Blank(values, "start") || ParseInt(values["start"]).Some?)
                         && (Blank(values, "pages") || ParseInt(values["pages"]).Some?)
    ensures r.Some? && Blank(values, "start") ==> r.value.0 == 1
    ensures r.Some? && Blank(values, "pages") ==> r.value.1 == 3
    ensures r.Some? && !Blank(values, "start") ==> ParseInt(values["start"]) == Some(r.value.0)
    ensures r.Some? && !Blank(values, "pages") ==> ParseInt(values["pages"]) == Some(r.value.1)
  {
    match (DialogInt(values, "start", 1), DialogInt(values, "pages", 3))
    case (Some(start), Some(pages)) => Some((start, pages))
    case _ => None
  }

  /** Filling both crawl fields with printed numbers crawls exactly those. */
  lemma CrawlReadsBack(start: int, pages: int)
    ensures DoBatchCrawl(map["start" := Decimal(start), "pages" := Decimal(pages)]) == Some((start, pages))
  {
    var values := map["start" := Decimal(start), "pages" := Decimal(pages)];
    DialogIntReadsBack(values, "start", 1, start);
    DialogIntReadsBack(values, "pages", 3, pages);
  }

  /** A thread count of spaces is an answer `int` rejects: the callback
      ends instead of using the default. */
  lemma SpacesAreNotBlank()
    ensures DialogInt(map["threads" := "  "], "threads", 50) == None
  {
    assert Strip("  ") == "";
  }

  /** `_do_batch_vote`: start id (default 1), end id (default 100) and
      thread count (default 50), with a reversed range swapped. */
  function DoBatchVote(values: map<string, string>): (r: Option<(int, int, int)>)
    ensures r.Some? <==> DialogInt(values, "start", 1).Some? && DialogInt(values, "end", 100).Some?
                         && DialogInt(values, "threads", 50).Some?
    ensures r.Some? ==> r.value.0 <= r.value.1
    ensures r.Some? ==> {r.value.0, r.value.1} == {DialogInt(values, "start", 1).value, DialogInt(values, "end", 100).value}
    ensures r.Some? ==> r.value.2 == DialogInt(values, "threads", 50).value
  {
    match (DialogInt(values, "start", 1), DialogInt(values, "end", 100), DialogInt(values, "threads", 50))
    case (Some(start), Some(end), Some(threads)) =>
      if start > end then Some((end, start, threads)) else Some((start, end, threads))
    case _ => None
  }

  /** A plain run of digits parses to its value. */
  lemma {:induction false} ParseDigits(s: string)
    requires |s| > 0 && AllDigits(s)
    ensures ParseInt(s) == Some(DigitsValue(s) as int)
  {
    StripNoSpace(s);
  }

  /** "0" is an answer, not an empty field: a thread count of 0 is passed on
      as 0, not replaced by the default 50. */
  lemma ZeroIsAnAnswer(values: map<string, string>)
    requires "threads" in values && values["threads"] == "0"
    requires DoBatchVote(values).Some?
    ensures DoBatchVote(values).value.2 == 0
  {
    assert DigitsValue("0") == 0 by { assert "0"[..0] == ""; }
    ParseDigits("0");
  }

  /** With the end field left empty, a start above the default end 100 is
      swapped with it. */
  lemma SwapAboveDefaultEnd(values: map<string, string>, start: int)
    requires "start" in values && values["start"] != "" && ParseInt(values["start"]) == Some(start)
    requires "end" !in values || values["end"] == ""
    requires "threads" !in values || values["threads"] == ""
    requires start > 100
    ensures DoBatchVote(values) == Some((100, start, 50))
  {
    assert DialogInt(values, "start", 1) == Some(start);
    assert DialogInt(values, "end", 100) == Some(100);
    assert DialogInt(values, "threads", 50) == Some(50);
  }

  /** How a saved account's phone shows: first 3 characters, `****`, last 4
      characters; shorter values show `Token`. */
  function PhoneDisplay(phone: string): (r: string)
    ensures |phone| < 7 ==> r == "Token"
    ensures |phone| >= 7 ==> |r| == 11 && r[..3] == phone[..3] && r[3..7] == "****" && r[7..] == phone[|phone| - 4..]
  {
    if |phone| >= 7 then phone[..3] + "****" + phone[|phone| - 4..] else "Token"
  }

  /** The display depends only on the first 3 and last 4 characters: two
      numbers that differ only in between look the same. */
  lemma PhoneDisplayHidesMiddle(a: string, b: string)
    requires |a| >= 7 && |b| >= 7
    requires a[..3] == b[..3] && a[|a| - 4..] == b[|b| - 4..]
    ensures PhoneDisplay(a) == PhoneDisplay(b)
  {
  }
}
