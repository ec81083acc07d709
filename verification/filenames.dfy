/** File names built from user names: `INVALID_CHARS.sub("_", name)[:20]`
    with the `用户_{id}` fallback for an empty name. */
module FileNames {
  import opened Wrappers
  import opened Text

  /** The characters of the `INVALID_CHARS` class `[<>:"/|?*]`. */
  predicate Invalid(c: char) {
    c == '<' || c == '>' || c == ':' || c == '"' || c == '/' || c == '|' || c == '?' || c == '*'
  }

  predicate NoInvalid(s: string) {
    forall i :: 0 <= i < |s| ==> !Invalid(s[i])
  }

  /** `INVALID_CHARS.sub("_", name)`: every invalid character becomes `_`. */
  function Substitute(name: string): (r: string)
    ensures |r| == |name| && NoInvalid(r)
    ensures forall i :: 0 <= i < |name| && !Invalid(name[i]) ==> r[i] == name[i]
  {
    if |name| == 0 then ""
    else [if Invalid(name[0]) then '_' else name[0]] + Substitute(name[1..])
  }

  /** `INVALID_CHARS.sub("_", name)[:20]`. */
  function Sanitize(name: string): (r: string)
    ensures |r| == if |name| < 20 then |name| else 20
    ensures NoInvalid(r)
    ensures forall i :: 0 <= i < |r| ==> r[i] == (if Invalid(name[i]) then '_' else name[i])
  {
    var s := Substitute(name);
    assert forall i :: 0 <= i < |name| && Invalid(name[i]) ==> s[i] == '_' by {
      SubstituteInvalid(name);
    }
    if |s| <= 20 then s else s[..20]
  }

  lemma {:induction false} SubstituteInvalid(name: string)
    ensures forall i :: 0 <= i < |name| && Invalid(name[i]) ==> Substitute(name)[i] == '_'
  {
    if |name| > 0 {
      SubstituteInvalid(name[1..]);
      var s := Substitute(name);
      forall i | 0 < i < |name| && Invalid(name[i])
        ensures s[i] == '_'
      {
        assert s[i] == Substitute(name[1..])[i - 1];
      }
    }
  }

  /** Sanitising twice changes nothing more. */
  lemma SanitizeIdempotent(name: string)
    ensures Sanitize(Sanitize(name)) == Sanitize(name)
  {
    var r := Sanitize(name);
    var rr := Sanitize(r);
    assert |rr| == |r|;
    forall i | 0 <= i < |r|
      ensures rr[i] == r[i]
    {
    }
  }

  /** The name part: the sanitised name, or `用户_{id}` when the name is empty. */
  function SafeName(name: string, userId: int): (r: string)
    ensures name != "" ==> r == Sanitize(name) && |r| <= 20
    ensures name == "" ==> |r| >= 3 && r[..3] == "用户_" && ParseInt(r[3..]) == Some(userId)
    ensures NoInvalid(r)
  {
    if name != "" then Sanitize(name)
    else
      FallbackParses(userId);
      FallbackClean(userId);
      "用户_" + Decimal(userId)
  }

  /** The id reads back from `用户_{id}`. */
  lemma FallbackParses(userId: int)
    ensures var r := "用户_" + Decimal(userId);
            |r| >= 3 && r[..3] == "用户_" && ParseInt(r[3..]) == Some(userId)
  {
    var r := "用户_" + Decimal(userId);
    assert r[3..] == Decimal(userId);
    DecimalRoundTrip(userId);
  }

  /** `用户_{id}` is free of invalid characters. */
  lemma FallbackClean(userId: int)
    ensures NoInvalid("用户_" + Decimal(userId))
  {
    DecimalNoInvalid(userId);
    NoInvalidAppend("用户_", Decimal(userId));
  }

  lemma DecimalNoInvalid(n: int)
    ensures NoInvalid(Decimal(n))
  {
    var d := Decimal(n);
    forall i | 0 <= i < |d|
      ensures !Invalid(d[i])
    {
      assert IsDigit(d[i]) || d[i] == '-';
    }
  }

  lemma NoInvalidAppend(a: string, b: string)
    requires NoInvalid(a) && NoInvalid(b)
    ensures NoInvalid(a + b)
  {
    forall i | 0 <= i < |a + b|
      ensures !Invalid((a + b)[i])
    {
      if i < |a| {
        assert (a + b)[i] == a[i];
      } else {
        assert (a + b)[i] == b[i - |a|];
      }
    }
  }

  /** The text of a file name before its first `_`. */
  function IdPart(fileName: string): (r: string)
    ensures r <= fileName
  {
    if |fileName| == 0 || fileName[0] == '_' then "" else [fileName[0]] + IdPart(fileName[1..])
  }

  lemma {:induction false} IdPartOf(a: string, rest: string)
    requires forall i :: 0 <= i < |a| ==> a[i] != '_'
    ensures IdPart(a + "_" + rest) == a
  {
    if |a| > 0 {
      assert (a + "_" + rest)[1..] == a[1..] + "_" + rest;
      IdPartOf(a[1..], rest);
    }
  }

  /** The id reads back from the text before the first `_` of `{id}_…`. */
  lemma IdReadsBack(userId: int, rest: string)
    ensures ParseInt(IdPart(Decimal(userId) + "_" + rest)) == Some(userId)
  {
    var d := Decimal(userId);
    assert forall i :: 0 <= i < |d| ==> d[i] != '_' by {
      forall i | 0 <= i < |d|
        ensures d[i] != '_'
      {
        assert IsDigit(d[i]) || d[i] == '-';
      }
    }
    IdPartOf(d, rest);
    DecimalRoundTrip(userId);
  }

  /** `{id}_{part}.txt`: the id reads back from the text before the first
      `_`. */
  lemma FileNameId(userId: int, part: string)
    ensures ParseInt(IdPart(Decimal(userId) + "_" + part + ".txt")) == Some(userId)
  {
    var f := Decimal(userId) + "_" + part + ".txt";
    var rest := part + ".txt";
    assert f == Decimal(userId) + "_" + rest;
    IdReadsBack(userId, rest);
    assert IdPart(f) == IdPart(Decimal(userId) + "_" + rest);
  }

  /** `{id}_{part}.txt` adds no invalid character around the part. */
  lemma FileNameClean(userId: int, part: string)
    requires NoInvalid(part)
    ensures var f := Decimal(userId) + "_" + part + ".txt";
            NoInvalid(f) && |f| == |Decimal(userId)| + |part| + 5 && f[|f| - 4..] == ".txt"
            && f[|Decimal(userId)| + 1..|f| - 4] == part
  {
    var d := Decimal(userId);
    DecimalNoInvalid(userId);
    NoInvalidAppend(d, "_");
    NoInvalidAppend(d + "_", part);
    NoInvalidAppend(d + "_" + part, ".txt");
  }

  /** The file name of a user found by the search: `{id}_{safe_name}.txt`,
      where a missing `name` key reads as `用户_{id}` and is then sanitised
      like any other name. The id reads back from the part before the first
      `_`, the whole name is free of invalid characters, and a given name
      contributes at most 20 characters. */
  function SearchFileName(userId: int, name: Option<string>): (r: string)
    ensures ParseInt(IdPart(r)) == Some(userId)
    ensures NoInvalid(r) && |r| >= 4 && r[|r| - 4..] == ".txt"
    ensures name != Some("") ==> |r| <= |Decimal(userId)| + 25
    ensures name == Some("") ==> |r| == 2 * |Decimal(userId)| + 8
    ensures |Decimal(userId)| + 5 <= |r| && r[|Decimal(userId)| + 1..|r| - 4] == SafeName(name.GetOr("用户_" + Decimal(userId)), userId)
  {
    var username := name.GetOr("用户_" + Decimal(userId));
    assert name != Some("") ==> |username| > 0;
    var part := SafeName(username, userId);
    FileNameId(userId, part);
    FileNameClean(userId, part);
    Decimal(userId) + "_" + part + ".txt"
  }

  /** Two different users never share a result file, whatever their names. */
  lemma {:induction false} SearchFileNamesDistinct(a: int, b: int, nameA: Option<string>, nameB: Option<string>)
    requires a != b
    ensures SearchFileName(a, nameA) != SearchFileName(b, nameB)
  {
    var fa := SearchFileName(a, nameA);
    var fb := SearchFileName(b, nameB);
    assert ParseInt(IdPart(fa)) == Some(a) && ParseInt(IdPart(fb)) == Some(b);
  }

  /** A missing name falls back to `用户_{id}`, which is then cut to 20
      characters like a real name: for an id of 18 or more characters the
      file name no longer carries the whole id in its name part. */
  lemma MissingNameFallbackTruncated(userId: int)
    requires |Decimal(userId)| > 17
    ensures var fallback := "用户_" + Decimal(userId);
            |fallback| > 20
            && SearchFileName(userId, None) == Decimal(userId) + "_" + fallback[..20] + ".txt"
  {
    var u := "用户_" + Decimal(userId);
    forall i | 3 <= i < |u|
      ensures !Invalid(u[i])
    {
      assert u[i] == Decimal(userId)[i - 3];
    }
    assert Sanitize(u) == u[..20];
  }

  /** The file name of a follow-list export: `{id}_{safe_username}.txt` when
      the queried user's name is known, `{id}_用户关注列表.txt` otherwise. The
      id reads back from the part before the first `_`, and the whole name
      is free of invalid characters. */
  function AttentionFileName(userId: int, queriedName: string): (r: string)
    ensures ParseInt(IdPart(r)) == Some(userId)
    ensures NoInvalid(r) && |r| >= 4 && r[|r| - 4..] == ".txt"
    ensures queriedName != "" ==> |r| <= |Decimal(userId)| + 25
    ensures queriedName == "" ==> r == Decimal(userId) + "_用户关注列表.txt"
    ensures queriedName != "" ==> |Decimal(userId)| + 5 <= |r| && r[|Decimal(userId)| + 1..|r| - 4] == Sanitize(queriedName)
  {
    if queriedName != "" then
      var part := Sanitize(queriedName);
      FileNameId(userId, part);
      FileNameClean(userId, part);
      Decimal(userId) + "_" + part + ".txt"
    else
      ListFileName(userId);
      Decimal(userId) + "_用户关注列表.txt"
  }

  /** `{id}_用户关注列表.txt` has the shape of every other result file. */
  lemma ListFileName(userId: int)
    ensures var r := Decimal(userId) + "_用户关注列表.txt";
            ParseInt(IdPart(r)) == Some(userId) && NoInvalid(r) && |r| >= 4 && r[|r| - 4..] == ".txt"
  {
    var part := "用户关注列表";
    assert NoInvalid(part);
    assert Decimal(userId) + "_用户关注列表.txt" == Decimal(userId) + "_" + part + ".txt";
    FileNameId(userId, part);
    FileNameClean(userId, part);
  }

  /** Two different users never share a follow-list file. */
  lemma {:induction false} AttentionFileNamesDistinct(a: int, b: int, nameA: string, nameB: string)
    requires a != b
    ensures AttentionFileName(a, nameA) != AttentionFileName(b, nameB)
  {
    var fa := AttentionFileName(a, nameA);
    var fb := AttentionFileName(b, nameB);
    assert ParseInt(IdPart(fa)) == Some(a) && ParseInt(IdPart(fb)) == Some(b);
  }
}
