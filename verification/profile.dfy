/** Small user-profile helpers: the sanity guard of `timestamp_to_datetime`
    and the label fallbacks `get_sex_text`, `get_sex_o_text` and
    `get_sex_p_text`. */
module Profile {
  import opened Wrappers
  import opened Text

  /** Upper bound `timestamp_to_datetime` accepts (a date in 2033). */
  const MaxTimestamp := 2000000000

  /** The timestamp `timestamp_to_datetime` goes on to format, or `None`:
      a missing or zero timestamp is falsy, and anything outside
      `[0, 2000000000]` is rejected. */
  function TimestampGuard(ts: Option<int>): (r: Option<int>)
    ensures r.Some? <==> ts.Some? && 0 < ts.value <= MaxTimestamp
    ensures r.Some? ==> r.value == ts.value
  {
    match ts
    case None => None
    case Some(t) =>
      if t == 0 then None
      else if t < 0 || t > MaxTimestamp then None
      else Some(t)
  }

  /** A raw JSON value of a numeric profile field (`sex`, `sex_o`, `sex_p`). */
  datatype Field = Missing | Num(n: int) | Str(s: string) | OtherValue

  const SexLabels: map<int, string> := map[1 := "男", 2 := "女", 3 := "伪娘", 4 := "跨性别男性", 5 := "跨性别女性"]
  const SexOLabels: map<int, string> := map[1 := "双重", 2 := "异性恋", 3 := "男同", 4 := "女同", 0 := ""]
  const SexPLabels: map<int, string> := map[1 := "Dom", 2 := "Sub", 3 := "S", 4 := "M", 5 := "Switch", 0 := ""]

  /** A ready-made text the server sent is used when it is present,
      non-empty, not "未知" and not a `用户_` placeholder. */
  predicate Usable(text: Option<string>) {
    text.Some? && text.value != "" && !Placeholder(text.value)
  }

  /** `s.startswith("用户_")`. */
  predicate UserPrefixed(s: string) {
    |s| >= 3 && s[0] == '用' && s[1] == '户' && s[2] == '_'
  }

  /** A text no caller would show as a label. */
  predicate Placeholder(s: string) {
    s == "未知" || UserPrefixed(s)
  }

  /** The integer a field looks up in a label table (`user.get(key, 0)`);
      a string or other value never equals an integer key. */
  function FieldKey(f: Field): Option<int> {
    match f
    case Missing => Some(0)
    case Num(n) => Some(n)
    case Str(_) => None
    case OtherValue => None
  }

  /** The shared shape of the three getters: the ready-made text if usable,
      else the table's label for the key, else "". */
  function LabelFallback(text: Option<string>, table: map<int, string>, key: Option<int>): (r: string)
    requires forall k :: k in table ==> !Placeholder(table[k])
    ensures Usable(text) ==> r == text.value
    ensures !Usable(text) ==> r == (if key.Some? && key.value in table then table[key.value] else "")
    ensures !Placeholder(r)
  {
    if Usable(text) then text.value
    else if key.Some? && key.value in table then
      var k := key.value;
      assert k in table;
      table[k]
    else ""
  }

  lemma LabelsAreNotPlaceholders()
    ensures forall k :: k in SexLabels ==> !Placeholder(SexLabels[k])
    ensures forall k :: k in SexOLabels ==> !Placeholder(SexOLabels[k])
    ensures forall k :: k in SexPLabels ==> !Placeholder(SexPLabels[k])
  {
  }

  /** `get_sex_text`. */
  function SexText(sexText: Option<string>, sex: Field): (r: string)
    ensures Usable(sexText) ==> r == sexText.value
    ensures !Usable(sexText) && sex.Num? ==> r == (if sex.n in SexLabels then SexLabels[sex.n] else "")
    ensures !Usable(sexText) && !sex.Num? ==> r == ""
    ensures !Placeholder(r)
  {
    LabelsAreNotPlaceholders();
    LabelFallback(sexText, SexLabels, FieldKey(sex))
  }

  /** `get_sex_o_text`: as the others, except that a string of digits is
      converted to its integer first. */
  function SexOText(sexOText: Option<string>, sexO: Field): (r: string)
    ensures Usable(sexOText) ==> r == sexOText.value
    ensures !Usable(sexOText) && sexO.Num? ==> r == (if sexO.n in SexOLabels then SexOLabels[sexO.n] else "")
    ensures !Usable(sexOText) && sexO.Str? && |sexO.s| > 0 && AllDigits(sexO.s) ==>
              r == (if DigitsValue(sexO.s) in SexOLabels then SexOLabels[DigitsValue(sexO.s)] else "")
    ensures !Usable(sexOText) && sexO.Str? && !(|sexO.s| > 0 && AllDigits(sexO.s)) ==> r == ""
    ensures !Usable(sexOText) && (sexO.Missing? || sexO.OtherValue?) ==> r == ""
    ensures !Placeholder(r)
  {
    LabelsAreNotPlaceholders();
    assert SexOLabels[0] == "";
    var key := match sexO
      case Str(s) => if |s| > 0 && AllDigits(s) then Some(DigitsValue(s) as int) else None
      case _ => FieldKey(sexO);
    LabelFallback(sexOText, SexOLabels, key)
  }

  /** `get_sex_p_text`. */
  function SexPText(sexPText: Option<string>, sexP: Field): (r: string)
    ensures Usable(sexPText) ==> r == sexPText.value
    ensures !Usable(sexPText) && sexP.Num? ==> r == (if sexP.n in SexPLabels then SexPLabels[sexP.n] else "")
    ensures !Usable(sexPText) && !sexP.Num? ==> r == ""
    ensures !Placeholder(r)
  {
    LabelsAreNotPlaceholders();
    assert SexPLabels[0] == "";
    LabelFallback(sexPText, SexPLabels, FieldKey(sexP))
  }

  /** For the orientation, the decimal text of a code reads like the code
      itself; for the sex field it does not, and yields "". */
  lemma DigitStringsOnlyForOrientation(n: nat)
    ensures SexOText(None, Str(NatDecimal(n))) == SexOText(None, Num(n))
    ensures SexText(None, Str(NatDecimal(n))) == ""
  {
    NatDecimalValue(n);
  }

  /** A placeholder text falls back to the table: "未知" with sex 2 reads
      "女", a missing field reads as code 0. */
  lemma FallbackExamples()
    ensures SexText(Some("未知"), Num(2)) == "女"
    ensures SexText(Some("用户_7"), Missing) == ""
    ensures SexPText(None, Num(5)) == "Switch"
    ensures SexOText(Some(""), Str("3")) == "男同"
  {
    assert AllDigits("3") && DigitsValue("3") == 3 by {
      assert "3"[..0] == "";
    }
  }
}
