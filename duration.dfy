/** Decoding of the profile page's duration texts, such as `3日 4時間 5分`, into `time.Duration`
    (tissue.go, `trimDurationFunc`, `toRawNumberString` and `elemToDuration`). */
module DurationText {
  import opened Wrappers
  import opened GoStrings
  import opened GoStrconv

  /** `time.Duration`: a count of nanoseconds, here without the 64-bit bound. */
  type Duration = int

  const Minute: Duration := 60_000_000_000
  const Hour: Duration := 3_600_000_000_000
  const Day: Duration := 86_400_000_000_000

  /** The unit runes that may surround a number: 日 (day), 時間 (hours), 分 (minutes), 経過 (elapsed). */
  const DurationUnits: set<char> := {'日', '時', '間', '分', '経', '過'}

  /** `trimDurationFunc`. */
  function IsDurationUnit(r: char): (trim: bool)
    ensures trim <==> r in DurationUnits
  {
    r == '日' || r == '時' || r == '間' || r == '分' || r == '経' || r == '過'
  }

  /** `toRawNumberString`: strips unit runes from both ends, then deletes every comma
      (the thousands separator). */
  function ToRawNumberString(s: string): (r: string)
    ensures |r| <= |s|
    ensures ',' !in r
  {
    DeleteRuneSpec(TrimFunc(s, IsDurationUnit), ',');
    DeleteRune(TrimFunc(s, IsDurationUnit), ',')
  }

  /** Every rune other than the comma is kept as often as it occurs in the trimmed text. */
  lemma RawNumberKeepsOtherRunes(s: string)
    ensures var r := ToRawNumberString(s);
            forall x :: x != ',' ==> multiset(r)[x] == multiset(TrimFunc(s, IsDurationUnit))[x]
  {
    DeleteRuneSpec(TrimFunc(s, IsDurationUnit), ',');
  }

  /** A token counts as decoded when its raw number text parses as a 64-bit integer. */
  function TokenValue(token: string): Option<int>
  {
    ParseDecimal(ToRawNumberString(token))
  }

  /** The length of `days` days, `hours` hours and `minutes` minutes. */
  function Span(days: int, hours: int, minutes: int): Duration
  {
    days * Day + hours * Hour + minutes * Minute
  }

  /** `elemToDuration`: days, hours and minutes from exactly three tokens; zero when the count is
      wrong or any one token does not parse, so a result is never a partial sum. */
  function ElemToDuration(elem: seq<string>): (d: Duration)
    ensures |elem| != 3 ==> d == 0
    ensures |elem| == 3 && (TokenValue(elem[0]).None? || TokenValue(elem[1]).None? || TokenValue(elem[2]).None?) ==> d == 0
    ensures |elem| == 3 && TokenValue(elem[0]).Some? && TokenValue(elem[1]).Some? && TokenValue(elem[2]).Some? ==>
              d == Span(TokenValue(elem[0]).value, TokenValue(elem[1]).value, TokenValue(elem[2]).value)
  {
    if |elem| == 3 then
      match (TokenValue(elem[0]), TokenValue(elem[1]), TokenValue(elem[2]))
      case (Some(days), Some(hours), Some(minutes)) =>
        days * Hour * 24 + hours * Hour + minutes * Minute
      case _ => 0
    else 0
  }

  /** A comma-free run of digits passes through `toRawNumberString` unchanged. */
  lemma RawNumberOfDigits(s: string)
    requires AllDigits(s)
    ensures ToRawNumberString(s) == s
  {
    if s != [] {
      assert !IsDurationUnit(s[0]) && !IsDurationUnit(s[|s| - 1]);
    }
    assert [] + s + [] == s;
    TrimFuncExact([], s, [], IsDurationUnit);
    assert ',' !in s by { assert !IsDigit(','); }
    DeleteRuneSpec(s, ',');
  }

  /** Unit runes around a comma-free number are stripped, and nothing else is touched. */
  lemma RawNumberStripsUnits(pre: string, number: string, post: string)
    requires All(pre, IsDurationUnit) && All(post, IsDurationUnit)
    requires number != [] && !IsDurationUnit(number[0]) && !IsDurationUnit(number[|number| - 1])
    requires ',' !in number
    ensures ToRawNumberString(pre + number + post) == number
  {
    TrimFuncExact(pre, number, post, IsDurationUnit);
    DeleteRuneSpec(number, ',');
  }

  /** Thousands separators between digit groups are dropped: `1,234日` reads as 1234. */
  lemma RawNumberDropsGrouping(high: string, low: string, unit: string)
    requires high != [] && low != [] && AllDigits(high) && AllDigits(low)
    requires All(unit, IsDurationUnit)
    ensures ToRawNumberString(high + "," + low + unit) == high + low
  {
    var number := high + "," + low;
    assert !IsDurationUnit(number[0]) by { assert number[0] == high[0]; }
    assert !IsDurationUnit(number[|number| - 1]) by { assert number[|number| - 1] == low[|low| - 1]; }
    assert [] + number + unit == high + "," + low + unit;
    TrimFuncExact([], number, unit, IsDurationUnit);
    DeleteCommaBetween(high, low);
  }

  lemma DeleteCommaBetween(high: string, low: string)
    requires AllDigits(high) && AllDigits(low)
    ensures DeleteRune(high + "," + low, ',') == high + low
  {
    assert ',' !in high && ',' !in low;
    DeleteRuneSpec(high, ',');
    DeleteRuneSpec(low, ',');
    DeleteRuneSpec(",", ',');
    DeleteRuneAppend(high + ",", low, ',');
    DeleteRuneAppend(high, ",", ',');
  }

  /** A number printed by `FormatInt` and followed by unit runes decodes back to that number. */
  lemma TokenValueOfRendered(n: int, unit: string)
    requires InInt64(n)
    requires All(unit, IsDurationUnit)
    ensures TokenValue(FormatInt(n) + unit) == Some(n)
  {
    var s := FormatInt(n);
    FormatIntShape(n);
    assert ',' !in s by {
      forall i | 0 <= i < |s| ensures s[i] != ',' { }
    }
    assert [] + s + unit == s + unit;
    RawNumberStripsUnits([], s, unit);
    ParseFormatInt(n);
  }

  /** The tokens the site renders for a duration of `days`, `hours` and `minutes`. */
  function RenderDuration(days: int, hours: int, minutes: int): seq<string>
  {
    [FormatInt(days) + "日", FormatInt(hours) + "時間", FormatInt(minutes) + "分"]
  }

  /** Decoding the rendered tokens gives back the duration they stand for. */
  lemma ElemToDurationOfRendered(days: int, hours: int, minutes: int)
    requires InInt64(days) && InInt64(hours) && InInt64(minutes)
    ensures ElemToDuration(RenderDuration(days, hours, minutes)) == Span(days, hours, minutes)
  {
    TokenValueOfRendered(days, "日");
    TokenValueOfRendered(hours, "時間");
    TokenValueOfRendered(minutes, "分");
  }

  /** `3日 4時間 5分` is 76 hours and 5 minutes. */
  lemma ElemToDurationExample()
    ensures ElemToDuration(["3日", "4時間", "5分"]) == 76 * Hour + 5 * Minute
  {
    assert FormatInt(3) == "3" && FormatInt(4) == "4" && FormatInt(5) == "5";
    var rendered := RenderDuration(3, 4, 5);
    assert rendered[0] == "3日" && rendered[1] == "4時間" && rendered[2] == "5分";
    assert rendered == ["3日", "4時間", "5分"];
    ElemToDurationOfRendered(3, 4, 5);
  }

  lemma MultipleOfMinute(k: int)
    ensures (k * Minute) % Minute == 0 && k * Minute != -1
  {
    assert Minute == 60_000_000_000;
    assert (k * 60_000_000_000) % 60_000_000_000 == 0;
  }

  /** Every decoded duration is a whole number of minutes, so it is never the sentinel -1. */
  lemma ElemToDurationWholeMinutes(elem: seq<string>)
    ensures ElemToDuration(elem) % Minute == 0
    ensures ElemToDuration(elem) != -1
  {
    var d := ElemToDuration(elem);
    if |elem| == 3 && TokenValue(elem[0]).Some? && TokenValue(elem[1]).Some? && TokenValue(elem[2]).Some? {
      var days, hours, minutes := TokenValue(elem[0]).value, TokenValue(elem[1]).value, TokenValue(elem[2]).value;
      assert d == days * Day + hours * Hour + minutes * Minute;
      var k := days * 1440 + hours * 60 + minutes;
      assert Minute == 60_000_000_000 && Hour == 3_600_000_000_000 && Day == 86_400_000_000_000;
      assert d == k * Minute;
      MultipleOfMinute(k);
    } else {
      MultipleOfMinute(0);
    }
  }
}
