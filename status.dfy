/** `GetStatus`: the profile card of the top page decoded into a `Status` whose fields start at
    failure sentinels and are overwritten by what the card holds (tissue.go). */
module StatusPage {
  import opened Wrappers
  import opened GoStrings
  import opened GoStrconv
  import opened DurationText

  datatype User = User(id: string, displayName: string)

  /** `Session`; `resetTo` is a `time.Time` held as seconds since the Unix epoch. */
  datatype Session = Session(current: Duration, resetTo: int)

  datatype Overview = Overview(average: Duration, median: Duration, longest: Duration,
                               shortest: Duration, sum: Duration, count: int)

  /** The sentinels a field keeps until the page supplies a value for it. */
  const Unparsed: int := -1
  const UnixEpoch: int := 0
  const InitialUser := User("", "")
  const InitialSession := Session(Unparsed, UnixEpoch)
  const InitialOverview := Overview(Unparsed, Unparsed, Unparsed, Unparsed, Unparsed, Unparsed)

  /** The labels of the statistics table rows. */
  const AverageLabel := "平均記録"
  const MedianLabel := "中央値"
  const LongestLabel := "最長記録"
  const ShortestLabel := "最短記録"
  const SumLabel := "合計時間"
  const CountLabel := "通算回数"

  /** The suffix of the check-in count, 回 ("times"). */
  const CountSuffix := "回"

  datatype Field = Average | Median | Longest | Shortest | Sum | Count

  /** The field a row label selects, if any: the cases of the `switch`. */
  function LabelField(heading: string): (selected: Option<Field>)
    ensures selected.Some? ==> heading == FieldLabel(selected.value)
    ensures selected.None? ==> forall f: Field :: heading != FieldLabel(f)
  {
    if heading == AverageLabel then Some(Average)
    else if heading == MedianLabel then Some(Median)
    else if heading == LongestLabel then Some(Longest)
    else if heading == ShortestLabel then Some(Shortest)
    else if heading == SumLabel then Some(Sum)
    else if heading == CountLabel then Some(Count)
    else None
  }

  /** The label each field is shown under. */
  function FieldLabel(f: Field): string
  {
    match f
    case Average => AverageLabel
    case Median => MedianLabel
    case Longest => LongestLabel
    case Shortest => ShortestLabel
    case Sum => SumLabel
    case Count => CountLabel
  }

  /** A heading selects a field exactly when it is that field's label (the six labels are
      distinct); any other heading, including a label with stray inner spaces, selects nothing. */
  lemma LabelFieldExact(heading: string, f: Field)
    ensures LabelField(heading) == Some(f) <==> heading == FieldLabel(f)
  {
  }

  function FieldValue(o: Overview, f: Field): int
  {
    match f
    case Average => o.average
    case Median => o.median
    case Longest => o.longest
    case Shortest => o.shortest
    case Sum => o.sum
    case Count => o.count
  }

  /** `o` and `o'` hold the same value in every field except possibly `changed`. */
  predicate AgreeExcept(o: Overview, o': Overview, changed: Option<Field>)
  {
    forall f: Field :: Some(f) != changed ==> FieldValue(o, f) == FieldValue(o', f)
  }

  /** The texts already extracted from one `tbody tr` of `.tis-profile-stats-table`: `th` and `td`. */
  datatype TableRow = TableRow(headerText: string, cellText: string)

  function RowLabel(row: TableRow): string
  {
    TrimSpace(row.headerText)
  }

  function RowTokens(row: TableRow): (tokens: seq<string>)
    ensures |tokens| >= 1
  {
    Split(TrimSpace(row.cellText), ' ')
  }

  /** The count a `通算回数` row carries, if its first token parses once 回 is trimmed. */
  function RowCount(row: TableRow): (count: Option<int>)
    ensures var t := TrimCutset(RowTokens(row)[0], CountSuffix);
            count.Some? <==> IsDecimal(t) && InInt64(DecimalValue(t))
    ensures var t := TrimCutset(RowTokens(row)[0], CountSuffix);
            count.Some? ==> count.value == DecimalValue(t) && InInt64(count.value)
  {
    ParseDecimal(TrimCutset(RowTokens(row)[0], CountSuffix))
  }

  /** A cell printed as `<n>回` carries the count `n`, for every 64-bit `n`. */
  lemma RowCountOfRendered(headerText: string, n: int)
    requires InInt64(n)
    ensures RowCount(TableRow(headerText, FormatInt(n) + CountSuffix)) == Some(n)
  {
    var digits := FormatInt(n);
    var cell := digits + CountSuffix;
    FormatIntShape(n);
    assert [] + cell + [] == cell;
    TrimFuncExact([], cell, [], IsSpace);
    assert ' ' !in cell by {
      assert forall i :: 0 <= i < |digits| ==> cell[i] == digits[i];
    }
    SplitWithoutSeparator(cell, ' ');
    assert cell == [] + digits + CountSuffix;
    assert InCutset(CountSuffix)('回');
    TrimFuncExact([], digits, CountSuffix, InCutset(CountSuffix));
    ParseFormatInt(n);
  }

  /** One statistics row once decoded: the field its label selects, its cell read as a duration
      and its first token read as a count. */
  datatype RowValue = RowValue(selected: Option<Field>, duration: Duration, count: Option<int>)

  function DecodeRow(row: TableRow): RowValue
  {
    RowValue(LabelField(RowLabel(row)), ElemToDuration(RowTokens(row)), RowCount(row))
  }

  /** The rows of the table, decoded one by one in document order. */
  function DecodeRows(rows: seq<TableRow>): (values: seq<RowValue>)
    ensures |values| == |rows|
  {
    if rows == [] then [] else DecodeRows(rows[..|rows| - 1]) + [DecodeRow(rows[|rows| - 1])]
  }

  /** Each decoded row is the decoding of the row at the same position. */
  lemma {:induction false} DecodeRowsAt(rows: seq<TableRow>, i: nat)
    requires i < |rows|
    ensures DecodeRows(rows)[i] == DecodeRow(rows[i])
  {
    var init := rows[..|rows| - 1];
    if i < |rows| - 1 {
      DecodeRowsAt(init, i);
      assert DecodeRows(rows)[i] == DecodeRows(init)[i];
    }
  }

  /** The `switch` of one statistics row: a duration field takes the decoded duration, the count
      takes the parsed count only when there is one, and no selection changes nothing. */
  function UpdateOverview(o: Overview, v: RowValue): (o': Overview)
    ensures AgreeExcept(o, o', v.selected)
    ensures v.selected.None? ==> o' == o
    ensures forall f: Field :: f != Count && v.selected == Some(f) ==> FieldValue(o', f) == v.duration
    ensures v.selected == Some(Count) ==> o'.count == (if v.count.Some? then v.count.value else o.count)
    ensures o'.count != o.count ==> v.selected == Some(Count) && v.count == Some(o'.count)
  {
    match v.selected
    case Some(Average) => o.(average := v.duration)
    case Some(Median) => o.(median := v.duration)
    case Some(Longest) => o.(longest := v.duration)
    case Some(Shortest) => o.(shortest := v.duration)
    case Some(Sum) => o.(sum := v.duration)
    case Some(Count) =>
      (match v.count
       case Some(n) => o.(count := n)
       case None => o)
    case None => o
  }

  /** The overview after the `Each` over decoded rows, in document order. */
  function RowsOverview(o: Overview, values: seq<RowValue>): Overview
  {
    if values == [] then o else UpdateOverview(RowsOverview(o, values[..|values| - 1]), values[|values| - 1])
  }

  /** A field no row selects keeps its value. */
  lemma {:induction false} RowsOverviewUntouched(o: Overview, values: seq<RowValue>, f: Field)
    requires forall i :: 0 <= i < |values| ==> values[i].selected != Some(f)
    ensures FieldValue(RowsOverview(o, values), f) == FieldValue(o, f)
  {
    if values != [] {
      var init := values[..|values| - 1];
      assert forall i :: 0 <= i < |init| ==> init[i] == values[i];
      RowsOverviewUntouched(o, init, f);
      assert values[|values| - 1].selected != Some(f);
    }
  }

  /** A duration field holds the duration of the last row that selects it: the rows at index `k`
      selects `f` and none after it does. */
  lemma {:induction false} RowsOverviewLastRowDecides(o: Overview, values: seq<RowValue>, k: nat, f: Field)
    requires k < |values| && f != Count && values[k].selected == Some(f)
    requires forall i :: k < i < |values| ==> values[i].selected != Some(f)
    ensures FieldValue(RowsOverview(o, values), f) == values[k].duration
  {
    var init := values[..|values| - 1];
    assert forall i :: 0 <= i < |init| ==> init[i] == values[i];
    if k < |values| - 1 {
      RowsOverviewLastRowDecides(o, init, k, f);
      assert values[|values| - 1].selected != Some(f);
    }
  }

  /** A duration field is still `Unparsed` after the rows exactly when none selects it, as long as
      no decoded duration is itself -1. */
  lemma {:induction false} UnparsedIffUnselected(values: seq<RowValue>, f: Field)
    requires f != Count
    requires forall i :: 0 <= i < |values| ==> values[i].duration != Unparsed
    ensures FieldValue(RowsOverview(InitialOverview, values), f) == Unparsed <==>
              forall i :: 0 <= i < |values| ==> values[i].selected != Some(f)
  {
    if values != [] {
      var init := values[..|values| - 1];
      var last := values[|values| - 1];
      assert forall i :: 0 <= i < |init| ==> init[i] == values[i];
      UnparsedIffUnselected(init, f);
      if last.selected == Some(f) {
        assert FieldValue(RowsOverview(InitialOverview, values), f) == last.duration;
      } else {
        assert FieldValue(RowsOverview(InitialOverview, values), f) == FieldValue(RowsOverview(InitialOverview, init), f);
      }
    }
  }

  /** After the whole table, a duration field is still `Unparsed` exactly when no row carries
      its label: a row that does, even with malformed text, leaves a whole number of minutes. */
  lemma DurationUnparsedIffAbsent(rows: seq<TableRow>, f: Field)
    requires f != Count
    ensures FieldValue(RowsOverview(InitialOverview, DecodeRows(rows)), f) == Unparsed <==>
              forall i :: 0 <= i < |rows| ==> LabelField(RowLabel(rows[i])) != Some(f)
  {
    var values := DecodeRows(rows);
    forall i | 0 <= i < |values|
      ensures values[i].duration != Unparsed
      ensures values[i].selected == LabelField(RowLabel(rows[i]))
    {
      DecodeRowsAt(rows, i);
      ElemToDurationWholeMinutes(RowTokens(rows[i]));
    }
    UnparsedIffUnselected(values, f);
  }

  /** The count changes only through a `通算回数` row whose first token parses. */
  lemma {:induction false} CountOnlyFromCountRows(o: Overview, values: seq<RowValue>)
    requires forall i :: 0 <= i < |values| ==> values[i].selected != Some(Count) || values[i].count.None?
    ensures RowsOverview(o, values).count == o.count
  {
    if values != [] {
      var init := values[..|values| - 1];
      assert forall i :: 0 <= i < |init| ==> init[i] == values[i];
      CountOnlyFromCountRows(o, init);
      var last := values[|values| - 1];
      assert last.selected != Some(Count) || last.count.None?;
    }
  }

  /** The card of the top page, as the texts already extracted from it. */
  datatype ProfileCard = ProfileCard(
    displayNameText: string,  // `.tis-profile-mini-display-name a`
    nameText: string,         // `.tis-profile-mini-name a`
    sessionText: string,      // `h6 + p`
    resetText: string,        // `h6 + p + p`
    rows: seq<TableRow>)      // `.tis-profile-stats-table tbody tr`

  /** Why no card could be read: login, request, HTTP status or HTML parsing. */
  datatype FetchError = LoginFailed | RequestFailed | UnexpectedStatus(status: string) | MalformedDocument

  function SessionTokens(card: ProfileCard): seq<string>
  {
    Split(TrimSpace(card.sessionText), ' ')
  }

  function ResetTokens(card: ProfileCard): seq<string>
  {
    Split(TrimSpace(card.resetText), ' ')
  }

  /** The reset text has the two tokens (date and time) it is sliced for whenever the session
      text has three; otherwise the source panics. */
  predicate ResetTextUsable(card: ProfileCard)
  {
    |SessionTokens(card)| == 3 ==> |ResetTokens(card)| >= 2
  }

  function CardUser(card: ProfileCard): User
  {
    User(TrimSpace(card.displayNameText), TrimSpace(TrimPrefix(card.nameText, "@")))
  }

  /** The session: the current duration always, the reset time only when the session text has
      three tokens and `parseTime` (the `2006/01/02 15:04` layout) accepts the reset text. */
  function CardSession(card: ProfileCard, parseTime: string -> Option<int>): (s: Session)
    requires ResetTextUsable(card)
    ensures s.current == ElemToDuration(SessionTokens(card))
    ensures s.resetTo != UnixEpoch ==> |SessionTokens(card)| == 3
  {
    var resetTo :=
      if |SessionTokens(card)| == 3 then
        var texts := ResetTokens(card);
        match parseTime(Join([TrimCutset(texts[0], "("), texts[1]], ' '))
        case Some(t) => t
        case None => UnixEpoch
      else UnixEpoch;
    Session(ElemToDuration(SessionTokens(card)), resetTo)
  }

  /** The `*Status` that `GetStatus` fills in place. */
  class Status {
    var user: User
    var session: Session
    var overview: Overview

    /** The pre-initialised result: every duration and the count at -1, the reset at the epoch. */
    constructor ()
      ensures user == InitialUser && session == InitialSession && overview == InitialOverview
    {
      user := InitialUser;
      session := InitialSession;
      overview := InitialOverview;
    }

    /** The `switch` on one statistics row. */
    method ReadRow(row: TableRow)
      modifies this`overview
      ensures overview == UpdateOverview(old(overview), DecodeRow(row))
    {
      var durationLabel := TrimSpace(row.headerText);
      var durationTexts := Split(TrimSpace(row.cellText), ' ');
      var selected := LabelField(durationLabel);
      assert selected == DecodeRow(row).selected && durationTexts == RowTokens(row);
      match selected {
        case Some(Average) =>
          overview := overview.(average := ElemToDuration(durationTexts));
        case Some(Median) =>
          overview := overview.(median := ElemToDuration(durationTexts));
        case Some(Longest) =>
          overview := overview.(longest := ElemToDuration(durationTexts));
        case Some(Shortest) =>
          overview := overview.(shortest := ElemToDuration(durationTexts));
        case Some(Sum) =>
          overview := overview.(sum := ElemToDuration(durationTexts));
        case Some(Count) =>
          var count := ParseDecimal(TrimCutset(durationTexts[0], CountSuffix));
          assert count == RowCount(row);
          if count.Some? {
            overview := overview.(count := count.value);
          }
        case None =>
      }
    }

    /** The `User` part of `GetStatus`: the two names of the card, trimmed. */
    method ReadUser(card: ProfileCard)
      modifies this`user
      ensures user == CardUser(card)
    {
      user := user.(id := TrimSpace(card.displayNameText));
      user := user.(displayName := TrimSpace(TrimPrefix(card.nameText, "@")));
    }

    /** The `Session` part of `GetStatus`: the current duration, then the reset time when the
        session text has three tokens and the reset text parses. */
    method ReadSession(card: ProfileCard, parseTime: string -> Option<int>)
      requires ResetTextUsable(card)
      requires session.resetTo == UnixEpoch
      modifies this`session
      ensures session == CardSession(card, parseTime)
    {
      var currentSessionTexts := Split(TrimSpace(card.sessionText), ' ');
      session := session.(current := ElemToDuration(currentSessionTexts));
      assert currentSessionTexts == SessionTokens(card);

      var sessionResetTexts := Split(TrimSpace(card.resetText), ' ');
      if |currentSessionTexts| == 3 {
        ghost var texts := ResetTokens(card);
        assert sessionResetTexts == texts && |texts| >= 2;
        sessionResetTexts := sessionResetTexts[0 := TrimCutset(sessionResetTexts[0], "(")];
        var sessionResetText := Join(sessionResetTexts[0..2], ' ');
        assert sessionResetTexts[0..2] == [TrimCutset(texts[0], "("), texts[1]];
        var resetTo := parseTime(sessionResetText);
        if resetTo.Some? {
          session := session.(resetTo := resetTo.value);
        }
      }
    }

    /** The `Each` over the statistics rows, in document order. */
    method ReadRows(rows: seq<TableRow>)
      modifies this`overview
      ensures overview == RowsOverview(old(overview), DecodeRows(rows))
    {
      for i := 0 to |rows|
        invariant overview == RowsOverview(old(overview), DecodeRows(rows[..i]))
      {
        ghost var before := DecodeRows(rows[..i]);
        assert rows[..i + 1][..i] == rows[..i];
        assert DecodeRows(rows[..i + 1]) == before + [DecodeRow(rows[i])];
        assert (before + [DecodeRow(rows[i])])[..i] == before;
        ReadRow(rows[i]);
      }
      assert rows[..|rows|] == rows;
    }
  }

  /** `GetStatus`, given the outcome of fetching and parsing the top page. On a failure the
      sentinel-initialised result comes back with the error. */
  method GetStatus(page: Result<ProfileCard, FetchError>, parseTime: string -> Option<int>)
    returns (result: Status, err: Option<FetchError>)
    requires page.Success? ==> ResetTextUsable(page.value)
    ensures fresh(result)
    ensures page.Failure? ==>
              && err == Some(page.error)
              && result.user == InitialUser
              && result.session == InitialSession
              && result.overview == InitialOverview
    ensures page.Success? ==>
              && err == None
              && result.user == CardUser(page.value)
              && result.session == CardSession(page.value, parseTime)
              && result.overview == RowsOverview(InitialOverview, DecodeRows(page.value.rows))
  {
    result := new Status();
    if page.Failure? {
      return result, Some(page.error);
    }
    var card := page.value;
    result.ReadUser(card);
    result.ReadSession(card, parseTime);
    result.ReadRows(card.rows);
    err := None;
  }
}
