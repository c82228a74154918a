/** The tail of `CheckIn`: after the form POST is answered with `302 Found`, the new check-in's ID
    is the last `/`-separated segment of the `Location` header (tissue.go). */
module CheckInLocation {
  import opened Wrappers
  import opened GoStrings
  import opened GoStrconv

  /** The ID returned, with no error, when the redirect carries no `Location`. */
  const NoCheckInId: int := -1

  /** The `strconv.ParseInt` error for a last segment that is not a 64-bit decimal, with the value
      `CheckIn` returns beside it. */
  datatype IdError = MalformedId(segment: string, returned: int)

  /** The last `/`-separated segment of a location. */
  function LastSegment(location: string): (segment: string)
    ensures '/' !in segment
  {
    var path := Split(location, '/');
    SplitPartsSeparatorFree(location, '/');
    path[|path| - 1]
  }

  /** The check-in ID carried by a `Location` header value. */
  function CheckInId(location: string): (r: Result<int, IdError>)
    ensures location == [] ==> r == Success(NoCheckInId)
    ensures location != [] && r.Success? ==> ParseDecimal(LastSegment(location)) == Some(r.value) && InInt64(r.value)
    ensures location != [] && r.Failure? ==> ParseDecimal(LastSegment(location)).None?
    ensures location != [] && r.Failure? ==>
              r.error == MalformedId(LastSegment(location), ParseErrorValue(LastSegment(location)))
  {
    if location == [] then Success(NoCheckInId)
    else
      var segment := LastSegment(location);
      match ParseDecimal(segment)
      case Some(id) => Success(id)
      case None => Failure(MalformedId(segment, ParseErrorValue(segment)))
  }

  /** Whatever follows the last `/` is the segment parsed. */
  lemma CheckInIdAfterLastSlash(prefix: string, segment: string)
    requires '/' !in segment
    ensures CheckInId(prefix + "/" + segment) ==
              match ParseDecimal(segment)
              case Some(id) => Success(id)
              case None => Failure(MalformedId(segment, ParseErrorValue(segment)))
  {
    SplitLast(prefix, segment, '/');
  }

  /** A redirect to `<anything>/<id>` yields that ID, for every 64-bit ID. */
  lemma CheckInIdOfRedirect(prefix: string, id: int)
    requires InInt64(id)
    ensures CheckInId(prefix + "/" + FormatInt(id)) == Success(id)
  {
    FormatIntShape(id);
    CheckInIdAfterLastSlash(prefix, FormatInt(id));
    ParseFormatInt(id);
  }

  /** An ID printed beyond the 64-bit range is an error, and `CheckIn` returns the nearer bound
      beside it. */
  lemma CheckInIdBeyondInt64(prefix: string, n: int)
    requires !InInt64(n)
    ensures CheckInId(prefix + "/" + FormatInt(n)) ==
              Failure(MalformedId(FormatInt(n), if n < 0 then MinInt64 else MaxInt64))
  {
    FormatIntShape(n);
    CheckInIdAfterLastSlash(prefix, FormatInt(n));
  }

  /** Digits worth more than a `uint64`, followed by anything that is not a digit, are an error
      returned with `MaxInt64`: `ParseUint` stops at the overflow before it reaches the junk. */
  lemma CheckInIdOverflowBeforeJunk(prefix: string, n: int, junk: string)
    requires n > MaxUint64
    requires '/' !in junk && junk != [] && !IsDigit(junk[0])
    ensures CheckInId(prefix + "/" + FormatInt(n) + junk) ==
              Failure(MalformedId(FormatInt(n) + junk, MaxInt64))
  {
    var digits := FormatInt(n);
    var segment := digits + junk;
    assert digits == NatDigits(n);
    NatDigitsValue(n);
    assert segment[..|digits|] == digits;
    assert !IsDecimal(segment) by {
      assert segment[|digits|] == junk[0];
    }
    assert Unsigned(segment) == segment;
    assert OverflowsUint64(segment) by {
      assert AllDigits(segment[..|digits|]) && DigitsValue(segment[..|digits|]) > MaxUint64;
    }
    assert '/' !in segment by {
      FormatIntShape(n);
      assert forall i :: 0 <= i < |digits| ==> segment[i] == digits[i];
      assert forall i :: |digits| <= i < |segment| ==> segment[i] == junk[i - |digits|];
    }
    assert prefix + "/" + FormatInt(n) + junk == prefix + "/" + segment;
    CheckInIdAfterLastSlash(prefix, segment);
  }

  /** A last segment holding anything other than digits and signs is an error, and so is an
      empty one (a trailing `/`). */
  lemma CheckInIdNonNumeric(prefix: string, segment: string)
    requires '/' !in segment
    requires segment == [] || exists i :: 0 <= i < |segment| && !IsDigit(segment[i]) && segment[i] != '+' && segment[i] != '-'
    ensures CheckInId(prefix + "/" + segment).Failure?
  {
    CheckInIdAfterLastSlash(prefix, segment);
    if segment != [] {
      var i :| 0 <= i < |segment| && !IsDigit(segment[i]) && segment[i] != '+' && segment[i] != '-';
      ParseRejectsForeignRune(segment, i);
    }
  }

  /** `https://shikorism.net/checkin/42` yields 42; a bare host yields an error. */
  lemma CheckInIdExamples()
    ensures CheckInId("https://shikorism.net/checkin/42") == Success(42)
    ensures CheckInId("https://shikorism.net/").Failure?
    ensures CheckInId("") == Success(NoCheckInId)
  {
    assert FormatInt(42) == "42";
    assert "https://shikorism.net/checkin" + "/" + "42" == "https://shikorism.net/checkin/42";
    CheckInIdOfRedirect("https://shikorism.net/checkin", 42);
    assert "https://shikorism.net" + "/" + "" == "https://shikorism.net/";
    CheckInIdNonNumeric("https://shikorism.net", "");
  }
}
