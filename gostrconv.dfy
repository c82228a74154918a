/** Go's base-10 integer conversions: `strconv.Atoi` (with a 64-bit `int`), `strconv.ParseInt(s, 10, 64)`
    and, as their inverse, `strconv.Itoa` / `FormatInt(n, 10)`. */
module GoStrconv {
  import opened Wrappers

  const MinInt64: int := -0x8000_0000_0000_0000
  const MaxInt64: int := 0x7FFF_FFFF_FFFF_FFFF

  predicate InInt64(n: int)
  {
    MinInt64 <= n <= MaxInt64
  }

  predicate IsDigit(c: char)
  {
    '0' <= c <= '9'
  }

  predicate AllDigits(s: string)
  {
    forall i :: 0 <= i < |s| ==> IsDigit(s[i])
  }

  function DigitValue(c: char): (d: nat)
    requires IsDigit(c)
    ensures d < 10
  {
    c as int - '0' as int
  }

  function DigitChar(d: nat): (c: char)
    requires d < 10
    ensures IsDigit(c) && DigitValue(c) == d
  {
    ('0' as int + d) as char
  }

  /** The value of a run of digits, accumulated most significant digit first. */
  function DigitsValue(ds: string): nat
    requires AllDigits(ds)
  {
    if ds == [] then 0 else DigitsValue(ds[..|ds| - 1]) * 10 + DigitValue(ds[|ds| - 1])
  }

  /** What base-10 parsing accepts: an optional `+` or `-`, then one or more digits, nothing else. */
  predicate IsDecimal(s: string)
  {
    if |s| > 0 && (s[0] == '+' || s[0] == '-') then |s| > 1 && AllDigits(s[1..])
    else |s| > 0 && AllDigits(s)
  }

  /** The signed value denoted by text that `IsDecimal` accepts. */
  function DecimalValue(s: string): int
    requires IsDecimal(s)
  {
    if s[0] == '-' then -(DigitsValue(s[1..]) as int)
    else if s[0] == '+' then DigitsValue(s[1..])
    else DigitsValue(s)
  }

  /** `strconv.Atoi` / `strconv.ParseInt(s, 10, 64)`: `None` stands for the returned error, which
      covers both malformed text and values outside the 64-bit range. */
  function ParseDecimal(s: string): (r: Option<int>)
    ensures r.Some? <==> IsDecimal(s) && InInt64(DecimalValue(s))
    ensures r.Some? ==> r.value == DecimalValue(s)
  {
    if s == [] then None
    else
      var negative := s[0] == '-';
      var digits := if s[0] == '+' || s[0] == '-' then s[1..] else s;
      if digits == [] || !AllDigits(digits) then None
      else
        var n: int := if negative then -(DigitsValue(digits) as int) else DigitsValue(digits);
        if InInt64(n) then Some(n) else None
  }

  const MaxUint64: int := 0xFFFF_FFFF_FFFF_FFFF

  /** The text `ParseInt` hands to `ParseUint`: everything after an optional sign. */
  function Unsigned(s: string): (u: string)
    ensures |s| > 0 && (s[0] == '+' || s[0] == '-') ==> s == s[..1] + u
    ensures (|s| == 0 || (s[0] != '+' && s[0] != '-')) ==> u == s
  {
    if |s| > 0 && (s[0] == '+' || s[0] == '-') then s[1..] else s
  }

  /** Some leading run of digits of `u` is worth more than a `uint64` holds. */
  predicate OverflowsUint64(u: string)
  {
    exists j :: 0 <= j <= |u| && AllDigits(u[..j]) && DigitsValue(u[..j]) > MaxUint64
  }

  /** How `ParseUint`'s digit loop ends. */
  datatype UintScan = Scanned(value: nat) | SyntaxError | RangeError

  /** The digit loop of `strconv.ParseUint(u, 10, 64)` from position `i` with `n` read so far: a
      range error at the first digit that takes the value past `MaxUint64`, a syntax error at the
      first non-digit, whichever comes first. */
  function ScanDigits(u: string, i: nat, n: nat): UintScan
    requires i <= |u|
    decreases |u| - i
  {
    if i == |u| then Scanned(n)
    else if !IsDigit(u[i]) then SyntaxError
    else if n * 10 + DigitValue(u[i]) > MaxUint64 then RangeError
    else ScanDigits(u, i + 1, n * 10 + DigitValue(u[i]))
  }

  /** `strconv.ParseUint(u, 10, 64)`: empty text is a syntax error. */
  function ParseUint(u: string): UintScan
  {
    if u == [] then SyntaxError else ScanDigits(u, 0, 0)
  }

  /** A longer run of leading digits is worth at least as much as a shorter one. */
  lemma {:induction false} DigitsValueMonotone(u: string, j: nat, k: nat)
    requires j <= k <= |u| && AllDigits(u[..k])
    ensures AllDigits(u[..j]) && DigitsValue(u[..j]) <= DigitsValue(u[..k])
  {
    assert forall x :: 0 <= x < j ==> u[..j][x] == u[..k][x];
    if j < k {
      assert u[..k][..k - 1] == u[..k - 1];
      assert forall x :: 0 <= x < k - 1 ==> u[..k - 1][x] == u[..k][x];
      DigitsValueMonotone(u, j, k - 1);
    }
  }

  /** The loop ends in a range error exactly when some leading run of digits overflows, and
      otherwise succeeds exactly on digits, with their value. */
  lemma {:induction false} ScanDigitsSpec(u: string, i: nat, n: nat)
    requires i <= |u| && AllDigits(u[..i]) && n == DigitsValue(u[..i]) && n <= MaxUint64
    ensures ScanDigits(u, i, n).RangeError? <==> OverflowsUint64(u)
    ensures ScanDigits(u, i, n).Scanned? <==> AllDigits(u) && !OverflowsUint64(u)
    ensures ScanDigits(u, i, n).Scanned? ==> ScanDigits(u, i, n).value == DigitsValue(u)
    decreases |u| - i
  {
    if OverflowsUint64(u) {
      var j :| 0 <= j <= |u| && AllDigits(u[..j]) && DigitsValue(u[..j]) > MaxUint64;
      if j <= i {
        DigitsValueMonotone(u, j, i);
      }
    }
    if i == |u| {
      assert u[..i] == u;
    } else if !IsDigit(u[i]) {
      assert !AllDigits(u);
    } else {
      var next := u[..i + 1];
      assert next[..i] == u[..i];
      assert AllDigits(next) by {
        assert forall x :: 0 <= x < i ==> next[x] == u[..i][x];
      }
      assert DigitsValue(next) == n * 10 + DigitValue(u[i]);
      if n * 10 + DigitValue(u[i]) <= MaxUint64 {
        ScanDigitsSpec(u, i + 1, n * 10 + DigitValue(u[i]));
      } else {
        assert AllDigits(u[..i + 1]) && DigitsValue(u[..i + 1]) > MaxUint64;
      }
    }
  }

  /** `ParseUint` fails with a range error exactly when a leading run of digits overflows, with a
      syntax error exactly when it does not and the text is empty or holds a non-digit, and
      otherwise returns the value of the digits. */
  lemma ParseUintSpec(u: string)
    ensures ParseUint(u).RangeError? <==> OverflowsUint64(u)
    ensures ParseUint(u).SyntaxError? <==> !OverflowsUint64(u) && (u == [] || !AllDigits(u))
    ensures ParseUint(u).Scanned? ==> AllDigits(u) && ParseUint(u).value == DigitsValue(u)
  {
    if u != [] {
      assert u[..0] == [];
      ScanDigitsSpec(u, 0, 0);
    }
  }

  /** The value `strconv.ParseInt(s, 10, 64)` returns beside its error: the bound on the side of
      the sign when `ParseUint` overflows or the value leaves the 64-bit range, 0 on a syntax
      error. `ParseUint` reads digits from the left and stops at the first overflow, so digits
      worth more than a `uint64` followed by junk still give the bound. */
  function ParseErrorValue(s: string): (v: int)
    requires ParseDecimal(s).None?
    ensures InInt64(v)
    ensures IsDecimal(s) && DecimalValue(s) < 0 ==> v == MinInt64
    ensures IsDecimal(s) && DecimalValue(s) >= 0 ==> v == MaxInt64
    ensures !IsDecimal(s) && OverflowsUint64(Unsigned(s)) ==> v == (if |s| > 0 && s[0] == '-' then MinInt64 else MaxInt64)
    ensures !IsDecimal(s) && !OverflowsUint64(Unsigned(s)) ==> v == 0
  {
    var u := Unsigned(s);
    var negative := |s| > 0 && s[0] == '-';
    ParseUintSpec(u);
    assert |s| > 0 && (s[0] == '+' || s[0] == '-') ==> s[1..] == u;
    match ParseUint(u)
    case SyntaxError => 0
    case _ => if negative then MinInt64 else MaxInt64
  }

  /** The shortest decimal digits of a natural number. */
  function NatDigits(n: nat): (ds: string)
    ensures |ds| >= 1 && AllDigits(ds)
  {
    if n < 10 then [DigitChar(n)] else NatDigits(n / 10) + [DigitChar(n % 10)]
  }

  /** `strconv.Itoa` / `strconv.FormatInt(n, 10)`. */
  function FormatInt(n: int): (s: string)
    ensures IsDecimal(s) && DecimalValue(s) == n
  {
    if n < 0 then
      NatDigitsValue(-n);
      var s := "-" + NatDigits(-n);
      assert s[1..] == NatDigits(-n);
      s
    else
      NatDigitsValue(n);
      NatDigits(n)
  }

  lemma {:induction false} NatDigitsValue(n: nat)
    ensures DigitsValue(NatDigits(n)) == n
  {
    if n >= 10 {
      NatDigitsValue(n / 10);
      var ds := NatDigits(n);
      assert ds[..|ds| - 1] == NatDigits(n / 10);
    }
  }

  /** Parsing what `FormatInt` prints gives back every 64-bit integer. */
  lemma ParseFormatInt(n: int)
    requires InInt64(n)
    ensures ParseDecimal(FormatInt(n)) == Some(n)
  {
  }

  /** A rune that is neither a digit nor a sign anywhere in the text makes parsing fail:
      no whitespace, separators or unit suffixes are tolerated. */
  lemma ParseRejectsForeignRune(s: string, i: nat)
    requires i < |s| && !IsDigit(s[i]) && s[i] != '+' && s[i] != '-'
    ensures ParseDecimal(s) == None
  {
    if s[0] == '+' || s[0] == '-' {
      assert s[1..][i - 1] == s[i];
    }
  }

  /** The printed form of an integer starts with a sign or a digit and ends with a digit. */
  lemma FormatIntShape(n: int)
    ensures var s := FormatInt(n); |s| >= 1 && (IsDigit(s[0]) || s[0] == '-') && IsDigit(s[|s| - 1])
    ensures forall i :: 0 <= i < |FormatInt(n)| ==> IsDigit(FormatInt(n)[i]) || FormatInt(n)[i] == '-'
  {
  }
}
