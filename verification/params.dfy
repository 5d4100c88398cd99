/** The query-parameter validators shared by the FastAPI endpoints. A value that fails one
    is refused with 422 before the handler runs. */
module Params {
  import opened Wrappers
  import opened Http
  import Text

  const MinSafeYear := 1990
  const CountryMinLength := 2
  const CountryMaxLength := 8
  const IndicatorMinLength := 3
  const IndicatorMaxLength := 64

  predicate IsAsciiAlnum(c: char) {
    'A' <= c <= 'Z' || 'a' <= c <= 'z' || '0' <= c <= '9'
  }

  /** `[A-Za-z0-9-]` */
  predicate CountryChar(c: char) {
    IsAsciiAlnum(c) || c == '-'
  }

  /** `[A-Za-z0-9_.-]` */
  predicate IndicatorChar(c: char) {
    IsAsciiAlnum(c) || c == '_' || c == '.' || c == '-'
  }

  /** A whole-string match of `^[allowed]{minLen,maxLen}$`. */
  predicate FullMatch(s: string, minLen: nat, maxLen: nat, allowed: char -> bool) {
    minLen <= |s| <= maxLen && forall i :: 0 <= i < |s| ==> allowed(s[i])
  }

  predicate ValidCountryCode(s: string) {
    FullMatch(s, CountryMinLength, CountryMaxLength, CountryChar)
  }

  predicate ValidIndicatorCode(s: string) {
    FullMatch(s, IndicatorMinLength, IndicatorMaxLength, IndicatorChar)
  }

  /** The regular-expression matcher: the length check, then the character class scanned
      from the left. It accepts exactly the strings of `FullMatch`. */
  function MatchPattern(s: string, minLen: nat, maxLen: nat, allowed: char -> bool): (ok: bool)
    ensures ok <==> FullMatch(s, minLen, maxLen, allowed)
  {
    minLen <= |s| <= maxLen && ScanAllowed(s, allowed)
  }

  /** Every character, from the first on, is in the class. */
  function ScanAllowed(s: string, allowed: char -> bool): (ok: bool)
    ensures ok <==> forall i :: 0 <= i < |s| ==> allowed(s[i])
  {
    if |s| == 0 then true
    else
      assert forall i :: 1 <= i < |s| ==> s[i] == s[1..][i - 1];
      allowed(s[0]) && ScanAllowed(s[1..], allowed)
  }

  /** `CountryCodeParam`. */
  function CheckCountry(s: string): (r: Result<string, HttpError>)
    ensures r.Ok? <==> 2 <= |s| <= 8 && forall i :: 0 <= i < |s| ==> IsAsciiAlnum(s[i]) || s[i] == '-'
    ensures r.Ok? ==> r.value == s
    ensures r.Err? ==> r.error.status == Unprocessable
  {
    if MatchPattern(s, CountryMinLength, CountryMaxLength, CountryChar) then Ok(s)
    else Err(HttpError(Unprocessable, "country: string does not match pattern"))
  }

  /** `IndicatorCodeParam`. */
  function CheckIndicator(s: string): (r: Result<string, HttpError>)
    ensures r.Ok? <==> 3 <= |s| <= 64 && forall i :: 0 <= i < |s| ==> IsAsciiAlnum(s[i]) || s[i] in "_.-"
    ensures r.Ok? ==> r.value == s
    ensures r.Err? ==> r.error.status == Unprocessable
  {
    if MatchPattern(s, IndicatorMinLength, IndicatorMaxLength, IndicatorChar) then Ok(s)
    else Err(HttpError(Unprocessable, "indicator: string does not match pattern"))
  }

  /** `YearParam` / `OptionalYearParam`: 1990 up to the current UTC year, which the service
      reads once when it starts and which the model receives as `maxYear`. */
  function CheckYear(y: Option<int>, maxYear: int): (r: Result<Option<int>, HttpError>)
    ensures r.Ok? <==> y.None? || (MinSafeYear <= y.value && y.value <= maxYear)
    ensures r.Ok? ==> r.value == y
    ensures r.Err? ==> r.error.status == Unprocessable
  {
    if y.None? || (MinSafeYear <= y.value && y.value <= maxYear) then Ok(y)
    else Err(HttpError(Unprocessable, "year out of range"))
  }

  /** The validated query of the observation, correlation and inequality endpoints. */
  datatype SeriesQuery = SeriesQuery(country: string, indicator: string, start: Option<int>, end: Option<int>)

  function CheckSeriesQuery(country: string, indicator: string, start: Option<int>, end: Option<int>, maxYear: int)
    : (r: Result<SeriesQuery, HttpError>)
    ensures r.Ok? <==>
      CheckCountry(country).Ok? && CheckIndicator(indicator).Ok? && CheckYear(start, maxYear).Ok? && CheckYear(end, maxYear).Ok?
    ensures r.Ok? ==> r.value == SeriesQuery(country, indicator, start, end)
    ensures r.Err? ==> r.error.status == Unprocessable
  {
    if CheckCountry(country).Err? then Err(CheckCountry(country).error)
    else if CheckIndicator(indicator).Err? then Err(CheckIndicator(indicator).error)
    else if CheckYear(start, maxYear).Err? then Err(CheckYear(start, maxYear).error)
    else if CheckYear(end, maxYear).Err? then Err(CheckYear(end, maxYear).error)
    else Ok(SeriesQuery(country, indicator, start, end))
  }

  /** A start year of 1980 is refused with 422 whatever the current year. */
  lemma StartYear1980Refused(maxYear: int)
    ensures CheckSeriesQuery("KZ", "FP.CPI.TOTL.ZG", Some(1980), None, maxYear) == Err(HttpError(Unprocessable, "year out of range"))
  {
    assert ValidCountryCode("KZ");
    assert ValidIndicatorCode("FP.CPI.TOTL.ZG");
  }

  /** The handlers upper-case the country code; a code that passed validation still
      matches the pattern afterwards. */
  lemma UpperKeepsCountryValid(s: string)
    requires ValidCountryCode(s)
    ensures ValidCountryCode(Text.Upper(s))
  {
    forall i | 0 <= i < |s|
      ensures CountryChar(Text.Upper(s)[i])
    {
      assert CountryChar(s[i]);
    }
  }

  /** Every valid country code of at least three characters is also a valid indicator
      code: the indicator alphabet extends the country one. */
  lemma CountryAlphabetWithinIndicator(s: string)
    requires ValidCountryCode(s) && |s| >= 3
    ensures ValidIndicatorCode(s)
  {
  }

  /** Validated codes have no surrounding whitespace: trimming leaves them unchanged. */
  lemma ValidCodesAreStripped(s: string)
    requires ValidIndicatorCode(s)
    ensures Text.Strip(s) == s
  {
    assert !Text.IsSpace(Text.Python, s[0]) && !Text.IsSpace(Text.Python, s[|s| - 1]);
  }
}
