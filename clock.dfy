/**
 * The clock selector `getCurrentTime` (api/_utils/time.js). The process
 * environment, the request header and the system clock are its inputs:
 * `testMode` is `process.env.TEST_MODE`, `testHeader` the `x-test-now-ms`
 * header and `realNow` what `new Date()` would read, all in milliseconds.
 */
module Clock {
  import opened Wrappers
  import opened JsNumbers

  /** The only value of TEST_MODE that enables the override. */
  const TestModeOn := "1"

  /** The header is present and non-empty (a truthy string). */
  predicate HeaderGiven(testHeader: Option<string>) {
    testHeader.Some? && testHeader.value != ""
  }

  function GetCurrentTime(testMode: Option<string>, testHeader: Option<string>, realNow: int): (now: int)
    // the result is always the real time or the instant the header names
    ensures now == realNow || (testHeader.Some? && ParseInt(testHeader.value) == Some(now))
    // no test mode: the header is never trusted
    ensures testMode != Some(TestModeOn) ==> now == realNow
    // no header, or an empty one: real time
    ensures !HeaderGiven(testHeader) ==> now == realNow
    // test mode and a header that parses: exactly that instant
    ensures testMode == Some(TestModeOn) && testHeader.Some? && ParseInt(testHeader.value).Some? ==>
              now == ParseInt(testHeader.value).value
    // test mode but a header that is NaN: fall back to real time
    ensures testHeader.Some? && ParseInt(testHeader.value).None? ==> now == realNow
  {
    if testMode == Some(TestModeOn) && HeaderGiven(testHeader) then
      match ParseInt(testHeader.value)
      case Some(forced) => forced
      case None => realNow
    else
      realNow
  }

  /** In test mode, a header holding the decimal rendering of an instant forces exactly that instant. */
  lemma ForcedInstant(instant: int, realNow: int)
    ensures GetCurrentTime(Some(TestModeOn), Some(Decimal(instant)), realNow) == instant
  {
    ParseIntOfDecimal("", instant, "");
    assert "" + Decimal(instant) + "" == Decimal(instant);
  }
}
