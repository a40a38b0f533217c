/** The choice of the number the send button posts: the value passed in, else
    the test field, else the confirmed result, trimmed; nothing is sent (and
    the page says there is no number) when that comes out empty. The network
    request itself is not modelled. */
module Sending {
  import opened Wrappers
  import opened TextNormalizer

  /** `((forceValue ?? testPea) || result).trim()` as the page computes it:
      a test field holding only white space is not empty, so it is chosen
      over the result and then trims to nothing. */
  function SelectAsWritten(forceValue: Option<string>, testPea: string, result: string): (sent: Option<string>)
    ensures sent.Some? ==> sent.value != "" && Trim(sent.value) == sent.value
    ensures var picked := if forceValue.GetOr(testPea) != "" then forceValue.GetOr(testPea) else result;
      sent == if AllSpace(picked) then None else Some(Trim(picked))
  {
    var chosen := forceValue.GetOr(testPea);
    var picked := if chosen != "" then chosen else result;
    var value := Trim(picked);
    TrimIdempotent(picked);
    TrimEmpty(picked);
    if value == "" then None else Some(value)
  }

  /** With a blank test field and no forced value, the selection as written
      refuses to send even though a result is confirmed. */
  lemma BlankTestFieldHidesResult(testPea: string, result: string)
    requires testPea != "" && AllSpace(testPea)
    ensures SelectAsWritten(None, testPea, result) == None
  {
    TrimEmpty(testPea);
  }

  /** The selection with the chosen value trimmed before the fall-back, the way
      the page's other test-field buttons treat a blank field as empty. */
  function Select(forceValue: Option<string>, testPea: string, result: string): (sent: Option<string>)
    ensures sent.Some? ==> sent.value != "" && Trim(sent.value) == sent.value
    ensures !AllSpace(forceValue.GetOr(testPea)) ==> sent == Some(Trim(forceValue.GetOr(testPea)))
    ensures sent.None? <==> AllSpace(forceValue.GetOr(testPea)) && AllSpace(result)
  {
    TrimEmpty(result);
    var given := forceValue.GetOr(testPea);
    var chosen := Trim(given);
    TrimEmpty(given);
    if chosen != "" then
      TrimIdempotent(given);
      Some(chosen)
    else
      var value := Trim(result);
      TrimIdempotent(result);
      if value == "" then None else Some(value)
  }

  /** A confirmed result is always sent when nothing else was given: whatever
      the test field and forced value hold, something is sent as long as the
      result is not blank, and it is the result when they are blank. */
  lemma SelectKeepsResult(forceValue: Option<string>, testPea: string, result: string)
    requires !AllSpace(result)
    ensures Select(forceValue, testPea, result).Some?
    ensures AllSpace(forceValue.GetOr(testPea)) ==> Select(forceValue, testPea, result) == Some(Trim(result))
  {
    TrimEmpty(result);
    TrimEmpty(forceValue.GetOr(testPea));
  }

  /** The corrected selection differs from the page's only for a chosen value
      made of white space alone. */
  lemma SelectAgreesOutsideBlank(forceValue: Option<string>, testPea: string, result: string)
    requires var chosen := forceValue.GetOr(testPea); chosen == "" || !AllSpace(chosen)
    ensures Select(forceValue, testPea, result) == SelectAsWritten(forceValue, testPea, result)
  {
    TrimEmpty(forceValue.GetOr(testPea));
  }
}
