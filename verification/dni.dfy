/**
 * The `/validatespanishdni` handler as it is written: it checks the length,
 * cuts the input into an eight-character number part and a one-character
 * letter part, and tries to parse the number part, but the checksum step is
 * an empty block and the result flag is never set.
 */
module DniValidation {
  import opened Wrappers
  import DotNet

  /**
   * The handler body. A `Failure` would be an exception escaping the
   * handler; the contract shows there is none, and that the answer is
   * `false` for every input.
   */
  function ValidateSpanishDni(dni: string): (r: Result<bool, DotNet.Fault>)
    ensures r.Success?
    ensures !r.value
  {
    var isValid := false;
    if |dni| == 9 then
      match DotNet.Substring(dni, 0, 8)
      case Failure(e) => Failure(e)
      case Success(numbers) =>
        match DotNet.Substring(dni, 8, 1)
        case Failure(e) => Failure(e)
        case Success(lastCharacter) =>
          match DotNet.TryParseInt32(numbers)
          case Some(number) =>
            // The checksum comparison is left unwritten: `isValid` stays false.
            Success(isValid)
          case None =>
            Success(isValid)
    else
      Success(isValid)
  }

  /** On a nine-character input both slices are in range and together give back the input. */
  lemma SlicesInBounds(dni: string)
    requires |dni| == 9
    ensures DotNet.Substring(dni, 0, 8).Success? && DotNet.Substring(dni, 8, 1).Success?
    ensures DotNet.Substring(dni, 0, 8).value + DotNet.Substring(dni, 8, 1).value == dni
  {
    assert DotNet.Substring(dni, 0, 8).value + DotNet.Substring(dni, 8, 1).value == dni[..8] + dni[8..9];
    assert dni[..8] + dni[8..9] == dni;
  }

  /**
   * The integration test's input "12345678Z" is the right length and its
   * number part parses, so the parse branch is reached; the answer is still false.
   */
  lemma IntegrationTestCase()
    ensures DotNet.Substring("12345678Z", 0, 8) == Success("12345678")
    ensures DotNet.TryParseInt32("12345678") == Some(12345678)
    ensures ValidateSpanishDni("12345678Z") == Success(false)
  {
    assert "12345678Z"[0..8] == "12345678";
    TestNumberPartParses();
  }

  /** The number part of the test input is a digit string that parses to its value. */
  lemma TestNumberPartParses()
    ensures DotNet.TryParseInt32("12345678") == Some(12345678)
  {
    assert DotNet.ToDecimal(12345678) == "12345678";
    DotNet.TryParseOfToDecimal(12345678);
  }
}
