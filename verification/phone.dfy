/** The `/validatephonenumber` handler: ten characters, all of them digits. */
module PhoneValidation {
  import DotNet

  /** The body of the handler: `phoneNumber.Length == 10 && phoneNumber.All(char.IsDigit)`. */
  function ValidatePhoneNumber(phoneNumber: string): (isValid: bool)
    ensures isValid <==> |phoneNumber| == 10 && forall i :: 0 <= i < |phoneNumber| ==> DotNet.IsDigit(phoneNumber[i])
  {
    |phoneNumber| == 10 && DotNet.AllDigits(phoneNumber)
  }

  /** No separator or other normalisation is applied: any other length is rejected. */
  lemma WrongLengthRejected(phoneNumber: string)
    requires |phoneNumber| != 10
    ensures !ValidatePhoneNumber(phoneNumber)
  {
  }

  /** A single non-digit anywhere in a ten-character input rejects it. */
  lemma NonDigitRejected(phoneNumber: string, i: int)
    requires 0 <= i < |phoneNumber| && !DotNet.IsDigit(phoneNumber[i])
    ensures !ValidatePhoneNumber(phoneNumber)
  {
  }

  /** The decimal form of every ten-digit number is accepted. */
  lemma TenDigitNumbersAccepted(n: nat)
    requires 1_000_000_000 <= n < 10_000_000_000
    ensures ValidatePhoneNumber(DotNet.ToDecimal(n))
  {
    TenDigitLength(n);
  }

  lemma {:induction false} TenDigitLength(n: nat)
    requires 1_000_000_000 <= n < 10_000_000_000
    ensures |DotNet.ToDecimal(n)| == 10
  {
    DecimalLength(n, 9);
  }

  /** `ToDecimal` of a number in [10^k, 10^(k+1)) has k+1 digits. */
  lemma {:induction false} DecimalLength(n: nat, k: nat)
    requires DotNet.Pow10(k) <= n < DotNet.Pow10(k + 1)
    ensures |DotNet.ToDecimal(n)| == k + 1
  {
    if k > 0 {
      DecimalLength(n / 10, k - 1);
    }
  }

  /** Ten ASCII digits, as in the accepted integration-test cases. */
  lemma TenDigitsAccepted(phoneNumber: string)
    requires |phoneNumber| == 10
    requires forall i :: 0 <= i < 10 ==> '0' <= phoneNumber[i] <= '9'
    ensures ValidatePhoneNumber(phoneNumber)
  {
  }

  /** The inputs the integration tests expect to be accepted. */
  const AcceptedTestInputs: seq<string> := ["1234567890", "0987654321", "5555555555"]

  lemma AcceptedTestCases(k: nat)
    requires k < |AcceptedTestInputs|
    ensures ValidatePhoneNumber(AcceptedTestInputs[k])
  {
    if k == 0 {
      TenDigitsAccepted("1234567890");
    } else if k == 1 {
      TenDigitsAccepted("0987654321");
    } else {
      TenDigitsAccepted("5555555555");
    }
  }

  /** The inputs the integration tests expect to be rejected. */
  lemma RejectedTestCases()
    ensures !ValidatePhoneNumber("12345")
    ensures !ValidatePhoneNumber("abcdefghij")
    ensures !ValidatePhoneNumber("123-456-7890")
  {
    WrongLengthRejected("12345");
    WrongLengthRejected("123-456-7890");
    NonDigitRejected("abcdefghij", 0);
  }
}
