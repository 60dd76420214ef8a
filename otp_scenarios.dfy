/** The scenarios of the service's unit tests, run against a fresh
    `OtpService` and proved from the class's contracts alone. Each test's
    sleep becomes a later clock reading. The tests mean to shorten the
    validity duration; where a scenario takes the duration as an argument it
    states what the tests intend, and `ExpiryTestAsWritten` states what the
    service does with the duration it actually uses, the five-minute
    constant. */
module ServiceScenarios {
  import opened OtpFormat
  import opened JavaLong
  import opened Service

  /** Generating yields a six-digit passcode, stores it under the number,
      and stores a deadline in the future. */
  method GenerateStoresCode(mobileNumber: string, draw: nat, now: Long, validityMs: Long)
    returns (otp: string, stored: string, expiryTime: Long)
    requires draw < CodeSpace
    requires 0 < validityMs && now + validityMs <= MaxLong
    ensures IsCode(otp) && stored == otp && expiryTime > now
  {
    var service := new OtpService(validityMs);
    otp := service.GenerateOtp(mobileNumber, draw, now);
    stored := service.otpStorage[mobileNumber];
    expiryTime := service.otpExpiryStorage[mobileNumber];
  }

  /** The generated passcode is accepted once in time, which removes the
      number from both tables; presenting it again is rejected. */
  method GenerateThenValidate(mobileNumber: string, draw: nat, now: Long, later: Long, validityMs: Long)
    returns (valid: bool, codeKept: bool, expiryKept: bool, again: bool)
    requires draw < CodeSpace
    requires now <= later <= now + validityMs <= MaxLong
    ensures valid && !codeKept && !expiryKept && !again
  {
    var service := new OtpService(validityMs);
    var otp := service.GenerateOtp(mobileNumber, draw, now);
    valid := service.ValidateOtp(mobileNumber, otp, later);
    codeKept := mobileNumber in service.otpStorage;
    expiryKept := mobileNumber in service.otpExpiryStorage;
    again := service.ValidateOtp(mobileNumber, otp, later);
  }

  /** The draw 0 is rendered as the test's wrong guess. */
  lemma ZeroDrawCode()
    ensures Pad6(0) == "000000"
  {
  }

  /** The wrong guess "000000" is rejected and both entries stay, so the
      right passcode is still accepted afterwards. The guess is wrong only
      when the draw is not 0: the draw 0 is rendered as "000000". */
  method WrongGuessRejected(mobileNumber: string, draw: nat, now: Long, later: Long, validityMs: Long)
    returns (valid: bool, codeKept: bool, expiryKept: bool, rightAfter: bool)
    requires 0 < draw < CodeSpace
    requires now <= later <= now + validityMs <= MaxLong
    ensures !valid && codeKept && expiryKept && rightAfter
  {
    var service := new OtpService(validityMs);
    var otp := service.GenerateOtp(mobileNumber, draw, now);
    ZeroDrawCode();
    Pad6Injective(draw, 0);
    valid := service.ValidateOtp(mobileNumber, "000000", later);
    codeKept := mobileNumber in service.otpStorage;
    expiryKept := mobileNumber in service.otpExpiryStorage;
    rightAfter := service.ValidateOtp(mobileNumber, otp, later);
  }

  /** After the deadline the right passcode is rejected and both entries
      are purged: the expiry test as intended, with a duration short enough
      for its sleep to pass the deadline. */
  method ExpiredRejected(mobileNumber: string, draw: nat, now: Long, later: Long, validityMs: Long)
    returns (valid: bool, codeKept: bool, expiryKept: bool)
    requires draw < CodeSpace
    requires MinLong <= now + validityMs < later
    ensures !valid && !codeKept && !expiryKept
  {
    var service := new OtpService(validityMs);
    var otp := service.GenerateOtp(mobileNumber, draw, now);
    valid := service.ValidateOtp(mobileNumber, otp, later);
    codeKept := mobileNumber in service.otpStorage;
    expiryKept := mobileNumber in service.otpExpiryStorage;
  }

  /** A number for which nothing was generated is rejected and gets no entry. */
  method NeverIssuedRejected(mobileNumber: string, candidate: string, now: Long, validityMs: Long)
    returns (valid: bool, codeKept: bool, expiryKept: bool)
    ensures !valid && !codeKept && !expiryKept
  {
    var service := new OtpService(validityMs);
    valid := service.ValidateOtp(mobileNumber, candidate, now);
    codeKept := mobileNumber in service.otpStorage;
    expiryKept := mobileNumber in service.otpExpiryStorage;
  }

  /** The expiry test as the service runs it. The duration the service uses
      is the compile-time constant of five minutes, so the test's sleep of
      100 + 50 ms ends long before the deadline and the passcode is
      accepted and consumed, where the test expects a rejection. */
  method ExpiryTestAsWritten(mobileNumber: string, draw: nat, now: Long)
    returns (valid: bool, codeKept: bool, expiryKept: bool)
    requires draw < CodeSpace
    requires now + DefaultValidityMs <= MaxLong
    ensures valid && !codeKept && !expiryKept
  {
    var service := new OtpService.Default();
    var otp := service.GenerateOtp(mobileNumber, draw, now);
    valid := service.ValidateOtp(mobileNumber, otp, now + 150);
    codeKept := mobileNumber in service.otpStorage;
    expiryKept := mobileNumber in service.otpExpiryStorage;
  }

  /** With the draw 0 the wrong-guess test's guess "000000" is the right
      passcode, so it is accepted. */
  method ZeroDrawGuessAccepted(mobileNumber: string, now: Long, later: Long, validityMs: Long)
    returns (valid: bool)
    requires now <= later <= now + validityMs <= MaxLong
    ensures valid
  {
    var service := new OtpService(validityMs);
    var otp := service.GenerateOtp(mobileNumber, 0, now);
    ZeroDrawCode();
    valid := service.ValidateOtp(mobileNumber, "000000", later);
  }
}
