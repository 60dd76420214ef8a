/** The passcode service object: two tables keyed by mobile number that
    `GenerateOtp` and `ValidateOtp` update in place. The random draw and the
    clock reading are parameters of the operations; the validity duration is
    fixed when the object is constructed. */
module Service {
  import opened OtpFormat
  import opened JavaLong
  import opened OtpStore

  /** Five minutes, in milliseconds: the validity of a passcode by default. */
  const DefaultValidityMs: Long := 5 * 60 * 1000

  class OtpService {
    /** Mobile number to current passcode. */
    var otpStorage: map<string, string>
    /** Mobile number to absolute expiry time, in milliseconds. */
    var otpExpiryStorage: map<string, Long>
    /** How long a passcode stays valid after it is generated, in milliseconds. */
    const validityMs: Long

    /** The two tables as a value. */
    function Snapshot(): Store
      reads this
    {
      Store(otpStorage, otpExpiryStorage)
    }

    /** Object invariant: both tables hold the same numbers, and each stored
        passcode is six decimal digits. */
    ghost predicate Valid()
      reads this
    {
      Consistent(Snapshot())
    }

    /** A service with empty tables whose passcodes stay valid for `validityMs`. */
    constructor (validityMs: Long)
      ensures Valid()
      ensures otpStorage == map[] && otpExpiryStorage == map[]
      ensures this.validityMs == validityMs
    {
      otpStorage := map[];
      otpExpiryStorage := map[];
      this.validityMs := validityMs;
    }

    /** The service as the application constructs it: five-minute validity. */
    constructor Default()
      ensures Valid()
      ensures otpStorage == map[] && otpExpiryStorage == map[]
      ensures validityMs == DefaultValidityMs
    {
      otpStorage := map[];
      otpExpiryStorage := map[];
      validityMs := DefaultValidityMs;
    }

    /** Issues the passcode for random draw `draw` to `mobileNumber` at clock
        reading `now`, replacing any earlier entry for that number. */
    method GenerateOtp(mobileNumber: string, draw: nat, now: Long) returns (otp: string)
      requires Valid()
      requires draw < CodeSpace
      modifies this
      ensures Valid()
      ensures IsCode(otp) && otp == Pad6(draw)
      ensures otpStorage == old(otpStorage)[mobileNumber := otp]
      ensures otpExpiryStorage == old(otpExpiryStorage)[mobileNumber := Add(now, validityMs)]
      ensures Snapshot() == Generated(old(Snapshot()), mobileNumber, draw, now, validityMs)
    {
      otp := Pad6(draw);
      otpStorage := otpStorage[mobileNumber := otp];
      var expiryTime := Add(now, validityMs);
      otpExpiryStorage := otpExpiryStorage[mobileNumber := expiryTime];
    }

    /** Checks `otp` against the entry for `mobileNumber` at clock reading
        `now`. An expired entry is purged; a matching entry is consumed; a
        wrong guess leaves everything as it was. */
    method ValidateOtp(mobileNumber: string, otp: string, now: Long) returns (valid: bool)
      requires Valid()
      modifies this
      ensures Valid()
      ensures valid <==> Accepts(old(Snapshot()), mobileNumber, otp, now)
      ensures mobileNumber !in old(otpExpiryStorage) ==>
                otpStorage == old(otpStorage) && otpExpiryStorage == old(otpExpiryStorage)
      ensures IsExpired(old(Snapshot()), mobileNumber, now) || valid ==>
                otpStorage == old(otpStorage) - {mobileNumber}
                && otpExpiryStorage == old(otpExpiryStorage) - {mobileNumber}
      ensures !IsExpired(old(Snapshot()), mobileNumber, now) && !valid ==>
                otpStorage == old(otpStorage) && otpExpiryStorage == old(otpExpiryStorage)
      ensures Outcome(valid, Snapshot()) == Validated(old(Snapshot()), mobileNumber, otp, now)
    {
      if mobileNumber !in otpExpiryStorage {
        return false;
      }

      var expiryTime := otpExpiryStorage[mobileNumber];
      if now > expiryTime {
        otpStorage := otpStorage - {mobileNumber};
        otpExpiryStorage := otpExpiryStorage - {mobileNumber};
        return false;
      }

      if mobileNumber in otpStorage && otpStorage[mobileNumber] == otp {
        otpStorage := otpStorage - {mobileNumber};
        otpExpiryStorage := otpExpiryStorage - {mobileNumber};
        return true;
      }

      return false;
    }
  }
}
