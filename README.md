# One-time passcode service, modelled in Dafny

This project models `OtpService`, the one-time passcode store of a small Spring service for two-factor login. The service keeps two tables keyed by mobile number:

- `otpStorage` holds the current six-digit passcode.
- `otpExpiryStorage` holds its absolute expiry time in milliseconds.

`generateOtp` renders a random draw in [0, 999999] as a zero-padded six-digit string. It then overwrites both entries for the number, with the deadline set to the clock plus the validity duration (five minutes by default). `validateOtp` makes these checks in order:

- It rejects a number with no entry.
- It rejects an expired entry (clock strictly past the deadline) and purges it.
- It accepts an exact match and consumes the entry, so each passcode works once.
- It rejects a wrong guess and leaves the entry in place.

Modules:

- `OtpFormat` (`otp_format.dfy`) renders a draw as a passcode (`Pad6`). `NumeralValue` is its inverse. The lemmas prove a round trip in both directions and injectivity.
- `JavaLong` (`java_long.dfy`) defines Java's 64-bit `long` and its wrap-around addition, which the deadline computation uses.
- `OtpStore` (`otp_store.dfy`) is the value model of the two tables. It has the functions `Generated` and `Validated` and the lemmas that relate several calls: single use, wrong guesses, expiry, regeneration and isolation between numbers.
- `Service` (`otp_service.dfy`) is the class `OtpService`. Its two map fields are updated in place by `GenerateOtp` and `ValidateOtp`. Each method's contract states the new tables and ties them to the `OtpStore` functions. The object invariant `Valid()` says that both tables hold the same numbers and that every stored code has six digits.
- `ServiceScenarios` (`otp_scenarios.dfy`) contains the scenarios of the five unit tests. Two more scenarios show where a test's expectation does not hold: the expiry test under the real five-minute duration, and the wrong-guess test when the draw is 0. Each scenario runs against a fresh object and is proved from the class contracts alone.

The random draw and the clock reading (`System.currentTimeMillis()`) are parameters of the operations. The validity duration is a constructor parameter, so that the lemmas hold for any duration. In the source it is the compile-time constant `5 * 60 * 1000` ms, and `OtpService.Default` builds that service.

## Model

| member | source | states |
|---|---|---|
| OtpFormat.Pad6 | src/main/java/com/example/otp/service/OtpService.java:20 | the passcode for a draw in [0, 999999] is exactly six decimal digits |
| OtpFormat.Pad6RoundTrip | src/main/java/com/example/otp/service/OtpService.java:20 | the decimal value of the passcode is the draw it was made from |
| OtpFormat.Pad6Onto | src/main/java/com/example/otp/service/OtpService.java:20 | every six-digit string, leading zeros included, is the passcode of a draw in range, namely its own value |
| OtpFormat.Pad6Injective | src/main/java/com/example/otp/service/OtpService.java:20 | two draws give the same passcode if and only if they are equal |
| JavaLong.Add | src/main/java/com/example/otp/service/OtpService.java:22 | the deadline `now + duration` is the 64-bit value congruent to the true sum modulo 2^64, and equals the true sum when that fits |
| OtpStore.Generated | src/main/java/com/example/otp/service/OtpService.java:19-25 | generating for a number sets its code to the draw's passcode and its deadline to `now + validity`; all other numbers are unchanged; the invariant is preserved |
| OtpStore.Validated | src/main/java/com/example/otp/service/OtpService.java:27-48 | validation succeeds if and only if an entry exists, the clock is not past its deadline and the candidate equals the stored code; the entry is removed exactly when it succeeds or is expired, and nothing else changes; the invariant is preserved |
| OtpStore.NoEntryRejected | src/main/java/com/example/otp/service/OtpService.java:28-30 | a number without an entry is rejected and both tables stay unchanged |
| OtpStore.ExpiredRejectedAndPurged | src/main/java/com/example/otp/service/OtpService.java:32-37 | an expired entry is rejected even for the right code, and is removed from both tables |
| OtpStore.DeadlineInclusive | src/main/java/com/example/otp/service/OtpService.java:33 | at the clock reading equal to the deadline, the stored code is still accepted |
| OtpStore.SingleUse | src/main/java/com/example/otp/service/OtpService.java:39-45 | after a successful validation, any later validation for that number fails |
| OtpStore.WrongGuessKeepsEntry | src/main/java/com/example/otp/service/OtpService.java:39-47 | a wrong guess in time is rejected, changes nothing, and the right code is still accepted afterwards |
| OtpStore.FreshCodeAccepted | src/main/java/com/example/otp/service/OtpService.java:19-45 | a freshly generated code is accepted at any clock reading up to its deadline, earlier readings included (the wall clock can go back), and accepting it leaves no entry for the number |
| OtpStore.FreshCodeExpires | src/main/java/com/example/otp/service/OtpService.java:19-37 | after its deadline, a freshly generated code is rejected for any candidate and its entries are purged |
| OtpStore.OverflowedDeadlineRejects | src/main/java/com/example/otp/service/OtpService.java:22-37 | if `now + validity` overflows `long`, the wrapped deadline is already past, so the fresh code is rejected and purged at once |
| OtpStore.RegenerateInvalidates | src/main/java/com/example/otp/service/OtpService.java:19-45 | after a second generation for the same number, the first code is accepted only if both draws were equal, and the second code is accepted |
| OtpStore.OtherNumbersUntouched | src/main/java/com/example/otp/service/OtpService.java:19-48 | generating or validating for one number does not change the outcome of validating another number, whatever candidate is presented for it |
| Service.OtpService.constructor | src/main/java/com/example/otp/service/OtpService.java:13-15 | a new service has empty tables, the given validity duration, and satisfies the invariant |
| Service.OtpService.Default | src/main/java/com/example/otp/service/OtpService.java:13-15 | the application's service has empty tables and a validity of 5 * 60 * 1000 ms |
| Service.OtpService.GenerateOtp | src/main/java/com/example/otp/service/OtpService.java:19-25 | returns the six-digit passcode of the draw; both map fields are overwritten at the number, and the new tables are `Generated` of the old ones; the invariant is kept |
| Service.OtpService.ValidateOtp | src/main/java/com/example/otp/service/OtpService.java:27-48 | returns true if and only if the old tables accept the candidate; both entries are removed on expiry or success, and otherwise the tables are unchanged; the outcome equals `Validated` of the old tables; the invariant is kept |
| ServiceScenarios.GenerateStoresCode | src/test/java/com/example/otp/service/OtpServiceTest.java:43-54 | the generated code has six digits, is stored under the number, and its deadline is after the clock reading |
| ServiceScenarios.GenerateThenValidate | src/test/java/com/example/otp/service/OtpServiceTest.java:56-66 | the generated code is accepted in time and removed from both tables; presenting it again is rejected |
| ServiceScenarios.WrongGuessRejected | src/test/java/com/example/otp/service/OtpServiceTest.java:68-78 | the guess "000000" is rejected for a nonzero draw, both entries stay, and the right code is accepted afterwards |
| ServiceScenarios.ExpiredRejected | src/test/java/com/example/otp/service/OtpServiceTest.java:80-93 | the expiry test as intended: after the deadline the right code is rejected and both entries are purged |
| ServiceScenarios.ExpiryTestAsWritten | src/test/java/com/example/otp/service/OtpServiceTest.java:80-93 | the expiry test as the service runs it: with the five-minute constant, validating 150 ms after generation accepts the code and consumes it |
| ServiceScenarios.ZeroDrawGuessAccepted | src/test/java/com/example/otp/service/OtpServiceTest.java:68-78 | with the draw 0, the wrong-guess test's guess "000000" is the right code and is accepted |
| ServiceScenarios.NeverIssuedRejected | src/test/java/com/example/otp/service/OtpServiceTest.java:95-103 | a number with no generated code is rejected and gets no entry |

## Left out

- Randomness: `SecureRandom.nextInt(1000000)` is a parameter `draw` with `draw < 1000000`. The model says nothing about uniformity or unpredictability.
- The clock: `System.currentTimeMillis()` is a parameter `now`. The test's `Thread.sleep` becomes a later clock reading.
- Concurrency: `ConcurrentHashMap` and thread safety are not modelled. The model is sequential. In the source, the check-then-remove sequence across the two maps is not atomic, and the model claims no guarantee about concurrent calls.
- Null: Java `null` for the number or the candidate is not modelled. A null number makes `ConcurrentHashMap` throw, and a null candidate never equals the stored code. The model's strings are never null.
- Locale: `String.format("%06d", …)` uses the default locale's digits. The model assumes ASCII digits '0' to '9', which is what the tests' pattern `\d{6}` expects.
- The deadline never drops below `now` in practice, since the default validity is 300000 ms. Scenarios and lemmas that talk about "in time" therefore assume that `now + validity` fits in a `long`. `OtpStore.OverflowedDeadlineRejects` covers the case where it does not.
- ServiceScenarios.WrongGuessRejected: requires a nonzero draw. The test's wrong guess "000000" is the passcode of draw 0 (`ZeroDrawCode`), so for that one draw in a million the guess is accepted (`ServiceScenarios.ZeroDrawGuessAccepted`).
- ServiceScenarios.ExpiredRejected: requires that `now + validity` does not fall below the `long` minimum. A wrapped deadline would then be far in the future.
- `OtpController` only forwards HTTP requests to the two operations. `ConsoleSmsService` only logs the code. Neither is modelled.
- The test setup's reflection, which tries to rewrite the duration, is not modelled, because it cannot change what the service uses. `OTP_VALIDITY_DURATION_MS` is a `static final long` initialised by a constant expression, so it is a compile-time constant. The compiler puts 300000 directly into `generateOtp`, whatever the field holds later (section 13.1 of the Java Language Specification). On JDK 12 and later, the lookup of `Field.modifiers` in the setup also throws.
- The expiry test therefore sleeps 150 ms against a five-minute validity, and its passcode is accepted. `ServiceScenarios.ExpiryTestAsWritten` proves this. `ServiceScenarios.ExpiredRejected` states what that test intends, with a duration the sleep actually passes.
- No background sweep of expired entries exists in the source, and the model adds none. An expired entry stays in both tables until the number is validated or regenerated.
