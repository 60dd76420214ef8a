/** The state of the passcode service as a value: the two parallel tables,
    keyed by mobile number, and what `generateOtp` and `validateOtp` do to
    them. The class in module Service keeps the same two tables in fields and
    is proved to follow these functions; the lemmas here relate several calls. */
module OtpStore {
  import opened OtpFormat
  import opened JavaLong

  /** `codes` is the table of current passcodes, `expiry` the table of
      absolute expiry times in milliseconds. */
  datatype Store = Store(codes: map<string, string>, expiry: map<string, Long>)

  /** What `validateOtp` returns, together with the tables it leaves behind. */
  datatype Outcome = Outcome(valid: bool, after: Store)

  /** The service's invariant: both tables hold the same numbers, and every
      stored passcode has the six-digit shape. */
  predicate Consistent(s: Store) {
    && s.codes.Keys == s.expiry.Keys
    && forall m :: m in s.codes ==> IsCode(s.codes[m])
  }

  /** The tables with the entries of number `m` removed from both. */
  function Forget(s: Store, m: string): Store {
    Store(s.codes - {m}, s.expiry - {m})
  }

  /** The entry for `m` exists and its deadline has passed (strictly). */
  predicate IsExpired(s: Store, m: string, now: Long) {
    m in s.expiry && now > s.expiry[m]
  }

  /** The only situation in which a validation succeeds: an entry for `m`
      exists, its deadline has not passed, and the candidate is exactly the
      stored passcode. */
  predicate Accepts(s: Store, m: string, candidate: string, now: Long) {
    && m in s.expiry && now <= s.expiry[m]
    && m in s.codes && s.codes[m] == candidate
  }

  /** `generateOtp(m)` with random draw `draw` at clock reading `now`: the
      entries for `m` are overwritten with the draw's passcode and the
      deadline `now + validity`; every other number keeps its entries. */
  function Generated(s: Store, m: string, draw: nat, now: Long, validity: Long): (t: Store)
    requires draw < CodeSpace
    ensures Forget(t, m) == Forget(s, m)
    ensures m in t.codes && t.codes[m] == Pad6(draw)
    ensures m in t.expiry && t.expiry[m] == Add(now, validity)
    ensures Consistent(s) ==> Consistent(t)
  {
    var t := Store(s.codes[m := Pad6(draw)], s.expiry[m := Add(now, validity)]);
    assert Forget(t, m).codes == Forget(s, m).codes;
    assert Forget(t, m).expiry == Forget(s, m).expiry;
    t
  }

  /** `validateOtp(m, candidate)` at clock reading `now`. */
  function Validated(s: Store, m: string, candidate: string, now: Long): (o: Outcome)
    ensures o.valid <==> Accepts(s, m, candidate, now)
    ensures o.after == if o.valid || IsExpired(s, m, now) then Forget(s, m) else s
    ensures Consistent(s) ==> Consistent(o.after)
  {
    if m !in s.expiry then Outcome(false, s)
    else if now > s.expiry[m] then Outcome(false, Forget(s, m))
    else if m in s.codes && s.codes[m] == candidate then Outcome(true, Forget(s, m))
    else Outcome(false, s)
  }

  /** A number that has no entry is rejected and nothing changes. */
  lemma NoEntryRejected(s: Store, m: string, candidate: string, now: Long)
    requires m !in s.expiry
    ensures Validated(s, m, candidate, now) == Outcome(false, s)
  {
  }

  /** An expired entry is rejected even for the right passcode, and it is
      purged from both tables. */
  lemma ExpiredRejectedAndPurged(s: Store, m: string, candidate: string, now: Long)
    requires IsExpired(s, m, now)
    ensures !Validated(s, m, candidate, now).valid
    ensures m !in Validated(s, m, candidate, now).after.codes
    ensures m !in Validated(s, m, candidate, now).after.expiry
  {
  }

  /** The deadline itself still counts as in time: the comparison is strict. */
  lemma DeadlineInclusive(s: Store, m: string, now: Long)
    requires Consistent(s) && m in s.expiry && now == s.expiry[m]
    ensures Validated(s, m, s.codes[m], now).valid
  {
  }

  /** A successful validation consumes the passcode: any further validation
      for the same number fails, whatever the candidate and the time. */
  lemma SingleUse(s: Store, m: string, candidate: string, now: Long, candidate': string, now': Long)
    requires Validated(s, m, candidate, now).valid
    ensures !Validated(Validated(s, m, candidate, now).after, m, candidate', now').valid
  {
  }

  /** A wrong guess in time changes nothing, so the right passcode stays usable. */
  lemma WrongGuessKeepsEntry(s: Store, m: string, guess: string, now: Long)
    requires Consistent(s) && m in s.expiry && now <= s.expiry[m]
    requires guess != s.codes[m]
    ensures Validated(s, m, guess, now) == Outcome(false, s)
    ensures Validated(s, m, s.codes[m], now).valid
  {
  }

  /** A freshly generated passcode is accepted at any clock reading up to its deadline
      (when `now + validity` does not overflow), and accepting it leaves the
      tables as they were for `m` before generation: without an entry. */
  lemma FreshCodeAccepted(s: Store, m: string, draw: nat, now: Long, validity: Long, later: Long)
    requires draw < CodeSpace
    requires MinLong <= now + validity <= MaxLong && later <= now + validity
    ensures Validated(Generated(s, m, draw, now, validity), m, Pad6(draw), later)
         == Outcome(true, Forget(s, m))
  {
  }

  /** After the deadline a freshly generated passcode is rejected and its
      entries are purged. */
  lemma FreshCodeExpires(s: Store, m: string, draw: nat, now: Long, validity: Long, later: Long, candidate: string)
    requires draw < CodeSpace
    requires MinLong <= now + validity <= MaxLong && later > now + validity
    ensures Validated(Generated(s, m, draw, now, validity), m, candidate, later)
         == Outcome(false, Forget(s, m))
  {
  }

  /** When `now + validity` overflows `long`, the stored deadline wraps to a
      value below `now`, so the fresh passcode is already expired when it is
      issued and its first validation purges it. */
  lemma OverflowedDeadlineRejects(s: Store, m: string, draw: nat, now: Long, validity: Long, candidate: string)
    requires draw < CodeSpace
    requires now + validity > MaxLong
    ensures Validated(Generated(s, m, draw, now, validity), m, candidate, now)
         == Outcome(false, Forget(s, m))
  {
  }

  /** Generating again for the same number replaces the first passcode: while
      the second is in time, the first is accepted only if both draws were
      equal, and the second is accepted. */
  lemma RegenerateInvalidates(s: Store, m: string, draw1: nat, now1: Long, draw2: nat, now2: Long,
                              validity: Long, later: Long)
    requires draw1 < CodeSpace && draw2 < CodeSpace
    requires MinLong <= now2 + validity <= MaxLong && later <= now2 + validity
    ensures var t := Generated(Generated(s, m, draw1, now1, validity), m, draw2, now2, validity);
            && (Validated(t, m, Pad6(draw1), later).valid <==> draw1 == draw2)
            && Validated(t, m, Pad6(draw2), later).valid
  {
    Pad6Injective(draw1, draw2);
  }

  /** Operations on one number do not touch the entries of another. */
  lemma OtherNumbersUntouched(s: Store, m: string, k: string, draw: nat, now: Long, validity: Long,
                              candidate: string, candidate': string, later: Long)
    requires draw < CodeSpace && k != m
    ensures Validated(Generated(s, m, draw, now, validity), k, candidate', later).valid
        <==> Validated(s, k, candidate', later).valid
    ensures Validated(Validated(s, m, candidate, now).after, k, candidate', later).valid
        <==> Validated(s, k, candidate', later).valid
  {
  }
}
