/**
 The time rules of token verification and of request objects, as functions of the clock readings.

 A check that reads the clock twice takes two readings.
 */
module TokenTimes {
  import opened Basics

  const HALF_SECOND: Time := 500_000_000

  const ZERO_TIME: Time := 0

  const CLOCK_SKEW: Time := 10 * SECOND

  const MAX_LIFETIME: Time := 3600 * SECOND

  datatype Verdict = Valid | Expired | IatMissing | IatInFuture | IatTooOld | AuthTimeMissing | AuthTimeTooOld
    | ExpMissing | NbfMissing | NotYetValid | LifetimeTooLong

  /** `Time.Round(time.Second)`: to the nearest second, halves up. */
  function Round(t: Time): Time {
    var r := t % SECOND;
    if r + r < SECOND then t - r else t + (SECOND - r)
  }

  function CheckExpiration(exp: Time, offset: Time, now: Time): Verdict {
    if now + offset < exp then Valid else Expired
  }

  function CheckIssuedAt(iat: Time, maxAge: Time, offset: Time, now: Time, later: Time): Verdict {
    if iat == ZERO_TIME then IatMissing
    else if iat > Round(now + offset) then IatInFuture
    else if maxAge == 0 then Valid
    else if iat < Round(later - maxAge) then IatTooOld
    else Valid
  }

  function CheckAuthTime(authTime: Time, maxAge: Time, now: Time): Verdict {
    if maxAge == 0 then Valid
    else if authTime == ZERO_TIME then AuthTimeMissing
    else if authTime < Round(now - maxAge) then AuthTimeTooOld
    else Valid
  }

  /** The claims of a request object in whole seconds, zero when absent. */
  function CheckRequestObject(fapi: bool, exp: int, nbf: int, now: Time): Verdict {
    if fapi then
      if exp == 0 then ExpMissing
      else if now > exp * SECOND + CLOCK_SKEW then Expired
      else if nbf == 0 then NbfMissing
      else if now < nbf * SECOND - CLOCK_SKEW then NotYetValid
      else if exp * SECOND - nbf * SECOND > MAX_LIFETIME then LifetimeTooLong
      else Valid
    else if exp != 0 && now > exp * SECOND + CLOCK_SKEW then Expired
    else if nbf != 0 && now < nbf * SECOND - CLOCK_SKEW then NotYetValid
    else Valid
  }

  // ---------------------------------------------------------------------------------------------
  // Accepting intervals
  // ---------------------------------------------------------------------------------------------

  function FloorSecond(t: Time): (f: Time)
    ensures f <= t < f + SECOND && f % SECOND == 0
  {
    t - t % SECOND
  }

  function CeilSecond(t: Time): (c: Time)
    ensures t <= c < t + SECOND && c % SECOND == 0
  {
    if t % SECOND == 0 then t else FloorSecond(t) + SECOND
  }

  /** Rounding seen from both sides: which instants round to at least, or to at most, a given one. */
  lemma RoundBounds(t: Time, bound: Time)
    ensures bound <= Round(t) <==> CeilSecond(bound) - HALF_SECOND <= t
    ensures Round(t) <= bound <==> t < FloorSecond(bound) + HALF_SECOND
  {
    var q, r := t / SECOND, t % SECOND;
    var bq, br := bound / SECOND, bound % SECOND;
    assert t == q * SECOND + r && bound == bq * SECOND + br;
  }

  /** The first clock reading decides against the future, the second against age. */
  lemma {:induction false} IssuedAtWindow(iat: Time, maxAge: Time, offset: Time, now: Time, later: Time)
    requires iat != ZERO_TIME
    ensures CheckIssuedAt(iat, maxAge, offset, now, later) == Valid <==>
              && CeilSecond(iat) - offset - HALF_SECOND <= now
              && (maxAge == 0 || later < FloorSecond(iat) + maxAge + HALF_SECOND)
  {
    RoundBounds(now + offset, iat);
    RoundBounds(later - maxAge, iat);
  }

  /** Every answer about an issue time: a token without one is refused whatever the limits are. */
  lemma {:induction false} IssuedAtVerdicts(iat: Time, maxAge: Time, offset: Time, now: Time, later: Time)
    ensures var r := CheckIssuedAt(iat, maxAge, offset, now, later);
            var inFuture := now < CeilSecond(iat) - offset - 500_000_000;
            var tooOld := maxAge != 0 && later >= FloorSecond(iat) + maxAge + 500_000_000;
            && (r == IatMissing <==> iat == 0)
            && (r == IatInFuture <==> iat != 0 && inFuture)
            && (r == IatTooOld <==> iat != 0 && !inFuture && tooOld)
            && (r == Valid <==> iat != 0 && !inFuture && !tooOld)
  {
    RoundBounds(now + offset, iat);
    RoundBounds(later - maxAge, iat);
  }

  /** Every answer about an authentication time: without a maximum age even a missing one passes. */
  lemma {:induction false} AuthTimeVerdicts(authTime: Time, maxAge: Time, now: Time)
    ensures var r := CheckAuthTime(authTime, maxAge, now);
            var tooOld := now >= FloorSecond(authTime) + maxAge + 500_000_000;
            && (r == AuthTimeMissing <==> maxAge != 0 && authTime == 0)
            && (r == AuthTimeTooOld <==> maxAge != 0 && authTime != 0 && tooOld)
            && (r == Valid <==> maxAge == 0 || (authTime != 0 && !tooOld))
  {
    RoundBounds(now - maxAge, authTime);
  }

  /**
   The readings at which a token passes both checks form one half-open interval.  For an `iat` in whole
   seconds it is [iat - offset - 1/2 s, min(exp - offset, iat + maxAge + 1/2 s)), the half seconds
   coming from the rounding.
   */
  lemma {:induction false} TokenWindow(iat: Time, exp: Time, maxAge: Time, offset: Time, now: Time)
    requires iat != ZERO_TIME && maxAge != 0
    ensures var passes := && CheckExpiration(exp, offset, now) == Valid
                          && CheckIssuedAt(iat, maxAge, offset, now, now) == Valid;
            passes <==>
              && CeilSecond(iat) - offset - HALF_SECOND <= now
              && now < (if exp - offset < FloorSecond(iat) + maxAge + HALF_SECOND then exp - offset
                        else FloorSecond(iat) + maxAge + HALF_SECOND)
  {
    IssuedAtWindow(iat, maxAge, offset, now, now);
  }

  /** An authentication counts as recent for the maximum age and up to half a second more. */
  lemma {:induction false} AuthTimeWindow(authTime: Time, maxAge: Time, now: Time)
    requires authTime != ZERO_TIME && maxAge != 0
    ensures CheckAuthTime(authTime, maxAge, now) == Valid <==> now < FloorSecond(authTime) + maxAge + HALF_SECOND
  {
    RoundBounds(now - maxAge, authTime);
  }

  /**
   The readings at which a FAPI request object passes are one closed interval, ten seconds wider at either
   end than its claims say; the lifetime in whole seconds is at most an hour.
   */
  lemma {:induction false} RequestObjectWindow(exp: int, nbf: int, now: Time)
    ensures CheckRequestObject(true, exp, nbf, now) == Valid <==>
              && exp != 0 && nbf != 0 && exp - nbf <= 3600
              && (nbf - 10) * 1_000_000_000 <= now <= (exp + 10) * 1_000_000_000
    ensures CheckRequestObject(false, exp, nbf, now) == Valid <==>
              && (nbf != 0 ==> (nbf - 10) * 1_000_000_000 <= now)
              && (exp != 0 ==> now <= (exp + 10) * 1_000_000_000)
  {}

  /** Every answer about a FAPI request object: the claims are looked at one after the other. */
  lemma {:induction false} RequestObjectVerdicts(exp: int, nbf: int, now: Time)
    ensures var r := CheckRequestObject(true, exp, nbf, now);
            var late, early := now > (exp + 10) * 1_000_000_000, now < (nbf - 10) * 1_000_000_000;
            && (r == ExpMissing <==> exp == 0)
            && (r == Expired <==> exp != 0 && late)
            && (r == NbfMissing <==> exp != 0 && !late && nbf == 0)
            && (r == NotYetValid <==> exp != 0 && !late && nbf != 0 && early)
            && (r == LifetimeTooLong <==> exp != 0 && !late && nbf != 0 && !early && exp - nbf > 3600)
  {}

  /** Two readings at which the same FAPI request object passes are at most 60 minutes and 20 seconds apart. */
  lemma {:induction false} RequestObjectSpan(exp: int, nbf: int, now: Time, later: Time)
    requires CheckRequestObject(true, exp, nbf, now) == Valid && CheckRequestObject(true, exp, nbf, later) == Valid
    ensures later - now <= MAX_LIFETIME + 2 * CLOCK_SKEW
  {}

  /** The bound is met by an object of maximal lifetime. */
  lemma {:induction false} RequestObjectSpanIsSharp(nbf: int)
    requires nbf != 0 && nbf != -3600
    ensures var first, last := nbf * SECOND - CLOCK_SKEW, (nbf + 3600) * SECOND + CLOCK_SKEW;
            && CheckRequestObject(true, nbf + 3600, nbf, first) == Valid
            && CheckRequestObject(true, nbf + 3600, nbf, last) == Valid
            && last - first == MAX_LIFETIME + 2 * CLOCK_SKEW
  {}

  /** Without the profile the same rules apply to the claims that are there; the profile only adds requirements. */
  lemma {:induction false} ProfileOnlyAddsRequirements(exp: int, nbf: int, now: Time)
    ensures CheckRequestObject(true, exp, nbf, now) == Valid <==>
              && exp != 0 && nbf != 0 && exp * SECOND - nbf * SECOND <= MAX_LIFETIME
              && CheckRequestObject(false, exp, nbf, now) == Valid
  {}
}
