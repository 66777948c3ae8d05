/** pkg/model/silence.go, and the lease a silence is stored with (api/silence.go). */
module Silences {
  import opened Clock
  import opened Durations
  import opened Options

  /** A silence as a value; compiled tells whether the pattern has been compiled. */
  datatype Record = Record(id: string, name: string, pattern: string, compiled: bool, ttl: string,
                           createdAt: Instant, expiredAt: Instant)

  /** What Validate needs from outside: the regular expression compiler, and the hash behind an ID. */
  datatype Env = Env(compiles: string -> bool, hash: (string, Instant) -> string)

  /** The two readings of the clock that Validate may take. */
  datatype Reading = Reading(first: Instant, second: Instant)

  /** math.RoundToEven of a duration's hours, which the source computes in floating point. */
  function Hours(d: Duration): int {
    var q, r := d / HOUR, d % HOUR;
    if 2 * r < HOUR || (2 * r == HOUR && q % 2 == 0) then q else q + 1
  }

  /** That it is the nearest whole number, and of two the even one, says all there is to say. */
  lemma HoursAreNearest(d: Duration, k: int)
    ensures k == Hours(d) <==>
            var off := 2 * (k * HOUR - d);
            -HOUR <= off <= HOUR && (off == HOUR || off == -HOUR ==> k % 2 == 0)
  {
    assert d == (d / HOUR) * HOUR + d % HOUR;
  }

  predicate Datable(s: Record) {
    if s.ttl == "" then s.createdAt != ZERO && s.expiredAt != ZERO else ParseDuration(s.ttl).Some?
  }

  /** The TTL from the dates, or the dates from the TTL. */
  function Dated(s: Record, r: Reading): Record
    requires Datable(s)
  {
    if s.ttl == "" then
      var created := if s.createdAt < r.first then r.second else s.createdAt;
      s.(createdAt := created, ttl := Itoa(Hours(Sub(s.expiredAt, created))) + "h")
    else
      var created := if s.createdAt == ZERO then r.first else s.createdAt;
      s.(createdAt := created, expiredAt := created + ParseDuration(s.ttl).value)
  }

  predicate Acceptable(env: Env, s: Record) {
    s.name != "" && s.pattern != "" && env.compiles(s.pattern) && Datable(s)
  }

  /** A silence after Validate. One that is turned away may have got its pattern compiled, no more. */
  function Validated(env: Env, s: Record, r: Reading): Record {
    var named := s.name != "" && s.pattern != "" && env.compiles(s.pattern);
    if !Acceptable(env, s) then s.(compiled := s.compiled || named)
    else
      var dated := Dated(s.(compiled := true), r);
      if s.id == "" then dated.(id := env.hash(s.pattern, dated.expiredAt)) else dated
  }

  /** What becomes of a silence s that is validated: it is accepted if it has a name, a pattern that compiles, and both
      dates or a TTL that can be read. Its dates then stay, except that it does not begin in the past, or else they lie
      the TTL apart; and it has an ID. If it is not accepted, it stays as it is, but for the compiled pattern. */
  predicate Promised(env: Env, s: Record, r: Reading, t: Record, ok: bool) {
    && (ok <==> s.name != "" && s.pattern != "" && env.compiles(s.pattern)
                && if s.ttl == "" then s.createdAt != ZERO && s.expiredAt != ZERO else ParseDuration(s.ttl).Some?)
    && t.name == s.name && t.pattern == s.pattern
    && (t.compiled <==> s.compiled || (s.name != "" && s.pattern != "" && env.compiles(s.pattern)))
    && (!ok ==> t == s.(compiled := t.compiled))
    && (ok ==> t.id == if s.id == "" then env.hash(s.pattern, t.expiredAt) else s.id)
    && (ok && s.ttl == "" ==>
          && t.createdAt == (if s.createdAt < r.first then r.second else s.createdAt)
          && t.expiredAt == s.expiredAt && t.ttl == Itoa(Hours(Sub(t.expiredAt, t.createdAt))) + "h")
    && (ok && s.ttl != "" ==>
          && t.createdAt == (if s.createdAt == ZERO then r.first else s.createdAt)
          && t.ttl == s.ttl && ParseDuration(s.ttl) == Some(t.expiredAt - t.createdAt))
  }

  lemma ValidatedAsPromised(env: Env, s: Record, r: Reading)
    ensures Promised(env, s, r, Validated(env, s, r), Acceptable(env, s))
  {
  }

  class Silence {
    var id: string
    var name: string
    var pattern: string
    var compiled: bool
    var ttl: string
    var createdAt: Instant
    var expiredAt: Instant

    constructor (s: Record)
      ensures Value() == s
    {
      id, name, pattern, compiled := s.id, s.name, s.pattern, s.compiled;
      ttl, createdAt, expiredAt := s.ttl, s.createdAt, s.expiredAt;
    }

    function Value(): Record
      reads this
    {
      Record(id, name, pattern, compiled, ttl, createdAt, expiredAt)
    }

    method Validate(env: Env, r: Reading) returns (ok: bool)
      modifies this
      ensures ok == Acceptable(env, old(Value()))
      ensures Value() == Validated(env, old(Value()), r)
      ensures Promised(env, old(Value()), r, Value(), ok)
    {
      ValidatedAsPromised(env, Value(), r);
      if name == "" {
        return false;
      }
      if pattern == "" {
        return false;
      }
      if !env.compiles(pattern) {
        return false;
      }
      compiled := true;
      if ttl == "" && createdAt != ZERO && expiredAt != ZERO {
        if createdAt < r.first {
          createdAt := r.second;
        }
        var durationHours := Hours(Sub(expiredAt, createdAt));
        ttl := Itoa(durationHours) + "h";
      } else if ttl != "" {
        var t := ParseDuration(ttl);
        if t.None? {
          return false;
        }
        if createdAt == ZERO {
          createdAt := r.first;
        }
        expiredAt := createdAt + t.value;
      } else {
        return false;
      }
      if id == "" {
        id := env.hash(pattern, expiredAt);
      }
      return true;
    }
  }

  // ----- leases -----

  /** Division as Go does it. */
  function Truncated(n: int, d: int): int
    requires d > 0
  {
    if n >= 0 then n / d else -((-n) / d)
  }

  /** int64(t.Seconds()) of a TTL; one that cannot be read counts as zero. */
  function Lease(ttl: string): int {
    match ParseDuration(ttl)
    case None => 0
    case Some(t) => Truncated(t, SECOND)
  }

  /** Written down in hours, a duration survives exactly when it rounds to a number of hours that is neither
      negative nor too large for 64 bits. */
  lemma LeaseOfHours(h: int)
    requires h <= 3_000_000
    ensures var lease := Lease(Itoa(h) + "h");
            && (h < 0 ==> lease == 0)
            && (h >= 0 && h * HOUR <= MAX_DURATION ==> lease * SECOND == h * HOUR)
            && (h * HOUR > MAX_DURATION ==> lease <= 0)
  {
    HoursRoundTrip(h);
    if h >= 0 {
      TruncatedExactly(h * 3600);
      if h * HOUR > MAX_DURATION {
        TooManyHours(h);
      }
    }
  }

  lemma TruncatedExactly(n: nat)
    ensures Truncated(n * SECOND, SECOND) == n
  {
  }

  lemma WrapOnce(n: int)
    requires MAX_DURATION < n < 0x1_0000_0000_0000_0000 + MAX_DURATION
    ensures Wrap(n) == n - 0x1_0000_0000_0000_0000
  {
  }

  lemma HoursAreParsed(h: nat)
    requires h <= 3_000_000
    ensures ParseDuration(Itoa(h) + "h") == Some(Wrap(h * HOUR))
  {
    var text := Itoa(h) + "h";
    var n := Lead(text);
    HoursText(h);
    WrapIsIdentity(h * MILLISECOND);
    assert Atoi(text[..n]) == h && Unit(text[n..]) == Unit("h");
    assert ParseDuration(text) == Some(Wrap(Wrap(h * MILLISECOND) * Unit("h")));
  }

  lemma TooManyHours(h: int)
    requires 0 <= h <= 3_000_000 && h * HOUR > MAX_DURATION
    ensures ParseDuration(Itoa(h) + "h") == Some(h * HOUR - 0x1_0000_0000_0000_0000)
    ensures h * HOUR - 0x1_0000_0000_0000_0000 < 0
  {
    HoursAreParsed(h);
    var n := h * HOUR;
    assert MAX_DURATION < n < 0x1_0000_0000_0000_0000;
    WrapOnce(n);
  }

  lemma HoursNear(d: Duration)
    ensures -HOUR <= 2 * (Hours(d) * HOUR - d) <= HOUR
    ensures Hours(d) < 0 <==> 2 * d < -HOUR
    ensures Hours(d) * HOUR > MAX_DURATION <==> 2 * d >= (2 * 2_562_047 + 1) * HOUR
    ensures Hours(d) <= 2_562_048
  {
    HoursAreNearest(d, Hours(d));
  }

  lemma LeaseNear(t: Instant, u: Instant)
    ensures var lease := Lease(Itoa(Hours(Sub(t, u))) + "h") * SECOND;
            -HOUR <= 2 * (lease - (t - u)) <= HOUR <==> -HOUR <= 2 * (t - u) < (2 * 2_562_047 + 1) * HOUR
  {
    HoursNear(Sub(t, u));
    LeaseOfHours(Hours(Sub(t, u)));
  }

  /** A silence given by its dates is stored for the time it has left, give or take half an hour, exactly when
      it has expired for at most half an hour, and its hours are not too many for 64 bits. */
  lemma LeaseNearRemainingExactly(env: Env, s: Record, r: Reading)
    requires Acceptable(env, s) && s.ttl == ""
    ensures var t := Validated(env, s, r);
            var remaining := t.expiredAt - t.createdAt;
            && t.expiredAt == s.expiredAt
            && (-HOUR <= 2 * (Lease(t.ttl) * SECOND - remaining) <= HOUR
                <==> -HOUR <= 2 * remaining < (2 * 2_562_047 + 1) * HOUR)
  {
    var t := Validated(env, s, r);
    LeaseNear(t.expiredAt, t.createdAt);
  }

  /** One given by a TTL is stored for just the time between its dates, to the second, even when it has been
      created long ago. */
  lemma LeaseOfGivenTTL(env: Env, s: Record, r: Reading)
    requires Acceptable(env, s) && s.ttl != ""
    ensures var t := Validated(env, s, r);
            && t.ttl == s.ttl && Lease(t.ttl) == Truncated(t.expiredAt - t.createdAt, SECOND)
            && (s.createdAt != ZERO ==> t.createdAt == s.createdAt)
  {
  }

  /** A silence that has not been created before begins when it is looked at, or later if its dates say so; and one
      given by a TTL alone expires just so long after that look. */
  lemma BeginsNow(env: Env, s: Record, r: Reading)
    requires Acceptable(env, s) && r.first <= r.second && (s.ttl == "" || s.createdAt == ZERO)
    ensures var t := Validated(env, s, r);
            && r.first <= t.createdAt && (t.createdAt <= r.second || t.createdAt == s.createdAt)
            && (s.ttl != "" ==> t.createdAt == r.first && ParseDuration(s.ttl) == Some(t.expiredAt - r.first))
            && (s.ttl == "" && r.first <= s.createdAt ==> t.createdAt == s.createdAt)
  {
  }

  lemma WrittenHours(d: Duration)
    requires 0 <= d <= MAX_DURATION - HOUR
    ensures ParseDuration(Itoa(Hours(d)) + "h") == Some(Hours(d) * HOUR)
    ensures Hours(d) * HOUR == d <==> d % HOUR == 0
  {
    HoursNear(d);
    HoursRoundTrip(Hours(d));
    assert d == (d / HOUR) * HOUR + d % HOUR;
  }

  lemma Redated(env: Env, t: Record, d: Duration, r: Reading)
    requires 0 <= d <= MAX_DURATION - HOUR && t.ttl == Itoa(Hours(d)) + "h" && t.createdAt != ZERO
    requires t.id != "" && t.name != "" && t.pattern != "" && env.compiles(t.pattern)
    ensures Acceptable(env, t)
    ensures Validated(env, t, r) == t.(compiled := true, expiredAt := t.createdAt + Hours(d) * HOUR)
  {
    WrittenHours(d);
  }

  /** Dates are turned into a TTL only once: a second look takes the expiry from the TTL, which moves it by
      up to half an hour. It stays where it was exactly when whole hours remain. */
  lemma SecondLook(env: Env, s: Record, r: Reading, r': Reading)
    requires Acceptable(env, s) && s.ttl == "" && s.id != ""
    requires var t := Validated(env, s, r);
             t.createdAt != ZERO && 0 <= t.expiredAt - t.createdAt <= MAX_DURATION - HOUR
    ensures var t := Validated(env, s, r);
            var u := Validated(env, t, r');
            && u.createdAt == t.createdAt && -HOUR <= 2 * (u.expiredAt - s.expiredAt) <= HOUR
            && (u.expiredAt == s.expiredAt <==> (t.expiredAt - t.createdAt) % HOUR == 0)
  {
    var t := Validated(env, s, r);
    var d := Sub(t.expiredAt, t.createdAt);
    Redated(env, t, d, r');
    HoursNear(d);
    WrittenHours(d);
  }
}
