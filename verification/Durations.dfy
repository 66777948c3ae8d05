/** How durations are written and read: common.ParseDuration, which is that of Prometheus, and strconv.Itoa. */
module Durations {
  import opened Clock
  import opened Options

  const MILLISECOND: int := 1_000_000

  predicate IsDigit(c: char) {
    '0' <= c <= '9'
  }

  predicate AllDigits(text: string) {
    forall i | 0 <= i < |text| :: IsDigit(text[i])
  }

  /** How many digits the text begins with. */
  function Lead(text: string): (n: nat)
    ensures n <= |text| && AllDigits(text[..n]) && (n < |text| ==> !IsDigit(text[n]))
  {
    if text == "" || !IsDigit(text[0]) then 0 else 1 + Lead(text[1..])
  }

  function Decimal(digits: string): nat
    requires AllDigits(digits)
  {
    if digits == "" then 0
    else 10 * Decimal(digits[..|digits| - 1]) + (digits[|digits| - 1] - '0') as nat
  }

  /** strconv.Atoi of digits, its range error ignored: the largest integer then. */
  function Atoi(digits: string): int
    requires AllDigits(digits)
  {
    if Decimal(digits) > MAX_DURATION then MAX_DURATION else Decimal(digits)
  }

  /** What a product of 64-bit integers leaves. */
  function Wrap(n: int): Duration {
    (n - MIN_DURATION) % 0x1_0000_0000_0000_0000 + MIN_DURATION
  }

  /** A unit in milliseconds; zero when there is no such unit. */
  function Unit(text: string): nat {
    if text == "y" then 1000 * 60 * 60 * 24 * 365
    else if text == "w" then 1000 * 60 * 60 * 24 * 7
    else if text == "d" then 1000 * 60 * 60 * 24
    else if text == "h" then 1000 * 60 * 60
    else if text == "m" then 1000 * 60
    else if text == "s" then 1000
    else if text == "ms" then 1
    else 0
  }

  function ParseDuration(text: string): Option<Duration> {
    var n := Lead(text);
    if text == "0" then Some(0)
    else if n == 0 || Unit(text[n..]) == 0 then None
    else Some(Wrap(Wrap(Atoi(text[..n]) * MILLISECOND) * Unit(text[n..])))
  }

  function Itoa(n: int): string {
    if n < 0 then "-" + Digits(-n) else Digits(n)
  }

  function Digits(n: nat): string {
    (if n < 10 then "" else Digits(n / 10)) + [('0' as int + n % 10) as char]
  }

  lemma {:induction false} DigitsRoundTrip(n: nat)
    ensures Digits(n) != "" && AllDigits(Digits(n)) && Decimal(Digits(n)) == n
  {
    var digits := Digits(n);
    if n >= 10 {
      DigitsRoundTrip(n / 10);
      assert digits[..|digits| - 1] == Digits(n / 10);
    } else {
      assert digits[..|digits| - 1] == "";
    }
  }

  lemma {:induction false} LeadIs(text: string, n: nat)
    requires n <= |text| && AllDigits(text[..n]) && (n < |text| ==> !IsDigit(text[n]))
    ensures Lead(text) == n
  {
    if n > 0 {
      assert text[..n][0] == text[0];
      assert text[1..][..n - 1] == text[..n][1..];
      LeadIs(text[1..], n - 1);
    }
  }

  /** The nanoseconds a well-formed text means. */
  function Meant(text: string): nat {
    var n := Lead(text);
    Decimal(text[..n]) * MILLISECOND * Unit(text[n..])
  }

  lemma WrapIsIdentity(n: int)
    requires MIN_DURATION <= n <= MAX_DURATION
    ensures Wrap(n) == n
  {
  }

  /** What the units mean, in nanoseconds; there are no others. */
  lemma UnitExactly(unit: string)
    ensures Unit(unit) * MILLISECOND ==
            match unit
            case "ms" => 1_000_000
            case "s" => 1_000_000_000
            case "m" => 60_000_000_000
            case "h" => 3_600_000_000_000
            case "d" => 86_400_000_000_000
            case "w" => 604_800_000_000_000
            case "y" => 31_536_000_000_000_000
            case _ => 0
  {
  }

  /** Just the texts of digits and such a unit can be read, and a bare zero. */
  lemma ReadExactly(digits: string, unit: string)
    requires AllDigits(digits) && (unit == "" || !IsDigit(unit[0]))
    ensures ParseDuration(digits + unit).Some? <==>
            (digits == "0" && unit == "") || (digits != "" && unit in ["ms", "s", "m", "h", "d", "w", "y"])
    ensures Meant(digits + unit) == Decimal(digits) * MILLISECOND * Unit(unit)
  {
    var text := digits + unit;
    assert text[..|digits|] == digits && text[|digits|..] == unit;
    LeadIs(text, |digits|);
    assert Unit(unit) != 0 <==> unit in ["ms", "s", "m", "h", "d", "w", "y"];
    assert text == "0" ==> |digits| == 1;
  }

  /** A duration is what its text means exactly as long as that fits into 64 bits. It then is a setting as
      the workers expect it; otherwise the product has wrapped around, and may be negative. */
  lemma ParsedExactly(text: string)
    requires ParseDuration(text).Some?
    ensures ParseDuration(text).value == Meant(text) <==> Meant(text) <= MAX_DURATION
    ensures Meant(text) <= MAX_DURATION ==> Meant(text) < MAX_DURATION
  {
    var n := Lead(text);
    var k, u := Decimal(text[..n]), Unit(text[n..]);
    if text == "0" {
      assert n == 1 && text[..1] == text && text[1..] == "";
    } else if Meant(text) <= MAX_DURATION {
      assert k * MILLISECOND <= k * MILLISECOND * u by {
        MultiplyGrows(k * MILLISECOND, u);
      }
      WrapIsIdentity(k * MILLISECOND);
      WrapIsIdentity(k * MILLISECOND * u);
      assert k * MILLISECOND * u == (k * u) * MILLISECOND;
    }
  }

  lemma MultiplyGrows(a: nat, b: nat)
    requires b >= 1
    ensures a <= a * b
  {
  }

  lemma HoursText(h: nat)
    ensures var text := Itoa(h) + "h";
            var n := Lead(text);
            n > 0 && text[n..] == "h" && Decimal(text[..n]) == h && h * MILLISECOND * Unit("h") == h * HOUR
  {
    var text, digits := Itoa(h) + "h", Digits(h);
    DigitsRoundTrip(h);
    assert text[..|digits|] == digits && text[|digits|..] == "h";
    LeadIs(text, |digits|);
  }

  lemma NegativeText(h: int)
    requires h < 0
    ensures ParseDuration(Itoa(h) + "h") == None
  {
    LeadIs(Itoa(h) + "h", 0);
  }

  /** Whole hours are written so that they are read back, unless there are too many; negative ones are not
      read at all. */
  lemma HoursRoundTrip(h: int)
    ensures var parsed := ParseDuration(Itoa(h) + "h");
            && (h < 0 ==> parsed == None)
            && (h >= 0 ==> parsed.Some? && (parsed.value == h * HOUR <==> h * HOUR <= MAX_DURATION))
  {
    if h < 0 {
      NegativeText(h);
    } else {
      HoursText(h);
      ParsedExactly(Itoa(h) + "h");
    }
  }
}
