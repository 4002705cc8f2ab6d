/** The retry delay of failJob (internal/jobs/queue.go), computed in 64-bit nanoseconds as Go does. */
module Backoff {

  const TWO_63 := 0x8000_0000_0000_0000
  const TWO_64 := 0x1_0000_0000_0000_0000
  const SECOND := 1_000_000_000
  const HOUR := 3600 * SECOND

  /** The int64 value an unbounded result wraps around to. */
  function Wrap64(x: int): (r: int)
    ensures -TWO_63 <= r < TWO_63
  {
    (x + TWO_63) % TWO_64 - TWO_63
  }

  function Pow4(n: nat): nat {
    if n == 0 then 1 else 4 * Pow4(n - 1)
  }

  /** math.Pow(4, attempts) converted to a Duration: exact below 2^63; above, Go leaves the value to
      the platform, so it is a parameter. */
  function Factor(attempts: nat, platform: int): int {
    if attempts <= 31 then Pow4(attempts) else platform
  }

  function Delay(attempts: nat, platform: int): (d: int) {
    var d := Wrap64(Wrap64(Factor(attempts, platform) * 30) * SECOND);
    if d > HOUR then HOUR else d
  }

  /** What the comment promises: 30 s, 2 m, 8 m, ... capped at one hour. */
  function Intended(attempts: nat): int {
    var d := Pow4(attempts) * 30 * SECOND;
    if d > HOUR then HOUR else d
  }

  lemma {:induction false} IntendedIsCapped(attempts: nat)
    ensures 4 <= attempts ==> Pow4(attempts) >= 256 && Intended(attempts) == HOUR
  {
    if attempts > 4 {
      IntendedIsCapped(attempts - 1);
    } else if attempts == 4 {
      assert Pow4(4) == 256;
    }
  }

  lemma {:induction false} SmallDelays(platform: int)
    ensures forall a: nat :: a <= 3 ==> Delay(a, platform) == Intended(a)
    ensures Delay(1, platform) == 120 * SECOND && Delay(2, platform) == 480 * SECOND
    ensures Delay(3, platform) == 1920 * SECOND
  {
    assert Pow4(0) == 1 && Pow4(1) == 4 && Pow4(2) == 16 && Pow4(3) == 64;
  }

  lemma {:induction false} WrapIs(q: int, r: int)
    requires -TWO_63 <= r < TWO_63
    ensures Wrap64(q * TWO_64 + r) == r
  {
  }

  /** Wrapping after each multiplication is wrapping the product. */
  lemma {:induction false} WrapTwice(x: int, y: int)
    ensures Wrap64(Wrap64(x) * y) == Wrap64(x * y)
  {
    var q := (x + TWO_63) / TWO_64;
    assert x == q * TWO_64 + Wrap64(x);
    assert x * y == (q * y) * TWO_64 + Wrap64(x) * y;
    var z := Wrap64(x) * y;
    var q' := (z + TWO_63) / TWO_64;
    assert x * y == (q * y + q') * TWO_64 + Wrap64(z);
    WrapIs(q * y + q', Wrap64(z));
  }

  /** How many times the product wraps, for the attempt counts where it does. */
  function Wraps(attempts: nat): int {
    match attempts
    case 15 => 2
    case 16 => 7
    case 17 => 28
    case 18 => 112
    case 19 => 447
    case 20 => 1788
    case 21 => 7153
    case 22 => 28610
    case 23 => 114441
    case 24 => 457764
    case 25 => 1831055
    case 26 => 7324219
    case 27 => 29296875
    case 28 => 117187500
    case 29 => 468750000
    case 30 => 1875000000
    case 31 => 7500000000
    case _ => 0
  }

  lemma {:induction false} ProductWraps(p: int, q: int, r: int)
    requires -TWO_63 <= r < TWO_63 && p * 30 * SECOND == q * TWO_64 + r
    ensures Wrap64(Wrap64(p * 30) * SECOND) == r
  {
    WrapTwice(p * 30, SECOND);
    WrapIs(q, r);
  }

  lemma {:induction false} DelayIs(a: nat, platform: int, r: int)
    requires a <= 31 && -TWO_63 <= r < TWO_63
    requires Pow4(a) * 30 * SECOND == Wraps(a) * TWO_64 + r
    ensures Delay(a, platform) == if r > HOUR then HOUR else r
  {
    ProductWraps(Pow4(a), Wraps(a), r);
  }

  /** Powers of four up to 4^31, eight at a time. */
  lemma {:induction false} PowersOfFour(k: nat)
    requires k <= 7
    ensures Pow4(k) == Small(k) && Pow4(8 + k) == 65536 * Small(k)
    ensures Pow4(16 + k) == 0x1_0000_0000 * Small(k) && Pow4(24 + k) == 0x1_0000_0000_0000 * Small(k)
  {
    assert Pow4(0) == 1 && Pow4(1) == 4 && Pow4(2) == 16 && Pow4(3) == 64;
    assert Pow4(4) == 256 && Pow4(5) == 1024 && Pow4(6) == 4096 && Pow4(7) == 16384 && Pow4(8) == 65536;
    PowAdd(8, 8);
    PowAdd(16, 8);
    PowAdd(8, k);
    PowAdd(16, k);
    PowAdd(24, k);
  }

  function Small(k: nat): int {
    match k
    case 0 => 1
    case 1 => 4
    case 2 => 16
    case 3 => 64
    case 4 => 256
    case 5 => 1024
    case 6 => 4096
    case _ => 16384
  }

  lemma {:induction false} PowAdd(a: nat, b: nat)
    ensures Pow4(a + b) == Pow4(a) * Pow4(b)
  {
    if b > 0 {
      PowAdd(a, b - 1);
    }
  }

  /** Whether the wrapped computation still exceeds the cap, or the product did not wrap at all. */
  predicate InRange(attempts: nat) {
    attempts <= 14 || attempts == 19 || attempts == 20 || attempts == 22
  }

  lemma DelayUpTo14(a: nat, platform: int)
    requires a <= 14
    ensures Delay(a, platform) == Intended(a)
  {
    PowersOfFour(a % 8);
    DelayIs(a, platform, Pow4(a) * 30 * SECOND);
  }

  lemma DelayFrom15(a: nat, platform: int)
    requires 15 <= a <= 22
    ensures if InRange(a) then Delay(a, platform) == HOUR else Delay(a, platform) < 0
  {
    PowersOfFour(if a == 15 then 7 else a - 16);
    match a {
      case 15 => DelayIs(15, platform, -4681233427419103232);
      case 16 => DelayIs(16, platform, -278189635966861312);
      case 17 => DelayIs(17, platform, -1112758543867445248);
      case 18 => DelayIs(18, platform, -4451034175469780992);
      case 19 => DelayIs(19, platform, 642607371830427648);
      case 20 => DelayIs(20, platform, 2570429487321710592);
      case 21 => DelayIs(21, platform, -8165026124422709248);
      case _ => DelayIs(22, platform, 4233383649728266240);
    }
  }

  lemma DelayFrom23(a: nat, platform: int)
    requires 23 <= a <= 31
    ensures Delay(a, platform) <= 0
  {
    PowersOfFour(if a == 23 then 7 else a - 24);
    match a {
      case 23 => DelayIs(23, platform, -1513209474796486656);
      case 24 => DelayIs(24, platform, -6052837899185946624);
      case 25 => DelayIs(25, platform, -5764607523034234880);
      case 26 => DelayIs(26, platform, -4611686018427387904);
      case _ => DelayIs(a, platform, 0);
    }
  }

  /** For every attempt count whose power of four fits an int64, the delay is the promised one exactly
      up to 14 attempts and, by luck of the wrap-around, at 19, 20 and 22; everywhere else the retry is
      due at once. */
  lemma {:induction false} DelayAsIntendedIff(attempts: nat, platform: int)
    requires attempts <= 31
    ensures Delay(attempts, platform) == Intended(attempts) <==> InRange(attempts)
    ensures !InRange(attempts) ==> Delay(attempts, platform) <= 0
  {
    IntendedIsCapped(attempts);
    if attempts <= 14 {
      DelayUpTo14(attempts, platform);
    } else if attempts <= 22 {
      DelayFrom15(attempts, platform);
    } else {
      DelayFrom23(attempts, platform);
    }
  }

  /** Beyond, both usual conversions (the minimal int64, the saturated int64) retry at once. */
  lemma DelayBeyond31(attempts: nat)
    requires attempts >= 32
    ensures Delay(attempts, -TWO_63) <= 0 && Delay(attempts, TWO_63 - 1) <= 0
  {
  }

  /** Up to 14 attempts the wait never gets shorter from one retry to the next. */
  lemma {:induction false} DelayGrows(a: nat, b: nat, platform: int)
    requires 1 <= a <= b <= 14
    ensures 120 * SECOND <= Delay(a, platform) <= Delay(b, platform) <= HOUR
  {
    DelayAsIntendedIff(a, platform);
    DelayAsIntendedIff(b, platform);
    SmallDelays(platform);
    IntendedIsCapped(a);
    IntendedIsCapped(b);
  }
}
