/**
 Rational media time (src/mvp-time.ts): canonical rationals and rounded conversions between
 source ticks and sequence frames. Integers are unbounded; the safe-integer range checks of
 the original are not modelled.
 */
module MediaTime {
  import opened Wrappers

  datatype Rational = Rational(numerator: int, denominator: int)

  datatype TimeError = NotPositive | Negative

  predicate Positive(r: Rational) {
    r.numerator > 0 && r.denominator > 0
  }

  // ----- products

  lemma ProductPositive(a: int, b: int)
    ensures a > 0 && b > 0 ==> a * b > 0
    ensures a >= 0 && b >= 0 ==> a * b >= 0
  {
  }

  /** Multiplying by a positive number keeps every comparison. */
  lemma Scaled(x: int, y: int, d: int)
    requires d > 0
    ensures x * d < y * d <==> x < y
    ensures x * d == y * d <==> x == y
    ensures (x + 1) * d == x * d + d && (y + 1) * d == y * d + d
  {
    ProductPositive(y - x, d);
    ProductPositive(x - y, d);
    assert (y - x) * d == y * d - x * d && (x - y) * d == x * d - y * d;
  }

  lemma Shuffle(g: int, p: int, h: int, q: int)
    ensures (g * p) * (h * q) == (g * h) * (p * q)
  {
    assert (g * p) * (h * q) == g * (p * (h * q));
    assert p * (h * q) == h * (p * q);
    assert g * (h * (p * q)) == (g * h) * (p * q);
  }

  // ----- greatest common divisor

  function Gcd(a: nat, b: nat): (g: nat)
    ensures a > 0 || b > 0 ==> g > 0
    decreases b
  {
    if b == 0 then a else Gcd(b, a % b)
  }

  method GreatestCommonDivisor(left: nat, right: nat) returns (r: nat)
    ensures r == Gcd(left, right)
  {
    var a, b := left, right;
    while b != 0
      invariant 0 <= a && 0 <= b && Gcd(a, b) == Gcd(left, right)
      decreases b
    {
      var next := a % b;
      a := b;
      b := next;
    }
    return a;
  }

  lemma Recombine(g: int, p: int, q: int, k: int)
    ensures g * p * k + g * q == g * (p * k + q)
  {
    assert g * (p * k + q) == g * (p * k) + g * q;
    assert g * (p * k) == g * p * k;
  }

  /** The loop's result divides both numbers. */
  lemma {:induction false} GcdDivides(a: nat, b: nat) returns (p: nat, q: nat)
    ensures a == Gcd(a, b) * p && b == Gcd(a, b) * q
    decreases b
  {
    if b == 0 {
      p, q := 1, 0;
    } else {
      var p', q' := GcdDivides(b, a % b);
      var g, k := Gcd(a, b), a / b;
      p, q := p' * k + q', p';
      Recombine(g, p', q', k);
      assert a == b * k + a % b;
    }
  }

  /** It is a combination of both, so every common divisor divides it. */
  lemma {:induction false} Bezout(a: nat, b: nat) returns (x: int, y: int)
    ensures Gcd(a, b) == x * a + y * b
    decreases b
  {
    if b == 0 {
      x, y := 1, 0;
    } else {
      var x', y' := Bezout(b, a % b);
      var k := a / b;
      assert a == b * k + a % b;
      assert x' * b + y' * (a - b * k) == y' * a + (x' - y' * k) * b;
      x, y := y', x' - y' * k;
    }
  }

  /** The result is the greatest common divisor: any number dividing both divides it. */
  lemma GcdIsGreatest(a: nat, b: nat, d: int, i: int, j: int) returns (k: int)
    requires a == d * i && b == d * j
    ensures Gcd(a, b) == d * k
  {
    var x, y := Bezout(a, b);
    k := x * i + y * j;
    assert x * (d * i) + y * (d * j) == d * (x * i + y * j);
  }

  // ----- canonical rationals

  function Normal(r: Rational): (n: Rational)
    requires Positive(r)
  {
    var divisor := Gcd(r.numerator, r.denominator);
    Rational(r.numerator / divisor, r.denominator / divisor)
  }

  function NormalizeRational(r: Rational): Result<Rational, TimeError> {
    if !Positive(r) then Err(NotPositive) else Ok(Normal(r))
  }

  function RationalEquals(a: Rational, b: Rational): Result<bool, TimeError> {
    var x, y := NormalizeRational(a), NormalizeRational(b);
    if x.Err? || y.Err? then Err(NotPositive) else Ok(x.value == y.value)
  }

  lemma DivisionUnique(n: int, d: int, q: int, r: int)
    requires d > 0 && n == q * d + r && 0 <= r < d
    ensures n / d == q && n % d == r
  {
    var q' := n / d;
    assert n == q' * d + n % d;
    Scaled(q, q' + 1, d);
    Scaled(q', q + 1, d);
  }

  lemma QuotientOf(g: int, p: int)
    requires g > 0
    ensures (g * p) / g == p && (g * p) % g == 0
  {
    assert g * p == p * g + 0;
    DivisionUnique(g * p, g, p, 0);
  }

  lemma Factor(g: int, x: int, p: int, y: int, q: int)
    ensures (x * p + y * q) * g == x * (g * p) + y * (g * q)
  {
    assert (x * p + y * q) * g == x * p * g + y * q * g;
    assert x * p * g == x * (g * p) && y * q * g == y * (g * q);
  }

  /** Normalizing divides both parts by the same positive number, and leaves them without a common divisor. */
  lemma NormalForm(r: Rational) returns (g: nat, x: int, y: int)
    requires Positive(r)
    ensures var n := Normal(r);
            && Positive(n) && g > 0 && r.numerator == g * n.numerator && r.denominator == g * n.denominator
            && x * n.numerator + y * n.denominator == 1
  {
    g := Gcd(r.numerator, r.denominator);
    var p, q := GcdDivides(r.numerator, r.denominator);
    QuotientOf(g, p);
    QuotientOf(g, q);
    x, y := Bezout(r.numerator, r.denominator);
    Factor(g, x, p, y, q);
    Scaled(x * p + y * q, 1, g);
    Scaled(0, p, g);
    Scaled(0, q, g);
  }

  /** Equal fractions in lowest terms have equal denominators: each divides the other. */
  lemma LowestTermsDivide(p: int, q: int, p': int, q': int, x: int, y: int) returns (k: int)
    requires p * q' == p' * q && x * p + y * q == 1
    ensures q' == q * k
  {
    k := x * p' + y * q';
    calc {
      q';
    ==
      (x * p + y * q) * q';
    ==
      x * (p * q') + y * q * q';
    ==
      x * (p' * q) + y * q * q';
    ==
      q * (x * p' + y * q');
    }
  }

  lemma MutualDivisors(q: int, q': int, k: int, k': int)
    requires q > 0 && q' > 0 && q' == q * k && q == q' * k'
    ensures q == q'
  {
    Scaled(0, k, q);
    Scaled(0, k', q');
    Scaled(1, k, q);
    Scaled(1, k', q');
  }

  /** Two rationals have the same normal form exactly when they are the same fraction. */
  lemma RationalEqualsIsCrossMultiplication(a: Rational, b: Rational)
    requires Positive(a) && Positive(b)
    ensures RationalEquals(a, b) == Ok(a.numerator * b.denominator == b.numerator * a.denominator)
  {
    var g, x, y := NormalForm(a);
    var h, x', y' := NormalForm(b);
    var m, n := Normal(a), Normal(b);
    var p, q, p', q' := m.numerator, m.denominator, n.numerator, n.denominator;
    assert a.numerator * b.denominator == (g * h) * (p * q') by { Shuffle(g, p, h, q'); }
    assert b.numerator * a.denominator == (g * h) * (p' * q) by { Shuffle(h, p', g, q); }
    ProductPositive(g, h);
    Scaled(p * q', p' * q, g * h);
    if p * q' == p' * q {
      var k := LowestTermsDivide(p, q, p', q', x, y);
      var k' := LowestTermsDivide(p', q', p, q, x', y');
      MutualDivisors(q, q', k, k');
      Scaled(p, p', q);
    }
  }

  /** Fractions are compared by their cross products, and refused when one is not positive. */
  lemma RationalEqualsMeans(a: Rational, b: Rational)
    ensures RationalEquals(a, b) ==
              if a.numerator >= 1 && a.denominator >= 1 && b.numerator >= 1 && b.denominator >= 1
              then Ok(a.numerator * b.denominator == b.numerator * a.denominator) else Err(NotPositive)
  {
    if Positive(a) && Positive(b) { RationalEqualsIsCrossMultiplication(a, b); }
  }

  // ----- rounding

  datatype Rounding = Floor | Nearest | Ceil

  function Rounded(numerator: nat, denominator: nat, rounding: Rounding): nat
    requires denominator > 0
  {
    var quotient, remainder := numerator / denominator, numerator % denominator;
    if (rounding.Ceil? && remainder > 0) || (rounding.Nearest? && 2 * remainder >= denominator)
    then quotient + 1 else quotient
  }

  /** The multiple w of d is the one that n is rounded to. */
  predicate InWindow(w: int, n: int, d: int, rounding: Rounding) {
    match rounding
    case Floor => w <= n < w + d
    case Ceil => w - d < n <= w
    case Nearest => 2 * w - d <= 2 * n < 2 * w + d
  }

  /** r is n/d rounded down, up, or to the nearest integer with halves up. */
  predicate IsRounded(r: int, n: int, d: int, rounding: Rounding) {
    InWindow(r * d, n, d, rounding)
  }

  lemma RoundedIsRounded(n: nat, d: nat, rounding: Rounding)
    requires d > 0
    ensures IsRounded(Rounded(n, d, rounding), n, d, rounding)
  {
    var s, q := Rounded(n, d, rounding), n / d;
    assert n == q * d + n % d;
    Scaled(q, s, d);
  }

  lemma WindowWidth(w: int, v: int, n: int, d: int, rounding: Rounding)
    requires InWindow(w, n, d, rounding) && InWindow(v, n, d, rounding)
    ensures w < v + d && v < w + d
  {
  }

  lemma CloseMultiples(r: int, s: int, d: int)
    requires d > 0 && r * d < s * d + d && s * d < r * d + d
    ensures r == s
  {
    Scaled(r, s, d);
    Scaled(r, s + 1, d);
    Scaled(s, r + 1, d);
  }

  /** A window is as wide as the denominator, so it holds one multiple of it. */
  lemma OnlyOneRounded(r: int, s: int, n: int, d: int, rounding: Rounding)
    requires d > 0 && IsRounded(r, n, d, rounding) && IsRounded(s, n, d, rounding)
    ensures r == s
  {
    WindowWidth(r * d, s * d, n, d, rounding);
    CloseMultiples(r, s, d);
  }

  lemma RoundedMeaning(n: nat, d: nat, rounding: Rounding, r: int)
    requires d > 0
    ensures IsRounded(r, n, d, rounding) <==> r == Rounded(n, d, rounding)
  {
    RoundedIsRounded(n, d, rounding);
    if IsRounded(r, n, d, rounding) { OnlyOneRounded(r, Rounded(n, d, rounding), n, d, rounding); }
  }

  method RoundedRatio(numerator: nat, denominator: nat, rounding: Rounding) returns (result: nat)
    requires denominator > 0
    ensures IsRounded(result, numerator, denominator, rounding)
    ensures result == Rounded(numerator, denominator, rounding)
  {
    var quotient := numerator / denominator;
    var remainder := numerator % denominator;
    result := quotient;
    if rounding == Ceil && remainder > 0 { result := result + 1; }
    if rounding == Nearest && remainder * 2 >= denominator { result := result + 1; }
    RoundedMeaning(numerator, denominator, rounding, result);
  }

  lemma Between(a: int, b: int, c: int, g: int)
    requires g > 0
    ensures a <= b ==> a * g <= b * g
    ensures b < c ==> b * g < c * g
  {
    Scaled(b, a, g);
    Scaled(b, c, g);
  }

  lemma Distributed(w: int, d: int, g: int)
    ensures (w + d) * g == w * g + d * g && (w - d) * g == w * g - d * g && (2 * w) * g == 2 * (w * g)
  {
  }

  lemma WindowGrows(w: int, n: int, d: int, g: int, rounding: Rounding)
    requires g > 0 && InWindow(w, n, d, rounding)
    ensures InWindow(w * g, n * g, d * g, rounding)
  {
    match rounding
    case Floor =>
      Between(w, n, w + d, g);
      Distributed(w, d, g);
    case Ceil =>
      Between(n, w, w, g);
      Between(w - d, w - d, n, g);
      Distributed(w, d, g);
    case Nearest =>
      Between(2 * w - d, 2 * n, 2 * w + d, g);
      Distributed(2 * w, d, g);
      Distributed(w, d, g);
      Distributed(n, d, g);
  }

  lemma Commuted(r: int, n: int, d: int, g: int)
    ensures r * (g * d) == (r * d) * g && g * n == n * g && g * d == d * g
  {
  }

  lemma ScaleWindow(r: int, n: int, d: int, g: int, rounding: Rounding)
    requires g > 0 && IsRounded(r, n, d, rounding)
    ensures IsRounded(r, g * n, g * d, rounding)
  {
    WindowGrows(r * d, n, d, g, rounding);
    Commuted(r, n, d, g);
  }

  /** Rounding only sees the ratio. */
  lemma RoundedScale(n: nat, d: nat, g: nat, rounding: Rounding)
    requires d > 0 && g > 0
    ensures g * d > 0 && g * n >= 0 && Rounded(g * n, g * d, rounding) == Rounded(n, d, rounding)
  {
    var r := Rounded(n, d, rounding);
    RoundedMeaning(n, d, rounding, r);
    ProductPositive(g, d);
    ProductPositive(g, n);
    ScaleWindow(r, n, d, g, rounding);
    RoundedMeaning(g * n, g * d, rounding, r);
  }

  // ----- ticks and frames

  lemma NormalIsPositive(r: Rational)
    requires Positive(r)
    ensures Positive(Normal(r))
  {
    var _, _, _ := NormalForm(r);
  }

  function Frames(ticks: nat, timeBase: Rational, frameRate: Rational, rounding: Rounding): nat
    requires Positive(timeBase) && Positive(frameRate)
  {
    ProductPositive(timeBase.numerator, frameRate.numerator);
    ProductPositive(timeBase.denominator, frameRate.denominator);
    ProductPositive(ticks, timeBase.numerator * frameRate.numerator);
    Rounded(ticks * (timeBase.numerator * frameRate.numerator), timeBase.denominator * frameRate.denominator, rounding)
  }

  function SourceTicksToSequenceFrames(ticks: int, timeBase: Rational, frameRate: Rational, rounding: Rounding): Result<nat, TimeError> {
    if ticks < 0 then Err(Negative)
    else if !Positive(timeBase) || !Positive(frameRate) then Err(NotPositive)
    else
      var base, rate := Normal(timeBase), Normal(frameRate);
      NormalIsPositive(timeBase);
      NormalIsPositive(frameRate);
      Ok(Frames(ticks, base, rate, rounding))
  }

  function Ticks(frames: nat, frameRate: Rational, timeBase: Rational, rounding: Rounding): nat
    requires Positive(timeBase) && Positive(frameRate)
  {
    ProductPositive(timeBase.numerator, frameRate.numerator);
    ProductPositive(timeBase.denominator, frameRate.denominator);
    ProductPositive(frames, timeBase.denominator * frameRate.denominator);
    Rounded(frames * (timeBase.denominator * frameRate.denominator), timeBase.numerator * frameRate.numerator, rounding)
  }

  function SequenceFramesToSourceTicks(frames: int, frameRate: Rational, timeBase: Rational, rounding: Rounding): Result<nat, TimeError> {
    if frames < 0 then Err(Negative)
    else if !Positive(timeBase) || !Positive(frameRate) then Err(NotPositive)
    else
      var base, rate := Normal(timeBase), Normal(frameRate);
      NormalIsPositive(timeBase);
      NormalIsPositive(frameRate);
      Ok(Ticks(frames, rate, base, rounding))
  }

  /** Normalizing the time base and the frame rate changes no conversion. */
  lemma ConversionIgnoresNormalForm(n: nat, timeBase: Rational, frameRate: Rational, rounding: Rounding)
    requires Positive(timeBase) && Positive(frameRate)
    ensures SourceTicksToSequenceFrames(n, timeBase, frameRate, rounding) == Ok(Frames(n, timeBase, frameRate, rounding))
    ensures SequenceFramesToSourceTicks(n, frameRate, timeBase, rounding) == Ok(Ticks(n, frameRate, timeBase, rounding))
  {
    var g, _, _ := NormalForm(timeBase);
    var h, _, _ := NormalForm(frameRate);
    var base, rate := Normal(timeBase), Normal(frameRate);
    var a, b := base.numerator * rate.numerator, base.denominator * rate.denominator;
    ProductPositive(base.numerator, rate.numerator);
    ProductPositive(base.denominator, rate.denominator);
    Shuffle(g, base.numerator, h, rate.numerator);
    Shuffle(g, base.denominator, h, rate.denominator);
    ProductPositive(g, h);
    assert n * ((g * h) * a) == (g * h) * (n * a) && n * ((g * h) * b) == (g * h) * (n * b);
    ProductPositive(n, a);
    ProductPositive(n, b);
    RoundedScale(n * a, b, g * h, rounding);
    RoundedScale(n * b, a, g * h, rounding);
  }

  /**
   A conversion answers exactly the rounded quotient of the durations: n ticks of a time base over
   the length of a frame, or n frames over the length of a tick. Negative counts and ratios that are
   not positive are refused.
   */
  lemma ConversionMeans(n: int, timeBase: Rational, frameRate: Rational, rounding: Rounding, r: nat)
    ensures var a, b := timeBase.numerator * frameRate.numerator, timeBase.denominator * frameRate.denominator;
            var positive := timeBase.numerator >= 1 && timeBase.denominator >= 1 && frameRate.numerator >= 1 && frameRate.denominator >= 1;
            var frames, ticks := SourceTicksToSequenceFrames(n, timeBase, frameRate, rounding), SequenceFramesToSourceTicks(n, frameRate, timeBase, rounding);
            && (frames == Ok(r) <==> 0 <= n && positive && IsRounded(r, n * a, b, rounding))
            && (ticks == Ok(r) <==> 0 <= n && positive && IsRounded(r, n * b, a, rounding))
            && (n < 0 ==> frames == ticks == Err(Negative))
            && (0 <= n && !positive ==> frames == ticks == Err(NotPositive))
  {
    if 0 <= n && Positive(timeBase) && Positive(frameRate) {
      var a, b := timeBase.numerator * frameRate.numerator, timeBase.denominator * frameRate.denominator;
      ConversionIgnoresNormalForm(n, timeBase, frameRate, rounding);
      ProductPositive(timeBase.numerator, frameRate.numerator);
      ProductPositive(timeBase.denominator, frameRate.denominator);
      ProductPositive(n, a);
      ProductPositive(n, b);
      RoundedMeaning(n * a, b, rounding, r);
      RoundedMeaning(n * b, a, rounding, r);
    }
  }

  // Below, one frame lasts b/a ticks: a is the product of the numerators of time base and
  // frame rate, b that of the denominators.

  lemma WindowsInOrder(r: int, s: int, x: int, y: int, d: int, rounding: Rounding)
    requires d > 0 && x <= y && IsRounded(r, x, d, rounding) && IsRounded(s, y, d, rounding)
    ensures r <= s
  {
    Scaled(r, s + 1, d);
    Scaled(s, s + 1, d);
  }

  lemma RoundedMonotone(x: nat, y: nat, d: nat, rounding: Rounding)
    requires d > 0 && x <= y
    ensures Rounded(x, d, rounding) <= Rounded(y, d, rounding)
  {
    var r, s := Rounded(x, d, rounding), Rounded(y, d, rounding);
    RoundedMeaning(x, d, rounding, r);
    RoundedMeaning(y, d, rounding, s);
    WindowsInOrder(r, s, x, y, d, rounding);
  }

  lemma Grows(m: nat, n: nat, a: nat)
    requires m <= n
    ensures 0 <= m * a <= n * a
  {
    ProductPositive(n - m, a);
    ProductPositive(m, a);
    assert (n - m) * a == n * a - m * a;
  }

  /** Longer inputs never convert to less, in any mode. */
  lemma ConversionsMonotone(m: nat, n: nat, timeBase: Rational, frameRate: Rational, rounding: Rounding)
    requires Positive(timeBase) && Positive(frameRate) && m <= n
    ensures Frames(m, timeBase, frameRate, rounding) <= Frames(n, timeBase, frameRate, rounding)
    ensures Ticks(m, frameRate, timeBase, rounding) <= Ticks(n, frameRate, timeBase, rounding)
  {
    var a, b := timeBase.numerator * frameRate.numerator, timeBase.denominator * frameRate.denominator;
    ProductPositive(timeBase.numerator, frameRate.numerator);
    ProductPositive(timeBase.denominator, frameRate.denominator);
    Grows(m, n, a);
    Grows(m, n, b);
    RoundedMonotone(m * a, n * a, b, rounding);
    RoundedMonotone(m * b, n * b, a, rounding);
  }

  /** Nearest is off by at most one half of the target unit. */
  lemma NearestError(n: nat, d: nat)
    requires d > 0
    ensures 0 - d <= 2 * (Rounded(n, d, Nearest) * d) - 2 * n <= d
  {
    RoundedMeaning(n, d, Nearest, Rounded(n, d, Nearest));
  }

  /** Rounding up to ticks and rounding down to frames are adjoint: a frame fits into t ticks iff t ticks reach it. */
  lemma Galois(frames: nat, ticks: nat, a: nat, b: nat)
    requires a > 0 && b > 0
    ensures Rounded(frames * b, a, Ceil) <= ticks <==> frames <= Rounded(ticks * a, b, Floor)
  {
    var t, f := Rounded(frames * b, a, Ceil), Rounded(ticks * a, b, Floor);
    RoundedMeaning(frames * b, a, Ceil, t);
    RoundedMeaning(ticks * a, b, Floor, f);
    Scaled(ticks, t, a);
    Scaled(frames, f + 1, b);
    Scaled(f, frames, b);
    Scaled(t as int - 1, ticks, a);
  }

  /** The rounding pairs whose round trip is promised to return the frame it started from. */
  predicate TripModes(out: Rounding, back: Rounding) {
    (out == Nearest && back == Nearest) || (out == Ceil && back == Floor) || (out == Floor && back == Ceil)
  }

  function RoundTrip(frames: nat, a: nat, b: nat, out: Rounding, back: Rounding): nat
    requires a > 0 && b > 0
  {
    Rounded(Rounded(frames * b, a, out) * a, b, back)
  }

  lemma TripWindow(frames: int, t: int, a: int, b: int, out: Rounding, back: Rounding)
    requires 0 < a <= b && TripModes(out, back) && IsRounded(t, frames * b, a, out)
    ensures IsRounded(frames, t * a, b, back)
  {
    if a == b {
      Scaled(t, frames, a);
      Scaled(t, frames + 1, a);
      Scaled(frames, t + 1, a);
    }
  }

  lemma RoundTripReturns(frames: nat, a: nat, b: nat, out: Rounding, back: Rounding)
    requires 0 < a <= b && TripModes(out, back)
    ensures RoundTrip(frames, a, b, out, back) == frames
  {
    var t := Rounded(frames * b, a, out);
    RoundedMeaning(frames * b, a, out, t);
    TripWindow(frames, t, a, b, out, back);
    RoundedMeaning(t * a, b, back, frames);
  }

  /** If every frame up to n survives the round trip, no two of them share a tick. */
  lemma {:induction false} TicksKeepUp(n: nat, a: nat, b: nat, out: Rounding, back: Rounding)
    requires a > 0 && b > 0
    requires forall f: nat :: f <= n ==> RoundTrip(f, a, b, out, back) == f
    ensures n <= Rounded(n * b, a, out)
  {
    if n == 0 {
    } else {
      TicksKeepUp(n - 1, a, b, out, back);
      Grows(n - 1, n, b);
      RoundedMonotone((n - 1) * b, n * b, a, out);
      assert RoundTrip(n - 1, a, b, out, back) == n - 1 && RoundTrip(n, a, b, out, back) == n;
    }
  }

  /** Round trips return every frame exactly when a frame lasts at least one tick. */
  lemma RoundTripIffOneTickPerFrame(a: nat, b: nat, out: Rounding, back: Rounding)
    requires a > 0 && b > 0 && TripModes(out, back)
    ensures (forall f: nat :: RoundTrip(f, a, b, out, back) == f) <==> a <= b
  {
    if a <= b {
      forall f: nat
        ensures RoundTrip(f, a, b, out, back) == f
      {
        RoundTripReturns(f, a, b, out, back);
      }
    } else if forall f: nat :: RoundTrip(f, a, b, out, back) == f {
      TicksKeepUp(a, a, b, out, back);
      assert a * b == b * a;
      RoundedMeaning(a * b, a, out, b);
    }
  }

  // ----- the laws of the conversions

  /** Frames to ticks rounding up and ticks to frames rounding down form a Galois connection. */
  lemma FrameTickGalois(frames: nat, ticks: nat, timeBase: Rational, frameRate: Rational)
    requires Positive(timeBase) && Positive(frameRate)
    ensures Ticks(frames, frameRate, timeBase, Ceil) <= ticks <==> frames <= Frames(ticks, timeBase, frameRate, Floor)
  {
    var a, b := timeBase.numerator * frameRate.numerator, timeBase.denominator * frameRate.denominator;
    ProductPositive(timeBase.numerator, frameRate.numerator);
    ProductPositive(timeBase.denominator, frameRate.denominator);
    Galois(frames, ticks, a, b);
  }

  /** Frames survive the trip to ticks and back exactly when every frame lasts at least one tick. */
  lemma FrameRoundTrips(timeBase: Rational, frameRate: Rational, out: Rounding, back: Rounding)
    requires Positive(timeBase) && Positive(frameRate) && TripModes(out, back)
    ensures (forall f: nat :: Frames(Ticks(f, frameRate, timeBase, out), timeBase, frameRate, back) == f)
            <==> timeBase.numerator * frameRate.numerator <= timeBase.denominator * frameRate.denominator
  {
    var a, b := timeBase.numerator * frameRate.numerator, timeBase.denominator * frameRate.denominator;
    ProductPositive(timeBase.numerator, frameRate.numerator);
    ProductPositive(timeBase.denominator, frameRate.denominator);
    RoundTripIffOneTickPerFrame(a, b, out, back);
    forall f: nat
      ensures Frames(Ticks(f, frameRate, timeBase, out), timeBase, frameRate, back) == RoundTrip(f, a, b, out, back)
    {
    }
  }
}
