/** Fractional order keys (src/order-keys.ts): an integer part and an optional fraction. */
module OrderKeys {
  import opened Wrappers
  import opened Lexicographic
  import opened OrderIntegers

  const MID_DIGIT: Digit := 31

  /** A digit string that may follow the integer part: it never ends in "0". */
  predicate IsFraction(f: Digits) {
    f == [] || f[|f| - 1] != 0
  }

  predicate IsOrderKey(k: Digits) {
    && k != [] && HEAD_A_UPPER <= k[0]
    && IntegerLength(k[0]) <= |k|
    && IsFraction(k[IntegerLength(k[0])..])
  }

  function IntegerPart(k: Digits): (r: Digits)
    requires IsOrderKey(k)
    ensures IsInteger(r)
  {
    k[..IntegerLength(k[0])]
  }

  function Fraction(k: Digits): (r: Digits)
    requires IsOrderKey(k)
    ensures IsFraction(r) && k == IntegerPart(k) + r
  {
    k[IntegerLength(k[0])..]
  }

  /** What the callers of the key arithmetic can be refused with. */
  datatype KeyError = InvalidBefore | InvalidAfter | OutOfOrder | NoRoom

  /** JavaScript's `a.slice(1)`, which leaves the empty string empty. */
  function Tail(a: Digits): Digits {
    if a == [] then [] else a[1..]
  }

  function Prepend(d: Digit, r: Result<Digits, KeyError>): Result<Digits, KeyError> {
    if r.Ok? then Ok([d] + r.value) else r
  }

  /** A fraction strictly between `a` and `b`, where no `b` means no upper bound. */
  function Midpoint(a: Digits, b: Option<Digits>): Result<Digits, KeyError>
    decreases b.Some?, if b.Some? then |b.value| else |a|
  {
    match b
    case None =>
      if a == [] then Ok([MID_DIGIT])
      else if a[0] != LAST_DIGIT then Ok([a[0] + 1])
      else Prepend(a[0], Midpoint(a[1..], None))
    case Some(b) =>
      var digitA := if a == [] then 0 else a[0];
      var digitB := if b == [] then 0 else b[0];
      if digitB as int - digitA as int > 1 then Ok([(digitA as int + digitB as int + 1) / 2])
      else if digitB as int - digitA as int == 1 then Prepend(digitA, Midpoint(Tail(a), None))
      else if b == [] then Err(NoRoom)
      else Prepend(digitA, Midpoint(Tail(a), Some(b[1..])))
  }

  function WithFraction(integer: Digits, r: Result<Digits, KeyError>): Result<Digits, KeyError> {
    if r.Ok? then Ok(integer + r.value) else r
  }

  /** A key strictly between `before` and `after`; a missing bound leaves that side open. */
  function OrderKeyBetween(before: Option<Digits>, after: Option<Digits>): Result<Digits, KeyError> {
    if before.Some? && !IsOrderKey(before.value) then Err(InvalidBefore)
    else if after.Some? && !IsOrderKey(after.value) then Err(InvalidAfter)
    else if before.Some? && after.Some? && !Less(before.value, after.value) then Err(OutOfOrder)
    else if before.None? then
      if after.None? then Ok(INTEGER_ZERO)
      else
        var integer := IntegerPart(after.value);
        var decremented := Decrement(integer);
        if decremented.Some? then Ok(decremented.value)
        else WithFraction(integer, Midpoint([], Some(Fraction(after.value))))
    else
      var integer := IntegerPart(before.value);
      var incremented := Increment(integer);
      if after.None? then
        if incremented.Some? then Ok(incremented.value)
        else WithFraction(integer, Midpoint(Fraction(before.value), None))
      else if integer == IntegerPart(after.value) then
        WithFraction(integer, Midpoint(Fraction(before.value), Some(Fraction(after.value))))
      else if incremented.Some? && Less(incremented.value, after.value) then Ok(incremented.value)
      else WithFraction(integer, Midpoint(Fraction(before.value), None))
  }

  function OrderKeyAfter(key: Option<Digits>): Result<Digits, KeyError> {
    OrderKeyBetween(key, None)
  }

  // ----- the midpoint is a midpoint

  /** A usable fraction above `a` exists for every `a`, and starts no lower than `a`. */
  lemma {:induction false} MidpointAbove(a: Digits)
    ensures Midpoint(a, None).Ok?
    ensures var m := Midpoint(a, None).value; m != [] && IsFraction(m) && Less(a, m)
    decreases |a|
  {
    if a == [] || a[0] != LAST_DIGIT {
    } else {
      MidpointAbove(a[1..]);
      var m := Midpoint(a[1..], None).value;
      assert ([a[0]] + m)[1..] == m;
    }
  }

  lemma {:induction false} MidpointBetween(a: Digits, b: Digits)
    requires IsFraction(a) && IsFraction(b) && Less(a, b)
    ensures Midpoint(a, Some(b)).Ok?
    ensures var m := Midpoint(a, Some(b)).value; m != [] && IsFraction(m) && Less(a, m) && Less(m, b)
    decreases |b|
  {
    var digitA: Digit := if a == [] then 0 else a[0];
    if b[0] as int - digitA as int == 1 {
      MidpointAbove(Tail(a));
      var m := Midpoint(Tail(a), None).value;
      assert ([digitA] + m)[1..] == m;
    } else if b[0] == digitA {
      assert IsFraction(b[1..]) && IsFraction(Tail(a));
      assert a == [] ==> b[1..] != [];
      MidpointBetween(Tail(a), b[1..]);
      var m := Midpoint(Tail(a), Some(b[1..])).value;
      assert ([digitA] + m)[1..] == m;
    }
  }

  /** A missing digit counts as zero. */
  function DigitAt(a: Digits, p: nat): Digit {
    if p < |a| then a[p] else 0
  }

  function Behind(a: Digits, p: nat): Digits {
    if p < |a| then a[p + 1..] else []
  }

  /** Without an upper bound the first digit that can grow grows by one; if none can, a middle digit is added. */
  lemma {:induction false} DigitsAbove(a: Digits) returns (p: nat)
    ensures Midpoint(a, None).Ok?
    ensures var m := Midpoint(a, None).value;
            && p <= |a| && |m| == p + 1 && m[..p] == a[..p] && (forall i :: 0 <= i < p ==> a[i] == 61)
            && (p < |a| ==> a[p] != 61) && m[p] == if p < |a| then a[p] + 1 else 31
    decreases |a|
  {
    MidpointAbove(a);
    p := 0;
    if a != [] && a[0] == LAST_DIGIT {
      var q := DigitsAbove(a[1..]);
      p := q + 1;
      assert a[..p] == [a[0]] + a[1..][..q];
    }
  }

  /** The first digits that differ are those at p: between them the middle one, or the lower one and a fraction above what follows. */
  predicate DecidedAt(a: Digits, b: Digits, m: Digits, p: nat) {
    && p < |b| && p < |m| && DigitAt(a, p) < b[p]
    && (forall i :: 0 <= i < p ==> DigitAt(a, i) == b[i] == m[i])
    && if b[p] as int - DigitAt(a, p) as int > 1
       then |m| == p + 1 && 0 <= 2 * m[p] as int - (DigitAt(a, p) as int + b[p] as int) <= 1
       else m[p] == DigitAt(a, p) && Midpoint(Behind(a, p), None) == Ok(m[p + 1..])
  }

  lemma DecidedFirst(a: Digits, b: Digits)
    requires IsFraction(a) && IsFraction(b) && Less(a, b) && b[0] != DigitAt(a, 0)
    ensures Midpoint(a, Some(b)).Ok? && DecidedAt(a, b, Midpoint(a, Some(b)).value, 0)
  {
    MidpointBetween(a, b);
    if b[0] as int - DigitAt(a, 0) as int == 1 {
      MidpointAbove(Tail(a));
      var f := Midpoint(Tail(a), None).value;
      assert ([DigitAt(a, 0)] + f)[1..] == f && Tail(a) == Behind(a, 0);
    }
  }

  lemma DecidedLater(a: Digits, b: Digits, m: Digits, p: nat)
    requires b != [] && m != [] && b[0] == DigitAt(a, 0) == m[0] && DecidedAt(Tail(a), b[1..], m[1..], p)
    ensures DecidedAt(a, b, m, p + 1)
  {
    hide Midpoint;
    forall i: nat
      ensures DigitAt(Tail(a), i) == DigitAt(a, i + 1) && Behind(Tail(a), i) == Behind(a, i + 1)
    {
    }
    forall i | 0 <= i < p + 1
      ensures DigitAt(a, i) == b[i] == m[i]
    {
      if i > 0 { assert DigitAt(Tail(a), i - 1) == b[1..][i - 1] == m[1..][i - 1]; }
    }
    assert m[1..][p + 1..] == m[p + 2..];
  }

  /**
   Between two fractions the first digits that differ decide: with room between them the middle one is
   taken, rounded up, and else the lower one, followed by a fraction above what follows it.
   */
  lemma {:induction false} DigitsBetween(a: Digits, b: Digits) returns (p: nat)
    requires IsFraction(a) && IsFraction(b) && Less(a, b)
    ensures Midpoint(a, Some(b)).Ok? && DecidedAt(a, b, Midpoint(a, Some(b)).value, p)
    decreases |b|
  {
    hide DecidedAt;
    p := 0;
    if b[0] == DigitAt(a, 0) {
      assert a == [] ==> b[1..] != [];
      p := DigitsBetween(Tail(a), b[1..]);
      var f := Midpoint(Tail(a), Some(b[1..])).value;
      assert ([b[0]] + f)[1..] == f;
      DecidedLater(a, b, [b[0]] + f, p);
      p := p + 1;
    } else {
      DecidedFirst(a, b);
    }
  }

  // ----- order keys

  lemma KeyOf(integer: Digits, f: Digits)
    requires IsInteger(integer) && IsFraction(f)
    ensures IsOrderKey(integer + f)
    ensures IntegerPart(integer + f) == integer && Fraction(integer + f) == f
  {
    assert (integer + f)[0] == integer[0];
    assert (integer + f)[..|integer|] == integer && (integer + f)[|integer|..] == f;
  }

  lemma IntegerIsKey(integer: Digits)
    requires IsInteger(integer)
    ensures IsOrderKey(integer) && IntegerPart(integer) == integer && Fraction(integer) == []
  {
    KeyOf(integer, []);
    assert integer + [] == integer;
  }

  /** Keys compare by the integer they start with, then by fraction: the key order embeds the integers. */
  lemma KeyOrder(a: Digits, b: Digits)
    requires IsOrderKey(a) && IsOrderKey(b)
    ensures var x, y := Value(IntegerPart(a)), Value(IntegerPart(b));
            Less(a, b) <==> x < y || (x == y && Less(Fraction(a), Fraction(b)))
    ensures IntegerPart(a) == IntegerPart(b) <==> Value(IntegerPart(a)) == Value(IntegerPart(b))
  {
    var p, q := IntegerPart(a), IntegerPart(b);
    ValueOrder(p, q);
    if Value(p) < Value(q) {
      ValueDecides(p, q, Fraction(a), Fraction(b));
    } else if Value(q) < Value(p) {
      ValueDecides(q, p, Fraction(b), Fraction(a));
      Trichotomy(a, b);
    } else {
      CommonPrefix(p, Fraction(a), Fraction(b));
    }
  }

  ghost predicate Between(before: Option<Digits>, k: Digits, after: Option<Digits>) {
    (before.Some? ==> Less(before.value, k)) && (after.Some? ==> Less(k, after.value))
  }

  predicate ValidBounds(before: Option<Digits>, after: Option<Digits>) {
    && (before.Some? ==> IsOrderKey(before.value))
    && (after.Some? ==> IsOrderKey(after.value))
    && (before.Some? && after.Some? ==> Less(before.value, after.value))
  }

  lemma BelowFirst(after: Digits)
    requires IsOrderKey(after)
    ensures OrderKeyBetween(None, Some(after)).Err? <==> after == SMALLEST
    ensures var r := OrderKeyBetween(None, Some(after));
            if r.Ok? then IsOrderKey(r.value) && Less(r.value, after) else r.error == NoRoom
  {
    var integer, f := IntegerPart(after), Fraction(after);
    IntegerIsKey(SMALLEST);
    DecrementIsPredecessor(integer);
    if integer != SMALLEST {
      var k := Decrement(integer).value;
      IntegerIsKey(k);
      KeyOrder(k, after);
    } else if f != [] {
      MidpointBetween([], f);
      var m := Midpoint([], Some(f)).value;
      KeyOf(integer, m);
      KeyOrder(integer + m, after);
    } else {
      assert after == SMALLEST;
    }
  }

  lemma FractionAbove(before: Digits)
    requires IsOrderKey(before)
    ensures var r := WithFraction(IntegerPart(before), Midpoint(Fraction(before), None));
            r.Ok? && IsOrderKey(r.value) && Less(before, r.value) && IntegerPart(r.value) == IntegerPart(before)
  {
    var integer, f := IntegerPart(before), Fraction(before);
    MidpointAbove(f);
    var m := Midpoint(f, None).value;
    KeyOf(integer, m);
    KeyOrder(before, integer + m);
  }

  lemma AboveLast(before: Digits)
    requires IsOrderKey(before)
    ensures var r := OrderKeyBetween(Some(before), None);
            r.Ok? && IsOrderKey(r.value) && Less(before, r.value)
  {
    var integer, f := IntegerPart(before), Fraction(before);
    IncrementIsSuccessor(integer);
    if integer != LARGEST_INTEGER {
      var k := Increment(integer).value;
      IntegerIsKey(k);
      KeyOrder(before, k);
    } else {
      FractionAbove(before);
    }
  }

  lemma BetweenTwo(before: Digits, after: Digits)
    requires IsOrderKey(before) && IsOrderKey(after) && Less(before, after)
    ensures var r := OrderKeyBetween(Some(before), Some(after));
            r.Ok? && IsOrderKey(r.value) && Less(before, r.value) && Less(r.value, after)
  {
    KeyOrder(before, after);
    var integer, f := IntegerPart(before), Fraction(before);
    IncrementIsSuccessor(integer);
    if integer == IntegerPart(after) {
      MidpointBetween(f, Fraction(after));
      var m := Midpoint(f, Some(Fraction(after))).value;
      KeyOf(integer, m);
      KeyOrder(before, integer + m);
      KeyOrder(integer + m, after);
    } else if Increment(integer).Some? && Less(Increment(integer).value, after) {
      var k := Increment(integer).value;
      IntegerIsKey(k);
      KeyOrder(before, k);
    } else {
      FractionAbove(before);
      var k := integer + Midpoint(f, None).value;
      KeyOrder(k, after);
    }
  }

  /**
   For valid bounds the only refusal is to go below the least key, and every other answer is
   a valid key strictly between the bounds.
   */
  lemma OrderKeyBetweenCorrect(before: Option<Digits>, after: Option<Digits>)
    requires ValidBounds(before, after)
    ensures OrderKeyBetween(before, after).Err? <==> before.None? && after == Some(SMALLEST)
    ensures var r := OrderKeyBetween(before, after);
            if r.Ok? then IsOrderKey(r.value) && Between(before, r.value, after) else r.error == NoRoom
  {
    if before.None? && after.Some? {
      BelowFirst(after.value);
    } else if before.Some? && after.None? {
      AboveLast(before.value);
    } else if before.Some? {
      BetweenTwo(before.value, after.value);
    } else {
      IntegerIsKey(INTEGER_ZERO);
    }
  }

  /** What is refused, and with which error: a bound that is no key, bounds out of order, and going below the least key. */
  lemma RefusalsMean(before: Option<Digits>, after: Option<Digits>)
    ensures var r := OrderKeyBetween(before, after);
            var first, second := before.Some? && !IsOrderKey(before.value), after.Some? && !IsOrderKey(after.value);
            && (r == Err(InvalidBefore) <==> first)
            && (r == Err(InvalidAfter) <==> !first && second)
            && (r == Err(OutOfOrder) <==> !first && !second && before.Some? && after.Some? && !Less(before.value, after.value))
            && (r == Err(NoRoom) <==> before.None? && after == Some(SMALLEST))
  {
    if ValidBounds(before, after) { OrderKeyBetweenCorrect(before, after); }
    IntegerIsKey(SMALLEST);
  }

  /** No key sorts below "A" and 26 zeros. */
  lemma SmallestIsLeast(k: Digits)
    requires IsOrderKey(k)
    ensures IsOrderKey(SMALLEST) && (k == SMALLEST || Less(SMALLEST, k))
  {
    Extremes(IntegerPart(k));
    IntegerIsKey(SMALLEST);
    KeyOrder(SMALLEST, k);
    ValueOrder(SMALLEST, IntegerPart(k));
    assert k == IntegerPart(k) + Fraction(k);
  }

  // ----- keys stay short

  /** The key is the whole number next to a bound, or it keeps the integer part of the bound and adds a fraction. */
  ghost predicate NextOrFraction(before: Option<Digits>, after: Option<Digits>, k: Digits)
    requires IsOrderKey(k) && ValidBounds(before, after)
  {
    var value := Value(IntegerPart(k));
    if Fraction(k) == [] then
      value == if before.Some? then Value(IntegerPart(before.value)) + 1
               else if after.Some? then Value(IntegerPart(after.value)) - 1 else 0
    else before.Some? || after.Some? ==> value == Value(IntegerPart(if before.Some? then before.value else after.value))
  }

  lemma ZeroIsWhole()
    ensures IsOrderKey(INTEGER_ZERO) && Fraction(INTEGER_ZERO) == [] && Value(IntegerPart(INTEGER_ZERO)) == 0
  {
    IntegerIsKey(INTEGER_ZERO);
    assert INTEGER_ZERO[1..] == [0] && [0 as Digit][1..] == [];
    assert Num([0]) == 0 * Pow62(0) + Num([0 as Digit][1..]);
  }

  lemma ShortBelow(after: Digits)
    requires IsOrderKey(after) && after != SMALLEST
    ensures var r := OrderKeyBetween(None, Some(after));
            && r.Ok? && IsOrderKey(r.value) && NextOrFraction(None, Some(after), r.value)
            && (Fraction(r.value) == [] <==> IntegerPart(after) != SMALLEST)
  {
    var integer, f := IntegerPart(after), Fraction(after);
    BelowFirst(after);
    DecrementIsPredecessor(integer);
    if integer != SMALLEST {
      IntegerIsKey(Decrement(integer).value);
    } else {
      assert f != [];
      MidpointBetween([], f);
      KeyOf(integer, Midpoint([], Some(f)).value);
    }
  }

  /** Only a greater integer is a whole key above a key. */
  lemma WholeAbove(before: Digits, n: Digits)
    requires IsOrderKey(before) && IsInteger(n)
    ensures Less(before, n) <==> Value(IntegerPart(before)) < Value(n)
  {
    IntegerIsKey(n);
    KeyOrder(before, n);
  }

  /** Above a key the next integer is taken when it lies below the other bound, and else a fraction is added. */
  lemma ShortAbove(before: Digits, after: Option<Digits>)
    requires ValidBounds(Some(before), after)
    ensures var r, up := OrderKeyBetween(Some(before), after), Increment(IntegerPart(before));
            && r.Ok? && IsOrderKey(r.value) && NextOrFraction(Some(before), after, r.value)
            && (Fraction(r.value) == [] <==> up.Some? && (after.Some? ==> Less(up.value, after.value)))
  {
    var integer, f := IntegerPart(before), Fraction(before);
    IncrementIsSuccessor(integer);
    var up := Increment(integer);
    if up.Some? { IntegerIsKey(up.value); }
    FractionAbove(before);
    MidpointAbove(f);
    KeyOf(integer, Midpoint(f, None).value);
    if after.Some? {
      KeyOrder(before, after.value);
      if up.Some? { KeyOrder(up.value, after.value); }
      if integer == IntegerPart(after.value) {
        MidpointBetween(f, Fraction(after.value));
        KeyOf(integer, Midpoint(f, Some(Fraction(after.value))).value);
      }
    }
  }

  /** If any integer lies between, the one next to the lower bound does. */
  lemma NextLiesBetween(before: Digits, after: Option<Digits>, n: Digits)
    requires ValidBounds(Some(before), after) && IsInteger(n) && Between(Some(before), n, after)
    ensures Increment(IntegerPart(before)).Some?
    ensures after.Some? ==> Less(Increment(IntegerPart(before)).value, after.value)
  {
    WholeAbove(before, n);
    IncrementIsSuccessor(IntegerPart(before));
    Extremes(n);
    var up := Increment(IntegerPart(before)).value;
    ValueOrder(up, n);
    if after.Some? {
      IntegerIsKey(up);
      IntegerIsKey(n);
      KeyOrder(up, after.value);
      KeyOrder(n, after.value);
    }
  }

  /**
   Keys stay short: the answer is a whole number, the one next to a bound, exactly when a whole number
   lies between the bounds. One case is missed: without a lower bound, below a key that only adds a
   fraction to the least integer, a fraction is given although that integer would fit.
   */
  lemma WholeWhenPossible(before: Option<Digits>, after: Option<Digits>, k: Digits)
    requires ValidBounds(before, after) && OrderKeyBetween(before, after) == Ok(k)
    ensures IsOrderKey(k) && NextOrFraction(before, after, k)
    ensures Fraction(k) == [] <==>
              && (exists n :: IsInteger(n) && Between(before, n, after))
              && (before.None? && after.Some? ==> IntegerPart(after.value) != SMALLEST)
  {
    OrderKeyBetweenCorrect(before, after);
    if before.Some? {
      ShortAbove(before.value, after);
      if n :| IsInteger(n) && Between(before, n, after) { NextLiesBetween(before.value, after, n); }
    } else if after.Some? {
      ShortBelow(after.value);
    } else {
      ZeroIsWhole();
    }
    assert k == IntegerPart(k) + Fraction(k);
    if Fraction(k) == [] { assert k == IntegerPart(k) && IsInteger(k); }
  }

  // ----- initial keys

  ghost predicate StrictlyIncreasing(keys: seq<Digits>) {
    forall i, j :: 0 <= i < j < |keys| ==> Less(keys[i], keys[j])
  }

  ghost predicate AllKeys(keys: seq<Digits>) {
    forall i :: 0 <= i < |keys| ==> IsOrderKey(keys[i])
  }

  /** Appending a key above the last one keeps a list of keys strictly increasing. */
  lemma ExtendIncreasing(keys: seq<Digits>, k: Digits)
    requires StrictlyIncreasing(keys) && (keys != [] ==> Less(keys[|keys| - 1], k))
    ensures StrictlyIncreasing(keys + [k])
  {
    forall i | 0 <= i < |keys|
      ensures Less(keys[i], k)
    {
      if i < |keys| - 1 { Transitive(keys[i], keys[|keys| - 1], k); }
    }
  }

  lemma NextInitialKey(keys: seq<Digits>, previous: Option<Digits>)
    requires AllKeys(keys)
    requires previous == if keys == [] then None else Some(keys[|keys| - 1])
    requires forall i :: 0 <= i < |keys| && i <= Value(LARGEST_INTEGER) ==> IsInteger(keys[i]) && Value(keys[i]) == i
    ensures OrderKeyAfter(previous).Ok?
    ensures var k := OrderKeyAfter(previous).value;
            && IsOrderKey(k) && (keys != [] ==> Less(keys[|keys| - 1], k))
            && (|keys| <= Value(LARGEST_INTEGER) ==> IsInteger(k) && Value(k) == |keys|)
  {
    OrderKeyBetweenCorrect(previous, None);
    if keys == [] {
      assert INTEGER_ZERO[1..] == Repeat(0, 1);
      NumRepeat(1);
    } else if |keys| <= Value(LARGEST_INTEGER) {
      IntegerIsKey(keys[|keys| - 1]);
      IncrementIsSuccessor(keys[|keys| - 1]);
    }
  }

  /**
   Dense keys for a fresh list: valid, strictly increasing, and the integers 0, 1, 2, ... for
   as long as there are any.
   */
  method InitialOrderKeys(count: nat) returns (keys: seq<Digits>)
    ensures |keys| == count && AllKeys(keys) && StrictlyIncreasing(keys)
    ensures forall i :: 0 <= i < count && i <= Value(LARGEST_INTEGER) ==> IsInteger(keys[i]) && Value(keys[i]) == i
  {
    keys := [];
    var previous: Option<Digits> := None;
    for index := 0 to count
      invariant |keys| == index && AllKeys(keys) && StrictlyIncreasing(keys)
      invariant previous == if index == 0 then None else Some(keys[index - 1])
      invariant forall i :: 0 <= i < index && i <= Value(LARGEST_INTEGER) ==> IsInteger(keys[i]) && Value(keys[i]) == i
    {
      NextInitialKey(keys, previous);
      var key := OrderKeyAfter(previous).value;
      ExtendIncreasing(keys, key);
      keys := keys + [key];
      previous := Some(key);
    }
  }
}
