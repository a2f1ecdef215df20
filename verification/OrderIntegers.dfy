/**
 The integer part of an order key (src/order-keys.ts): a head digit that encodes the length,
 followed by that many base-62 digits. A digit stands for its position in
 "0-9A-Za-z", so 'A' is 10, 'Z' is 35, 'a' is 36 and 'z' is 61; `OrderKeyText` relates
 the digits to the characters.
 */
module OrderIntegers {
  import opened Wrappers
  import opened Lexicographic

  type Digit = d: int | 0 <= d < 62
  type Digits = seq<Digit>

  const BASE := 62
  const LAST_DIGIT: Digit := 61
  const HEAD_A_UPPER := 10
  const HEAD_Z_UPPER := 35
  const HEAD_A_LOWER := 36
  const HEAD_Z_LOWER := 61

  function IntegerLength(head: Digit): nat
    requires HEAD_A_UPPER <= head
  {
    if HEAD_A_LOWER <= head then head - HEAD_A_LOWER + 2 else HEAD_Z_UPPER - head + 2
  }

  predicate IsInteger(k: Digits) {
    k != [] && HEAD_A_UPPER <= k[0] && |k| == IntegerLength(k[0])
  }

  function Repeat(d: Digit, n: nat): (r: Digits)
    ensures |r| == n && forall i :: 0 <= i < n ==> r[i] == d
  {
    seq(n, _ => d)
  }

  const INTEGER_ZERO: Digits := [36, 0]
  /** "A" followed by 26 "0"s: the least integer, and the least order key. */
  const SMALLEST: Digits := [10] + Repeat(0, 26)
  /** "z" followed by 26 "z"s. */
  const LARGEST_INTEGER: Digits := [61] + Repeat(61, 26)

  // ----- the integer a key stands for

  function Pow62(n: nat): (p: nat)
    ensures 1 <= p
  {
    if n == 0 then 1 else 62 * Pow62(n - 1)
  }

  function Num(ds: Digits): nat {
    if ds == [] then 0 else ds[0] * Pow62(|ds| - 1) + Num(ds[1..])
  }

  /** 62 + 62^2 + ... + 62^n */
  function Offset(n: nat): nat {
    if n == 0 then 0 else Offset(n - 1) + Pow62(n)
  }

  /** The least value written with this head; the next head starts right after the last one. */
  function Low(head: int): int
    requires HEAD_A_UPPER <= head <= HEAD_Z_LOWER + 1
  {
    if HEAD_A_LOWER <= head then Offset(head - HEAD_A_LOWER) else 0 - Offset(HEAD_A_LOWER - head)
  }

  function Value(k: Digits): int
    requires IsInteger(k)
  {
    Low(k[0]) + Num(k[1..])
  }

  lemma DigitTimes(d: Digit, p: nat)
    ensures 0 <= d * p <= 61 * p
  {
  }

  lemma {:induction false} NumBound(ds: Digits)
    ensures Num(ds) < Pow62(|ds|)
  {
    if ds == [] {
    } else {
      NumBound(ds[1..]);
      DigitTimes(ds[0], Pow62(|ds| - 1));
    }
  }

  lemma {:induction false} NumSnoc(ds: Digits, d: Digit)
    ensures Num(ds + [d]) == 62 * Num(ds) + d
  {
    var e := ds + [d];
    if ds == [] {
      assert e[1..] == [];
    } else {
      NumSnoc(ds[1..], d);
      assert e[1..] == ds[1..] + [d];
      assert ds[0] * Pow62(|ds|) == 62 * (ds[0] * Pow62(|ds| - 1));
    }
  }

  lemma {:induction false} NumRepeat(n: nat)
    ensures Num(Repeat(0, n)) == 0
    ensures Num(Repeat(LAST_DIGIT, n)) == Pow62(n) - 1
  {
    if n == 0 {
    } else {
      NumRepeat(n - 1);
      assert Repeat(0, n)[1..] == Repeat(0, n - 1);
      assert Repeat(LAST_DIGIT, n)[1..] == Repeat(LAST_DIGIT, n - 1);
    }
  }

  lemma LeadingDigits(d: Digit, e: Digit, p: nat, x: nat, y: nat)
    requires x < p && y < p
    ensures d * p + x < e * p + y <==> d < e || (d == e && x < y)
    ensures d * p + x == e * p + y <==> d == e && x == y
  {
    if d < e {
      assert (d + 1) * p <= e * p;
    } else if e < d {
      assert (e + 1) * p <= d * p;
    }
  }

  /** Equally long digit strings compare as the numbers they write. */
  lemma {:induction false} NumOrder(a: Digits, b: Digits)
    requires |a| == |b|
    ensures Less(a, b) <==> Num(a) < Num(b)
    ensures a == b <==> Num(a) == Num(b)
  {
    if a == [] {
    } else {
      NumOrder(a[1..], b[1..]);
      NumBound(a[1..]);
      NumBound(b[1..]);
      LeadingDigits(a[0], b[0], Pow62(|a| - 1), Num(a[1..]), Num(b[1..]));
      assert a == [a[0]] + a[1..] && b == [b[0]] + b[1..];
    }
  }

  /** Each head covers exactly one contiguous block of integers. */
  lemma LowStep(head: Digit)
    requires HEAD_A_UPPER <= head
    ensures Low(head + 1) == Low(head) + Pow62(IntegerLength(head) - 1)
  {
    if HEAD_A_LOWER <= head {
      assert Offset(head - HEAD_A_LOWER + 1) == Offset(head - HEAD_A_LOWER) + Pow62(head - HEAD_A_LOWER + 1);
    } else {
      assert Offset(HEAD_A_LOWER - head) == Offset(HEAD_Z_UPPER - head) + Pow62(HEAD_A_LOWER - head);
    }
  }

  lemma {:induction false} LowMonotone(h: int, g: int)
    requires HEAD_A_UPPER <= h <= g <= HEAD_Z_LOWER + 1
    ensures Low(h) <= Low(g)
    decreases g - h
  {
    if h == g {
    } else {
      LowMonotone(h, g - 1);
      LowStep(g - 1);
    }
  }

  lemma ValueRange(k: Digits)
    requires IsInteger(k)
    ensures Low(k[0]) <= Value(k) < Low(k[0] as int + 1)
  {
    NumBound(k[1..]);
    LowStep(k[0]);
  }

  /** No integer part is a proper prefix of another, whatever follows them. */
  lemma PrefixFree(a: Digits, b: Digits, x: Digits, y: Digits)
    requires IsInteger(a) && IsInteger(b) && a + x == b + y
    ensures a == b && x == y
  {
    assert (a + x)[0] == a[0] && (b + y)[0] == b[0];
    assert a == (a + x)[..|a|] && b == (b + y)[..|b|];
    assert x == (a + x)[|a|..] && y == (b + y)[|b|..];
  }

  /** Integer parts compare as the integers they stand for. */
  lemma ValueOrder(a: Digits, b: Digits)
    requires IsInteger(a) && IsInteger(b)
    ensures Less(a, b) <==> Value(a) < Value(b)
    ensures a == b <==> Value(a) == Value(b)
  {
    ValueRange(a);
    ValueRange(b);
    if a[0] == b[0] {
      NumOrder(a[1..], b[1..]);
      assert a == [a[0]] + a[1..] && b == [b[0]] + b[1..];
    } else if a[0] < b[0] {
      LowMonotone(a[0] + 1, b[0]);
    } else {
      LowMonotone(b[0] + 1, a[0]);
    }
  }

  /** Whole keys with different integer parts compare by those parts alone. */
  lemma ValueDecides(a: Digits, b: Digits, x: Digits, y: Digits)
    requires IsInteger(a) && IsInteger(b) && Value(a) < Value(b)
    ensures Less(a + x, b + y)
  {
    ValueOrder(a, b);
    assert (a + x)[0] == a[0] && (b + y)[0] == b[0];
    if a[0] == b[0] {
      DecidedEarly(a, b, x, y);
    }
  }

  lemma Extremes(k: Digits)
    requires IsInteger(k)
    ensures IsInteger(SMALLEST) && IsInteger(LARGEST_INTEGER)
    ensures Value(SMALLEST) <= Value(k) <= Value(LARGEST_INTEGER)
  {
    var bottom, top := SMALLEST, LARGEST_INTEGER;
    assert bottom[1..] == Repeat(0, |bottom| - 1);
    assert top[1..] == Repeat(LAST_DIGIT, |top| - 1);
    NumRepeat(|bottom| - 1);
    NumRepeat(|top| - 1);
    LowStep(top[0]);
    ValueRange(k);
    LowMonotone(bottom[0], k[0]);
    LowMonotone(k[0] as int + 1, top[0] as int + 1);
  }

  // ----- successor

  /** Adding one to a digit string of fixed length; the flag reports a carry out of it. */
  function Carry(ds: Digits): (r: (Digits, bool))
    ensures |r.0| == |ds|
  {
    if ds == [] then ([], true)
    else
      var last := |ds| - 1;
      if ds[last] == LAST_DIGIT then
        var (rest, carry) := Carry(ds[..last]);
        (rest + [0], carry)
      else (ds[..last] + [ds[last] + 1], false)
  }

  lemma {:induction false} CarryAddsOne(ds: Digits)
    ensures Num(Carry(ds).0) + (if Carry(ds).1 then Pow62(|ds|) else 0) == Num(ds) + 1
  {
    if ds == [] {
    } else {
      var last := |ds| - 1;
      assert ds == ds[..last] + [ds[last]];
      NumSnoc(ds[..last], ds[last]);
      if ds[last] == LAST_DIGIT {
        CarryAddsOne(ds[..last]);
        NumSnoc(Carry(ds[..last]).0, 0);
      } else {
        NumSnoc(ds[..last], ds[last] + 1);
      }
    }
  }

  function Increment(k: Digits): Option<Digits>
    requires IsInteger(k)
  {
    var (digits, carry) := Carry(k[1..]);
    if !carry then Some([k[0]] + digits)
    else if k[0] == HEAD_Z_UPPER then Some(INTEGER_ZERO)
    else if k[0] == HEAD_Z_LOWER then None
    else Some([k[0] + 1] + Repeat(0, IntegerLength(k[0] + 1) - 1))
  }

  /** All digits at their maximum: the next integer is the first one of the next head. */
  lemma CarryIntoNextHead(k: Digits)
    requires IsInteger(k) && k[0] != HEAD_Z_LOWER && Num(k[1..]) == Pow62(|k| - 1) - 1
    ensures var n := IntegerLength(k[0] + 1) - 1;
            var up := [k[0] + 1] + Repeat(0, n);
            IsInteger(up) && Value(up) == Value(k) + 1 && (k[0] == HEAD_Z_UPPER ==> up == INTEGER_ZERO)
  {
    var n := IntegerLength(k[0] + 1) - 1;
    var up := [k[0] + 1] + Repeat(0, n);
    NumRepeat(n);
    assert up[1..] == Repeat(0, n);
    LowStep(k[0]);
  }

  lemma WithoutCarry(k: Digits)
    requires IsInteger(k) && !Carry(k[1..]).1
    ensures var up := [k[0]] + Carry(k[1..]).0;
            IsInteger(up) && Value(up) == Value(k) + 1 && k != LARGEST_INTEGER
  {
    var up := [k[0]] + Carry(k[1..]).0;
    CarryAddsOne(k[1..]);
    assert up[1..] == Carry(k[1..]).0;
    Extremes(up);
    ValueOrder(k, LARGEST_INTEGER);
  }

  lemma CarryOfLargest(k: Digits)
    requires IsInteger(k) && Carry(k[1..]).1 && k[0] == HEAD_Z_LOWER
    ensures k == LARGEST_INTEGER
  {
    CarryAddsOne(k[1..]);
    NumBound(Carry(k[1..]).0);
    NumBound(k[1..]);
    NumRepeat(26);
    NumOrder(k[1..], Repeat(LAST_DIGIT, 26));
    assert k == [k[0]] + k[1..];
  }

  lemma CarryOfOthers(k: Digits)
    requires IsInteger(k) && Carry(k[1..]).1 && k[0] != HEAD_Z_LOWER
    ensures Increment(k).Some? && IsInteger(Increment(k).value) && Value(Increment(k).value) == Value(k) + 1 && k != LARGEST_INTEGER
  {
    CarryAddsOne(k[1..]);
    NumBound(k[1..]);
    NumBound(Carry(k[1..]).0);
    CarryIntoNextHead(k);
  }

  /** `Increment` is the exact successor, and fails only at the top. */
  lemma IncrementIsSuccessor(k: Digits)
    requires IsInteger(k)
    ensures Increment(k).None? <==> k == LARGEST_INTEGER
    ensures Increment(k).Some? ==> IsInteger(Increment(k).value) && Value(Increment(k).value) == Value(k) + 1
  {
    if !Carry(k[1..]).1 {
      WithoutCarry(k);
    } else if k[0] == HEAD_Z_LOWER {
      CarryOfLargest(k);
    } else {
      CarryOfOthers(k);
    }
  }

  /** One digit of the loop: position i is the next to change, `done` holds the digits after it. */
  lemma CarryStep(tail: Digits, i: nat, done: Digits)
    requires i < |tail|
    ensures tail[i] == LAST_DIGIT ==> Carry(tail[..i + 1]).0 + done == Carry(tail[..i]).0 + ([0] + done)
    ensures tail[i] == LAST_DIGIT ==> Carry(tail[..i + 1]).1 == Carry(tail[..i]).1
    ensures !(tail[i] == LAST_DIGIT) ==> Carry(tail[..i + 1]).0 + done == tail[..i] + ([tail[i] + 1] + done)
    ensures !(tail[i] == LAST_DIGIT) ==> !Carry(tail[..i + 1]).1
  {
    assert tail[..i + 1][..i] == tail[..i];
  }

  method IncrementInteger(integer: Digits) returns (r: Option<Digits>)
    requires IsInteger(integer)
    ensures r == Increment(integer)
  {
    var head := integer[0];
    var n := |integer| - 1;
    ghost var tail := integer[1..];
    var digits := new Digit[n](i requires 0 <= i < n => integer[i + 1]);
    ghost var done: Digits := [];
    assert digits[..] == tail[..n] + done && tail[..n] == tail;
    assert Carry(tail).0 + done == Carry(tail).0;
    var carry := true;
    var index := n - 1;
    while carry && 0 <= index
      invariant -1 <= index < n
      invariant carry ==> digits[..] == tail[..index + 1] + done
      invariant carry ==> Carry(tail) == (Carry(tail[..index + 1]).0 + done, Carry(tail[..index + 1]).1)
      invariant !carry ==> Carry(tail) == (digits[..], false)
      decreases index
    {
      CarryStep(tail, index, done);
      assert digits[..][index] == tail[index];
      var value: int := digits[index] as int + 1;
      if value == BASE {
        digits[index] := 0;
        done := [0] + done;
        assert digits[..] == tail[..index] + done;
      } else {
        digits[index] := value;
        carry := false;
        assert digits[..] == tail[..index] + ([value] + done);
      }
      index := index - 1;
    }
    if !carry { return Some([head] + digits[..]); }
    assert tail[..0] == [];
    if head == HEAD_Z_UPPER { return Some(INTEGER_ZERO); }
    if head == HEAD_Z_LOWER { return None; }
    return Some([head + 1] + Repeat(0, IntegerLength(head + 1) - 1));
  }

  // ----- predecessor

  /** Subtracting one from a digit string of fixed length; the flag reports a borrow out of it. */
  function Borrow(ds: Digits): (r: (Digits, bool))
    ensures |r.0| == |ds|
  {
    if ds == [] then ([], true)
    else
      var last := |ds| - 1;
      if ds[last] == 0 then
        var (rest, borrow) := Borrow(ds[..last]);
        (rest + [LAST_DIGIT], borrow)
      else (ds[..last] + [ds[last] - 1], false)
  }

  lemma {:induction false} BorrowTakesOne(ds: Digits)
    ensures Num(Borrow(ds).0) + 1 == Num(ds) + (if Borrow(ds).1 then Pow62(|ds|) else 0)
  {
    if ds == [] {
    } else {
      var last := |ds| - 1;
      assert ds == ds[..last] + [ds[last]];
      NumSnoc(ds[..last], ds[last]);
      if ds[last] == 0 {
        BorrowTakesOne(ds[..last]);
        NumSnoc(Borrow(ds[..last]).0, LAST_DIGIT);
      } else {
        NumSnoc(ds[..last], ds[last] - 1);
      }
    }
  }

  function Decrement(k: Digits): Option<Digits>
    requires IsInteger(k)
  {
    var (digits, borrow) := Borrow(k[1..]);
    if !borrow then Some([k[0]] + digits)
    else if k[0] == HEAD_A_LOWER then Some([35, LAST_DIGIT])
    else if k[0] == HEAD_A_UPPER then None
    else Some([k[0] - 1] + Repeat(LAST_DIGIT, IntegerLength(k[0] - 1) - 1))
  }

  lemma AboveSmallest(down: Digits, k: Digits)
    requires IsInteger(down) && IsInteger(k) && Value(down) < Value(k)
    ensures k != SMALLEST
  {
    Extremes(down);
  }

  lemma AllZeros(k: Digits)
    requires IsInteger(k) && k[0] == SMALLEST[0] && Num(k[1..]) == 0
    ensures k == SMALLEST
  {
    hide Num, Pow62, Less;
    var n := |k| - 1;
    NumRepeat(n);
    NumOrder(k[1..], Repeat(0, n));
    assert k == [k[0]] + k[1..];
  }

  /** All digits zero: the integer before is the last one of the previous head. */
  lemma BorrowFromPreviousHead(k: Digits)
    requires IsInteger(k) && k[0] != HEAD_A_UPPER && Num(k[1..]) == 0
    ensures var n := IntegerLength(k[0] - 1) - 1;
            var down := [k[0] - 1] + Repeat(LAST_DIGIT, n);
            IsInteger(down) && Value(down) == Value(k) - 1 && (k[0] == HEAD_A_LOWER ==> down == [35, LAST_DIGIT])
  {
    var n := IntegerLength(k[0] - 1) - 1;
    var down := [k[0] - 1] + Repeat(LAST_DIGIT, n);
    NumRepeat(n);
    assert down[1..] == Repeat(LAST_DIGIT, n);
    LowStep(k[0] - 1);
  }

  /** `Decrement` is the exact predecessor, and fails only at the bottom. */
  lemma DecrementIsPredecessor(k: Digits)
    requires IsInteger(k)
    ensures Decrement(k).None? <==> k == SMALLEST
    ensures Decrement(k).Some? ==> IsInteger(Decrement(k).value) && Value(Decrement(k).value) == Value(k) - 1
  {
    var (digits, borrow) := Borrow(k[1..]);
    BorrowTakesOne(k[1..]);
    NumBound(k[1..]);
    NumBound(digits);
    if !borrow {
      var down := [k[0]] + digits;
      assert down[1..] == digits;
      AboveSmallest(down, k);
    } else if k[0] != HEAD_A_UPPER {
      BorrowFromPreviousHead(k);
    } else {
      AllZeros(k);
    }
  }

  /** One digit of the loop: position i is the next to change, `done` holds the digits after it. */
  lemma BorrowStep(tail: Digits, i: nat, done: Digits)
    requires i < |tail|
    ensures tail[i] == 0 ==> Borrow(tail[..i + 1]).0 + done == Borrow(tail[..i]).0 + ([LAST_DIGIT] + done)
    ensures tail[i] == 0 ==> Borrow(tail[..i + 1]).1 == Borrow(tail[..i]).1
    ensures !(tail[i] == 0) ==> Borrow(tail[..i + 1]).0 + done == tail[..i] + ([tail[i] - 1] + done)
    ensures !(tail[i] == 0) ==> !Borrow(tail[..i + 1]).1
  {
    assert tail[..i + 1][..i] == tail[..i];
  }

  method DecrementInteger(integer: Digits) returns (r: Option<Digits>)
    requires IsInteger(integer)
    ensures r == Decrement(integer)
  {
    var head := integer[0];
    var n := |integer| - 1;
    ghost var tail := integer[1..];
    var digits := new Digit[n](i requires 0 <= i < n => integer[i + 1]);
    ghost var done: Digits := [];
    assert digits[..] == tail[..n] + done && tail[..n] == tail;
    assert Borrow(tail).0 + done == Borrow(tail).0;
    var borrow := true;
    var index := n - 1;
    while borrow && 0 <= index
      invariant -1 <= index < n
      invariant borrow ==> digits[..] == tail[..index + 1] + done
      invariant borrow ==> Borrow(tail) == (Borrow(tail[..index + 1]).0 + done, Borrow(tail[..index + 1]).1)
      invariant !borrow ==> Borrow(tail) == (digits[..], false)
      decreases index
    {
      BorrowStep(tail, index, done);
      assert digits[..][index] == tail[index];
      var value: int := digits[index] as int - 1;
      if value == -1 {
        digits[index] := LAST_DIGIT;
        done := [LAST_DIGIT] + done;
        assert digits[..] == tail[..index] + done;
      } else {
        digits[index] := value;
        borrow := false;
        assert digits[..] == tail[..index] + ([value] + done);
      }
      index := index - 1;
    }
    if !borrow { return Some([head] + digits[..]); }
    assert tail[..0] == [];
    if head == HEAD_A_LOWER { return Some([35, LAST_DIGIT]); }
    if head == HEAD_A_UPPER { return None; }
    return Some([head - 1] + Repeat(LAST_DIGIT, IntegerLength(head - 1) - 1));
  }

  /** Successor and predecessor undo each other, across every change of head. */
  lemma IncrementDecrementInverse(k: Digits)
    requires IsInteger(k)
    ensures Increment(k).Some? ==> Decrement(Increment(k).value) == Some(k)
    ensures Decrement(k).Some? ==> Increment(Decrement(k).value) == Some(k)
  {
    IncrementIsSuccessor(k);
    DecrementIsPredecessor(k);
    Extremes(k);
    if Increment(k).Some? {
      var up := Increment(k).value;
      DecrementIsPredecessor(up);
      ValueOrder(up, SMALLEST);
      if Decrement(up).Some? { ValueOrder(Decrement(up).value, k); }
    }
    if Decrement(k).Some? {
      var down := Decrement(k).value;
      IncrementIsSuccessor(down);
      ValueOrder(down, LARGEST_INTEGER);
      if Increment(down).Some? { ValueOrder(Increment(down).value, k); }
    }
  }
}
