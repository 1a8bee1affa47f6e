/** Conversion of Python integers, stored as digits in base 2^15 or 2^30, to C integers of a given width.
    Widths are in bits. Unsigned shifts drop high bits and narrowing casts wrap, as in C. */
module IntConversion {
  import opened Common

  function Pow2(k: nat): (p: nat)
    ensures p >= 1
  {
    if k == 0 then 1 else 2 * Pow2(k - 1)
  }

  lemma {:induction false} Pow2Add(a: nat, b: nat)
    ensures Pow2(a + b) == Pow2(a) * Pow2(b)
  {
    if a != 0 {
      Pow2Add(a - 1, b);
      assert Pow2(a + b) == 2 * (Pow2(a - 1) * Pow2(b)) == (2 * Pow2(a - 1)) * Pow2(b);
    }
  }

  lemma {:induction false} Pow2Mono(a: nat, b: nat)
    requires a <= b
    ensures Pow2(a) <= Pow2(b)
    decreases b
  {
    if a < b {
      Pow2Mono(a, b - 1);
    }
  }

  /** `n` times `shift`. */
  function Bits(n: nat, shift: nat): nat {
    if n == 0 then 0 else shift + Bits(n - 1, shift)
  }

  function Neg(v: int): int {
    -v
  }

  // ----- C arithmetic -----

  predicate Fits(v: int, width: nat)
    requires width >= 1
  {
    Neg(Pow2(width - 1)) <= v < Pow2(width - 1)
  }

  /** Conversion to an unsigned type. */
  function ToUnsigned(v: int, width: nat): nat {
    v % Pow2(width)
  }

  /** Conversion to a signed type: two's complement. */
  function ToSigned(v: int, width: nat): int
    requires width >= 1
  {
    var u := ToUnsigned(v, width);
    if u < Pow2(width - 1) then u else u - Pow2(width)
  }

  function BitOr(a: nat, b: nat): nat {
    if a == 0 && b == 0 then 0
    else 2 * BitOr(a / 2, b / 2) + (if a % 2 == 1 || b % 2 == 1 then 1 else 0)
  }

  function ShiftLeft(v: nat, count: nat, width: nat): nat {
    ToUnsigned(v * Pow2(count), width)
  }

  lemma SmallUnsigned(v: int, width: nat)
    requires 0 <= v < Pow2(width)
    ensures ToUnsigned(v, width) == v
  {
    ModSmall(v, Pow2(width));
  }

  lemma ModSmall(v: int, m: int)
    requires 0 <= v < m
    ensures v % m == v
  {
  }

  lemma ToSignedOfFitting(v: int, width: nat)
    requires width >= 1 && Fits(v, width)
    ensures ToSigned(v, width) == v
  {
    var m := Pow2(width);
    if v < 0 {
      assert (v + m) % m == v % m by { ModAddModulus(v, m); }
      SmallUnsigned(v + m, width);
    } else {
      SmallUnsigned(v, width);
    }
  }

  lemma ModAddModulus(v: int, m: nat)
    requires m >= 1
    ensures (v + m) % m == v % m
  {
    var q, r := v / m, v % m;
    assert v + m == (q + 1) * m + r;
    var d := (v + m) / m - (q + 1);
    assert d * m == r - (v + m) % m;
    MultipleOutOfRange(d, m);
  }

  lemma ToSignedFits(v: int, width: nat)
    requires width >= 1
    ensures Fits(ToSigned(v, width), width)
  {
  }

  /** Or-ing digits below the shifted ones adds them. */
  lemma {:induction false} OrIsSum(hi: nat, lo: nat, s: nat)
    requires lo < Pow2(s)
    ensures BitOr(hi * Pow2(s), lo) == hi * Pow2(s) + lo
    decreases s
  {
    if s == 0 {
      assert hi * Pow2(0) == hi;
      OrZero(hi);
    } else {
      var a := hi * Pow2(s - 1);
      assert hi * Pow2(s) == 2 * a;
      OrIsSum(hi, lo / 2, s - 1);
      assert (2 * a) / 2 == a && (2 * a) % 2 == 0;
      assert BitOr(2 * a, lo) == 2 * BitOr(a, lo / 2) + lo % 2;
    }
  }

  lemma {:induction false} OrZero(a: nat)
    ensures BitOr(a, 0) == a
  {
    if a != 0 {
      OrZero(a / 2);
    }
  }

  // ----- Python integers -----

  /** The signed digit count and the digits, least significant first. */
  datatype PyLong = PyLong(size: int, digits: seq<nat>)

  /** Digits of `shift` bits are stored in a type with at least one bit more: 15 in 16, or 30 in 32. */
  predicate Layout(shift: nat, digitWidth: nat) {
    shift < digitWidth
  }

  predicate DigitsOk(ds: seq<nat>, shift: nat) {
    forall i :: 0 <= i < |ds| ==> ds[i] < Pow2(shift)
  }

  predicate Valid(x: PyLong, shift: nat) {
    (x.size == |x.digits| || x.size == Neg(|x.digits|)) && DigitsOk(x.digits, shift)
  }

  function Magnitude(ds: seq<nat>, shift: nat): nat {
    if ds == [] then 0 else Magnitude(ds[1..], shift) * Pow2(shift) + ds[0]
  }

  function Value(x: PyLong, shift: nat): int {
    if x.size < 0 then Neg(Magnitude(x.digits, shift)) else Magnitude(x.digits, shift)
  }

  /** Digits shifted and or-ed together in an unsigned type, most significant first. */
  function Join(ds: seq<nat>, shift: nat, width: nat): nat
    requires ds != []
  {
    if |ds| == 1 then ToUnsigned(ds[0], width)
    else BitOr(ShiftLeft(Join(ds[1..], shift, width), shift, width), ToUnsigned(ds[0], width))
  }

  lemma MulNonNegative(a: nat, p: nat)
    ensures a * p >= 0
  {
  }

  lemma MulStep(m: nat, q: nat, p: nat)
    requires m < q
    ensures m * p + p <= q * p
  {
    MulNonNegative(q - m - 1, p);
    assert q * p == (m + 1) * p + (q - m - 1) * p;
    assert (m + 1) * p == m * p + p;
  }

  lemma {:induction false} MagnitudeBound(ds: seq<nat>, shift: nat)
    requires DigitsOk(ds, shift)
    ensures Magnitude(ds, shift) < Pow2(Bits(|ds|, shift))
  {
    if ds != [] {
      var m, p := Magnitude(ds[1..], shift), Pow2(shift);
      MagnitudeBound(ds[1..], shift);
      var q := Pow2(Bits(|ds| - 1, shift));
      Pow2Add(Bits(|ds| - 1, shift), shift);
      MulStep(m, q, p);
    }
  }

  /** Joining is exact when the type is wide enough for all digits. */
  lemma {:induction false} JoinIsMagnitude(ds: seq<nat>, shift: nat, width: nat)
    requires ds != [] && DigitsOk(ds, shift) && Bits(|ds|, shift) <= width
    ensures Join(ds, shift, width) == Magnitude(ds, shift)
    decreases |ds|
  {
    assert Bits(|ds|, shift) == shift + Bits(|ds| - 1, shift);
    Pow2Mono(shift, width);
    SmallUnsigned(ds[0], width);
    if |ds| == 1 {
      assert ds[1..] == [] && Magnitude(ds[1..], shift) == 0;
    } else {
      var m := Magnitude(ds[1..], shift);
      JoinIsMagnitude(ds[1..], shift, width);
      MagnitudeBound(ds, shift);
      Pow2Mono(Bits(|ds|, shift), width);
      JoinStep(m, ds[0], shift, width);
    }
  }

  lemma JoinStep(m: nat, d: nat, shift: nat, width: nat)
    requires d < Pow2(shift) && m * Pow2(shift) + d < Pow2(width)
    ensures BitOr(ShiftLeft(m, shift, width), d) == m * Pow2(shift) + d
  {
    MulNonNegative(m, Pow2(shift));
    SmallUnsigned(m * Pow2(shift), width);
    OrIsSum(m, d, shift);
  }

  // ----- the conversions -----

  datatype Outcome = Return(v: int) | Overflow | Undecided

  /** What the caller is promised. */
  function Exact(v: int, target: nat): Outcome
    requires target >= 1
  {
    if Fits(v, target) then Return(v) else Overflow
  }

  /** The narrowing check: `value` has a type of `width` bits, signed or not. */
  function Verify(target: nat, width: nat, signed: bool, value: int): Outcome
    requires target >= 1
  {
    var narrow := ToSigned(value, target);
    if target < width && value != (if signed then narrow else ToUnsigned(narrow, width)) then Overflow
    else Return(narrow)
  }

  lemma VerifyIsExact(target: nat, width: nat, signed: bool, value: int)
    requires target >= 1 && width >= 1 && Fits(value, width) && (!signed ==> value >= 0)
    ensures Verify(target, width, signed, value) == Exact(value, target)
  {
    if target >= width {
      Pow2Mono(width - 1, target - 1);
    } else {
      ToSignedFits(value, target);
      if Fits(value, target) {
        Pow2Mono(target - 1, width);
        ToSignedOfFitting(value, target);
        if value >= 0 {
          SmallUnsigned(value, width);
        }
      } else if !signed {
        NegativeWrapsHigh(ToSigned(value, target), target, width);
      }
    }
    if Fits(value, target) {
      ToSignedOfFitting(value, target);
    }
  }

  /** A narrowed value converted back to a wider unsigned type is itself or too large to be any value that
      fits the signed type of that width. */
  lemma NegativeWrapsHigh(narrow: int, target: nat, width: nat)
    requires 1 <= target < width && Fits(narrow, target)
    ensures narrow >= 0 ==> ToUnsigned(narrow, width) == narrow
    ensures narrow < 0 ==> ToUnsigned(narrow, width) >= Pow2(width - 1)
  {
    Pow2Mono(target - 1, width - 1);
    if narrow >= 0 {
      SmallUnsigned(narrow, width);
    } else {
      ModAddModulus(narrow, Pow2(width));
      SmallUnsigned(narrow + Pow2(width), width);
    }
  }

  /** The digit fast paths of the conversion to a signed type of `target` bits, where `long` has `long` bits;
      `Undecided` when none of them applies. */
  function FastPath(x: PyLong, shift: nat, digitWidth: nat, target: nat, long: nat): Outcome
    requires Valid(x, shift) && target >= 1 && long >= 1
  {
    var n := |x.digits|;
    if n == 0 then Return(0)
    else if x.size == -1 then Verify(target, digitWidth, true, Neg(x.digits[0]))
    else if x.size == 1 then Verify(target, digitWidth, false, x.digits[0])
    else if n > 4 then Undecided
    else if x.size < 0 then
      if target - 1 > Bits(n - 1, shift) then
        if long > Bits(n, shift) then Verify(target, long, true, Neg(ToSigned(Join(x.digits, shift, long), long)))
        else if target - 1 > Bits(n, shift) then Return(Neg(Join(x.digits, shift, target)))
        else Undecided
      else Undecided
    else
      if target > Bits(n - 1, shift) then
        if long > Bits(n, shift) then Verify(target, long, false, Join(x.digits, shift, long))
        else if target - 1 > Bits(n, shift) then Return(Join(x.digits, shift, target))
        else Undecided
      else Undecided
  }

  /** The library conversion to long, which is exact or raises, followed by the narrowing check. */
  function SlowPath(x: PyLong, shift: nat, target: nat, long: nat): Outcome
    requires target >= 1 && long >= 1
  {
    var v := Value(x, shift);
    if Fits(v, long) then Verify(target, long, true, v) else Overflow
  }

  function AsInt(x: PyLong, shift: nat, digitWidth: nat, target: nat, long: nat): Outcome
    requires Valid(x, shift) && target >= 1 && long >= 1
  {
    var fast := FastPath(x, shift, digitWidth, target, long);
    if fast == Undecided then SlowPath(x, shift, target, long) else fast
  }

  /** Joined digits in a type with a bit to spare. */
  lemma JoinedFits(ds: seq<nat>, shift: nat, width: nat)
    requires ds != [] && DigitsOk(ds, shift) && width > Bits(|ds|, shift)
    ensures Join(ds, shift, width) == Magnitude(ds, shift)
    ensures Fits(Magnitude(ds, shift), width) && Fits(Neg(Magnitude(ds, shift)), width)
    ensures ToSigned(Join(ds, shift, width), width) == Magnitude(ds, shift)
  {
    JoinIsMagnitude(ds, shift, width);
    MagnitudeBound(ds, shift);
    Pow2Mono(Bits(|ds|, shift), width - 1);
    ToSignedOfFitting(Magnitude(ds, shift), width);
  }

  lemma OneDigit(d: nat, shift: nat, digitWidth: nat)
    requires Layout(shift, digitWidth) && d < Pow2(shift)
    ensures Magnitude([d], shift) == d && Fits(d, digitWidth) && Fits(Neg(d), digitWidth)
  {
    assert [d][1..] == [];
    assert Magnitude([], shift) * Pow2(shift) == 0;
    Pow2Mono(shift, digitWidth - 1);
  }

  /** Whatever the widths are, a fast path that is taken returns the exact value if it fits and raises
      overflow otherwise. */
  lemma FastPathIsExact(x: PyLong, shift: nat, digitWidth: nat, target: nat, long: nat)
    requires Layout(shift, digitWidth) && Valid(x, shift) && target >= 1 && long >= 1
    requires FastPath(x, shift, digitWidth, target, long) != Undecided
    ensures FastPath(x, shift, digitWidth, target, long) == Exact(Value(x, shift), target)
  {
    var n, v := |x.digits|, Value(x, shift);
    if n == 0 {
    } else if n == 1 {
      assert x.digits == [x.digits[0]];
      OneDigit(x.digits[0], shift, digitWidth);
      VerifyIsExact(target, digitWidth, x.size < 0, v);
    } else if long > Bits(n, shift) {
      JoinedFits(x.digits, shift, long);
      VerifyIsExact(target, long, x.size < 0, v);
    } else {
      JoinedFits(x.digits, shift, target);
    }
  }

  /** The whole conversion is exact for every digit layout and every pair of widths in which the target is
      not wider than long. */
  lemma AsIntIsExact(x: PyLong, shift: nat, digitWidth: nat, target: nat, long: nat)
    requires Layout(shift, digitWidth) && Valid(x, shift) && 1 <= target <= long
    ensures AsInt(x, shift, digitWidth, target, long) == Exact(Value(x, shift), target)
  {
    if FastPath(x, shift, digitWidth, target, long) != Undecided {
      FastPathIsExact(x, shift, digitWidth, target, long);
    } else if Fits(Value(x, shift), long) {
      VerifyIsExact(target, long, true, Value(x, shift));
    } else {
      Pow2Mono(target - 1, long - 1);
    }
  }

  /** The conversion of an index to Py_ssize_t, which has `width` bits. */
  function AsIndex(x: PyLong, shift: nat, width: nat): Outcome
    requires Valid(x, shift) && width >= 1
  {
    var n := |x.digits|;
    if n == 0 then Return(0)
    else if n == 1 then Return(if x.size == -1 then Neg(x.digits[0]) else x.digits[0])
    else if n <= 4 && width > Bits(n, shift) then
      var joined := ToSigned(Join(x.digits, shift, width), width);
      Return(if x.size < 0 then Neg(joined) else joined)
    else Exact(Value(x, shift), width)
  }

  lemma AsIndexIsExact(x: PyLong, shift: nat, digitWidth: nat, width: nat)
    requires Layout(shift, digitWidth) && Valid(x, shift) && width >= digitWidth
    ensures AsIndex(x, shift, width) == Exact(Value(x, shift), width)
  {
    var n := |x.digits|;
    if n == 1 {
      assert x.digits == [x.digits[0]];
      OneDigit(x.digits[0], shift, digitWidth);
      Pow2Mono(digitWidth - 1, width - 1);
    } else if 2 <= n <= 4 && width > Bits(n, shift) {
      JoinedFits(x.digits, shift, width);
    }
  }
}
