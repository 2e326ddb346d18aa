/**
  utils/overlaps_cuda/rbbox_overlaps.cpp: converting a Python integer, stored as digits of SHIFT bits,
  to a C integer. Every C type has its width as a parameter and its arithmetic written out, so a
  left shift drops high bits, a conversion to a signed type wraps, and `|` works on bits.
*/
module IntConversion {
  import opened IntegerMath

  // ---------- C integers of w bits ----------

  function ToUnsigned(v: int, w: nat): nat { v % Pow2(w) }

  function ToSigned(v: int, w: nat): int
    requires w > 0
  {
    var u := v % Pow2(w);
    if u < Pow2(w - 1) then u else u - Pow2(w)
  }

  predicate Fits(v: int, w: nat)
    requires w > 0
  {
    -(Pow2(w - 1) as int) <= v < Pow2(w - 1)
  }

  function Or(a: nat, b: nat): nat
  {
    if a == 0 then b else if b == 0 then a
    else 2 * Or(a / 2, b / 2) + (if a % 2 == 1 || b % 2 == 1 then 1 else 0)
  }

  function ShiftLeft(a: nat, s: nat, w: nat): nat { ToUnsigned(a * Pow2(s), w) }

  lemma Reduced(v: int, p: nat)
    requires 0 <= v < p
    ensures v % p == v
  {
  }

  lemma ReducedNegative(v: int, p: nat)
    requires -(p as int) <= v < 0
    ensures v % p == v + p
  {
    Reduced(v + p, p);
    assert (v + p) % p == v % p;
  }

  lemma SignedIsExact(v: int, w: nat)
    requires w > 0 && Fits(v, w)
    ensures ToSigned(v, w) == v
  {
    if v >= 0 { Reduced(v, Pow2(w)); } else { ReducedNegative(v, Pow2(w)); }
  }

  // ---------- digits ----------

  predicate AreDigits(ds: seq<nat>, shift: nat)
  {
    forall i :: 0 <= i < |ds| ==> ds[i] < Pow2(shift)
  }

  function Value(ds: seq<nat>, shift: nat): nat
  {
    if ds == [] then 0 else ds[0] + Value(ds[1..], shift) * Pow2(shift)
  }

  /** The nested `(... << SHIFT) | digit` expressions, in w-bit arithmetic. */
  function ShiftOr(ds: seq<nat>, shift: nat, w: nat): nat
    requires ds != []
  {
    if |ds| == 1 then ToUnsigned(ds[0], w)
    else Or(ShiftLeft(ShiftOr(ds[1..], shift, w), shift, w), ToUnsigned(ds[0], w))
  }

  lemma {:induction false} OrOfDisjoint(a: nat, b: nat, s: nat)
    requires b < Pow2(s)
    ensures Or(a * Pow2(s), b) == a * Pow2(s) + b
  {
    if s > 0 && a > 0 && b > 0 {
      OrOfDisjoint(a, b / 2, s - 1);
      var half := a * Pow2(s - 1);
      assert a * Pow2(s) == 2 * half;
      assert half > 0;
    }
  }

  lemma {:induction false} ValueBound(ds: seq<nat>, shift: nat)
    requires AreDigits(ds, shift)
    ensures Value(ds, shift) < Pow2(|ds| * shift)
  {
    if ds != [] {
      ValueBound(ds[1..], shift);
      Pow2OneMore(|ds[1..]|, shift);
      LeadingBound(ds[0], Value(ds[1..], shift), Pow2(shift), Pow2(|ds[1..]| * shift));
    }
  }

  lemma Pow2OneMore(n: nat, shift: nat)
    ensures Pow2((n + 1) * shift) == Pow2(shift) * Pow2(n * shift)
  {
    Pow2Sum(shift, n * shift);
    OneMore(n, shift);
  }

  lemma OneMore(n: nat, shift: nat)
    ensures (n + 1) * shift == shift + n * shift
  {
  }

  lemma LeadingBound(d: nat, rest: nat, b: nat, p: nat)
    requires d < b && rest < p
    ensures d + rest * b < b * p
  {
    assert rest * b + b == b * (rest + 1) <= b * p;
  }

  lemma ShiftOrStep(d: nat, rest: nat, shift: nat, w: nat)
    requires d < Pow2(shift) && d + rest * Pow2(shift) < Pow2(w)
    ensures Or(ShiftLeft(rest, shift, w), ToUnsigned(d, w)) == d + rest * Pow2(shift)
  {
    WordKeeps(d, w);
    WordKeeps(rest * Pow2(shift), w);
    OrOfDisjoint(rest, d, shift);
  }

  lemma WordKeeps(v: nat, w: nat)
    requires v < Pow2(w)
    ensures ToUnsigned(v, w) == v
  {
    Reduced(v, Pow2(w));
  }

  /** If all digits fit in the word together, no shift drops a bit and the expression is the number. */
  lemma {:induction false} ReassemblyIsExact(ds: seq<nat>, shift: nat, w: nat)
    requires ds != [] && AreDigits(ds, shift) && |ds| * shift <= w
    ensures ShiftOr(ds, shift, w) == Value(ds, shift) < Pow2(|ds| * shift) <= Pow2(w)
  {
    ValueBound(ds, shift);
    Pow2Grows(|ds| * shift, w);
    if |ds| == 1 {
      assert ds[1..] == [];
      Reduced(ds[0], Pow2(w));
    } else {
      MulMonotone(|ds[1..]|, |ds|, shift);
      ReassemblyIsExact(ds[1..], shift, w);
      ShiftOrStep(ds[0], Value(ds[1..], shift), shift, w);
    }
  }

  // ---------- the narrowing check ----------

  datatype Result = Ok(value: int) | Overflow

  /** The mathematical answer: the value itself if the target type has it, an overflow error otherwise. */
  function Exact(v: int, w: nat): Result
    requires w > 0
  {
    if Fits(v, w) then Ok(v) else Overflow
  }

  /** `__PYX_VERIFY_RETURN_INT`: a round trip through the narrower target type must give the value back. */
  function Verify(value: int, funcBits: nat, funcSigned: bool, targetBits: nat): Result
    requires funcBits > 0 && targetBits > 0
  {
    var narrowed := ToSigned(value, targetBits);
    var back := if funcSigned then ToSigned(narrowed, funcBits) else ToUnsigned(narrowed, funcBits);
    if targetBits < funcBits && value != back then Overflow else Ok(narrowed)
  }

  lemma SignedInRange(v: int, w: nat)
    requires w > 0
    ensures Fits(ToSigned(v, w), w)
    ensures ToSigned(v, w) == v <==> Fits(v, w)
  {
    assert Pow2(w) == 2 * Pow2(w - 1);
    assert 0 <= v % Pow2(w) < Pow2(w);
    if Fits(v, w) { SignedIsExact(v, w); }
  }

  lemma VerifySigned(value: int, funcBits: nat, targetBits: nat)
    requires funcBits > 0 && targetBits > 0 && Fits(value, funcBits)
    ensures Verify(value, funcBits, true, targetBits) == Exact(value, targetBits)
  {
    SignedInRange(value, targetBits);
    if targetBits < funcBits {
      Pow2Grows(targetBits - 1, funcBits - 1);
      SignedIsExact(ToSigned(value, targetBits), funcBits);
    } else {
      Pow2Grows(funcBits - 1, targetBits - 1);
    }
  }

  /**
    For an unsigned intermediate type the check is right except at the very top of that type's range,
    where the round trip through a negative number comes back unharmed.
  */
  lemma VerifyUnsigned(value: nat, funcBits: nat, targetBits: nat)
    requires funcBits > 0 && targetBits > 0 && value < Pow2(funcBits)
    ensures Verify(value, funcBits, false, targetBits) == Exact(value, targetBits)
       <==> targetBits > funcBits || value < Pow2(funcBits) - Pow2(targetBits - 1)
  {
    SignedInRange(value, targetBits);
    var narrowed := ToSigned(value, targetBits);
    if targetBits > funcBits {
      Pow2Grows(funcBits, targetBits - 1);
    } else {
      Pow2Grows(targetBits - 1, funcBits - 1);
      assert Pow2(funcBits) == 2 * Pow2(funcBits - 1);
      if narrowed >= 0 {
        Reduced(narrowed, Pow2(funcBits));
      } else {
        ReducedNegative(narrowed, Pow2(funcBits));
      }
      TopOfRange(value, funcBits, targetBits);
    }
  }

  /** At the top of the unsigned range, and only there, the narrowed value is value - 2^funcBits. */
  lemma TopOfRange(value: nat, funcBits: nat, targetBits: nat)
    requires 0 < targetBits <= funcBits && value < Pow2(funcBits)
    ensures ToSigned(value, targetBits) == value - Pow2(funcBits) <==> value >= Pow2(funcBits) - Pow2(targetBits - 1)
  {
    var p, q := Pow2(targetBits), Pow2(funcBits);
    Pow2Sum(funcBits - targetBits, targetBits);
    var k := Pow2(funcBits - targetBits);
    assert q == k * p;
    var d := value - q;
    SignedInRange(d, targetBits);
    assert value % p == d % p by {
      assert value == d + k * p;
      ModOfMultiple(d, k, p);
    }
    assert ToSigned(value, targetBits) == ToSigned(d, targetBits);
  }

  lemma ModOfMultiple(d: int, k: nat, p: nat)
    requires p > 0
    ensures (d + k * p) % p == d % p
  {
    assert (d / p + k) * p == d / p * p + k * p;
    QuotientUnique(d + k * p, p, d / p + k, d % p);
  }

  lemma VerifyBelowHalf(value: nat, funcBits: nat, targetBits: nat)
    requires funcBits > 0 && targetBits > 0 && value < Pow2(funcBits - 1)
    ensures Verify(value, funcBits, false, targetBits) == Exact(value, targetBits)
  {
    if targetBits <= funcBits { Pow2Grows(targetBits - 1, funcBits - 1); }
    VerifyUnsigned(value, funcBits, targetBits);
  }

  // ---------- the two conversions ----------

  /** `Py_SIZE` is the number of digits, negative for a negative number. */
  datatype PyLong = PyLong(negative: bool, digits: seq<nat>) {
    function Number(shift: nat): int { if negative then -(Value(digits, shift) as int) else Value(digits, shift) }
  }

  /** Widths in bits of the C types involved, and of the digits. */
  datatype Abi = Abi(target: nat, longBits: nat, longLongBits: nat, digitBits: nat, shift: nat) {
    predicate Valid() { target > 0 && 0 < longBits <= longLongBits && 0 < shift < digitBits }
  }

  /** `PyLong_AsLong` and its kin, which report a number too large for their type, followed by the narrowing check. */
  function ViaLibrary(number: int, bits: nat, target: nat): Result
    requires bits > 0 && target > 0
  {
    if Fits(number, bits) then Verify(number, bits, true, target) else Overflow
  }

  /** What happens when no digit expression is wide enough: ever wider library calls. */
  function Fallback(x: PyLong, abi: Abi): Result
    requires abi.Valid()
  {
    var number := x.Number(abi.shift);
    if abi.target <= abi.longBits then ViaLibrary(number, abi.longBits, abi.target)
    else if abi.target <= abi.longLongBits then ViaLibrary(number, abi.longLongBits, abi.target)
    else Exact(number, abi.target)
  }

  /** `__Pyx_PyInt_As_npy_int32`, for a signed target type. */
  function AsInt(x: PyLong, abi: Abi): Result
    requires abi.Valid()
  {
    var n, s := |x.digits|, abi.shift;
    if n == 0 then Ok(0)
    else if n == 1 && x.negative then
      Verify(ToSigned(-(x.digits[0] as int), abi.digitBits), abi.digitBits, true, abi.target)
    else if n == 1 then
      Verify(x.digits[0], abi.digitBits, false, abi.target)
    else if n <= 4 && x.negative && abi.target - 1 > (n - 1) * s && abi.longBits > n * s then
      Verify(-ToSigned(ShiftOr(x.digits, s, abi.longBits), abi.longBits), abi.longBits, true, abi.target)
    else if n <= 4 && x.negative && abi.target - 1 > n * s then
      Ok(ToSigned(-(ShiftOr(x.digits, s, abi.target) as int), abi.target))
    else if n <= 4 && !x.negative && abi.target > (n - 1) * s && abi.longBits > n * s then
      Verify(ShiftOr(x.digits, s, abi.longBits), abi.longBits, false, abi.target)
    else if n <= 4 && !x.negative && abi.target - 1 > n * s then
      Ok(ToSigned(ShiftOr(x.digits, s, abi.target), abi.target))
    else Fallback(x, abi)
  }

  /** `__Pyx_PyIndex_AsSsize_t`: no narrowing check, only the guard on the number of digits. */
  function AsSsize(x: PyLong, sizeBits: nat, shift: nat): Result
    requires 0 < shift < sizeBits
  {
    var n := |x.digits|;
    if n <= 1 then
      var ival := if n == 0 then 0 else ToSigned(x.digits[0], sizeBits);
      Ok(if x.negative then -ival else ival)
    else if n <= 4 && sizeBits > n * shift then
      var ival := ToSigned(ShiftOr(x.digits, shift, sizeBits), sizeBits);
      Ok(if x.negative then -ival else ival)
    else Exact(x.Number(shift), sizeBits)
  }

  lemma FallbackIsExact(x: PyLong, abi: Abi)
    requires abi.Valid()
    ensures Fallback(x, abi) == Exact(x.Number(abi.shift), abi.target)
  {
    var number := x.Number(abi.shift);
    var bits := if abi.target <= abi.longBits then abi.longBits else abi.longLongBits;
    if Fits(number, bits) {
      VerifySigned(number, bits, abi.target);
    } else if abi.target <= bits {
      Pow2Grows(abi.target - 1, bits - 1);
    }
  }

  /** A guard `bits > n * shift` leaves room for the sign. */
  lemma GuardLeavesSign(ds: seq<nat>, shift: nat, bits: nat)
    requires ds != [] && AreDigits(ds, shift) && bits > |ds| * shift
    ensures ShiftOr(ds, shift, bits) == Value(ds, shift) < Pow2(bits - 1)
    ensures Fits(Value(ds, shift), bits) && Fits(-(Value(ds, shift) as int), bits)
  {
    ReassemblyIsExact(ds, shift, bits);
    Pow2Grows(|ds| * shift, bits - 1);
  }

  lemma OneDigit(ds: seq<nat>, shift: nat)
    requires |ds| == 1
    ensures Value(ds, shift) == ds[0]
  {
    assert ds[1..] == [];
  }

  /** On every platform, the conversion returns the number if the target type has it and reports an overflow if not. */
  lemma AsIntIsExact(x: PyLong, abi: Abi)
    requires abi.Valid() && AreDigits(x.digits, abi.shift)
    ensures AsInt(x, abi) == Exact(x.Number(abi.shift), abi.target)
  {
    FallbackIsExact(x, abi);
    if |x.digits| == 1 {
      OneDigitIsExact(x, abi);
    } else if |x.digits| >= 2 {
      ViaLongIsExact(x, abi);
      InTargetIsExact(x, abi);
    }
  }

  lemma OneDigitIsExact(x: PyLong, abi: Abi)
    requires abi.Valid() && AreDigits(x.digits, abi.shift) && |x.digits| == 1
    ensures AsInt(x, abi) == Exact(x.Number(abi.shift), abi.target)
  {
    OneDigit(x.digits, abi.shift);
    Pow2Grows(abi.shift, abi.digitBits - 1);
    if x.negative {
      SignedIsExact(-(x.digits[0] as int), abi.digitBits);
      VerifySigned(-(x.digits[0] as int), abi.digitBits, abi.target);
    } else {
      VerifyBelowHalf(x.digits[0], abi.digitBits, abi.target);
    }
  }

  /** The reassembly in `long`, when that has room for all digits and the sign. */
  lemma ViaLongIsExact(x: PyLong, abi: Abi)
    requires abi.Valid() && AreDigits(x.digits, abi.shift) && x.digits != []
    ensures abi.longBits > |x.digits| * abi.shift ==>
      Exact(x.Number(abi.shift), abi.target) ==
        var word := ShiftOr(x.digits, abi.shift, abi.longBits);
        if x.negative then Verify(-ToSigned(word, abi.longBits), abi.longBits, true, abi.target)
        else Verify(word, abi.longBits, false, abi.target)
  {
    if abi.longBits > |x.digits| * abi.shift {
      var v := Value(x.digits, abi.shift);
      GuardLeavesSign(x.digits, abi.shift, abi.longBits);
      SignedIsExact(v, abi.longBits);
      VerifySigned(-(v as int), abi.longBits, abi.target);
      VerifyBelowHalf(v, abi.longBits, abi.target);
    }
  }

  /** The reassembly in the target type itself, when that has room. */
  lemma InTargetIsExact(x: PyLong, abi: Abi)
    requires abi.Valid() && AreDigits(x.digits, abi.shift) && x.digits != []
    ensures abi.target > |x.digits| * abi.shift ==>
      Exact(x.Number(abi.shift), abi.target) ==
        var word := ShiftOr(x.digits, abi.shift, abi.target);
        Ok(ToSigned(if x.negative then -(word as int) else word, abi.target))
  {
    if abi.target > |x.digits| * abi.shift {
      var v := Value(x.digits, abi.shift);
      GuardLeavesSign(x.digits, abi.shift, abi.target);
      SignedIsExact(v, abi.target);
      SignedIsExact(-(v as int), abi.target);
    }
  }

  lemma AsSsizeIsExact(x: PyLong, sizeBits: nat, shift: nat)
    requires 0 < shift < sizeBits && AreDigits(x.digits, shift)
    ensures AsSsize(x, sizeBits, shift) == Exact(x.Number(shift), sizeBits)
  {
    var n := |x.digits|;
    if n == 1 {
      OneDigit(x.digits, shift);
      Pow2Grows(shift, sizeBits - 1);
      SignedIsExact(x.digits[0], sizeBits);
    } else if n > 1 && sizeBits > n * shift {
      GuardLeavesSign(x.digits, shift, sizeBits);
      SignedIsExact(Value(x.digits, shift), sizeBits);
    }
  }

  // ---------- the digits of a number ----------

  /** A number's digits, least significant first, without leading zeros. */
  function DigitsOf(v: nat, shift: nat): (ds: seq<nat>)
    requires shift > 0
    ensures AreDigits(ds, shift)
    ensures ds != [] ==> ds[|ds| - 1] != 0
  {
    if v == 0 then []
    else
      assert Pow2(shift) >= 2;
      Shrinks(v, Pow2(shift));
      [v % Pow2(shift)] + DigitsOf(v / Pow2(shift), shift)
  }

  lemma Shrinks(v: nat, b: nat)
    requires v > 0 && b >= 2
    ensures v / b < v && (v / b == 0 ==> v % b != 0)
  {
  }

  lemma QuotientTimes(v: nat, b: nat)
    requires b > 0
    ensures v % b + v / b * b == v
  {
  }

  lemma {:induction false} DigitsRoundTrip(v: nat, shift: nat)
    requires shift > 0
    ensures Value(DigitsOf(v, shift), shift) == v
  {
    if v > 0 {
      assert Pow2(shift) >= 2;
      Shrinks(v, Pow2(shift));
      DigitsRoundTrip(v / Pow2(shift), shift);
      assert DigitsOf(v, shift)[1..] == DigitsOf(v / Pow2(shift), shift);
      QuotientTimes(v, Pow2(shift));
    }
  }

  function ToPyLong(v: int, shift: nat): PyLong
    requires shift > 0
  {
    PyLong(v < 0, DigitsOf(if v < 0 then -v else v, shift))
  }

  /** There and back: an integer survives the trip through Python digits exactly when the target type has it. */
  lemma RoundTrip(v: int, abi: Abi)
    requires abi.Valid()
    ensures AsInt(ToPyLong(v, abi.shift), abi) == Exact(v, abi.target)
    ensures abi.shift < abi.target ==> AsSsize(ToPyLong(v, abi.shift), abi.target, abi.shift) == Exact(v, abi.target)
  {
    DigitsRoundTrip(if v < 0 then -v else v, abi.shift);
    AsIntIsExact(ToPyLong(v, abi.shift), abi);
    if abi.shift < abi.target { AsSsizeIsExact(ToPyLong(v, abi.shift), abi.target, abi.shift); }
  }
}
