/** Binary floating-point encodings and the numbers they stand for, section 3.4 of IEEE 754-2008. */
module Encodings {
  import opened Words

  datatype Format = Single | Double

  function FracBits(f: Format): nat { if f == Single then 23 else 52 }

  function ExpBits(f: Format): nat { if f == Single then 8 else 11 }

  function Bits(f: Format): nat { 1 + ExpBits(f) + FracBits(f) }

  /** Weights of the exponent and sign fields, and the number of exponent codes. */
  function ExpUnit(f: Format): nat { Pow2(FracBits(f)) }

  function ExpCodes(f: Format): nat { Pow2(ExpBits(f)) }

  function SignUnit(f: Format): nat { Pow2(ExpBits(f) + FracBits(f)) }

  predicate Encoding(f: Format, x: nat) { x < Pow2(Bits(f)) }

  function Expo(f: Format, x: nat): nat { x / ExpUnit(f) % ExpCodes(f) }

  function Frac(f: Format, x: nat): nat { x % ExpUnit(f) }

  predicate Minus(f: Format, x: nat) { x / SignUnit(f) % 2 == 1 }

  /** Magnitude in units of the least subnormal. */
  function Scaled(f: Format, expo: nat, frac: nat): nat {
    if expo == 0 then frac else (ExpUnit(f) + frac) * Pow2(expo - 1)
  }

  /** How many units of the least subnormal make one. */
  function One(f: Format): nat { Pow2(if f == Single then 149 else 1074) }

  datatype Number = NaN | Infinite(minus: bool) | Finite(v: real)

  function Negated(minus: bool, x: int): int { if minus then -x else x }

  /** The number an encoding stands for. */
  function NumberOf(f: Format, x: nat): Number {
    if Expo(f, x) == ExpCodes(f) - 1 then
      if Frac(f, x) == 0 then Infinite(Minus(f, x)) else NaN
    else Finite(Negated(Minus(f, x), Scaled(f, Expo(f, x), Frac(f, x))) as real / One(f) as real)
  }

  predicate Subnormal(f: Format, x: nat) { Expo(f, x) == 0 && Frac(f, x) != 0 }

  predicate Signalling(f: Format, x: nat) {
    NumberOf(f, x) == NaN && Frac(f, x) < ExpUnit(f) / 2
  }

  datatype Ordering = Less | Same | Greater | Unordered

  /** Comparison of numbers, section 5.11 of IEEE 754-2008. */
  function Order(a: Number, b: Number): Ordering {
    match (a, b)
    case (NaN, _) => Unordered
    case (_, NaN) => Unordered
    case (Infinite(m), Infinite(n)) => if m == n then Same else if m then Less else Greater
    case (Infinite(m), Finite(_)) => if m then Less else Greater
    case (Finite(_), Infinite(n)) => if n then Greater else Less
    case (Finite(x), Finite(y)) => if x < y then Less else if x == y then Same else Greater
  }

  /** Bit `i` of a number. */
  predicate On(x: nat, i: nat) { x / Pow2(i) % 2 == 1 }

  /** An operand as FPSCR.FZ lets it through. */
  function Flushed(f: Format, x: nat, fz: bool): nat {
    if fz && Subnormal(f, x) then (if Minus(f, x) then SignUnit(f) else 0) else x
  }

  // ------------------------------------------------------------ Arithmetic

  datatype FpOp = FpAdd | FpSub | FpMul | FpDiv

  /** The exception flags of one operation. */
  datatype Raised = Raised(ioc: bool, dzc: bool, ofc: bool, ufc: bool, ixc: bool)

  /** An arithmetic unit: operation, format, rounding mode and operands to a result and the flags raised. */
  type Unit = (FpOp, Format, nat, nat, nat) -> (nat, Raised)

  function Compute(unit: Unit, op: FpOp, f: Format, mode: nat, a: nat, b: nat): (r: (nat, Raised))
    ensures Encoding(f, r.0)
  {
    var (x, e) := unit(op, f, mode, a, b);
    (x % Pow2(Bits(f)), e)
  }

  /** The flags in their places of the status word. */
  function FlagBits(e: Raised): (w: Word)
    ensures w < 32
  {
    Num(e.ioc) + 2 * Num(e.dzc) + 4 * Num(e.ofc) + 8 * Num(e.ufc) + 16 * Num(e.ixc)
  }
}
