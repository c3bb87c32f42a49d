/** Values, Solidity's checked operators over 256-bit words, and the evaluation of Solidity expressions,
    where numeric literals are exact rationals. */
module Evaluation {
  import opened Wrappers
  import opened Solidity

  datatype SymbolType = TBool | TUint256 | TInt256 | TAddress | TBytes32

  datatype Val =
    | VBool(b: bool)
    | VUint(n: nat)
    | VInt(i: int)
    | VAddress(a: nat)
    | VBytes(w: nat)

  function TypeOfVal(v: Val): SymbolType {
    match v
    case VBool(_) => TBool
    case VUint(_) => TUint256
    case VInt(_) => TInt256
    case VAddress(_) => TAddress
    case VBytes(_) => TBytes32
  }

  /** The outcome of an evaluation. IllTyped: the text does not compile. */
  datatype Result<+T> = Ok(value: T) | Reverts | IllTyped

  const WORD: nat := 0x1_0000_0000_0000_0000_0000_0000_0000_0000_0000_0000_0000_0000_0000_0000_0000_0000
  const HALF: int := 0x8000_0000_0000_0000_0000_0000_0000_0000_0000_0000_0000_0000_0000_0000_0000_0000
  const TWO160: nat := 0x1_0000_0000_0000_0000_0000_0000_0000_0000_0000_0000

  function ToSigned(w: nat): int {
    if w < HALF then w else w - WORD
  }

  /** The low 256 bits. */
  function FromSigned(i: int): nat {
    i % WORD
  }

  /** Bitwise operators, bit by bit. */
  function Bits(op: Sign, a: nat, b: nat): nat {
    if a == 0 && b == 0 then 0
    else
      (if BitOf(op, a % 2 == 1, b % 2 == 1) then 1 else 0) + 2 * Bits(op, a / 2, b / 2)
  }

  function Size(i: int): nat {
    if i < 0 then -i - 1 else i
  }

  predicate BitOf(op: Sign, x: bool, y: bool) {
    if op == Amp then x && y else if op == Bar then x || y else x != y
  }

  /** The same operators on integers of any size, negative ones having ones without end. */
  function LongBits(op: Sign, a: int, b: int): int
    decreases Size(a) + Size(b)
  {
    if (a == 0 || a == -1) && (b == 0 || b == -1) then
      if BitOf(op, a == -1, b == -1) then -1 else 0
    else
      (if BitOf(op, a % 2 == 1, b % 2 == 1) then 1 else 0) + 2 * LongBits(op, a / 2, b / 2)
  }

  lemma {:induction false} BitsZero(a: nat)
    ensures Bits(Amp, a, 0) == 0
    decreases a
  {
    if a != 0 {
      BitsZero(a / 2);
    }
  }

  lemma MaskOne(a: nat)
    ensures Bits(Amp, a, 1) == a % 2
  {
    BitsZero(a / 2);
  }

  /** Division and remainder truncate toward zero. */
  function Quotient(a: int, b: int): int
    requires b != 0
  {
    var q := (if a < 0 then -a else a) / (if b < 0 then -b else b);
    if (a < 0) == (b < 0) then q else -q
  }

  function CheckedUint(n: int): Result<Val> {
    if 0 <= n < WORD then Ok(VUint(n)) else Reverts
  }

  function CheckedInt(i: int): Result<Val> {
    if -HALF <= i < HALF then Ok(VInt(i)) else Reverts
  }

  predicate IsArithmetic(op: Sign) { op == Plus || op == Minus || op == Star || op == Slash || op == Percent }

  predicate IsBitwise(op: Sign) { op == Amp || op == Bar || op == Caret }

  predicate IsShift(op: Sign) { op == Shl || op == Shr }

  predicate IsEquality(op: Sign) { op == EqEq || op == NotEq }

  predicate IsOrder(op: Sign) { op == Less || op == Greater || op == LessEq || op == GreaterEq }

  function Arithmetic(op: Sign, a: int, b: int): Option<int> {
    if op == Plus then Some(a + b)
    else if op == Minus then Some(a - b)
    else if op == Star then Some(a * b)
    else if b == 0 then None
    else if op == Slash then Some(Quotient(a, b))
    else Some(a - b * Quotient(a, b))
  }

  predicate Compare(op: Sign, a: int, b: int) {
    if op == Less then a < b
    else if op == Greater then a > b
    else if op == LessEq then a <= b
    else if op == GreaterEq then a >= b
    else if op == EqEq then a == b
    else a != b
  }

  /** Division by 2^k, rounding toward minus infinity. */
  function ShiftDown(w: int, k: nat): (r: int)
    ensures 0 <= w ==> 0 <= r
    decreases k
  {
    if k == 0 then w else ShiftDown(w / 2, k - 1)
  }

  /** Multiplication by 2^k. */
  function ShiftUp(w: int, k: nat): int
    decreases k
  {
    if k == 0 then w else ShiftUp(2 * w, k - 1)
  }

  function Low160(w: nat): nat {
    w % TWO160
  }

  function Shift(op: Sign, w: nat, k: nat): nat {
    if op == Shl then FromSigned(ShiftUp(w, k)) else ShiftDown(w, k)
  }

  /** A binary operator, other than the short-circuiting two, on two values of declared types. */
  function Apply(op: Sign, l: Val, r: Val): Result<Val> {
    if IsShift(op) then
      match (l, r)
      case (VUint(a), VUint(k)) => Ok(VUint(Shift(op, a, k)))
      case (VBytes(a), VUint(k)) => Ok(VBytes(Shift(op, a, k)))
      case (VInt(a), VUint(k)) =>
        Ok(VInt(if op == Shl then ToSigned(Shift(op, FromSigned(a), k)) else ShiftDown(a, k)))
      case _ => IllTyped
    else
      match (l, r)
      case (VUint(a), VUint(b)) =>
        if IsArithmetic(op) then
          match Arithmetic(op, a, b) case None => Reverts case Some(n) => CheckedUint(n)
        else if IsBitwise(op) then Ok(VUint(Bits(op, a, b)))
        else if IsEquality(op) || IsOrder(op) then Ok(VBool(Compare(op, a, b)))
        else IllTyped
      case (VInt(a), VInt(b)) =>
        if IsArithmetic(op) then
          match Arithmetic(op, a, b) case None => Reverts case Some(i) => CheckedInt(i)
        else if IsBitwise(op) then Ok(VInt(ToSigned(Bits(op, FromSigned(a), FromSigned(b)))))
        else if IsEquality(op) || IsOrder(op) then Ok(VBool(Compare(op, a, b)))
        else IllTyped
      case (VBytes(a), VBytes(b)) =>
        if IsBitwise(op) then Ok(VBytes(Bits(op, a, b)))
        else if IsEquality(op) || IsOrder(op) then Ok(VBool(Compare(op, a, b)))
        else IllTyped
      case (VAddress(a), VAddress(b)) =>
        if IsEquality(op) || IsOrder(op) then Ok(VBool(Compare(op, a, b))) else IllTyped
      case (VBool(a), VBool(b)) =>
        if IsEquality(op) then Ok(VBool((a == b) == (op == EqEq))) else IllTyped
      case _ => IllTyped
  }

  /** All 256 bits flipped. */
  function Complement(w: nat): nat {
    if w < WORD then WORD - 1 - w else 0
  }

  function ApplyPrefix(op: Sign, v: Val): Result<Val> {
    match v
    case VBool(b) => if op == Bang then Ok(VBool(!b)) else IllTyped
    case VInt(i) => if op == Minus then CheckedInt(-i) else if op == Tilde then Ok(VInt(-i - 1)) else IllTyped
    case VUint(n) => if op == Tilde then Ok(VUint(Complement(n))) else IllTyped
    case VBytes(w) => if op == Tilde then Ok(VBytes(Complement(w))) else IllTyped
    case VAddress(_) => IllTyped
  }

  // ---------------------------------------------------------------- Solidity expressions

  /** What a Solidity expression can denote besides a value of a declared type. */
  datatype SolVal =
    | Typed(v: Val)
    | Rational(num: int, den: nat)   // a numeric literal or a constant expression over such
    | HexWord(w: nat)                // a 64-digit hexadecimal literal
    | HexAddress(a: nat)             // a 40-digit hexadecimal literal
    | Uint160(n: nat)
    | Contract(name: string)
    | ContractAddress(name: string)

  /** What can be read of the contracts: storage words by slot; getter results, None when the getter reverts;
      and, for the predicate's own evaluator, the text it is given for the address or word of a symbol.
      `checksummed` are the address spellings the Solidity compiler accepts; its hash is not modelled. */
  datatype State = State(
    load: (string, nat) -> nat, get: (string, string) -> Option<Val>,
    text: (string, nat) -> string, checksummed: string -> bool)

  function HexDigit(c: char): nat {
    if '0' <= c <= '9' then (c - '0') as nat
    else if 'a' <= c <= 'f' then (c - 'a') as nat + 10
    else if 'A' <= c <= 'F' then (c - 'A') as nat + 10
    else 0
  }

  function HexValue(digits: string): nat {
    if digits == "" then 0 else 16 * HexValue(digits[..|digits| - 1]) + HexDigit(digits[|digits| - 1])
  }

  function Normalized(num: int, den: nat): SolVal
    requires den > 0
  {
    if num % den == 0 then Rational(num / den, 1) else Rational(num, den)
  }

  /** No constant is shifted by more. */
  const SHIFT_LIMIT: nat := 0x1_0000_0000

  /** Constant expressions are evaluated exactly, without rounding or overflow. Only comparisons go through
      the smallest integer types that hold the operands, and a signed one does not compare with an unsigned. */
  function Fold(op: Sign, l: SolVal, r: SolVal): Result<SolVal>
    requires l.Rational? && r.Rational? && l.den > 0 && r.den > 0
  {
    if op == Plus then Ok(Normalized(l.num * r.den + r.num * l.den, l.den * r.den))
    else if op == Minus then Ok(Normalized(l.num * r.den - r.num * l.den, l.den * r.den))
    else if op == Star then Ok(Normalized(l.num * r.num, l.den * r.den))
    else if op == Slash && r.num > 0 then Ok(Normalized(l.num * r.den, l.den * r.num))
    else if op == Slash && r.num < 0 then Ok(Normalized(-l.num * r.den, l.den * -r.num))
    else if l.den != 1 || r.den != 1 then IllTyped
    else if op == Percent && r.num != 0 then Ok(Rational(l.num - r.num * Quotient(l.num, r.num), 1))
    else if IsBitwise(op) then Ok(Rational(LongBits(op, l.num, r.num), 1))
    else if op == Shl && 0 <= r.num < SHIFT_LIMIT then Ok(Rational(ShiftUp(l.num, r.num), 1))
    else if op == Shr && 0 <= r.num < SHIFT_LIMIT then Ok(Rational(ShiftDown(l.num, r.num), 1))
    else if (IsEquality(op) || IsOrder(op)) && (l.num < 0) == (r.num < 0) then Ok(Typed(VBool(Compare(op, l.num, r.num))))
    else IllTyped
  }

  /** A literal takes the type of the operand beside it, if its value fits. */
  function Adopt(s: SolVal, t: SymbolType): Option<Val> {
    match s
    case Typed(v) => Some(v)
    case Rational(num, den) =>
      if den != 1 then None
      else if t == TUint256 && 0 <= num < WORD then Some(VUint(num))
      else if t == TInt256 && -HALF <= num < HALF then Some(VInt(num))
      else None
    case HexWord(w) => if t == TBytes32 then Some(VBytes(w)) else None
    case _ => None
  }

  function ApplySol(op: Sign, l: SolVal, r: SolVal): Result<SolVal> {
    if l.Rational? && r.Rational? && l.den > 0 && r.den > 0 then Fold(op, l, r)
    else if l.HexWord? && r.HexWord? && IsEquality(op) then Ok(Typed(VBool(Compare(op, l.w, r.w))))
    else if !l.Typed? && !r.Typed? then IllTyped
    else
      var lt := if l.Typed? then TypeOfVal(l.v)
                else if IsShift(op) then (if l.Rational? && l.num < 0 then TInt256 else TUint256)
                else TypeOfVal(r.v);
      var rt := if r.Typed? then TypeOfVal(r.v) else if IsShift(op) then TUint256 else TypeOfVal(l.v);
      match (Adopt(l, lt), Adopt(r, rt))
      case (Some(a), Some(b)) => Wrap(Apply(op, a, b))
      case _ => IllTyped
  }

  function Wrap(r: Result<Val>): Result<SolVal> {
    match r
    case Ok(v) => Ok(Typed(v))
    case Reverts => Reverts
    case IllTyped => IllTyped
  }

  function PrefixSol(op: Sign, s: SolVal): Result<SolVal> {
    match s
    case Typed(v) => Wrap(ApplyPrefix(op, v))
    case Rational(num, den) =>
      if op == Minus then Ok(Rational(-num, den))
      else if op == Tilde && den == 1 then Ok(Rational(-num - 1, 1))
      else IllTyped
    case _ => IllTyped
  }

  /** Explicit conversions, of the kinds that are emitted. */
  function Convert(name: string, s: SolVal): Result<SolVal> {
    if name == "uint256" then
      match s
      case Typed(VBytes(w)) => Ok(Typed(VUint(w)))
      case Rational(num, 1) => if 0 <= num < WORD then Ok(Typed(VUint(num))) else IllTyped
      case _ => IllTyped
    else if name == "int256" then
      match s
      case Typed(VUint(n)) => Ok(Typed(VInt(ToSigned(n))))
      case _ => IllTyped
    else if name == "uint160" then
      match s
      case Typed(VUint(n)) => Ok(Uint160(Low160(n)))
      case _ => IllTyped
    else if name == "address" then
      match s
      case Uint160(n) => Ok(Typed(VAddress(n)))
      case HexAddress(a) => Ok(Typed(VAddress(a)))
      case Contract(c) => Ok(ContractAddress(c))
      case _ => IllTyped
    else if name == "bytes32" then
      match s
      case Typed(VBytes(w)) => Ok(Typed(VBytes(w)))
      case Typed(VUint(n)) => Ok(Typed(VBytes(n)))
      case _ => IllTyped
    else IllTyped
  }

  predicate IsPool(name: string) {
    name == "sourcePool" || name == "destinationPool"
  }

  function EvalSol(locals: map<string, Val>, state: State, e: Sol): Result<SolVal> {
    match e
    case NumLit(n) => Ok(Rational(n, 1))
    case HexLit(digits) =>
      if |digits| == 64 then Ok(HexWord(HexValue(digits)))
      else if |digits| == 40 && state.checksummed(digits) then Ok(HexAddress(HexValue(digits)))
      else IllTyped
    case BoolLit(b) => Ok(Typed(VBool(b)))
    case Var(name) =>
      if name in locals then Ok(Typed(locals[name])) else if IsPool(name) then Ok(Contract(name)) else IllTyped
    case Call1(Var(name), arg) =>
      (match EvalSol(locals, state, arg)
       case Ok(s) => Convert(name, s)
       case r => r)
    case Call0(Member(contract, name)) =>
      (match EvalSol(locals, state, contract)
       case Ok(Contract(c)) => (match state.get(c, name) case None => Reverts case Some(v) => Ok(Typed(v)))
       case Ok(_) => IllTyped
       case r => r)
    case Call2(callee, target, slot) =>
      if callee != Member(Var("crossllmVm"), "load") then IllTyped
      else
        (match (EvalSol(locals, state, target), EvalSol(locals, state, slot))
         case (Ok(ContractAddress(c)), Ok(Typed(VBytes(k)))) => Ok(Typed(VBytes(state.load(c, k))))
         case _ => IllTyped)
    case Prefix(op, operand) =>
      (match EvalSol(locals, state, operand)
       case Ok(s) => PrefixSol(op, s)
       case r => r)
    case Infix(op, left, right) =>
      var r := EvalSol(locals, state, right);
      if r.IllTyped? then IllTyped   // an operand that is never reached still has to compile
      else
        (match EvalSol(locals, state, left)
         case Ok(l) =>
           if op == AndAnd || op == OrOr then
             if r.Ok? && !(r.value.Typed? && r.value.v.VBool?) then IllTyped
             else if l == Typed(VBool(op == OrOr)) then Ok(l)
             else if l == Typed(VBool(op == AndAnd)) then r
             else IllTyped
           else if r.Ok? then ApplySol(op, l, r.value)
           else r
         case failed => failed)
    case _ => IllTyped
  }
}
