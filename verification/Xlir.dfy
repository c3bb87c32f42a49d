/** The operators of the predicate language over unbounded integers, as its own evaluator computes them, and
    how they compare with Solidity's operators over 256-bit words. */
module Xlir {
  import opened Wrappers
  import opened Numerals
  import opened Solidity
  import opened Evaluation
  import opened Lowering

  // ---------------------------------------------------------------- the evaluator's integer operators

  /** The public view of a bit-vector result. */
  function Normalize(value: int, signed: bool): int {
    var bits := value % WORD;
    if signed && bits >= HALF then bits - WORD else bits
  }

  function Magnitude(i: int): nat {
    if i < 0 then -i else i
  }

  function NumberOf(v: Val): Option<int> {
    match v
    case VUint(n) => Some(n)
    case VInt(i) => Some(i)
    case _ => None
  }

  /** An integer of the type of another value. */
  function Like(v: Val, i: int): Result<Val> {
    if v.VInt? then Ok(VInt(i)) else if i >= 0 then Ok(VUint(i)) else IllTyped
  }

  /** _checked_integer_result */
  function Checked(v: Val, i: int): Result<Val> {
    if v.VInt? then (if -HALF <= i < HALF then Ok(VInt(i)) else Reverts)
    else if 0 <= i < WORD then Ok(VUint(i))
    else Reverts
  }

  function Divide(signed: bool, a: int, b: int): int
    requires b != 0
  {
    if signed then (if (a < 0) != (b < 0) then -1 else 1) * (Magnitude(a) / Magnitude(b)) else a / b
  }

  function Remainder(signed: bool, a: int, b: int): int
    requires b != 0
  {
    if signed then (if a < 0 then -1 else 1) * (Magnitude(a) % Magnitude(b)) else a % b
  }

  function ShiftBy(op: string, v: Val, a: int, k: int): Result<Val>
    requires 0 <= k
  {
    if k >= 256 then Like(v, 0)
    else if op == "shl" then Like(v, Normalize(ShiftUp(a, k), v.VInt?))
    else Like(v, ShiftDown(Normalize(a, false), k))
  }

  /** Operators on booleans and integers; and, or and implies are not among these. */
  function PlainBinary(op: string, l: Val, r: Val): Result<Val> {
    if op == "eq" then Ok(VBool(l == r))
    else if op == "neq" then Ok(VBool(l != r))
    else
      match (NumberOf(l), NumberOf(r))
      case (Some(a), Some(b)) =>
        if op == "ge" then Ok(VBool(a >= b))
        else if op == "le" then Ok(VBool(a <= b))
        else if op == "gt" then Ok(VBool(a > b))
        else if op == "lt" then Ok(VBool(a < b))
        else if op == "add" then Checked(l, a + b)
        else if op == "sub" then Checked(l, a - b)
        else if op == "mul" then Checked(l, a * b)
        else if op == "div" then
          if b == 0 || (l.VInt? && a == -HALF && b == -1) then Reverts else Like(l, Divide(l.VInt?, a, b))
        else if op == "mod" then
          if b == 0 then Reverts else Like(l, Remainder(l.VInt?, a, b))
        else if op == "band" || op == "bor" || op == "bxor" then Like(l, Normalize(LongBits(BinaryOp(op).value, a, b), l.VInt?))
        else if (op == "shl" || op == "shr") && b >= 0 then ShiftBy(op, l, a, b)
        else IllTyped
      case _ => IllTyped
  }

  function PlainUnary(op: string, v: Val): Result<Val> {
    match v
    case VBool(b) => if op == "not" then Ok(VBool(!b)) else IllTyped
    case VInt(i) =>
      if op == "neg" then (if i == -HALF then Reverts else Ok(VInt(-i)))
      else if op == "bitnot" then Ok(VInt(Normalize(-1 - i, true)))
      else IllTyped
    case VUint(n) => if op == "bitnot" then Like(v, Normalize(-1 - n, false)) else IllTyped
    case _ => IllTyped
  }

  // ---------------------------------------------------------------- the evaluator's values

  /** Booleans and integers are values; an address or a bytes32 is the text it was written with. */
  datatype XVal = Plain(v: Val) | Hex(kind: SymbolType, text: string)

  function Digits(text: string): string {
    if |text| >= 2 then text[2..] else ""
  }

  /** What a value stands for. */
  function ValOf(x: XVal): Val {
    match x
    case Plain(v) => v
    case Hex(kind, text) => if kind == TAddress then VAddress(HexValue(Digits(text))) else VBytes(HexValue(Digits(text)))
  }

  /** Within the type, as _validate_value asks. */
  predicate Proper(x: XVal) {
    match x
    case Plain(v) => (v.VBool? || v.VUint? || v.VInt?) && InRange(v)
    case Hex(kind, text) => (kind == TAddress && IsHexText(text, 40)) || (kind == TBytes32 && IsHexText(text, 64))
  }

  function Lift(r: Result<Val>): Result<XVal> {
    match r
    case Ok(v) => Ok(Plain(v))
    case Reverts => Reverts
    case IllTyped => IllTyped
  }

  /** _evaluate on a binary expression whose operands have values; texts are compared as texts. */
  function XlirBinary(op: string, l: XVal, r: XVal): Result<XVal> {
    match (l, r)
    case (Plain(a), Plain(b)) => Lift(PlainBinary(op, a, b))
    case (Hex(_, s), Hex(_, t)) =>
      if op == "eq" then Ok(Plain(VBool(s == t)))
      else if op == "neq" then Ok(Plain(VBool(s != t)))
      else IllTyped
    case _ => IllTyped
  }

  function XlirUnary(op: string, x: XVal): Result<XVal> {
    match x
    case Plain(v) => Lift(PlainUnary(op, v))
    case Hex(_, _) => IllTyped
  }

  // ---------------------------------------------------------------- the compiler's types

  function InfixType(op: Sign, l: SymbolType, r: SymbolType): Option<SymbolType> {
    if IsShift(op) then (if (l == TUint256 || l == TInt256) && r == TUint256 then Some(l) else None)
    else if l != r then None
    else if IsEquality(op) then Some(TBool)
    else if l != TUint256 && l != TInt256 then None
    else if IsOrder(op) then Some(TBool)
    else if IsArithmetic(op) || IsBitwise(op) then Some(l)
    else None
  }

  function PrefixType(op: string, t: SymbolType): Option<SymbolType> {
    if (op == "not" && t == TBool) || (op == "neg" && t == TInt256) || (op == "bitnot" && (t == TInt256 || t == TUint256))
    then Some(t) else None
  }

  predicate InRange(v: Val) {
    match v
    case VUint(n) => n < WORD
    case VInt(i) => -HALF <= i < HALF
    case VBytes(w) => w < WORD
    case _ => true
  }

  // ---------------------------------------------------------------- words against integers

  lemma WordIsPower()
    ensures TwoPower(256) == WORD
  {
    assert TwoPower(8) == 0x100;
    hide TwoPower;
    Squared(8, 0x100);
    Squared(16, 0x1_0000);
    Squared(32, 0x1_0000_0000);
    Squared(64, 0x1_0000_0000_0000_0000);
    Squared(128, 0x1_0000_0000_0000_0000_0000_0000_0000_0000);
  }

  lemma Squared(k: nat, v: nat)
    requires TwoPower(k) == v
    ensures TwoPower(k + k) == v * v
  {
    TwoPowerSplits(k, k);
  }

  lemma {:induction false} TwoPowerSplits(a: nat, b: nat)
    ensures TwoPower(a + b) == TwoPower(a) * TwoPower(b)
    ensures TwoPower(a) > 0
    decreases a
  {
    if a > 0 {
      TwoPowerSplits(a - 1, b);
      assert TwoPower(a + b) == 2 * TwoPower(a - 1 + b);
      assert 2 * (TwoPower(a - 1) * TwoPower(b)) == (2 * TwoPower(a - 1)) * TwoPower(b);
    }
  }

  lemma HalfAndBit(a: int, m: nat)
    requires m > 0
    ensures a % (2 * m) == a % 2 + 2 * ((a / 2) % m)
  {
    var h := a / 2;
    var q, s := h / m, h % m;
    assert a == 2 * h + a % 2;
    assert h == m * q + s;
    assert a == (2 * m) * q + (2 * s + a % 2) by {
      assert 2 * (m * q) == (2 * m) * q;
    }
    RemainderIs(a, 2 * m, q, 2 * s + a % 2);
  }

  lemma RemainderIs(a: int, m: nat, q: int, s: int)
    requires m > 0 && a == m * q + s && 0 <= s < m
    ensures a % m == s && a / m == q
  {
    var p := a / m;
    assert a == m * p + a % m;
    Distribute(m, q, p);
    if q > p {
      AtLeast(m, q - p);
    } else if q < p {
      Distribute(m, p, q);
      AtLeast(m, p - q);
    }
  }

  lemma Distribute(m: int, x: int, y: int)
    ensures m * (x - y) == m * x - m * y
  {
  }

  lemma AtLeast(m: nat, d: int)
    requires d >= 1
    ensures m * d >= m
  {
    if d > 1 {
      AtLeast(m, d - 1);
      Distribute(m, d, 1);
    }
  }

  /** The low k bits of the unbounded operator are the bounded operator on the low k bits. */
  lemma {:induction false} LowBits(s: Sign, a: int, b: int, k: nat)
    ensures TwoPower(k) > 0 && LongBits(s, a, b) % TwoPower(k) == Bits(s, a % TwoPower(k), b % TwoPower(k))
    decreases k
  {
    hide LongBits, Bits;
    TwoPowerSplits(k, 0);
    if k == 0 {
      NoBits(s);
    } else {
      TwoPowerSplits(k - 1, 0);
      LowBits(s, a / 2, b / 2, k - 1);
      OneMoreBit(s, a, b, TwoPower(k - 1));
    }
  }

  lemma OneMoreBit(s: Sign, a: int, b: int, m: nat)
    requires m > 0
    requires LongBits(s, a / 2, b / 2) % m == Bits(s, (a / 2) % m, (b / 2) % m)
    ensures LongBits(s, a, b) % (2 * m) == Bits(s, a % (2 * m), b % (2 * m))
  {
    hide LongBits, Bits;
    HalfAndBit(a, m);
    HalfAndBit(b, m);
    HalfAndBit(LongBits(s, a, b), m);
    LongHalves(s, a, b);
    BitsHalves(s, a % 2 + 2 * ((a / 2) % m), b % 2 + 2 * ((b / 2) % m));
  }

  lemma NoBits(s: Sign)
    ensures TwoPower(0) == 1 && Bits(s, 0, 0) == 0
  {
  }

  lemma LongHalves(s: Sign, a: int, b: int)
    ensures LongBits(s, a, b) / 2 == LongBits(s, a / 2, b / 2)
    ensures LongBits(s, a, b) % 2 == if BitOf(s, a % 2 == 1, b % 2 == 1) then 1 else 0
  {
    if (a == 0 || a == -1) && (b == 0 || b == -1) {
      assert a / 2 == a && b / 2 == b;
    }
  }

  lemma BitsHalves(s: Sign, a: nat, b: nat)
    ensures Bits(s, a, b) == (if BitOf(s, a % 2 == 1, b % 2 == 1) then 1 else 0) + 2 * Bits(s, a / 2, b / 2)
  {
  }

  lemma {:induction false} BitsFit(s: Sign, a: nat, b: nat, k: nat)
    requires a < TwoPower(k) && b < TwoPower(k)
    ensures Bits(s, a, b) < TwoPower(k)
    decreases k
  {
    if k > 0 {
      BitsFit(s, a / 2, b / 2, k - 1);
    }
  }

  /** Bitwise operators: unbounded integers, normalized, against 256-bit words. */
  lemma BitwiseAgrees(s: Sign, a: int, b: int, signed: bool)
    requires s == Amp || s == Bar || s == Caret
    ensures Bits(s, FromSigned(a), FromSigned(b)) < WORD
    ensures Normalize(LongBits(s, a, b), signed)
         == if signed then ToSigned(Bits(s, FromSigned(a), FromSigned(b))) else Bits(s, FromSigned(a), FromSigned(b))
  {
    WordIsPower();
    LowBits(s, a, b, 256);
    BitsFit(s, FromSigned(a), FromSigned(b), 256);
  }

  lemma {:induction false} ShiftUpIsProduct(w: int, k: nat)
    ensures ShiftUp(w, k) == w * TwoPower(k)
    decreases k
  {
    if k > 0 {
      ShiftUpIsProduct(2 * w, k - 1);
      assert (2 * w) * TwoPower(k - 1) == w * (2 * TwoPower(k - 1));
    }
  }

  lemma MultipleOf(m: nat, q: int)
    requires m > 0
    ensures (m * q) % m == 0
  {
    RemainderIs(m * q, m, q, 0);
  }

  lemma SameRemainder(a: int, b: int, m: nat, q: int)
    requires m > 0 && a == b + m * q
    ensures a % m == b % m
  {
    var p := b / m;
    assert b == m * p + b % m;
    assert m * p + m * q == m * (p + q);
    RemainderIs(a, m, p + q, b % m);
  }

  /** Shifting left: a word by any amount, against an integer with the cut at 256. */
  lemma ShiftLeftAgrees(a: int, k: nat, signed: bool)
    ensures Shift(Shl, FromSigned(a), k) < WORD
    ensures (if k >= 256 then 0 else Normalize(ShiftUp(a, k), signed))
         == if signed then ToSigned(Shift(Shl, FromSigned(a), k)) else Shift(Shl, FromSigned(a), k)
  {
    hide ShiftUp;
    if k >= 256 {
      ShiftedOut(FromSigned(a), k);
    } else {
      ShiftOfLowBits(a, k);
    }
  }

  lemma ShiftedOut(w: nat, k: nat)
    requires k >= 256
    ensures ShiftUp(w, k) % WORD == 0
  {
    hide ShiftUp, TwoPower;
    ShiftUpIsProduct(w, k);
    WordIsPower();
    TwoPowerSplits(256, k - 256);
    var rest := TwoPower(k - 256);
    assert w * (WORD * rest) == WORD * (w * rest);
    MultipleOf(WORD, w * rest);
  }

  lemma ShiftOfLowBits(a: int, k: nat)
    ensures ShiftUp(a, k) % WORD == ShiftUp(FromSigned(a), k) % WORD
  {
    hide ShiftUp, TwoPower;
    var w, q, t := FromSigned(a), a / WORD, TwoPower(k);
    ShiftUpIsProduct(w, k);
    ShiftUpIsProduct(a, k);
    ProductOfSum(a, WORD, q, w, t);
    SameRemainder(a * t, w * t, WORD, q * t);
  }

  lemma ProductOfSum(a: int, m: int, q: int, w: int, t: int)
    requires a == m * q + w
    ensures a * t == w * t + m * (q * t)
  {
  }

  lemma {:induction false} ShiftDownOut(w: nat, k: nat)
    requires w < TwoPower(k)
    ensures ShiftDown(w, k) == 0
    decreases k
  {
    if k > 0 {
      ShiftDownOut(w / 2, k - 1);
    }
  }

  lemma {:induction false} PowerGrows(j: nat, k: nat)
    requires j <= k
    ensures TwoPower(j) <= TwoPower(k)
    decreases k
  {
    if j < k {
      PowerGrows(j, k - 1);
    }
  }

  lemma {:induction false} ShiftDownShrinks(w: nat, k: nat)
    ensures 0 <= ShiftDown(w, k) <= w
    decreases k
  {
    if k > 0 {
      ShiftDownShrinks(w / 2, k - 1);
    }
  }

  /** Shifting an unsigned value right. */
  lemma ShiftRightAgrees(w: nat, k: nat)
    requires w < WORD
    ensures ShiftDown(w, k) < WORD
    ensures (if k >= 256 then 0 else ShiftDown(Normalize(w, false), k)) == ShiftDown(w, k)
  {
    ShiftDownShrinks(w, k);
    if k >= 256 {
      WordIsPower();
      PowerGrows(256, k);
      ShiftDownOut(w, k);
    }
  }

  lemma Parts(x: nat, y: nat)
    requires y > 0
    ensures x == y * (x / y) + x % y && 0 <= x % y < y && 0 <= x / y <= x
    ensures x / y == x ==> x == 0 || y == 1
  {
    var q := x / y;
    assert x == y * q + x % y;
    if q > 0 {
      if y > 1 {
        Distribute(q, y, 1);
        AtLeast(q, y - 1);
      }
    }
  }

  lemma Signs(b: int, q: int)
    ensures (-b) * (-q) == b * q && b * (-q) == -(b * q) && (-b) * q == -(b * q)
  {
  }

  lemma QuotientAgrees(signed: bool, a: int, b: int)
    requires b != 0 && (signed || (a >= 0 && b > 0))
    ensures Divide(signed, a, b) == Quotient(a, b)
    ensures Remainder(signed, a, b) == a - b * Quotient(a, b)
  {
    var x, y := Magnitude(a), Magnitude(b);
    Parts(x, y);
    Signs(b, x / y);
  }

  lemma QuotientFits(a: int, b: int)
    requires b != 0
    ensures Magnitude(Quotient(a, b)) <= Magnitude(a)
    ensures Magnitude(a - b * Quotient(a, b)) < Magnitude(b)
    ensures a >= 0 ==> a - b * Quotient(a, b) >= 0
    ensures a >= 0 && b > 0 ==> Quotient(a, b) >= 0
    ensures Quotient(a, b) == -a ==> a == 0 || b == -1
  {
    var x, y := Magnitude(a), Magnitude(b);
    Parts(x, y);
    Signs(b, x / y);
  }

  // ---------------------------------------------------------------- operator by operator

  /** Every operator the compiler accepts gives Solidity's result on values of 256 bits, errors and reverts
      included, except a right shift of an int256, which the evaluator does logically. */
  lemma OperatorsAgree(op: string, l: Val, r: Val)
    requires BinaryOp(op).Some? && InfixType(BinaryOp(op).value, TypeOfVal(l), TypeOfVal(r)).Some?
    requires InRange(l) && InRange(r) && !(op == "shr" && l.VInt?)
    ensures PlainBinary(op, l, r) == Apply(BinaryOp(op).value, l, r)
    ensures Stays(Apply(BinaryOp(op).value, l, r))
  {
    hide Arithmetic, Bits, Shift, Compare, Divide, Remainder, LongBits, Normalize, ShiftBy, ToSigned, Quotient, PlainBinary, Apply;
    var s := BinaryOp(op).value;
    if IsEquality(s) || IsOrder(s) {
      ComparisonsAgree(op, l, r);
    } else if IsShift(s) {
      ShiftsAgree(op, l, r);
    } else if IsBitwise(s) {
      BitwiseOperatorsAgree(op, l, r);
    } else {
      ArithmeticAgrees(op, l, r);
    }
  }

  predicate Stays(r: Result<Val>) {
    r.Ok? ==> InRange(r.value)
  }

  lemma ComparisonsAgree(op: string, l: Val, r: Val)
    requires BinaryOp(op).Some? && (IsEquality(BinaryOp(op).value) || IsOrder(BinaryOp(op).value))
    requires InfixType(BinaryOp(op).value, TypeOfVal(l), TypeOfVal(r)).Some?
    ensures PlainBinary(op, l, r) == Apply(BinaryOp(op).value, l, r)
    ensures Stays(Apply(BinaryOp(op).value, l, r))
  {
    hide PlainBinary, Apply;
    if op == "eq" || op == "neq" {
      ApplyCompares(BinaryOp(op).value, l, r);
      PlainCompares(op, l, r);
    } else {
      OrdersAgree(op, l, r);
    }
  }

  lemma ApplyCompares(s: Sign, l: Val, r: Val)
    requires IsEquality(s) && TypeOfVal(l) == TypeOfVal(r)
    ensures Apply(s, l, r) == Ok(VBool((l == r) == (s == EqEq)))
  {
  }

  lemma PlainCompares(op: string, l: Val, r: Val)
    requires op == "eq" || op == "neq"
    ensures PlainBinary(op, l, r) == Ok(VBool((l == r) == (op == "eq")))
  {
  }

  lemma OrdersAgree(op: string, l: Val, r: Val)
    requires op == "ge" || op == "le" || op == "gt" || op == "lt"
    requires (l.VUint? && r.VUint?) || (l.VInt? && r.VInt?)
    ensures PlainBinary(op, l, r) == Apply(BinaryOp(op).value, l, r)
    ensures Stays(Apply(BinaryOp(op).value, l, r))
  {
    hide Arithmetic;
    var a, b := NumberOf(l).value, NumberOf(r).value;
    assert Apply(BinaryOp(op).value, l, r) == Ok(VBool(Compare(BinaryOp(op).value, a, b)));
    hide Apply;
  }

  lemma ShiftsAgree(op: string, l: Val, r: Val)
    requires (op == "shl" || op == "shr") && !(op == "shr" && l.VInt?)
    requires InfixType(BinaryOp(op).value, TypeOfVal(l), TypeOfVal(r)).Some? && InRange(l)
    ensures PlainBinary(op, l, r) == Apply(BinaryOp(op).value, l, r)
    ensures Stays(Apply(BinaryOp(op).value, l, r))
  {
    hide ShiftDown, ShiftUp;
    var a, k := NumberOf(l).value, r.n;
    if op == "shl" {
      ShiftLeftAgrees(a, k, l.VInt?);
      assert l.VUint? ==> FromSigned(a) == a;
    } else {
      ShiftRightAgrees(a, k);
    }
  }

  lemma BitwiseOperatorsAgree(op: string, l: Val, r: Val)
    requires op == "band" || op == "bor" || op == "bxor"
    requires InfixType(BinaryOp(op).value, TypeOfVal(l), TypeOfVal(r)).Some? && InRange(l) && InRange(r)
    ensures PlainBinary(op, l, r) == Apply(BinaryOp(op).value, l, r)
    ensures Stays(Apply(BinaryOp(op).value, l, r))
  {
    hide Bits, LongBits;
    var a, b := NumberOf(l).value, NumberOf(r).value;
    BitwiseAgrees(BinaryOp(op).value, a, b, l.VInt?);
    assert l.VUint? ==> FromSigned(a) == a && FromSigned(b) == b;
  }

  lemma ArithmeticAgrees(op: string, l: Val, r: Val)
    requires op == "add" || op == "sub" || op == "mul" || op == "div" || op == "mod"
    requires InfixType(BinaryOp(op).value, TypeOfVal(l), TypeOfVal(r)).Some? && InRange(l) && InRange(r)
    ensures PlainBinary(op, l, r) == Apply(BinaryOp(op).value, l, r)
    ensures Stays(Apply(BinaryOp(op).value, l, r))
  {
    hide PlainBinary, Apply;
    if op == "div" || op == "mod" {
      DivisionAgrees(op, l, r);
    } else {
      SumsAgree(op, l, r);
    }
  }

  lemma SumsAgree(op: string, l: Val, r: Val)
    requires op == "add" || op == "sub" || op == "mul"
    requires (l.VUint? && r.VUint?) || (l.VInt? && r.VInt?)
    ensures PlainBinary(op, l, r) == Apply(BinaryOp(op).value, l, r)
    ensures Stays(Apply(BinaryOp(op).value, l, r))
  {
    hide Quotient;
    var a, b := NumberOf(l).value, NumberOf(r).value;
    var c := if op == "add" then a + b else if op == "sub" then a - b else a * b;
    assert Arithmetic(BinaryOp(op).value, a, b) == Some(c);
    hide Arithmetic;
    assert PlainBinary(op, l, r) == Checked(l, c);
  }

  lemma DivisionAgrees(op: string, l: Val, r: Val)
    requires op == "div" || op == "mod"
    requires ((l.VUint? && r.VUint?) || (l.VInt? && r.VInt?)) && InRange(l) && InRange(r)
    ensures PlainBinary(op, l, r) == Apply(BinaryOp(op).value, l, r)
    ensures Stays(Apply(BinaryOp(op).value, l, r))
  {
    hide Quotient, Apply, PlainBinary, Arithmetic;
    var a, b := NumberOf(l).value, NumberOf(r).value;
    var s := BinaryOp(op).value;
    ArithmeticApplies(s, l, r);
    if b == 0 {
      PlainByZero(op, l, r);
    } else {
      DivisionFits(a, b, l.VInt?);
      PlainDivides(op, l, r);
    }
    assert Arithmetic(s, a, b) == if b == 0 then None else Some(if op == "div" then Quotient(a, b) else a - b * Quotient(a, b)) by {
      DividedExactly(op, a, b);
    }
  }

  lemma DividedExactly(op: string, a: int, b: int)
    requires op == "div" || op == "mod"
    ensures Arithmetic(BinaryOp(op).value, a, b)
         == if b == 0 then None else Some(if op == "div" then Quotient(a, b) else a - b * Quotient(a, b))
  {
    hide Quotient;
  }

  lemma ArithmeticApplies(s: Sign, l: Val, r: Val)
    requires IsArithmetic(s) && ((l.VUint? && r.VUint?) || (l.VInt? && r.VInt?))
    ensures Apply(s, l, r) == match Arithmetic(s, NumberOf(l).value, NumberOf(r).value)
                              case None => Reverts
                              case Some(i) => Checked(l, i)
  {
    hide Arithmetic;
  }

  lemma PlainByZero(op: string, l: Val, r: Val)
    requires op == "div" || op == "mod"
    requires ((l.VUint? && r.VUint?) || (l.VInt? && r.VInt?)) && NumberOf(r) == Some(0)
    ensures PlainBinary(op, l, r) == Reverts
  {
    hide Divide, Remainder;
  }

  lemma PlainDivides(op: string, l: Val, r: Val)
    requires op == "div" || op == "mod"
    requires ((l.VUint? && r.VUint?) || (l.VInt? && r.VInt?)) && InRange(l) && InRange(r) && NumberOf(r).value != 0
    ensures var a, b := NumberOf(l).value, NumberOf(r).value;
            PlainBinary(op, l, r) == Checked(l, if op == "div" then Quotient(a, b) else a - b * Quotient(a, b))
  {
    hide Divide, Remainder, Quotient;
    var a, b := NumberOf(l).value, NumberOf(r).value;
    QuotientAgrees(l.VInt?, a, b);
    DivisionFits(a, b, l.VInt?);
  }

  /** Only the least int256 divided by -1 leaves the range. */
  lemma DivisionFits(a: int, b: int, signed: bool)
    requires b != 0
    requires if signed then -HALF <= a < HALF && -HALF <= b < HALF else 0 <= a < WORD && 0 <= b < WORD
    ensures Quotient(-HALF, -1) == HALF
    ensures signed ==> -HALF <= a - b * Quotient(a, b) < HALF
    ensures signed && !(a == -HALF && b == -1) ==> -HALF <= Quotient(a, b) < HALF
    ensures !signed ==> 0 <= Quotient(a, b) < WORD && 0 <= a - b * Quotient(a, b) < WORD
  {
    hide Quotient;
    QuotientFits(a, b);
    assert Quotient(-HALF, -1) == HALF by {
      QuotientAgrees(true, -HALF, -1);
    }
  }

  lemma PrefixesAgree(op: string, v: Val)
    requires PrefixType(op, TypeOfVal(v)).Some? && InRange(v)
    ensures PlainUnary(op, v) == ApplyPrefix(if op == "not" then Bang else if op == "neg" then Minus else Tilde, v)
    ensures Stays(PlainUnary(op, v))
  {
  }

  /** Exactly when a right shift of an int256 agrees: the evaluator shifts the 256-bit pattern, Solidity
      the number, so they differ on every negative operand, even when shifted by nothing. */
  lemma SignedShiftAgreesExactly(a: int, k: nat)
    requires -HALF <= a < HALF
    ensures PlainBinary("shr", VInt(a), VUint(k)) == Apply(Shr, VInt(a), VUint(k)) <==> a >= 0
  {
    hide ShiftDown;
    if a >= 0 {
      ShiftRightAgrees(a, k);
    } else {
      StaysNegative(a, k);
      ShiftDownShrinks(Normalize(a, false), k);
    }
  }

  lemma {:induction false} StaysNegative(a: int, k: nat)
    requires a < 0
    ensures ShiftDown(a, k) < 0
    decreases k
  {
    if k > 0 {
      StaysNegative(a / 2, k - 1);
    }
  }

  lemma {:induction false} HexFits(digits: string)
    ensures HexValue(digits) < TwoPower(4 * |digits|)
    decreases |digits|
  {
    if digits != "" {
      var n := |digits| - 1;
      hide TwoPower;
      HexFits(digits[..n]);
      TwoPowerSplits(4 * n, 4);
      SixteenIsPower();
    }
  }

  lemma SixteenIsPower()
    ensures TwoPower(4) == 16
  {
  }

  lemma ProperInRange(x: XVal)
    requires Proper(x)
    ensures InRange(ValOf(x))
  {
    hide HexValue, TwoPower;
    if x.Hex? {
      HexFits(Digits(x.text));
      WordIsPower();
    }
  }

  /** A right shift of a negative int256 by nothing: the evaluator leaves the type. */
  predicate LeavesType(op: string, l: XVal, r: XVal) {
    op == "shr" && l.Plain? && l.v.VInt? && l.v.i < 0 && r == Plain(VUint(0))
  }

  /** Exactly when the result of an operator is no value of its type. */
  lemma ResultFitsExactly(op: string, l: XVal, r: XVal)
    requires BinaryOp(op).Some? && InfixType(BinaryOp(op).value, TypeOfVal(ValOf(l)), TypeOfVal(ValOf(r))).Some?
    requires op != "and" && op != "or" && Proper(l) && Proper(r)
    ensures var x, t := XlirBinary(op, l, r), InfixType(BinaryOp(op).value, TypeOfVal(ValOf(l)), TypeOfVal(ValOf(r))).value;
            x.Reverts? || (x.Ok? && TypeOfVal(ValOf(x.value)) == t)
    ensures (XlirBinary(op, l, r).Ok? ==> Proper(XlirBinary(op, l, r).value)) <==> !LeavesType(op, l, r)
  {
    hide Apply, PlainBinary, HexValue;
    if l.Hex? || r.Hex? {
    } else if op == "shr" && l.v.VInt? {
      SignedShiftFits(l.v.i, r.v.n);
    } else {
      OperatorsAgree(op, l.v, r.v);
      ApplyIsTyped(BinaryOp(op).value, l.v, r.v);
    }
  }

  lemma SignedShiftFits(a: int, k: nat)
    requires -HALF <= a < HALF
    ensures var x := PlainBinary("shr", VInt(a), VUint(k));
            x.Ok? && x.value.VInt? && (InRange(x.value) <==> !(a < 0 && k == 0))
  {
    hide ShiftDown;
    var w := Normalize(a, false);
    assert PlainBinary("shr", VInt(a), VUint(k)) == Ok(VInt(if k >= 256 then 0 else ShiftDown(w, k)));
    if k == 0 {
      NothingShifted(w);
    } else {
      HalfThenRest(w, k);
      ShiftDownShrinks(w / 2, k - 1);
    }
  }

  lemma NothingShifted(w: int)
    ensures ShiftDown(w, 0) == w
  {
  }

  lemma HalfThenRest(w: int, k: nat)
    requires k > 0
    ensures ShiftDown(w, k) == ShiftDown(w / 2, k - 1)
  {
  }

  lemma ApplyIsTyped(op: Sign, l: Val, r: Val)
    requires InfixType(op, TypeOfVal(l), TypeOfVal(r)).Some?
    ensures Apply(op, l, r).Reverts?
            || (Apply(op, l, r).Ok? && TypeOfVal(Apply(op, l, r).value) == InfixType(op, TypeOfVal(l), TypeOfVal(r)).value)
  {
    hide Bits, Shift, Arithmetic, Compare;
  }

  lemma PrefixFits(op: string, x: XVal)
    requires PrefixType(op, TypeOfVal(ValOf(x))).Some? && Proper(x)
    ensures var y := XlirUnary(op, x); y.Reverts? || (y.Ok? && Proper(y.value) && TypeOfVal(ValOf(y.value)) == TypeOfVal(ValOf(x)))
  {
  }
}
