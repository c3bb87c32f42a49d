/** Exactly when an operator gives the same before and after lowering: operand by operand, for values,
    constants and texts. */
module Agreement {
  import opened Wrappers
  import opened Numerals
  import opened Solidity
  import opened Evaluation
  import opened Lowering
  import opened Xlir

  // ---------------------------------------------------------------- what stands for what

  /** An untyped constant for a value. */
  ghost predicate Stands(s: SolVal, v: Val) {
    match v
    case VUint(n) => s == Rational(n, 1) && n < WORD
    case VInt(i) => s == Rational(i, 1) && -HALF <= i < HALF
    case VBytes(w) => s == HexWord(w) && w < WORD
    case _ => false
  }

  /** What Solidity has for a value of the evaluator, in a constant expression or elsewhere. */
  ghost predicate Denotes(s: SolVal, x: XVal, constant: bool) {
    if constant then Stands(s, ValOf(x)) else s == Typed(ValOf(x))
  }

  ghost predicate Matches(s: Result<SolVal>, x: Result<XVal>, constant: bool) {
    match x
    case Ok(v) => s.Ok? && Denotes(s.value, v, constant)
    case Reverts => s.Reverts?
    case IllTyped => false
  }

  // ---------------------------------------------------------------- the conditions

  predicate Holds(signed: bool, i: int) {
    if signed then -HALF <= i < HALF else 0 <= i < WORD
  }

  predicate IsComparison(op: string) {
    op == "eq" || op == "neq" || op == "ge" || op == "le" || op == "gt" || op == "lt"
  }

  /** Two constants: the exact result must be a number of the type, and have one. */
  predicate ConstantsMeet(op: string, signed: bool, a: int, b: int) {
    if op == "add" then Holds(signed, a + b)
    else if op == "sub" then Holds(signed, a - b)
    else if op == "mul" then Holds(signed, a * b)
    else if op == "div" then b != 0 && a % b == 0 && Holds(signed, Quotient(a, b))
    else if op == "mod" then b != 0
    else if op == "shl" then 0 <= b < SHIFT_LIMIT && Holds(signed, ShiftUp(a, b))
    else if op == "shr" then 0 <= b < SHIFT_LIMIT && (signed ==> a >= 0)
    else IsComparison(op) ==> (a < 0) == (b < 0)
  }

  /** Numbers, `lc` and `rc` telling which operands are constants. A constant shifted by a value takes the type
      its sign suggests; an int256 shifted right must not be negative. */
  predicate NumbersMeet(op: string, lc: bool, rc: bool, signed: bool, a: int, b: int) {
    if lc && rc then ConstantsMeet(op, signed, a, b)
    else if op == "shl" && lc then signed ==> a < 0
    else if op == "shr" && lc then !signed
    else if op == "shr" then signed ==> a >= 0
    else true
  }

  predicate TextsMeet(s: string, t: string) {
    s == t || HexValue(Digits(s)) != HexValue(Digits(t))
  }

  /** The condition on one binary operator and its operands. */
  predicate Meets(op: string, lc: bool, rc: bool, l: XVal, r: XVal) {
    match (l, r)
    case (Plain(a), Plain(b)) =>
      (match (NumberOf(a), NumberOf(b))
       case (Some(m), Some(n)) => NumbersMeet(op, lc, rc, a.VInt?, m, n)
       case _ => true)
    case (Hex(_, s), Hex(_, t)) => TextsMeet(s, t)
    case _ => true
  }

  /** The condition on one unary operator: a constant has no width to flip or overflow in. */
  predicate UnaryMeets(op: string, constant: bool, x: XVal) {
    constant && x.Plain? ==>
      (op == "neg" ==> x.v != VInt(-HALF)) && (op == "bitnot" ==> x.v.VInt?)
  }

  // ---------------------------------------------------------------- operands of declared types

  /** A constant beside a typed operand, or two typed operands, give what the typed operator gives. */
  lemma ApplySolAgrees(op: Sign, l: SolVal, r: SolVal, lv: Val, rv: Val)
    requires InfixType(op, TypeOfVal(lv), TypeOfVal(rv)).Some?
    requires l == Typed(lv) || r == Typed(rv)
    requires l == Typed(lv) || Stands(l, lv)
    requires r == Typed(rv) || Stands(r, rv)
    requires IsShift(op) ==> l == Typed(lv) || lv.VUint? || (lv.VInt? && lv.i < 0)
    ensures ApplySol(op, l, r) == Wrap(Apply(op, lv, rv))
  {
    hide Apply;
  }

  /** The operators of the evaluator against Solidity's typed ones. */
  lemma TypedAgreesExactly(op: string, l: XVal, r: XVal)
    requires BinaryOp(op).Some? && InfixType(BinaryOp(op).value, TypeOfVal(ValOf(l)), TypeOfVal(ValOf(r))).Some?
    requires Proper(l) && Proper(r)
    ensures var s, x := Wrap(Apply(BinaryOp(op).value, ValOf(l), ValOf(r))), XlirBinary(op, l, r);
            Matches(s, x, false) <==> Meets(op, false, false, l, r)
  {
    hide Apply, PlainBinary, HexValue;
    if l.Hex? || r.Hex? {
      HexOperands(op, l, r);
    } else if op == "shr" && l.v.VInt? {
      SignedShiftOperands(op, l, r);
    } else {
      OperatorsAgree(op, l.v, r.v);
      ApplyIsTyped(BinaryOp(op).value, l.v, r.v);
    }
  }

  lemma HexOperands(op: string, l: XVal, r: XVal)
    requires BinaryOp(op).Some? && InfixType(BinaryOp(op).value, TypeOfVal(ValOf(l)), TypeOfVal(ValOf(r))).Some?
    requires Proper(l) && Proper(r) && (l.Hex? || r.Hex?)
    ensures l.Hex? && r.Hex? && l.kind == r.kind && (op == "eq" || op == "neq")
    ensures var s, x := Wrap(Apply(BinaryOp(op).value, ValOf(l), ValOf(r))), XlirBinary(op, l, r);
            Matches(s, x, false) <==> TextsMeet(l.text, r.text)
  {
    hide HexValue, Apply;
    assert IsEquality(BinaryOp(op).value);
    ApplyCompares(BinaryOp(op).value, ValOf(l), ValOf(r));
  }

  lemma SignedShiftOperands(op: string, l: XVal, r: XVal)
    requires op == "shr" && l.Plain? && l.v.VInt? && r.Plain? && r.v.VUint? && Proper(l)
    ensures var s, x := Wrap(Apply(Shr, ValOf(l), ValOf(r))), XlirBinary(op, l, r);
            Matches(s, x, false) <==> l.v.i >= 0
  {
    hide ShiftDown, Apply, PlainBinary;
    SignedShiftAgreesExactly(l.v.i, r.v.n);
    SignedShiftsHaveValues(l.v.i, r.v.n);
  }

  lemma SignedShiftsHaveValues(a: int, k: nat)
    ensures PlainBinary("shr", VInt(a), VUint(k)).Ok? && Apply(Shr, VInt(a), VUint(k)).Ok?
  {
    hide ShiftDown;
  }

  // ---------------------------------------------------------------- constant operands

  lemma ShiftedConstant(l: SolVal, a: int, k: nat, op: string)
    requires op == "shl" || op == "shr"
    requires a >= 0 && l == Rational(a, 1) && a < WORD && -HALF <= a < HALF
    ensures var s := ApplySol(BinaryOp(op).value, l, Typed(VUint(k)));
            s.Ok? ==> !(s.value.Typed? && s.value.v.VInt?)
  {
    hide Shift;
  }

  /** A constant shifted by a value. */
  lemma ConstantShiftExactly(op: string, ls: SolVal, l: XVal, r: XVal)
    requires op == "shl" || op == "shr"
    requires InfixType(BinaryOp(op).value, TypeOfVal(ValOf(l)), TypeOfVal(ValOf(r))).Some?
    requires Proper(l) && Proper(r) && Stands(ls, ValOf(l))
    ensures var s, x := ApplySol(BinaryOp(op).value, ls, Typed(ValOf(r))), XlirBinary(op, l, r);
            Matches(s, x, false) <==> Meets(op, true, false, l, r)
  {
    hide Apply, PlainBinary, ShiftDown, ApplySol, HexValue;
    if l.v.VInt? && l.v.i >= 0 {
      PositiveShift(op, ls, l.v.i, r.v.n);
    } else {
      ApplySolAgrees(BinaryOp(op).value, ls, Typed(r.v), l.v, r.v);
      TypedAgreesExactly(op, l, r);
    }
  }

  lemma PositiveShift(op: string, ls: SolVal, a: int, k: nat)
    requires op == "shl" || op == "shr"
    requires 0 <= a < HALF && ls == Rational(a, 1)
    ensures !Matches(ApplySol(BinaryOp(op).value, ls, Typed(VUint(k))), XlirBinary(op, Plain(VInt(a)), Plain(VUint(k))), false)
  {
    hide PlainBinary, ApplySol;
    ShiftedConstant(ls, a, k, op);
    ShiftHasType(op, a, k);
  }

  lemma ShiftHasType(op: string, a: int, k: nat)
    requires op == "shl" || op == "shr"
    ensures var x := PlainBinary(op, VInt(a), VUint(k)); x.Ok? && x.value.VInt?
  {
    hide ShiftDown, ShiftUp;
  }

  /** Two constants whose operator gives a constant: what Solidity computes. */
  function Exact(op: string, a: int, b: int): Option<int> {
    if op == "add" then Some(a + b)
    else if op == "sub" then Some(a - b)
    else if op == "mul" then Some(a * b)
    else if op == "div" then (if b != 0 && a % b == 0 then Some(Quotient(a, b)) else None)
    else if op == "mod" then (if b != 0 then Some(a - b * Quotient(a, b)) else None)
    else if op == "shl" then (if 0 <= b < SHIFT_LIMIT then Some(ShiftUp(a, b)) else None)
    else if op == "shr" then (if 0 <= b < SHIFT_LIMIT then Some(ShiftDown(a, b)) else None)
    else Some(LongBits(if op == "band" then Amp else if op == "bor" then Bar else Caret, a, b))
  }

  /** The constant Solidity computes: the exact number, or a fraction, or nothing that compiles. */
  ghost predicate IsExact(s: Result<SolVal>, c: Option<int>) {
    match c
    case Some(i) => s == Ok(Rational(i, 1))
    case None => !s.Reverts? && (s.Ok? ==> s.value.Rational? && s.value.den != 1)
  }

  lemma FoldIsExact(op: string, a: int, b: int)
    requires IsConstantOp(op)
    ensures IsExact(Fold(BinaryOp(op).value, Rational(a, 1), Rational(b, 1)), Exact(op, a, b))
  {
    hide Fold, Exact, IsExact;
    if op == "add" || op == "sub" || op == "mul" {
      SumFolds(op, a, b);
    } else if op == "div" {
      QuotientFolds(a, b);
    } else if op == "shl" || op == "shr" {
      ShiftFolds(op, a, b);
    } else {
      RestFolds(op, a, b);
    }
  }

  lemma SumFolds(op: string, a: int, b: int)
    requires op == "add" || op == "sub" || op == "mul"
    ensures IsExact(Fold(BinaryOp(op).value, Rational(a, 1), Rational(b, 1)), Exact(op, a, b))
  {
    var c := if op == "add" then a + b else if op == "sub" then a - b else a * b;
    assert Exact(op, a, b) == Some(c);
    assert Normalized(c, 1) == Rational(c, 1);
    hide Normalized;
  }

  lemma QuotientFolds(a: int, b: int)
    ensures IsExact(Fold(Slash, Rational(a, 1), Rational(b, 1)), Exact("div", a, b))
  {
    hide Quotient;
    if b != 0 {
      FoldQuotient(a, b);
    }
  }

  lemma ShiftFolds(op: string, a: int, b: int)
    requires op == "shl" || op == "shr"
    ensures IsExact(Fold(BinaryOp(op).value, Rational(a, 1), Rational(b, 1)), Exact(op, a, b))
  {
    hide ShiftUp, ShiftDown, Normalized;
  }

  lemma RestFolds(op: string, a: int, b: int)
    requires op == "mod" || op == "band" || op == "bor" || op == "bxor"
    ensures IsExact(Fold(BinaryOp(op).value, Rational(a, 1), Rational(b, 1)), Exact(op, a, b))
  {
    hide Fold, Quotient, LongBits;
    if op == "mod" {
      RemainderFolds(a, b);
    } else {
      BitsFold(BinaryOp(op).value, a, b);
    }
  }

  lemma RemainderFolds(a: int, b: int)
    ensures Fold(Percent, Rational(a, 1), Rational(b, 1))
         == if b != 0 then Ok(Rational(a - b * Quotient(a, b), 1)) else IllTyped
  {
    hide Quotient, Normalized;
  }

  lemma BitsFold(s: Sign, a: int, b: int)
    requires IsBitwise(s)
    ensures Fold(s, Rational(a, 1), Rational(b, 1)) == Ok(Rational(LongBits(s, a, b), 1))
  {
    hide LongBits, Normalized;
  }

  lemma FoldQuotient(a: int, b: int)
    requires b != 0
    ensures var s := Fold(Slash, Rational(a, 1), Rational(b, 1));
            if a % b == 0 then s == Ok(Rational(Quotient(a, b), 1)) else s.Ok? && s.value.Rational? && s.value.den != 1
  {
    assert a == b * (a / b) + a % b;
    if b > 0 {
      NegativeQuotient(a, b);
    } else {
      NegativeQuotient(-a, -b);
      NegativeDivisor(a, b);
    }
  }

  /** Division that comes out even needs no rounding rule. */
  lemma NegativeQuotient(a: int, b: int)
    requires b > 0
    ensures a % b == 0 ==> a / b == Quotient(a, b)
  {
    if a % b == 0 && a < 0 {
      assert -a == b * (-(a / b)) by { Signs(b, a / b); }
      RemainderIs(-a, b, -(a / b), 0);
    }
  }

  lemma NegativeDivisor(a: int, b: int)
    requires b < 0
    ensures a % b == 0 <==> (-a) % (-b) == 0
    ensures Quotient(-a, -b) == Quotient(a, b)
  {
    if a % b == 0 {
      EvenAway(a, b, a / b);
    }
    if (-a) % (-b) == 0 {
      EvenBack(a, b, (-a) / (-b));
    }
    SameQuotient(a, b);
  }

  lemma EvenAway(a: int, b: int, q: int)
    requires b < 0 && a == b * q
    ensures (-a) % (-b) == 0
  {
    Signs(b, q);
    RemainderIs(-a, -b, q, 0);
  }

  lemma EvenBack(a: int, b: int, q: int)
    requires b < 0 && -a == (-b) * q
    ensures a % b == 0
  {
    Signs(b, q);
    NothingLeft(a, b, q);
  }

  lemma SameQuotient(a: int, b: int)
    requires b < 0
    ensures Quotient(-a, -b) == Quotient(a, b)
  {
    var x := if a < 0 then -a else a;
    var q := x / (-b);
    assert a == 0 ==> q == 0;
  }

  lemma NothingLeft(a: int, b: int, q: int)
    requires b < 0 && a == b * q
    ensures a % b == 0
  {
    var p := a / b;
    assert a == b * p + a % b;
    Signs(b, p);
    Signs(b, q);
    Distribute(-b, p, q);
    if p > q {
      AtLeast(-b, p - q);
    } else if p < q {
      Distribute(-b, q, p);
      AtLeast(-b, q - p);
    }
  }

  // ---------------------------------------------------------------- two constants

  function Num(signed: bool, i: int): Val {
    if signed then VInt(i) else if i >= 0 then VUint(i) else VUint(0)
  }

  predicate InType(v: Val, signed: bool) {
    InRange(v) && (if signed then v.VInt? else v.VUint?)
  }

  predicate IsConstantOp(op: string) {
    BinaryOp(op).Some? && op != "and" && op != "or" && !IsComparison(op)
  }

  /** On two constants: the exact result stands for the evaluator's exactly under the condition. */
  lemma ConstantsAgreeExactly(op: string, signed: bool, l: Val, r: Val)
    requires IsConstantOp(op) && InType(l, signed) && InType(r, signed && op != "shl" && op != "shr")
    ensures var a, b := NumberOf(l).value, NumberOf(r).value;
            Matches(Fold(BinaryOp(op).value, Rational(a, 1), Rational(b, 1)), Lift(PlainBinary(op, l, r)), true)
            <==> ConstantsMeet(op, signed, a, b)
  {
    hide PlainBinary, Fold, Exact, ConstantsMeet, BinaryOp;
    var a, b := NumberOf(l).value, NumberOf(r).value;
    FoldIsExact(op, a, b);
    ResultExactly(op, signed, l, r);
  }

  /** The evaluator's result beside the exact one. */
  ghost predicate SameResult(x: Result<Val>, c: Option<int>, signed: bool) {
    c.Some? && Holds(signed, c.value) && x == Ok(Num(signed, c.value))
  }

  lemma ResultExactly(op: string, signed: bool, l: Val, r: Val)
    requires IsConstantOp(op) && InType(l, signed) && InType(r, signed && op != "shl" && op != "shr")
    ensures var a, b := NumberOf(l).value, NumberOf(r).value;
      && (SameResult(PlainBinary(op, l, r), Exact(op, a, b), signed) <==> ConstantsMeet(op, signed, a, b))
      && (PlainBinary(op, l, r).Reverts? || (PlainBinary(op, l, r).Ok? && TypeOfVal(PlainBinary(op, l, r).value) == TypeOfVal(l)))
  {
    hide PlainBinary, Exact, ConstantsMeet;
    if op == "add" || op == "sub" || op == "mul" {
      SumExactly(op, signed, l, r);
    } else if op == "div" || op == "mod" {
      DivisionExactly(op, signed, l, r);
    } else if op == "shl" {
      ShiftLeftExactly(signed, l, r);
    } else if op == "shr" {
      ShiftRightExactly(signed, l, r);
    } else {
      BitwiseExactly(op, signed, l, r);
    }
  }

  lemma SumExactly(op: string, signed: bool, l: Val, r: Val)
    requires op == "add" || op == "sub" || op == "mul"
    requires InType(l, signed) && InType(r, signed)
    ensures var a, b := NumberOf(l).value, NumberOf(r).value;
      && (SameResult(PlainBinary(op, l, r), Exact(op, a, b), signed) <==> ConstantsMeet(op, signed, a, b))
      && (PlainBinary(op, l, r).Reverts? || (PlainBinary(op, l, r).Ok? && TypeOfVal(PlainBinary(op, l, r).value) == TypeOfVal(l)))
  {
    var a, b := NumberOf(l).value, NumberOf(r).value;
    var c := if op == "add" then a + b else if op == "sub" then a - b else a * b;
    assert Exact(op, a, b) == Some(c);
    assert PlainBinary(op, l, r) == if Holds(signed, c) then Ok(Num(signed, c)) else Reverts;
  }

  lemma DivisionExactly(op: string, signed: bool, l: Val, r: Val)
    requires op == "div" || op == "mod"
    requires InType(l, signed) && InType(r, signed)
    ensures var a, b := NumberOf(l).value, NumberOf(r).value;
      && (SameResult(PlainBinary(op, l, r), Exact(op, a, b), signed) <==> ConstantsMeet(op, signed, a, b))
      && (PlainBinary(op, l, r).Reverts? || (PlainBinary(op, l, r).Ok? && TypeOfVal(PlainBinary(op, l, r).value) == TypeOfVal(l)))
  {
    hide Quotient, Divide, Remainder;
    var a, b := NumberOf(l).value, NumberOf(r).value;
    if b != 0 {
      QuotientAgrees(signed, a, b);
      DivisionFits(a, b, signed);
    }
  }

  lemma ShiftLeftExactly(signed: bool, l: Val, r: Val)
    requires InType(l, signed) && InType(r, false)
    ensures var a, b := NumberOf(l).value, NumberOf(r).value;
      && (SameResult(PlainBinary("shl", l, r), Exact("shl", a, b), signed) <==> ConstantsMeet("shl", signed, a, b))
      && PlainBinary("shl", l, r).Ok? && TypeOfVal(PlainBinary("shl", l, r).value) == TypeOfVal(l)
  {
    hide ShiftUp;
    var a, b := NumberOf(l).value, NumberOf(r).value;
    var c := if b >= 256 then 0 else Normalize(ShiftUp(a, b), signed);
    assert PlainBinary("shl", l, r) == Ok(Num(signed, c));
    assert Holds(signed, c);
    if Holds(signed, ShiftUp(a, b)) {
      NormalizedInType(ShiftUp(a, b), signed);
      if b >= 256 {
        ShiftOfLowBits(a, b);
        ShiftedOut(FromSigned(a), b);
      }
    }
  }

  /** A number of the type is its own public view, and the only one with its low 256 bits. */
  lemma NormalizedInType(i: int, signed: bool)
    requires Holds(signed, i)
    ensures Normalize(i, signed) == i
    ensures i % WORD == 0 ==> i == 0
  {
  }

  lemma ShiftRightExactly(signed: bool, l: Val, r: Val)
    requires InType(l, signed) && InType(r, false)
    ensures var a, b := NumberOf(l).value, NumberOf(r).value;
      && (SameResult(PlainBinary("shr", l, r), Exact("shr", a, b), signed) <==> ConstantsMeet("shr", signed, a, b))
      && PlainBinary("shr", l, r).Ok? && TypeOfVal(PlainBinary("shr", l, r).value) == TypeOfVal(l)
  {
    hide ShiftDown;
    var a, b := NumberOf(l).value, NumberOf(r).value;
    var c := if b >= 256 then 0 else ShiftDown(Normalize(a, false), b);
    assert PlainBinary("shr", l, r) == Ok(Num(signed, c));
    if a >= 0 {
      ShiftRightAgrees(a, b);
      ShiftDownShrinks(a, b);
    } else {
      StaysNegative(a, b);
    }
  }

  lemma BitwiseExactly(op: string, signed: bool, l: Val, r: Val)
    requires op == "band" || op == "bor" || op == "bxor"
    requires InType(l, signed) && InType(r, signed)
    ensures var a, b := NumberOf(l).value, NumberOf(r).value;
      && SameResult(PlainBinary(op, l, r), Exact(op, a, b), signed) && ConstantsMeet(op, signed, a, b)
      && TypeOfVal(PlainBinary(op, l, r).value) == TypeOfVal(l)
  {
    hide LongBits;
    var a, b := NumberOf(l).value, NumberOf(r).value;
    var s := BinaryOp(op).value;
    LongBitsHold(s, signed, a, b);
    NormalizedInType(LongBits(s, a, b), signed);
  }

  lemma LongBitsHold(s: Sign, signed: bool, a: int, b: int)
    requires (s == Amp || s == Bar || s == Caret) && Holds(signed, a) && Holds(signed, b)
    ensures Holds(signed, LongBits(s, a, b))
  {
    WordIsPower();
    if signed {
      assert TwoPower(256) == 2 * TwoPower(255);
      LongBitsFit(s, a, b, 255);
    } else {
      LongBitsFit(s, a, b, 256);
    }
  }

  /** A signed number of k bits beside its sign. */
  predicate Spans(k: nat, i: int) {
    0 <= i + TwoPower(k) < 2 * TwoPower(k)
  }

  lemma {:induction false} LongBitsFit(s: Sign, a: int, b: int, k: nat)
    requires s == Amp || s == Bar || s == Caret
    requires Spans(k, a) && Spans(k, b)
    ensures Spans(k, LongBits(s, a, b))
    ensures a >= 0 && b >= 0 ==> LongBits(s, a, b) >= 0
    decreases k
  {
    if !((a == 0 || a == -1) && (b == 0 || b == -1)) {
      LongBitsFit(s, a / 2, b / 2, k - 1);
    } else {
      TwoPowerSplits(k, 0);
    }
  }

  /** Comparing two constants: they must have one sign. */
  lemma ComparedConstantsExactly(op: string, signed: bool, l: Val, r: Val)
    requires IsComparison(op) && InType(l, signed) && InType(r, signed)
    ensures var a, b := NumberOf(l).value, NumberOf(r).value;
            Matches(Fold(BinaryOp(op).value, Rational(a, 1), Rational(b, 1)), Lift(PlainBinary(op, l, r)), false)
            <==> ConstantsMeet(op, signed, a, b)
  {
    var a, b := NumberOf(l).value, NumberOf(r).value;
    ComparisonFolds(op, a, b);
    hide Fold;
    assert PlainBinary(op, l, r) == Ok(VBool(Compare(BinaryOp(op).value, a, b)));
  }

  lemma ComparisonFolds(op: string, a: int, b: int)
    requires IsComparison(op)
    ensures Fold(BinaryOp(op).value, Rational(a, 1), Rational(b, 1))
         == if (a < 0) == (b < 0) then Ok(Typed(VBool(Compare(BinaryOp(op).value, a, b)))) else IllTyped
  {
    hide Compare, Normalized;
  }

  // ---------------------------------------------------------------- every operator

  /** Exactly when a binary operator gives the same before and after lowering, whichever of its operands are
      constants: for every operator and every type the compiler accepts. */
  lemma OperatorAgreesExactly(op: string, lc: bool, rc: bool, ls: SolVal, rs: SolVal, l: XVal, r: XVal)
    requires BinaryOp(op).Some? && InfixType(BinaryOp(op).value, TypeOfVal(ValOf(l)), TypeOfVal(ValOf(r))).Some?
    requires op != "and" && op != "or"
    requires Proper(l) && Proper(r) && Denotes(ls, l, lc) && Denotes(rs, r, rc)
    ensures Matches(ApplySol(BinaryOp(op).value, ls, rs), XlirBinary(op, l, r), lc && rc && !IsComparison(op))
            <==> Meets(op, lc, rc, l, r)
  {
    hide ApplySol, Apply, PlainBinary, ConstantsMeet, HexValue;
    if lc && rc {
      BothConstants(op, ls, rs, l, r);
    } else if lc && (op == "shl" || op == "shr") {
      ConstantShiftExactly(op, ls, l, r);
    } else {
      ApplySolAgrees(BinaryOp(op).value, ls, rs, ValOf(l), ValOf(r));
      TypedAgreesExactly(op, l, r);
    }
  }

  lemma BothConstants(op: string, ls: SolVal, rs: SolVal, l: XVal, r: XVal)
    requires BinaryOp(op).Some? && InfixType(BinaryOp(op).value, TypeOfVal(ValOf(l)), TypeOfVal(ValOf(r))).Some?
    requires op != "and" && op != "or"
    requires Proper(l) && Proper(r) && Stands(ls, ValOf(l)) && Stands(rs, ValOf(r))
    ensures Matches(ApplySol(BinaryOp(op).value, ls, rs), XlirBinary(op, l, r), !IsComparison(op)) <==> Meets(op, true, true, l, r)
  {
    hide PlainBinary, ConstantsMeet, HexValue, Fold, Apply;
    if l.Hex? {
      assert op == "eq" || op == "neq";
    } else if IsComparison(op) {
      ComparedConstantsExactly(op, l.v.VInt?, l.v, r.v);
    } else {
      ConstantsAgreeExactly(op, l.v.VInt?, l.v, r.v);
    }
  }

  /** Exactly when a unary operator does. */
  lemma PrefixAgreesExactly(op: string, constant: bool, s: SolVal, x: XVal)
    requires PrefixType(op, TypeOfVal(ValOf(x))).Some? && Proper(x) && Denotes(s, x, constant)
    ensures Matches(PrefixSol(if op == "not" then Bang else if op == "neg" then Minus else Tilde, s), XlirUnary(op, x), constant)
            <==> UnaryMeets(op, constant, x)
  {
  }
}
