/** The lowering preserves meaning: the generated test passes exactly when the predicate is false. */
module Preservation {
  import opened Wrappers
  import opened Numerals
  import opened Solidity
  import opened Evaluation
  import opened Lowering
  import opened Xlir
  import opened Agreement

  // ---------------------------------------------------------------- meaning of predicates

  /** The value Solidity's storage layout puts at a byte offset of a word. */
  function Decode(t: SymbolType, word: nat, offset: nat): Val {
    var shifted := ShiftDown(word, offset * 8);
    match t
    case TBool => VBool(shifted % 256 != 0)
    case TUint256 => VUint(shifted)
    case TInt256 => VInt(ToSigned(shifted))
    case TAddress => VAddress(Low160(shifted))
    case TBytes32 => VBytes(shifted)
  }

  /** The value a bound symbol has in a state. */
  function SymbolValue(b: Binding, p: Prepared, s: State): Result<Val>
    requires ValueText(b, p).Some?
  {
    var t := DeclaredType(b.symbolType).value;
    if b.getter.Some? && b.getter.value != "" then
      match s.get(Target(b, p), GetterName(b.getter.value).value)
      case None => Reverts
      case Some(v) => if TypeOfVal(v) == t then Ok(v) else IllTyped
    else Ok(Decode(t, s.load(Target(b, p), b.slot.value), b.offset))
  }

  function LiteralValue(kind: string, value: LitValue): XVal
    requires LiteralText(kind, value).Some?
  {
    match value
    case JBool(b) => Plain(VBool(b))
    case JInt(i) => Plain(if kind == "uint256" then VUint(i) else VInt(i))
    case JText(s) => Hex(if kind == "address" then TAddress else TBytes32, s)
  }

  /** The value the evaluator is given for a symbol. */
  function Observed(id: string, r: Result<Val>, s: State): Result<XVal> {
    match r
    case Ok(VAddress(a)) => Ok(Hex(TAddress, s.text(id, a)))
    case Ok(VBytes(w)) => Ok(Hex(TBytes32, s.text(id, w)))
    case _ => Lift(r)
  }

  /** The predicate language's own evaluator, over the states before and after the workflow; its errors are
      reverts. `and`, `or` and `implies` look at their right side only when the left one does not decide. */
  function Eval(e: Pred, p: Prepared, pre: State, post: State): Result<XVal>
    requires Text(e, p).Some? && Bound(e, p)
  {
    match e
    case Literal(kind, value) => Ok(LiteralValue(kind, value))
    case Symbol(id, state) =>
      var s := if state == "pre" then pre else post;
      Observed(id, SymbolValue(BindingFor(p.bindings, id, state).value, p, s), s)
    case Unary(op, operand) =>
      (match Eval(operand, p, pre, post)
       case Ok(v) => XlirUnary(op, v)
       case r => r)
    case Binary(op, left, right) =>
      match Eval(left, p, pre, post)
      case Ok(l) =>
        if Decides(op, l) then Ok(Plain(VBool(op != "and")))
        else
          (match Eval(right, p, pre, post)
           case Ok(r) =>
             if IsConnective(op) then (if IsTruth(l) && IsTruth(r) then Ok(r) else IllTyped)
             else XlirBinary(op, l, r)
           case r => r)
      case r => r
  }

  predicate IsTruth(x: XVal) {
    x.Plain? && x.v.VBool?
  }

  /** The left operand settles the connective. */
  predicate Decides(op: string, l: XVal) {
    ((op == "and" || op == "implies") && l == Plain(VBool(false))) || (op == "or" && l == Plain(VBool(true)))
  }

  predicate IsConnective(op: string) {
    op == "and" || op == "or" || op == "implies"
  }

  /** Every symbol has a binding that can be read; what _prepare and _pre_declarations insist on. */
  predicate Bound(e: Pred, p: Prepared) {
    match e
    case Literal(_, _) => true
    case Symbol(id, state) =>
      BindingFor(p.bindings, id, state).Some? && ValueText(BindingFor(p.bindings, id, state).value, p).Some?
    case Unary(_, operand) => Bound(operand, p)
    case Binary(_, left, right) => Bound(left, p) && Bound(right, p)
    case Other(_, _) => false
  }

  /** Static types, as the compiler of the predicate language assigns them. */
  function TypeOf(e: Pred, p: Prepared): Option<SymbolType>
    requires Text(e, p).Some? && Bound(e, p)
  {
    match e
    case Literal(kind, value) =>
      (match value
       case JBool(_) => Some(TBool)
       case JInt(i) =>
         if kind == "uint256" then (if i < WORD then Some(TUint256) else None)
         else if -HALF <= i < HALF then Some(TInt256)
         else None
       case JText(_) => Some(if kind == "address" then TAddress else TBytes32)
       case JOther => None)
    case Symbol(id, state) => DeclaredType(BindingFor(p.bindings, id, state).value.symbolType)
    case Unary(op, operand) =>
      (match TypeOf(operand, p)
       case None => None
       case Some(t) => PrefixType(op, t))
    case Binary(op, left, right) =>
      match (TypeOf(left, p), TypeOf(right, p))
      case (Some(l), Some(r)) =>
        if IsConnective(op) then (if l == TBool && r == TBool then Some(TBool) else None)
        else InfixType(BinaryOp(op).value, l, r)
      case _ => None
  }

  // ---------------------------------------------------------------- constants

  /** Numeric literals have no type of their own in Solidity until an operand beside them gives them one, and
      neither has an operator on nothing but literals, unless it compares them. */
  predicate IsConst(e: Pred) {
    match e
    case Literal(kind, value) => value.JInt? || (value.JText? && kind == "bytes32")
    case Unary(op, operand) => op != "not" && IsConst(operand)
    case Binary(op, left, right) => !IsConnective(op) && !IsComparison(op) && IsConst(left) && IsConst(right)
    case _ => false
  }

  // ---------------------------------------------------------------- assumptions on the states

  /** A binding whose emitted read fits the layout: a full-word or low-end value sits at offset 0, a bool
      byte is zero or odd, slot and word are 256-bit numbers, and a getter returns the declared type. */
  ghost predicate Readable(b: Binding, p: Prepared, s: State)
    requires ValueText(b, p).Some?
  {
    if b.getter.Some? && b.getter.value != "" then
      var v := s.get(Target(b, p), GetterName(b.getter.value).value);
      v.Some? ==> TypeOfVal(v.value) == DeclaredType(b.symbolType).value && InRange(v.value)
    else
      && b.slot.value < WORD && s.load(Target(b, p), b.slot.value) < WORD
      && DecodesAt(DeclaredType(b.symbolType).value, s.load(Target(b, p), b.slot.value), b.offset)
  }

  ghost predicate DecodesAt(t: SymbolType, word: nat, offset: nat) {
    if t == TBool then var byte := ShiftDown(word, offset * 8) % 256; byte == 0 || byte % 2 == 1
    else offset == 0
  }

  /** The text given to the evaluator is some spelling of the value. */
  ghost predicate Spelled(id: string, r: Result<Val>, s: State) {
    match r
    case Ok(VAddress(a)) => IsHexText(s.text(id, a), 40) && HexValue(Digits(s.text(id, a))) == a
    case Ok(VBytes(w)) => IsHexText(s.text(id, w), 64) && HexValue(Digits(s.text(id, w))) == w
    case _ => true
  }

  ghost predicate ReadableAll(e: Pred, p: Prepared, pre: State, post: State)
    requires Text(e, p).Some? && Bound(e, p)
  {
    match e
    case Literal(_, _) => true
    case Symbol(id, state) =>
      var b, s := BindingFor(p.bindings, id, state).value, if state == "pre" then pre else post;
      Readable(b, p, s) && Spelled(id, SymbolValue(b, p, s), s)
    case Unary(_, operand) => ReadableAll(operand, p, pre, post)
    case Binary(_, left, right) => ReadableAll(left, p, pre, post) && ReadableAll(right, p, pre, post)
  }

  /** The declared variables hold the values the pre-state symbols had before the workflow. */
  ghost predicate Captured(e: Pred, p: Prepared, pre: State, locals: map<string, Val>)
    requires Text(e, p).Some? && Bound(e, p)
  {
    match e
    case Literal(_, _) => true
    case Symbol(id, state) =>
      state == "pre" ==>
        && PreName(id, p) in locals
        && SymbolValue(BindingFor(p.bindings, id, "pre").value, p, pre) == Ok(locals[PreName(id, p)])
    case Unary(_, operand) => Captured(operand, p, pre, locals)
    case Binary(_, left, right) => Captured(left, p, pre, locals) && Captured(right, p, pre, locals)
  }

  ghost predicate PoolsVisible(locals: map<string, Val>) {
    "sourcePool" !in locals && "destinationPool" !in locals
  }

  // ---------------------------------------------------------------- storage reads

  /** The value the emitted storage read computes: bool at its byte offset, everything else from the low end. */
  function ReadBack(t: SymbolType, word: nat, offset: nat): Val {
    match t
    case TBool => VBool(ShiftDown(word, offset * 8) % 2 != 0)
    case TUint256 => VUint(word)
    case TInt256 => VInt(ToSigned(word))
    case TAddress => VAddress(Low160(word))
    case TBytes32 => VBytes(word)
  }

  lemma LoadEvaluates(target: string, slot: nat, locals: map<string, Val>, s: State)
    requires IsPool(target) && PoolsVisible(locals) && slot < WORD
    ensures EvalSol(locals, s, LoadTree(target, slot)) == Ok(Typed(VBytes(s.load(target, slot))))
  {
    assert EvalSol(locals, s, Var(target)) == Ok(Contract(target));
    assert EvalSol(locals, s, CallTree("address", Var(target))) == Ok(ContractAddress(target));
    assert EvalSol(locals, s, NumLit(slot)) == Ok(Rational(slot, 1));
    assert EvalSol(locals, s, CallTree("uint256", NumLit(slot))) == Ok(Typed(VUint(slot)));
    assert EvalSol(locals, s, CallTree("bytes32", CallTree("uint256", NumLit(slot)))) == Ok(Typed(VBytes(slot)));
  }

  lemma StorageEvaluates(t: SymbolType, target: string, slot: nat, offset: nat, locals: map<string, Val>, s: State)
    requires IsPool(target) && PoolsVisible(locals) && slot < WORD && offset <= 31
    ensures EvalSol(locals, s, StorageTree(t, target, slot, offset)) == Ok(Typed(ReadBack(t, s.load(target, slot), offset)))
  {
    var raw, word := LoadTree(target, slot), s.load(target, slot);
    LoadEvaluates(target, slot, locals, s);
    assert EvalSol(locals, s, CallTree("uint256", raw)) == Ok(Typed(VUint(word)));
    match t
    case TBool =>
      BoolEvaluates(CallTree("uint256", raw), word, offset, locals, s);
    case TUint256 =>
    case TInt256 =>
    case TAddress =>
      assert EvalSol(locals, s, CallTree("uint160", CallTree("uint256", raw))) == Ok(Uint160(Low160(word)));
    case TBytes32 =>
  }

  lemma BoolEvaluates(e: Sol, word: nat, offset: nat, locals: map<string, Val>, s: State)
    requires EvalSol(locals, s, e) == Ok(Typed(VUint(word))) && offset <= 31
    ensures EvalSol(locals, s, Infix(NotEq, Infix(Amp, Infix(Shr, e, NumLit(offset * 8)), NumLit(1)), NumLit(0)))
         == Ok(Typed(VBool(ShiftDown(word, offset * 8) % 2 != 0)))
  {
    hide ShiftDown, ApplySol, EvalSol;
    var shifted := ShiftDown(word, offset * 8);
    BesideNumber(Shr, e, VUint(word), offset * 8, locals, s);
    ShiftByConst(word, offset * 8);
    BesideNumber(Amp, Infix(Shr, e, NumLit(offset * 8)), VUint(shifted), 1, locals, s);
    MaskByConst(shifted);
    BesideNumber(NotEq, Infix(Amp, Infix(Shr, e, NumLit(offset * 8)), NumLit(1)), VUint(shifted % 2), 0, locals, s);
    CompareWithConst(shifted % 2);
  }

  lemma BesideNumber(op: Sign, e: Sol, v: Val, n: nat, locals: map<string, Val>, s: State)
    requires EvalSol(locals, s, e) == Ok(Typed(v)) && op != AndAnd && op != OrOr
    ensures EvalSol(locals, s, Infix(op, e, NumLit(n))) == ApplySol(op, Typed(v), Rational(n, 1))
  {
    hide ApplySol;
    assert EvalSol(locals, s, NumLit(n)) == Ok(Rational(n, 1));
  }

  lemma ShiftByConst(word: nat, k: nat)
    requires k < WORD
    ensures ApplySol(Shr, Typed(VUint(word)), Rational(k, 1)) == Ok(Typed(VUint(ShiftDown(word, k))))
  {
    hide ShiftDown, Bits;
  }

  lemma MaskByConst(word: nat)
    ensures ApplySol(Amp, Typed(VUint(word)), Rational(1, 1)) == Ok(Typed(VUint(word % 2)))
  {
    hide Bits;
    MaskOne(word);
  }

  lemma CompareWithConst(n: nat)
    ensures ApplySol(NotEq, Typed(VUint(n)), Rational(0, 1)) == Ok(Typed(VBool(n != 0)))
  {
    hide Bits;
  }

  /** Exactly when an emitted storage read agrees with the storage layout. */
  lemma ReadBackAgreesExactly(t: SymbolType, word: nat, offset: nat)
    ensures t == TBool ==> (ReadBack(t, word, offset) == Decode(t, word, offset) <==> DecodesAt(t, word, offset))
    ensures t != TBool && offset == 0 ==> ReadBack(t, word, offset) == Decode(t, word, offset)
  {
    hide ShiftDown;
    var shifted := ShiftDown(word, offset * 8);
    assert shifted % 2 == (shifted % 256) % 2;
    if offset == 0 {
      NoShift(word);
    }
  }

  lemma NoShift(word: nat)
    ensures ShiftDown(word, 0) == word
  {
  }

  lemma {:induction false} ShiftsZero(k: nat)
    ensures ShiftDown(0, k) == 0
  {
    if k > 0 {
      ShiftsZero(k - 1);
    }
  }

  lemma ShiftsOneOut(k: nat)
    requires k > 0
    ensures ShiftDown(1, k) == 0
  {
    ShiftsZero(k - 1);
  }

  /** Only offset 0 is right for every word: types other than bool assume it. */
  lemma OffsetMustBeZero(t: SymbolType, offset: nat)
    requires t != TBool
    ensures (forall word: nat :: ReadBack(t, word, offset) == Decode(t, word, offset)) <==> offset == 0
  {
    hide ShiftDown;
    if offset == 0 {
      forall word: nat ensures ReadBack(t, word, offset) == Decode(t, word, offset) {
        ReadBackAgreesExactly(t, word, offset);
      }
    } else {
      ShiftsOneOut(offset * 8);
      assert ReadBack(t, 1, offset) != Decode(t, 1, offset);
    }
  }

  lemma ValueEvaluates(b: Binding, p: Prepared, locals: map<string, Val>, s: State)
    requires ValueText(b, p).Some? && Readable(b, p, s) && PoolsVisible(locals)
    ensures EvalSol(locals, s, ValueTree(b, p)) == Wrap(SymbolValue(b, p, s))
    ensures Fits(SymbolValue(b, p, s), DeclaredType(b.symbolType).value)
  {
    var target := Target(b, p);
    if b.getter.Some? && b.getter.value != "" {
      assert EvalSol(locals, s, Var(target)) == Ok(Contract(target));
    } else {
      var t := DeclaredType(b.symbolType).value;
      StorageEvaluates(t, target, b.slot.value, b.offset, locals, s);
      ReadBackAgreesExactly(t, s.load(target, b.slot.value), b.offset);
    }
  }

  // ---------------------------------------------------------------- types are sound

  ghost predicate Fits(r: Result<Val>, t: SymbolType) {
    r.Reverts? || (r.Ok? && TypeOfVal(r.value) == t && InRange(r.value))
  }

  ghost predicate XFits(r: Result<XVal>, t: SymbolType) {
    r.Reverts? || (r.Ok? && TypeOfVal(ValOf(r.value)) == t && Proper(r.value))
  }

  /** The right operand is evaluated at all. */
  predicate Reached(e: Pred, p: Prepared, pre: State, post: State)
    requires e.Binary? && Text(e, p).Some? && Bound(e, p)
  {
    Eval(e.left, p, pre, post).Ok? && !Decides(e.op, Eval(e.left, p, pre, post).value)
  }

  /** No negative int256 is shifted right by nothing: there the evaluator's result is no int256. */
  ghost predicate StaysTyped(e: Pred, p: Prepared, pre: State, post: State)
    requires Text(e, p).Some? && Bound(e, p)
  {
    match e
    case Literal(_, _) => true
    case Symbol(_, _) => true
    case Unary(_, operand) => StaysTyped(operand, p, pre, post)
    case Binary(op, left, right) =>
      && StaysTyped(left, p, pre, post)
      && (Reached(e, p, pre, post) ==>
            && StaysTyped(right, p, pre, post)
            && (!IsConnective(op) && Eval(right, p, pre, post).Ok? ==>
                  !LeavesType(op, Eval(left, p, pre, post).value, Eval(right, p, pre, post).value)))
  }

  /** What a well-typed predicate evaluates to: a value of its type, or an error. */
  lemma {:induction false} EvalFits(e: Pred, p: Prepared, pre: State, post: State)
    requires Text(e, p).Some? && Bound(e, p) && TypeOf(e, p).Some? && ReadableAll(e, p, pre, post)
    requires StaysTyped(e, p, pre, post)
    ensures XFits(Eval(e, p, pre, post), TypeOf(e, p).value)
    decreases e
  {
    hide Apply, XlirBinary, XlirUnary, BinaryOp, ValueText, SymbolValue, Readable, LiteralText, InfixType, Observed, LeavesType, HexValue;
    match e
    case Literal(kind, value) => LiteralFits(kind, value, e, p);
    case Symbol(id, state) =>
      SymbolFits(e, p, pre, post);
    case Unary(op, operand) =>
      EvalFits(operand, p, pre, post);
      if Eval(operand, p, pre, post).Ok? {
        PrefixFits(op, Eval(operand, p, pre, post).value);
      }
    case Binary(op, left, right) =>
      EvalFits(left, p, pre, post);
      if Reached(e, p, pre, post) {
        EvalFits(right, p, pre, post);
        var l, r := Eval(left, p, pre, post), Eval(right, p, pre, post);
        if !IsConnective(op) && r.Ok? {
          ResultFitsExactly(op, l.value, r.value);
        }
      }
  }

  lemma SymbolFits(e: Pred, p: Prepared, pre: State, post: State)
    requires e.Symbol? && Text(e, p).Some? && Bound(e, p) && TypeOf(e, p).Some? && ReadableAll(e, p, pre, post)
    ensures XFits(Eval(e, p, pre, post), TypeOf(e, p).value)
    ensures var b, s := BindingFor(p.bindings, e.id, e.state).value, if e.state == "pre" then pre else post;
            match SymbolValue(b, p, s)
            case Ok(v) => Eval(e, p, pre, post).Ok? && ValOf(Eval(e, p, pre, post).value) == v
            case r => Eval(e, p, pre, post).Reverts?
  {
    hide ValueText, SymbolValue, Readable, HexValue;
    var b, s := BindingFor(p.bindings, e.id, e.state).value, if e.state == "pre" then pre else post;
    ValueEvaluates(b, p, map[], s);
  }

  lemma LiteralFits(kind: string, value: LitValue, e: Pred, p: Prepared)
    requires e == Literal(kind, value) && Text(e, p).Some? && TypeOf(e, p).Some?
    ensures XFits(Ok(LiteralValue(kind, value)), TypeOf(e, p).value)
  {
    hide HexValue;
  }

  // ---------------------------------------------------------------- where lowering keeps the meaning

  /** The exact conditions on the operators, at every operator whose operands are evaluated. An operand that is
      not reached still has to compile, and so does the spelling of an address. */
  ghost predicate Agrees(e: Pred, p: Prepared, pre: State, post: State, locals: map<string, Val>)
    requires Text(e, p).Some? && Bound(e, p)
  {
    match e
    case Literal(kind, value) => value.JText? && kind == "address" ==> post.checksummed(Digits(value.s))
    case Symbol(_, _) => true
    case Unary(op, operand) =>
      && Agrees(operand, p, pre, post, locals)
      && (Eval(operand, p, pre, post).Ok? ==> UnaryMeets(op, IsConst(operand), Eval(operand, p, pre, post).value))
    case Binary(op, left, right) =>
      && Agrees(left, p, pre, post, locals)
      && if Reached(e, p, pre, post) then
           && Agrees(right, p, pre, post, locals)
           && (!IsConnective(op) && Eval(right, p, pre, post).Ok? ==>
                 Meets(op, IsConst(left), IsConst(right), Eval(left, p, pre, post).value, Eval(right, p, pre, post).value))
         else Compiles(EvalSol(locals, post, Tree(right, p)), IsConnective(op))
  }

  ghost predicate Compiles(r: Result<SolVal>, truth: bool) {
    !r.IllTyped? && (truth && r.Ok? ==> r.value.Typed? && r.value.v.VBool?)
  }

  lemma {:induction false} AgreesStaysTyped(e: Pred, p: Prepared, pre: State, post: State, locals: map<string, Val>)
    requires Text(e, p).Some? && Bound(e, p) && TypeOf(e, p).Some? && ReadableAll(e, p, pre, post) && Agrees(e, p, pre, post, locals)
    ensures StaysTyped(e, p, pre, post)
    decreases e
  {
    hide ValueText, SymbolValue, Readable, LiteralText, InfixType, Tree, EvalSol, Eval, Reached;
    match e
    case Literal(_, _) =>
    case Symbol(_, _) =>
    case Unary(_, operand) => AgreesStaysTyped(operand, p, pre, post, locals);
    case Binary(op, left, right) =>
      AgreesStaysTyped(left, p, pre, post, locals);
      if Reached(e, p, pre, post) {
        AgreesStaysTyped(right, p, pre, post, locals);
        if !IsConnective(op) && Eval(right, p, pre, post).Ok? && Eval(left, p, pre, post).Ok? {
          MeetsStaysTyped(op, IsConst(left), IsConst(right), Eval(left, p, pre, post).value, Eval(right, p, pre, post).value);
        }
      }
  }

  lemma MeetsStaysTyped(op: string, lc: bool, rc: bool, l: XVal, r: XVal)
    requires Meets(op, lc, rc, l, r)
    ensures !LeavesType(op, l, r)
  {
  }

  // ---------------------------------------------------------------- main results

  /** The intended tree, evaluated by Solidity's rules in the state after the workflow with the captured
      variables at hand, gives the predicate's own value and reverts where its evaluator fails. */
  lemma {:induction false} TreePreservesMeaning(e: Pred, p: Prepared, pre: State, post: State, locals: map<string, Val>)
    requires Text(e, p).Some? && Bound(e, p) && TypeOf(e, p).Some?
    requires ReadableAll(e, p, pre, post) && Captured(e, p, pre, locals) && PoolsVisible(locals)
    requires Agrees(e, p, pre, post, locals)
    ensures Matches(EvalSol(locals, post, Tree(e, p)), Eval(e, p, pre, post), IsConst(e))
    ensures XFits(Eval(e, p, pre, post), TypeOf(e, p).value)
    decreases e
  {
    hide Apply, ApplySol, PrefixSol, XlirBinary, XlirUnary, ValueText, SymbolValue, Readable, LiteralText, InfixType, ValueTree,
         LiteralTree, LiteralValue, HexValue, Meets, UnaryMeets, Observed;
    AgreesStaysTyped(e, p, pre, post, locals);
    EvalFits(e, p, pre, post);
    match e
    case Literal(kind, value) =>
      LiteralPreserved(e, p, locals, post);
    case Symbol(id, state) =>
      SymbolFits(e, p, pre, post);
      if state == "post" {
        ValueEvaluates(BindingFor(p.bindings, id, state).value, p, locals, post);
      }
    case Unary(op, operand) =>
      TreePreservesMeaning(operand, p, pre, post, locals);
      PrefixPreserved(e, p, pre, post, locals);
    case Binary(op, left, right) =>
      TreePreservesMeaning(left, p, pre, post, locals);
      if Reached(e, p, pre, post) {
        TreePreservesMeaning(right, p, pre, post, locals);
      }
      if IsConnective(op) {
        ConnectivePreserved(e, p, pre, post, locals);
      } else {
        InfixPreserved(e, p, pre, post, locals);
      }
  }

  lemma LiteralPreserved(e: Pred, p: Prepared, locals: map<string, Val>, post: State)
    requires e.Literal? && Text(e, p).Some? && TypeOf(e, p).Some?
    requires e.value.JText? && e.kind == "address" ==> post.checksummed(Digits(e.value.s))
    ensures Matches(EvalSol(locals, post, Tree(e, p)), Ok(LiteralValue(e.kind, e.value)), IsConst(e))
  {
    hide HexValue;
    match e.value
    case JBool(_) =>
    case JInt(i) => NumberEvaluates(locals, post, i);
    case JText(s) =>
      HexLiteralEvaluates(locals, post, s[2..]);
      ProperInRange(LiteralValue(e.kind, e.value));
  }

  lemma NumberEvaluates(locals: map<string, Val>, s: State, i: int)
    ensures i >= 0 ==> EvalSol(locals, s, NumLit(i)) == Ok(Rational(i, 1))
    ensures i < 0 ==> EvalSol(locals, s, Prefix(Minus, NumLit(-i))) == Ok(Rational(i, 1))
  {
    if i < 0 {
      assert EvalSol(locals, s, NumLit(-i)) == Ok(Rational(-i, 1));
    }
  }

  lemma HexLiteralEvaluates(locals: map<string, Val>, s: State, digits: string)
    ensures |digits| == 64 ==> EvalSol(locals, s, HexLit(digits)) == Ok(HexWord(HexValue(digits)))
    ensures |digits| == 40 && s.checksummed(digits) ==> EvalSol(locals, s, HexLit(digits)) == Ok(HexAddress(HexValue(digits)))
  {
  }

  lemma PrefixPreserved(e: Pred, p: Prepared, pre: State, post: State, locals: map<string, Val>)
    requires e.Unary? && Text(e, p).Some? && Bound(e, p) && TypeOf(e, p).Some?
    requires XFits(Eval(e.operand, p, pre, post), TypeOf(e.operand, p).value)
    requires Matches(EvalSol(locals, post, Tree(e.operand, p)), Eval(e.operand, p, pre, post), IsConst(e.operand))
    requires Eval(e.operand, p, pre, post).Ok? ==> UnaryMeets(e.op, IsConst(e.operand), Eval(e.operand, p, pre, post).value)
    ensures Matches(EvalSol(locals, post, Tree(e, p)), Eval(e, p, pre, post), IsConst(e))
  {
    hide PrefixSol, XlirUnary, LiteralText, ValueText, LiteralTree, ValueTree, UnaryMeets, InfixType, SymbolValue, LiteralValue, HexValue;
    var x := Eval(e.operand, p, pre, post);
    if x.Ok? {
      PrefixAgreesExactly(e.op, IsConst(e.operand), EvalSol(locals, post, Tree(e.operand, p)).value, x.value);
      if e.op == "not" {
        TruthIsNoConst(e.operand, p);
      }
    }
  }

  /** A boolean is never a constant in this sense. */
  lemma TruthIsNoConst(e: Pred, p: Prepared)
    requires Text(e, p).Some? && Bound(e, p) && TypeOf(e, p) == Some(TBool)
    ensures !IsConst(e)
  {
    hide BinaryOp, ValueText, LiteralText, IsComparison;
    if e.Binary? && !IsConnective(e.op) {
      ComparisonNames(e.op);
    }
  }

  lemma ComparisonNames(op: string)
    requires BinaryOp(op).Some? && !IsConnective(op)
    ensures IsComparison(op) <==> IsEquality(BinaryOp(op).value) || IsOrder(BinaryOp(op).value)
  {
  }

  lemma ConnectivePreserved(e: Pred, p: Prepared, pre: State, post: State, locals: map<string, Val>)
    requires e.Binary? && IsConnective(e.op)
    requires Text(e, p).Some? && Bound(e, p) && TypeOf(e, p).Some?
    requires XFits(Eval(e.left, p, pre, post), TBool)
    requires Matches(EvalSol(locals, post, Tree(e.left, p)), Eval(e.left, p, pre, post), IsConst(e.left))
    requires if Reached(e, p, pre, post) then
               XFits(Eval(e.right, p, pre, post), TBool)
               && Matches(EvalSol(locals, post, Tree(e.right, p)), Eval(e.right, p, pre, post), IsConst(e.right))
             else Compiles(EvalSol(locals, post, Tree(e.right, p)), true)
    ensures Matches(EvalSol(locals, post, Tree(e, p)), Eval(e, p, pre, post), IsConst(e))
  {
    hide ApplySol, LiteralText, ValueText, InfixType, EvalSol, Tree, BinaryOp, Apply, IsConst;
    var l, r := Eval(e.left, p, pre, post), EvalSol(locals, post, Tree(e.right, p));
    var lt, rt := Tree(e.left, p), Tree(e.right, p);
    ConnectiveTree(e, p);
    TruthIsNoConst(e.left, p);
    TruthIsNoConst(e.right, p);
    TruthIsNoConst(e, p);
    assert EvalSol(locals, post, lt) == if l.Ok? then Ok(Typed(l.value.v)) else Reverts;
    if e.op == "implies" {
      NegationEvaluates(lt, l, locals, post);
      ConnectiveEvaluates(OrOr, Prefix(Bang, lt), rt, if l.Ok? then Ok(Plain(VBool(!l.value.v.b))) else Reverts, locals, post);
    } else {
      ConnectiveEvaluates(if e.op == "and" then AndAnd else OrOr, lt, rt, l, locals, post);
    }
  }

  lemma ConnectiveTree(e: Pred, p: Prepared)
    requires e.Binary? && IsConnective(e.op) && Text(e, p).Some?
    ensures Tree(e, p) == if e.op == "implies" then Infix(OrOr, Prefix(Bang, Tree(e.left, p)), Tree(e.right, p))
                          else Infix(if e.op == "and" then AndAnd else OrOr, Tree(e.left, p), Tree(e.right, p))
  {
  }

  lemma NegationEvaluates(e: Sol, x: Result<XVal>, locals: map<string, Val>, s: State)
    requires XFits(x, TBool) && EvalSol(locals, s, e) == if x.Ok? then Ok(Typed(x.value.v)) else Reverts
    ensures EvalSol(locals, s, Prefix(Bang, e)) == if x.Ok? then Ok(Typed(VBool(!x.value.v.b))) else Reverts
  {
  }

  /** The two short-circuiting operators of Solidity. */
  lemma ConnectiveEvaluates(op: Sign, a: Sol, b: Sol, x: Result<XVal>, locals: map<string, Val>, s: State)
    requires op == AndAnd || op == OrOr
    requires XFits(x, TBool) && EvalSol(locals, s, a) == if x.Ok? then Ok(Typed(x.value.v)) else Reverts
    requires Compiles(EvalSol(locals, s, b), true)
    ensures EvalSol(locals, s, Infix(op, a, b))
         == if x.Ok? && x.value.v == VBool(op == AndAnd) then EvalSol(locals, s, b) else EvalSol(locals, s, a)
  {
    hide ApplySol;
  }

  lemma InfixPreserved(e: Pred, p: Prepared, pre: State, post: State, locals: map<string, Val>)
    requires e.Binary? && !IsConnective(e.op)
    requires Text(e, p).Some? && Bound(e, p) && TypeOf(e, p).Some?
    requires XFits(Eval(e.left, p, pre, post), TypeOf(e.left, p).value)
    requires Matches(EvalSol(locals, post, Tree(e.left, p)), Eval(e.left, p, pre, post), IsConst(e.left))
    requires if Eval(e.left, p, pre, post).Ok? then
               && XFits(Eval(e.right, p, pre, post), TypeOf(e.right, p).value)
               && Matches(EvalSol(locals, post, Tree(e.right, p)), Eval(e.right, p, pre, post), IsConst(e.right))
               && (Eval(e.right, p, pre, post).Ok? ==>
                     Meets(e.op, IsConst(e.left), IsConst(e.right), Eval(e.left, p, pre, post).value, Eval(e.right, p, pre, post).value))
             else Compiles(EvalSol(locals, post, Tree(e.right, p)), false)
    ensures Matches(EvalSol(locals, post, Tree(e, p)), Eval(e, p, pre, post), IsConst(e))
  {
    hide Apply, ApplySol, XlirBinary, Meets, LiteralText, ValueText, InfixType, LiteralTree, ValueTree, SymbolValue, LiteralValue, HexValue;
    var l, r := Eval(e.left, p, pre, post), Eval(e.right, p, pre, post);
    OperatorNames(e.op);
    if l.Ok? && r.Ok? {
      OperatorAgreesExactly(e.op, IsConst(e.left), IsConst(e.right), EvalSol(locals, post, Tree(e.left, p)).value,
                            EvalSol(locals, post, Tree(e.right, p)).value, l.value, r.value);
    }
  }

  lemma OperatorNames(op: string)
    requires BinaryOp(op).Some? && !IsConnective(op)
    ensures var s := BinaryOp(op).value;
            s != AndAnd && s != OrOr && (IsShift(s) <==> op == "shl" || op == "shr")
  {
  }

  // ---------------------------------------------------------------- a condition that can be read off

  /** No operator works on literals alone, a shifted literal is unsigned, and nothing signed is shifted right. */
  predicate Grounded(e: Pred, p: Prepared)
    requires Text(e, p).Some? && Bound(e, p)
  {
    match e
    case Literal(_, _) => true
    case Symbol(_, _) => true
    case Unary(_, operand) => Grounded(operand, p) && !IsConst(operand)
    case Binary(op, left, right) =>
      && Grounded(left, p) && Grounded(right, p)
      && !(IsConst(left) && IsConst(right))
      && (op == "shr" || (op == "shl" && IsConst(left)) ==> TypeOf(left, p) != Some(TInt256))
  }

  ghost predicate SpellingsCompile(e: Pred, post: State) {
    match e
    case Literal(kind, value) => value.JText? && kind == "address" ==> post.checksummed(Digits(value.s))
    case Unary(_, operand) => SpellingsCompile(operand, post)
    case Binary(_, left, right) => SpellingsCompile(left, post) && SpellingsCompile(right, post)
    case _ => true
  }

  /** Every address and word, written in the predicate or given to the evaluator, has the one spelling `canon`
      gives it: all in lower case, say, or with the checksum. */
  ghost predicate SpelledBy(canon: Val -> string, e: Pred, p: Prepared, pre: State, post: State)
    requires Text(e, p).Some? && Bound(e, p)
  {
    match e
    case Literal(_, _) => HexSpelledBy(canon, Eval(e, p, pre, post))
    case Symbol(_, _) => HexSpelledBy(canon, Eval(e, p, pre, post))
    case Unary(_, operand) => SpelledBy(canon, operand, p, pre, post)
    case Binary(_, left, right) => SpelledBy(canon, left, p, pre, post) && SpelledBy(canon, right, p, pre, post)
  }

  ghost predicate HexSpelledBy(canon: Val -> string, x: Result<XVal>) {
    x.Ok? && x.value.Hex? ==> x.value.text == canon(ValOf(x.value))
  }

  /** A predicate that passes these checks keeps its meaning in every state. */
  lemma {:induction false} GroundedAgrees(e: Pred, p: Prepared, pre: State, post: State, locals: map<string, Val>, canon: Val -> string)
    requires Text(e, p).Some? && Bound(e, p) && TypeOf(e, p).Some?
    requires ReadableAll(e, p, pre, post) && Captured(e, p, pre, locals) && PoolsVisible(locals)
    requires Grounded(e, p) && SpellingsCompile(e, post) && SpelledBy(canon, e, p, pre, post)
    ensures Agrees(e, p, pre, post, locals)
    decreases e
  {
    hide ValueText, SymbolValue, Readable, LiteralText, InfixType, Tree, EvalSol, Eval, Meets, ReadableAll, Captured, HexValue;
    match e
    case Literal(_, _) =>
    case Symbol(_, _) =>
    case Unary(op, operand) =>
      PartsGrounded(e, p, pre, post, locals);
      GroundedAgrees(operand, p, pre, post, locals, canon);
    case Binary(op, left, right) =>
      PartsGrounded(e, p, pre, post, locals);
      GroundedAgrees(left, p, pre, post, locals, canon);
      GroundedAgrees(right, p, pre, post, locals, canon);
      TreePreservesMeaning(left, p, pre, post, locals);
      TreePreservesMeaning(right, p, pre, post, locals);
      if IsConnective(op) {
        TruthIsNoConst(right, p);
      } else if Eval(left, p, pre, post).Ok? && Eval(right, p, pre, post).Ok? {
        GroundedMeets(e, p, pre, post, canon);
      }
  }

  lemma PartsGrounded(e: Pred, p: Prepared, pre: State, post: State, locals: map<string, Val>)
    requires Text(e, p).Some? && Bound(e, p) && TypeOf(e, p).Some?
    requires ReadableAll(e, p, pre, post) && Captured(e, p, pre, locals)
    ensures e.Unary? ==> TypeOf(e.operand, p).Some? && ReadableAll(e.operand, p, pre, post) && Captured(e.operand, p, pre, locals)
    ensures e.Binary? ==>
              && TypeOf(e.left, p).Some? && ReadableAll(e.left, p, pre, post) && Captured(e.left, p, pre, locals)
              && TypeOf(e.right, p).Some? && ReadableAll(e.right, p, pre, post) && Captured(e.right, p, pre, locals)
              && (IsConnective(e.op) ==> TypeOf(e.left, p) == Some(TBool) && TypeOf(e.right, p) == Some(TBool))
  {
    hide ValueText, SymbolValue, Readable, LiteralText, InfixType;
  }

  lemma GroundedMeets(e: Pred, p: Prepared, pre: State, post: State, canon: Val -> string)
    requires e.Binary? && !IsConnective(e.op) && Text(e, p).Some? && Bound(e, p) && TypeOf(e, p).Some?
    requires Grounded(e, p) && SpelledBy(canon, e, p, pre, post)
    requires TypeOf(e.left, p).Some? && TypeOf(e.right, p).Some?
    requires XFits(Eval(e.left, p, pre, post), TypeOf(e.left, p).value) && XFits(Eval(e.right, p, pre, post), TypeOf(e.right, p).value)
    requires Eval(e.left, p, pre, post).Ok? && Eval(e.right, p, pre, post).Ok?
    ensures Meets(e.op, IsConst(e.left), IsConst(e.right), Eval(e.left, p, pre, post).value, Eval(e.right, p, pre, post).value)
  {
    hide ValueText, SymbolValue, Readable, LiteralText, InfixType, HexValue, Eval;
    var l, r := Eval(e.left, p, pre, post).value, Eval(e.right, p, pre, post).value;
    if l.Hex? && r.Hex? {
      HexIsSpelled(e.left, p, pre, post, canon);
      HexIsSpelled(e.right, p, pre, post, canon);
      assert Text(e, p).Some? ==> BinaryOp(e.op).Some?;
      SameKind(e, p);
    }
  }

  lemma SameKind(e: Pred, p: Prepared)
    requires e.Binary? && !IsConnective(e.op) && Text(e, p).Some? && Bound(e, p) && TypeOf(e, p).Some?
    ensures TypeOf(e.left, p) == Some(TAddress) ==> TypeOf(e.right, p) == Some(TAddress)
    ensures TypeOf(e.left, p) == Some(TBytes32) ==> TypeOf(e.right, p) == Some(TBytes32)
  {
    hide LiteralText, ValueText;
  }

  /** Addresses and words come from literals and symbols only. */
  lemma HexIsSpelled(e: Pred, p: Prepared, pre: State, post: State, canon: Val -> string)
    requires Text(e, p).Some? && Bound(e, p) && SpelledBy(canon, e, p, pre, post)
    requires Eval(e, p, pre, post).Ok? && Eval(e, p, pre, post).value.Hex?
    ensures var x := Eval(e, p, pre, post).value; x.text == canon(ValOf(x))
  {
    hide ValueText, SymbolValue, LiteralText, HexValue, PlainBinary, PlainUnary, LiteralValue, Observed, BindingFor;
    match e
    case Unary(op, operand) =>
    case Binary(op, left, right) =>
      if !IsConnective(op) && Eval(left, p, pre, post).Ok? && Eval(right, p, pre, post).Ok? {
        NeverHex(op, Eval(left, p, pre, post).value, Eval(right, p, pre, post).value);
      }
    case _ =>
  }

  lemma NeverHex(op: string, l: XVal, r: XVal)
    ensures XlirBinary(op, l, r).Ok? ==> XlirBinary(op, l, r).value.Plain?
  {
    hide PlainBinary;
  }

  // ---------------------------------------------------------------- one such spelling: all in lower case

  predicate IsLowerDigit(c: char) {
    '0' <= c <= '9' || 'a' <= c <= 'f'
  }

  predicate IsLowerCase(s: string) {
    forall k :: 0 <= k < |s| ==> IsLowerDigit(s[k])
  }

  function LowerDigits(n: nat, width: nat): string {
    if width == 0 then "" else LowerDigits(n / 16, width - 1) + [LowerDigit(n % 16)]
  }

  function LowerSpelling(v: Val): string {
    match v
    case VAddress(a) => "0x" + LowerDigits(a, 40)
    case VBytes(w) => "0x" + LowerDigits(w, 64)
    case _ => ""
  }

  lemma {:induction false} LowerDigitsSpell(s: string)
    requires IsLowerCase(s)
    ensures LowerDigits(HexValue(s), |s|) == s
    decreases |s|
  {
    hide IsLowerDigit, HexDigit, LowerDigit;
    if s != "" {
      var front, c := s[..|s| - 1], s[|s| - 1];
      LowerDigitsSpell(front);
      DigitSpells(c);
      assert s == front + [c];
    }
  }

  lemma DigitSpells(c: char)
    requires IsLowerDigit(c)
    ensures HexDigit(c) < 16 && LowerDigit(HexDigit(c)) == c
  {
  }

  /** Whether a text is the lower-case spelling of its value can be read off it. */
  lemma LowerCaseIsOneSpelling(x: XVal)
    requires Proper(x) && x.Hex? && IsLowerCase(Digits(x.text))
    ensures x.text == LowerSpelling(ValOf(x))
  {
    LowerDigitsSpell(Digits(x.text));
    assert x.text == x.text[..2] + Digits(x.text);
    hide HexValue, LowerDigits;
  }

  // ---------------------------------------------------------------- which chain a symbol is read from

  /** A symbol of the destination domain is read from the destination pool, by the evaluator and by the emitted
      text, and a symbol of any other domain from the source pool; the text names no other pool. */
  lemma ReadsItsOwnChain(b: Binding, p: Prepared, locals: map<string, Val>, s: State)
    requires ValueText(b, p).Some? && Readable(b, p, s) && PoolsVisible(locals)
    ensures var pool := if b.domain == p.destination then "destinationPool" else "sourcePool";
            var other := if b.domain == p.destination then "sourcePool" else "destinationPool";
      && if b.getter.Some? && b.getter.value != "" then
           var name := GetterName(b.getter.value).value;
           var r := s.get(pool, name);
           && ValueText(b, p).value == [Ident(pool), Dot, Ident(name), LParen, RParen]
           && EvalSol(locals, s, ValueTree(b, p)) == (if r.Some? then Ok(Typed(r.value)) else Reverts)
           && SymbolValue(b, p, s) == (if r.Some? then Ok(r.value) else Reverts)
         else
           var t, word := DeclaredType(b.symbolType).value, s.load(pool, b.slot.value);
           && NamesOnly(ValueText(b, p).value, pool, other)
           && EvalSol(locals, s, ValueTree(b, p)) == Ok(Typed(ReadBack(t, word, b.offset)))
           && SymbolValue(b, p, s) == Ok(Decode(t, word, b.offset))
  {
    hide ReadBack, Decode, EvalSol, StorageText, StorageTree, DecodesAt;
    var pool := if b.domain == p.destination then "destinationPool" else "sourcePool";
    var other := if b.domain == p.destination then "sourcePool" else "destinationPool";
    if b.getter.Some? && b.getter.value != "" {
      GetterCallReads(pool, GetterName(b.getter.value).value, locals, s);
    } else {
      var t := DeclaredType(b.symbolType).value;
      StorageEvaluates(t, pool, b.slot.value, b.offset, locals, s);
      StorageNames(t, pool, other, b.slot.value, b.offset);
    }
  }

  ghost predicate NamesOnly(text: seq<Token>, pool: string, other: string) {
    Ident(pool) in text && Ident(other) !in text
  }

  lemma GetterCallReads(pool: string, name: string, locals: map<string, Val>, s: State)
    requires IsPool(pool) && PoolsVisible(locals)
    ensures EvalSol(locals, s, Call0(Member(Var(pool), name)))
         == if s.get(pool, name).Some? then Ok(Typed(s.get(pool, name).value)) else Reverts
  {
    assert EvalSol(locals, s, Var(pool)) == Ok(Contract(pool));
  }

  lemma CallNames(name: string, arg: seq<Token>, pool: string, other: string)
    requires NamesOnly(arg, pool, other) && name != other
    ensures NamesOnly(CallText(name, arg), pool, other)
  {
  }

  lemma MaskNames(word: seq<Token>, offset: nat, pool: string, other: string)
    requires NamesOnly(word, pool, other)
    ensures NamesOnly(Paren(Paren(word + [Op(Shr)] + [Number(offset * 8)]) + [Op(Amp)] + [Number(1)]) + [Op(NotEq)] + [Number(0)], pool, other)
  {
    var shifted := word + [Op(Shr)] + [Number(offset * 8)];
    assert NamesOnly(shifted, pool, other);
    assert NamesOnly(Paren(shifted), pool, other);
    var masked := Paren(shifted) + [Op(Amp)] + [Number(1)];
    assert NamesOnly(masked, pool, other);
    assert NamesOnly(Paren(masked), pool, other);
  }

  lemma StorageNames(t: SymbolType, pool: string, other: string, slot: nat, offset: nat)
    requires IsPool(pool) && IsPool(other) && pool != other
    ensures NamesOnly(StorageText(t, pool, slot, offset), pool, other)
  {
    hide LoadText, CallText, NamesOnly;
    var raw := LoadText(pool, slot);
    LoadNames(pool, other, slot);
    KeywordsAreNoPools(other);
    CallNames("bytes32", raw, pool, other);
    CallNames("uint256", raw, pool, other);
    CallNames("int256", CallText("uint256", raw), pool, other);
    CallNames("uint160", CallText("uint256", raw), pool, other);
    CallNames("address", CallText("uint160", CallText("uint256", raw)), pool, other);
    MaskNames(CallText("uint256", raw), offset, pool, other);
  }

  lemma LoadNames(pool: string, other: string, slot: nat)
    requires IsPool(pool) && IsPool(other) && pool != other
    ensures NamesOnly(LoadText(pool, slot), pool, other)
  {
    KeywordsAreNoPools(other);
    assert Ident(pool) in CallText("address", [Ident(pool)]);
  }

  lemma KeywordsAreNoPools(other: string)
    requires IsPool(other)
    ensures other != "address" && other != "bytes32" && other != "uint256" && other != "int256" && other != "uint160"
    ensures other != "crossllmVm" && other != "load"
  {
  }
}
