/** The generated candidate test as a whole: captures, workflow, and the final requirement. */
module Candidate {
  import opened Wrappers
  import opened Solidity
  import opened Evaluation
  import opened Lowering
  import opened Preservation
  import opened Xlir
  import opened Agreement

  /** Passes: the predicate is violated. Holds: reverted with the marker CANDIDATE_HOLDS. Fails: any other
      revert, or a test that does not compile. */
  datatype Outcome = Passes | Holds | Fails

  function PreIds(e: Pred): set<string> {
    match e
    case Literal(_, _) => {}
    case Symbol(id, state) => if state == "pre" then {id} else {}
    case Unary(_, operand) => PreIds(operand)
    case Binary(_, left, right) => PreIds(left) + PreIds(right)
    case Other(_, _) => {}
  }

  /** _expression and _pre_declarations both succeed. */
  predicate Accepted(e: Pred, p: Prepared) {
    Text(e, p).Some? && Bound(e, p)
  }

  ghost predicate Declarable(ids: seq<string>, p: Prepared) {
    forall id :: id in ids ==> BindingFor(p.bindings, id, "pre").Some? && ValueText(BindingFor(p.bindings, id, "pre").value, p).Some?
  }

  /** Runs `type name = value;` for each id in order, before the workflow. None: a revert, or a declaration
      that does not compile, such as a second one of the same name. */
  ghost function Capture(ids: seq<string>, p: Prepared, pre: State): Option<map<string, Val>>
    requires Declarable(ids, p)
  {
    if ids == [] then Some(map[])
    else
      var before, id := ids[..|ids| - 1], ids[|ids| - 1];
      match Capture(before, p, pre)
      case None => None
      case Some(locals) => Declare(locals, id, p, pre)
  }

  ghost function Declare(locals: map<string, Val>, id: string, p: Prepared, pre: State): Option<map<string, Val>>
    requires BindingFor(p.bindings, id, "pre").Some? && ValueText(BindingFor(p.bindings, id, "pre").value, p).Some?
  {
    var b := BindingFor(p.bindings, id, "pre").value;
    match Parse(ValueText(b, p).value)
    case None => None
    case Some(tree) =>
      match EvalSol(locals, pre, tree)
      case Ok(Typed(v)) =>
        if PreName(id, p) !in locals && TypeOfVal(v) == DeclaredType(b.symbolType).value then
          Some(locals[PreName(id, p) := v])
        else None
      case _ => None
  }

  /** The condition of the final require, `!(predicate)`. */
  function Condition(e: Pred, p: Prepared): seq<Token>
    requires Text(e, p).Some?
  {
    [Op(Bang)] + Paren(Text(e, p).value)
  }

  ghost function RunTest(e: Pred, ids: seq<string>, p: Prepared, pre: State, post: State): Outcome
    requires Text(e, p).Some? && Declarable(ids, p)
  {
    match Capture(ids, p, pre)
    case None => Fails
    case Some(locals) =>
      match Parse(Condition(e, p))
      case None => Fails
      case Some(tree) =>
        match EvalSol(locals, post, tree)
        case Ok(Typed(VBool(violated))) => if violated then Passes else Holds
        case _ => Fails
  }

  ghost predicate Distinct(ids: seq<string>, p: Prepared) {
    forall i, j :: 0 <= i < j < |ids| ==> PreName(ids[i], p) != PreName(ids[j], p)
  }

  ghost function PreValue(id: string, p: Prepared, pre: State): Result<Val>
    requires BindingFor(p.bindings, id, "pre").Some? && ValueText(BindingFor(p.bindings, id, "pre").value, p).Some?
  {
    SymbolValue(BindingFor(p.bindings, id, "pre").value, p, pre)
  }

  ghost predicate ReadableIds(ids: seq<string>, p: Prepared, pre: State)
    requires Declarable(ids, p)
  {
    forall id :: id in ids ==> Readable(BindingFor(p.bindings, id, "pre").value, p, pre)
  }

  /** Capturing succeeds exactly when no read reverts and no two shortened digests collide, and then every
      variable holds its symbol's value before the workflow. */
  lemma {:induction false} CaptureExactly(ids: seq<string>, p: Prepared, pre: State)
    requires Declarable(ids, p) && ReadableIds(ids, p, pre)
    ensures Capture(ids, p, pre).Some? <==> Distinct(ids, p) && forall id :: id in ids ==> PreValue(id, p, pre).Ok?
    ensures Capture(ids, p, pre).Some? ==>
      var locals := Capture(ids, p, pre).value;
      && (forall n :: n in locals <==> exists id :: id in ids && n == PreName(id, p))
      && (forall id :: id in ids ==> PreValue(id, p, pre) == Ok(locals[PreName(id, p)]))
    decreases |ids|
  {
    hide ValueText, SymbolValue, Readable, BindingFor, ValueTree, EvalSol, Parse, PreName;
    if ids != [] {
      var before, last := ids[..|ids| - 1], ids[|ids| - 1];
      assert forall id :: id in ids <==> id in before || id == last;
      CaptureExactly(before, p, pre);
      DistinctSplits(ids, p);
      if Capture(before, p, pre).Some? {
        var locals := Capture(before, p, pre).value;
        LocalsArePre(locals, before, p);
        DeclareExactly(locals, last, p, pre);
      }
    }
  }

  lemma DistinctSplits(ids: seq<string>, p: Prepared)
    requires ids != []
    ensures var before, last := ids[..|ids| - 1], ids[|ids| - 1];
            Distinct(ids, p) <==> Distinct(before, p) && forall id :: id in before ==> PreName(id, p) != PreName(last, p)
  {
    hide PreName;
  }

  lemma LocalsArePre(locals: map<string, Val>, ids: seq<string>, p: Prepared)
    requires forall n :: n in locals ==> exists id :: id in ids && n == PreName(id, p)
    ensures PoolsVisible(locals)
  {
    forall n | n in locals ensures !IsPool(n) {
      var id :| id in ids && n == PreName(id, p);
      PreNameIsFresh(id, p);
    }
  }

  lemma DeclareExactly(locals: map<string, Val>, id: string, p: Prepared, pre: State)
    requires BindingFor(p.bindings, id, "pre").Some? && ValueText(BindingFor(p.bindings, id, "pre").value, p).Some?
    requires Readable(BindingFor(p.bindings, id, "pre").value, p, pre) && PoolsVisible(locals)
    ensures Declare(locals, id, p, pre)
         == if PreValue(id, p, pre).Ok? && PreName(id, p) !in locals then Some(locals[PreName(id, p) := PreValue(id, p, pre).value])
            else None
  {
    hide ValueText, SymbolValue, Readable, BindingFor, ValueTree, PreName;
    var b := BindingFor(p.bindings, id, "pre").value;
    ValueReads(b, p);
    FullParses(ValueText(b, p).value, ValueTree(b, p));
    ValueEvaluates(b, p, locals, pre);
  }

  lemma {:induction false} CapturedFromIds(e: Pred, ids: seq<string>, p: Prepared, pre: State, locals: map<string, Val>)
    requires Accepted(e, p) && Declarable(ids, p) && forall id :: id in PreIds(e) ==> id in ids
    requires forall id :: id in ids ==> PreName(id, p) in locals && PreValue(id, p, pre) == Ok(locals[PreName(id, p)])
    ensures Captured(e, p, pre, locals)
    decreases e
  {
    hide ValueText, SymbolValue, BindingFor, PreName, LiteralText;
    match e
    case Literal(_, _) =>
    case Symbol(id, state) =>
      if state == "pre" {
        assert PreValue(id, p, pre) == Ok(locals[PreName(id, p)]);
      }
    case Unary(_, operand) => CapturedFromIds(operand, ids, p, pre, locals);
    case Binary(_, left, right) =>
      CapturedFromIds(left, ids, p, pre, locals);
      CapturedFromIds(right, ids, p, pre, locals);
  }

  /** The operators agree wherever they are evaluated, with the captures the test makes. */
  ghost predicate WellFormed(e: Pred, ids: seq<string>, p: Prepared, pre: State, post: State) {
    && Accepted(e, p) && TypeOf(e, p) == Some(TBool)
    && Declarable(ids, p) && (forall id :: id in PreIds(e) ==> id in ids)
    && ReadableAll(e, p, pre, post) && ReadableIds(ids, p, pre)
    && (Capture(ids, p, pre).Some? ==> Agrees(e, p, pre, post, Capture(ids, p, pre).value))
  }

  /** The test passes exactly when the predicate's evaluator finds it false over the states before and after
      the workflow, and reports CANDIDATE_HOLDS exactly when it finds it true; in either case provided every
      captured symbol can be read and the shortened digests of the captured ids differ. Everything else,
      a failure inside the predicate included, is neither. */
  lemma TestDecidesPredicate(e: Pred, ids: seq<string>, p: Prepared, pre: State, post: State)
    requires WellFormed(e, ids, p, pre, post)
    ensures var captures := Distinct(ids, p) && forall id :: id in ids ==> PreValue(id, p, pre).Ok?;
      && (RunTest(e, ids, p, pre, post) == Passes <==> captures && Eval(e, p, pre, post) == Ok(Plain(VBool(false))))
      && (RunTest(e, ids, p, pre, post) == Holds <==> captures && Eval(e, p, pre, post) == Ok(Plain(VBool(true))))
  {
    hide ValueText, SymbolValue, BindingFor, PreName, LiteralText, Readable, ReadableAll, Tree, Text, TypeOf, Eval, Capture, Distinct,
         ReadableIds, Captured, PreIds, Bound, Agrees, IsConst, RunTest, EvalSol;
    CaptureExactly(ids, p, pre);
    if Capture(ids, p, pre).Some? {
      var locals := Capture(ids, p, pre).value;
      LocalsArePre(locals, ids, p);
      CapturedFromIds(e, ids, p, pre, locals);
      TreePreservesMeaning(e, p, pre, post, locals);
      TruthIsNoConst(e, p);
      var x := Eval(e, p, pre, post);
      assert EvalSol(locals, post, Tree(e, p)) == if x.Ok? then Ok(Typed(x.value.v)) else Reverts;
      NegationEvaluates(Tree(e, p), x, locals, post);
      TestRuns(e, ids, p, pre, post, x);
    } else {
      TestStops(e, ids, p, pre, post);
    }
  }

  lemma TestRuns(e: Pred, ids: seq<string>, p: Prepared, pre: State, post: State, x: Result<XVal>)
    requires Text(e, p).Some? && Declarable(ids, p) && Capture(ids, p, pre).Some? && XFits(x, TBool)
    requires EvalSol(Capture(ids, p, pre).value, post, Prefix(Bang, Tree(e, p)))
          == if x.Ok? then Ok(Typed(VBool(!x.value.v.b))) else Reverts
    ensures RunTest(e, ids, p, pre, post) == if x.Ok? then (if x.value.v.b then Holds else Passes) else Fails
  {
    hide ValueText, BindingFor, LiteralText, Tree, Text, Capture, EvalSol, Parse, Condition;
    ConditionReads(e, p);
  }

  lemma TestStops(e: Pred, ids: seq<string>, p: Prepared, pre: State, post: State)
    requires Text(e, p).Some? && Declarable(ids, p) && Capture(ids, p, pre).None?
    ensures RunTest(e, ids, p, pre, post) == Fails
  {
    hide ValueText, BindingFor, LiteralText, Tree, Text, Capture, EvalSol, Parse, Condition;
  }

  /** A predicate whose operators and spellings pass the checks that can be read off it is decided by its test
      in every state. */
  lemma GroundedIsWellFormed(e: Pred, ids: seq<string>, p: Prepared, pre: State, post: State, canon: Val -> string)
    requires Accepted(e, p) && TypeOf(e, p) == Some(TBool)
    requires Declarable(ids, p) && (forall id :: id in PreIds(e) ==> id in ids)
    requires ReadableAll(e, p, pre, post) && ReadableIds(ids, p, pre)
    requires Grounded(e, p) && SpellingsCompile(e, post) && SpelledBy(canon, e, p, pre, post)
    ensures WellFormed(e, ids, p, pre, post)
  {
    hide ValueText, SymbolValue, BindingFor, PreName, LiteralText, Readable, ReadableAll, Tree, Text, TypeOf, Eval, Capture, Distinct,
         ReadableIds, Captured, PreIds, Bound, Agrees, IsConst, Grounded, SpellingsCompile, SpelledBy;
    CaptureExactly(ids, p, pre);
    if Capture(ids, p, pre).Some? {
      var locals := Capture(ids, p, pre).value;
      LocalsArePre(locals, ids, p);
      CapturedFromIds(e, ids, p, pre, locals);
      GroundedAgrees(e, p, pre, post, locals, canon);
    }
  }

  lemma ConditionReads(e: Pred, p: Prepared)
    requires Text(e, p).Some?
    ensures Parse(Condition(e, p)) == Some(Prefix(Bang, Tree(e, p)))
  {
    hide Tree, Text;
    TextReadsAsTree(e, p);
    ParenIsAtom(Text(e, p).value, Tree(e, p));
    PrefixIsAtom(Bang, Paren(Text(e, p).value), Tree(e, p));
    AtomIsFull(Condition(e, p), Prefix(Bang, Tree(e, p)));
    FullParses(Condition(e, p), Prefix(Bang, Tree(e, p)));
  }

  // ---------------------------------------------------------------- one symbol, read from storage

  /** x is read from slot 0, at the given type and offset. */
  ghost predicate ReadsX(p: Prepared, typ: string, offset: int) {
    p.bindings == [(("x", "post"), Binding("x", "a", typ, None, Some(0), offset))]
  }

  function WordOf(p: Prepared, post: State): nat
    requires |p.bindings| > 0
  {
    post.load(Target(p.bindings[0].1, p), 0)
  }

  const X := Symbol("x", "post")

  lemma XIsBound(p: Prepared, typ: string, offset: int)
    requires ReadsX(p, typ, offset) && DeclaredType(typ).Some? && 0 <= offset <= 31
    ensures BindingFor(p.bindings, "x", "post") == Some(p.bindings[0].1)
    ensures ValueText(p.bindings[0].1, p) == StorageOf(p.bindings[0].1, p) && StorageOf(p.bindings[0].1, p).Some?
    ensures Accepted(X, p)
  {
    hide StorageText;
  }

  /** What the evaluator and the test have for x. */
  lemma XIs(p: Prepared, typ: string, offset: int, pre: State, post: State)
    requires ReadsX(p, typ, offset) && DeclaredType(typ).Some? && 0 <= offset <= 31
    ensures Accepted(X, p)
    ensures var t := DeclaredType(typ).value;
      && Eval(X, p, pre, post) == Observed("x", Ok(Decode(t, WordOf(p, post), offset)), post)
      && EvalSol(map[], post, Tree(X, p)) == Ok(Typed(ReadBack(t, WordOf(p, post), offset)))
  {
    hide StorageText, StorageTree, ValueText, BindingFor, EvalSol, Decode, ReadBack, Observed;
    var b, t := p.bindings[0].1, DeclaredType(typ).value;
    XIsBound(p, typ, offset);
    StorageEvaluates(t, Target(b, p), 0, offset, map[], post);
    assert Tree(X, p) == StorageTree(t, Target(b, p), 0, offset);
  }

  // ---------------------------------------------------------------- single steps of evaluation

  function UintLiteral(n: nat): Pred {
    Literal("uint256", JInt(n))
  }

  lemma BinaryStep(e: Pred, p: Prepared, pre: State, post: State, l: XVal, r: XVal)
    requires e.Binary? && BinaryOp(e.op).Some? && !IsConnective(e.op)
    requires Accepted(e.left, p) && Accepted(e.right, p)
    requires Eval(e.left, p, pre, post) == Ok(l) && Eval(e.right, p, pre, post) == Ok(r)
    ensures Accepted(e, p)
    ensures Eval(e, p, pre, post) == XlirBinary(e.op, l, r)
    ensures Tree(e, p) == Infix(BinaryOp(e.op).value, Tree(e.left, p), Tree(e.right, p))
  {
    hide Apply, XlirBinary, ValueText, LiteralText, BindingFor, SymbolValue, BinaryOp;
  }

  lemma InfixStep(op: Sign, a: Sol, b: Sol, l: SolVal, r: SolVal, s: State)
    requires op != AndAnd && op != OrOr && EvalSol(map[], s, a) == Ok(l) && EvalSol(map[], s, b) == Ok(r)
    ensures EvalSol(map[], s, Infix(op, a, b)) == ApplySol(op, l, r)
  {
    hide ApplySol;
  }

  lemma LiteralStep(n: nat, p: Prepared, pre: State, post: State)
    ensures Accepted(UintLiteral(n), p) && Eval(UintLiteral(n), p, pre, post) == Ok(Plain(VUint(n)))
    ensures EvalSol(map[], post, Tree(UintLiteral(n), p)) == Ok(Rational(n, 1))
  {
  }

  lemma NotStep(e: Sol, b: bool, s: State)
    requires EvalSol(map[], s, e) == Ok(Typed(VBool(b)))
    ensures EvalSol(map[], s, Prefix(Bang, e)) == Ok(Typed(VBool(!b)))
  {
  }

  /** With nothing to capture, the test passes exactly on a false condition. */
  lemma TestStep(e: Pred, p: Prepared, pre: State, post: State, b: bool)
    requires Accepted(e, p) && EvalSol(map[], post, Tree(e, p)) == Ok(Typed(VBool(b)))
    ensures RunTest(e, [], p, pre, post) == if b then Holds else Passes
  {
    hide EvalSol, Tree, Text, Bound, Parse, Condition;
    NotStep(Tree(e, p), b, post);
    ConditionReads(e, p);
  }

  // ---------------------------------------------------------------- where literals alone go wrong

  const HALF_TWICE := Binary("mul", Binary("div", UintLiteral(1), UintLiteral(2)), UintLiteral(2))

  const MISLEADING := Binary("eq", HALF_TWICE, X)

  lemma OperatorFacts()
    ensures PlainBinary("div", VUint(1), VUint(2)) == Ok(VUint(0))
    ensures PlainBinary("mul", VUint(0), VUint(2)) == Ok(VUint(0))
    ensures PlainBinary("eq", VUint(0), VUint(0)) == Ok(VBool(true))
  {
  }

  lemma ConstantFacts()
    ensures ApplySol(Slash, Rational(1, 1), Rational(2, 1)) == Ok(Rational(1, 2))
    ensures ApplySol(Star, Rational(1, 2), Rational(2, 1)) == Ok(Rational(1, 1))
    ensures ApplySol(EqEq, Rational(1, 1), Typed(VUint(0))) == Ok(Typed(VBool(false)))
  {
  }

  lemma NameFacts()
    ensures BinaryOp("div") == Some(Slash) && BinaryOp("mul") == Some(Star) && BinaryOp("eq") == Some(EqEq)
    ensures !IsConnective("div") && !IsConnective("mul") && !IsConnective("eq")
  {
  }

  /** A concrete predicate on which the test errs: 1 / 2 * 2 == x holds of x = 0 in checked uint256
      arithmetic, but the generated test, whose constant is exactly 1, passes and so reports a violation. */
  lemma ConstantFoldingMisleads(p: Prepared, pre: State, post: State)
    requires ReadsX(p, "uint256", 0) && WordOf(p, post) == 0
    ensures Accepted(MISLEADING, p) && Eval(MISLEADING, p, pre, post) == Ok(Plain(VBool(true)))
    ensures RunTest(MISLEADING, [], p, pre, post) == Passes
  {
    hide EvalSol, ApplySol, PlainBinary, Tree, Eval, Text, Bound, ValueText, BinaryOp, IsConnective, RunTest, ReadsX;
    var half := Binary("div", UintLiteral(1), UintLiteral(2));
    NameFacts();
    OperatorFacts();
    ConstantFacts();
    LiteralStep(1, p, pre, post);
    LiteralStep(2, p, pre, post);
    BinaryStep(half, p, pre, post, Plain(VUint(1)), Plain(VUint(2)));
    InfixStep(Slash, Tree(UintLiteral(1), p), Tree(UintLiteral(2), p), Rational(1, 1), Rational(2, 1), post);
    BinaryStep(HALF_TWICE, p, pre, post, Plain(VUint(0)), Plain(VUint(2)));
    InfixStep(Star, Tree(half, p), Tree(UintLiteral(2), p), Rational(1, 2), Rational(2, 1), post);
    XIs(p, "uint256", 0, pre, post);
    BinaryStep(MISLEADING, p, pre, post, Plain(VUint(0)), Plain(VUint(0)));
    InfixStep(EqEq, Tree(HALF_TWICE, p), Tree(X, p), Rational(1, 1), Typed(VUint(0)), post);
    TestStep(MISLEADING, p, pre, post, false);
  }

  // ---------------------------------------------------------------- where signed right shifts go wrong

  const ZERO := Literal("int256", JInt(0))

  const HALVED := Binary("shr", X, UintLiteral(1))

  const IS_NEGATIVE := Binary("lt", HALVED, ZERO)

  /** The evaluator shifts the pattern of -2, Solidity the number. */
  lemma ShiftOfMinusTwo()
    ensures PlainBinary("shr", VInt(-2), VUint(1)) == Ok(VInt(HALF - 1))
    ensures Apply(Shr, VInt(-2), VUint(1)) == Ok(VInt(-1))
  {
    assert ShiftDown(WORD - 2, 1) == ShiftDown(HALF - 1, 0);
    assert ShiftDown(-2, 1) == ShiftDown(-1, 0);
    hide ShiftDown;
    assert Normalize(-2, false) == WORD - 2;
  }

  lemma ComparedWithZero()
    ensures PlainBinary("lt", VInt(HALF - 1), VInt(0)) == Ok(VBool(false))
    ensures ApplySol(Less, Typed(VInt(-1)), Rational(0, 1)) == Ok(Typed(VBool(true)))
  {
  }

  lemma ShiftedByOne()
    ensures ApplySol(Shr, Typed(VInt(-2)), Rational(1, 1)) == Ok(Typed(VInt(-1)))
  {
    hide ShiftDown, Shift;
    ShiftOfMinusTwo();
  }

  lemma ReadsMinusTwo()
    ensures Decode(TInt256, WORD - 2, 0) == VInt(-2) && ReadBack(TInt256, WORD - 2, 0) == VInt(-2)
  {
    NoShift(WORD - 2);
  }

  lemma ShiftNames()
    ensures BinaryOp("shr") == Some(Shr) && BinaryOp("lt") == Some(Less) && !IsConnective("shr") && !IsConnective("lt")
  {
  }

  /** A concrete predicate on which evaluator and test part: with x = -2 the evaluator finds `x >> 1 < 0`
      false, a violation, and the generated test reports that it holds. */
  lemma SignedShiftMisleads(p: Prepared, pre: State, post: State)
    requires ReadsX(p, "int256", 0) && WordOf(p, post) == WORD - 2
    ensures Accepted(IS_NEGATIVE, p) && Eval(IS_NEGATIVE, p, pre, post) == Ok(Plain(VBool(false)))
    ensures RunTest(IS_NEGATIVE, [], p, pre, post) == Holds
  {
    hide EvalSol, ApplySol, PlainBinary, Tree, Eval, Text, Bound, ValueText, BinaryOp, IsConnective, RunTest, ReadsX, Decode, ReadBack;
    ShiftNames();
    ShiftedByOne();
    ComparedWithZero();
    ShiftOfMinusTwo();
    ReadsMinusTwo();
    LiteralStep(1, p, pre, post);
    ZeroStep(p, pre, post);
    XIs(p, "int256", 0, pre, post);
    BinaryStep(HALVED, p, pre, post, Plain(VInt(-2)), Plain(VUint(1)));
    InfixStep(Shr, Tree(X, p), Tree(UintLiteral(1), p), Typed(VInt(-2)), Rational(1, 1), post);
    BinaryStep(IS_NEGATIVE, p, pre, post, Plain(VInt(HALF - 1)), Plain(VInt(0)));
    InfixStep(Less, Tree(HALVED, p), Tree(ZERO, p), Typed(VInt(-1)), Rational(0, 1), post);
    TestStep(IS_NEGATIVE, p, pre, post, true);
  }

  lemma ZeroStep(p: Prepared, pre: State, post: State)
    ensures Accepted(ZERO, p) && Eval(ZERO, p, pre, post) == Ok(Plain(VInt(0)))
    ensures EvalSol(map[], post, Tree(ZERO, p)) == Ok(Rational(0, 1))
  {
  }

  // ---------------------------------------------------------------- where spellings go wrong

  const ZEROS := seq(39, _ => '0')

  /** The spelling of address 10 that carries its checksum, and the same digits in lower case. */
  const CHECKSUMMED := "0x" + ZEROS + "A"

  const LOWER_CASE := "0x" + ZEROS + "a"

  const NO_ADDRESS := "0x" + ZEROS + "0"

  function AddressLiteral(text: string): Pred {
    Literal("address", JText(text))
  }

  lemma AddressStep(text: string, p: Prepared, pre: State, post: State)
    requires IsHexText(text, 40) && post.checksummed(Digits(text))
    ensures Accepted(AddressLiteral(text), p) && Eval(AddressLiteral(text), p, pre, post) == Ok(Hex(TAddress, text))
    ensures EvalSol(map[], post, Tree(AddressLiteral(text), p)) == Ok(Typed(VAddress(HexValue(Digits(text)))))
  {
    hide HexValue;
    LiteralPreserved(AddressLiteral(text), p, map[], post);
  }

  lemma SameAddressTwice()
    ensures IsHexText(CHECKSUMMED, 40) && IsHexText(LOWER_CASE, 40) && CHECKSUMMED != LOWER_CASE
    ensures HexValue(Digits(CHECKSUMMED)) == 10 && HexValue(Digits(LOWER_CASE)) == 10
  {
    hide HexValue;
    assert CHECKSUMMED[41] == 'A' && LOWER_CASE[41] == 'a';
    assert Digits(CHECKSUMMED) == ZEROS + "A" && Digits(LOWER_CASE) == ZEROS + "a";
    ZerosAndOne(ZEROS, 'A');
    ZerosAndOne(ZEROS, 'a');
  }

  lemma {:induction false} ZerosAndOne(zeros: string, c: char)
    requires forall i :: 0 <= i < |zeros| ==> zeros[i] == '0'
    ensures HexValue(zeros + [c]) == HexDigit(c)
    decreases |zeros|
  {
    assert (zeros + [c])[..|zeros|] == zeros;
    if zeros != "" {
      var rest := zeros[..|zeros| - 1];
      assert zeros == rest + ['0'];
      ZerosAndOne(rest, '0');
    }
  }

  /** A concrete predicate on which the letter case decides: x is the literal's address, given to the
      evaluator in lower case. The evaluator finds `x == literal` false; the test reports that it holds. */
  lemma LetterCaseMisleads(p: Prepared, pre: State, post: State)
    requires ReadsX(p, "address", 0) && WordOf(p, post) == 10
    requires post.text("x", 10) == LOWER_CASE && post.checksummed(Digits(CHECKSUMMED))
    ensures var e := Binary("eq", X, AddressLiteral(CHECKSUMMED));
      && Accepted(e, p) && Eval(e, p, pre, post) == Ok(Plain(VBool(false)))
      && RunTest(e, [], p, pre, post) == Holds
  {
    hide EvalSol, ApplySol, Tree, Eval, Text, Bound, ValueText, BinaryOp, IsConnective, RunTest, HexValue, IsHexText, Digits;
    var e := Binary("eq", X, AddressLiteral(CHECKSUMMED));
    NameFacts();
    SameAddressTwice();
    NoShift(10);
    AddressStep(CHECKSUMMED, p, pre, post);
    XIs(p, "address", 0, pre, post);
    BinaryStep(e, p, pre, post, Hex(TAddress, LOWER_CASE), Hex(TAddress, CHECKSUMMED));
    InfixStep(EqEq, Tree(X, p), Tree(AddressLiteral(CHECKSUMMED), p), Typed(VAddress(10)), Typed(VAddress(10)), post);
    SameAddressEqual(10);
    TestStep(e, p, pre, post, true);
  }

  lemma SameAddressEqual(n: nat)
    ensures ApplySol(EqEq, Typed(VAddress(n)), Typed(VAddress(n))) == Ok(Typed(VBool(true)))
  {
  }

  // ---------------------------------------------------------------- where storage reads go wrong

  /** A concrete packed address: at byte 12 of the word 1 the layout has address 0, but the test reads the low
      end. The predicate `x == 0x00..00` is true and the test reports a violation. */
  lemma PackedAddressMisleads(p: Prepared, pre: State, post: State)
    requires ReadsX(p, "address", 12) && WordOf(p, post) == 1
    requires post.text("x", 0) == NO_ADDRESS && post.checksummed(Digits(NO_ADDRESS))
    ensures var e := Binary("eq", X, AddressLiteral(NO_ADDRESS));
      && Accepted(e, p) && Eval(e, p, pre, post) == Ok(Plain(VBool(true)))
      && RunTest(e, [], p, pre, post) == Passes
  {
    hide EvalSol, ApplySol, Tree, Eval, Text, Bound, ValueText, BinaryOp, IsConnective, RunTest, ReadsX, HexValue, IsHexText, Digits;
    var e := Binary("eq", X, AddressLiteral(NO_ADDRESS));
    NameFacts();
    NoAddressIsZero();
    ShiftsOneOut(96);
    AddressStep(NO_ADDRESS, p, pre, post);
    XIs(p, "address", 12, pre, post);
    BinaryStep(e, p, pre, post, Hex(TAddress, NO_ADDRESS), Hex(TAddress, NO_ADDRESS));
    InfixStep(EqEq, Tree(X, p), Tree(AddressLiteral(NO_ADDRESS), p), Typed(VAddress(1)), Typed(VAddress(0)), post);
    OneIsNotZero();
    TestStep(e, p, pre, post, false);
  }

  lemma NoAddressIsZero()
    ensures IsHexText(NO_ADDRESS, 40) && HexValue(Digits(NO_ADDRESS)) == 0
  {
    hide HexValue;
    assert Digits(NO_ADDRESS) == ZEROS + "0";
    ZerosAndOne(ZEROS, '0');
  }

  lemma OneIsNotZero()
    ensures ApplySol(EqEq, Typed(VAddress(1)), Typed(VAddress(0))) == Ok(Typed(VBool(false)))
  {
  }

  /** A concrete bool: its byte is 2, which the layout takes for true and the test, masking one bit, for false. */
  lemma EvenByteMisleads(p: Prepared, pre: State, post: State)
    requires ReadsX(p, "bool", 0) && WordOf(p, post) == 2
    ensures Accepted(X, p) && Eval(X, p, pre, post) == Ok(Plain(VBool(true)))
    ensures RunTest(X, [], p, pre, post) == Passes
  {
    hide EvalSol, Tree, Eval, Text, Bound, ValueText, RunTest, ReadsX;
    NoShift(2);
    XIs(p, "bool", 0, pre, post);
    TestStep(X, p, pre, post, false);
  }
}
