/** Lowering a grounded state predicate to the text of a Solidity test that passes exactly when the
    predicate is false after the workflow. */
module Lowering {
  import opened Wrappers
  import opened Solidity
  import opened Evaluation

  // ---------------------------------------------------------------- predicates and bindings

  datatype LitValue = JBool(b: bool) | JInt(i: int) | JText(s: string) | JOther

  datatype Pred =
    | Literal(kind: string, value: LitValue)
    | Symbol(id: string, state: string)
    | Unary(op: string, operand: Pred)
    | Binary(op: string, left: Pred, right: Pred)
    | Other(kind: string, children: seq<Pred>)   // quantifiers, temporal operators, anything else

  /** A symbol binding. `slot` is None when it is absent or no integer; an absent offset is 0. */
  datatype Binding = Binding(
    symbolId: string, domain: string, symbolType: string, getter: Option<string>, slot: Option<int>, offset: int)

  /** The bindings dictionary of a prepared request, in insertion order. */
  type Dict = seq<((string, string), Binding)>

  function Find(d: Dict, key: (string, string)): Option<Binding> {
    if d == [] then None
    else if d[0].0 == key then Some(d[0].1)
    else Find(d[1..], key)
  }

  /** bindings.get((id, state)) or bindings.get((id, "post")) */
  function BindingFor(d: Dict, id: string, state: string): Option<Binding> {
    match Find(d, (id, state))
    case Some(b) => Some(b)
    case None => Find(d, (id, "post"))
  }

  function DeclaredType(name: string): Option<SymbolType> {
    if name == "bool" then Some(TBool)
    else if name == "uint256" then Some(TUint256)
    else if name == "int256" then Some(TInt256)
    else if name == "address" then Some(TAddress)
    else if name == "bytes32" then Some(TBytes32)
    else None
  }

  // ---------------------------------------------------------------- emitted text, None is "unsupported"

  /** The fixed inputs of one lowering: the dictionary, the destination domain, and the shortened digest
      that names captured variables. */
  datatype Prepared = Prepared(bindings: Dict, destination: string, digest: string -> string)

  function Target(b: Binding, p: Prepared): string {
    if b.domain == p.destination then "destinationPool" else "sourcePool"
  }

  function PreName(id: string, p: Prepared): string {
    "pre_" + p.digest(id)
  }

  predicate IsWordChar(c: char) {
    'A' <= c <= 'Z' || 'a' <= c <= 'z' || '0' <= c <= '9' || c == '_'
  }

  predicate IsIdentifier(s: string) {
    s != "" && !('0' <= s[0] <= '9') && forall c :: c in s ==> IsWordChar(c)
  }

  function AfterLastDot(s: string): string {
    if '.' !in s then s
    else if s[0] == '.' && '.' !in s[1..] then s[1..]
    else AfterLastDot(s[1..])
  }

  /** The identifier of a getter whose last component reads name(). */
  function GetterName(getter: string): Option<string> {
    var last := AfterLastDot(getter);
    if |last| >= 2 && last[|last| - 2..] == "()" && IsIdentifier(last[..|last| - 2]) then Some(last[..|last| - 2])
    else None
  }

  function CallText(name: string, arg: seq<Token>): seq<Token> {
    [Ident(name)] + Paren(arg)
  }

  function LoadText(target: string, slot: nat): seq<Token> {
    [Ident("crossllmVm"), Dot, Ident("load")]
    + Paren(CallText("address", [Ident(target)]) + [Comma] + CallText("bytes32", CallText("uint256", [Number(slot)])))
  }

  function StorageText(t: SymbolType, target: string, slot: nat, offset: nat): seq<Token> {
    var raw := LoadText(target, slot);
    match t
    case TBool =>
      Paren(Paren(CallText("uint256", raw) + [Op(Shr)] + [Number(offset * 8)]) + [Op(Amp)] + [Number(1)])
      + [Op(NotEq)] + [Number(0)]
    case TUint256 => CallText("uint256", raw)
    case TInt256 => CallText("int256", CallText("uint256", raw))
    case TAddress => CallText("address", CallText("uint160", CallText("uint256", raw)))
    case TBytes32 => CallText("bytes32", raw)
  }

  function ValueText(b: Binding, p: Prepared): Option<seq<Token>> {
    match b.getter
    case Some(getter) =>
      if getter == "" then StorageOf(b, p)
      else
        (match GetterName(getter)
         case Some(name) =>
           if DeclaredType(b.symbolType).None? then None
           else Some([Ident(Target(b, p))] + [Dot, Ident(name)] + [LParen, RParen])
         case None => None)
    case None => StorageOf(b, p)
  }

  function StorageOf(b: Binding, p: Prepared): Option<seq<Token>> {
    if b.slot.None? || b.slot.value < 0 || !(0 <= b.offset <= 31) || DeclaredType(b.symbolType).None? then None
    else Some(StorageText(DeclaredType(b.symbolType).value, Target(b, p), b.slot.value, b.offset))
  }

  predicate IsHexText(s: string, n: nat) {
    && |s| == n + 2 && s[..2] == "0x"
    && forall c :: c in s[2..] ==> '0' <= c <= '9' || 'a' <= c <= 'f' || 'A' <= c <= 'F'
  }

  function LiteralText(kind: string, value: LitValue): Option<seq<Token>> {
    match value
    case JBool(b) => if kind == "bool" then Some([Ident(if b then "true" else "false")]) else None
    case JInt(i) =>
      if (kind == "uint256" && i >= 0) || kind == "int256" then
        Some(if i >= 0 then [Number(i)] else [Op(Minus)] + [Number(-i)])
      else None
    case JText(s) =>
      if kind == "address" && IsHexText(s, 40) then Some(CallText("address", [HexNumber(s[2..])]))
      else if kind == "bytes32" && IsHexText(s, 64) then Some([HexNumber(s[2..])])
      else None
    case JOther => None
  }

  function BinaryOp(op: string): Option<Sign> {
    if op == "and" then Some(AndAnd) else if op == "or" then Some(OrOr)
    else if op == "eq" then Some(EqEq) else if op == "neq" then Some(NotEq)
    else if op == "ge" then Some(GreaterEq) else if op == "le" then Some(LessEq)
    else if op == "gt" then Some(Greater) else if op == "lt" then Some(Less)
    else if op == "add" then Some(Plus) else if op == "sub" then Some(Minus)
    else if op == "mul" then Some(Star) else if op == "div" then Some(Slash) else if op == "mod" then Some(Percent)
    else if op == "band" then Some(Amp) else if op == "bor" then Some(Bar) else if op == "bxor" then Some(Caret)
    else if op == "shl" then Some(Shl) else if op == "shr" then Some(Shr)
    else None
  }

  /** _expression */
  function Text(e: Pred, p: Prepared): Option<seq<Token>> {
    match e
    case Literal(kind, value) => LiteralText(kind, value)
    case Symbol(id, state) =>
      if state != "pre" && state != "post" then None
      else
        (match BindingFor(p.bindings, id, state)
         case None => None
         case Some(b) => if state == "pre" then Some([Ident(PreName(id, p))]) else ValueText(b, p))
    case Unary(op, operand) =>
      (match Text(operand, p)
       case None => None
       case Some(t) =>
         if op == "not" then Some(Paren([Op(Bang)] + Paren(t)))
         else if op == "neg" then Some(Paren([Op(Minus)] + Paren(t)))
         else if op == "bitnot" then Some([Op(Tilde)] + Paren(t))
         else None)
    case Binary(op, left, right) =>
      (match (Text(left, p), Text(right, p))
       case (Some(l), Some(r)) =>
         if op == "implies" then Some(Paren([Op(Bang)] + Paren(l) + [Op(OrOr)] + Paren(r)))
         else
           (match BinaryOp(op)
            case None => None
            case Some(solidity) => Some(Paren(Paren(l) + [Op(solidity)] + Paren(r))))
       case _ => None)
    case Other(_, _) => None
  }

  // ---------------------------------------------------------------- the operator tree that is meant

  function CallTree(name: string, arg: Sol): Sol {
    Call1(Var(name), arg)
  }

  function LoadTree(target: string, slot: nat): Sol {
    Call2(Member(Var("crossllmVm"), "load"), CallTree("address", Var(target)),
          CallTree("bytes32", CallTree("uint256", NumLit(slot))))
  }

  function StorageTree(t: SymbolType, target: string, slot: nat, offset: nat): Sol {
    var raw := LoadTree(target, slot);
    match t
    case TBool => Infix(NotEq, Infix(Amp, Infix(Shr, CallTree("uint256", raw), NumLit(offset * 8)), NumLit(1)), NumLit(0))
    case TUint256 => CallTree("uint256", raw)
    case TInt256 => CallTree("int256", CallTree("uint256", raw))
    case TAddress => CallTree("address", CallTree("uint160", CallTree("uint256", raw)))
    case TBytes32 => CallTree("bytes32", raw)
  }

  function ValueTree(b: Binding, p: Prepared): Sol
    requires ValueText(b, p).Some?
  {
    if b.getter.Some? && b.getter.value != "" then
      Call0(Member(Var(Target(b, p)), GetterName(b.getter.value).value))
    else StorageTree(DeclaredType(b.symbolType).value, Target(b, p), b.slot.value, b.offset)
  }

  function LiteralTree(kind: string, value: LitValue): Sol
    requires LiteralText(kind, value).Some?
  {
    match value
    case JBool(b) => BoolLit(b)
    case JInt(i) => if i >= 0 then NumLit(i) else Prefix(Minus, NumLit(-i))
    case JText(s) => if kind == "address" then CallTree("address", HexLit(s[2..])) else HexLit(s[2..])
  }

  function Tree(e: Pred, p: Prepared): Sol
    requires Text(e, p).Some?
  {
    match e
    case Literal(kind, value) => LiteralTree(kind, value)
    case Symbol(id, state) =>
      if state == "pre" then Var(PreName(id, p)) else ValueTree(BindingFor(p.bindings, id, state).value, p)
    case Unary(op, operand) =>
      Prefix(if op == "not" then Bang else if op == "neg" then Minus else Tilde, Tree(operand, p))
    case Binary(op, left, right) =>
      if op == "implies" then Infix(OrOr, Prefix(Bang, Tree(left, p)), Tree(right, p))
      else Infix(BinaryOp(op).value, Tree(left, p), Tree(right, p))
  }

  // ---------------------------------------------------------------- the text reads as that tree

  lemma NumberIsAtom(n: nat)
    ensures Atom([Number(n)], NumLit(n))
  {
    TokenIsPrimary(Number(n), NumLit(n));
    PrimaryIsAtom([Number(n)], NumLit(n));
  }

  lemma NameIsPrimary(name: string)
    requires name != "true" && name != "false"
    ensures Primary([Ident(name)], Var(name))
  {
    TokenIsPrimary(Ident(name), Var(name));
  }

  lemma CallReads(name: string, arg: seq<Token>, a: Sol)
    requires name != "true" && name != "false"
    requires Full(arg, a) && arg != [] && arg[0] != RParen
    ensures Primary(CallText(name, arg), CallTree(name, a))
    ensures Full(CallText(name, arg), CallTree(name, a))
  {
    NameIsPrimary(name);
    CallIsPrimary1([Ident(name)], Var(name), arg, a);
    PrimaryIsAtom(CallText(name, arg), CallTree(name, a));
    AtomIsFull(CallText(name, arg), CallTree(name, a));
  }

  lemma LoadReads(target: string, slot: nat)
    requires target != "true" && target != "false"
    ensures Full(LoadText(target, slot), LoadTree(target, slot))
    ensures LoadText(target, slot) != [] && LoadText(target, slot)[0] != RParen
  {
    NameIsPrimary(target);
    PrimaryIsAtom([Ident(target)], Var(target));
    AtomIsFull([Ident(target)], Var(target));
    CallReads("address", [Ident(target)], Var(target));
    NumberIsAtom(slot);
    AtomIsFull([Number(slot)], NumLit(slot));
    CallReads("uint256", [Number(slot)], NumLit(slot));
    CallReads("bytes32", CallText("uint256", [Number(slot)]), CallTree("uint256", NumLit(slot)));
    NameIsPrimary("crossllmVm");
    MemberIsPrimary([Ident("crossllmVm")], Var("crossllmVm"), "load");
    assert [Ident("crossllmVm")] + [Dot, Ident("load")] == [Ident("crossllmVm"), Dot, Ident("load")];
    CallIsPrimary2([Ident("crossllmVm"), Dot, Ident("load")], Member(Var("crossllmVm"), "load"),
                   CallText("address", [Ident(target)]), CallTree("address", Var(target)),
                   CallText("bytes32", CallText("uint256", [Number(slot)])),
                   CallTree("bytes32", CallTree("uint256", NumLit(slot))));
    PrimaryIsAtom(LoadText(target, slot), LoadTree(target, slot));
    AtomIsFull(LoadText(target, slot), LoadTree(target, slot));
  }

  /** A storage read is emitted without outer parentheses; as a whole expression it still reads as meant. */
  lemma StorageReads(t: SymbolType, target: string, slot: nat, offset: nat)
    requires target != "true" && target != "false"
    ensures Full(StorageText(t, target, slot, offset), StorageTree(t, target, slot, offset))
  {
    var raw, rawTree := LoadText(target, slot), LoadTree(target, slot);
    LoadReads(target, slot);
    if t != TBytes32 {
      CallReads("uint256", raw, rawTree);
    }
    match t
    case TBool =>
      var word, wordTree := CallText("uint256", raw), CallTree("uint256", rawTree);
      PrimaryIsAtom(word, wordTree);
      NumberIsAtom(offset * 8);
      NumberIsAtom(1);
      NumberIsAtom(0);
      InfixIsFull(Shr, word, wordTree, [Number(offset * 8)], NumLit(offset * 8));
      var shifted, shiftedTree := Paren(word + [Op(Shr)] + [Number(offset * 8)]), Infix(Shr, wordTree, NumLit(offset * 8));
      ParenIsAtom(word + [Op(Shr)] + [Number(offset * 8)], shiftedTree);
      InfixIsFull(Amp, shifted, shiftedTree, [Number(1)], NumLit(1));
      var masked, maskedTree := Paren(shifted + [Op(Amp)] + [Number(1)]), Infix(Amp, shiftedTree, NumLit(1));
      ParenIsAtom(shifted + [Op(Amp)] + [Number(1)], maskedTree);
      InfixIsFull(NotEq, masked, maskedTree, [Number(0)], NumLit(0));
    case TUint256 =>
    case TInt256 =>
      CallReads("int256", CallText("uint256", raw), CallTree("uint256", rawTree));
    case TAddress =>
      CallReads("uint160", CallText("uint256", raw), CallTree("uint256", rawTree));
      CallReads("address", CallText("uint160", CallText("uint256", raw)), CallTree("uint160", CallTree("uint256", rawTree)));
    case TBytes32 =>
      CallReads("bytes32", raw, rawTree);
  }

  lemma ValueReads(b: Binding, p: Prepared)
    requires ValueText(b, p).Some?
    ensures Full(ValueText(b, p).value, ValueTree(b, p))
  {
    var target := Target(b, p);
    if b.getter.Some? && b.getter.value != "" {
      var name := GetterName(b.getter.value).value;
      NameIsPrimary(target);
      MemberIsPrimary([Ident(target)], Var(target), name);
      CallIsPrimary0([Ident(target)] + [Dot, Ident(name)], Member(Var(target), name));
      PrimaryIsAtom(ValueText(b, p).value, ValueTree(b, p));
      AtomIsFull(ValueText(b, p).value, ValueTree(b, p));
    } else {
      StorageReads(DeclaredType(b.symbolType).value, target, b.slot.value, b.offset);
    }
  }

  lemma LiteralReads(kind: string, value: LitValue)
    requires LiteralText(kind, value).Some?
    ensures Full(LiteralText(kind, value).value, LiteralTree(kind, value))
  {
    var ts, tree := LiteralText(kind, value).value, LiteralTree(kind, value);
    match value
    case JBool(b) =>
      TokenIsPrimary(ts[0], tree);
      PrimaryIsAtom(ts, tree);
      AtomIsFull(ts, tree);
    case JInt(i) =>
      NumberIsAtom(if i >= 0 then i else -i);
      if i < 0 {
        PrefixIsAtom(Minus, [Number(-i)], NumLit(-i));
      }
      AtomIsFull(ts, tree);
    case JText(s) =>
      TokenIsPrimary(HexNumber(s[2..]), HexLit(s[2..]));
      PrimaryIsAtom([HexNumber(s[2..])], HexLit(s[2..]));
      AtomIsFull([HexNumber(s[2..])], HexLit(s[2..]));
      if kind == "address" {
        CallReads("address", [HexNumber(s[2..])], HexLit(s[2..]));
      }
  }

  lemma PreNameIsFresh(id: string, p: Prepared)
    ensures var n := PreName(id, p);
            n != "true" && n != "false" && !IsPool(n) && n != "crossllmVm"
  {
    assert PreName(id, p)[0] == 'p';
  }

  lemma BinaryOpHasStrength(op: string)
    requires BinaryOp(op).Some?
    ensures Strength(BinaryOp(op).value) > 0
  {
  }

  /** Reading the emitted text under Solidity's precedence gives exactly the intended tree, for every nesting,
      also where a subexpression is emitted without outer parentheses. */
  lemma {:induction false} TextReadsAsTree(e: Pred, p: Prepared)
    requires Text(e, p).Some?
    ensures Full(Text(e, p).value, Tree(e, p))
    decreases e
  {
    match e
    case Literal(kind, value) => LiteralReads(kind, value);
    case Symbol(id, state) =>
      if state == "pre" {
        PreNameIsFresh(id, p);
        NameIsPrimary(PreName(id, p));
        PrimaryIsAtom([Ident(PreName(id, p))], Var(PreName(id, p)));
        AtomIsFull([Ident(PreName(id, p))], Var(PreName(id, p)));
      } else {
        ValueReads(BindingFor(p.bindings, id, state).value, p);
      }
    case Unary(op, operand) =>
      var ts, tree := Text(operand, p).value, Tree(operand, p);
      TextReadsAsTree(operand, p);
      ParenIsAtom(ts, tree);
      var sign := if op == "not" then Bang else if op == "neg" then Minus else Tilde;
      PrefixIsAtom(sign, Paren(ts), tree);
      AtomIsFull([Op(sign)] + Paren(ts), Prefix(sign, tree));
      ParenIsAtom([Op(sign)] + Paren(ts), Prefix(sign, tree));
      AtomIsFull(Paren([Op(sign)] + Paren(ts)), Prefix(sign, tree));
    case Binary(op, left, right) =>
      var l, lt, r, rt := Text(left, p).value, Tree(left, p), Text(right, p).value, Tree(right, p);
      TextReadsAsTree(left, p);
      TextReadsAsTree(right, p);
      ParenIsAtom(l, lt);
      ParenIsAtom(r, rt);
      if op == "implies" {
        PrefixIsAtom(Bang, Paren(l), lt);
        InfixIsFull(OrOr, [Op(Bang)] + Paren(l), Prefix(Bang, lt), Paren(r), rt);
      } else {
        BinaryOpHasStrength(op);
        InfixIsFull(BinaryOp(op).value, Paren(l), lt, Paren(r), rt);
      }
      ParenIsAtom(Text(e, p).value[1..|Text(e, p).value| - 1], Tree(e, p));
      AtomIsFull(Text(e, p).value, Tree(e, p));
  }

  // ---------------------------------------------------------------- getter names

  lemma {:induction false} LastDotFound(path: string, x: string)
    requires '.' !in x
    ensures AfterLastDot(path + "." + x) == x
    decreases |path|
  {
    var s := path + "." + x;
    assert s[|path|] == '.';
    if path == "" {
      assert s[1..] == x;
    } else {
      assert s[1..] == path[1..] + "." + x;
      assert s[1..][|path| - 1] == '.';
      LastDotFound(path[1..], x);
    }
  }

  /** A getter is called by the last component of its path, which is written with its pair of parentheses. */
  lemma GetterIsLastComponent(path: string, name: string)
    requires IsIdentifier(name)
    ensures GetterName(path + "." + name + "()") == Some(name) && GetterName(name + "()") == Some(name)
  {
    assert '.' !in name + "()";
    LastDotFound(path, name + "()");
    assert path + "." + (name + "()") == path + "." + name + "()";
    var last := name + "()";
    assert last[..|last| - 2] == name && last[|last| - 2..] == "()";
  }
}
