/** The fragment of Solidity that generated candidate predicates are written in: tokens, the expression
    grammar with its operator precedence, and evaluation. */
module Solidity {
  import opened Wrappers

  // ---------------------------------------------------------------- tokens and syntax trees

  /** The operators, in the order of the spellings || && == != < > <= >= | ^ & << >> + - * / % ! ~ */
  datatype Sign =
    | OrOr | AndAnd | EqEq | NotEq | Less | Greater | LessEq | GreaterEq | Bar | Caret | Amp | Shl | Shr
    | Plus | Minus | Star | Slash | Percent | Bang | Tilde

  datatype Token =
    | LParen | RParen | Comma | Dot
    | Op(sign: Sign)
    | Ident(name: string)
    | Number(n: nat)
    | HexNumber(digits: string)

  datatype Sol =
    | NumLit(n: nat)
    | HexLit(digits: string)
    | BoolLit(b: bool)
    | Var(name: string)
    | Member(object: Sol, name: string)
    | Call0(callee: Sol)
    | Call1(callee: Sol, arg: Sol)
    | Call2(callee: Sol, first: Sol, second: Sol)
    | Prefix(op: Sign, operand: Sol)
    | Infix(op: Sign, left: Sol, right: Sol)

  /** Binding strength of the binary operators, as in the Solidity operator table; 0 for the other two. */
  function Strength(op: Sign): (s: nat)
    ensures s <= TIGHTEST
  {
    match op
    case OrOr => 1
    case AndAnd => 2
    case EqEq | NotEq => 3
    case Less | Greater | LessEq | GreaterEq => 4
    case Bar => 5
    case Caret => 6
    case Amp => 7
    case Shl | Shr => 8
    case Plus | Minus => 9
    case Star | Slash | Percent => 10
    case Bang | Tilde => 0
  }

  const TIGHTEST: nat := 10

  predicate IsPrefixOp(op: Sign) {
    op == Bang || op == Minus || op == Tilde
  }

  // ---------------------------------------------------------------- parsing

  type Parsed = Option<(Sol, seq<Token>)>

  /** An expression whose outermost operator binds at least as strongly as `level`. */
  function ParseInfix(level: nat, ts: seq<Token>): (r: Parsed)
    requires 1 <= level <= TIGHTEST + 1
    ensures r.Some? ==> |r.value.1| < |ts|
    decreases |ts|, 2, TIGHTEST + 1 - level
  {
    if level > TIGHTEST then ParsePrefix(ts)
    else
      match ParseInfix(level + 1, ts)
      case None => None
      case Some((left, rest)) => ParseTail(level, left, rest)
  }

  /** Operators of one strength group to the left. */
  function ParseTail(level: nat, left: Sol, ts: seq<Token>): (r: Parsed)
    requires 1 <= level <= TIGHTEST
    ensures r.Some? ==> |r.value.1| <= |ts|
    decreases |ts|, 3, 0
  {
    if ts == [] || !ts[0].Op? || Strength(ts[0].sign) != level then Some((left, ts))
    else
      match ParseInfix(level + 1, ts[1..])
      case None => None
      case Some((right, rest)) => ParseTail(level, Infix(ts[0].sign, left, right), rest)
  }

  function ParsePrefix(ts: seq<Token>): (r: Parsed)
    ensures r.Some? ==> |r.value.1| < |ts|
    decreases |ts|, 1, 0
  {
    if ts != [] && ts[0].Op? && IsPrefixOp(ts[0].sign) then
      match ParsePrefix(ts[1..])
      case None => None
      case Some((operand, rest)) => Some((Prefix(ts[0].sign, operand), rest))
    else
      match ParsePrimary(ts)
      case None => None
      case Some((e, rest)) => ParsePostfix(e, rest)
  }

  function ParsePrimary(ts: seq<Token>): (r: Parsed)
    ensures r.Some? ==> |r.value.1| < |ts|
    decreases |ts|, 0, 0
  {
    if ts == [] then None
    else
      match ts[0]
      case Number(n) => Some((NumLit(n), ts[1..]))
      case HexNumber(digits) => Some((HexLit(digits), ts[1..]))
      case Ident(name) =>
        Some((if name == "true" then BoolLit(true) else if name == "false" then BoolLit(false) else Var(name), ts[1..]))
      case LParen =>
        (match ParseInfix(1, ts[1..])
         case None => None
         case Some((e, rest)) => if rest != [] && rest[0] == RParen then Some((e, rest[1..])) else None)
      case _ => None
  }

  /** Member accesses and calls with at most two arguments. */
  function ParsePostfix(e: Sol, ts: seq<Token>): (r: Parsed)
    ensures r.Some? ==> |r.value.1| <= |ts|
    decreases |ts|, 3, 0
  {
    if |ts| >= 2 && ts[0] == Dot && ts[1].Ident? then ParsePostfix(Member(e, ts[1].name), ts[2..])
    else if |ts| >= 2 && ts[0] == LParen && ts[1] == RParen then ParsePostfix(Call0(e), ts[2..])
    else if ts != [] && ts[0] == LParen then
      match ParseInfix(1, ts[1..])
      case None => None
      case Some((first, rest)) =>
        if rest != [] && rest[0] == RParen then ParsePostfix(Call1(e, first), rest[1..])
        else if rest != [] && rest[0] == Comma then
          match ParseInfix(1, rest[1..])
          case None => None
          case Some((second, rest2)) =>
            if rest2 != [] && rest2[0] == RParen then ParsePostfix(Call2(e, first, second), rest2[1..]) else None
        else None
    else if ts != [] && ts[0] == Dot then None
    else Some((e, ts))
  }

  /** The whole text is one expression. */
  function Parse(ts: seq<Token>): Option<Sol> {
    match ParseInfix(1, ts)
    case None => None
    case Some((e, rest)) => if rest == [] then Some(e) else None
  }

  // ---------------------------------------------------------------- what parses as what, in any context

  /** Nothing that could extend an operand. */
  ghost predicate NoPostfix(rest: seq<Token>) {
    rest == [] || (rest[0] != Dot && rest[0] != LParen)
  }

  /** Nothing that could extend an expression. */
  ghost predicate Closes(rest: seq<Token>) {
    rest == [] || rest[0] == RParen || rest[0] == Comma
  }

  /** `ts` is an operand: followed by anything but a postfix it reads as `e`. */
  ghost predicate Atom(ts: seq<Token>, e: Sol) {
    forall rest :: NoPostfix(rest) ==> ParsePrefix(ts + rest) == Some((e, rest))
  }

  /** `ts` is an expression: up to a closing token it reads as `e`. */
  ghost predicate Full(ts: seq<Token>, e: Sol) {
    forall rest :: Closes(rest) ==> ParseInfix(1, ts + rest) == Some((e, rest))
  }

  /** As `Atom`, but also when a postfix follows: a primary expression. */
  ghost predicate Primary(ts: seq<Token>, e: Sol) {
    forall rest :: ParsePrefix(ts + rest) == ParsePostfix(e, rest)
  }

  function Paren(ts: seq<Token>): seq<Token> {
    [LParen] + ts + [RParen]
  }

  lemma {:induction false} Climb(level: nat, ts: seq<Token>, e: Sol, rest: seq<Token>)
    requires 1 <= level <= TIGHTEST + 1
    requires ParsePrefix(ts) == Some((e, rest))
    requires rest == [] || !rest[0].Op? || Strength(rest[0].sign) < level
    ensures ParseInfix(level, ts) == Some((e, rest))
    decreases TIGHTEST + 1 - level
  {
    hide ParsePrefix, Strength;
    if level <= TIGHTEST {
      Climb(level + 1, ts, e, rest);
    }
  }

  lemma {:induction false} Descend(level: nat, high: nat, ts: seq<Token>, e: Sol, rest: seq<Token>)
    requires 1 <= level <= high <= TIGHTEST
    requires ParseInfix(high, ts) == Some((e, rest)) && Closes(rest)
    ensures ParseInfix(level, ts) == Some((e, rest))
    decreases high - level
  {
    hide ParsePrefix, Strength;
    if level < high {
      Descend(level + 1, high, ts, e, rest);
    }
  }

  lemma PrimaryIsAtom(ts: seq<Token>, e: Sol)
    requires Primary(ts, e)
    ensures Atom(ts, e)
  {
    hide ParsePrefix, ParseInfix;
  }

  lemma AtomIsFull(ts: seq<Token>, e: Sol)
    requires Atom(ts, e)
    ensures Full(ts, e)
  {
    hide ParsePrefix, ParseInfix, ParseTail;
    forall rest | Closes(rest) ensures ParseInfix(1, ts + rest) == Some((e, rest)) {
      Climb(1, ts + rest, e, rest);
    }
  }

  lemma ParenIsPrimary(ts: seq<Token>, e: Sol)
    requires Full(ts, e)
    ensures Primary(Paren(ts), e)
  {
    hide ParseInfix, ParsePostfix;
    forall rest ensures ParsePrefix(Paren(ts) + rest) == ParsePostfix(e, rest) {
      var all := Paren(ts) + rest;
      assert all[1..] == ts + ([RParen] + rest);
      assert ParseInfix(1, ts + ([RParen] + rest)) == Some((e, [RParen] + rest));
      assert ([RParen] + rest)[1..] == rest;
      assert ParsePrimary(all) == Some((e, rest));
    }
  }

  lemma ParenIsAtom(ts: seq<Token>, e: Sol)
    requires Full(ts, e)
    ensures Atom(Paren(ts), e)
  {
    ParenIsPrimary(ts, e);
    PrimaryIsAtom(Paren(ts), e);
  }

  lemma PrefixIsAtom(op: Sign, ts: seq<Token>, e: Sol)
    requires IsPrefixOp(op) && Atom(ts, e)
    ensures Atom([Op(op)] + ts, Prefix(op, e))
  {
    hide ParsePrimary, ParsePostfix, ParseInfix;
    forall rest | NoPostfix(rest) ensures ParsePrefix([Op(op)] + ts + rest) == Some((Prefix(op, e), rest)) {
      assert ([Op(op)] + ts + rest)[1..] == ts + rest;
      assert ParsePrefix(ts + rest) == Some((e, rest));
    }
  }

  lemma ParseOne(level: nat, ts: seq<Token>, left: Sol, rest: seq<Token>)
    requires 1 <= level <= TIGHTEST && ParseInfix(level + 1, ts) == Some((left, rest))
    ensures ParseInfix(level, ts) == ParseTail(level, left, rest)
  {
    hide ParsePrefix, ParseTail;
  }

  /** Two operands around a binary operator read as that operator's tree, whatever its strength. */
  lemma InfixIsFull(op: Sign, left: seq<Token>, l: Sol, right: seq<Token>, r: Sol)
    requires Strength(op) > 0 && Atom(left, l) && Atom(right, r)
    ensures Full(left + [Op(op)] + right, Infix(op, l, r))
  {
    hide ParsePrefix, Strength, ParseInfix;
    var p := Strength(op);
    forall rest | Closes(rest)
      ensures ParseInfix(1, left + [Op(op)] + right + rest) == Some((Infix(op, l, r), rest))
    {
      var all, tail := left + [Op(op)] + right + rest, [Op(op)] + (right + rest);
      assert all == left + tail;
      assert ParsePrefix(left + tail) == Some((l, tail));
      Climb(p + 1, all, l, tail);
      assert tail[1..] == right + rest;
      assert ParsePrefix(right + rest) == Some((r, rest));
      Climb(p + 1, right + rest, r, rest);
      assert ParseTail(p, Infix(op, l, r), rest) == Some((Infix(op, l, r), rest));
      assert ParseTail(p, l, tail) == Some((Infix(op, l, r), rest));
      ParseOne(p, all, l, tail);
      Descend(1, p, all, Infix(op, l, r), rest);
    }
  }

  lemma TokenIsPrimary(t: Token, e: Sol)
    requires ParsePrimary([t]) == Some((e, []))
    requires !t.LParen? && !t.Op?
    ensures Primary([t], e)
  {
    hide ParseInfix, ParsePostfix;
    forall rest ensures ParsePrefix([t] + rest) == ParsePostfix(e, rest) {
      assert ([t] + rest)[1..] == rest;
      assert [t][1..] == [];
    }
  }

  lemma MemberIsPrimary(ts: seq<Token>, e: Sol, name: string)
    requires Primary(ts, e)
    ensures Primary(ts + [Dot, Ident(name)], Member(e, name))
  {
    hide ParsePrefix, ParseInfix;
    forall rest ensures ParsePrefix(ts + [Dot, Ident(name)] + rest) == ParsePostfix(Member(e, name), rest) {
      assert ts + [Dot, Ident(name)] + rest == ts + ([Dot, Ident(name)] + rest);
      assert ([Dot, Ident(name)] + rest)[2..] == rest;
    }
  }

  lemma CallIsPrimary0(ts: seq<Token>, e: Sol)
    requires Primary(ts, e)
    ensures Primary(ts + [LParen, RParen], Call0(e))
  {
    hide ParsePrefix, ParseInfix;
    forall rest ensures ParsePrefix(ts + [LParen, RParen] + rest) == ParsePostfix(Call0(e), rest) {
      assert ts + [LParen, RParen] + rest == ts + ([LParen, RParen] + rest);
      assert ([LParen, RParen] + rest)[2..] == rest;
    }
  }

  lemma CallIsPrimary1(ts: seq<Token>, e: Sol, arg: seq<Token>, a: Sol)
    requires Primary(ts, e) && Full(arg, a) && arg != [] && arg[0] != RParen
    ensures Primary(ts + Paren(arg), Call1(e, a))
  {
    hide ParsePrefix, ParseInfix;
    forall rest ensures ParsePrefix(ts + Paren(arg) + rest) == ParsePostfix(Call1(e, a), rest) {
      var tail := Paren(arg) + rest;
      assert ts + Paren(arg) + rest == ts + tail;
      assert tail[1..] == arg + ([RParen] + rest);
      assert ParseInfix(1, arg + ([RParen] + rest)) == Some((a, [RParen] + rest));
      assert ([RParen] + rest)[1..] == rest;
    }
  }

  lemma CallIsPrimary2(ts: seq<Token>, e: Sol, arg: seq<Token>, a: Sol, arg2: seq<Token>, b: Sol)
    requires Primary(ts, e) && Full(arg, a) && Full(arg2, b) && arg != [] && arg[0] != RParen
    ensures Primary(ts + Paren(arg + [Comma] + arg2), Call2(e, a, b))
  {
    hide ParsePrefix, ParseInfix;
    forall rest ensures ParsePrefix(ts + Paren(arg + [Comma] + arg2) + rest) == ParsePostfix(Call2(e, a, b), rest) {
      var last := [RParen] + rest;
      var middle := [Comma] + (arg2 + last);
      var tail := Paren(arg + [Comma] + arg2) + rest;
      assert ts + Paren(arg + [Comma] + arg2) + rest == ts + tail;
      assert tail[1..] == arg + middle;
      assert ParseInfix(1, arg + middle) == Some((a, middle));
      assert middle[1..] == arg2 + last;
      assert ParseInfix(1, arg2 + last) == Some((b, last));
      assert last[1..] == rest;
    }
  }

  lemma FullParses(ts: seq<Token>, e: Sol)
    requires Full(ts, e)
    ensures Parse(ts) == Some(e)
  {
    assert ts + [] == ts;
    assert Closes([]);
  }
}
