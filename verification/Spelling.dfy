/** The characters of an emitted expression, and the lexical scan that recovers its tokens from them. */
module Spelling {
  import opened Wrappers
  import opened Numerals
  import opened Solidity
  import opened Evaluation
  import opened Lowering

  // ---------------------------------------------------------------- writing tokens

  function SignText(s: Sign): string {
    match s
    case OrOr => "||" case AndAnd => "&&" case EqEq => "==" case NotEq => "!="
    case Less => "<" case Greater => ">" case LessEq => "<=" case GreaterEq => ">="
    case Bar => "|" case Caret => "^" case Amp => "&" case Shl => "<<" case Shr => ">>"
    case Plus => "+" case Minus => "-" case Star => "*" case Slash => "/" case Percent => "%"
    case Bang => "!" case Tilde => "~"
  }

  function TokenText(t: Token): string {
    match t
    case LParen => "(" case RParen => ")" case Comma => "," case Dot => "."
    case Op(s) => SignText(s)
    case Ident(name) => name
    case Number(n) => Decimal(n)
    case HexNumber(digits) => "0x" + digits
  }

  predicate IsWord(t: Token) {
    t.Ident? || t.Number? || t.HexNumber?
  }

  /** The emitted characters: a binary operator stands between spaces, a prefix operator does not, and a
      comma is followed by one. `operand` tells whether an operand has just ended. */
  function Spell(ts: seq<Token>, operand: bool): string {
    if ts == [] then ""
    else
      var text, rest := TokenText(ts[0]), Spell(ts[1..], IsWord(ts[0]) || ts[0] == RParen);
      if ts[0].Op? && operand then " " + text + " " + rest
      else if ts[0] == Comma then text + " " + rest
      else text + rest
  }

  // ---------------------------------------------------------------- reading them back

  predicate IsSignChar(c: char) {
    c in {'|', '&', '=', '!', '<', '>', '^', '+', '-', '*', '/', '%', '~'}
  }

  function WordRun(s: string): (n: nat)
    ensures n <= |s|
  {
    if s == "" || !IsWordChar(s[0]) then 0 else 1 + WordRun(s[1..])
  }

  function SignRun(s: string): (n: nat)
    ensures n <= |s|
  {
    if s == "" || !IsSignChar(s[0]) then 0 else 1 + SignRun(s[1..])
  }

  function ReadDecimal(s: string): Option<nat> {
    if s == "" then None
    else if !('0' <= s[|s| - 1] <= '9') then None
    else
      var d := (s[|s| - 1] - '0') as nat;
      if |s| == 1 then Some(d)
      else
        match ReadDecimal(s[..|s| - 1])
        case None => None
        case Some(n) => Some(10 * n + d)
  }

  function ReadWord(s: string): Option<Token>
    requires s != ""
  {
    if |s| >= 2 && s[..2] == "0x" then Some(HexNumber(s[2..]))
    else if '0' <= s[0] <= '9' then (match ReadDecimal(s) case None => None case Some(n) => Some(Number(n)))
    else Some(Ident(s))
  }

  function ReadSign(s: string): Option<Sign> {
    if s == "||" then Some(OrOr) else if s == "&&" then Some(AndAnd)
    else if s == "==" then Some(EqEq) else if s == "!=" then Some(NotEq)
    else if s == "<" then Some(Less) else if s == ">" then Some(Greater)
    else if s == "<=" then Some(LessEq) else if s == ">=" then Some(GreaterEq)
    else if s == "|" then Some(Bar) else if s == "^" then Some(Caret) else if s == "&" then Some(Amp)
    else if s == "<<" then Some(Shl) else if s == ">>" then Some(Shr)
    else if s == "+" then Some(Plus) else if s == "-" then Some(Minus) else if s == "*" then Some(Star)
    else if s == "/" then Some(Slash) else if s == "%" then Some(Percent)
    else if s == "!" then Some(Bang) else if s == "~" then Some(Tilde)
    else None
  }

  /** Longest-match scanning; a run of operator characters has to spell one operator. */
  function Scan(s: string): Option<seq<Token>>
    decreases |s|
  {
    if s == "" then Some([])
    else if s[0] == ' ' then Scan(s[1..])
    else if s[0] == '(' then Then(LParen, Scan(s[1..]))
    else if s[0] == ')' then Then(RParen, Scan(s[1..]))
    else if s[0] == ',' then Then(Comma, Scan(s[1..]))
    else if s[0] == '.' then Then(Dot, Scan(s[1..]))
    else if IsWordChar(s[0]) then
      match ReadWord(s[..WordRun(s)])
      case None => None
      case Some(t) => Then(t, Scan(s[WordRun(s)..]))
    else if IsSignChar(s[0]) then
      match ReadSign(s[..SignRun(s)])
      case None => None
      case Some(sign) => Then(Op(sign), Scan(s[SignRun(s)..]))
    else None
  }

  function Then(t: Token, rest: Option<seq<Token>>): Option<seq<Token>> {
    match rest
    case None => None
    case Some(ts) => Some([t] + ts)
  }

  // ---------------------------------------------------------------- token lists that can be read back

  predicate Readable(t: Token) {
    match t
    case Ident(name) => IsIdentifier(name)
    case HexNumber(digits) => forall c :: c in digits ==> IsWordChar(c)
    case _ => true
  }

  /** May `b` follow `a` with nothing between them? */
  predicate Adjacent(a: Token, b: Token) {
    !(IsWord(a) && IsWord(b)) && !(a.Op? && b.Op?)
  }

  ghost predicate Separable(ts: seq<Token>) {
    && (forall i :: 0 <= i < |ts| ==> Readable(ts[i]))
    && (forall i :: 0 <= i < |ts| - 1 ==> Adjacent(ts[i], ts[i + 1]))
  }

  lemma {:induction false} WordRunStops(a: string, rest: string)
    requires forall c :: c in a ==> IsWordChar(c)
    requires rest == "" || !IsWordChar(rest[0])
    ensures WordRun(a + rest) == |a|
    decreases |a|
  {
    if a == "" {
      assert a + rest == rest;
    } else {
      assert (a + rest)[1..] == a[1..] + rest;
      assert a[0] in a;
      WordRunStops(a[1..], rest);
    }
  }

  lemma {:induction false} SignRunStops(a: string, rest: string)
    requires forall c :: c in a ==> IsSignChar(c)
    requires rest == "" || !IsSignChar(rest[0])
    ensures SignRun(a + rest) == |a|
    decreases |a|
  {
    if a == "" {
      assert a + rest == rest;
    } else {
      assert (a + rest)[1..] == a[1..] + rest;
      assert a[0] in a;
      SignRunStops(a[1..], rest);
    }
  }

  lemma {:induction false} DecimalReads(n: nat)
    ensures ReadDecimal(Decimal(n)) == Some(n)
    ensures Decimal(n) != "" && forall c :: c in Decimal(n) ==> '0' <= c <= '9'
    decreases n
  {
    if n >= 10 {
      DecimalReads(n / 10);
      var s := Decimal(n);
      assert s[..|s| - 1] == Decimal(n / 10);
      assert 10 * (n / 10) + n % 10 == n;
    }
  }

  lemma WordReads(t: Token)
    requires IsWord(t) && Readable(t)
    ensures TokenText(t) != "" && (forall c :: c in TokenText(t) ==> IsWordChar(c))
    ensures ReadWord(TokenText(t)) == Some(t)
  {
    match t
    case Ident(name) =>
      assert name[0] in name;
    case Number(n) =>
      DecimalReads(n);
      var s := Decimal(n);
      if |s| >= 2 {
        assert s[1] in s && s[..2][1] == s[1];
        assert s[..2] != "0x";
      }
      assert s[0] in s;
    case HexNumber(digits) =>
      assert ("0x" + digits)[..2] == "0x" && ("0x" + digits)[2..] == digits;
  }

  lemma SignReads(s: Sign)
    ensures SignText(s) != "" && (forall c :: c in SignText(s) ==> IsSignChar(c))
    ensures ReadSign(SignText(s)) == Some(s)
  {
  }

  lemma SpellStart(ts: seq<Token>, operand: bool)
    requires Separable(ts)
    ensures ts == [] ==> Spell(ts, operand) == ""
    ensures ts != [] && !IsWord(ts[0]) ==> Spell(ts, operand) != "" && !IsWordChar(Spell(ts, operand)[0])
    ensures ts != [] && !ts[0].Op? ==> Spell(ts, operand) != "" && !IsSignChar(Spell(ts, operand)[0])
  {
    if ts != [] {
      if IsWord(ts[0]) {
        WordReads(ts[0]);
        assert TokenText(ts[0])[0] in TokenText(ts[0]);
      } else if ts[0].Op? {
        SignReads(ts[0].sign);
        assert SignText(ts[0].sign)[0] in SignText(ts[0].sign);
      }
    }
  }

  lemma SeparableTail(ts: seq<Token>)
    requires Separable(ts) && ts != []
    ensures Separable(ts[1..])
    ensures |ts| > 1 ==> Adjacent(ts[0], ts[1..][0])
  {
    var rest := ts[1..];
    forall i | 0 <= i < |rest| - 1 ensures Adjacent(rest[i], rest[i + 1]) {
      assert Adjacent(ts[i + 1], ts[i + 1 + 1]);
    }
  }

  /** Scanning the emitted characters gives back the tokens. */
  lemma {:induction false} SpellingScans(ts: seq<Token>, operand: bool)
    requires Separable(ts)
    ensures Scan(Spell(ts, operand)) == Some(ts)
    decreases |ts|
  {
    hide Scan, Separable, TokenText, SignText, IsWordChar, IsSignChar;
    if ts == [] {
      ScanNothing();
    } else {
      var t, rest := ts[0], ts[1..];
      SeparableTail(ts);
      var tail := Spell(rest, IsWord(t) || t == RParen);
      SpellingScans(rest, IsWord(t) || t == RParen);
      SpellStart(rest, IsWord(t) || t == RParen);
      FirstIsReadable(ts);
      assert [t] + rest == ts;
      if IsWord(t) {
        ScanWord(t, tail);
      } else if t.Op? {
        ScanOperator(t.sign, tail, operand);
      } else {
        ScanPunctuation(t, tail);
      }
    }
  }

  lemma FirstIsReadable(ts: seq<Token>)
    requires Separable(ts) && ts != []
    ensures Readable(ts[0])
  {
  }

  lemma ScanNothing()
    ensures Scan("") == Some([])
  {
  }

  lemma ScanPunctuation(t: Token, tail: string)
    requires !IsWord(t) && !t.Op?
    ensures Scan(TokenText(t) + (if t == Comma then " " + tail else tail)) == Then(t, Scan(tail))
    ensures t == Comma ==> Scan(TokenText(t) + " " + tail) == Then(t, Scan(tail))
  {
    hide ReadWord, ReadSign, IsWordChar, IsSignChar;
    var after := if t == Comma then " " + tail else tail;
    assert (TokenText(t) + after)[1..] == after;
    assert (" " + tail)[1..] == tail;
    assert TokenText(t) + " " + tail == TokenText(t) + (" " + tail);
  }

  lemma ScanOperator(sign: Sign, tail: string, spaced: bool)
    requires !spaced ==> tail == "" || !IsSignChar(tail[0])
    ensures TokenText(Op(sign)) == SignText(sign)
    ensures Scan(if spaced then " " + SignText(sign) + " " + tail else SignText(sign) + tail) == Then(Op(sign), Scan(tail))
  {
    hide ReadWord, ReadSign, IsWordChar, SignText;
    if spaced {
      var text := SignText(sign);
      assert !IsSignChar((" " + tail)[0]);
      ScanSign(sign, " " + tail);
      assert (" " + tail)[1..] == tail;
      assert " " + text + " " + tail == " " + (text + (" " + tail));
      assert (" " + (text + (" " + tail)))[1..] == text + (" " + tail);
    } else {
      ScanSign(sign, tail);
    }
  }

  lemma ScanWord(t: Token, tail: string)
    requires IsWord(t) && Readable(t) && (tail == "" || !IsWordChar(tail[0]))
    ensures Scan(TokenText(t) + tail) == Then(t, Scan(tail))
  {
    hide IsWordChar, ReadWord, TokenText, IsSignChar;
    var text := TokenText(t);
    WordReads(t);
    WordRunStops(text, tail);
    assert (text + tail)[..|text|] == text && (text + tail)[|text|..] == tail;
    assert text[0] in text;
    WordCharIsNoPunctuation(text[0]);
  }

  lemma WordCharIsNoPunctuation(c: char)
    requires IsWordChar(c)
    ensures c != ' ' && c != '(' && c != ')' && c != ',' && c != '.'
  {
  }

  lemma ScanSign(sign: Sign, tail: string)
    requires tail == "" || !IsSignChar(tail[0])
    ensures Scan(SignText(sign) + tail) == Then(Op(sign), Scan(tail))
  {
    hide IsWordChar, ReadSign, SignText, IsSignChar;
    var text := SignText(sign);
    SignReads(sign);
    SignRunStops(text, tail);
    assert (text + tail)[..|text|] == text && (text + tail)[|text|..] == tail;
    assert text[0] in text;
    SignCharIsNoPunctuation(text[0]);
  }

  lemma SignCharIsNoPunctuation(c: char)
    requires IsSignChar(c)
    ensures c != ' ' && c != '(' && c != ')' && c != ',' && c != '.' && !IsWordChar(c)
  {
  }

  // ---------------------------------------------------------------- emitted expressions are such lists

  lemma Join(a: seq<Token>, b: seq<Token>)
    requires Separable(a) && Separable(b)
    requires a != [] && b != [] ==> Adjacent(a[|a| - 1], b[0])
    ensures Separable(a + b)
  {
    var c := a + b;
    forall i | 0 <= i < |c| ensures Readable(c[i]) {
      assert c[i] == if i < |a| then a[i] else b[i - |a|];
    }
    forall i | 0 <= i < |c| - 1 ensures Adjacent(c[i], c[i + 1]) {
      if i < |a| - 1 {
        assert Adjacent(a[i], a[i + 1]);
      } else if i >= |a| {
        assert Adjacent(b[i - |a|], b[i - |a| + 1]);
      }
    }
  }

  lemma ParenJoins(ts: seq<Token>)
    requires Separable(ts)
    ensures Separable(Paren(ts)) && Paren(ts)[0] == LParen && Paren(ts)[|Paren(ts)| - 1] == RParen
  {
    Join([LParen], ts);
    Join([LParen] + ts, [RParen]);
  }

  lemma InfixJoins(a: seq<Token>, s: Sign, b: seq<Token>)
    requires Separable(a) && Separable(b) && a != [] && b != [] && !a[|a| - 1].Op? && !b[0].Op?
    ensures Separable(a + [Op(s)] + b) && (a + [Op(s)] + b)[0] == a[0]
    ensures var c := a + [Op(s)] + b; c[|c| - 1] == b[|b| - 1]
  {
    Join(a, [Op(s)]);
    Join(a + [Op(s)], b);
  }

  lemma CallJoins(name: string, arg: seq<Token>)
    requires IsIdentifier(name) && Separable(arg)
    ensures var c := CallText(name, arg);
            Separable(c) && c != [] && c[0] == Ident(name) && c[|c| - 1] == RParen
  {
    ParenJoins(arg);
    Join([Ident(name)], Paren(arg));
  }

  lemma KeywordsAreIdentifiers()
    ensures IsIdentifier("uint256") && IsIdentifier("int256") && IsIdentifier("uint160") && IsIdentifier("address")
    ensures IsIdentifier("bytes32") && IsIdentifier("crossllmVm") && IsIdentifier("load") && IsIdentifier("true") && IsIdentifier("false")
    ensures IsIdentifier("sourcePool") && IsIdentifier("destinationPool")
  {
    hide IsIdentifier;
    Uint256IsIdentifier();
    Int256IsIdentifier();
    Uint160IsIdentifier();
    AddressIsIdentifier();
    Bytes32IsIdentifier();
    CrossllmVmIsIdentifier();
    LoadIsIdentifier();
    TrueIsIdentifier();
    FalseIsIdentifier();
    SourcePoolIsIdentifier();
    DestinationPoolIsIdentifier();
  }

  lemma Uint256IsIdentifier()
    ensures IsIdentifier("uint256")
  {
  }

  lemma Int256IsIdentifier()
    ensures IsIdentifier("int256")
  {
  }

  lemma Uint160IsIdentifier()
    ensures IsIdentifier("uint160")
  {
  }

  lemma AddressIsIdentifier()
    ensures IsIdentifier("address")
  {
  }

  lemma Bytes32IsIdentifier()
    ensures IsIdentifier("bytes32")
  {
  }

  lemma CrossllmVmIsIdentifier()
    ensures IsIdentifier("crossllmVm")
  {
  }

  lemma LoadIsIdentifier()
    ensures IsIdentifier("load")
  {
  }

  lemma TrueIsIdentifier()
    ensures IsIdentifier("true")
  {
  }

  lemma FalseIsIdentifier()
    ensures IsIdentifier("false")
  {
  }

  lemma SourcePoolIsIdentifier()
    ensures IsIdentifier("sourcePool")
  {
  }

  lemma DestinationPoolIsIdentifier()
    ensures IsIdentifier("destinationPool")
  {
  }

  lemma LoadJoins(target: string, slot: nat)
    requires IsIdentifier(target)
    ensures var c := LoadText(target, slot); Separable(c) && c != [] && c[0].Ident? && c[|c| - 1] == RParen
  {
    KeywordsAreIdentifiers();
    var a, b := CallText("address", [Ident(target)]), CallText("bytes32", CallText("uint256", [Number(slot)]));
    CallJoins("address", [Ident(target)]);
    CallJoins("uint256", [Number(slot)]);
    CallJoins("bytes32", CallText("uint256", [Number(slot)]));
    Join(a, [Comma]);
    Join(a + [Comma], b);
    ParenJoins(a + [Comma] + b);
    Join([Ident("crossllmVm"), Dot, Ident("load")], Paren(a + [Comma] + b));
  }

  lemma StorageJoins(t: SymbolType, target: string, slot: nat, offset: nat)
    requires IsIdentifier(target)
    ensures Separable(StorageText(t, target, slot, offset))
  {
    KeywordsAreIdentifiers();
    var raw := LoadText(target, slot);
    LoadJoins(target, slot);
    CallJoins("uint256", raw);
    match t
    case TBool =>
      var word := CallText("uint256", raw);
      InfixJoins(word, Shr, [Number(offset * 8)]);
      ParenJoins(word + [Op(Shr)] + [Number(offset * 8)]);
      var shifted := Paren(word + [Op(Shr)] + [Number(offset * 8)]);
      InfixJoins(shifted, Amp, [Number(1)]);
      ParenJoins(shifted + [Op(Amp)] + [Number(1)]);
      InfixJoins(Paren(shifted + [Op(Amp)] + [Number(1)]), NotEq, [Number(0)]);
    case TUint256 =>
    case TInt256 => CallJoins("int256", CallText("uint256", raw));
    case TAddress =>
      CallJoins("uint160", CallText("uint256", raw));
      CallJoins("address", CallText("uint160", CallText("uint256", raw)));
    case TBytes32 => CallJoins("bytes32", raw);
  }

  lemma ValueJoins(b: Binding, p: Prepared)
    requires ValueText(b, p).Some?
    ensures Separable(ValueText(b, p).value)
  {
    KeywordsAreIdentifiers();
    if b.getter.Some? && b.getter.value != "" {
    } else {
      StorageJoins(DeclaredType(b.symbolType).value, Target(b, p), b.slot.value, b.offset);
    }
  }

  lemma LiteralJoins(kind: string, value: LitValue)
    requires LiteralText(kind, value).Some?
    ensures Separable(LiteralText(kind, value).value)
  {
    KeywordsAreIdentifiers();
    match value
    case JBool(_) =>
    case JInt(_) =>
    case JText(s) =>
      assert Separable([HexNumber(s[2..])]);
      if kind == "address" {
        CallJoins("address", [HexNumber(s[2..])]);
      }
  }

  /** The shortened digest is written in word characters, as hexadecimal is. */
  ghost predicate DigestIsText(p: Prepared) {
    forall id :: forall c :: c in p.digest(id) ==> IsWordChar(c)
  }

  lemma PreNameIsIdentifier(id: string, p: Prepared)
    requires DigestIsText(p)
    ensures IsIdentifier(PreName(id, p))
  {
    var digest := p.digest(id);
    forall c | c in "pre_" + digest ensures IsWordChar(c) {
      assert c in "pre_" || c in digest;
    }
  }

  lemma {:induction false} TextIsSeparable(e: Pred, p: Prepared)
    requires Text(e, p).Some? && DigestIsText(p)
    ensures Separable(Text(e, p).value)
    decreases e
  {
    hide Separable, LiteralText, ValueText, BindingFor, PreName, DigestIsText;
    match e
    case Literal(kind, value) => LiteralJoins(kind, value);
    case Symbol(id, state) =>
      if state == "pre" {
        PreNameIsIdentifier(id, p);
        OneWord(PreName(id, p));
      } else {
        ValueJoins(BindingFor(p.bindings, id, state).value, p);
      }
    case Unary(op, operand) =>
      var t := Text(operand, p).value;
      TextIsSeparable(operand, p);
      PrefixJoins(Bang, t);
      PrefixJoins(Minus, t);
      PrefixJoins(Tilde, t);
    case Binary(op, left, right) =>
      var l, r := Text(left, p).value, Text(right, p).value;
      TextIsSeparable(left, p);
      TextIsSeparable(right, p);
      ParenJoins(l);
      ParenJoins(r);
      PrefixJoins(Bang, l);
      if op == "implies" {
        InfixJoins([Op(Bang)] + Paren(l), OrOr, Paren(r));
        ParenJoins([Op(Bang)] + Paren(l) + [Op(OrOr)] + Paren(r));
      } else {
        InfixJoins(Paren(l), BinaryOp(op).value, Paren(r));
        ParenJoins(Paren(l) + [Op(BinaryOp(op).value)] + Paren(r));
      }
  }

  lemma OneWord(name: string)
    requires IsIdentifier(name)
    ensures Separable([Ident(name)])
  {
  }

  lemma PrefixJoins(s: Sign, ts: seq<Token>)
    requires Separable(ts)
    ensures Separable([Op(s)] + Paren(ts)) && Separable(Paren([Op(s)] + Paren(ts)))
  {
    ParenJoins(ts);
    Join([Op(s)], Paren(ts));
    ParenJoins([Op(s)] + Paren(ts));
  }

  /** The emitted characters, scanned and parsed as Solidity, give exactly the intended operator tree. */
  lemma CharactersReadAsTree(e: Pred, p: Prepared)
    requires Text(e, p).Some? && DigestIsText(p)
    ensures Scan(Spell(Text(e, p).value, false)) == Some(Text(e, p).value)
    ensures Parse(Text(e, p).value) == Some(Tree(e, p))
  {
    TextIsSeparable(e, p);
    SpellingScans(Text(e, p).value, false);
    TextReadsAsTree(e, p);
    FullParses(Text(e, p).value, Tree(e, p));
  }

  /** The characters of every operator the lowering knows, by its name in the predicate. */
  lemma OperatorsAreSpelled(op: string)
    requires BinaryOp(op).Some?
    ensures var text := TokenText(Op(BinaryOp(op).value));
      && (op == "and" ==> text == "&&") && (op == "or" ==> text == "||")
      && (op == "eq" ==> text == "==") && (op == "neq" ==> text == "!=")
      && (op == "ge" ==> text == ">=") && (op == "le" ==> text == "<=") && (op == "gt" ==> text == ">") && (op == "lt" ==> text == "<")
      && (op == "add" ==> text == "+") && (op == "sub" ==> text == "-") && (op == "mul" ==> text == "*")
      && (op == "div" ==> text == "/") && (op == "mod" ==> text == "%")
      && (op == "band" ==> text == "&") && (op == "bor" ==> text == "|") && (op == "bxor" ==> text == "^")
      && (op == "shl" ==> text == "<<") && (op == "shr" ==> text == ">>")
  {
  }

  predicate EndsOperand(ts: seq<Token>, operand: bool) {
    if ts == [] then operand else IsWord(ts[|ts| - 1]) || ts[|ts| - 1] == RParen
  }

  lemma {:induction false} SpellConcat(a: seq<Token>, b: seq<Token>, operand: bool)
    ensures Spell(a + b, operand) == Spell(a, operand) + Spell(b, EndsOperand(a, operand))
    decreases |a|
  {
    hide TokenText;
    if a == [] {
      assert a + b == b;
    } else {
      var rest, first := a[1..], a[0];
      assert a + b == [first] + (rest + b);
      assert (a + b)[1..] == rest + b;
      SpellConcat(rest, b, IsWord(first) || first == RParen);
    }
  }

  lemma SpellOne(t: Token, operand: bool)
    ensures Spell([t], operand) == if t.Op? && operand then " " + TokenText(t) + " " else if t == Comma then ", " else TokenText(t)
  {
    assert Spell([], IsWord(t) || t == RParen) == "";
  }

  lemma ParenSpelled(ts: seq<Token>, operand: bool)
    ensures Spell(Paren(ts), operand) == "(" + Spell(ts, false) + ")" && EndsOperand(Paren(ts), operand)
  {
    hide Spell;
    SpellConcat([LParen] + ts, [RParen], operand);
    SpellConcat([LParen], ts, operand);
    SpellOne(LParen, operand);
    SpellOne(RParen, EndsOperand([LParen] + ts, operand));
    assert Paren(ts) == [LParen] + ts + [RParen];
  }

  /** The characters of each form, for all operands: a binary operator in a pair of parentheses around two
      more, implication as not-or, bit complement without outer parentheses. */
  lemma FormsAreSpelled(e: Pred, p: Prepared)
    requires Text(e, p).Some?
    ensures var text := Spell(Text(e, p).value, false);
      && (e.Binary? ==>
            var l, r := Spell(Text(e.left, p).value, false), Spell(Text(e.right, p).value, false);
            text == if e.op == "implies" then "(!(" + l + ") || (" + r + "))"
                    else "((" + l + ") " + TokenText(Op(BinaryOp(e.op).value)) + " (" + r + "))")
      && (e.Unary? ==>
            var x := Spell(Text(e.operand, p).value, false);
            text == if e.op == "not" then "(!(" + x + "))" else if e.op == "neg" then "(-(" + x + "))" else "~(" + x + ")")
  {
    hide Spell, BinaryOp, LiteralText, ValueText, TokenText;
    match e
    case Binary(op, left, right) =>
      var l, r := Text(left, p).value, Text(right, p).value;
      if op == "implies" {
        ImpliesSpelled(l, r);
      } else {
        BinarySpelled(BinaryOp(op).value, l, r);
      }
    case Unary(op, operand) =>
      UnarySpelled(Text(operand, p).value);
    case _ =>
  }

  lemma BinarySpelled(s: Sign, l: seq<Token>, r: seq<Token>)
    ensures Spell(Paren(Paren(l) + [Op(s)] + Paren(r)), false)
         == "((" + Spell(l, false) + ") " + TokenText(Op(s)) + " (" + Spell(r, false) + "))"
  {
    hide Spell, TokenText;
    ParenSpelled(Paren(l) + [Op(s)] + Paren(r), false);
    ParenSpelled(l, false);
    JoinedSpelled(Paren(l), s, r);
    var x, o, y := Spell(l, false), TokenText(Op(s)), Spell(r, false);
    assert "(" + ("(" + x + ")" + " " + o + " (" + y + ")") + ")" == "((" + x + ") " + o + " (" + y + "))";
  }

  lemma ImpliesSpelled(l: seq<Token>, r: seq<Token>)
    ensures Spell(Paren([Op(Bang)] + Paren(l) + [Op(OrOr)] + Paren(r)), false)
         == "(!(" + Spell(l, false) + ") || (" + Spell(r, false) + "))"
  {
    hide Spell;
    ParenSpelled([Op(Bang)] + Paren(l) + [Op(OrOr)] + Paren(r), false);
    PrefixSpelled(Bang, l);
    JoinedSpelled([Op(Bang)] + Paren(l), OrOr, r);
    var x, y := Spell(l, false), Spell(r, false);
    assert "(" + ("!" + ("(" + x + ")") + " " + "||" + " (" + y + ")") + ")" == "(!(" + x + ") || (" + y + "))";
  }

  lemma UnarySpelled(x: seq<Token>)
    ensures Spell(Paren([Op(Bang)] + Paren(x)), false) == "(!(" + Spell(x, false) + "))"
    ensures Spell(Paren([Op(Minus)] + Paren(x)), false) == "(-(" + Spell(x, false) + "))"
    ensures Spell([Op(Tilde)] + Paren(x), false) == "~(" + Spell(x, false) + ")"
  {
    hide Spell;
    PrefixSpelled(Bang, x);
    PrefixSpelled(Minus, x);
    PrefixSpelled(Tilde, x);
    ParenSpelled([Op(Bang)] + Paren(x), false);
    ParenSpelled([Op(Minus)] + Paren(x), false);
    var s := Spell(x, false);
    assert "(" + ("!" + ("(" + s + ")")) + ")" == "(!(" + s + "))";
    assert "(" + ("-" + ("(" + s + ")")) + ")" == "(-(" + s + "))";
    assert "~" + ("(" + s + ")") == "~(" + s + ")";
  }

  lemma PrefixSpelled(s: Sign, ts: seq<Token>)
    ensures Spell([Op(s)] + Paren(ts), false) == TokenText(Op(s)) + ("(" + Spell(ts, false) + ")")
    ensures EndsOperand([Op(s)] + Paren(ts), false)
  {
    hide Spell;
    SpellConcat([Op(s)], Paren(ts), false);
    SpellOne(Op(s), false);
    ParenSpelled(ts, false);
  }

  lemma JoinedSpelled(left: seq<Token>, s: Sign, r: seq<Token>)
    requires EndsOperand(left, false)
    ensures Spell(left + [Op(s)] + Paren(r), false) == Spell(left, false) + " " + TokenText(Op(s)) + " (" + Spell(r, false) + ")"
  {
    hide Spell, TokenText;
    SpellConcat(left + [Op(s)], Paren(r), false);
    SpellConcat(left, [Op(s)], false);
    SpellOne(Op(s), true);
    ParenSpelled(r, false);
  }
}
