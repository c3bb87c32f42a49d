/** Canonical ABI type text, its parser, and the symbol identifiers built from signatures. */
module AbiTypes {
  import opened Wrappers

  /** A parameter as the compiler lists it. */
  datatype Item = Item(typ: string, hasComponents: bool, components: seq<Item>)

  const TUPLE := "tuple"

  function Join(texts: seq<string>): string {
    if texts == [] then ""
    else if |texts| == 1 then texts[0]
    else texts[0] + "," + Join(texts[1..])
  }

  /** _abi_type; None where it raises. */
  function AbiText(item: Item): Option<string>
    decreases item, 1
  {
    if item.typ == "" then None
    else if !(TUPLE <= item.typ) then Some(item.typ)
    else if !item.hasComponents then None
    else
      match AbiTexts(item.components)
      case None => None
      case Some(texts) => Some("(" + Join(texts) + ")" + item.typ[5..])
  }

  function AbiTexts(items: seq<Item>): (r: Option<seq<string>>)
    ensures r.Some? ==> |r.value| == |items|
    decreases items, 0
  {
    if items == [] then Some([])
    else
      match (AbiText(items[0]), AbiTexts(items[1..]))
      case (Some(t), Some(ts)) => Some([t] + ts)
      case _ => None
  }

  /** f"{name}({','.join(...)})" */
  function Signature(name: string, inputs: seq<Item>): Option<string> {
    match AbiTexts(inputs)
    case None => None
    case Some(texts) => Some(name + "(" + Join(texts) + ")")
  }

  // ---------------------------------------------------------------- type trees and their parser

  datatype Tree = Leaf(name: string) | Node(children: seq<Tree>, suffix: string)

  function TreeOf(item: Item): Tree
    decreases item, 1
  {
    if |item.typ| < 5 || !(TUPLE <= item.typ) then Leaf(item.typ) else Node(TreesOf(item.components), item.typ[5..])
  }

  function TreesOf(items: seq<Item>): seq<Tree>
    decreases items, 0
  {
    if items == [] then [] else [TreeOf(items[0])] + TreesOf(items[1..])
  }

  predicate IsPlain(c: char) {
    c != '(' && c != ')' && c != ','
  }

  predicate AllPlain(s: string) {
    forall c :: c in s ==> IsPlain(c)
  }

  /** Type names and array suffixes use none of the three punctuation characters, as in every compiler ABI. */
  predicate Printable(item: Item)
    decreases item, 1
  {
    AllPlain(item.typ) && AllPrintable(item.components)
  }

  predicate AllPrintable(items: seq<Item>)
    decreases items, 0
  {
    items == [] || (Printable(items[0]) && AllPrintable(items[1..]))
  }

  function PlainRun(s: string): (n: nat)
    ensures n <= |s|
  {
    if s == "" || !IsPlain(s[0]) then 0 else 1 + PlainRun(s[1..])
  }

  type Parsed<T> = Option<(T, string)>

  function ParseType(s: string): (r: Parsed<Tree>)
    ensures r.Some? ==> |r.value.1| < |s|
    decreases |s|, 0
  {
    if s == "" then None
    else if s[0] == '(' then
      var inner: Parsed<seq<Tree>> := if |s| >= 2 && s[1] == ')' then Some(([], s[1..])) else ParseList(s[1..]);
      match inner
      case None => None
      case Some((children, rest)) =>
        if rest == "" || rest[0] != ')' then None
        else
          var n := PlainRun(rest[1..]);
          Some((Node(children, rest[1..][..n]), rest[1..][n..]))
    else if PlainRun(s) == 0 then None
    else Some((Leaf(s[..PlainRun(s)]), s[PlainRun(s)..]))
  }

  function ParseList(s: string): (r: Parsed<seq<Tree>>)
    ensures r.Some? ==> |r.value.1| < |s|
    decreases |s|, 1
  {
    match ParseType(s)
    case None => None
    case Some((t, rest)) =>
      if rest != "" && rest[0] == ',' then
        match ParseList(rest[1..])
        case None => None
        case Some((ts, rest2)) => Some(([t] + ts, rest2))
      else Some(([t], rest))
  }

  lemma {:induction false} PlainRunStops(a: string, rest: string)
    requires AllPlain(a) && (rest == "" || !IsPlain(rest[0]))
    ensures PlainRun(a + rest) == |a|
    decreases |a|
  {
    if a == "" {
      assert a + rest == rest;
    } else {
      assert (a + rest)[1..] == a[1..] + rest;
      assert a[0] in a;
      PlainRunStops(a[1..], rest);
    }
  }

  lemma NoItems()
    ensures AbiTexts([]) == Some([]) && TreesOf([]) == [] && Join([]) == ""
  {
  }

  /** Printing a type and parsing it gives the type back, whatever closes it. */
  lemma {:induction false} TypeRoundTrip(item: Item, rest: string)
    requires AbiText(item).Some? && Printable(item)
    requires rest == "" || rest[0] == ',' || rest[0] == ')'
    ensures ParseType(AbiText(item).value + rest) == Some((TreeOf(item), rest))
    ensures AbiText(item).value != "" && AbiText(item).value[0] != ')'
    decreases item, 1
  {
    hide PlainRun, AbiTexts, TreesOf, Join, ParseList, AllPrintable;
    if !(TUPLE <= item.typ) {
      assert item.typ[0] in item.typ;
      PlainRunStops(item.typ, rest);
    } else {
      hide ParseType;
      var texts, suffix := AbiTexts(item.components).value, item.typ[5..];
      var inner := Join(texts) + (")" + suffix + rest);
      assert AbiText(item).value + rest == "(" + inner;
      if item.components == [] {
        NoItems();
        assert inner == ")" + suffix + rest;
      } else {
        ListRoundTrip(item.components, ")" + suffix + rest);
      }
      GroupParses(inner, TreesOf(item.components), suffix, rest);
    }
  }

  /** A list that parses, closed and followed by a plain suffix, parses as one tuple type. */
  lemma GroupParses(inner: string, children: seq<Tree>, suffix: string, rest: string)
    requires AllPlain(suffix) && (rest == "" || rest[0] == ',' || rest[0] == ')')
    requires inner != ""
    requires if inner[0] == ')' then children == [] && inner == ")" + suffix + rest
             else ParseList(inner) == Some((children, ")" + suffix + rest))
    ensures ParseType("(" + inner) == Some((Node(children, suffix), rest))
  {
    hide PlainRun, ParseList, AllPlain, IsPlain;
    assert ("(" + inner)[1..] == inner;
    assert (")" + suffix + rest)[1..] == suffix + rest;
    ParenIsNotPlain(rest);
    PlainRunStops(suffix, rest);
    assert (suffix + rest)[..|suffix|] == suffix && (suffix + rest)[|suffix|..] == rest;
  }

  lemma ParenIsNotPlain(rest: string)
    requires rest == "" || rest[0] == ',' || rest[0] == ')'
    ensures rest == "" || !IsPlain(rest[0])
  {
  }

  lemma {:induction false} ListRoundTrip(items: seq<Item>, rest: string)
    requires AbiTexts(items).Some? && AllPrintable(items) && items != []
    requires rest != "" && rest[0] == ')'
    ensures ParseList(Join(AbiTexts(items).value) + rest) == Some((TreesOf(items), rest))
    ensures Join(AbiTexts(items).value) != "" && Join(AbiTexts(items).value)[0] != ')'
    decreases items, 0
  {
    hide PlainRun, ParseType, TreeOf, AbiText, Printable;
    var texts := AbiTexts(items).value;
    if |items| == 1 {
      assert items[1..] == [] && texts == [AbiText(items[0]).value];
      assert TreesOf(items) == [TreeOf(items[0])];
      assert Join(texts) == texts[0];
      TypeRoundTrip(items[0], rest);
      assert ParseList(texts[0] + rest) == Some(([TreeOf(items[0])], rest));
    } else {
      var tail := "," + Join(texts[1..]) + rest;
      assert Join(texts) + rest == texts[0] + tail;
      TypeRoundTrip(items[0], tail);
      ListRoundTrip(items[1..], rest);
      assert tail[1..] == Join(texts[1..]) + rest;
    }
  }

  // ---------------------------------------------------------------- main results

  /** Splitting at the first occurrence of a character neither name contains. */
  lemma SplitAtFirst(a: string, x: string, b: string, y: string, c: char)
    requires c !in a && c !in b && a + [c] + x == b + [c] + y
    ensures a == b && x == y
  {
    var s := a + [c] + x;
    assert s[|a|] == c && s[|b|] == c;
    assert forall i :: 0 <= i < |a| ==> s[i] == a[i];
    assert forall i :: 0 <= i < |b| ==> s[i] == b[i];
    assert |a| == |b|;
    assert s[..|a|] == a && s[..|b|] == b;
    assert s[|a| + 1..] == x && s[|b| + 1..] == y;
  }

  lemma SplitAtLast(a: string, x: string, b: string, y: string, c: char)
    requires c !in x && c !in y && a + [c] + x == b + [c] + y
    ensures a == b && x == y
  {
    var s := a + [c] + x;
    assert s[|a|] == c && s[|b|] == c;
    assert forall i :: |a| < i < |s| ==> s[i] == x[i - |a| - 1];
    assert forall i :: |b| < i < |s| ==> s[i] == y[i - |b| - 1];
    assert |a| == |b|;
    assert s[..|a|] == a && s[..|b|] == b;
    assert s[|a| + 1..] == x && s[|b| + 1..] == y;
  }

  /** A signature determines the name and all argument types, nested tuples and arrays included. */
  lemma SignatureDetermines(name: string, inputs: seq<Item>, name2: string, inputs2: seq<Item>)
    requires '(' !in name && '(' !in name2
    requires AllPrintable(inputs) && AllPrintable(inputs2)
    requires Signature(name, inputs).Some? && Signature(name, inputs) == Signature(name2, inputs2)
    ensures name == name2 && TreesOf(inputs) == TreesOf(inputs2)
  {
    var a, b := Join(AbiTexts(inputs).value), Join(AbiTexts(inputs2).value);
    assert name + "(" + a + ")" == name + "(" + (a + ")");
    assert name2 + "(" + b + ")" == name2 + "(" + (b + ")");
    SplitAtFirst(name, a + ")", name2, b + ")", '(');
    if inputs != [] {
      ListRoundTrip(inputs, ")");
    }
    if inputs2 != [] {
      ListRoundTrip(inputs2, ")");
    }
  }

  function SymbolId(kind: string, contract: string, signature: string, hash: string -> string): string {
    kind + "." + contract + "." + hash(contract + ":" + kind + ":" + signature)
  }

  ghost predicate Injective(hash: string -> string) {
    forall x, y :: hash(x) == hash(y) ==> x == y
  }

  /** Two symbols share an identifier only if contract, kind and signature agree, for a collision-free hash
      whose digests contain no dot. */
  lemma SymbolIdDetermines(kind: string, contract: string, signature: string,
                           kind2: string, contract2: string, signature2: string, hash: string -> string)
    requires Injective(hash) && forall x :: '.' !in hash(x)
    requires ':' !in contract && ':' !in contract2 && ':' !in kind && ':' !in kind2
    requires SymbolId(kind, contract, signature, hash) == SymbolId(kind2, contract2, signature2, hash)
    ensures kind == kind2 && contract == contract2 && signature == signature2
  {
    var x, y := contract + ":" + kind + ":" + signature, contract2 + ":" + kind2 + ":" + signature2;
    SplitAtLast(kind + "." + contract, hash(x), kind2 + "." + contract2, hash(y), '.');
    assert x == contract + ":" + (kind + ":" + signature);
    assert y == contract2 + ":" + (kind2 + ":" + signature2);
    SplitAtFirst(contract, kind + ":" + signature, contract2, kind2 + ":" + signature2, ':');
    SplitAtFirst(kind, signature, kind2, signature2, ':');
  }

  // ---------------------------------------------------------------- which items have a text

  /** Every type is named, and every tuple lists its components. */
  predicate Typed(item: Item)
    decreases item, 1
  {
    item.typ != "" && (TUPLE <= item.typ ==> item.hasComponents && AllTyped(item.components))
  }

  predicate AllTyped(items: seq<Item>)
    decreases items, 0
  {
    items == [] || (Typed(items[0]) && AllTyped(items[1..]))
  }

  lemma {:induction false} TextExactlyWhenTyped(item: Item)
    ensures AbiText(item).Some? <==> Typed(item)
    decreases item, 1
  {
    if TUPLE <= item.typ {
      TextsExactlyWhenTyped(item.components);
    }
  }

  lemma {:induction false} TextsExactlyWhenTyped(items: seq<Item>)
    ensures AbiTexts(items).Some? <==> AllTyped(items)
    decreases items, 0
  {
    if items != [] {
      TextExactlyWhenTyped(items[0]);
      TextsExactlyWhenTyped(items[1..]);
    }
  }

  /** How two arguments, and a tuple of two with an array suffix, are written. */
  lemma PairIsWritten(name: string, pair: seq<Item>, x: string, y: string, suffix: string)
    requires AbiTexts(pair) == Some([x, y])
    ensures Signature(name, pair) == Some(name + "(" + x + "," + y + ")")
    ensures AbiText(Item("tuple" + suffix, true, pair)) == Some("(" + x + "," + y + ")" + suffix)
  {
    hide AbiTexts;
    assert [x, y][1..] == [y] && Join([x, y]) == x + "," + y;
    assert ("tuple" + suffix)[5..] == suffix && TUPLE <= "tuple" + suffix;
    assert name + "(" + Join([x, y]) + ")" == name + "(" + x + "," + y + ")";
    assert "(" + Join([x, y]) + ")" == "(" + x + "," + y + ")";
  }
}
