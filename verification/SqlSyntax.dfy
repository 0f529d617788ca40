/** SQL conditions written down and read again. */
module SqlSyntax {
  // The reader undoes the writing of any condition, token by token; and the tokens of pieces put together are the
  // tokens of the pieces.

  import opened Bytes
  import opened SqlPieces
  import opened SqlExpressions
  import opened SqlReader

  // ---- a condition as tokens

  function SideToken(o: Side): Token {
    match o
    case Column(name) => Word(name)
    case Number(digits) => Word(digits)
    case Param(arg) => Given(arg)
  }

  function NotToken(not: bool): seq<Token> {
    if not then [Word("NOT")] else []
  }

  function ItemTokens(items: seq<Side>): seq<Token> {
    if items == [] then []
    else if |items| == 1 then [SideToken(items[0])]
    else [SideToken(items[0]), Sign(',')] + ItemTokens(items[1..])
  }

  function AtomTokens(a: Atom): (toks: seq<Token>)
    decreases a
  {
    match a
    case Test(left, operator, right) => [SideToken(left), Rel(operator), SideToken(right)]
    case NullTest(left, not) => [SideToken(left), Word("IS")] + NotToken(not) + [Word("NULL")]
    case ListTest(left, not, items) =>
      [SideToken(left)] + NotToken(not) + [Word("IN"), Sign('(')] + ItemTokens(items) + [Sign(')')]
    case LikeTest(left, not, anyCase, right) =>
      [SideToken(left)] + NotToken(not) + [Word(if anyCase then "ILIKE" else "LIKE"), SideToken(right)]
    case Group(alternatives) => [Sign('(')] + AnyTokens(alternatives) + [Sign(')')]
  }

  function AllTokens(atoms: seq<Atom>): seq<Token>
    decreases atoms
  {
    if atoms == [] then []
    else if |atoms| == 1 then AtomTokens(atoms[0])
    else AtomTokens(atoms[0]) + [Word("AND")] + AllTokens(atoms[1..])
  }

  function AnyTokens(alternatives: seq<Terms>): seq<Token>
    decreases alternatives
  {
    if alternatives == [] then []
    else if |alternatives| == 1 then AllTokens(alternatives[0].atoms)
    else AllTokens(alternatives[0].atoms) + [Word("OR")] + AnyTokens(alternatives[1..])
  }

  // ---- conditions that can be written

  predicate SideOk(o: Side) {
    (o.Column? ==> IsName(o.name)) && (o.Number? ==> IsDigits(o.digits))
  }

  predicate SidesOk(items: seq<Side>) {
    forall o <- items :: SideOk(o)
  }

  predicate AtomOk(a: Atom)
    decreases a
  {
    match a
    case Test(left, operator, right) => SideOk(left) && IsComparison(operator) && SideOk(right)
    case NullTest(left, _) => SideOk(left)
    case ListTest(left, _, items) => SideOk(left) && items != [] && SidesOk(items)
    case LikeTest(left, _, _, right) => SideOk(left) && SideOk(right)
    case Group(alternatives) => alternatives != [] && AnyOk(alternatives)
  }

  predicate AllOk(atoms: seq<Atom>)
    decreases atoms
  {
    atoms == [] || (AtomOk(atoms[0]) && AllOk(atoms[1..]))
  }

  predicate AnyOk(alternatives: seq<Terms>)
    decreases alternatives
  {
    alternatives == []
    || (alternatives[0].atoms != [] && AllOk(alternatives[0].atoms) && AnyOk(alternatives[1..]))
  }

  // ---- reading undoes writing

  lemma {:induction false} SideReads(o: Side, toks: seq<Token>, i: nat)
    requires SideOk(o) && i < |toks| && toks[i] == SideToken(o)
    ensures ReadSide(toks, i) == Some(o)
  {}

  lemma {:induction false} LastItemReads(item: Side, rest: seq<Token>)
    requires SideOk(item)
    ensures ReadItems([SideToken(item), Sign(')')] + rest) == Parsed([item], rest)
  {
    hide SideOk, ReadSide, SideToken;
    var toks := [SideToken(item), Sign(')')] + rest;
    SideReads(item, toks, 0);
    assert toks[2..] == rest;
  }

  lemma {:induction false} ItemThenMore(item: Side, more: seq<Token>)
    requires SideOk(item) && ReadItems(more).Parsed?
    ensures ReadItems([SideToken(item), Sign(',')] + more)
         == Parsed([item] + ReadItems(more).value, ReadItems(more).rest)
  {
    hide SideOk, ReadSide, SideToken;
    var toks := [SideToken(item), Sign(',')] + more;
    SideReads(item, toks, 0);
    assert toks[2..] == more;
  }

  lemma {:induction false} Regrouped(a: seq<Token>, b: seq<Token>, c: seq<Token>, d: seq<Token>)
    requires |b| == 1
    ensures a + b + c + d == a + (b + c + d) && (b + c + d)[1..] == c + d && (b + c + d)[0] == b[0]
  {
    assert b + c + d == b + (c + d);
  }

  lemma {:induction false} ItemsRead(items: seq<Side>, rest: seq<Token>)
    requires items != [] && SidesOk(items)
    ensures ReadItems(ItemTokens(items) + [Sign(')')] + rest) == Parsed(items, rest)
    decreases |items|
  {
    hide SideOk, ReadItems, SideToken;
    var close := [Sign(')')];
    assert items[0] in items;
    if |items| == 1 {
      LastItemReads(items[0], rest);
      assert [SideToken(items[0])] + close + rest == [SideToken(items[0]), Sign(')')] + rest;
      assert [items[0]] == items;
    } else {
      assert forall o <- items[1..] :: o in items;
      ItemsRead(items[1..], rest);
      ItemThenMore(items[0], ItemTokens(items[1..]) + close + rest);
      var first := [SideToken(items[0]), Sign(',')];
      assert first + ItemTokens(items[1..]) + close + rest == first + (ItemTokens(items[1..]) + close + rest);
      assert [items[0]] + items[1..] == items;
    }
  }

  lemma {:induction false} NullTestReads(left: Side, not: bool, rest: seq<Token>)
    requires SideOk(left)
    ensures ReadAtom(AtomTokens(NullTest(left, not)) + rest) == Parsed(NullTest(left, not), rest)
  {
    hide SideOk, ReadSide;
    var toks := AtomTokens(NullTest(left, not)) + rest;
    SideReads(left, toks, 0);
    assert toks[1..] == [Word("IS")] + NotToken(not) + [Word("NULL")] + rest;
    assert toks[1..][if not then 3 else 2..] == rest;
    NoSign(left);
  }

  lemma {:induction false} NoSign(o: Side)
    ensures !SideToken(o).Sign? && !SideToken(o).Rel?
  {}

  lemma {:induction false} TestReads(left: Side, operator: string, right: Side, rest: seq<Token>)
    requires SideOk(left) && IsComparison(operator) && SideOk(right)
    ensures ReadAtom(AtomTokens(Test(left, operator, right)) + rest) == Parsed(Test(left, operator, right), rest)
  {
    hide SideOk, ReadSide, IsComparison;
    var toks := AtomTokens(Test(left, operator, right)) + rest;
    SideReads(left, toks, 0);
    SideReads(right, toks[1..], 1);
    assert toks[1..][2..] == rest;
    NoSign(left);
  }

  lemma {:induction false} LikeTestReads(left: Side, not: bool, anyCase: bool, right: Side, rest: seq<Token>)
    requires SideOk(left) && SideOk(right)
    ensures ReadAtom(AtomTokens(LikeTest(left, not, anyCase, right)) + rest)
         == Parsed(LikeTest(left, not, anyCase, right), rest)
  {
    hide SideOk, ReadSide;
    var toks := AtomTokens(LikeTest(left, not, anyCase, right)) + rest;
    var k := if not then 1 else 0;
    SideReads(left, toks, 0);
    assert toks[1..] == NotToken(not) + [Word(if anyCase then "ILIKE" else "LIKE"), SideToken(right)] + rest;
    SideReads(right, toks[1..], k + 1);
    assert toks[1..][k + 2..] == rest;
    NoSign(left);
    NoSign(right);
  }

  lemma {:induction false} ListTestReads(left: Side, not: bool, items: seq<Side>, rest: seq<Token>)
    requires SideOk(left) && items != [] && SidesOk(items)
    ensures ReadAtom(AtomTokens(ListTest(left, not, items)) + rest) == Parsed(ListTest(left, not, items), rest)
  {
    hide SideOk, SidesOk, ReadSide, ReadItems, ItemTokens;
    var toks := AtomTokens(ListTest(left, not, items)) + rest;
    var k := if not then 1 else 0;
    SideReads(left, toks, 0);
    assert toks[1..] == NotToken(not) + [Word("IN"), Sign('(')] + ItemTokens(items) + [Sign(')')] + rest;
    assert toks[1..][k + 2..] == ItemTokens(items) + [Sign(')')] + rest;
    ItemsRead(items, rest);
    NoSign(left);
  }

  lemma {:induction false} AtomReads(a: Atom, rest: seq<Token>)
    requires AtomOk(a)
    ensures ReadAtom(AtomTokens(a) + rest) == Parsed(a, rest)
    decreases a
  {
    match a
    case Test(left, operator, right) => TestReads(left, operator, right, rest);
    case NullTest(left, not) => NullTestReads(left, not, rest);
    case ListTest(left, not, items) => ListTestReads(left, not, items, rest);
    case LikeTest(left, not, anyCase, right) => LikeTestReads(left, not, anyCase, right, rest);
    case Group(alternatives) =>
      hide ReadAny, AnyTokens, AnyOk;
      var toks, close := AtomTokens(a) + rest, [Sign(')')] + rest;
      AnyReads(alternatives, close);
      assert toks[1..] == AnyTokens(alternatives) + close;
      assert close[1..] == rest;
  }

  lemma {:induction false} AllReads(atoms: seq<Atom>, rest: seq<Token>)
    requires atoms != [] && AllOk(atoms) && !HasWord(rest, 0, "AND")
    ensures ReadAll(AllTokens(atoms) + rest) == Parsed(atoms, rest)
    decreases atoms
  {
    hide AtomTokens, ReadAtom, AtomOk;
    if |atoms| == 1 {
      AtomReads(atoms[0], rest);
      assert [atoms[0]] == atoms;
    } else {
      var more := [Word("AND")] + AllTokens(atoms[1..]) + rest;
      AtomReads(atoms[0], more);
      AllReads(atoms[1..], rest);
      Regrouped(AtomTokens(atoms[0]), [Word("AND")], AllTokens(atoms[1..]), rest);
      assert [atoms[0]] + atoms[1..] == atoms;
    }
  }

  lemma {:induction false} AnyReads(alternatives: seq<Terms>, rest: seq<Token>)
    requires alternatives != [] && AnyOk(alternatives) && !HasWord(rest, 0, "AND") && !HasWord(rest, 0, "OR")
    ensures ReadAny(AnyTokens(alternatives) + rest) == Parsed(alternatives, rest)
    decreases alternatives
  {
    hide AllTokens, ReadAll, AllOk;
    var first := alternatives[0].atoms;
    assert Terms(first) == alternatives[0];
    if |alternatives| == 1 {
      AllReads(first, rest);
      assert [alternatives[0]] == alternatives;
    } else {
      var more := [Word("OR")] + AnyTokens(alternatives[1..]) + rest;
      AllReads(first, more);
      AnyReads(alternatives[1..], rest);
      Regrouped(AllTokens(first), [Word("OR")], AnyTokens(alternatives[1..]), rest);
      assert [alternatives[0]] + alternatives[1..] == alternatives;
    }
  }

  // ---- conditions side by side

  lemma {:induction false} AllTokensAppend(a: seq<Atom>, b: seq<Atom>)
    requires a != [] && b != []
    ensures AllTokens(a + b) == AllTokens(a) + [Word("AND")] + AllTokens(b)
    decreases |a|
  {
    hide AtomTokens;
    assert (a + b)[0] == a[0] && (a + b)[1..] == a[1..] + b;
    if |a| == 1 {
      assert a[1..] + b == b;
    } else {
      AllTokensAppend(a[1..], b);
      var and := [Word("AND")];
      assert AtomTokens(a[0]) + and + (AllTokens(a[1..]) + and + AllTokens(b))
          == AtomTokens(a[0]) + and + AllTokens(a[1..]) + and + AllTokens(b);
    }
  }

  lemma {:induction false} AnyTokensAppend(a: seq<Terms>, b: seq<Terms>)
    requires a != [] && b != []
    ensures AnyTokens(a + b) == AnyTokens(a) + [Word("OR")] + AnyTokens(b)
    decreases |a|
  {
    hide AllTokens;
    assert (a + b)[0] == a[0] && (a + b)[1..] == a[1..] + b;
    if |a| == 1 {
      assert a[1..] + b == b;
    } else {
      AnyTokensAppend(a[1..], b);
      var or, first := [Word("OR")], AllTokens(a[0].atoms);
      assert first + or + (AnyTokens(a[1..]) + or + AnyTokens(b)) == first + or + AnyTokens(a[1..]) + or + AnyTokens(b);
    }
  }

  lemma {:induction false} AllOkAppend(a: seq<Atom>, b: seq<Atom>)
    requires AllOk(a) && AllOk(b)
    ensures AllOk(a + b)
    decreases |a|
  {
    if a == [] {
      assert a + b == b;
    } else {
      assert (a + b)[0] == a[0] && (a + b)[1..] == a[1..] + b;
      AllOkAppend(a[1..], b);
    }
  }

  lemma {:induction false} AnyOkAppend(a: seq<Terms>, b: seq<Terms>)
    requires AnyOk(a) && AnyOk(b)
    ensures AnyOk(a + b)
    decreases |a|
  {
    if a == [] {
      assert a + b == b;
    } else {
      assert (a + b)[0] == a[0] && (a + b)[1..] == a[1..] + b;
      AnyOkAppend(a[1..], b);
    }
  }

  // ---- the tokens of pieces

  /** No word or operator goes on across the seam. */
  predicate Apart(p: SqlParts, q: SqlParts) {
    p == [] || q == [] || forall k :: !(Belongs(k, p[|p| - 1]) && Belongs(k, q[0]))
  }

  lemma {:induction false} RunAppend(k: Class, p: SqlParts, q: SqlParts)
    requires p != [] && Apart(p, q)
    ensures Run(k, p + q) == Run(k, p)
  {
    assert (p + q)[0] == p[0] && (p + q)[1..] == p[1..] + q;
    if Belongs(k, p[0]) {
      if |p| == 1 {
        assert p[1..] + q == q;
      } else {
        assert p[1..][|p[1..]| - 1] == p[|p| - 1];
        RunAppend(k, p[1..], q);
      }
    }
  }

  lemma {:induction false} RunEndsOrNot(k: Class, p: SqlParts)
    ensures Run(k, p) < |p| ==> !Belongs(k, p[Run(k, p)])
    ensures forall i :: 0 <= i < Run(k, p) ==> Belongs(k, p[i])
  {
    if p != [] && Belongs(k, p[0]) {
      RunEndsOrNot(k, p[1..]);
    }
  }

  lemma {:induction false} RunTokens(k: Class, p: SqlParts, q: SqlParts)
    requires p != [] && Apart(p, q) && Belongs(k, p[0])
    ensures var n := Run(k, p);
      && 0 < n <= |p| && Run(k, p + q) == n
      && (p + q)[..n] == p[..n] && (p + q)[n..] == p[n..] + q && Apart(p[n..], q)
  {
    RunAppend(k, p, q);
  }

  lemma {:induction false} OneClass(x: Piece<Arg>)
    ensures !(Belongs(InWord, x) && Belongs(InOperator, x))
  {}

  lemma {:induction false} TokensAppend(p: SqlParts, q: SqlParts)
    requires Apart(p, q)
    ensures Tokens(p + q) == Tokens(p) + Tokens(q)
    decreases |p|
  {
    if p == [] {
      assert p + q == q;
    } else {
      hide Belongs, Run, Text, Apart;
      FirstToken(p, q);
    }
  }

  lemma {:induction false} FirstToken(p: SqlParts, q: SqlParts)
    requires p != [] && Apart(p, q)
    ensures Tokens(p + q) == Tokens(p) + Tokens(q)
    decreases |p|, 0
  {
    hide Run, Text, Belongs;
    assert (p + q)[0] == p[0] && (p + q)[1..] == p[1..] + q;
    OneClass(p[0]);
    if Belongs(InWord, p[0]) {
      var n := Run(InWord, p);
      RunTokens(InWord, p, q);
      TokensAppend(p[n..], q);
      NotBlank(InWord, p[0]);
    } else if Belongs(InOperator, p[0]) {
      var n := Run(InOperator, p);
      RunTokens(InOperator, p, q);
      TokensAppend(p[n..], q);
      NotBlank(InOperator, p[0]);
    } else {
      assert Apart(p[1..], q);
      TokensAppend(p[1..], q);
    }
  }

  lemma {:induction false} NotBlank(k: Class, x: Piece<Arg>)
    requires Belongs(k, x)
    ensures x.Lit? && x.c != ' '
  {}
}
