/** pkg/dbx: what the conditions say. */
module SqlConditions {
  // Eq, NotEq, the comparisons, And and Or over columns: what the built text and arguments say of a row of a table,
  // when a database reads them.

  import opened Bytes
  import opened SqlPieces
  import opened SqlFragments
  import opened SqlExpressions
  import opened SqlPlaceholders
  import opened SqlReader
  import opened SqlSyntax

  // ---- the conditions, and what they are for

  predicate KeysAreNames(entries: seq<Entry>) {
    forall i :: 0 <= i < |entries| ==> IsName(entries[i].key)
  }

  predicate IsCondition(t: Sqlizer) {
    match t
    case Eq(_, entries) => KeysAreNames(entries)
    case Compare(_, entries) => KeysAreNames(entries)
    case And(conj) => forall i :: 0 <= i < |conj| ==> IsCondition(conj[i])
    case Or(conj) => forall i :: 0 <= i < |conj| ==> IsCondition(conj[i])
    case Part(pred, _) => pred.NilPredicate? || (pred.SqlPredicate? && IsCondition(pred.sqlizer))
    case WherePart(pred, _) =>
      || (pred.SqlPredicate? && IsCondition(pred.sqlizer))
      || (pred.MapPredicate? && KeysAreNames(pred.entries))
    case _ => false
  }

  /** Whether a condition has any text: an empty comparison has none, and neither have And and Or of such. */
  predicate Says(t: Sqlizer) {
    match t
    case Compare(_, entries) => entries != []
    case And(conj) => conj == [] || exists i :: 0 <= i < |conj| && Says(conj[i])
    case Or(conj) => conj == [] || exists i :: 0 <= i < |conj| && Says(conj[i])
    case Part(pred, _) => pred.SqlPredicate? && Says(pred.sqlizer)
    case WherePart(pred, _) => pred.SqlPredicate? ==> Says(pred.sqlizer)
    case _ => true
  }

  predicate Same(x: Option<int>, y: Option<int>) { x.Some? && x == y }

  predicate Differs(x: Option<int>, y: Option<int>) { x.Some? && y.Some? && x != y }

  /**
   The column is NULL, equals some value of the list, or equals the value: of pointers and valuers what they stand for.
   */
  ghost predicate EntryHolds(db: Database, row: Row, e: Entry) {
    match Valued(e.value)
    case None => false
    case Some(v) =>
      match Dereferenced(v)
      case Null => row(e.key) == None
      case List(items) => exists i :: 0 <= i < |items| && Same(row(e.key), db.value(items[i]))
      case o => Same(row(e.key), db.value(o.arg))
  }

  /** The column is not NULL, differs from all values of the list, or differs from the value. */
  ghost predicate EntryFails(db: Database, row: Row, e: Entry) {
    match Valued(e.value)
    case None => false
    case Some(v) =>
      match Dereferenced(v)
      case Null => row(e.key) != None
      case List(items) => forall i :: 0 <= i < |items| ==> Differs(row(e.key), db.value(items[i]))
      case o => Differs(row(e.key), db.value(o.arg))
  }

  predicate Related(o: Operator, db: Database, x: int, y: int) {
    match o
    case Less => x < y
    case Greater => x > y
    case LessOrEq => x <= y
    case GreaterOrEq => x >= y
    case Like => db.like(x, y, false)
    case NotLike => !db.like(x, y, false)
    case ILike => db.like(x, y, true)
    case NotILike => !db.like(x, y, true)
  }

  /** Neither is NULL, and they stand in the relation. */
  predicate CompareHolds(o: Operator, db: Database, row: Row, e: Entry) {
    match Valued(e.value)
    case None => false
    case Some(v) =>
      !v.Null? && !v.List? && row(e.key).Some? && db.value(AsArg(v)).Some?
      && Related(o, db, row(e.key).value, db.value(AsArg(v)).value)
  }

  /**
   The rows a condition is for. An empty And is true of every row, an empty Or of none; parts without text are left out.
   */
  ghost predicate Holds(t: Sqlizer, db: Database, row: Row) {
    match t
    case Eq(useNotOpr, entries) =>
      forall i :: 0 <= i < |entries| ==>
        if useNotOpr then EntryFails(db, row, entries[i]) else EntryHolds(db, row, entries[i])
    case Compare(o, entries) => forall i :: 0 <= i < |entries| ==> CompareHolds(o, db, row, entries[i])
    case And(conj) => forall i :: 0 <= i < |conj| ==> Says(conj[i]) ==> Holds(conj[i], db, row)
    case Or(conj) => exists i :: 0 <= i < |conj| && Says(conj[i]) && Holds(conj[i], db, row)
    case Part(pred, _) => pred.SqlPredicate? && Holds(pred.sqlizer, db, row)
    case WherePart(pred, _) =>
      (match pred
      case SqlPredicate(s) => Holds(s, db, row)
      case MapPredicate(entries) => forall i :: 0 <= i < |entries| ==> EntryHolds(db, row, entries[i])
      case _ => false)
    case _ => false
  }

  // ---- the same as conditions of the reader

  const ONE_IS_ONE := Group([Terms([Test(Number("1"), "=", Number("1"))])])
  const ONE_IS_ZERO := Group([Terms([Test(Number("1"), "=", Number("0"))])])

  function Params(items: seq<Arg>): (r: seq<Side>)
    ensures |r| == |items| && forall i :: 0 <= i < |r| ==> r[i] == Param(items[i])
  {
    seq(|items|, i requires 0 <= i < |items| => Param(items[i]))
  }

  function EqAtom(useNotOpr: bool, key: string, val: Operand): Atom {
    match val
    case Null => NullTest(Column(key), useNotOpr)
    case List(items) =>
      if items == [] then if useNotOpr then ONE_IS_ONE else ONE_IS_ZERO
      else ListTest(Column(key), useNotOpr, Params(items))
    case _ => Test(Column(key), if useNotOpr then "<>" else "=", Param(AsArg(val)))
  }

  function CompareAtom(o: Operator, key: string, arg: Arg): Atom {
    match o
    case Less => Test(Column(key), "<", Param(arg))
    case Greater => Test(Column(key), ">", Param(arg))
    case LessOrEq => Test(Column(key), "<=", Param(arg))
    case GreaterOrEq => Test(Column(key), ">=", Param(arg))
    case Like => LikeTest(Column(key), false, false, Param(arg))
    case NotLike => LikeTest(Column(key), true, false, Param(arg))
    case ILike => LikeTest(Column(key), false, true, Param(arg))
    case NotILike => LikeTest(Column(key), true, true, Param(arg))
  }

  // ---- the tokens of the texts that the builder uses

  predicate IsRun(k: Class, s: string) {
    s != "" && forall i :: 0 <= i < |s| ==> Member(k, s[i])
  }

  lemma {:induction false} LitsAt(s: string, i: nat)
    requires i < |s|
    ensures Lits<Arg>(s)[i] == Lit(s[i])
  {
    if i > 0 {
      LitsAt(s[1..], i - 1);
    }
  }

  lemma {:induction false} RunOfLits(k: Class, s: string)
    requires forall i :: 0 <= i < |s| ==> Member(k, s[i])
    ensures Run(k, Lits(s)) == |s|
  {
    if s != "" {
      RunOfLits(k, s[1..]);
      assert Lits<Arg>(s)[1..] == Lits(s[1..]);
    }
  }

  lemma {:induction false} WordToken(s: string)
    requires IsRun(InWord, s)
    ensures Tokens(Lits(s)) == [Word(s)]
  {
    RunOfLits(InWord, s);
    LitsRender<Arg>(s);
    var p := Lits<Arg>(s);
    assert p[..|s|] == p && p[|s|..] == [];
    LitsAt(s, 0);
  }

  lemma {:induction false} RelToken(s: string)
    requires IsRun(InOperator, s)
    ensures Tokens(Lits(s)) == [Rel(s)]
  {
    RunOfLits(InOperator, s);
    LitsRender<Arg>(s);
    var p := Lits<Arg>(s);
    assert p[..|s|] == p && p[|s|..] == [];
    LitsAt(s, 0);
    OneClass(p[0]);
  }

  lemma {:induction false} SignToken(c: char)
    requires c != ' ' && !Member(InWord, c) && !Member(InOperator, c)
    ensures Tokens(Lits([c])) == [Sign(c)]
  {
    var p := Lits<Arg>([c]);
    assert p == [Lit(c)] && p[1..] == [];
  }

  lemma {:induction false} BlankToken()
    ensures Tokens(Lits(" ")) == []
  {
    assert Lits<Arg>(" ") == [Lit(' ')];
  }

  lemma {:induction false} HoleToken(a: Arg)
    ensures Tokens([Hole(a)]) == [Given(a)]
  {
    assert [Hole(a)][1..] == [];
  }

  /** A blank or a sign on either side keeps words and operators apart. */
  lemma {:induction false} ApartAfter(p: SqlParts, q: SqlParts)
    requires p != [] && (!p[|p| - 1].Lit? || (!Member(InWord, p[|p| - 1].c) && !Member(InOperator, p[|p| - 1].c)))
    ensures Apart(p, q)
  {}

  lemma {:induction false} ApartBefore(p: SqlParts, q: SqlParts)
    requires q != [] && (!q[0].Lit? || (!Member(InWord, q[0].c) && !Member(InOperator, q[0].c)))
    ensures Apart(p, q)
  {}

  lemma {:induction false} BlankFirst(text: string)
    ensures Lits<Arg>(" " + text) == [Lit(' ')] + Lits(text)
    ensures Tokens(Lits(" " + text)) == Tokens(Lits(text))
  {
    assert (" " + text)[0] == ' ' && (" " + text)[1..] == text;
    var p := Lits<Arg>(" " + text);
    assert p[1..] == Lits(text);
  }

  lemma {:induction false} BlankLast(text: string)
    ensures Tokens(Lits(text + " ")) == Tokens(Lits(text))
    ensures Lits<Arg>(text + " ") == Lits(text) + [Lit(' ')]
  {
    LitsAppend<Arg>(text, " ");
    BlankToken();
    assert Lits<Arg>(" ") == [Lit(' ')];
    ApartBefore(Lits(text), Lits(" "));
    TokensAppend(Lits(text), Lits(" "));
  }

  // ---- the terms

  lemma {:induction false} KeyTokens(key: string)
    requires IsName(key)
    ensures Raw(key) == Lits(key) && Tokens(Raw(key)) == [Word(key)] && HoleCount(key) == 0
  {
    assert '?' !in key[..|key|];
    assert key[..|key|] == key && key[|key|..] == "";
    RawCopies(key, |key|);
    FillRest<Arg>("", [], []);
    assert Lits<Arg>(key) + [] == Lits(key);
    WordToken(key);
    NoMarks(key);
  }

  lemma {:induction false} NoMarks(s: string)
    requires '?' !in s
    ensures HoleCount(s) == 0
  {
    if s != "" {
      assert s[0] in s && forall c <- s[1..] :: c in s;
      NoMarks(s[1..]);
    }
  }

  /** A key, some text that starts with a blank, and more that is kept apart from it. */
  lemma {:induction false} KeyThen(key: string, text: string, more: SqlParts)
    requires IsName(key) && Apart(Lits(" " + text), more)
    ensures Tokens(Raw(key) + Lits(" " + text) + more) == [Word(key)] + Tokens(Lits(text)) + Tokens(more)
  {
    hide Tokens;
    KeyTokens(key);
    BlankFirst(text);
    ApartBefore(Raw(key), Lits(" " + text));
    TokensAppend(Raw(key), Lits(" " + text));
    assert (Raw(key) + Lits(" " + text))[|Raw(key) + Lits(" " + text)| - 1] == Lits<Arg>(" " + text)[|text|];
    TokensAppend(Raw(key) + Lits(" " + text), more);
  }

  lemma {:induction false} TestTokens(key: string, operator: string, arg: Arg)
    requires IsName(key) && IsRun(InOperator, operator)
    ensures Tokens(Raw(key) + Lits(" " + operator + " ") + [Hole(arg)])
         == AtomTokens(Test(Column(key), operator, Param(arg)))
  {
    hide Tokens;
    RelToken(operator);
    BlankLast(operator);
    HoleToken(arg);
    assert " " + operator + " " == " " + (operator + " ");
    ApartBefore(Lits(" " + (operator + " ")), [Hole(arg)]);
    KeyThen(key, operator + " ", [Hole(arg)]);
  }

  lemma {:induction false} OneWord(a: string)
    requires IsRun(InWord, a)
    ensures Tokens(Lits(a)) == [Word(a)]
  {
    WordToken(a);
  }

  lemma {:induction false} TwoWords(a: string, b: string)
    requires IsRun(InWord, a) && IsRun(InWord, b)
    ensures Tokens(Lits(a + " " + b)) == [Word(a), Word(b)]
  {
    hide Tokens, IsRun;
    WordToken(a);
    WordToken(b);
    BlankFirst(b);
    LitsAppend<Arg>(a, " " + b);
    ApartBefore(Lits(a), Lits(" " + b));
    TokensAppend(Lits(a), Lits(" " + b));
    assert a + " " + b == a + (" " + b);
  }

  lemma {:induction false} Keywords()
    ensures IsRun(InWord, "IS") && IsRun(InWord, "NULL") && IsRun(InWord, "IN") && IsRun(InWord, "NOT")
    ensures IsRun(InWord, "LIKE") && IsRun(InWord, "ILIKE") && IsRun(InWord, "AND") && IsRun(InWord, "OR")
  {}

  lemma {:induction false} LikeWords(not: bool, like: string)
    requires like == "LIKE" || like == "ILIKE"
    ensures Tokens(Lits((if not then "NOT " + like else like) + " ")) == NotToken(not) + [Word(like)]
  {
    hide Tokens, IsRun;
    Keywords();
    var text := if not then "NOT " + like else like;
    if not {
      TwoWords("NOT", like);
      assert "NOT" + " " + like == text;
    } else {
      OneWord(like);
    }
    BlankLast(text);
  }

  lemma {:induction false} LikeTokens(key: string, not: bool, like: string, arg: Arg)
    requires IsName(key) && (like == "LIKE" || like == "ILIKE")
    ensures Tokens(Raw(key) + Lits(" " + (if not then "NOT " + like else like) + " ") + [Hole(arg)])
         == AtomTokens(LikeTest(Column(key), not, like == "ILIKE", Param(arg)))
  {
    hide Tokens, IsRun, IsName, Lits, Raw;
    var text := (if not then "NOT " + like else like) + " ";
    LikeWords(not, like);
    HoleToken(arg);
    ApartBefore(Lits(" " + text), [Hole(arg)]);
    KeyThen(key, text, [Hole(arg)]);
    assert " " + (if not then "NOT " + like else like) + " " == " " + text;
  }

  lemma {:induction false} IsNullTokens(not: bool)
    ensures Tokens(Lits(if not then "IS NOT NULL" else "IS NULL")) == [Word("IS")] + NotToken(not) + [Word("NULL")]
  {
    hide Tokens, IsRun, Lits;
    Keywords();
    if not {
      TwoWords("NOT", "NULL");
      WordToken("IS");
      BlankFirst("NOT" + " " + "NULL");
      Seam("IS", " " + ("NOT" + " " + "NULL"));
      assert "IS" + (" " + ("NOT" + " " + "NULL")) == "IS NOT NULL";
    } else {
      TwoWords("IS", "NULL");
      assert "IS" + " " + "NULL" == "IS NULL";
    }
  }

  lemma {:induction false} NullTokens(key: string, not: bool)
    requires IsName(key)
    ensures Tokens(Raw(key) + Lits(if not then " IS NOT NULL" else " IS NULL"))
         == AtomTokens(NullTest(Column(key), not))
  {
    hide Tokens, IsName, Lits, Raw;
    var text := if not then "IS NOT NULL" else "IS NULL";
    IsNullTokens(not);
    NoTokens();
    KeyThen(key, text, []);
    assert " " + text == if not then " IS NOT NULL" else " IS NULL";
    assert Raw(key) + Lits(" " + text) + [] == Raw(key) + Lits(" " + text);
  }

  lemma {:induction false} NoTokens()
    ensures Tokens([]) == []
  {}

  lemma {:induction false} ItemTokensAppend(items: seq<Side>, last: Side)
    requires items != []
    ensures ItemTokens(items + [last]) == ItemTokens(items) + [Sign(','), SideToken(last)]
  {
    assert (items + [last])[1..] == items[1..] + [last];
    if |items| == 1 {
      assert items[1..] + [last] == [last];
    } else {
      ItemTokensAppend(items[1..], last);
    }
  }

  lemma {:induction false} HolesTokens(items: seq<Arg>)
    ensures Tokens(Holes(items)) == ItemTokens(Params(items))
  {
    hide Tokens;
    if items == [] {
      NoTokens();
    } else if |items| == 1 {
      HoleToken(items[0]);
    } else {
      var before, last := items[..|items| - 1], items[|items| - 1];
      HolesTokens(before);
      SignToken(',');
      HoleToken(last);
      assert Lits<Arg>([',']) == [Lit(',')];
      ApartBefore(Holes(before), [Lit(',')]);
      TokensAppend(Holes(before), [Lit(',')]);
      ApartBefore(Holes(before) + [Lit(',')], [Hole(last)]);
      TokensAppend(Holes(before) + [Lit(',')], [Hole(last)]);
      assert Params(items) == Params(before) + [Param(last)];
      ItemTokensAppend(Params(before), Param(last));
    }
  }

  lemma {:induction false} InTokens(not: bool)
    ensures Tokens(Lits(if not then "NOT IN (" else "IN (")) == NotToken(not) + [Word("IN"), Sign('(')]
  {
    hide Tokens, IsRun, Lits;
    Keywords();
    var words := if not then "NOT IN" else "IN";
    if not {
      TwoWords("NOT", "IN");
      assert "NOT" + " " + "IN" == words;
    } else {
      OneWord("IN");
    }
    BlankLast(words);
    SignToken('(');
    Seam(words + " ", "(");
    assert words + " " + "(" == if not then "NOT IN (" else "IN (";
  }

  lemma {:induction false} ListAtom(key: string, not: bool, items: seq<Arg>)
    ensures AtomTokens(ListTest(Column(key), not, Params(items)))
         == [Word(key)] + (NotToken(not) + [Word("IN"), Sign('(')]) + ItemTokens(Params(items)) + [Sign(')')]
  {
    hide ItemTokens;
    var a, b, c := [Word(key)], NotToken(not), [Word("IN"), Sign('(')];
    assert a + (b + c) == a + b + c;
  }

  lemma {:induction false} ListTokens(key: string, not: bool, items: seq<Arg>)
    requires IsName(key)
    ensures Tokens(Raw(key) + Lits(if not then " NOT IN (" else " IN (") + Holes(items) + Lits(")"))
         == AtomTokens(ListTest(Column(key), not, Params(items)))
  {
    hide Tokens, IsName, Holes, ItemTokens, Lits, Raw, AtomTokens, NotToken;
    ListAtom(key, not, items);
    var text := if not then "NOT IN (" else "IN (";
    assert " " + text == if not then " NOT IN (" else " IN (";
    InTokens(not);
    HolesTokens(items);
    ApartAfterSign(" " + text, Holes(items));
    KeyThen(key, text, Holes(items));
    SignBehind(Raw(key) + Lits(" " + text) + Holes(items), ')');
  }

  lemma {:induction false} ApartAfterSign(text: string, q: SqlParts)
    requires text != "" && text[|text| - 1] == '('
    ensures Apart(Lits(text), q)
  {
    LitsAt(text, |text| - 1);
    ApartAfter(Lits(text), q);
  }

  lemma {:induction false} SignBehind(p: SqlParts, c: char)
    requires c != ' ' && !Member(InWord, c) && !Member(InOperator, c)
    ensures Tokens(p + Lits([c])) == Tokens(p) + [Sign(c)]
  {
    hide Tokens;
    SignToken(c);
    assert Lits<Arg>([c]) == [Lit(c)];
    ApartBefore(p, Lits([c]));
    TokensAppend(p, Lits([c]));
  }

  predicate Continues(c: char, d: char) {
    (Member(InWord, c) && Member(InWord, d)) || (Member(InOperator, c) && Member(InOperator, d))
  }

  lemma {:induction false} Seam(a: string, b: string)
    requires a != "" && b != "" && !Continues(a[|a| - 1], b[0])
    ensures Tokens(Lits(a + b)) == Tokens(Lits(a)) + Tokens(Lits(b))
  {
    hide Tokens;
    LitsAppend<Arg>(a, b);
    LitsAt(a, |a| - 1);
    LitsAt(b, 0);
    TokensAppend(Lits(a), Lits(b));
  }

  lemma {:induction false} ConstantTokens(zero: bool)
    ensures Tokens(Lits(if zero then SQL_FALSE else SQL_TRUE)) == AtomTokens(if zero then ONE_IS_ZERO else ONE_IS_ONE)
  {
    hide Tokens, Lits, IsRun;
    var digit := if zero then "0" else "1";
    DigitsAreWords();
    SignToken('(');
    SignToken(')');
    WordToken("1");
    WordToken(digit);
    RelToken("=");
    Seam("(", "1");
    Seam("(1", "=");
    Seam("(1=", digit);
    Seam("(1=" + digit, ")");
    assert "(" + "1" == "(1" && "(1" + "=" == "(1=";
    assert "(1=" + digit + ")" == if zero then SQL_FALSE else SQL_TRUE;
    ConstantAtom(zero);
  }

  lemma {:induction false} DigitsAreWords()
    ensures IsRun(InWord, "0") && IsRun(InWord, "1") && IsRun(InOperator, "=")
  {}

  lemma {:induction false} ConstantAtom(zero: bool)
    ensures AtomTokens(if zero then ONE_IS_ZERO else ONE_IS_ONE)
         == [Sign('('), Word("1"), Rel("="), Word(if zero then "0" else "1"), Sign(')')]
  {}
}
