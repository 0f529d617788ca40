/** SQL conditions, as a database reads them. */
module SqlReader {
  // A reader of SQL search conditions over the pieces of a statement: words, operators and parentheses, AND before OR,
  // and three truth values. It knows nothing of how a condition was built.

  import opened Bytes
  import opened SqlPieces
  import opened SqlExpressions

  // ---- words and signs

  datatype Token = Word(s: string) | Rel(s: string) | Sign(c: char) | Given(arg: Arg) | Odd

  datatype Class = InWord | InOperator

  predicate Member(k: Class, c: char) {
    match k
    case InWord => 'a' <= c <= 'z' || 'A' <= c <= 'Z' || '0' <= c <= '9' || c == '_' || c == '.'
    case InOperator => c == '=' || c == '<' || c == '>' || c == '!'
  }

  predicate Belongs(k: Class, x: Piece<Arg>) {
    x.Lit? && Member(k, x.c)
  }

  function Run(k: Class, p: SqlParts): (n: nat)
    ensures n <= |p| && (p != [] && Belongs(k, p[0]) ==> n > 0)
  {
    if p == [] || !Belongs(k, p[0]) then 0 else 1 + Run(k, p[1..])
  }

  function Tokens(p: SqlParts): (toks: seq<Token>)
    decreases |p|
  {
    if p == [] then []
    else if p[0].Hole? then [Given(p[0].arg)] + Tokens(p[1..])
    else if !p[0].Lit? then [Odd] + Tokens(p[1..])
    else if p[0].c == ' ' then Tokens(p[1..])
    else if Belongs(InWord, p[0]) then [Word(Text(p[..Run(InWord, p)]))] + Tokens(p[Run(InWord, p)..])
    else if Belongs(InOperator, p[0]) then [Rel(Text(p[..Run(InOperator, p)]))] + Tokens(p[Run(InOperator, p)..])
    else [Sign(p[0].c)] + Tokens(p[1..])
  }

  // ---- conditions

  datatype Side = Column(name: string) | Number(digits: string) | Param(arg: Arg)

  datatype Atom =
    | Test(left: Side, operator: string, right: Side)
    | NullTest(left: Side, not: bool)
    | ListTest(left: Side, not: bool, items: seq<Side>)
    | LikeTest(left: Side, not: bool, anyCase: bool, right: Side)
    | Group(alternatives: seq<Terms>)   // in parentheses: terms joined by AND, joined by OR

  datatype Terms = Terms(atoms: seq<Atom>)

  datatype Parsed<T> = Parsed(value: T, rest: seq<Token>) | NoParse

  predicate IsDigits(s: string) {
    s != "" && forall i :: 0 <= i < |s| ==> '0' <= s[i] <= '9'
  }

  function UpperChar(c: char): char {
    if 'a' <= c <= 'z' then c - 'a' + 'A' else c
  }

  function Upper(s: string): (r: string)
    ensures |r| == |s|
  {
    seq(|s|, i requires 0 <= i < |s| => UpperChar(s[i]))
  }

  const RESERVED: set<string> :=
    {"AND", "OR", "NOT", "IS", "NULL", "IN", "LIKE", "ILIKE", "SELECT", "UPDATE", "DELETE", "SET", "FROM", "WHERE",
     "GROUP", "HAVING", "ORDER", "BY", "LIMIT", "OFFSET"}

  /** A name that is not a number, and in no case a keyword. */
  predicate IsName(s: string) {
    && s != "" && (forall i :: 0 <= i < |s| ==> Member(InWord, s[i]))
    && !('0' <= s[0] <= '9') && Upper(s) !in RESERVED
  }

  predicate HasWord(toks: seq<Token>, i: nat, word: string) {
    i < |toks| && toks[i] == Word(word)
  }

  predicate IsSign(toks: seq<Token>, i: nat, c: char) {
    i < |toks| && toks[i] == Sign(c)
  }

  function ReadSide(toks: seq<Token>, i: nat): Option<Side> {
    if i >= |toks| then None
    else if toks[i].Given? then Some(Param(toks[i].arg))
    else if toks[i].Word? && IsDigits(toks[i].s) then Some(Number(toks[i].s))
    else if toks[i].Word? && IsName(toks[i].s) then Some(Column(toks[i].s))
    else None
  }

  predicate IsComparison(operator: string) {
    operator in {"=", "<>", "<", ">", "<=", ">="}
  }

  /** alternative OR alternative ... */
  function ReadAny(toks: seq<Token>): (r: Parsed<seq<Terms>>)
    ensures r.Parsed? ==> |r.rest| < |toks|
    decreases |toks|, 2
  {
    match ReadAll(toks)
    case NoParse => NoParse
    case Parsed(first, rest) =>
      if !HasWord(rest, 0, "OR") then Parsed([Terms(first)], rest)
      else
        match ReadAny(rest[1..])
        case NoParse => NoParse
        case Parsed(more, rest) => Parsed([Terms(first)] + more, rest)
  }

  /** term AND term ... */
  function ReadAll(toks: seq<Token>): (r: Parsed<seq<Atom>>)
    ensures r.Parsed? ==> |r.rest| < |toks|
    decreases |toks|, 1
  {
    match ReadAtom(toks)
    case NoParse => NoParse
    case Parsed(first, rest) =>
      if !HasWord(rest, 0, "AND") then Parsed([first], rest)
      else
        match ReadAll(rest[1..])
        case NoParse => NoParse
        case Parsed(more, rest) => Parsed([first] + more, rest)
  }

  function ReadAtom(toks: seq<Token>): (r: Parsed<Atom>)
    ensures r.Parsed? ==> |r.rest| < |toks|
    decreases |toks|, 0
  {
    if IsSign(toks, 0, '(') then
      match ReadAny(toks[1..])
      case NoParse => NoParse
      case Parsed(alternatives, rest) =>
        if IsSign(rest, 0, ')') then Parsed(Group(alternatives), rest[1..]) else NoParse
    else
      match ReadSide(toks, 0)
      case None => NoParse
      case Some(left) => ReadTest(left, toks[1..])
  }

  function ReadTest(left: Side, toks: seq<Token>): (r: Parsed<Atom>)
    ensures r.Parsed? ==> |r.rest| < |toks|
  {
    if toks == [] then NoParse
    else if toks[0].Rel? then
      if IsComparison(toks[0].s) && ReadSide(toks, 1).Some?
      then Parsed(Test(left, toks[0].s, ReadSide(toks, 1).value), toks[2..])
      else NoParse
    else if HasWord(toks, 0, "IS") then
      if HasWord(toks, 1, "NULL") then Parsed(NullTest(left, false), toks[2..])
      else if HasWord(toks, 1, "NOT") && HasWord(toks, 2, "NULL") then Parsed(NullTest(left, true), toks[3..])
      else NoParse
    else
      var not := HasWord(toks, 0, "NOT");
      var k := if not then 1 else 0;
      if HasWord(toks, k, "IN") && IsSign(toks, k + 1, '(') then
        match ReadItems(toks[k + 2..])
        case NoParse => NoParse
        case Parsed(items, rest) => Parsed(ListTest(left, not, items), rest)
      else if (HasWord(toks, k, "LIKE") || HasWord(toks, k, "ILIKE")) && ReadSide(toks, k + 1).Some? then
        Parsed(LikeTest(left, not, HasWord(toks, k, "ILIKE"), ReadSide(toks, k + 1).value), toks[k + 2..])
      else NoParse
  }

  function ReadItems(toks: seq<Token>): (r: Parsed<seq<Side>>)
    ensures r.Parsed? ==> |r.rest| < |toks|
    decreases |toks|
  {
    match ReadSide(toks, 0)
    case None => NoParse
    case Some(item) =>
      if IsSign(toks, 1, ')') then Parsed([item], toks[2..])
      else if !IsSign(toks, 1, ',') then NoParse
      else
        match ReadItems(toks[2..])
        case NoParse => NoParse
        case Parsed(items, rest) => Parsed([item] + items, rest)
  }

  /** The condition that a text with its arguments is, and nothing else besides. */
  function ReadCondition(sql: string, args: seq<Arg>): Option<seq<Terms>> {
    match Bind(sql, args)
    case None => None
    case Some(p) => ReadPieces(p)
  }

  function ReadPieces(p: SqlParts): Option<seq<Terms>> {
    match ReadAny(Tokens(p))
    case NoParse => None
    case Parsed(alternatives, rest) => if rest == [] then Some(alternatives) else None
  }

  // ---- what a condition says of a row

  datatype Truth = True | False | Unknown

  function Not3(a: Truth): Truth {
    match a case True => False case False => True case Unknown => Unknown
  }

  function And3(a: Truth, b: Truth): Truth {
    if a.False? || b.False? then False else if a.True? && b.True? then True else Unknown
  }

  function Or3(a: Truth, b: Truth): Truth {
    if a.True? || b.True? then True else if a.False? && b.False? then False else Unknown
  }

  /** Values are numbers in the order the database has for them; NULL is None. */
  type Row = string -> Option<int>

  datatype Database = Database(value: Arg -> Option<int>, like: (int, int, bool) -> bool)

  function NumberOf(digits: string): int {
    if digits == "" then 0 else NumberOf(digits[..|digits| - 1]) * 10 + (digits[|digits| - 1] as int - '0' as int)
  }

  function ValueOf(db: Database, row: Row, o: Side): Option<int> {
    match o
    case Column(name) => row(name)
    case Number(digits) => Some(NumberOf(digits))
    case Param(arg) => db.value(arg)
  }

  function Compares(operator: string, x: int, y: int): bool {
    if operator == "=" then x == y
    else if operator == "<>" then x != y
    else if operator == "<" then x < y
    else if operator == ">" then x > y
    else if operator == "<=" then x <= y
    else x >= y
  }

  function TruthOf(b: bool): Truth { if b then True else False }

  function Tested(operator: string, x: Option<int>, y: Option<int>): Truth {
    if x.None? || y.None? then Unknown else TruthOf(Compares(operator, x.value, y.value))
  }

  function InList(db: Database, row: Row, x: Option<int>, items: seq<Side>): Truth {
    if items == [] then False
    else Or3(Tested("=", x, ValueOf(db, row, items[0])), InList(db, row, x, items[1..]))
  }

  function Evaluate(db: Database, row: Row, a: Atom): Truth
    decreases a
  {
    match a
    case Test(left, operator, right) => Tested(operator, ValueOf(db, row, left), ValueOf(db, row, right))
    case NullTest(left, not) => TruthOf(ValueOf(db, row, left).None? != not)
    case ListTest(left, not, items) =>
      var t := InList(db, row, ValueOf(db, row, left), items);
      if not then Not3(t) else t
    case LikeTest(left, not, anyCase, right) =>
      var x, y := ValueOf(db, row, left), ValueOf(db, row, right);
      if x.None? || y.None? then Unknown else TruthOf(db.like(x.value, y.value, anyCase) != not)
    case Group(alternatives) => AnyTrue(db, row, alternatives)
  }

  function AllTrue(db: Database, row: Row, atoms: seq<Atom>): Truth
    decreases atoms
  {
    if atoms == [] then True else And3(Evaluate(db, row, atoms[0]), AllTrue(db, row, atoms[1..]))
  }

  function AnyTrue(db: Database, row: Row, alternatives: seq<Terms>): Truth
    decreases alternatives
  {
    if alternatives == [] then False
    else Or3(AllTrue(db, row, alternatives[0].atoms), AnyTrue(db, row, alternatives[1..]))
  }
}
