/** pkg/dbx/expr.go, part.go and where.go: the expression trees. */
module SqlExpressions {
  import opened Bytes
  import opened SqlPieces
  import opened SqlFragments

  /** An argument of a fragment: a plain Go value, told apart by a number, or another expression. */
  datatype Arg = Value(id: int) | Nested(sqlizer: Sqlizer)

  /** A value in an Eq or a comparison, as far as the code looks into it. */
  datatype Operand =
    | Null
    | Scalar(arg: Arg)
    | List(items: seq<Arg>)
    | NilPointer(arg: Arg)
    | Pointer(arg: Arg, target: Operand)
    | Valuer(arg: Arg, result: Option<Operand>)   // a driver.Valuer: what Value() returns, None for its error

  datatype Entry = Entry(key: string, value: Operand)

  datatype Operator = Less | Greater | LessOrEq | GreaterOrEq | Like | NotLike | ILike | NotILike

  datatype ConcatPart = TextPart(text: string) | SubPart(sqlizer: Sqlizer) | OtherPart

  datatype Predicate =
    | NilPredicate
    | TextPredicate(text: string)
    | SqlPredicate(sqlizer: Sqlizer)
    | MapPredicate(entries: seq<Entry>)
    | OtherPredicate

  /** The expressions. The entries of a map are given in the order in which the code visits them. */
  datatype Sqlizer =
    | Expr(sql: string, args: seq<Arg>)
    | Concat(parts: seq<ConcatPart>)
    | Alias(expr: Sqlizer, alias: string)
    | Eq(useNotOpr: bool, entries: seq<Entry>)
    | Compare(operator: Operator, entries: seq<Entry>)
    | And(conj: seq<Sqlizer>)
    | Or(conj: seq<Sqlizer>)
    | Part(pred: Predicate, partArgs: seq<Arg>)
    | WherePart(pred: Predicate, partArgs: seq<Arg>)

  type SqlParts = Pieces<Arg>

  const SQL_TRUE := "(1=1)"
  const SQL_FALSE := "(1=0)"

  // ---- what a tree means: pieces with their arguments in place, None for a tree that cannot be built

  function Symbol(o: Operator): (s: string)
    ensures s != "" && '?' !in s
  {
    match o
    case Less => "<"
    case Greater => ">"
    case LessOrEq => "<="
    case GreaterOrEq => ">="
    case Like => "LIKE"
    case NotLike => "NOT LIKE"
    case ILike => "ILIKE"
    case NotILike => "NOT ILIKE"
  }

  /** A text that brings no arguments of its own. */
  function Raw(text: string): (p: SqlParts)
    ensures Text(p) == text && Args(p) == []
  {
    FillRest<Arg>(text, [], []);
    Fill(text, [], []).value
  }

  /** What Value() of a driver.Valuer gives; other values are themselves. */
  function Valued(o: Operand): Option<Operand> {
    if o.Valuer? then o.result else Some(o)
  }

  /** One pointer is followed: a nil pointer is NULL. */
  function Dereferenced(o: Operand): Operand {
    match o
    case NilPointer(_) => Null
    case Pointer(_, target) => target
    case _ => o
  }

  function AsArg(o: Operand): Arg
    requires !o.Null? && !o.List?
  {
    o.arg
  }

  function Holes(items: seq<Arg>): SqlParts {
    if items == [] then []
    else if |items| == 1 then [Hole(items[0])]
    else Holes(items[..|items| - 1]) + [Lit(',')] + [Hole(items[|items| - 1])]
  }

  function EqOperand(useNotOpr: bool, key: string, val: Operand): SqlParts {
    match val
    case Null => Raw(key) + Lits(if useNotOpr then " IS NOT NULL" else " IS NULL")
    case List(items) =>
      if items == [] then Lits(if useNotOpr then SQL_TRUE else SQL_FALSE)
      else Raw(key) + Lits(if useNotOpr then " NOT IN (" else " IN (") + Holes(items) + Lits(")")
    case _ => Raw(key) + Lits(if useNotOpr then " <> " else " = ") + [Hole(AsArg(val))]
  }

  function EqTerm(useNotOpr: bool, e: Entry): Option<SqlParts> {
    match Valued(e.value)
    case None => None
    case Some(val) => Some(EqOperand(useNotOpr, e.key, Dereferenced(val)))
  }

  function CompareTerm(o: Operator, e: Entry): Option<SqlParts> {
    match Valued(e.value)
    case None => None
    case Some(v) =>
      if v.Null? || v.List? then None
      else Some(Raw(e.key) + Lits(" " + Symbol(o) + " ") + [Hole(AsArg(v))])
  }

  function JoinedTerms(terms: Option<seq<SqlParts>>): Option<SqlParts> {
    match terms
    case None => None
    case Some(ts) => Some(Joined(ts, " AND "))
  }

  function EqMeaning(useNotOpr: bool, entries: seq<Entry>): Option<SqlParts> {
    if entries == [] then Some(Lits(SQL_TRUE))
    else JoinedTerms(All(seq(|entries|, i requires 0 <= i < |entries| => EqTerm(useNotOpr, entries[i]))))
  }

  function CompareMeaning(o: Operator, entries: seq<Entry>): Option<SqlParts> {
    JoinedTerms(All(seq(|entries|, i requires 0 <= i < |entries| => CompareTerm(o, entries[i]))))
  }

  function Junction(parts: Option<seq<SqlParts>>, sep: string, empty: string): Option<SqlParts> {
    match parts
    case None => None
    case Some(ts) =>
      if ts == [] then Some(Lits(empty))
      else if NonEmpty(ts) == [] then Some([])
      else Some(Lits("(") + Joined(NonEmpty(ts), sep) + Lits(")"))
  }

  function Fillings(args: seq<Arg>): (r: seq<Option<SqlParts>>)
    ensures |r| == |args|
    decreases args, 0
  {
    seq(|args|, i requires 0 <= i < |args| =>
      match args[i] case Value(_) => Some([Hole(args[i])]) case Nested(s) => Meaning(s))
  }

  function Meaning(t: Sqlizer): Option<SqlParts> {
    match t
    case Expr(sql, args) =>
      Fill(sql, args, seq(|args|, i requires 0 <= i < |args| =>
        match args[i] case Value(_) => Some([Hole(args[i])]) case Nested(s) => Meaning(s)))
    case Concat(parts) =>
      (match All(seq(|parts|, i requires 0 <= i < |parts| =>
        match parts[i] case TextPart(text) => Some(Raw(text)) case SubPart(s) => Meaning(s) case OtherPart => None))
      case None => None
      case Some(ts) => Some(Flat(ts)))
    case Alias(expr, alias) =>
      (match Meaning(expr)
      case None => None
      case Some(p) => Some(Lits("(") + p + Lits(") AS ") + Raw(alias)))
    case Eq(useNotOpr, entries) => EqMeaning(useNotOpr, entries)
    case Compare(o, entries) => CompareMeaning(o, entries)
    case And(conj) =>
      Junction(All(seq(|conj|, i requires 0 <= i < |conj| => Meaning(conj[i]))), " AND ", SQL_TRUE)
    case Or(conj) =>
      Junction(All(seq(|conj|, i requires 0 <= i < |conj| => Meaning(conj[i]))), " OR ", SQL_FALSE)
    case Part(pred, args) =>
      (match pred
      case NilPredicate => Some([])
      case TextPredicate(text) => Fill(text, args, seq(|args|, i requires 0 <= i < |args| => Some([Hole(args[i])])))
      case SqlPredicate(s) => Meaning(s)
      case _ => None)
    case WherePart(pred, args) =>
      (match pred
      case TextPredicate(text) => Fill(text, args, seq(|args|, i requires 0 <= i < |args| => Some([Hole(args[i])])))
      case SqlPredicate(s) => Meaning(s)
      case MapPredicate(entries) => EqMeaning(false, entries)
      case _ => None)
  }

  // ---- the code

  datatype Built = Ok(sql: string, args: seq<Arg>) | Failed

  ghost predicate Is(r: Built, m: Option<SqlParts>) {
    match m
    case None => r == Failed
    case Some(p) => r == Ok(Text(p), Args(p))
  }

  /** strings.Index(s, "?") */
  function Index(s: string): (i: int)
    ensures i == -1 ==> '?' !in s
    ensures i != -1 ==> 0 <= i < |s| && s[i] == '?' && '?' !in s[..i]
  {
    if s == "" then -1
    else if s[0] == '?' then 0
    else
      var i := Index(s[1..]);
      if i == -1 then -1 else assert s[..i + 1] == [s[0]] + s[1..][..i]; i + 1
  }

  /** What one more piece of output does to the text and the arguments written so far. */
  lemma {:induction false} Written(done: SqlParts, p: SqlParts)
    ensures Text(done + p) == Text(done) + Text(p) && Args(done + p) == Args(done) + Args(p)
  {
    RenderAppend(done, p);
  }

  lemma {:induction false} WrittenLits(done: SqlParts, text: string)
    ensures Text(done + Lits(text)) == Text(done) + text && Args(done + Lits(text)) == Args(done)
  {
    RenderAppend(done, Lits(text));
    LitsRender<Arg>(text);
  }

  lemma {:induction false} MeaningOfExpr(t: Sqlizer)
    requires t.Expr?
    ensures Meaning(t) == Fill(t.sql, t.args, Fillings(t.args))
  {
    assert Fillings(t.args) == seq(|t.args|, i requires 0 <= i < |t.args| =>
      match t.args[i] case Value(_) => Some([Hole(t.args[i])]) case Nested(s) => Meaning(s));
  }

  /** The pieces done are written; the text sp and the arguments from the k-th on are still to do. */
  ghost predicate ToDo(t: Sqlizer, done: SqlParts, sp: string, k: nat) {
    && t.Expr? && k <= |t.args|
    && Meaning(t) == Prepend(done, Fill(sp, t.args[k..], Fillings(t.args)[k..]))
  }

  lemma {:induction false} StartExpr(t: Sqlizer)
    requires t.Expr?
    ensures ToDo(t, [], t.sql, 0) && Text<Arg>([]) == "" && Args<Arg>([]) == []
  {
    MeaningOfExpr(t);
    assert t.args[0..] == t.args && Fillings(t.args)[0..] == Fillings(t.args);
    if Meaning(t).Some? {
      assert [] + Meaning(t).value == Meaning(t).value;
    }
  }

  lemma {:induction false} CopyStep(t: Sqlizer, done: SqlParts, sp: string, k: nat, i: nat)
    requires ToDo(t, done, sp, k) && i <= |sp| && '?' !in sp[..i]
    ensures ToDo(t, done + Lits(sp[..i]), sp[i..], k)
  {
    FillCopies(sp, i, t.args[k..], Fillings(t.args)[k..]);
    PrependTwice(done, Lits(sp[..i]), Fill(sp[i..], t.args[k..], Fillings(t.args)[k..]));
  }

  lemma {:induction false} EscapeText(done: SqlParts, sp: string, i: nat)
    requires i + 1 < |sp| && sp[i] == '?' && sp[i + 1] == '?'
    ensures Text(done + Lits(sp[..i]) + [Mark]) == Text(done) + sp[..i + 2]
    ensures Args(done + Lits(sp[..i]) + [Mark]) == Args(done)
  {
    hide Lits;
    WrittenLits(done, sp[..i]);
    Written(done + Lits(sp[..i]), [Mark]);
    MarkText();
    assert sp[..i + 2] == sp[..i] + "??";
    Reassociate(Text(done), sp[..i], "??");
  }

  lemma {:induction false} MarkText()
    ensures Text<Arg>([Mark]) == "??" && Args<Arg>([Mark]) == []
  {}

  lemma {:induction false} EscapeStep(t: Sqlizer, done: SqlParts, sp: string, k: nat, i: nat) returns (d: SqlParts)
    requires ToDo(t, done, sp, k) && i + 1 < |sp| && '?' !in sp[..i] && sp[i] == '?' && sp[i + 1] == '?'
    ensures ToDo(t, d, sp[i + 2..], k)
    ensures Text(d) == Text(done) + sp[..i + 2] && Args(d) == Args(done)
  {
    CopyStep(t, done, sp, k, i);
    var copied := done + Lits(sp[..i]);
    d := copied + [Mark];
    assert sp[i..][2..] == sp[i + 2..];
    PrependTwice(copied, [Mark], Fill(sp[i + 2..], t.args[k..], Fillings(t.args)[k..]));
    EscapeText(done, sp, i);
  }

  lemma {:induction false} HoleStep(t: Sqlizer, done: SqlParts, sp: string, k: nat, i: nat) returns (d: SqlParts)
    requires ToDo(t, done, sp, k) && i < |sp| && k < |t.args|
    requires '?' !in sp[..i] && sp[i] == '?' && (i + 1 < |sp| ==> sp[i + 1] != '?')
    ensures Fillings(t.args)[k] == None ==> Meaning(t) == None
    ensures Text(done) + sp[..i] + "?" == Text(done) + sp[..i + 1]
    ensures var f := Fillings(t.args)[k]; f.Some? ==>
      ToDo(t, d, sp[i + 1..], k + 1)
      && Text(d) == Text(done) + sp[..i] + Text(f.value) && Args(d) == Args(done) + Args(f.value)
  {
    CopyStep(t, done, sp, k, i);
    var copied := done + Lits(sp[..i]);
    WrittenLits(done, sp[..i]);
    assert sp[i..][1..] == sp[i + 1..];
    assert t.args[k..][1..] == t.args[k + 1..];
    assert Fillings(t.args)[k..][1..] == Fillings(t.args)[k + 1..];
    assert sp[..i + 1] == sp[..i] + "?";
    Reassociate(Text(done), sp[..i], "?");
    var f := Fillings(t.args)[k];
    d := [];
    if f.Some? {
      d := copied + f.value;
      PrependTwice(copied, f.value, Fill(sp[i + 1..], t.args[k + 1..], Fillings(t.args)[k + 1..]));
      Written(copied, f.value);
    }
  }

  lemma {:induction false} RestOfExpr(t: Sqlizer, done: SqlParts, sp: string, k: nat)
    requires ToDo(t, done, sp, k) && (k == |t.args| || '?' !in sp)
    ensures Is(Ok(Text(done) + sp, Args(done) + t.args[k..]), Meaning(t))
  {
    FillRest(sp, t.args[k..], Fillings(t.args)[k..]);
    Written(done, Fill(sp, t.args[k..], Fillings(t.args)[k..]).value);
  }

  lemma {:induction false} SimpleExpr(t: Sqlizer)
    requires t.Expr? && forall j :: 0 <= j < |t.args| ==> t.args[j].Value?
    ensures Is(Ok(t.sql, t.args), Meaning(t))
  {
    MeaningOfExpr(t);
    FillPlain(t.sql, t.args, Fillings(t.args));
  }

  method ExprToSql(t: Sqlizer) returns (r: Built)
    requires t.Expr?
    ensures Is(r, Meaning(t))
    decreases t, 0
  {
    hide ToDo, Text, Args;
    var simple := true;
    for i := 0 to |t.args|
      invariant simple <==> forall j :: 0 <= j < i ==> t.args[j].Value?
    {
      if t.args[i].Nested? {
        simple := false;
      }
    }
    if simple {
      SimpleExpr(t);
      return Ok(t.sql, t.args);
    }
    var buf, args := "", [];
    var ap, sp := t.args, t.sql;
    ghost var done, k := [], 0;
    StartExpr(t);
    while ap != [] && sp != ""
      invariant 0 <= k <= |t.args| && ap == t.args[k..]
      invariant buf == Text(done) && args == Args(done)
      invariant ToDo(t, done, sp, k)
      decreases |sp|
    {
      var i := Index(sp);
      if i < 0 {
        break;
      }
      if |sp| > i + 1 && sp[i + 1] == '?' {
        done := EscapeStep(t, done, sp, k, i);
        buf := buf + sp[..i + 2];
        sp := sp[i + 2..];
        continue;
      }
      ghost var d := HoleStep(t, done, sp, k, i);
      match ap[0] {
        case Nested(s) =>
          assert t.args[k] == Nested(s);
          var inner := ToSql(s);
          if inner == Failed {
            return Failed;
          }
          buf := buf + sp[..i] + inner.sql;
          args := args + inner.args;
        case Value(_) =>
          OneHole(ap[0]);
          buf := buf + sp[..i + 1];
          args := args + [ap[0]];
      }
      done, k := d, k + 1;
      ap := ap[1..];
      sp := sp[i + 1..];
    }
    RestOfExpr(t, done, sp, k);
    return Ok(buf + sp, args + ap);
  }

  method ConcatToSql(t: Sqlizer) returns (r: Built)
    requires t.Concat?
    ensures Is(r, Meaning(t))
    decreases t, 0
  {
    var sql, args := "", [];
    ghost var ms := PartMeanings(t.parts);
    MeaningOfConcat(t);
    AllOrNone(ms);
    for i := 0 to |t.parts|
      invariant All(ms[..i]).Some?
      invariant sql == Text(Flat(All(ms[..i]).value)) && args == Args(Flat(All(ms[..i]).value))
    {
      FlatGrows(ms, i);
      match t.parts[i] {
        case TextPart(text) =>
          sql := sql + text;
        case SubPart(s) =>
          var inner := ToSql(s);
          if inner == Failed {
            return Failed;
          }
          sql := sql + inner.sql;
          args := args + inner.args;
        case OtherPart =>
          return Failed;
      }
    }
    assert ms[..|t.parts|] == ms;
    return Ok(sql, args);
  }

  function PartMeanings(parts: seq<ConcatPart>): (r: seq<Option<SqlParts>>)
    ensures |r| == |parts|
  {
    seq(|parts|, i requires 0 <= i < |parts| =>
      match parts[i] case TextPart(text) => Some(Raw(text)) case SubPart(s) => Meaning(s) case OtherPart => None)
  }

  lemma {:induction false} MeaningOfConcat(t: Sqlizer)
    requires t.Concat?
    ensures Meaning(t) == match All(PartMeanings(t.parts)) case None => None case Some(ts) => Some(Flat(ts))
  {
    assert PartMeanings(t.parts) == seq(|t.parts|, i requires 0 <= i < |t.parts| =>
      match t.parts[i] case TextPart(text) => Some(Raw(text)) case SubPart(s) => Meaning(s) case OtherPart => None);
  }

  lemma {:induction false} AllGrows(ms: seq<Option<SqlParts>>, i: nat)
    requires i < |ms| && All(ms[..i]).Some?
    ensures ms[i].Some? ==> All(ms[..i + 1]) == Some(All(ms[..i]).value + [ms[i].value])
    ensures ms[i].None? ==> All(ms) == None
  {
    assert ms[..i + 1][..i] == ms[..i];
    AllOrNone(ms);
  }

  lemma {:induction false} FlatGrows(ms: seq<Option<SqlParts>>, i: nat)
    requires i < |ms| && All(ms[..i]).Some?
    ensures ms[i].None? ==> All(ms) == None
    ensures ms[i].Some? ==>
      All(ms[..i + 1]).Some?
      && Text(Flat(All(ms[..i + 1]).value)) == Text(Flat(All(ms[..i]).value)) + Text(ms[i].value)
      && Args(Flat(All(ms[..i + 1]).value)) == Args(Flat(All(ms[..i]).value)) + Args(ms[i].value)
  {
    AllGrows(ms, i);
    if ms[i].Some? {
      var ts := All(ms[..i]).value;
      assert (ts + [ms[i].value])[..|ts|] == ts;
      Written(Flat(ts), ms[i].value);
    }
  }

  // ---- Eq and the comparisons

  lemma {:induction false} JoinedGrows(ms: seq<Option<SqlParts>>, exprs: seq<string>, sep: string, i: nat)
    requires i < |ms| && All(ms[..i]).Some?
    requires |exprs| == i && StringsJoin(exprs, sep) == Text(Joined(All(ms[..i]).value, sep))
    ensures ms[i].None? ==> All(ms) == None
    ensures ms[i].Some? ==>
      All(ms[..i + 1]).Some?
      && StringsJoin(exprs + [Text(ms[i].value)], sep) == Text(Joined(All(ms[..i + 1]).value, sep))
      && Args(Joined(All(ms[..i + 1]).value, sep)) == Args(Joined(All(ms[..i]).value, sep)) + Args(ms[i].value)
  {
    AllGrows(ms, i);
    if ms[i].Some? {
      JoinedAppend(All(ms[..i]).value, exprs, sep, ms[i].value);
    }
  }

  function Repeat(s: string, count: nat): string {
    if count == 0 then "" else Repeat(s, count - 1) + s
  }

  lemma {:induction false} RepeatLength(s: string, count: nat)
    ensures |Repeat(s, count)| == count * |s|
  {
    if count > 0 {
      RepeatLength(s, count - 1);
    }
  }

  function Placeholders(count: int): string {
    if count < 1 then "" else RepeatLength(",?", count); Repeat(",?", count)[1..]
  }

  lemma {:induction false} OneHole(a: Arg)
    ensures Text<Arg>([Hole(a)]) == "?" && Args<Arg>([Hole(a)]) == [a]
  {}

  lemma {:induction false} HolesGrow(h: SqlParts, last: Arg)
    ensures Text(h + [Lit(',')] + [Hole(last)]) == Text(h) + ",?"
    ensures Args(h + [Lit(',')] + [Hole(last)]) == Args(h) + [last]
  {
    Written(h, [Lit(',')]);
    Written(h + [Lit(',')], [Hole(last)]);
    OneHole(last);
    assert Text<Arg>([Lit(',')]) == ",";
    Reassociate(Text(h), ",", "?");
  }

  lemma {:induction false} PlaceholdersGrow(count: nat)
    requires count >= 1
    ensures Placeholders(count + 1) == Placeholders(count) + ",?"
  {
    RepeatLength(",?", count);
  }

  /** As many holes as values, in the order of the values. */
  lemma {:induction false} PlaceholdersAreHoles(items: seq<Arg>)
    ensures Text(Holes(items)) == Placeholders(|items|) && Args(Holes(items)) == items
  {
    if |items| == 1 {
      assert Repeat(",?", 1) == Repeat(",?", 0) + ",?";
      OneHole(items[0]);
      assert items == [items[0]];
    } else if |items| > 1 {
      var before, last := items[..|items| - 1], items[|items| - 1];
      PlaceholdersAreHoles(before);
      HolesGrow(Holes(before), last);
      PlaceholdersGrow(|before|);
      assert items == before + [last];
    }
  }

  lemma {:induction false} TermText(key: string, opr: string, end: SqlParts)
    ensures Text(Raw(key) + Lits(opr) + end) == key + opr + Text(end)
    ensures Args(Raw(key) + Lits(opr) + end) == Args(end)
  {
    WrittenLits(Raw(key), opr);
    Written(Raw(key) + Lits(opr), end);
  }

  lemma {:induction false} NullTerm(key: string, text: string)
    ensures Is(Ok(key + text, []), Some(Raw(key) + Lits(text)))
  {
    WrittenLits(Raw(key), text);
  }

  lemma {:induction false} ScalarTerm(key: string, opr: string, a: Arg)
    ensures Is(Ok(key + opr + "?", [a]), Some(Raw(key) + Lits(opr) + [Hole(a)]))
  {
    TermText(key, opr, [Hole(a)]);
    OneHole(a);
  }

  lemma {:induction false} ListTerm(key: string, opr: string, items: seq<Arg>)
    ensures Is(Ok(key + opr + Placeholders(|items|) + ")", items),
               Some(Raw(key) + Lits(opr) + Holes(items) + Lits(")")))
  {
    TermText(key, opr, Holes(items));
    PlaceholdersAreHoles(items);
    WrittenLits(Raw(key) + Lits(opr) + Holes(items), ")");
  }

  lemma {:induction false} ConstantTerm(text: string)
    ensures Is(Ok(text, []), Some(Lits(text)))
  {
    LitsRender<Arg>(text);
  }

  /** A value that is nil, a list or a scalar once the pointer is followed. */
  method EqOperandToSql(useNotOpr: bool, key: string, val: Operand) returns (r: Built)
    ensures Is(r, Some(EqOperand(useNotOpr, key, val)))
  {
    if val.Null? {
      var text := if useNotOpr then " IS NOT NULL" else " IS NULL";
      NullTerm(key, text);
      return Ok(key + text, []);
    }
    if !val.List? {
      var opr := if useNotOpr then " <> " else " = ";
      ScalarTerm(key, opr, AsArg(val));
      return Ok(key + opr + "?", [AsArg(val)]);
    }
    if val.items == [] {
      var text := if useNotOpr then SQL_TRUE else SQL_FALSE;
      ConstantTerm(text);
      return Ok(text, []);
    }
    var opr := if useNotOpr then " NOT IN (" else " IN (";
    ListTerm(key, opr, val.items);
    return Ok(key + opr + Placeholders(|val.items|) + ")", val.items);
  }

  method EqTermToSql(useNotOpr: bool, e: Entry) returns (r: Built)
    ensures Is(r, EqTerm(useNotOpr, e))
  {
    var val := e.value;
    if val.Valuer? {
      if val.result == None {
        return Failed;
      }
      val := val.result.value;
    }
    if val.NilPointer? {
      val := Null;
    } else if val.Pointer? {
      val := val.target;
    }
    r := EqOperandToSql(useNotOpr, e.key, val);
  }

  lemma {:induction false} JoinedNone(sep: string)
    ensures StringsJoin([], sep) == "" && Joined<Arg>([], sep) == []
  {}

  method EqToSql(useNotOpr: bool, entries: seq<Entry>) returns (r: Built)
    ensures Is(r, EqMeaning(useNotOpr, entries))
  {
    if entries == [] {
      LitsRender<Arg>(SQL_TRUE);
      return Ok(SQL_TRUE, []);
    }
    hide StringsJoin, Joined;
    JoinedNone(" AND ");
    var exprs, args := [], [];
    ghost var ms := seq(|entries|, i requires 0 <= i < |entries| => EqTerm(useNotOpr, entries[i]));
    for i := 0 to |entries|
      invariant |exprs| == i && All(ms[..i]).Some?
      invariant StringsJoin(exprs, " AND ") == Text(Joined(All(ms[..i]).value, " AND "))
      invariant args == Args(Joined(All(ms[..i]).value, " AND "))
    {
      JoinedGrows(ms, exprs, " AND ", i);
      var term := EqTermToSql(useNotOpr, entries[i]);
      if term == Failed {
        return Failed;
      }
      args := args + term.args;
      exprs := exprs + [term.sql];
    }
    assert ms[..|entries|] == ms;
    return Ok(StringsJoin(exprs, " AND "), args);
  }

  method CompareTermToSql(o: Operator, e: Entry) returns (r: Built)
    ensures Is(r, CompareTerm(o, e))
  {
    var val := e.value;
    if val.Valuer? {
      if val.result == None {
        return Failed;
      }
      val := val.result.value;
    }
    if val.Null? || val.List? {
      return Failed;
    }
    ScalarTerm(e.key, " " + Symbol(o) + " ", AsArg(val));
    return Ok(e.key + (" " + Symbol(o) + " ") + "?", [AsArg(val)]);
  }

  method CompareToSql(o: Operator, entries: seq<Entry>) returns (r: Built)
    ensures Is(r, CompareMeaning(o, entries))
  {
    var exprs, args := [], [];
    ghost var ms := seq(|entries|, i requires 0 <= i < |entries| => CompareTerm(o, entries[i]));
    for i := 0 to |entries|
      invariant |exprs| == i && All(ms[..i]).Some?
      invariant StringsJoin(exprs, " AND ") == Text(Joined(All(ms[..i]).value, " AND "))
      invariant args == Args(Joined(All(ms[..i]).value, " AND "))
    {
      JoinedGrows(ms, exprs, " AND ", i);
      var term := CompareTermToSql(o, entries[i]);
      if term == Failed {
        return Failed;
      }
      args := args + term.args;
      exprs := exprs + [term.sql];
    }
    assert ms[..|entries|] == ms;
    return Ok(StringsJoin(exprs, " AND "), args);
  }

  // ---- And and Or

  function Meanings(conj: seq<Sqlizer>): (r: seq<Option<SqlParts>>)
    ensures |r| == |conj|
  {
    seq(|conj|, i requires 0 <= i < |conj| => Meaning(conj[i]))
  }

  lemma {:induction false} MeaningOfJunction(t: Sqlizer)
    requires t.And? || t.Or?
    ensures Meaning(t) == if t.And? then Junction(All(Meanings(t.conj)), " AND ", SQL_TRUE)
                          else Junction(All(Meanings(t.conj)), " OR ", SQL_FALSE)
  {
    assert Meanings(t.conj) == seq(|t.conj|, i requires 0 <= i < |t.conj| => Meaning(t.conj[i]));
  }

  /** The parts and arguments of the first i expressions, without those that have no text. */
  ghost predicate Kept(ms: seq<Option<SqlParts>>, i: nat, parts: seq<string>, args: seq<Arg>, sep: string) {
    && i <= |ms| && All(ms[..i]).Some?
    && var kept := NonEmpty(All(ms[..i]).value);
       |parts| == |kept| && StringsJoin(parts, sep) == Text(Joined(kept, sep)) && args == Args(Joined(kept, sep))
  }

  lemma {:induction false} KeptNone(ms: seq<Option<SqlParts>>, sep: string)
    ensures Kept(ms, 0, [], [], sep)
  {
    assert ms[..0] == [];
  }

  lemma {:induction false} KeptGrows(ms: seq<Option<SqlParts>>, i: nat, parts: seq<string>, args: seq<Arg>, sep: string)
    requires i < |ms| && Kept(ms, i, parts, args, sep)
    ensures match ms[i]
      case None => All(ms) == None
      case Some(p) =>
        if Text(p) == "" then Kept(ms, i + 1, parts, args, sep)
        else Kept(ms, i + 1, parts + [Text(p)], args + Args(p), sep)
  {
    AllGrows(ms, i);
    if ms[i].Some? {
      var ts := All(ms[..i]).value;
      assert (ts + [ms[i].value])[..|ts|] == ts;
      if Text(ms[i].value) != "" {
        JoinedAppend(NonEmpty(ts), parts, sep, ms[i].value);
      }
    }
  }

  lemma {:induction false} KeptAll(
    ms: seq<Option<SqlParts>>, parts: seq<string>, args: seq<Arg>, sep: string, empty: string)
    requires ms != [] && Kept(ms, |ms|, parts, args, sep)
    ensures Is(if |parts| > 0 then Ok("(" + StringsJoin(parts, sep) + ")", args) else Ok("", args),
               Junction(All(ms), sep, empty))
  {
    assert ms[..|ms|] == ms;
    Parenthesized(Joined(NonEmpty(All(ms).value), sep));
  }

  lemma {:induction false} Parenthesized(p: SqlParts)
    ensures Text(Lits("(") + p + Lits(")")) == "(" + Text(p) + ")"
    ensures Args(Lits("(") + p + Lits(")")) == Args(p)
  {
    LitsRender<Arg>("(");
    Written(Lits("("), p);
    WrittenLits(Lits("(") + p, ")");
  }

  method JunctionToSql(t: Sqlizer, sep: string, defaultExpr: string) returns (r: Built)
    requires t.And? || t.Or?
    ensures Is(r, Junction(All(Meanings(t.conj)), sep, defaultExpr))
    decreases t, 0
  {
    hide Kept, StringsJoin, Meaning;
    if |t.conj| == 0 {
      LitsRender<Arg>(defaultExpr);
      return Ok(defaultExpr, []);
    }
    var sqlParts, args := [], [];
    ghost var ms := Meanings(t.conj);
    KeptNone(ms, sep);
    for i := 0 to |t.conj|
      invariant Kept(ms, i, sqlParts, args, sep)
    {
      KeptGrows(ms, i, sqlParts, args, sep);
      var part := ToSql(t.conj[i]);
      if part == Failed {
        return Failed;
      }
      if part.sql != "" {
        sqlParts := sqlParts + [part.sql];
        args := args + part.args;
      }
    }
    KeptAll(ms, sqlParts, args, sep, defaultExpr);
    if |sqlParts| > 0 {
      return Ok("(" + StringsJoin(sqlParts, sep) + ")", args);
    }
    return Ok("", args);
  }

  // ---- every expression

  lemma {:induction false} TextWithArgs(text: string, args: seq<Arg>)
    ensures Is(Ok(text, args), Fill(text, args, seq(|args|, i requires 0 <= i < |args| => Some([Hole(args[i])]))))
  {
    FillPlain(text, args, seq(|args|, i requires 0 <= i < |args| => Some([Hole(args[i])])));
  }

  lemma {:induction false} AliasText(p: SqlParts, alias: string)
    ensures Text(Lits("(") + p + Lits(") AS ") + Raw(alias)) == "(" + Text(p) + ") AS " + alias
    ensures Args(Lits("(") + p + Lits(") AS ") + Raw(alias)) == Args(p)
  {
    LitsRender<Arg>("(");
    Written(Lits("("), p);
    WrittenLits(Lits("(") + p, ") AS ");
    Written(Lits("(") + p + Lits(") AS "), Raw(alias));
  }

  /** The text and the arguments of the tree are those of its meaning; it fails exactly when the meaning does. */
  method ToSql(t: Sqlizer) returns (r: Built)
    ensures Is(r, Meaning(t))
    decreases t, 1
  {
    match t {
      case Expr(_, _) =>
        r := ExprToSql(t);
      case Concat(_) =>
        r := ConcatToSql(t);
      case Alias(expr, alias) =>
        r := ToSql(expr);
        if r != Failed {
          AliasText(Meaning(expr).value, alias);
          r := Ok("(" + r.sql + ") AS " + alias, r.args);
        }
      case Eq(useNotOpr, entries) =>
        r := EqToSql(useNotOpr, entries);
      case Compare(o, entries) =>
        r := CompareToSql(o, entries);
      case And(_) =>
        MeaningOfJunction(t);
        r := JunctionToSql(t, " AND ", SQL_TRUE);
      case Or(_) =>
        MeaningOfJunction(t);
        r := JunctionToSql(t, " OR ", SQL_FALSE);
      case Part(pred, args) =>
        match pred {
          case NilPredicate =>
            r := Ok("", []);
          case SqlPredicate(s) =>
            r := ToSql(s);
          case TextPredicate(text) =>
            TextWithArgs(text, args);
            r := Ok(text, args);
          case _ =>
            r := Failed;
        }
      case WherePart(pred, args) =>
        match pred {
          case SqlPredicate(s) =>
            r := ToSql(s);
          case MapPredicate(entries) =>
            r := EqToSql(false, entries);
          case TextPredicate(text) =>
            TextWithArgs(text, args);
            r := Ok(text, args);
          case _ =>
            r := Failed;
        }
    }
  }
}
