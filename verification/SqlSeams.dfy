/** pkg/dbx: the law of the SQL builder, both ways. */
module SqlSeams {
  // What SqlSoundness shows of fitting seams holds the other way as well: whatever a tree nests, joins or puts side by
  // side, a seam that does not fit anywhere inside it is still there in the statement, and the statement is misread.

  import opened Bytes
  import opened SqlPieces
  import opened SqlFragments
  import opened SqlExpressions
  import opened SqlSoundness

  // ---- what holds of the whole holds of its parts

  lemma {:induction false} SoundOfParts<A>(p: Pieces<A>, q: Pieces<A>)
    requires Sound(p + q)
    ensures Sound(p) && Sound(q)
  {
    var s := p + q;
    assert Balanced(p) by {
      assert forall x <- p :: x in s;
    }
    assert Balanced(q) by {
      assert forall x <- q :: x in s;
    }
    forall i | 0 < i < |p| && p[i - 1].Hole? ensures p[i].Lit? {
      assert s[i - 1].Hole? && s[i] == p[i];
    }
    forall i | 0 < i < |q| && q[i - 1].Hole? ensures q[i].Lit? {
      assert s[|p| + i - 1].Hole? && s[|p| + i] == q[i];
    }
  }

  ghost predicate AllSome<A>(ms: seq<Option<Pieces<A>>>) {
    forall m <- ms :: m.Some?
  }

  ghost predicate SoundAll<A>(ms: seq<Option<Pieces<A>>>) {
    forall m <- ms :: m.Some? ==> Sound(m.value)
  }

  lemma {:induction false} FillingsOfSound<A>(sql: string, args: seq<A>, fillings: seq<Option<Pieces<A>>>)
    requires |args| == |fillings| == HoleCount(sql)
    requires Fill(sql, args, fillings).Some? && Sound(Fill(sql, args, fillings).value)
    ensures AllSome(fillings) && SoundAll(fillings)
  {
    hide Sound;
    if sql == "" {
    } else if StartsEscape(sql) {
      SoundOfParts([Mark], Fill(sql[2..], args, fillings).value);
      FillingsOfSound(sql[2..], args, fillings);
    } else if sql[0] != '?' {
      SoundOfParts([Lit(sql[0])], Fill(sql[1..], args, fillings).value);
      FillingsOfSound(sql[1..], args, fillings);
    } else {
      SoundOfParts(fillings[0].value, Fill(sql[1..], args[1..], fillings[1..]).value);
      FillingsOfSound(sql[1..], args[1..], fillings[1..]);
      assert forall m <- fillings :: m == fillings[0] || m in fillings[1..];
    }
  }

  lemma {:induction false} BlocksOfFlat<A>(ts: seq<Pieces<A>>)
    requires Sound(Flat(ts))
    ensures forall t <- ts :: Sound(t)
  {
    hide Sound;
    if ts != [] {
      var before, last := ts[..|ts| - 1], ts[|ts| - 1];
      SoundOfParts(Flat(before), last);
      BlocksOfFlat(before);
      assert forall t <- ts :: t == last || t in before;
    }
  }

  lemma {:induction false} BlocksOfJoined<A>(ts: seq<Pieces<A>>, sep: string)
    requires Sound(Joined(ts, sep))
    ensures forall t <- ts :: Sound(t)
  {
    hide Sound;
    if |ts| > 1 {
      var before, last := ts[..|ts| - 1], ts[|ts| - 1];
      SoundOfParts(Joined(before, sep) + Lits(sep), last);
      SoundOfParts(Joined(before, sep), Lits(sep));
      BlocksOfJoined(before, sep);
      assert forall t <- ts :: t == last || t in before;
    }
  }

  lemma {:induction false} KeptWithText<A>(ts: seq<Pieces<A>>)
    ensures forall t <- ts :: Text(t) != "" ==> t in NonEmpty(ts)
  {
    if ts != [] {
      var before, last := ts[..|ts| - 1], ts[|ts| - 1];
      KeptWithText(before);
      assert forall t <- ts :: t == last || t in before;
    }
  }

  // ---- whatever the seams, every hole has its argument and every argument its hole

  lemma {:induction false} BalancedTogether<A>(p: Pieces<A>, q: Pieces<A>)
    requires Balanced(p) && Balanced(q)
    ensures Balanced(p + q)
  {}

  ghost predicate BalancedAll<A>(ms: seq<Option<Pieces<A>>>) {
    forall m <- ms :: m.Some? ==> Balanced(m.value)
  }

  lemma {:induction false} FillBalanced<A>(sql: string, args: seq<A>, fillings: seq<Option<Pieces<A>>>)
    requires |args| == |fillings| == HoleCount(sql) && BalancedAll(fillings)
    ensures Fill(sql, args, fillings).Some? ==> Balanced(Fill(sql, args, fillings).value)
  {
    if sql == "" {
    } else if StartsEscape(sql) {
      FillBalanced(sql[2..], args, fillings);
    } else if sql[0] != '?' {
      FillBalanced(sql[1..], args, fillings);
    } else {
      assert fillings[0] in fillings && forall m <- fillings[1..] :: m in fillings;
      FillBalanced(sql[1..], args[1..], fillings[1..]);
    }
  }

  lemma {:induction false} BlocksBalanced<A>(ts: seq<Pieces<A>>, sep: string)
    requires (forall t <- ts :: Balanced(t)) && '?' !in sep
    ensures Balanced(Flat(ts)) && Balanced(Joined(ts, sep))
  {
    if ts != [] {
      var before, last := ts[..|ts| - 1], ts[|ts| - 1];
      assert last in ts && forall t <- before :: t in ts;
      BlocksBalanced(before, sep);
      LitsRender<A>(sep);
      BalancedTogether(Flat(before), last);
      BalancedTogether(Joined(before, sep), Lits(sep));
      BalancedTogether(Joined(before, sep) + Lits(sep), last);
    }
  }

  lemma {:induction false} SomethingWritten<A>(p: Pieces<A>)
    requires Balanced(p) && p != []
    ensures Text(p) != ""
  {
    assert p[0] in p;
    assert Text(p) == TextOf(p[0]) + Text(p[1..]);
  }

  lemma {:induction false} AllBalanced(ms: seq<Option<SqlParts>>)
    requires BalancedAll(ms) && All(ms).Some?
    ensures forall t <- All(ms).value :: Balanced(t)
  {
    forall t <- All(ms).value ensures Balanced(t) {
      var i :| 0 <= i < |ms| && All(ms).value[i] == t;
      assert ms[i] == Some(t) && ms[i] in ms;
    }
  }

  lemma {:induction false} JunctionBalanced(ms: seq<Option<SqlParts>>, sep: string, empty: string)
    requires BalancedAll(ms) && '?' !in sep && '?' !in empty
    ensures var p := Junction(All(ms), sep, empty); p.Some? ==> Balanced(p.value)
  {
    hide Balanced;
    if All(ms).Some? {
      AllBalanced(ms);
      var kept := NonEmpty(All(ms).value);
      BlocksBalanced(kept, sep);
      LitsSound(empty);
      LitsSound("(");
      LitsSound(")");
      BalancedTogether(Lits("("), Joined(kept, sep));
      BalancedTogether(Lits("(") + Joined(kept, sep), Lits(")"));
      NoPiecesBalanced();
    }
  }

  lemma {:induction false} NoPiecesBalanced()
    ensures Balanced<Arg>([])
  {}

  lemma {:induction false} AliasBalanced(p: SqlParts, alias: string)
    requires Balanced(p) && HoleCount(alias) == 0
    ensures Balanced(Lits("(") + p + Lits(") AS ") + Raw(alias))
  {
    LitsSound("(");
    LitsSound(") AS ");
    RawSound(alias);
  }

  // ---- every tree

  lemma {:induction false} MeaningBalanced(t: Sqlizer)
    requires Matched(t)
    ensures Meaning(t).Some? ==> Balanced(Meaning(t).value)
    decreases t, 1
  {
    hide Balanced;
    match t
    case Expr(_, _) => ExprBalanced(t);
    case Concat(_) => ConcatBalanced(t);
    case Alias(expr, alias) =>
      MeaningBalanced(expr);
      if Meaning(expr).Some? {
        AliasBalanced(Meaning(expr).value, alias);
      }
    case Eq(useNotOpr, entries) => EqSound(useNotOpr, entries);
    case Compare(o, entries) => CompareSound(o, entries);
    case And(conj) => ConjBalanced(t, conj);
    case Or(conj) => ConjBalanced(t, conj);
    case Part(pred, args) => PredicateBalanced(t, pred, args);
    case WherePart(pred, args) => PredicateBalanced(t, pred, args);
  }

  lemma {:induction false} ExprBalanced(t: Sqlizer)
    requires t.Expr? && Matched(t)
    ensures Meaning(t).Some? ==> Balanced(Meaning(t).value)
    decreases t, 0
  {
    MeaningOfExpr(t);
    forall m <- Fillings(t.args) ensures m.Some? ==> Balanced(m.value) {
      var i :| 0 <= i < |t.args| && Fillings(t.args)[i] == m;
      if t.args[i].Nested? {
        MeaningBalanced(t.args[i].sqlizer);
      }
    }
    FillBalanced(t.sql, t.args, Fillings(t.args));
  }

  lemma {:induction false} ConcatBalanced(t: Sqlizer)
    requires t.Concat? && Matched(t)
    ensures Meaning(t).Some? ==> Balanced(Meaning(t).value)
    decreases t, 0
  {
    MeaningOfConcat(t);
    var ms := PartMeanings(t.parts);
    forall m <- ms ensures m.Some? ==> Balanced(m.value) {
      var i :| 0 <= i < |t.parts| && ms[i] == m;
      match t.parts[i]
      case TextPart(text) => RawSound(text);
      case SubPart(s) => MeaningBalanced(s);
      case OtherPart =>
    }
    if All(ms).Some? {
      AllBalanced(ms);
      BlocksBalanced(All(ms).value, "");
    }
  }

  lemma {:induction false} ConjBalanced(t: Sqlizer, conj: seq<Sqlizer>)
    requires (t == And(conj) || t == Or(conj)) && Matched(t)
    ensures Meaning(t).Some? ==> Balanced(Meaning(t).value)
    decreases t, 0
  {
    MeaningOfJunction(t);
    forall m <- Meanings(conj) ensures m.Some? ==> Balanced(m.value) {
      var i :| 0 <= i < |conj| && Meanings(conj)[i] == m;
      MeaningBalanced(conj[i]);
    }
    JunctionBalanced(Meanings(conj), " AND ", SQL_TRUE);
    JunctionBalanced(Meanings(conj), " OR ", SQL_FALSE);
  }

  lemma {:induction false} PredicateBalanced(t: Sqlizer, pred: Predicate, args: seq<Arg>)
    requires (t == Part(pred, args) || t == WherePart(pred, args)) && Matched(t)
    ensures Meaning(t).Some? ==> Balanced(Meaning(t).value)
    decreases t, 0
  {
    match pred
    case TextPredicate(text) => TextSound(text, args);
    case SqlPredicate(s) => MeaningBalanced(s);
    case MapPredicate(entries) => EqSound(false, entries);
    case _ =>
  }

  /** A tree whose pieces are sound has no seam inside it that does not fit. */
  lemma {:induction false} SoundMeansSeamsOk(t: Sqlizer)
    requires Matched(t) && Meaning(t).Some? && Sound(Meaning(t).value)
    ensures SeamsOk(t)
    decreases t, 1
  {
    hide Sound;
    match t
    case Expr(_, _) => ExprSeams(t);
    case Concat(_) => ConcatSeams(t);
    case Alias(expr, alias) =>
      SoundOfParts(Lits("(") + Meaning(expr).value + Lits(") AS "), Raw(alias));
      SoundOfParts(Lits("(") + Meaning(expr).value, Lits(") AS "));
      SoundOfParts(Lits("("), Meaning(expr).value);
      SoundMeansSeamsOk(expr);
    case And(conj) => ConjSeams(t, conj);
    case Or(conj) => ConjSeams(t, conj);
    case Part(pred, _) =>
      if pred.SqlPredicate? {
        SoundMeansSeamsOk(pred.sqlizer);
      }
    case WherePart(pred, _) =>
      if pred.SqlPredicate? {
        SoundMeansSeamsOk(pred.sqlizer);
      }
    case _ =>
  }

  lemma {:induction false} ExprSeams(t: Sqlizer)
    requires t.Expr? && Matched(t) && Meaning(t).Some? && Sound(Meaning(t).value)
    ensures SeamsOk(t)
    decreases t, 0
  {
    MeaningOfExpr(t);
    FillingsOfSound(t.sql, t.args, Fillings(t.args));
    forall i | 0 <= i < |t.args| && t.args[i].Nested? ensures SeamsOk(t.args[i].sqlizer) {
      assert Fillings(t.args)[i] in Fillings(t.args);
      SoundMeansSeamsOk(t.args[i].sqlizer);
    }
  }

  lemma {:induction false} ConcatSeams(t: Sqlizer)
    requires t.Concat? && Matched(t) && Meaning(t).Some? && Sound(Meaning(t).value)
    ensures SeamsOk(t)
    decreases t, 0
  {
    hide Sound, SeamsFit;
    MeaningOfConcat(t);
    var ms := PartMeanings(t.parts);
    BlocksOfFlat(All(ms).value);
    forall i | 0 <= i < |t.parts| && t.parts[i].SubPart? ensures SeamsOk(t.parts[i].sqlizer) {
      assert ms[i] == Some(All(ms).value[i]) && All(ms).value[i] in All(ms).value;
      SoundMeansSeamsOk(t.parts[i].sqlizer);
    }
    FlatSound(All(ms).value);
  }

  lemma {:induction false} ConjSeams(t: Sqlizer, conj: seq<Sqlizer>)
    requires (t == And(conj) || t == Or(conj)) && Matched(t) && Meaning(t).Some? && Sound(Meaning(t).value)
    ensures SeamsOk(t)
    decreases t, 0
  {
    hide Sound;
    MeaningOfJunction(t);
    var ts := All(Meanings(conj)).value;
    KeptOfJunction(ts, if t.And? then " AND " else " OR ", if t.And? then SQL_TRUE else SQL_FALSE);
    KeptWithText(ts);
    forall i | 0 <= i < |conj| ensures SeamsOk(conj[i]) {
      assert Meanings(conj)[i] == Some(ts[i]) && ts[i] in ts;
      if Text(ts[i]) == "" {
        MeaningBalanced(conj[i]);
        if ts[i] != [] {
          SomethingWritten(ts[i]);
        }
        NoPiecesSound();
      }
      SoundMeansSeamsOk(conj[i]);
    }
  }

  lemma {:induction false} NoPiecesSound()
    ensures Sound<Arg>([])
  {}

  lemma {:induction false} KeptOfJunction(ts: seq<SqlParts>, sep: string, empty: string)
    requires Sound(Junction(Some(ts), sep, empty).value)
    ensures forall t <- NonEmpty(ts) :: Sound(t)
  {
    hide Sound;
    var kept := NonEmpty(ts);
    if kept != [] {
      SoundOfParts(Lits("(") + Joined(kept, sep), Lits(")"));
      SoundOfParts(Lits("("), Joined(kept, sep));
      BlocksOfJoined(kept, sep);
    }
  }

  /**
   The law of the SQL builder: a tree that is built, and whose texts match their arguments, is read by the database as
   it was meant, each hole with the argument of its own fragment, if and only if no ConcatExpr anywhere inside it puts
   a hole right in front of a question mark.
   */
  lemma {:induction false} HolesGetTheirArgumentsExactlyWhen(t: Sqlizer, r: Built)
    requires Is(r, Meaning(t)) && r.Ok? && Matched(t)
    ensures Bind(r.sql, r.args) == Meaning(t) <==> SeamsOk(t)
  {
    hide Sound, Matched, SeamsOk;
    ReadAsMeantExactlyWhen(t, r);
    if Sound(Meaning(t).value) {
      SoundMeansSeamsOk(t);
    } else if SeamsOk(t) {
      MeaningSound(t);
      assert false;
    }
  }
}
