/** pkg/dbx: text, arguments and holes. */
module SqlPieces {
  // In a fragment `?` is a hole and `??` an escaped question mark, read from left to right. A Piece is what a
  // statement is made of once every hole knows its argument; Text and Args are the two lists a builder returns.

  import opened Bytes

  datatype Piece<A> =
    | Lit(c: char)
    | Mark            // ??
    | Hole(arg: A)    // ? with the argument meant for it
    | Unbound         // ? that no argument is meant for
    | Extra(arg: A)   // an argument that no hole is meant for

  type Pieces<A> = seq<Piece<A>>

  function Text<A>(p: Pieces<A>): (s: string) {
    if p == [] then []
    else TextOf(p[0]) + Text(p[1..])
  }

  function TextOf<A>(x: Piece<A>): string {
    match x
    case Lit(c) => [c]
    case Mark => "??"
    case Hole(_) => "?"
    case Unbound => "?"
    case Extra(_) => ""
  }

  function Args<A>(p: Pieces<A>): (args: seq<A>) {
    if p == [] then []
    else if p[0].Hole? || p[0].Extra? then [p[0].arg] + Args(p[1..])
    else Args(p[1..])
  }

  lemma {:induction false} TailOfAppend<T>(p: seq<T>, q: seq<T>)
    requires p != []
    ensures (p + q)[0] == p[0] && (p + q)[1..] == p[1..] + q
  {}

  lemma {:induction false} Reassociate<T>(a: seq<T>, b: seq<T>, c: seq<T>)
    ensures a + b + c == a + (b + c)
  {}

  lemma {:induction false} TextAppend<A>(p: Pieces<A>, q: Pieces<A>)
    ensures Text(p + q) == Text(p) + Text(q)
  {
    if p == [] {
      assert p + q == q;
    } else {
      TailOfAppend(p, q);
      TextAppend(p[1..], q);
      Reassociate(TextOf(p[0]), Text(p[1..]), Text(q));
    }
  }

  lemma {:induction false} ArgsAppend<A>(p: Pieces<A>, q: Pieces<A>)
    ensures Args(p + q) == Args(p) + Args(q)
  {
    if p == [] {
      assert p + q == q;
    } else {
      TailOfAppend(p, q);
      ArgsAppend(p[1..], q);
      if p[0].Hole? || p[0].Extra? {
        Reassociate([p[0].arg], Args(p[1..]), Args(q));
      }
    }
  }

  lemma {:induction false} RenderAppend<A>(p: Pieces<A>, q: Pieces<A>)
    ensures Text(p + q) == Text(p) + Text(q)
    ensures Args(p + q) == Args(p) + Args(q)
  {
    TextAppend(p, q);
    ArgsAppend(p, q);
  }

  // ---- the reader: what a database makes of a text and a list of arguments

  predicate StartsEscape(sql: string) {
    |sql| >= 2 && sql[0] == '?' && sql[1] == '?'
  }

  function Prepend<A>(p: Pieces<A>, rest: Option<Pieces<A>>): Option<Pieces<A>> {
    match rest
    case None => None
    case Some(r) => Some(p + r)
  }

  /** The holes of the text filled with the arguments in order; None when there are too many or too few. */
  function Bind<A>(sql: string, args: seq<A>): Option<Pieces<A>> {
    if sql == "" then if args == [] then Some([]) else None
    else if StartsEscape(sql) then Prepend([Mark], Bind(sql[2..], args))
    else if sql[0] == '?' then
      if args == [] then None else Prepend([Hole(args[0])], Bind(sql[1..], args[1..]))
    else Prepend([Lit(sql[0])], Bind(sql[1..], args))
  }

  // ---- when a list of pieces survives being written down

  /** Every hole has its argument, every argument its hole, and no literal looks like a hole. */
  ghost predicate Balanced<A>(p: Pieces<A>) {
    forall x <- p :: !x.Unbound? && !x.Extra? && x != Lit('?')
  }

  /** What stands after a hole must not start with a question mark, or the two would read as an escape. */
  ghost predicate Separated<A>(p: Pieces<A>) {
    forall i :: 0 < i < |p| && p[i - 1].Hole? ==> p[i].Lit?
  }

  /** The pieces write to this text and these arguments, and would be read back. */
  ghost predicate Writes<A>(p: Pieces<A>, sql: string, args: seq<A>) {
    Text(p) == sql && Args(p) == args && Balanced(p) && Separated(p)
  }

  /** Whatever is read writes back to the same text and arguments. */
  lemma {:induction false} Unread<A>(sql: string, args: seq<A>)
    ensures Bind(sql, args).Some? ==> Writes(Bind(sql, args).value, sql, args)
  {
    hide Writes;
    if sql == "" {
      NothingUnread<A>();
    } else if StartsEscape(sql) {
      assert sql == "??" + sql[2..];
      Unread(sql[2..], args);
      if Bind(sql[2..], args).Some? {
        UnreadOther(Mark, Bind(sql[2..], args).value, sql[2..], args);
      }
    } else if sql[0] == '?' {
      if args != [] {
        assert sql == "?" + sql[1..] && args == [args[0]] + args[1..];
        Unread(sql[1..], args[1..]);
        if Bind(sql[1..], args[1..]).Some? {
          UnreadHole(args[0], Bind(sql[1..], args[1..]).value, sql[1..], args[1..]);
        }
      }
    } else {
      assert sql == [sql[0]] + sql[1..];
      Unread(sql[1..], args);
      if Bind(sql[1..], args).Some? {
        UnreadOther(Lit(sql[0]), Bind(sql[1..], args).value, sql[1..], args);
      }
    }
  }

  lemma {:induction false} NothingUnread<A>()
    ensures Writes<A>([], "", [])
  {}

  lemma {:induction false} UnreadHole<A>(a: A, rest: Pieces<A>, sql: string, args: seq<A>)
    requires Writes(rest, sql, args) && (sql == "" || sql[0] != '?')
    ensures Writes([Hole(a)] + rest, "?" + sql, [a] + args)
  {
    var p := [Hole(a)] + rest;
    assert p[1..] == rest;
    if rest != [] {
      assert rest[0] in rest;
      assert sql == TextOf(rest[0]) + Text(rest[1..]);
    }
    SeparatedCons(Hole(a), rest);
  }

  lemma {:induction false} UnreadOther<A>(x: Piece<A>, rest: Pieces<A>, sql: string, args: seq<A>)
    requires Writes(rest, sql, args) && (x.Mark? || (x.Lit? && x.c != '?'))
    ensures Writes([x] + rest, TextOf(x) + sql, args)
  {
    assert ([x] + rest)[1..] == rest;
    SeparatedCons(x, rest);
  }

  lemma {:induction false} SeparatedCons<A>(x: Piece<A>, rest: Pieces<A>)
    requires Separated(rest) && (x.Hole? && rest != [] ==> rest[0].Lit?)
    ensures Separated([x] + rest)
  {
    var p := [x] + rest;
    forall i | 0 < i < |p| && p[i - 1].Hole? ensures p[i].Lit? {
      if i > 1 {
        assert rest[i - 2].Hole?;
      }
    }
  }

  lemma {:induction false} ReadBack<A>(p: Pieces<A>)
    requires Balanced(p) && Separated(p)
    ensures Bind(Text(p), Args(p)) == Some(p)
  {
    if p != [] {
      var x, rest := p[0], p[1..];
      assert p == [x] + rest;
      assert x in p;
      assert Balanced(rest) by {
        forall y <- rest ensures y in p {}
      }
      assert Separated(rest) by {
        forall i | 0 < i < |rest| && rest[i - 1].Hole? ensures rest[i].Lit? {
          assert p[i].Hole?;
        }
      }
      ReadBack(rest);
      if x.Hole? && rest != [] {
        assert p[0].Hole? && p[1].Lit?;
        assert rest[0] in p;
        assert Text(rest) == [rest[0].c] + Text(rest[1..]);
      }
      var sql := Text(p);
      assert sql[|TextOf(x)|..] == Text(rest);
      assert x.Hole? ==> Args(p)[1..] == Args(rest);
    }
  }

  /** The pieces are read back from their text and arguments exactly when they are balanced and separated. */
  lemma {:induction false} ReadsBackExactlyWhen<A>(p: Pieces<A>)
    ensures Bind(Text(p), Args(p)) == Some(p) <==> Balanced(p) && Separated(p)
  {
    Unread(Text(p), Args(p));
    if Balanced(p) && Separated(p) {
      ReadBack(p);
    }
  }

  // ---- joining pieces

  ghost predicate Sound<A>(p: Pieces<A>) {
    Balanced(p) && Separated(p)
  }

  /** Two texts may stand next to each other: the first does not end in a hole or the second starts with a literal. */
  predicate Fits<A>(p: Pieces<A>, q: Pieces<A>) {
    p == [] || q == [] || !p[|p| - 1].Hole? || q[0].Lit?
  }

  lemma {:induction false} SoundAppend<A>(p: Pieces<A>, q: Pieces<A>)
    requires Sound(p) && Sound(q)
    ensures Sound(p + q) <==> Fits(p, q)
  {
    var s := p + q;
    assert Balanced(s);
    if Fits(p, q) {
      forall i | 0 < i < |s| && s[i - 1].Hole? ensures s[i].Lit? {
        if i < |p| {
          assert p[i - 1].Hole?;
        } else if i > |p| {
          assert q[i - |p| - 1].Hole?;
        }
      }
    } else {
      assert s[|p| - 1].Hole? && !s[|p|].Lit?;
    }
  }

  /** Text without question marks. */
  function Lits<A>(text: string): (p: Pieces<A>)
    ensures |p| == |text|
    ensures forall x <- p :: x.Lit?
  {
    if text == "" then [] else [Lit(text[0])] + Lits(text[1..])
  }

  lemma {:induction false} LitsAppend<A>(a: string, b: string)
    ensures Lits<A>(a + b) == Lits(a) + Lits(b)
  {
    if a == "" {
      assert a + b == b;
      assert [] + Lits<A>(b) == Lits(b);
    } else {
      TailOfAppend(a, b);
      LitsAppend<A>(a[1..], b);
      Reassociate<Piece<A>>([Lit(a[0])], Lits(a[1..]), Lits(b));
    }
  }

  lemma {:induction false} LitsRender<A>(text: string)
    ensures Text(Lits<A>(text)) == text && Args(Lits<A>(text)) == []
    ensures '?' !in text ==> Sound(Lits<A>(text))
  {
    if text != "" {
      LitsRender<A>(text[1..]);
      assert Lits<A>(text)[1..] == Lits<A>(text[1..]);
      assert text == [text[0]] + text[1..];
      if '?' !in text {
        assert text[0] != '?';
        assert '?' !in text[1..];
        SoundAppend<A>([Lit(text[0])], Lits<A>(text[1..]));
      }
    }
  }
}
