/** pkg/dbx: what the building blocks of a statement mean, however its text and arguments are put together. */
module SqlFragments {
  import opened Bytes
  import opened SqlPieces

  function Extras<A>(args: seq<A>): (p: Pieces<A>)
    ensures Text(p) == "" && Args(p) == args
  {
    if args == [] then [] else [Extra(args[0])] + Extras(args[1..])
  }

  /**
   A fragment whose k-th hole is filled with the k-th filling. A filling that is None cannot be built, and neither can
   the whole when its hole is reached. Holes and arguments that are left over stay, unmatched.
   */
  function Fill<A>(sql: string, args: seq<A>, fillings: seq<Option<Pieces<A>>>): (p: Option<Pieces<A>>)
    requires |args| == |fillings|
  {
    if sql == "" then Some(Extras(args))
    else if StartsEscape(sql) then Prepend([Mark], Fill(sql[2..], args, fillings))
    else if sql[0] != '?' then Prepend([Lit(sql[0])], Fill(sql[1..], args, fillings))
    else if args == [] then Prepend([Unbound], Fill(sql[1..], args, fillings))
    else if fillings[0] == None then None
    else Prepend(fillings[0].value, Fill(sql[1..], args[1..], fillings[1..]))
  }

  /** How many holes a fragment has. */
  function HoleCount(sql: string): nat {
    if sql == "" then 0
    else if StartsEscape(sql) then HoleCount(sql[2..])
    else if sql[0] == '?' then 1 + HoleCount(sql[1..])
    else HoleCount(sql[1..])
  }

  lemma {:induction false} PrependTwice<A>(p: Pieces<A>, q: Pieces<A>, rest: Option<Pieces<A>>)
    ensures Prepend(p, Prepend(q, rest)) == Prepend(p + q, rest)
  {
    if rest.Some? {
      Reassociate(p, q, rest.value);
    }
  }

  /** Text up to the next question mark is copied. */
  lemma {:induction false} FillCopies<A>(sql: string, i: nat, args: seq<A>, fillings: seq<Option<Pieces<A>>>)
    requires |args| == |fillings| && i <= |sql| && '?' !in sql[..i]
    ensures Fill(sql, args, fillings) == Prepend(Lits(sql[..i]), Fill(sql[i..], args, fillings))
  {
    if i == 0 {
      assert sql[0..] == sql;
      if Fill(sql, args, fillings).Some? {
        assert [] + Fill(sql, args, fillings).value == Fill(sql, args, fillings).value;
      }
    } else {
      assert sql[0] == sql[..i][0];
      assert sql[1..][..i - 1] == sql[..i][1..];
      assert sql[1..][i - 1..] == sql[i..];
      FillCopies(sql[1..], i - 1, args, fillings);
      PrependTwice([Lit(sql[0])], Lits(sql[1..][..i - 1]), Fill(sql[i..], args, fillings));
    }
  }

  /** Without arguments, or without question marks, everything that is left is copied. */
  lemma {:induction false} FillRest<A>(sql: string, args: seq<A>, fillings: seq<Option<Pieces<A>>>)
    requires |args| == |fillings| && (args == [] || '?' !in sql)
    ensures var p := Fill(sql, args, fillings); p.Some? && Text(p.value) == sql && Args(p.value) == args
  {
    if sql == "" {
    } else if StartsEscape(sql) {
      FillRest(sql[2..], args, fillings);
      assert sql == "??" + sql[2..];
      RenderAppend([Mark], Fill(sql[2..], args, fillings).value);
    } else {
      FillRest(sql[1..], args, fillings);
      assert sql == [sql[0]] + sql[1..];
      var rest := Fill(sql[1..], args, fillings).value;
      RenderAppend([Lit(sql[0])], rest);
      RenderAppend([Unbound], rest);
    }
  }

  /** The fragment as it stands, for arguments that are plain values. */
  lemma {:induction false} FillPlain<A>(sql: string, args: seq<A>, fillings: seq<Option<Pieces<A>>>)
    requires |args| == |fillings| && forall i :: 0 <= i < |args| ==> fillings[i] == Some([Hole(args[i])])
    ensures var p := Fill(sql, args, fillings); p.Some? && Text(p.value) == sql && Args(p.value) == args
  {
    if sql == "" || args == [] {
      FillRest(sql, args, fillings);
    } else if StartsEscape(sql) {
      FillPlain(sql[2..], args, fillings);
      assert sql == "??" + sql[2..];
      RenderAppend([Mark], Fill(sql[2..], args, fillings).value);
    } else if sql[0] != '?' {
      FillPlain(sql[1..], args, fillings);
      assert sql == [sql[0]] + sql[1..];
      RenderAppend([Lit(sql[0])], Fill(sql[1..], args, fillings).value);
    } else {
      FillPlain(sql[1..], args[1..], fillings[1..]);
      assert sql == "?" + sql[1..];
      RenderAppend([Hole(args[0])], Fill(sql[1..], args[1..], fillings[1..]).value);
    }
  }

  lemma {:induction false} FillSound<A>(sql: string, args: seq<A>, fillings: seq<Option<Pieces<A>>>)
    requires |args| == |fillings| == HoleCount(sql)
    requires forall f <- fillings :: f.Some? ==> Sound(f.value)
    ensures var p := Fill(sql, args, fillings);
      p.Some? ==> Sound(p.value) && (sql != "" && sql[0] != '?' ==> p.value != [] && p.value[0] == Lit(sql[0]))
  {
    if sql == "" {
    } else if StartsEscape(sql) {
      FillSound(sql[2..], args, fillings);
      var rest := Fill(sql[2..], args, fillings);
      if rest.Some? {
        SoundAppend([Mark], rest.value);
      }
    } else if sql[0] != '?' {
      FillSound(sql[1..], args, fillings);
      var rest := Fill(sql[1..], args, fillings);
      if rest.Some? {
        SoundAppend([Lit(sql[0])], rest.value);
      }
    } else if fillings[0].Some? {
      assert fillings[0] in fillings;
      FillSound(sql[1..], args[1..], fillings[1..]);
      var rest := Fill(sql[1..], args[1..], fillings[1..]);
      if rest.Some? {
        SoundAppend(fillings[0].value, rest.value);
      }
    }
  }

  // ---- lists of blocks

  /** All of them, or None when one of them cannot be built. */
  function All<A>(ms: seq<Option<Pieces<A>>>): (r: Option<seq<Pieces<A>>>)
    ensures r.Some? ==> |r.value| == |ms| && forall i :: 0 <= i < |ms| ==> ms[i] == Some(r.value[i])
  {
    if ms == [] then Some([])
    else if ms[|ms| - 1] == None then None
    else
      match All(ms[..|ms| - 1])
      case None => None
      case Some(ts) => Some(ts + [ms[|ms| - 1].value])
  }

  lemma {:induction false} AllOrNone<A>(ms: seq<Option<Pieces<A>>>)
    ensures All(ms).None? <==> exists i :: 0 <= i < |ms| && ms[i] == None
  {
    if ms != [] {
      AllOrNone(ms[..|ms| - 1]);
      if i :| 0 <= i < |ms| && ms[i] == None {
        assert i < |ms| - 1 ==> ms[..|ms| - 1][i] == None;
      }
    }
  }

  function StringsJoin(parts: seq<string>, sep: string): string {
    if parts == [] then ""
    else if |parts| == 1 then parts[0]
    else StringsJoin(parts[..|parts| - 1], sep) + sep + parts[|parts| - 1]
  }

  function Joined<A>(ts: seq<Pieces<A>>, sep: string): Pieces<A> {
    if ts == [] then []
    else if |ts| == 1 then ts[0]
    else Joined(ts[..|ts| - 1], sep) + Lits(sep) + ts[|ts| - 1]
  }

  /** The blocks with some text in them: a block without text is left out, with its arguments. */
  function NonEmpty<A>(ts: seq<Pieces<A>>): (r: seq<Pieces<A>>)
    ensures forall t <- r :: t in ts && Text(t) != ""
  {
    if ts == [] then []
    else if Text(ts[|ts| - 1]) == "" then NonEmpty(ts[..|ts| - 1])
    else NonEmpty(ts[..|ts| - 1]) + [ts[|ts| - 1]]
  }

  function Flat<A>(ts: seq<Pieces<A>>): Pieces<A> {
    if ts == [] then [] else Flat(ts[..|ts| - 1]) + ts[|ts| - 1]
  }

  /**
   The blocks of a clause. The separator goes before every block with text but the very first of the list, so it also
   goes before the first block with text when an empty one precedes it.
   */
  function Clause<A>(ts: seq<Pieces<A>>, sep: string): Pieces<A> {
    if ts == [] then []
    else Clause(ts[..|ts| - 1], sep) + ClauseItem(ts[|ts| - 1], |ts| == 1, sep)
  }

  function ClauseItem<A>(t: Pieces<A>, first: bool, sep: string): Pieces<A> {
    if Text(t) == "" then [] else if first then t else Lits(sep) + t
  }

  lemma {:induction false} ClauseItemText<A>(t: Pieces<A>, first: bool, sep: string)
    ensures Text(ClauseItem(t, first, sep)) == if Text(t) == "" then "" else (if first then "" else sep) + Text(t)
    ensures Args(ClauseItem(t, first, sep)) == if Text(t) == "" then [] else Args(t)
  {
    if Text(t) != "" && !first {
      LitsRender<A>(sep);
      RenderAppend(Lits(sep), t);
    }
  }

  lemma {:induction false} JoinedAppend<A>(ts: seq<Pieces<A>>, parts: seq<string>, sep: string, t: Pieces<A>)
    requires |ts| == |parts| && StringsJoin(parts, sep) == Text(Joined(ts, sep))
    ensures StringsJoin(parts + [Text(t)], sep) == Text(Joined(ts + [t], sep))
    ensures Args(Joined(ts + [t], sep)) == Args(Joined(ts, sep)) + Args(t)
  {
    if ts != [] {
      assert (ts + [t])[..|ts|] == ts && (parts + [Text(t)])[..|parts|] == parts;
      LitsRender<A>(sep);
      RenderAppend(Joined(ts, sep), Lits(sep));
      RenderAppend(Joined(ts, sep) + Lits(sep), t);
    }
  }

  lemma {:induction false} SeparatorSound<A>(p: Pieces<A>, sep: string, t: Pieces<A>)
    requires Sound(p) && Sound(t) && sep != "" && '?' !in sep
    ensures Sound(p + Lits(sep) + t)
  {
    LitsRender<A>(sep);
    var l := Lits<A>(sep);
    assert l[0] in l && l[|l| - 1] in l;
    SoundAppend(p, l);
    SoundAppend(p + l, t);
  }

  lemma {:induction false} JoinedSound<A>(ts: seq<Pieces<A>>, sep: string)
    requires sep != "" && '?' !in sep && forall t <- ts :: Sound(t)
    ensures Sound(Joined(ts, sep))
  {
    if |ts| > 1 {
      JoinedSound(ts[..|ts| - 1], sep);
      SeparatorSound(Joined(ts[..|ts| - 1], sep), sep, ts[|ts| - 1]);
    }
  }

  lemma {:induction false} ClauseSound<A>(ts: seq<Pieces<A>>, sep: string)
    requires '?' !in sep && (sep != "" || |ts| <= 1) && forall t <- ts :: Sound(t)
    ensures Sound(Clause(ts, sep))
  {
    if ts != [] {
      var before, last := Clause(ts[..|ts| - 1], sep), ts[|ts| - 1];
      ClauseSound(ts[..|ts| - 1], sep);
      if Text(last) == "" {
        assert before + [] == before;
      } else if |ts| > 1 {
        SeparatorSound(before, sep, last);
        Reassociate(before, Lits(sep), last);
      } else {
        assert before + last == last;
      }
    }
  }

  /** Where two blocks meet without a separator. */
  predicate SeamsFit<A>(ts: seq<Pieces<A>>) {
    forall i :: 0 <= i < |ts| ==> Fits(Flat(ts[..i]), ts[i])
  }

  lemma {:induction false} FlatSound<A>(ts: seq<Pieces<A>>)
    requires forall t <- ts :: Sound(t)
    ensures Sound(Flat(ts)) <==> SeamsFit(ts)
  {
    if ts != [] {
      var before := ts[..|ts| - 1];
      FlatSound(before);
      forall i | 0 <= i < |before| ensures before[..i] == ts[..i] {}
      assert ts[|ts| - 1] in ts;
      if SeamsFit(ts) {
        forall i | 0 <= i < |before| ensures Fits(Flat(before[..i]), before[i]) {
          assert Fits(Flat(ts[..i]), ts[i]);
        }
        SoundAppend(Flat(before), ts[|ts| - 1]);
      } else if SeamsFit(before) {
        assert !Fits(Flat(before), ts[|ts| - 1]) by {
          var i :| 0 <= i < |ts| && !Fits(Flat(ts[..i]), ts[i]);
          if i < |before| {
            assert Fits(Flat(before[..i]), before[i]);
          }
        }
        SoundAppend(Flat(before), ts[|ts| - 1]);
      } else {
        UnsoundPrefix(Flat(before), ts[|ts| - 1]);
      }
    }
  }

  lemma {:induction false} UnsoundPrefix<A>(p: Pieces<A>, q: Pieces<A>)
    requires !Sound(p)
    ensures !Sound(p + q)
  {
    var s := p + q;
    if !Balanced(p) {
      var x :| x in p && (x.Unbound? || x.Extra? || x == Lit('?'));
      assert x in s;
    } else {
      var i :| 0 < i < |p| && p[i - 1].Hole? && !p[i].Lit?;
      assert s[i - 1].Hole? && !s[i].Lit?;
    }
  }
}
