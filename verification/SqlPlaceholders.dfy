/** pkg/dbx/placeholder.go. */
module SqlPlaceholders {
  // Numbered placeholders, and the databases that read them.

  import opened Bytes
  import opened SqlPieces
  import opened SqlFragments
  import opened SqlExpressions
  import opened Decimal

  predicate IsDigitChar(c: char) { 0x30 <= c as int <= 0x39 }

  function ToChar(b: byte): (c: char)
    requires IsDigit(b)
    ensures IsDigitChar(c) && c as int == b
  {
    b as char
  }

  function ToByte(c: char): (b: byte)
    requires IsDigitChar(c)
    ensures c as int == b
  {
    c as int
  }

  function ToNumeral(digits: bytes): (s: string)
    requires forall i :: 0 <= i < |digits| ==> IsDigit(digits[i])
    ensures |s| == |digits| && forall i :: 0 <= i < |s| ==> IsDigitChar(s[i])
  {
    seq(|digits|, i requires 0 <= i < |digits| => ToChar(digits[i]))
  }

  function FromNumeral(s: string): (digits: bytes)
    requires forall i :: 0 <= i < |s| ==> IsDigitChar(s[i])
  {
    seq(|s|, i requires 0 <= i < |s| => ToByte(s[i]))
  }

  function Numeral(n: nat): (s: string)
    ensures s != "" && forall i :: 0 <= i < |s| ==> IsDigitChar(s[i])
  {
    ToNumeral(Digits(n))
  }

  /** The text with its holes numbered from i + 1 on, and escapes undone. */
  function Numbered<A>(p: Pieces<A>, prefix: string, i: nat): string {
    if p == [] then ""
    else
      match p[0]
      case Lit(c) => [c] + Numbered(p[1..], prefix, i)
      case Mark => "?" + Numbered(p[1..], prefix, i)
      case Extra(_) => Numbered(p[1..], prefix, i)
      case _ => prefix + Numeral(i + 1) + Numbered(p[1..], prefix, i + 1)
  }

  // ---- the loop

  lemma {:induction false} NumberedCopies<A>(text: string, q: Pieces<A>, prefix: string, i: nat)
    ensures Numbered(Lits(text) + q, prefix, i) == text + Numbered(q, prefix, i)
  {
    if text == "" {
      assert Lits<A>("") + q == q;
    } else {
      NumberedCopies(text[1..], q, prefix, i);
      var p := Lits<A>(text);
      assert p[0] == Lit(text[0]) && p[1..] == Lits(text[1..]);
      TailOfAppend(p, q);
      Rejoined(text, Numbered(q, prefix, i));
    }
  }

  lemma {:induction false} Rejoined(text: string, rest: string)
    requires text != ""
    ensures [text[0]] + (text[1..] + rest) == text + rest
  {}

  lemma {:induction false} RawCopies(sql: string, n: nat)
    requires n <= |sql| && '?' !in sql[..n]
    ensures Raw(sql) == Lits(sql[..n]) + Raw(sql[n..])
  {
    FillRest<Arg>(sql, [], []);
    FillRest<Arg>(sql[n..], [], []);
    FillCopies<Arg>(sql, n, [], []);
  }

  lemma {:induction false} RawAtMark(sql: string)
    requires sql != "" && sql[0] == '?'
    ensures Raw(sql) == if StartsEscape(sql) then [Mark] + Raw(sql[2..]) else [Unbound] + Raw(sql[1..])
  {
    FillRest<Arg>(sql, [], []);
    if StartsEscape(sql) {
      FillRest<Arg>(sql[2..], [], []);
    } else {
      FillRest<Arg>(sql[1..], [], []);
    }
  }

  lemma {:induction false} NumberedUpToMark(sql: string, p: nat, prefix: string, i: nat)
    requires p < |sql| && sql[p] == '?' && '?' !in sql[..p]
    ensures Numbered(Raw(sql), prefix, i)
         == sql[..p] + if StartsEscape(sql[p..]) then "?" + Numbered(Raw(sql[p + 2..]), prefix, i)
                       else prefix + Numeral(i + 1) + Numbered(Raw(sql[p + 1..]), prefix, i + 1)
  {
    RawCopies(sql, p);
    NumberedCopies(sql[..p], Raw(sql[p..]), prefix, i);
    RawAtMark(sql[p..]);
    if StartsEscape(sql[p..]) {
      assert sql[p..][2..] == sql[p + 2..];
      assert ([Mark] + Raw(sql[p + 2..]))[1..] == Raw(sql[p + 2..]);
    } else {
      assert sql[p..][1..] == sql[p + 1..];
      assert ([Unbound] + Raw(sql[p + 1..]))[1..] == Raw(sql[p + 1..]);
    }
  }

  lemma {:induction false} NumberedRest(sql: string, prefix: string, i: nat)
    requires '?' !in sql
    ensures Numbered(Raw(sql), prefix, i) == sql
  {
    RawCopies(sql[..|sql|], |sql|);
    assert sql[..|sql|] == sql && sql[|sql|..] == "";
    NumberedCopies<Arg>(sql, Raw(""), prefix, i);
    FillRest<Arg>("", [], []);
    assert Raw("") == [];
    assert sql + "" == sql;
  }

  lemma {:induction false} Chain(a: string, b: string, c: string, d: string)
    ensures a + (b + (c + d)) == a + b + c + d
  {}

  method ReplacePositionalPlaceholders(sql0: string, prefix: string) returns (out: string)
    ensures out == Numbered(Raw(sql0), prefix, 0)
  {
    var sql, buf, i := sql0, "", 0;
    while true
      invariant 0 <= i && buf + Numbered(Raw(sql), prefix, i) == Numbered(Raw(sql0), prefix, 0)
      decreases |sql|
    {
      var p := Index(sql);
      if p == -1 {
        break;
      }
      NumberedUpToMark(sql, p, prefix, i);
      if |sql[p..]| > 1 && sql[p..][1] == '?' {
        Chain(buf, sql[..p], "?", Numbered(Raw(sql[p + 2..]), prefix, i));
        buf := buf + sql[..p];
        buf := buf + "?";
        sql := sql[p + 2..];
      } else {
        Chain(buf, sql[..p], prefix + Numeral(i + 1), Numbered(Raw(sql[p + 1..]), prefix, i + 1));
        i := i + 1;
        buf := buf + sql[..p];
        buf := buf + (prefix + Numeral(i));
        sql := sql[p + 1..];
      }
    }
    NumberedRest(sql, prefix, i);
    return buf + sql;
  }

  datatype PlaceholderFormat = Question | Dollar | Colon | AtP

  function Prefix(f: PlaceholderFormat): string {
    match f
    case Question => "?"
    case Dollar => "$"
    case Colon => ":"
    case AtP => "@p"
  }

  method ReplacePlaceholders(f: PlaceholderFormat, sql: string) returns (out: string)
    ensures out == match f
      case Question => sql
      case Dollar => Numbered(Raw(sql), "$", 0)
      case Colon => Numbered(Raw(sql), ":", 0)
      case AtP => Numbered(Raw(sql), "@p", 0)
  {
    if f.Question? {
      return sql;
    }
    out := ReplacePositionalPlaceholders(sql, Prefix(f));
  }

  // ---- the reader

  function DigitRun(s: string): (n: nat)
    ensures n <= |s| && forall i :: 0 <= i < n ==> IsDigitChar(s[i])
  {
    if s == "" || !IsDigitChar(s[0]) then 0 else 1 + DigitRun(s[1..])
  }

  /** The statement with the placeholder numbered n taken for the n-th argument; a number is read as far as it goes. */
  function BindNumbered<A>(sql: string, prefix: string, args: seq<A>): Option<Pieces<A>> {
    if sql == "" then Some([])
    else if StartsPlaceholder(sql, prefix) then
      var run := DigitRun(sql[|prefix|..]);
      match Parse(FromNumeral(sql[|prefix|..][..run]))
      case None => None
      case Some(n) =>
        if 1 <= n <= |args|
        then Prepend([Hole(args[n - 1])], BindNumbered(sql[|prefix| + run..], prefix, args))
        else None
    else Prepend([Lit(sql[0])], BindNumbered(sql[1..], prefix, args))
  }

  /** The pieces with every escaped question mark as the question mark it stands for. */
  function Unescaped<A>(p: Pieces<A>): Pieces<A> {
    if p == [] then [] else [if p[0].Mark? then Lit('?') else p[0]] + Unescaped(p[1..])
  }

  /** The prefix and a digit: what the reader takes for a placeholder. */
  predicate StartsPlaceholder(sql: string, prefix: string) {
    prefix != "" && Starts(sql, prefix)
  }

  predicate Starts(sql: string, prefix: string) {
    prefix <= sql && DigitRun(sql[|prefix|..]) > 0
  }

  predicate StartsWithDigit<A>(p: Pieces<A>) {
    p != [] && p[0].Lit? && IsDigitChar(p[0].c)
  }

  /** In the numbered text no literal starts a placeholder, and no digit runs into the number of a hole. */
  predicate Clear<A>(p: Pieces<A>, prefix: string, k: nat) {
    p != [] ==>
      match p[0]
      case Lit(c) => !StartsPlaceholder(Numbered(p, prefix, k), prefix) && Clear(p[1..], prefix, k)
      case Hole(_) => !StartsWithDigit(p[1..]) && Clear(p[1..], prefix, k + 1)
      case Mark => Clear(p[1..], prefix, k)
      case Extra(_) => Clear(p[1..], prefix, k)
      case Unbound => Clear(p[1..], prefix, k + 1)
  }

  lemma {:induction false} DigitRunStops(digits: string, rest: string)
    requires forall i :: 0 <= i < |digits| ==> IsDigitChar(digits[i])
    requires rest == "" || !IsDigitChar(rest[0])
    ensures DigitRun(digits + rest) == |digits|
  {
    if digits == "" {
      assert digits + rest == rest;
    } else {
      DigitRunStops(digits[1..], rest);
      assert (digits + rest)[1..] == digits[1..] + rest;
    }
  }

  lemma {:induction false} NumeralReads(n: nat)
    ensures Parse(FromNumeral(Numeral(n))) == Some(n)
  {
    assert FromNumeral(Numeral(n)) == Digits(n);
    Decimal.RoundTrip(n);
  }

  lemma {:induction false} Slices(prefix: string, digits: string, rest: string)
    ensures var sql := prefix + digits + rest;
      prefix <= sql && sql[|prefix|..] == digits + rest && (digits + rest)[..|digits|] == digits
      && sql[|prefix| + |digits|..] == rest
  {
    assert prefix + digits + rest == prefix + (digits + rest);
  }

  /** A placeholder is read as some hole or not at all, and what comes next is no digit. */
  lemma {:induction false} ReadsSomeHole<A>(sql: string, prefix: string, args: seq<A>)
    requires StartsPlaceholder(sql, prefix)
    ensures match BindNumbered(sql, prefix, args) case None => true
      case Some(q) => q != [] && q[0].Hole? && !StartsWithDigit(q[1..])
  {
    var run := DigitRun(sql[|prefix|..]);
    var rest := sql[|prefix| + run..];
    DigitRunIsMaximal(sql[|prefix|..]);
    assert sql[|prefix|..][run..] == rest;
    var n := Parse(FromNumeral(sql[|prefix|..][..run]));
    if n.Some? && 1 <= n.value <= |args| && BindNumbered(rest, prefix, args).Some? {
      var q := BindNumbered(rest, prefix, args).value;
      StartsAsRead(rest, prefix, args);
      assert ([Hole(args[n.value - 1])] + q)[1..] == q;
    }
  }

  lemma {:induction false} DigitRunIsMaximal(s: string)
    ensures DigitRun(s) < |s| ==> !IsDigitChar(s[DigitRun(s)])
  {
    if s != "" && IsDigitChar(s[0]) {
      DigitRunIsMaximal(s[1..]);
    }
  }

  /** Only a text that starts with a digit is read as one. */
  lemma {:induction false} StartsAsRead<A>(sql: string, prefix: string, args: seq<A>)
    requires sql == "" || !IsDigitChar(sql[0])
    ensures BindNumbered(sql, prefix, args).Some? ==> !StartsWithDigit(BindNumbered(sql, prefix, args).value)
  {}

  lemma {:induction false} ReadsPlaceholder<A>(prefix: string, n: nat, rest: string, args: seq<A>)
    requires prefix != "" && 1 <= n <= |args|
    requires rest == "" || !IsDigitChar(rest[0])
    ensures BindNumbered(prefix + Numeral(n) + rest, prefix, args)
         == Prepend([Hole(args[n - 1])], BindNumbered(rest, prefix, args))
  {
    var digits := Numeral(n);
    Slices(prefix, digits, rest);
    DigitRunStops(digits, rest);
    NumeralReads(n);
  }

  lemma {:induction false} ReadsLiteral<A>(c: char, rest: string, prefix: string, args: seq<A>)
    requires !StartsPlaceholder([c] + rest, prefix)
    ensures BindNumbered([c] + rest, prefix, args) == Prepend([Lit(c)], BindNumbered(rest, prefix, args))
  {
    var sql := [c] + rest;
    assert sql[0] == c && sql[1..] == rest;
  }

  lemma {:induction false} SoundTail<A>(p: Pieces<A>)
    requires p != [] && Sound(p)
    ensures Sound(p[1..]) && !p[0].Extra? && !p[0].Unbound?
    ensures p[0].Hole? && p[1..] != [] ==> p[1..][0].Lit?
  {
    var rest := p[1..];
    assert p[0] in p;
    assert forall x <- rest :: x in p;
    forall i | 0 < i < |rest| && rest[i - 1].Hole? ensures rest[i].Lit? {
      assert p[i].Hole? && p[i + 1] == rest[i];
    }
    if p[0].Hole? && rest != [] {
      assert p[1].Lit?;
    }
  }

  lemma {:induction false} NumbersStart(prefix: string, n: nat, rest: string)
    requires prefix != ""
    ensures StartsPlaceholder(prefix + Numeral(n) + rest, prefix)
  {
    Slices(prefix, Numeral(n), rest);
    assert (Numeral(n) + rest)[0] == Numeral(n)[0];
  }

  lemma {:induction false} PrependIs<A>(x: Piece<A>, got: Option<Pieces<A>>, want: Pieces<A>)
    ensures Prepend([x], got) == Some([x] + want) <==> got == Some(want)
  {
    if got.Some? {
      assert ([x] + got.value)[1..] == got.value && ([x] + want)[1..] == want;
    }
  }

  lemma {:induction false} UnescapedStart<A>(p: Pieces<A>)
    ensures |Unescaped(p)| == |p| && StartsWithDigit(Unescaped(p)) == StartsWithDigit(p)
  {
    if p != [] {
      UnescapedStart(p[1..]);
    }
  }

  /**
   Numbering preserves which argument lands in which hole: read with all arguments at hand, the numbered statement is
   the statement that was meant, escapes undone, if and only if the numbered text is clear.
   */
  lemma {:induction false} NumberedReadsBack<A>(p: Pieces<A>, prefix: string, args: seq<A>, k: nat)
    requires Sound(p) && prefix != "" && prefix[0] != '?'
    requires k <= |args| && args[k..] == Args(p)
    ensures BindNumbered(Numbered(p, prefix, k), prefix, args) == Some(Unescaped(p)) <==> Clear(p, prefix, k)
  {
    if p != [] {
      var x, rest := p[0], p[1..];
      SoundTail(p);
      match x
      case Lit(c) =>
        NumberedReadsBack(rest, prefix, args, k);
        LiteralReadsBack(c, Numbered(rest, prefix, k), Unescaped(rest), prefix, args);
      case Mark =>
        NumberedReadsBack(rest, prefix, args, k);
        LiteralReadsBack('?', Numbered(rest, prefix, k), Unescaped(rest), prefix, args);
      case Hole(a) =>
        assert args[k] == args[k..][0] == a;
        assert args[k + 1..] == args[k..][1..] == Args(rest);
        NumberedReadsBack(rest, prefix, args, k + 1);
        HoleReadsBack(a, rest, prefix, args, k);
    }
  }

  lemma {:induction false} LiteralReadsBack<A>(c: char, text: string, want: Pieces<A>, prefix: string, args: seq<A>)
    ensures BindNumbered([c] + text, prefix, args) == Some([Lit(c)] + want)
       <==> !StartsPlaceholder([c] + text, prefix) && BindNumbered(text, prefix, args) == Some(want)
  {
    if StartsPlaceholder([c] + text, prefix) {
      ReadsSomeHole([c] + text, prefix, args);
      assert ([Lit(c)] + want)[0] == Lit(c);
    } else {
      ReadsLiteral(c, text, prefix, args);
      PrependIs(Lit(c), BindNumbered(text, prefix, args), want);
    }
  }

  lemma {:induction false} HoleReadsBack<A>(a: A, rest: Pieces<A>, prefix: string, args: seq<A>, k: nat)
    requires prefix != "" && k < |args| && args[k] == a && (rest != [] ==> rest[0].Lit?)
    ensures BindNumbered(prefix + Numeral(k + 1) + Numbered(rest, prefix, k + 1), prefix, args)
              == Some([Hole(a)] + Unescaped(rest))
       <==> !StartsWithDigit(rest)
              && BindNumbered(Numbered(rest, prefix, k + 1), prefix, args) == Some(Unescaped(rest))
  {
    hide BindNumbered, Numbered, Unescaped, Numeral, Prepend;
    var text := Numbered(rest, prefix, k + 1);
    if StartsWithDigit(rest) {
      DigitRunsIntoNumber(a, rest, text, prefix, args, k + 1);
    } else {
      LiteralComesFirst(rest, prefix, k + 1);
      ReadsPlaceholder(prefix, k + 1, text, args);
      PrependIs(Hole(a), BindNumbered(text, prefix, args), Unescaped(rest));
    }
  }

  lemma {:induction false} LiteralComesFirst<A>(p: Pieces<A>, prefix: string, k: nat)
    requires p != [] ==> p[0].Lit?
    ensures var text := Numbered(p, prefix, k); if p == [] then text == "" else text != "" && text[0] == p[0].c
  {}

  lemma {:induction false} DigitRunsIntoNumber<A>(
    a: A, rest: Pieces<A>, text: string, prefix: string, args: seq<A>, n: nat)
    requires prefix != "" && StartsWithDigit(rest)
    ensures BindNumbered(prefix + Numeral(n) + text, prefix, args) != Some([Hole(a)] + Unescaped(rest))
  {
    hide BindNumbered, Unescaped, Numeral;
    UnescapedStart(rest);
    NumbersStart(prefix, n, text);
    ReadsSomeHole(prefix + Numeral(n) + text, prefix, args);
    assert ([Hole(a)] + Unescaped(rest))[1..] == Unescaped(rest);
  }

  // ---- the condition in the statement itself

  /** The prefix and a digit written out in the statement. */
  predicate Spelled<A>(p: Pieces<A>, prefix: string) {
    if prefix == "" then StartsWithDigit(p)
    else p != [] && p[0] == Lit(prefix[0]) && Spelled(p[1..], prefix[1..])
  }

  predicate NowhereSpelled<A>(p: Pieces<A>, prefix: string) {
    p == [] || (!Spelled(p, prefix) && NowhereSpelled(p[1..], prefix))
  }

  predicate NoDigitAfterHole<A>(p: Pieces<A>) {
    p == [] || ((p[0].Hole? ==> !StartsWithDigit(p[1..])) && NoDigitAfterHole(p[1..]))
  }

  /** For each of the formats a literal starts a placeholder only where the statement spells one out. */
  lemma {:induction false} ClearExactlyWhen<A>(p: Pieces<A>, f: PlaceholderFormat, k: nat)
    requires Sound(p) && !f.Question?
    ensures Clear(p, Prefix(f), k) <==> NowhereSpelled(p, Prefix(f)) && NoDigitAfterHole(p)
  {
    if p != [] {
      var prefix := Prefix(f);
      SoundTail(p);
      ClearExactlyWhen(p[1..], f, if p[0].Hole? then k + 1 else k);
      if p[0].Lit? {
        SpelledExactlyWhen(p[1..], prefix[1..], prefix, k);
        StartsOneByOne(p[0].c, Numbered(p[1..], prefix, k), prefix);
      }
    }
  }

  lemma {:induction false} StartsOneByOne(c: char, text: string, prefix: string)
    requires prefix != ""
    ensures Starts([c] + text, prefix) <==> c == prefix[0] && Starts(text, prefix[1..])
    ensures StartsPlaceholder([c] + text, prefix) <==> Starts([c] + text, prefix)
  {
    var sql := [c] + text;
    assert sql[0] == c && sql[1..] == text;
    assert prefix == [prefix[0]] + prefix[1..];
    if c == prefix[0] && prefix[1..] <= text {
      assert text == prefix[1..] + text[|prefix| - 1..];
      assert sql == prefix + text[|prefix| - 1..];
    }
    if prefix <= sql {
      assert sql == prefix + sql[|prefix|..];
      assert text == prefix[1..] + sql[|prefix|..];
    }
  }

  lemma {:induction false} SpelledExactlyWhen<A>(p: Pieces<A>, left: string, prefix: string, k: nat)
    requires Sound(p) && prefix != "" && prefix[0] !in left && '?' !in left && !IsDigitChar(prefix[0])
    ensures Starts(Numbered(p, prefix, k), left) <==> Spelled(p, left)
  {
    var text := Numbered(p, prefix, k);
    if left == "" {
      assert text[|left|..] == text;
    }
    if p != [] {
      SoundTail(p);
      if p[0].Lit? && left != "" {
        StartsOneByOne(p[0].c, Numbered(p[1..], prefix, k), left);
        SpelledExactlyWhen(p[1..], left[1..], prefix, k);
      }
    }
  }

  // ---- a database without escapes

  /** Every question mark taken for a hole. */
  function BindPlain<A>(sql: string, args: seq<A>): Option<Pieces<A>> {
    if sql == "" then if args == [] then Some([]) else None
    else if sql[0] == '?' then
      if args == [] then None else Prepend([Hole(args[0])], BindPlain(sql[1..], args[1..]))
    else Prepend([Lit(sql[0])], BindPlain(sql[1..], args))
  }

  ghost predicate NoMarks<A>(p: Pieces<A>) {
    forall x <- p :: !x.Mark?
  }

  /** A statement with an escaped question mark left in it asks such a database for arguments it does not have. */
  lemma {:induction false} PlainReadsBack<A>(p: Pieces<A>)
    requires Sound(p)
    ensures BindPlain(Text(p), Args(p)) == Some(Unescaped(p)) <==> NoMarks(p)
  {
    if p != [] {
      var x, rest := p[0], p[1..];
      SoundTail(p);
      PlainReadsBack(rest);
      NoMarksTail(p);
      assert Text(p) == TextOf(x) + Text(rest);
      assert x in p;
      match x
      case Lit(c) =>
        assert Text(p)[1..] == Text(rest);
        PrependIs(x, BindPlain(Text(rest), Args(rest)), Unescaped(rest));
      case Hole(a) =>
        assert Text(p)[1..] == Text(rest);
        assert Args(p)[1..] == Args(rest);
        PrependIs(x, BindPlain(Text(rest), Args(rest)), Unescaped(rest));
      case Mark =>
        if Args(p) != [] && BindPlain(Text(p)[1..], Args(p)[1..]).Some? {
          var q := BindPlain(Text(p)[1..], Args(p)[1..]).value;
          assert ([Hole(Args(p)[0])] + q)[0] == Hole(Args(p)[0]);
        }
        assert ([Lit('?')] + Unescaped(rest))[0] == Lit('?');
    }
  }

  lemma {:induction false} NoMarksTail<A>(p: Pieces<A>)
    requires p != []
    ensures NoMarks(p) <==> !p[0].Mark? && NoMarks(p[1..])
  {
    assert p[0] in p;
    assert forall x <- p[1..] :: x in p;
    assert forall x <- p :: x == p[0] || x in p[1..];
  }

  /** Scanning the written text again finds the same holes in the same places. */
  lemma {:induction false} NumberedText(p: SqlParts, prefix: string, i: nat)
    requires Sound(p)
    ensures Numbered(Raw(Text(p)), prefix, i) == Numbered(p, prefix, i)
  {
    if p == [] {
      FillRest<Arg>("", [], []);
    } else {
      var x, rest := p[0], p[1..];
      assert x in p;
      assert Sound(rest) by {
        assert forall y <- rest :: y in p;
        forall j | 0 < j < |rest| && rest[j - 1].Hole? ensures rest[j].Lit? {
          assert p[j].Hole?;
        }
      }
      var text := Text(p);
      match x
      case Lit(c) =>
        NumberedText(rest, prefix, i);
        assert text[..1] == [c] && text[1..] == Text(rest);
        RawCopies(text, 1);
        NumberedCopies([c], Raw(Text(rest)), prefix, i);
      case Mark =>
        NumberedText(rest, prefix, i);
        assert text[2..] == Text(rest);
        RawAtMark(text);
        assert ([Mark] + Raw(Text(rest)))[1..] == Raw(Text(rest));
      case Hole(_) =>
        NumberedText(rest, prefix, i + 1);
        if rest != [] {
          assert p[0].Hole? && p[1] == rest[0];
          assert rest[0] in p;
          assert Text(rest)[0] == rest[0].c;
        }
        assert text[1..] == Text(rest);
        RawAtMark(text);
        assert ([Unbound] + Raw(Text(rest)))[1..] == Raw(Text(rest));
      case _ => assert false;
    }
  }

  /** A digit right behind a hole runs into its number: `?5` becomes `$15`, which asks for a fifteenth argument. */
  lemma {:induction false} DigitAfterHoleClashes(a: Arg)
    ensures var p: SqlParts := [Hole(a), Lit('5')];
      Sound(p) && Numbered(p, "$", 0) == "$15" && BindNumbered("$15", "$", [a]) == None
  {
    hide Sound, BindNumbered;
    OneAndFive(a);
    FifteenIsRead();
    var digits := "$15"[1..];
    assert digits == "15" && "15"[..2] == "15" && "$" <= "$15";
    AsksForAnother("$15", "$", [a], 15);
  }

  lemma {:induction false} OneAndFive(a: Arg)
    ensures var p: SqlParts := [Hole(a), Lit('5')]; Sound(p) && Numbered(p, "$", 0) == "$15"
  {
    var p: SqlParts := [Hole(a), Lit('5')];
    assert p[1..] == [Lit('5')] && p[1..][1..] == [];
    assert Digits(1) == [0x31];
    assert Numeral(1) == "1";
    assert Numbered(p[1..], "$", 1) == "5" + Numbered(p[1..][1..], "$", 1);
    assert Numbered(p, "$", 0) == "$" + "1" + "5";
  }

  lemma {:induction false} FifteenIsRead()
    ensures DigitRun("15") == 2 && Parse(FromNumeral("15")) == Some(15)
  {
    assert "15"[1..] == "5" && "5"[1..] == "";
    assert DigitRun("5") == 1 + DigitRun("");
    assert DigitRun("15") == 1 + DigitRun("5");
    assert Digits(15) == Digits(1) + [0x35] == [0x31, 0x35];
    assert FromNumeral("15") == [0x31, 0x35];
    Decimal.RoundTrip(15);
  }

  /** A number beyond the arguments is not read. */
  lemma {:induction false} AsksForAnother<A>(sql: string, prefix: string, args: seq<A>, n: nat)
    requires StartsPlaceholder(sql, prefix) && n > |args|
    requires Parse(FromNumeral(sql[|prefix|..][..DigitRun(sql[|prefix|..])])) == Some(n)
    ensures BindNumbered(sql, prefix, args) == None
  {
  }
}
