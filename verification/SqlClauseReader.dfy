/** SQL statements, taken apart at their keywords. */
module SqlClauseReader {
  // A reader that finds the clauses of a statement: a clause starts at a keyword outside of parentheses and goes on to
  // the next. It knows nothing of how a statement was built.

  import opened Bytes
  import opened SqlPieces
  import opened SqlExpressions
  import opened SqlReader

  /** A clause: its keyword, and what stands behind it. */
  datatype Section = Section(word: string, body: SqlParts)

  datatype Cut = Cut(head: SqlParts, sections: seq<Section>)

  const CLAUSE_WORDS: set<string> :=
    {"SELECT", "UPDATE", "DELETE", "SET", "FROM", "WHERE", "GROUP", "HAVING", "ORDER", "LIMIT", "OFFSET"}

  predicate IsBlank(p: SqlParts) {
    p != [] && p[0] == Lit(' ')
  }

  function WithoutBlank(p: SqlParts): SqlParts {
    if IsBlank(p) then p[1..] else p
  }

  function Deeper(x: Piece<Arg>): int {
    if x == Lit('(') then 1 else if x == Lit(')') then -1 else 0
  }

  /** The text before the first clause, and the clauses. The blanks before a keyword and one behind it belong to it. */
  function Sections(p: SqlParts, depth: int): (c: Cut)
    decreases |p|
  {
    if p == [] then Cut([], [])
    else if Belongs(InWord, p[0]) then
      var n := Run(InWord, p);
      var rest := Sections(p[n..], depth);
      var word := Upper(Text(p[..n]));
      if depth == 0 && word in CLAUSE_WORDS
      then Cut([], [Section(word, WithoutBlank(rest.head))] + rest.sections)
      else Cut(p[..n] + rest.head, rest.sections)
    else
      var rest := Sections(p[1..], depth + Deeper(p[0]));
      if p[0] == Lit(' ') && rest.head == [] && rest.sections != [] then rest
      else Cut([p[0]] + rest.head, rest.sections)
  }

  /** The clauses of a statement, which starts with one. */
  function Clauses(p: SqlParts): Option<seq<Section>> {
    var c := Sections(p, 0);
    if c.head == [] then Some(c.sections) else None
  }

  // ---- text in which no clause starts

  /** No keyword of a clause outside of parentheses. */
  predicate Quiet(p: SqlParts, depth: int)
    decreases |p|
  {
    p == [] ||
    if Belongs(InWord, p[0]) then
      var n := Run(InWord, p);
      !(depth == 0 && Upper(Text(p[..n])) in CLAUSE_WORDS) && Quiet(p[n..], depth)
    else Quiet(p[1..], depth + Deeper(p[0]))
  }

  function DepthAfter(p: SqlParts, depth: int): int
    decreases |p|
  {
    if p == [] then depth
    else if Belongs(InWord, p[0]) then DepthAfter(p[Run(InWord, p)..], depth)
    else DepthAfter(p[1..], depth + Deeper(p[0]))
  }

  /** Parentheses match and no clause starts. */
  predicate Closed(p: SqlParts) {
    Quiet(p, 0) && DepthAfter(p, 0) == 0
  }

  predicate WordApart(p: SqlParts, q: SqlParts) {
    p == [] || q == [] || !(Belongs(InWord, p[|p| - 1]) && Belongs(InWord, q[0]))
  }

  lemma {:induction false} WordRunAppend(p: SqlParts, q: SqlParts)
    requires p != [] && WordApart(p, q)
    ensures Run(InWord, p + q) == Run(InWord, p)
  {
    assert (p + q)[0] == p[0] && (p + q)[1..] == p[1..] + q;
    if Belongs(InWord, p[0]) {
      if |p| == 1 {
        assert p[1..] + q == q;
      } else {
        assert p[1..][|p[1..]| - 1] == p[|p| - 1];
        WordRunAppend(p[1..], q);
      }
    }
  }

  lemma {:induction false} WordSplits(p: SqlParts, q: SqlParts)
    requires p != [] && WordApart(p, q) && Belongs(InWord, p[0])
    ensures var n := Run(InWord, p);
      && 0 < n <= |p| && Run(InWord, p + q) == n
      && (p + q)[..n] == p[..n] && (p + q)[n..] == p[n..] + q && WordApart(p[n..], q)
  {
    WordRunAppend(p, q);
  }

  lemma {:induction false} Regroup(a: SqlParts, b: SqlParts, c: SqlParts)
    ensures a + b + c == a + (b + c)
  {}

  /** Quiet text is kept as it is, unless it ends in a blank in front of a keyword. */
  lemma {:induction false} QuietThen(p: SqlParts, q: SqlParts, depth: int)
    requires Quiet(p, depth) && WordApart(p, q)
    requires var c := Sections(q, DepthAfter(p, depth)); c.head != [] || c.sections == [] || p == [] || !EndsBlank(p)
    ensures var c := Sections(q, DepthAfter(p, depth)); Sections(p + q, depth) == Cut(p + c.head, c.sections)
    decreases |p|
  {
    if p == [] {
      assert p + q == q;
      assert p + Sections(q, depth).head == Sections(q, depth).head;
    } else if Belongs(InWord, p[0]) {
      QuietWord(p, q, depth);
    } else {
      QuietOther(p, q, depth);
    }
  }

  predicate EndsBlank(p: SqlParts) {
    p != [] && p[|p| - 1] == Lit(' ')
  }

  lemma {:induction false} QuietWord(p: SqlParts, q: SqlParts, depth: int)
    requires p != [] && Belongs(InWord, p[0]) && Quiet(p, depth) && WordApart(p, q)
    requires var c := Sections(q, DepthAfter(p, depth)); c.head != [] || c.sections == [] || !EndsBlank(p)
    ensures var c := Sections(q, DepthAfter(p, depth)); Sections(p + q, depth) == Cut(p + c.head, c.sections)
    decreases |p|, 0
  {
    hide Upper, Text;
    var n := Run(InWord, p);
    WordSplits(p, q);
    assert p[n..] != [] ==> p[n..][|p[n..]| - 1] == p[|p| - 1];
    QuietThen(p[n..], q, depth);
    var c := Sections(q, DepthAfter(p, depth));
    assert (p + q)[0] == p[0];
    assert p[..n] + p[n..] == p;
    Regroup(p[..n], p[n..], c.head);
  }

  lemma {:induction false} QuietOther(p: SqlParts, q: SqlParts, depth: int)
    requires p != [] && !Belongs(InWord, p[0]) && Quiet(p, depth) && WordApart(p, q)
    requires var c := Sections(q, DepthAfter(p, depth)); c.head != [] || c.sections == [] || !EndsBlank(p)
    ensures var c := Sections(q, DepthAfter(p, depth)); Sections(p + q, depth) == Cut(p + c.head, c.sections)
    decreases |p|, 0
  {
    hide Upper, Text;
    var d := depth + Deeper(p[0]);
    assert (p + q)[0] == p[0] && (p + q)[1..] == p[1..] + q;
    assert p[1..] != [] ==> p[1..][|p[1..]| - 1] == p[|p| - 1];
    QuietThen(p[1..], q, d);
    var c := Sections(q, DepthAfter(p, depth));
    assert [p[0]] + p[1..] == p;
    Regroup([p[0]], p[1..], c.head);
  }

  // ---- clauses written down and found again

  predicate IsClauseWord(word: string) {
    && word != "" && (forall i :: 0 <= i < |word| ==> Member(InWord, word[i]))
    && Upper(word) == word && word in CLAUSE_WORDS
  }

  /** A clause whose text can stand in front of another: parentheses match, no clause starts, no blank at the end. */
  predicate Tidy(s: Section) {
    IsClauseWord(s.word) && Closed(s.body) && !EndsBlank(s.body)
  }

  predicate AllTidy(ss: seq<Section>) {
    ss == [] || (Tidy(ss[0]) && AllTidy(ss[1..]))
  }

  function ClauseText(s: Section): SqlParts {
    Lits(s.word) + [Lit(' ')] + s.body
  }

  /** Clauses behind a statement, each with a blank in front. */
  function Behind(ss: seq<Section>): SqlParts {
    if ss == [] then [] else [Lit(' ')] + ClauseText(ss[0]) + Behind(ss[1..])
  }

  lemma {:induction false} BehindAppend(a: seq<Section>, b: seq<Section>)
    ensures Behind(a + b) == Behind(a) + Behind(b)
  {
    if a == [] {
      assert a + b == b;
    } else {
      assert (a + b)[0] == a[0] && (a + b)[1..] == a[1..] + b;
      BehindAppend(a[1..], b);
      Regroup([Lit(' ')] + ClauseText(a[0]), Behind(a[1..]), Behind(b));
    }
  }

  lemma {:induction false} WordOfLits(word: string)
    requires forall i :: 0 <= i < |word| ==> Member(InWord, word[i])
    ensures Run(InWord, Lits(word)) == |word| && Text(Lits<Arg>(word)) == word
    ensures word != "" ==> Belongs(InWord, Lits<Arg>(word)[0])
  {
    if word != "" {
      WordOfLits(word[1..]);
      assert Lits<Arg>(word)[1..] == Lits(word[1..]);
      assert word == [word[0]] + word[1..];
    }
  }

  /** A keyword starts a clause with whatever text follows it up to the next. */
  lemma {:induction false} KeywordReads(word: string, q: SqlParts)
    requires IsClauseWord(word) && (q == [] || !Belongs(InWord, q[0]))
    ensures var c := Sections(q, 0);
      Sections(Lits(word) + q, 0) == Cut([], [Section(word, WithoutBlank(c.head))] + c.sections)
  {
    hide Upper, CLAUSE_WORDS, Text;
    var p := Lits<Arg>(word);
    WordOfLits(word);
    WordSplits(p, q);
    assert p[..|word|] == p && p[|word|..] == [] && [] + q == q;
    assert (p + q)[0] == p[0];
  }

  lemma {:induction false} BlankThen(q: SqlParts)
    ensures var c := Sections(q, 0);
      Sections([Lit(' ')] + q, 0) ==
      if c.head == [] && c.sections != [] then c else Cut([Lit(' ')] + c.head, c.sections)
  {
    assert ([Lit(' ')] + q)[0] == Lit(' ') && ([Lit(' ')] + q)[1..] == q;
  }

  /** What is read from a text that starts with its first clause, or is empty. */
  ghost predicate ReadsAsSections(q: SqlParts, ss: seq<Section>) {
    Sections(q, 0) == Cut([], ss) && (q == [] <==> ss == []) && (q != [] ==> q[0] == Lit(' '))
  }

  lemma {:induction false} BodyReads(body: SqlParts, q: SqlParts, ss: seq<Section>)
    requires Closed(body) && !EndsBlank(body) && ReadsAsSections(q, ss)
    ensures Sections(body + q, 0) == Cut(body, ss)
  {
    hide Sections, Quiet, DepthAfter;
    NotInWord(q);
    QuietThen(body, q, 0);
    assert body + [] == body;
  }

  lemma {:induction false} NotInWord(q: SqlParts)
    ensures q != [] && q[0] == Lit(' ') ==> !Belongs(InWord, q[0])
  {}

  lemma {:induction false} ClauseReads(s: Section, q: SqlParts, ss: seq<Section>)
    requires Tidy(s) && ReadsAsSections(q, ss)
    ensures Sections(ClauseText(s) + q, 0) == Cut([], [s] + ss)
  {
    hide Sections, IsClauseWord, Closed;
    BodyReads(s.body, q, ss);
    BlankThen(s.body + q);
    var behind := [Lit(' ')] + (s.body + q);
    NotInWord(behind);
    KeywordReads(s.word, behind);
    assert ClauseText(s) + q == Lits(s.word) + behind;
    BlankGone(s.body);
  }

  lemma {:induction false} BlankGone(body: SqlParts)
    ensures WithoutBlank([Lit(' ')] + body) == body && WithoutBlank([]) == []
  {
    assert ([Lit(' ')] + body)[1..] == body;
  }

  /** A keyword with nothing behind it but the next clause. */
  lemma {:induction false} BareClauseReads(word: string, q: SqlParts, ss: seq<Section>)
    requires IsClauseWord(word) && ReadsAsSections(q, ss)
    ensures Sections(Lits(word) + q, 0) == Cut([], [Section(word, [])] + ss)
  {
    hide Sections, IsClauseWord;
    NotInWord(q);
    KeywordReads(word, q);
    BlankGone([]);
  }

  lemma {:induction false} BehindReads(ss: seq<Section>)
    requires AllTidy(ss)
    ensures ReadsAsSections(Behind(ss), ss)
  {
    hide Tidy;
    if ss != [] {
      BehindReads(ss[1..]);
      var q := Behind(ss[1..]);
      ClauseReads(ss[0], q, ss[1..]);
      BlankThen(ClauseText(ss[0]) + q);
      Regroup([Lit(' ')], ClauseText(ss[0]), q);
      assert [ss[0]] + ss[1..] == ss;
    }
  }

  /** Any tidy clauses, one behind the other, are found again, each with its own text and arguments. */
  lemma {:induction false} ClausesFoundAgain(first: Section, more: seq<Section>)
    requires Tidy(first) && AllTidy(more)
    ensures Clauses(ClauseText(first) + Behind(more)) == Some([first] + more)
    ensures first.body == [] ==> Clauses(Lits(first.word) + Behind(more)) == Some([first] + more)
  {
    hide Tidy, Sections;
    BehindReads(more);
    ClauseReads(first, Behind(more), more);
    if first.body == [] {
      TidyWord(first);
      BareClauseReads(first.word, Behind(more), more);
    }
  }

  lemma {:induction false} TidyWord(s: Section)
    requires Tidy(s)
    ensures IsClauseWord(s.word)
  {}

  lemma {:induction false} AllTidyAppend(a: seq<Section>, b: seq<Section>)
    ensures AllTidy(a + b) <==> AllTidy(a) && AllTidy(b)
  {
    hide Tidy;
    if a == [] {
      assert a + b == b;
    } else {
      assert (a + b)[0] == a[0] && (a + b)[1..] == a[1..] + b;
      AllTidyAppend(a[1..], b);
    }
  }

  lemma {:induction false} ClauseWords()
    ensures IsClauseWord("SELECT") && IsClauseWord("UPDATE") && IsClauseWord("DELETE") && IsClauseWord("SET")
    ensures IsClauseWord("FROM") && IsClauseWord("WHERE") && IsClauseWord("GROUP") && IsClauseWord("HAVING")
    ensures IsClauseWord("ORDER") && IsClauseWord("LIMIT") && IsClauseWord("OFFSET")
  {
    UpperStays("SELECT");
    UpperStays("UPDATE");
    UpperStays("DELETE");
    UpperStays("SET");
    UpperStays("FROM");
    UpperStays("WHERE");
    UpperStays("GROUP");
    UpperStays("HAVING");
    UpperStays("ORDER");
    UpperStays("LIMIT");
    UpperStays("OFFSET");
  }

  lemma {:induction false} UpperStays(s: string)
    requires forall i :: 0 <= i < |s| ==> 'A' <= s[i] <= 'Z'
    ensures Upper(s) == s
  {}
}
