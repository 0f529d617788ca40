/** pkg/cli/help.go: greedy word wrap. */
module WrapLine {
  // A line is a byte string, as len sees it; words are parted by ASCII white space.

  import opened Bytes
  import opened AsciiFields

  /** Words with single spaces between them. */
  function Spaced(words: seq<bytes>): bytes {
    if words == [] then []
    else if |words| == 1 then words[0]
    else words[0] + [SP] + Spaced(words[1..])
  }

  function Extent(width: nat, words: seq<bytes>): nat
    decreases |words|
  {
    if words == [] then width else Extent(width + 1 + |words[0]|, words[1..])
  }

  /** The width of a line with these words. */
  function Width(words: seq<bytes>): nat
    requires words != []
  {
    Extent(|words[0]|, words[1..])
  }

  /** The words in lines: current is the line being filled. */
  function Groups(current: seq<bytes>, words: seq<bytes>, available: int): (lines: seq<seq<bytes>>)
    requires current != []
    decreases |words|
  {
    if words == [] then [current]
    else if Width(current) + 1 + |words[0]| <= available then Groups(current + [words[0]], words[1..], available)
    else [current] + Groups([words[0]], words[1..], available)
  }

  function Texts(groups: seq<seq<bytes>>): (lines: seq<bytes>)
    ensures |lines| == |groups|
  {
    seq(|groups|, i requires 0 <= i < |groups| => Spaced(groups[i]))
  }

  // ---- what lines are good

  function WordsOf(groups: seq<seq<bytes>>): seq<bytes> {
    if groups == [] then [] else groups[0] + WordsOf(groups[1..])
  }

  /** A line fits the available width or is a single word. */
  predicate Good(group: seq<bytes>, available: int) {
    group != [] && (|group| == 1 || Width(group) <= available)
  }

  predicate AllGood(groups: seq<seq<bytes>>, available: int) {
    groups == [] || (Good(groups[0], available) && AllGood(groups[1..], available))
  }

  lemma {:induction false} ExtentSnoc(width: nat, words: seq<bytes>, w: bytes)
    ensures Extent(width, words + [w]) == Extent(width, words) + 1 + |w|
    decreases |words|
  {
    if words == [] {
      assert ([] + [w])[1..] == [];
    } else {
      ExtentSnoc(width + 1 + |words[0]|, words[1..], w);
      assert (words + [w])[1..] == words[1..] + [w];
    }
  }

  lemma {:induction false} WidthSnoc(words: seq<bytes>, w: bytes)
    requires words != []
    ensures Width(words + [w]) == Width(words) + 1 + |w|
  {
    ExtentSnoc(|words[0]|, words[1..], w);
    assert (words + [w])[1..] == words[1..] + [w];
  }

  lemma {:induction false} ExtentGrows(width: nat, words: seq<bytes>)
    ensures Extent(width, words) >= width
    decreases |words|
  {
    if words != [] {
      ExtentGrows(width + 1 + |words[0]|, words[1..]);
    }
  }

  lemma {:induction false} SpacedWidth(words: seq<bytes>)
    requires words != []
    ensures |Spaced(words)| == Width(words)
  {
    if |words| > 1 {
      SpacedWidth(words[1..]);
      ExtentShift(|words[0]| + 1, |words[1]|, words[1..][1..]);
    }
  }

  lemma {:induction false} ExtentShift(a: nat, b: nat, words: seq<bytes>)
    ensures Extent(a + b, words) == a + Extent(b, words)
    decreases |words|
  {
    if words != [] {
      ExtentShift(a, b + 1 + |words[0]|, words[1..]);
    }
  }

  /** All words are there, in order, and every line is good. */
  lemma {:induction false} GroupsAreGood(current: seq<bytes>, words: seq<bytes>, available: int)
    requires Good(current, available)
    ensures WordsOf(Groups(current, words, available)) == current + words
    ensures AllGood(Groups(current, words, available), available)
    decreases |words|
  {
    if words == [] {
      assert WordsOf([current]) == current + WordsOf([]);
    } else if Width(current) + 1 + |words[0]| <= available {
      WidthSnoc(current, words[0]);
      GroupsAreGood(current + [words[0]], words[1..], available);
      assert current + [words[0]] + words[1..] == current + words;
    } else {
      GroupsAreGood([words[0]], words[1..], available);
      var more := Groups([words[0]], words[1..], available);
      assert ([current] + more)[1..] == more;
      assert [words[0]] + words[1..] == words;
    }
  }

  lemma {:induction false} WordsOfStep(rem: seq<bytes>, more: seq<seq<bytes>>)
    ensures rem != [] ==> (rem + WordsOf(more))[0] == rem[0] && (rem + WordsOf(more))[1..] == rem[1..] + WordsOf(more)
    ensures rem == [] && more != [] && more[0] != [] ==>
      (rem + WordsOf(more)) != [] && (rem + WordsOf(more))[0] == more[0][0]
      && (rem + WordsOf(more))[1..] == more[0][1..] + WordsOf(more[1..])
  {}

  /**
   Another way to set the same words is in the middle of a line: it has written width, rem is still to come on the line,
   and more are its further lines. The greedy lines are no more, but for one when the greedy line is wider.
   */
  lemma {:induction false} NotMore(current: seq<bytes>, width: nat, rem: seq<bytes>, more: seq<seq<bytes>>,
          available: int)
    requires current != [] && AllGood(more, available) && (rem == [] || Extent(width, rem) <= available)
    ensures |Groups(current, rem + WordsOf(more), available)| <= 1 + |more| + if Width(current) <= width then 0 else 1
    decreases |rem + WordsOf(more)|, |more|
  {
    var words := rem + WordsOf(more);
    WordsOfStep(rem, more);
    if rem != [] {
      var next := width + 1 + |rem[0]|;
      ExtentGrows(next, rem[1..]);
      Continue(current, words, next, rem[1..], more, available);
    } else if more != [] {
      assert Good(more[0], available);
      Continue(current, words, |more[0][0]|, more[0][1..], more[1..], available);
    }
  }

  /** The other way has put the next word: on its line, or at the start of a new one. */
  lemma {:induction false} Continue(current: seq<bytes>, words: seq<bytes>, width: nat, rem: seq<bytes>,
          more: seq<seq<bytes>>, available: int)
    requires current != [] && words != [] && AllGood(more, available) && (rem == [] || Extent(width, rem) <= available)
    requires words[1..] == rem + WordsOf(more) && |words[0]| <= width
    ensures var greedy := |Groups(current, words, available)|;
      && greedy <= 2 + |more|
      && (Width(current) + 1 + |words[0]| <= width && width <= available ==> greedy <= 1 + |more|)
    decreases |words| - 1, |more| + 1
  {
    if Width(current) + 1 + |words[0]| <= available {
      WidthSnoc(current, words[0]);
      NotMore(current + [words[0]], width, rem, more, available);
    } else {
      assert Width([words[0]]) == |words[0]|;
      NotMore([words[0]], width, rem, more, available);
    }
  }

  /** No other way to put the words into good lines has fewer lines. */
  lemma {:induction false} FewestLines(words: seq<bytes>, other: seq<seq<bytes>>, available: int)
    requires words != [] && WordsOf(other) == words && AllGood(other, available)
    ensures |Groups([words[0]], words[1..], available)| <= |other|
  {
    assert other != [];
    WordsOfStep([], other);
    assert [] + WordsOf(other) == words;
    assert Good(other[0], available);
    NotMore([words[0]], |words[0]|, other[0][1..], other[1..], available);
  }

  // ---- reading the lines again

  /** The words of a line are the words that were put on it. */
  lemma {:induction false} FieldsOfSpaced(words: seq<bytes>)
    requires forall w <- words :: IsWord(w)
    ensures Fields(Spaced(words)) == words
  {
    if |words| == 1 {
      FirstField(words[0], []);
      assert words[0] + [] == words[0];
    } else if |words| > 1 {
      FieldsOfSpaced(words[1..]);
      var rest := [SP] + Spaced(words[1..]);
      Associate(words[0], [SP], Spaced(words[1..]));
      FirstField(words[0], rest);
      SpaceSkipped(Spaced(words[1..]));
    }
  }

  function AllFields(lines: seq<bytes>): seq<bytes> {
    if lines == [] then [] else Fields(lines[0]) + AllFields(lines[1..])
  }

  lemma {:induction false} TextsCons(groups: seq<seq<bytes>>)
    requires groups != []
    ensures Texts(groups) != [] && Texts(groups)[0] == Spaced(groups[0]) && Texts(groups)[1..] == Texts(groups[1..])
  {}

  lemma {:induction false} TextsOfNone()
    ensures Texts([]) == []
  {}

  lemma {:induction false} FieldsOfTexts(groups: seq<seq<bytes>>)
    requires forall w <- WordsOf(groups) :: IsWord(w)
    ensures AllFields(Texts(groups)) == WordsOf(groups)
  {
    hide Fields, Spaced, IsWord, Texts;
    if groups == [] {
      TextsOfNone();
    } else {
      assert forall w <- groups[0] :: w in WordsOf(groups);
      assert forall w <- WordsOf(groups[1..]) :: w in WordsOf(groups);
      FieldsOfSpaced(groups[0]);
      FieldsOfTexts(groups[1..]);
      TextsCons(groups);
    }
  }

  // ---- the code

  lemma {:induction false} SpacedSnoc(words: seq<bytes>, w: bytes)
    requires words != []
    ensures Spaced(words + [w]) == Spaced(words) + ([SP] + w)
  {
    if |words| > 1 {
      SpacedSnoc(words[1..], w);
      assert (words + [w])[1..] == words[1..] + [w];
      Associate(words[0] + [SP], Spaced(words[1..]), [SP] + w);
    } else {
      assert (words + [w])[1..] == [w];
      Associate(words[0], [SP], w);
    }
  }

  lemma {:induction false} GroupsStep(group: seq<bytes>, words: seq<bytes>, k: nat, available: int)
    requires group != [] && k < |words|
    ensures Groups(group, words[k..], available)
         == if Width(group) + 1 + |words[k]| <= available then Groups(group + [words[k]], words[k + 1..], available)
            else [group] + Groups([words[k]], words[k + 1..], available)
  {
    assert words[k..][1..] == words[k + 1..];
  }

  lemma {:induction false} FirstText(group: seq<bytes>, rest: seq<seq<bytes>>)
    ensures Texts([group] + rest) == [Spaced(group)] + Texts(rest)
  {
    TextsCons([group] + rest);
    assert ([group] + rest)[1..] == rest;
  }

  lemma {:induction false} LastGroup(group: seq<bytes>, available: int)
    requires group != []
    ensures Groups(group, [], available) == [group] && Spaced([]) == [] && Spaced([group[0]]) == group[0]
  {}

  /** Only a single word can be wider than the line. */
  predicate FitOrWords(lines: seq<bytes>, available: int) {
    forall l <- lines :: |l| <= available || IsWord(l)
  }

  method WrapLine(line: bytes, prefix: bytes, lineLength: int) returns (lines: seq<bytes>)
    ensures lineLength <= 0 || |prefix| + |line| <= lineLength || lineLength <= |prefix| ==> lines == [line]
    ensures 0 < |prefix| + 1 <= lineLength < |prefix| + |line| ==>
      if Fields(line) == [] then lines == [[]]
      else
        && lines == Texts(Groups([Fields(line)[0]], Fields(line)[1..], lineLength - |prefix|))
        && AllFields(lines) == Fields(line)
        && FitOrWords(lines, lineLength - |prefix|)
  {
    hide *;
    if line == [] {
      return [[]];
    }
    if lineLength <= 0 || |prefix| + |line| <= lineLength {
      return [line];
    }
    var available := lineLength - |prefix|;
    if available <= 0 {
      return [line];
    }
    var words := Fields(line);
    if |words| == 0 {
      return [[]];
    }
    lines := GreedyLines(words, available);
    WrappedLines(line, |prefix|, lineLength, []);
  }

  /** The loop of wrapLine. */
  method GreedyLines(words: seq<bytes>, available: int) returns (lines: seq<bytes>)
    requires words != []
    ensures lines == Texts(Groups([words[0]], words[1..], available))
  {
    hide *;
    lines := [];
    var current := words[0];
    ghost var group := [words[0]];
    AtFirst(words, available);
    for k := 1 to |words|
      invariant WrappedSoFar(lines, current, group, words, k, available)
    {
      NextWord(lines, current, group, words, k, available);
      if |current| + 1 + |words[k]| <= available {
        current := current + ([SP] + words[k]);
        group := group + [words[k]];
        continue;
      }
      lines := lines + [current];
      current := words[k];
      group := [words[k]];
    }
    AtLast(lines, current, group, words, available);
    lines := lines + [current];
  }

  /**
   The lines so far, the words on the line at hand, and what the greedy rule makes of the rest are the greedy lines.
   */
  ghost predicate WrappedSoFar(lines: seq<bytes>, current: bytes, group: seq<bytes>, words: seq<bytes>, k: nat,
                               available: int)
  {
    && words != [] && k <= |words| && group != [] && current == Spaced(group)
    && lines + Texts(Groups(group, words[k..], available)) == Texts(Groups([words[0]], words[1..], available))
  }

  lemma {:induction false} AtFirst(words: seq<bytes>, available: int)
    requires words != []
    ensures WrappedSoFar([], words[0], [words[0]], words, 1, available)
  {
    LastGroup([words[0]], available);
    assert [] + Texts(Groups([words[0]], words[1..], available)) == Texts(Groups([words[0]], words[1..], available));
  }

  lemma {:induction false} NextWord(lines: seq<bytes>, current: bytes, group: seq<bytes>, words: seq<bytes>, k: nat,
          available: int)
    requires WrappedSoFar(lines, current, group, words, k, available) && k < |words|
    ensures if |current| + 1 + |words[k]| <= available
            then WrappedSoFar(lines, current + ([SP] + words[k]), group + [words[k]], words, k + 1, available)
            else WrappedSoFar(lines + [current], words[k], [words[k]], words, k + 1, available)
  {
    hide Groups, Spaced, Width;
    GroupsStep(group, words, k, available);
    SpacedWidth(group);
    SpacedSnoc(group, words[k]);
    LastGroup([words[k]], available);
    if |current| + 1 + |words[k]| > available {
      var rest := Groups([words[k]], words[k + 1..], available);
      FirstText(group, rest);
      assert lines + ([current] + Texts(rest)) == lines + [current] + Texts(rest);
    }
  }

  lemma {:induction false} AtLast(lines: seq<bytes>, current: bytes, group: seq<bytes>, words: seq<bytes>,
                                  available: int)
    requires WrappedSoFar(lines, current, group, words, |words|, available)
    ensures lines + [current] == Texts(Groups([words[0]], words[1..], available))
  {
    assert words[|words|..] == [];
    LastGroup(group, available);
    FirstText(group, []);
    TextsOfNone();
    assert Texts([group]) == [current];
  }

  /** What wrapping promises: the words, in order; good lines; and as few of them as there can be. */
  lemma {:induction false} WrappedLines(line: bytes, prefixLength: nat, lineLength: int, other: seq<seq<bytes>>)
    requires Fields(line) != []
    ensures var words, available := Fields(line), lineLength - prefixLength;
      var groups := Groups([words[0]], words[1..], available);
      && AllFields(Texts(groups)) == words
      && FitOrWords(Texts(groups), available)
      && (WordsOf(other) == words && AllGood(other, available) ==> |groups| <= |other|)
  {
    hide Groups, Spaced, AllFields, WordsOf, AllGood;
    var words, available := Fields(line), lineLength - prefixLength;
    var groups := Groups([words[0]], words[1..], available);
    GroupsAreGood([words[0]], words[1..], available);
    assert [words[0]] + words[1..] == words;
    FieldsOfTexts(groups);
    forall l <- Texts(groups) ensures |l| <= available || IsWord(l) {
      var i :| 0 <= i < |groups| && Texts(groups)[i] == l;
      GoodAt(groups, available, i);
      SpacedWidth(groups[i]);
      WordOfGroup(groups, words, i);
    }
    if WordsOf(other) == words && AllGood(other, available) {
      FewestLines(words, other, available);
    }
  }

  lemma {:induction false} WordOfGroup(groups: seq<seq<bytes>>, words: seq<bytes>, i: nat)
    requires i < |groups| && groups[i] != [] && WordsOf(groups) == words && forall w <- words :: IsWord(w)
    ensures |groups[i]| == 1 ==> Spaced(groups[i]) == groups[i][0] && IsWord(groups[i][0])
  {
    InWordsOf(groups, i);
    assert groups[i][0] in groups[i];
  }

  lemma {:induction false} InWordsOf(groups: seq<seq<bytes>>, i: nat)
    requires i < |groups|
    ensures forall w <- groups[i] :: w in WordsOf(groups)
  {
    if i > 0 {
      InWordsOf(groups[1..], i - 1);
    }
  }

  lemma {:induction false} GoodAt(groups: seq<seq<bytes>>, available: int, i: nat)
    requires AllGood(groups, available) && i < |groups|
    ensures Good(groups[i], available)
  {
    if i > 0 {
      GoodAt(groups[1..], available, i - 1);
    }
  }
}
