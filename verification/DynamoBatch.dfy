/** pkg/ddb: writing many items in batches. */
module DynamoBatch {
  // What the server leaves unprocessed is sent again. The server is any server: it takes some of what it is sent and
  // gives back the rest, or fails. The ghost fields of Server say what it has done; the client never reads them.

  /** An item, and whether a write request can be built from it. */
  datatype Item = Item(id: int, buildable: bool)

  type Requests = map<string, seq<Item>>

  const BATCH := 25

  // ---- counting what a request holds

  /** Everything in a request, whatever the table. */
  ghost function AllOf(m: Requests): multiset<Item>
    decreases |m|
  {
    if m == map[] then multiset{}
    else
      assert m.Keys != {};
      var k :| k in m;
      multiset(m[k]) + AllOf(m - {k})
  }

  lemma {:induction false} AllOfWithout(m: Requests, k: string)
    requires k in m
    ensures AllOf(m) == multiset(m[k]) + AllOf(m - {k})
    decreases |m|
  {
    assert m.Keys != {};
    var first :| first in m && AllOf(m) == multiset(m[first]) + AllOf(m - {first});
    if first != k {
      AllOfWithout(m - {first}, k);
      AllOfWithout(m - {k}, first);
      assert m - {first} - {k} == m - {k} - {first};
    }
  }

  lemma {:induction false} AllOfOne(table: string, items: seq<Item>)
    ensures AllOf(map[table := items]) == multiset(items)
  {
    AllOfWithout(map[table := items], table);
    assert map[table := items] - {table} == map[];
  }

  /** What a table lost, the whole lost. */
  lemma {:induction false} LessOfEach(part: Requests, whole: Requests)
    requires LeftOver(part, whole)
    ensures AllOf(part) <= AllOf(whole)
    decreases |part|
  {
    if part != map[] {
      assert part.Keys != {};
      var k :| k in part;
      AllOfWithout(part, k);
      AllOfWithout(whole, k);
      LessOfEach(part - {k}, whole - {k});
    }
  }

  method TotalItemCount(requests: Requests) returns (result: int)
    ensures result == |AllOf(requests)|
  {
    result := 0;
    var todo := requests;
    while todo.Keys != {}
      invariant result + |AllOf(todo)| == |AllOf(requests)|
      decreases |todo|
    {
      var table :| table in todo.Keys;
      AllOfWithout(todo, table);
      result := result + |todo[table]|;
      todo := todo - {table};
    }
    assert todo == map[];
  }

  // ---- cutting into batches

  function Flatten<T>(chunks: seq<seq<T>>): seq<T> {
    if chunks == [] then [] else Flatten(chunks[..|chunks| - 1]) + chunks[|chunks| - 1]
  }

  lemma {:induction false} FlattenSplit<T>(chunks: seq<seq<T>>, n: nat)
    requires n <= |chunks|
    ensures Flatten(chunks) == Flatten(chunks[..n]) + Flatten(chunks[n..])
  {
    if n == |chunks| {
      assert chunks[..n] == chunks && chunks[n..] == [];
    } else {
      var last := |chunks| - 1;
      FlattenSplit(chunks[..last], n);
      assert chunks[..last][..n] == chunks[..n];
      assert chunks[n..][..last - n] == chunks[..last][n..];
      assert Flatten(chunks[n..]) == Flatten(chunks[..last][n..]) + chunks[last];
    }
  }

  /** The batches are the input, cut; only the last may be short, and none is empty. */
  method Chunk<T>(batch: seq<T>, size: nat) returns (chunks: seq<seq<T>>)
    requires size > 0
    ensures Flatten(chunks) == batch
    ensures forall i :: 0 <= i < |chunks| ==> 0 < |chunks[i]| <= size
    ensures forall i :: 0 <= i < |chunks| - 1 ==> |chunks[i]| == size
  {
    chunks := [];
    var i := 0;
    while i < |batch|
      invariant 0 <= i
      invariant Flatten(chunks) == if i < |batch| then batch[..i] else batch
      invariant forall k :: 0 <= k < |chunks| ==> 0 < |chunks[k]| <= size
      invariant forall k :: 0 <= k < |chunks| && (k < |chunks| - 1 || i < |batch|) ==> |chunks[k]| == size
      decreases |batch| - i
    {
      var end := i + size;
      if end > |batch| {
        end := |batch|;
      }
      OneMore(chunks, batch, i, end);
      chunks := chunks + [batch[i..end]];
      i := i + size;
    }
  }

  lemma {:induction false} OneMore<T>(chunks: seq<seq<T>>, batch: seq<T>, i: nat, end: nat)
    requires i <= end <= |batch| && Flatten(chunks) == batch[..i]
    ensures Flatten(chunks + [batch[i..end]]) == batch[..end]
    ensures end == |batch| ==> batch[..end] == batch
  {
    assert (chunks + [batch[i..end]])[..|chunks|] == chunks;
    assert batch[..i] + batch[i..end] == batch[..end];
  }

  // ---- the server

  datatype Response = Failed | Processed(unprocessed: Requests)

  /** What a server may give back: for some of the tables it was sent, some of the items it was sent. */
  predicate LeftOver(unprocessed: Requests, sent: Requests) {
    forall t <- unprocessed :: t in sent && multiset(unprocessed[t]) <= multiset(sent[t])
  }

  class Server {
    ghost var accepted: multiset<Item>
    /** It has named a table as unprocessed without an item in it. */
    ghost var namedEmpty: bool
    /** It has answered with an error. */
    ghost var failed: bool
    /** How many items it has given back in each answer without an error. */
    ghost var left: seq<nat>

    /** rest is what it has not taken; a client that got an error cannot know. */
    method BatchWriteItem(requests: Requests) returns (out: Response, ghost rest: multiset<Item>)
      requires |AllOf(requests)| <= 25
      modifies this
      ensures accepted + rest == old(accepted) + AllOf(requests) && rest <= AllOf(requests)
      ensures out.Processed? ==> rest == AllOf(out.unprocessed) && LeftOver(out.unprocessed, requests)
      ensures namedEmpty ==
        (old(namedEmpty) || (out.Processed? && exists t <- out.unprocessed :: out.unprocessed[t] == []))
      ensures failed == (old(failed) || out.Failed?)
      ensures left == old(left) + if out.Failed? then [] else [|AllOf(out.unprocessed)|]
    {
      hide AllOf;
      var fails: bool := *;
      if fails {
        out := Failed;
        failed := true;
        rest :| rest <= AllOf(requests);
      } else {
        assert LeftOver(requests, requests);
        var unprocessed: Requests :| LeftOver(unprocessed, requests);
        out := Processed(unprocessed);
        LessOfEach(unprocessed, requests);
        rest := AllOf(unprocessed);
        left := left + [|rest|];
        namedEmpty := namedEmpty || exists t <- unprocessed :: unprocessed[t] == [];
      }
      accepted := accepted + (AllOf(requests) - rest);
    }
  }

  /** The exponential backoff: how often it still says to go on is up to the clock. */
  class Backoff {
    var left: nat
    /** It has said to stop. */
    ghost var stopped: bool
    /** How often it was asked since the last reset. */
    ghost var asked: nat

    constructor ()
      ensures !stopped && asked == 0
    {
      left := *;
      stopped, asked := false, 0;
    }

    method Reset()
      modifies this`left, this`asked
      ensures asked == 0
    {
      left := *;
      asked := 0;
    }

    method NextBackOff() returns (stop: bool)
      modifies this
      ensures !stop ==> left < old(left)
      ensures stopped == (old(stopped) || stop) && asked == old(asked) + 1
    {
      asked := asked + 1;
      if left == 0 {
        stopped := true;
        return true;
      }
      left := left - 1;
      stop := *;
      stopped := stopped || stop;
    }
  }

  /** The answers since the last one that brought some progress, that one included. */
  function SinceProgress(sent: nat, left: seq<nat>): (n: nat) {
    if left == [] then 0
    else
      var n := |left| - 1;
      if left[n] < (if n == 0 then sent else left[n - 1]) then 1 else 1 + SinceProgress(sent, left[..n])
  }

  /** What is left is what the last answer left, and the backoff was asked once for each answer since some progress. */
  ghost predicate Tally(sent: nat, answers: seq<nat>, left: nat, asked: nat) {
    left == (if answers == [] then sent else answers[|answers| - 1]) && asked == SinceProgress(sent, answers)
  }

  lemma {:induction false} AskedSinceProgress(sent: nat, answers: seq<nat>, left: nat, asked: nat)
    requires Tally(sent, answers, left, asked)
    ensures asked == SinceProgress(sent, answers)
  {}

  lemma {:induction false} NoAnswersYet(sent: nat)
    ensures Tally(sent, [], sent, 0)
  {}

  lemma {:induction false} OneMoreAnswer(sent: nat, answers: seq<nat>, left: nat, asked: nat, after: nat)
    requires Tally(sent, answers, left, asked)
    ensures Tally(sent, answers + [after], after, if after < left then 1 else asked + 1)
  {
    assert (answers + [after])[..|answers|] == answers;
  }

  // ---- the client

  datatype Outcome = Written | GaveUp | ServerFailed | CannotBuild

  /**
   Success means that the server has taken every item once. Without success the rest is what it has not taken. It fails
   exactly when the server does, and gives up only when the backoff says so, which was asked afresh after every
   progress, and there is such a rest. The loop ends: either fewer items are left or the budget shrinks.
   */
  method ChunkWriteItem(server: Server, table: string, requests: seq<Item>)
    returns (r: Outcome, ghost rest: multiset<Item>, ghost backoff: Backoff, ghost answers: seq<nat>)
    requires |requests| <= BATCH
    modifies server
    ensures server.accepted + rest == old(server.accepted) + multiset(requests)
    ensures r == Written ==> rest == multiset{}
    ensures r == GaveUp ==> (rest != multiset{} || server.namedEmpty) && backoff.stopped
    ensures server.left == old(server.left) + answers
    ensures r == GaveUp ==> backoff.asked == SinceProgress(|requests|, answers)
    ensures server.failed == (old(server.failed) || r == ServerFailed)
    ensures r != CannotBuild && fresh(backoff)
  {
    hide AllOf, SinceProgress, Tally, LeftOver;
    NoAnswersYet(|requests|);
    var backoffConfig := new Backoff();
    backoff, answers := backoffConfig, [];
    var input := map[table := requests];
    AllOfOne(table, requests);
    backoffConfig.Reset();
    assert old(server.left) + [] == old(server.left);
    while true
      invariant fresh(backoffConfig) && backoff == backoffConfig
      invariant server.failed == old(server.failed) && server.left == old(server.left) + answers
      invariant Tally(|requests|, answers, |AllOf(input)|, backoffConfig.asked)
      invariant server.accepted + AllOf(input) == old(server.accepted) + multiset(requests)
      invariant |AllOf(input)| <= BATCH && input.Keys <= {table}
      decreases |AllOf(input)|, backoffConfig.left
    {
      var out;
      out, rest := server.BatchWriteItem(input);
      if out.Failed? {
        Appended(old(server.left), answers, 0);
        return ServerFailed, rest, backoff, answers;
      }
      WhatIsLeft(input, out.unprocessed, table);
      if table !in out.unprocessed {
        Appended(old(server.left), answers, |AllOf(out.unprocessed)|);
        return Written, rest, backoff, answers + [|AllOf(out.unprocessed)|];
      }
      var before := TotalItemCount(input);
      var after := TotalItemCount(out.unprocessed);
      var processedItems := before - after;
      OneMoreAnswer(|requests|, answers, before, backoffConfig.asked, after);
      Appended(old(server.left), answers, after);
      answers := answers + [after];
      input := out.unprocessed;
      if processedItems > 0 {
        backoffConfig.Reset();
      }
      var stop := backoffConfig.NextBackOff();
      if stop {
        AskedSinceProgress(|requests|, answers, after, backoffConfig.asked);
        return GaveUp, rest, backoff, answers;
      }
    }
  }

  lemma {:induction false} Appended(start: seq<nat>, answers: seq<nat>, after: nat)
    ensures start + answers + [after] == start + (answers + [after]) && start + answers + [] == start + answers
  {}

  lemma {:induction false} NoMore(part: multiset<Item>, whole: multiset<Item>)
    requires part <= whole
    ensures |part| <= |whole|
  {
    assert whole == part + (whole - part);
  }

  lemma {:induction false} WhatIsLeft(sent: Requests, left: Requests, table: string)
    requires sent.Keys <= {table} && LeftOver(left, sent) && AllOf(left) <= AllOf(sent)
    ensures left.Keys <= {table} && |AllOf(left)| <= |AllOf(sent)|
    ensures table !in left ==> AllOf(left) == multiset{}
    ensures table in left && AllOf(left) == multiset{} ==> exists t <- left :: left[t] == []
  {
    assert left.Keys <= {table};
    NoMore(AllOf(left), AllOf(sent));
    if table in left {
      OnlyTable(left, table);
    } else {
      NothingLeft(left, table);
    }
  }

  lemma {:induction false} NothingLeft(m: Requests, table: string)
    requires m.Keys <= {table} && table !in m
    ensures AllOf(m) == multiset{}
  {
    assert m == map[];
  }

  lemma {:induction false} OnlyTable(m: Requests, table: string)
    requires m.Keys <= {table} && table in m
    ensures AllOf(m) == multiset(m[table])
    ensures AllOf(m) == multiset{} ==> exists t <- m :: m[t] == []
  {
    assert m == map[table := m[table]];
    AllOfOne(table, m[table]);
    if m[table] != [] {
      assert m[table][0] in multiset(m[table]);
    }
  }

  /** Nothing is lost or written twice: at any end, accepted, pending and unsent items together are the input. */
  method BatchWriteItem(server: Server, table: string, items: seq<Item>)
    returns (r: Outcome, ghost pending: multiset<Item>, ghost unsent: multiset<Item>)
    modifies server
    ensures server.accepted + pending + unsent == old(server.accepted) + multiset(items)
    ensures r == Written ==> pending == multiset{} && unsent == multiset{} && AllBuildable(items)
    ensures r == CannotBuild ==> pending == multiset{} && exists x <- unsent :: !x.buildable
    ensures r == GaveUp ==> pending != multiset{} || server.namedEmpty
    ensures server.failed == (old(server.failed) || r == ServerFailed)
  {
    var chunks: seq<seq<Item>> := Chunk(items, BATCH);
    assert chunks[..0] == [] && chunks[0..] == chunks;
    for c := 0 to |chunks|
      invariant server.accepted + multiset(Flatten(chunks[c..])) == old(server.accepted) + multiset(items)
      invariant AllBuildable(Flatten(chunks[..c])) && server.failed == old(server.failed)
    {
      ChunkStep(chunks, c);
      unsent := multiset(Flatten(chunks[c + 1..]));
      var built := BuildRequests(chunks[c]);
      if !built {
        return CannotBuild, multiset{}, multiset(Flatten(chunks[c..]));
      }
      ghost var before := server.accepted;
      var written, rest, _, _ := ChunkWriteItem(server, table, chunks[c]);
      r, pending := written, rest;
      Passed(server.accepted, pending, unsent, before, multiset(chunks[c]));
      if r != Written {
        return r, pending, unsent;
      }
    }
    assert chunks[|chunks|..] == [] && chunks[..|chunks|] == chunks;
    return Written, multiset{}, multiset{};
  }

  lemma {:induction false} Passed(accepted: multiset<Item>, pending: multiset<Item>, unsent: multiset<Item>,
                                  before: multiset<Item>, chunk: multiset<Item>)
    requires accepted + pending == before + chunk
    ensures accepted + pending + unsent == before + (chunk + unsent)
    ensures pending == multiset{} ==> accepted + unsent == before + (chunk + unsent)
  {}

  predicate AllBuildable(items: seq<Item>) {
    forall x <- items :: x.buildable
  }

  method BuildRequests(chunk: seq<Item>) returns (built: bool)
    ensures built == AllBuildable(chunk)
  {
    for i := 0 to |chunk|
      invariant AllBuildable(chunk[..i])
    {
      if !chunk[i].buildable {
        return false;
      }
    }
    assert chunk[..|chunk|] == chunk;
    return true;
  }

  lemma {:induction false} ChunkStep(chunks: seq<seq<Item>>, c: nat)
    requires c < |chunks|
    ensures multiset(Flatten(chunks[c..])) == multiset(chunks[c]) + multiset(Flatten(chunks[c + 1..]))
    ensures AllBuildable(Flatten(chunks[..c])) && AllBuildable(chunks[c]) ==> AllBuildable(Flatten(chunks[..c + 1]))
    ensures !AllBuildable(chunks[c]) ==> exists x <- multiset(Flatten(chunks[c..])) :: !x.buildable
  {
    FlattenSplit(chunks[c..], 1);
    assert chunks[c..][1..] == chunks[c + 1..] && chunks[c..][..1] == [chunks[c]];
    OneChunk(chunks[c]);
    assert chunks[..c + 1][..c] == chunks[..c];
    if !AllBuildable(chunks[c]) {
      var x :| x in chunks[c] && !x.buildable;
      assert x in multiset(chunks[c]);
      assert x in multiset(Flatten(chunks[c..]));
    }
  }

  lemma {:induction false} OneChunk<T>(chunk: seq<T>)
    ensures Flatten([chunk]) == chunk
  {
    assert [chunk][..0] == [];
  }
}
