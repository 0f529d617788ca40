/** pkg/ddb: Query and Scan, page by page. */
module DynamoPaging {
  // The server holds the entries of one table in key order and may end a page anywhere, also where no entry of the
  // page matches the filter, and also at the very end with a key that leads to one more, empty page.

  import opened Bytes

  datatype Entry = Entry(value: int, matches: bool)

  /** The values of the entries that pass the filter. */
  function Matches(entries: seq<Entry>): (r: seq<int>)
    ensures |r| <= |entries|
  {
    if entries == [] then []
    else if entries[0].matches then [entries[0].value] + Matches(entries[1..])
    else Matches(entries[1..])
  }

  lemma {:induction false} MatchesAppend(a: seq<Entry>, b: seq<Entry>)
    ensures Matches(a + b) == Matches(a) + Matches(b)
  {
    if a == [] {
      assert a + b == b;
    } else {
      MatchesAppend(a[1..], b);
      assert (a + b)[1..] == a[1..] + b;
      if a[0].matches {
        Regroup([a[0].value], Matches(a[1..]), Matches(b));
      }
    }
  }

  lemma {:induction false} Regroup(a: seq<int>, b: seq<int>, c: seq<int>)
    ensures a + (b + c) == a + b + c
  {}

  // ---- the server

  datatype Page = Page(items: seq<int>, count: int, lastEvaluatedKey: Option<nat>)

  class Server {
    const entries: seq<Entry>

    constructor (entries: seq<Entry>)
      ensures this.entries == entries
    {
      this.entries := entries;
    }

    /** A page starts behind the start key, looks at no more entries than the limit says, and makes progress. */
    method Read(startKey: Option<nat>, limit: Option<int>) returns (page: Page, ghost end: nat)
      requires startKey.Some? ==> startKey.value <= |entries|
      requires limit.Some? ==> limit.value >= 1
      ensures var start := if startKey.Some? then startKey.value else 0;
        && start <= end <= |entries|
        && (limit.Some? ==> end - start <= limit.value)
        && page.items == Matches(entries[start..end]) && page.count == |page.items|
        && (page.lastEvaluatedKey == None ==> end == |entries|)
        && (page.lastEvaluatedKey.Some? ==> page.lastEvaluatedKey.value == end > start)
    {
      var start := if startKey.Some? then startKey.value else 0;
      var evaluated: nat;
      if start == |entries| {
        evaluated := 0;
      } else {
        evaluated :| 1 <= evaluated <= |entries| - start && (limit.Some? ==> evaluated <= limit.value);
      }
      var items := Matches(entries[start..start + evaluated]);
      var more: bool := *;
      end := start + evaluated;
      var key := if evaluated > 0 && (more || start + evaluated < |entries|) then Some(start + evaluated) else None;
      page := Page(items, |items|, key);
    }
  }

  // ---- page_iterator.go

  class PageIterator {
    var limit: Option<int>
    var size: Option<int>
    var count: int

    /** buildPageIterator */
    constructor (limit: Option<int>, size: Option<int>)
      ensures this.limit == limit && count == 0
      ensures this.size == if limit.Some? && (size.None? || size.value > limit.value) then limit else size
    {
      var pageSize := size;
      if limit.Some? && pageSize == None {
        pageSize := limit;
      }
      if limit.Some? && pageSize.value > limit.value {
        pageSize := limit;
      }
      this.limit, this.size, this.count := limit, pageSize, 0;
    }

    predicate IsDone()
      reads this
    {
      limit.Some? && limit.value == count
    }

    method Advance(more: int) returns (next: Option<int>)
      requires limit.Some? ==> size.Some?
      modifies this`count
      ensures count == old(count) + more
      ensures limit == None ==> next == size
      ensures limit.Some? ==> next.Some? && next.value <= limit.value - count && next.value <= size.value
      ensures limit.Some? ==> next.value == limit.value - count || next.value == size.value
    {
      count := count + more;
      if limit == None && size == None {
        return None;
      }
      if limit == None && size.Some? {
        return size;
      }
      var remainingCount := limit.value - count;
      var nextPageSize := size.value;
      if remainingCount < nextPageSize {
        nextPageSize := remainingCount;
      }
      return Some(nextPageSize);
    }
  }

  // ---- doQuery and doScan

  datatype ReadResult = ReadResult(items: Option<seq<int>>, lastEvaluatedKey: Option<nat>)

  /** One request: what it asked for, and how many items were still wanted. */
  datatype Asked = Asked(limit: Option<int>, wanted: Option<int>) {
    predicate Modest() {
      && (limit.Some? ==> limit.value >= 1)
      && (wanted.Some? ==> limit.Some? && limit.value <= wanted.value)
    }
  }

  class Operation {
    const pages: PageIterator
    var inputLimit: Option<int>
    var startKey: Option<nat>
    var itemCount: int
    var requestCount: int
    ghost var asked: seq<Asked>

    /** A limit below zero and a page size below one are not for DynamoDB. */
    constructor Query(limit: Option<int>, pageSize: Option<int>)
      requires limit.Some? ==> limit.value >= 0
      requires pageSize.Some? ==> pageSize.value >= 1
      ensures fresh(this) && fresh(pages) && Valid() && pages.limit == limit && pages.count == 0
      ensures startKey == None && asked == [] && inputLimit == pages.size
    {
      var progress := new PageIterator(limit, pageSize);
      pages, inputLimit, startKey := progress, progress.size, None;
      itemCount, requestCount, asked := 0, 0, [];
    }

    /** The first request of a Scan asks for the limit and not for a page. */
    constructor Scan(limit: Option<int>, pageSize: Option<int>)
      requires limit.Some? ==> limit.value >= 0
      requires pageSize.Some? ==> pageSize.value >= 1
      ensures fresh(this) && fresh(pages) && Valid() && pages.limit == limit && pages.count == 0
      ensures startKey == None && asked == [] && inputLimit == limit
    {
      var progress := new PageIterator(limit, pageSize);
      pages, inputLimit, startKey := progress, limit, None;
      itemCount, requestCount, asked := 0, 0, [];
    }

    ghost function Wanted(): Option<int>
      reads this, pages
    {
      if pages.limit.Some? then Some(pages.limit.value - pages.count) else None
    }

    /** Never more than the limit has been read, and the next request is a modest one. */
    ghost predicate Valid()
      reads this, pages
    {
      && (pages.limit.Some? ==> pages.size.Some? && pages.count <= pages.limit.value)
      && pages.count >= 0
      && (pages.size.Some? && pages.size.value < 1 ==> pages.limit == Some(0))
      && (!pages.IsDone() ==> Asked(inputLimit, Wanted()).Modest())
      && itemCount == pages.count && requestCount == |asked|
      && forall a <- asked :: a.Modest()
    }

    method Read(server: Server) returns (r: ReadResult, ghost end: nat)
      requires Valid()
      requires startKey.Some? ==> startKey.value <= |server.entries|
      modifies this, pages
      ensures Valid() && pages.limit == old(pages.limit)
      ensures old(pages.IsDone()) ==> r.items == None && asked == old(asked) && pages.count == old(pages.count)
      ensures !old(pages.IsDone()) ==>
        var start := if old(startKey.Some?) then old(startKey.value) else 0;
        && asked == old(asked) + [Asked(old(inputLimit), old(Wanted()))]
        && start <= end <= |server.entries|
        && r.items == Some(Matches(server.entries[start..end]))
        && pages.count == old(pages.count) + |r.items.value|
        && r.lastEvaluatedKey == startKey
        && (startKey == None ==> end == |server.entries|)
        && (startKey.Some? ==> startKey.value == end > start)
    {
      if pages.IsDone() {
        return ReadResult(None, None), 0;
      }
      asked := asked + [Asked(inputLimit, Wanted())];
      var out;
      out, end := server.Read(startKey, inputLimit);
      requestCount := requestCount + 1;
      itemCount := itemCount + out.count;
      var nextPageSize := pages.Advance(out.count);
      inputLimit := nextPageSize;
      startKey := out.lastEvaluatedKey;
      r := ReadResult(Some(out.items), out.lastEvaluatedKey);
    }
  }

  /** The first n of them, or all without a limit. */
  function First(limit: Option<int>, items: seq<int>): seq<int>
    requires limit.Some? ==> limit.value >= 0
  {
    if limit.Some? && limit.value < |items| then items[..limit.value] else items
  }

  lemma {:induction false} NextPage(entries: seq<Entry>, start: nat, end: nat)
    requires start <= end <= |entries|
    ensures Matches(entries[..end]) == Matches(entries[..start]) + Matches(entries[start..end])
  {
    assert entries[..start] + entries[start..end] == entries[..end];
    MatchesAppend(entries[..start], entries[start..end]);
  }

  lemma {:induction false} EnoughRead(entries: seq<Entry>, start: nat, limit: Option<int>)
    requires start <= |entries| && limit.Some? && limit.value == |Matches(entries[..start])|
    ensures First(limit, Matches(entries)) == Matches(entries[..start])
  {
    NextPage(entries, start, |entries|);
    assert entries[..|entries|] == entries;
  }

  /** However the server cuts its pages, the result is the first matching items up to the limit, once and in order. */
  method ReadAll(op: Operation, server: Server) returns (items: seq<int>)
    requires op.Valid() && op.startKey == None && op.pages.count == 0 && op.asked == []
    requires op.pages.limit.Some? ==> op.pages.limit.value >= 0
    modifies op, op.pages
    ensures items == First(old(op.pages.limit), Matches(server.entries))
    ensures op.itemCount == |items| && op.requestCount == |op.asked|
    ensures forall a <- op.asked :: a.Modest()
  {
    items := [];
    ghost var pos := 0;
    ghost var limit := op.pages.limit;
    while true
      invariant op.Valid() && op.pages.limit == limit
      invariant pos <= |server.entries| && (if op.startKey.Some? then op.startKey.value == pos else pos == 0)
      invariant items == Matches(server.entries[..pos]) && |items| == op.pages.count
      decreases |server.entries| - pos
    {
      ghost var start := pos;
      var out;
      out, pos := op.Read(server);
      if out.items == None {
        EnoughRead(server.entries, start, limit);
        break;
      }
      NextPage(server.entries, start, pos);
      items := items + out.items.value;
      if out.lastEvaluatedKey == None {
        assert server.entries[..pos] == server.entries;
        break;
      }
    }
  }
}
