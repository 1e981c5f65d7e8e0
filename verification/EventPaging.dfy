// Serving the event log page by page, and draining it through that door.
module EventPaging {
  import opened Text
  import opened EventMessages

  // The table's rows in `seq` order; `seq` is unique.
  ghost predicate Ascending(log: seq<Event>) {
    forall i, j :: 0 <= i < j < |log| ==> log[i].seqNo < log[j].seqNo
  }

  // The rows numbered above `since`, from position `i` on.
  function RowsFrom(log: seq<Event>, since: int, i: nat): (rows: seq<Event>)
    requires i <= |log|
    ensures |rows| <= |log| - i
    decreases |log| - i
  {
    if i == |log| then []
    else if log[i].seqNo > since then [log[i]] + RowsFrom(log, since, i + 1)
    else RowsFrom(log, since, i + 1)
  }

  function RowsAfter(log: seq<Event>, since: int): seq<Event> {
    RowsFrom(log, since, 0)
  }

  function EventsSince(log: seq<Event>, since: int, limit: nat): seq<Event> {
    var rows := RowsAfter(log, since);
    if |rows| <= limit then rows else rows[..limit]
  }

  datatype Page = Page(events: seq<Event>, nextSeq: int, hasMore: bool)

  function PageSize(limit: Option<nat>): nat {
    var n := if limit.Some? then limit.value else 100;
    if n < 1 then 1 else if n > 500 then 500 else n
  }

  // A limit is kept within 1 and 500; without one it is 100.
  lemma PageSizeMeans(limit: Option<nat>)
    ensures limit.None? ==> PageSize(limit) == 100
    ensures limit.Some? && 1 <= limit.value <= 500 ==> PageSize(limit) == limit.value
    ensures limit == Some(0) ==> PageSize(limit) == 1
    ensures limit.Some? && limit.value > 500 ==> PageSize(limit) == 500
  {
  }

  // The events endpoint.
  function ServeEvents(log: seq<Event>, sinceSeq: Option<int>, limit: Option<nat>): Page {
    var since := if sinceSeq.Some? then sinceSeq.value else 0;
    var rows := EventsSince(log, since, PageSize(limit));
    Page(rows, if rows == [] then since else rows[|rows| - 1].seqNo, |rows| == PageSize(limit))
  }

  lemma {:induction false} AllFrom(log: seq<Event>, since: int, i: nat)
    requires i <= |log| && forall j :: i <= j < |log| ==> log[j].seqNo > since
    ensures RowsFrom(log, since, i) == log[i..]
    decreases |log| - i
  {
    if i < |log| {
      AllFrom(log, since, i + 1);
    }
  }

  lemma {:induction false} NoneUntil(log: seq<Event>, since: int, i: nat, k: nat)
    requires i <= k <= |log| && forall j :: i <= j < k ==> log[j].seqNo <= since
    ensures RowsFrom(log, since, i) == RowsFrom(log, since, k)
    decreases k - i
  {
    if i < k {
      NoneUntil(log, since, i + 1, k);
    }
  }

  // The rows above `since` are those from the first such row on.
  lemma SuffixFrom(log: seq<Event>, since: int, k: nat)
    requires k <= |log|
    requires forall j :: 0 <= j < k ==> log[j].seqNo <= since
    requires forall j :: k <= j < |log| ==> log[j].seqNo > since
    ensures RowsAfter(log, since) == log[k..]
  {
    NoneUntil(log, since, 0, k);
    AllFrom(log, since, k);
  }

  lemma {:induction false} FirstAfter(log: seq<Event>, since: int, n: nat) returns (k: nat)
    requires Ascending(log) && n <= |log|
    ensures k <= n
    ensures forall j :: 0 <= j < k ==> log[j].seqNo <= since
    ensures forall j :: k <= j < n ==> log[j].seqNo > since
  {
    if n == 0 {
      k := 0;
    } else {
      k := FirstAfter(log, since, n - 1);
      assert k < n - 1 ==> log[k].seqNo > since && log[k].seqNo < log[n - 1].seqNo;
      k := if k == n - 1 && log[n - 1].seqNo <= since then n else k;
    }
  }

  lemma AfterIsSuffix(log: seq<Event>, since: int)
    requires Ascending(log)
    ensures RowsAfter(log, since) == log[|log| - |RowsAfter(log, since)|..]
    ensures forall e :: e in RowsAfter(log, since) <==> e in log && e.seqNo > since
  {
    var k := FirstAfter(log, since, |log|);
    SuffixFrom(log, since, k);
    forall e | e in log && e.seqNo > since
      ensures e in log[k..]
    {
      var i :| 0 <= i < |log| && log[i] == e;
      assert log[k..][i - k] == e;
    }
    forall e | e in log[k..]
      ensures e in log && e.seqNo > since
    {
      var i :| 0 <= i < |log[k..]| && log[k..][i] == e;
      assert log[k + i] == e;
    }
  }

  lemma AfterRow(log: seq<Event>, i: nat)
    requires Ascending(log) && i < |log|
    ensures RowsAfter(log, log[i].seqNo) == log[i + 1..]
  {
    SuffixFrom(log, log[i].seqNo, i + 1);
  }

  lemma SuffixParts(log: seq<Event>, k: nat, rows: seq<Event>, size: nat)
    requires k <= |log| && rows == log[k..] && 1 <= size <= |rows|
    ensures rows[size - 1] == log[k + size - 1] && rows[size - 1] in rows && rows[size..] == log[k + size..]
  {
  }

  // A full page leaves exactly the rows behind it.
  lemma FullPageLeavesRest(log: seq<Event>, since: int, size: nat)
    requires Ascending(log) && 1 <= size <= |RowsAfter(log, since)|
    ensures RowsAfter(log, since)[size - 1].seqNo > since
    ensures RowsAfter(log, RowsAfter(log, since)[size - 1].seqNo) == RowsAfter(log, since)[size..]
  {
    var rows := RowsAfter(log, since);
    var k := |log| - |rows|;
    AfterIsSuffix(log, since);
    SuffixParts(log, k, rows, size);
    AfterRow(log, k + size - 1);
  }

  // The rows of `k` full pages.
  ghost function FullPages(size: nat, k: nat): nat {
    if k == 0 then 0 else FullPages(size, k - 1) + size
  }

  lemma {:induction false} FullPagesMultiply(size: nat, k: nat)
    ensures FullPages(size, k) == k * size
  {
    if k > 0 {
      FullPagesMultiply(size, k - 1);
      assert k * size == (k - 1) * size + size;
    }
  }

  lemma {:induction false} ProductsGrow(a: nat, b: nat, size: nat)
    requires a < b
    ensures a * size + size <= b * size
  {
    if a + 1 < b {
      ProductsGrow(a, b - 1, size);
    }
    assert b * size == (b - 1) * size + size;
  }

  // Full pages and a rest below the page size divide as expected.
  lemma PagesDivide(n: nat, size: nat, k: nat, rest: nat)
    requires rest < size && n == FullPages(size, k) + rest
    ensures n / size == k
  {
    FullPagesMultiply(size, k);
    var q := n / size;
    assert n == q * size + n % size;
    if q < k {
      ProductsGrow(q, k, size);
    } else if k < q {
      ProductsGrow(k, q, size);
    }
  }

  // Draining a fixed log: every row above 0 once and in order, in floor(n/L) + 1
  // requests; the result None stands for the "did not advance" error.
  method CollectEvents(log: seq<Event>, pageLimit: nat) returns (events: Option<seq<Event>>, requests: nat)
    requires Ascending(log)
    ensures events == Some(RowsAfter(log, 0))
    ensures requests == |RowsAfter(log, 0)| / PageSize(Some(pageLimit)) + 1
  {
    var collected: seq<Event>, since := [], 0;
    ghost var size := PageSize(Some(pageLimit));
    ghost var all := RowsAfter(log, 0);
    requests := 0;
    while true
      invariant since >= 0 && collected + RowsAfter(log, since) == all
      invariant |collected| == FullPages(size, requests)
      decreases |RowsAfter(log, since)|
    {
      var page := ServeEvents(log, Some(since), Some(pageLimit));
      PageIsNext(log, since, pageLimit);
      requests := requests + 1;
      collected := collected + page.events;
      var nextSeq := if page.nextSeq == 0 then since else page.nextSeq;
      if !page.hasMore || page.events == [] {
        PagesDivide(|all|, size, requests - 1, |page.events|);
        break;
      }
      if nextSeq <= since {
        return None, requests;
      }
      since := nextSeq;
    }
    events := Some(collected);
  }

  // A page holds the next rows: all that are left, or a full page, whose cursor leaves the
  // rest.
  lemma PageIsNext(log: seq<Event>, since: int, pageLimit: nat)
    requires Ascending(log) && since >= 0
    ensures var page, rows := ServeEvents(log, Some(since), Some(pageLimit)), RowsAfter(log, since);
            var size := PageSize(Some(pageLimit));
            if page.hasMore
            then |page.events| == size && page.nextSeq > since && page.events + RowsAfter(log, page.nextSeq) == rows
            else page.events == rows && |rows| < size
  {
    var rows, size := RowsAfter(log, since), PageSize(Some(pageLimit));
    if |rows| >= size {
      FullPageLeavesRest(log, since, size);
      PageAndRest(rows, RowsAfter(log, rows[size - 1].seqNo), size);
    }
  }

  lemma PageAndRest(rows: seq<Event>, rest: seq<Event>, size: nat)
    requires 1 <= size <= |rows| && rest == rows[size..]
    ensures rows[..size] + rest == rows && |rows[..size]| == size && rows[..size][size - 1] == rows[size - 1]
    ensures size == |rows| ==> rows[..size] == rows
  {
  }

  // With positive numbers nothing is left out.
  lemma PositiveLogIsDrainedWhole(log: seq<Event>)
    requires forall i :: 0 <= i < |log| ==> log[i].seqNo > 0
    ensures RowsAfter(log, 0) == log
  {
    AllFrom(log, 0, 0);
    assert log[0..] == log;
  }
}
