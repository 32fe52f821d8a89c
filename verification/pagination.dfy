/**
 * The pagination loop of `fetch`: request the page at offset 0, then limit, 2*limit, ...,
 * append each page to an accumulator, and stop after the first short page or the first
 * failed request. The HTTP request and JSON decoding are abstracted as a function from
 * offset to reply.
 */
module Pagination {

  /** One reply of the transport: a decoded page of records, or a failure with its cause. */
  datatype Reply<T> = Page(items: seq<T>) | Failed(cause: string)

  /** The records the loop keeps from one reply: a page's items, nothing from a failure. */
  function Kept<T>(reply: Reply<T>): seq<T> {
    if reply.Page? then reply.items else []
  }

  /** Request number k (at offset k * limit) ends the loop: it failed, or its page was short. */
  predicate StopsAt<T>(transport: nat -> Reply<T>, limit: nat, k: nat) {
    var reply := transport(k * limit);
    reply.Failed? || |reply.items| < limit
  }

  /** The records kept from the first n requests, in request order. */
  function Gathered<T>(transport: nat -> Reply<T>, limit: nat, n: nat): seq<T> {
    if n == 0 then [] else Gathered(transport, limit, n - 1) + Kept(transport((n - 1) * limit))
  }

  /**
   * A complete run of the loop issues n requests and gathers `all`: no request before
   * the last one ends the loop, the last one does, and `all` is what those n requests kept.
   */
  ghost predicate IsFetchRun<T>(transport: nat -> Reply<T>, limit: nat, n: nat, all: seq<T>) {
    && n >= 1
    && (forall j :: 0 <= j < n - 1 ==> !StopsAt(transport, limit, j))
    && StopsAt(transport, limit, n - 1)
    && all == Gathered(transport, limit, n)
  }

  /**
   * The loop of `fetch`. `offsets` lists the offsets requested, in order. The loop ends
   * only if some request is final, which the caller must guarantee.
   */
  method FetchAll<T>(transport: nat -> Reply<T>, limit: nat) returns (all: seq<T>, offsets: seq<nat>)
    requires limit > 0
    requires exists k: nat :: StopsAt(transport, limit, k)
    ensures forall j :: 0 <= j < |offsets| ==> offsets[j] == j * limit
    ensures IsFetchRun(transport, limit, |offsets|, all)
  {
    ghost var bound: nat :| StopsAt(transport, limit, bound);
    var offset := 0;
    all, offsets := [], [];
    while true
      invariant offset == |offsets| * limit && |offsets| <= bound
      invariant forall j :: 0 <= j < |offsets| ==> offsets[j] == j * limit && !StopsAt(transport, limit, j)
      invariant all == Gathered(transport, limit, |offsets|)
      decreases bound - |offsets|
    {
      var reply := transport(offset);
      offsets := offsets + [offset];
      if reply.Failed? {
        break;
      }
      all := all + reply.items;
      if |reply.items| < limit {
        break;
      }
      offset := offset + limit;
    }
  }

  /** The loop is deterministic: a transport admits one run only. */
  lemma FetchRunUnique<T>(transport: nat -> Reply<T>, limit: nat, n1: nat, all1: seq<T>, n2: nat, all2: seq<T>)
    requires IsFetchRun(transport, limit, n1, all1) && IsFetchRun(transport, limit, n2, all2)
    ensures n1 == n2 && all1 == all2
  {
  }

  /** Pages are appended in order: what m requests gathered is a prefix of what n >= m gather. */
  lemma {:induction false} GatheredPrefix<T>(transport: nat -> Reply<T>, limit: nat, m: nat, n: nat)
    requires m <= n
    ensures Gathered(transport, limit, m) <= Gathered(transport, limit, n)
  {
    if m < n {
      GatheredPrefix(transport, limit, m, n - 1);
    }
  }

  /** Requests that did not end the loop each returned at least `limit` records. */
  lemma {:induction false} FullPagesLength<T>(transport: nat -> Reply<T>, limit: nat, m: nat)
    requires forall j :: 0 <= j < m ==> !StopsAt(transport, limit, j)
    ensures |Gathered(transport, limit, m)| >= m * limit
  {
    if m > 0 {
      FullPagesLength(transport, limit, m - 1);
      assert !StopsAt(transport, limit, m - 1);
    }
  }

  /** A run of n requests gathers at least (n - 1) * limit records. */
  lemma FetchRunLength<T>(transport: nat -> Reply<T>, limit: nat, n: nat, all: seq<T>)
    requires IsFetchRun(transport, limit, n, all)
    ensures |all| >= (n - 1) * limit
  {
    FullPagesLength(transport, limit, n - 1);
    GatheredPrefix(transport, limit, n - 1, n);
  }

  /** A run that ends on a failed request keeps exactly the pages before it. */
  lemma FailureKeepsEarlierPages<T>(transport: nat -> Reply<T>, limit: nat, n: nat, all: seq<T>)
    requires IsFetchRun(transport, limit, n, all) && transport((n - 1) * limit).Failed?
    ensures all == Gathered(transport, limit, n - 1)
  {
  }

  /** Pages of 1000, 1000 and 400 records with limit 1000: three requests, 2400 records. */
  lemma ThreePages<T>(transport: nat -> Reply<T>, n: nat, all: seq<T>)
    requires transport(0).Page? && |transport(0).items| == 1000
    requires transport(1000).Page? && |transport(1000).items| == 1000
    requires transport(2000).Page? && |transport(2000).items| == 400
    requires IsFetchRun(transport, 1000, n, all)
    ensures n == 3 && |all| == 2400
  {
    assert !StopsAt(transport, 1000, 0) && !StopsAt(transport, 1000, 1) && StopsAt(transport, 1000, 2);
  }

  /** A full page followed by an empty one: the empty page is still requested, two requests in all. */
  lemma EmptyLastPage<T>(transport: nat -> Reply<T>, n: nat, all: seq<T>)
    requires transport(0).Page? && |transport(0).items| == 1000
    requires transport(1000) == Page([])
    requires IsFetchRun(transport, 1000, n, all)
    ensures n == 2 && all == transport(0).items
  {
    assert !StopsAt(transport, 1000, 0) && StopsAt(transport, 1000, 1);
  }

  /** The second request fails: the run stops there and keeps only the first page. */
  lemma SecondRequestFails<T>(transport: nat -> Reply<T>, n: nat, all: seq<T>)
    requires transport(0).Page? && |transport(0).items| == 1000
    requires transport(1000).Failed?
    requires IsFetchRun(transport, 1000, n, all)
    ensures n == 2 && all == transport(0).items
  {
    assert !StopsAt(transport, 1000, 0) && StopsAt(transport, 1000, 1);
  }
}
