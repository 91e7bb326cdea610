/** The window and the paging that the dashboard queries of domain/notification share. */
module Query {
  /** statsMaxRows. */
  const MAX_ROWS := 200000

  /** 1<<62 - 1. */
  const FOREVER := 0x3FFF_FFFF_FFFF_FFFF

  function LowerBound(from: int): int { if from < 0 then 0 else from }

  function UpperBound(to: int): int { if to <= 0 then FOREVER else to }

  /** What a paging loop has read of a query's rows when it stops: all of them, unless it came to the
      row limit. */
  predicate Drained(n: nat, hits: nat) { n <= hits && (n == hits || n >= MAX_ROWS) }

  /** One page of a query's result: what the database returns at `offset`, at least one row if any is
      left, and the number of rows the query matches. */
  method GetPage<T>(hits: seq<T>, offset: nat) returns (page: seq<T>, total: nat)
    ensures total == |hits|
    ensures offset < |hits| ==> |page| > 0 && offset + |page| <= |hits| && page == hits[offset..offset + |page|]
    ensures offset >= |hits| ==> page == []
  {
    total, page := |hits|, [];
    if offset < |hits| {
      var m: nat :| offset < m <= |hits|;
      page := hits[offset..m];
    }
  }
}
