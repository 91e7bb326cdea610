/** domain/notification/rollup.go: the hourly roll-up of the notifications table. */
module Rollup {
  import opened Clock

  const BUCKET_SECONDS := 3600

  /** A notification as the roll-up sees it: its texts trimmed, and the rule id and label already
      read from its metadata. */
  datatype Notification = Notification(id: int, createdAt: int, cameraId: int, category: string, severity: string,
                                       source: string, ruleId: int, objectLabel: string)

  datatype Key = Key(bucketStart: int, cameraId: int, ruleId: int, category: string, severity: string,
                     objectLabel: string, source: string)

  function Bucket(createdAt: int): int {
    createdAt - GoMod(createdAt, BUCKET_SECONDS)
  }

  /** A bucket begins on an hour: the one the time is in, but for times before 1970 the next one. */
  lemma BucketIsHour(c: int)
    ensures Bucket(c) % 3600 == 0
    ensures if c >= 0 then Bucket(c) <= c < Bucket(c) + 3600 else Bucket(c) - 3600 < c <= Bucket(c)
  {
    GoRemainder(c, BUCKET_SECONDS);
  }

  function KeyFor(n: Notification): Key {
    Key(Bucket(n.createdAt), n.cameraId, n.ruleId,
        if n.category == "" then "other" else n.category,
        if n.severity == "" then "info" else n.severity,
        n.objectLabel, n.source)
  }

  /** How many of `ns` fold into `k`. */
  function Tally(ns: seq<Notification>, k: Key): nat {
    if ns == [] then 0 else Tally(ns[..|ns| - 1], k) + if KeyFor(ns[|ns| - 1]) == k then 1 else 0
  }

  lemma {:induction false} TallyAppend(a: seq<Notification>, b: seq<Notification>, k: Key)
    ensures Tally(a + b, k) == Tally(a, k) + Tally(b, k)
  {
    if b == [] {
      assert a + b == a;
    } else {
      var b' := b[..|b| - 1];
      assert (a + b)[..|a + b| - 1] == a + b';
      TallyAppend(a, b', k);
    }
  }

  type Rollups = map<Key, nat>

  function CountIn(rollups: Rollups, k: Key): nat {
    if k in rollups then rollups[k] else 0
  }

  /** The table in id order, ids being unique. */
  ghost predicate ById(table: seq<Notification>) {
    forall j, k | 0 <= j < k < |table| :: table[j].id < table[k].id
  }

  /** How many leading rows of the table the cursor has passed. */
  function Passed(table: seq<Notification>, cursor: int): (n: nat)
    ensures n <= |table|
    ensures forall k | 0 <= k < n :: table[k].id <= cursor
    ensures n < |table| ==> cursor < table[n].id
  {
    if table == [] || cursor < table[0].id then 0 else 1 + Passed(table[1..], cursor)
  }

  lemma PassedIs(table: seq<Notification>, cursor: int, n: nat)
    requires ById(table) && n <= |table|
    requires n > 0 ==> table[n - 1].id <= cursor
    requires n < |table| ==> cursor < table[n].id
    ensures Passed(table, cursor) == n
  {
  }

  /** The agreement the roll-up owes the table.  No bucket is below the number of rows the cursor
      has passed, and none exceeds it by more than the rows of `spoiled`: the pages whose attempt
      failed after it may have written something. */
  ghost predicate Agrees(table: seq<Notification>, rollups: Rollups, cursor: int, spoiled: seq<Notification>) {
    forall k :: var owed := Tally(table[..Passed(table, cursor)], k);
                owed <= CountIn(rollups, k) <= owed + Tally(spoiled, k)
  }

  /** With no failed attempt the agreement is exact. */
  lemma AgreesExactly(table: seq<Notification>, rollups: Rollups, cursor: int, k: Key)
    requires Agrees(table, rollups, cursor, [])
    ensures CountIn(rollups, k) == Tally(table[..Passed(table, cursor)], k)
  {
  }

  /** What one attempt at a page does to the buckets: every key of `done` gets its whole delta. */
  ghost predicate Folded(before: Rollups, after: Rollups, page: seq<Notification>, done: set<Key>) {
    forall k :: CountIn(after, k) == CountIn(before, k) + if k in done then Tally(page, k) else 0
  }

  /** A completed page: all its keys folded and the cursor moved to its last id. */
  lemma PageDone(table: seq<Notification>, before: Rollups, after: Rollups, cursor: int, spoiled: seq<Notification>,
                 n: nat, done: set<Key>)
    requires ById(table) && Agrees(table, before, cursor, spoiled)
    requires Passed(table, cursor) < n <= |table|
    requires var page := table[Passed(table, cursor)..n];
             Folded(before, after, page, done) && forall x | x in page :: KeyFor(x) in done
    ensures Agrees(table, after, table[n - 1].id, spoiled) && Passed(table, table[n - 1].id) == n
  {
    var i := Passed(table, cursor);
    PassedIs(table, table[n - 1].id, n);
    assert table[..i] + table[i..n] == table[..n];
    forall k ensures var owed := Tally(table[..n], k); owed <= CountIn(after, k) <= owed + Tally(spoiled, k) {
      TallyAppend(table[..i], table[i..n], k);
      if k !in done { TallyNone(table[i..n], k); }
    }
  }

  lemma {:induction false} TallyNone(ns: seq<Notification>, k: Key)
    requires forall x | x in ns :: KeyFor(x) != k
    ensures Tally(ns, k) == 0
  {
    if ns == [] {
    } else {
      TallyNone(ns[..|ns| - 1], k);
    }
  }

  /** A page whose attempt stopped, wherever it stopped, with the cursor not moved. */
  lemma PageSpoiled(table: seq<Notification>, before: Rollups, after: Rollups, cursor: int, spoiled: seq<Notification>,
                    page: seq<Notification>, done: set<Key>)
    requires Agrees(table, before, cursor, spoiled) && Folded(before, after, page, done)
    ensures Agrees(table, after, cursor, spoiled + page)
  {
    forall k ensures var owed := Tally(table[..Passed(table, cursor)], k);
                     owed <= CountIn(after, k) <= owed + Tally(spoiled + page, k) {
      TallyAppend(spoiled, page, k);
    }
  }

  /** Why only one sweeper may run: if two fold the same page from the same cursor and both finish,
      every bucket of the page ends up too high by exactly the page's own count. */
  lemma OverlapDoubles(table: seq<Notification>, r0: Rollups, r1: Rollups, r2: Rollups, cursor: int,
                       n: nat, done: set<Key>, k: Key)
    requires ById(table) && Agrees(table, r0, cursor, []) && Passed(table, cursor) < n <= |table|
    requires var page := table[Passed(table, cursor)..n];
             && Folded(r0, r1, page, done) && Folded(r1, r2, page, done)
             && forall x | x in page :: KeyFor(x) in done
    ensures CountIn(r2, k) == Tally(table[..Passed(table, table[n - 1].id)], k)
                              + Tally(table[Passed(table, cursor)..n], k)
  {
    PageDone(table, r0, r1, cursor, [], n, done);
    AgreesExactly(table, r1, table[n - 1].id, k);
    if k !in done { TallyNone(table[Passed(table, cursor)..n], k); }
  }

  /** A row the cursor has not passed owes the roll-up nothing yet. */
  lemma RecordedLater(table: seq<Notification>, n: Notification, rollups: Rollups, cursor: int, spoiled: seq<Notification>)
    requires ById(table) && Agrees(table, rollups, cursor, spoiled)
    requires cursor < n.id && forall x | x in table :: x.id < n.id
    ensures ById(table + [n]) && Agrees(table + [n], rollups, cursor, spoiled)
  {
    var i, more := Passed(table, cursor), table + [n];
    assert forall j | 0 <= j < |table| :: table[j] in table;
    PassedIs(more, cursor, i);
    assert more[..i] == table[..i];
  }

  class RollupMaintainer {
    var table: seq<Notification>
    var rollups: Rollups
    var cursor: int
    /** The pages of the failed attempts so far. */
    ghost var spoiled: seq<Notification>

    ghost predicate Valid() reads this {
      ById(table) && Agrees(table, rollups, cursor, spoiled)
    }

    constructor (table: seq<Notification>)
      requires ById(table) && (table != [] ==> 0 < table[0].id)
      ensures Valid() && this.table == table && rollups == map[] && cursor == 0 && spoiled == []
    {
      this.table, rollups, cursor, spoiled := table, map[], 0, [];
    }

    /** A notification is recorded; ids only grow. */
    method Record(n: Notification)
      requires Valid() && cursor < n.id && forall x | x in table :: x.id < n.id
      modifies this`table
      ensures Valid() && table == old(table) + [n]
    {
      RecordedLater(table, n, rollups, cursor, spoiled);
      table := table + [n];
    }

    /** The rows past `lastId` in id order, as many as the database cares to return: its own cap
        overrides the page size, and only an empty page means that none are left. */
    method GetPage(lastId: int) returns (ok: bool, page: seq<Notification>, ghost n: nat)
      ensures Passed(table, lastId) <= n <= |table| && page == table[Passed(table, lastId)..n]
      ensures ok && page == [] ==> Passed(table, lastId) == |table|
    {
      var i := Passed(table, lastId);
      n := i;
      ok, page := *, [];
      if ok && i < |table| {
        var m: nat :| i < m <= |table|;
        n := m;
        page := table[i..m];
      }
    }

    /** One write of a bucket row.  Whether it fails, and whether a failing one took effect, is open. */
    method Write(k: Key, count: nat) returns (ok: bool)
      modifies this`rollups
      ensures rollups == old(rollups)[k := count] || (!ok && rollups == old(rollups))
    {
      ok := *;
      var took: bool := *;
      if ok || took { rollups := rollups[k := count]; }
    }

    /** Applies a page's deltas, in any order, stopping at the first failure. */
    method Flush(deltas: map<Key, nat>) returns (ok: bool, ghost done: set<Key>)
      modifies this`rollups
      ensures done <= deltas.Keys && (ok ==> done == deltas.Keys)
      ensures forall k :: CountIn(rollups, k) == CountIn(old(rollups), k) + if k in done then deltas[k] else 0
    {
      var left := deltas.Keys;
      done := {};
      while left != {}
        invariant left <= deltas.Keys && done == deltas.Keys - left
        invariant forall k :: CountIn(rollups, k) == CountIn(old(rollups), k) + if k in done then deltas[k] else 0
        decreases left
      {
        var key :| key in left;
        left := left - {key};
        if deltas[key] == 0 {
          done := done + {key};
          continue;
        }
        var found: bool := *;
        if !found { return false, done; }          // the query itself failed
        ghost var before := rollups;
        var wrote := Write(key, CountIn(rollups, key) + deltas[key]);
        if rollups != before { done := done + {key}; }
        if !wrote { return false, done; }
        assert CountIn(rollups, key) == CountIn(before, key) + deltas[key];
      }
      ok := true;
    }

    /** Folds one page, rows `i` to `n` of the table, and moves the cursor past it. */
    method FoldPage(page: seq<Notification>, ghost n: nat) returns (ok: bool)
      requires Valid() && Passed(table, cursor) < n <= |table| && page == table[Passed(table, cursor)..n]
      modifies this`rollups, this`cursor, this`spoiled
      ensures Valid()
      ensures ok ==> Passed(table, cursor) == n && spoiled == old(spoiled)
      ensures !ok ==>
        || (Passed(table, cursor) == n && spoiled == old(spoiled))
        || (cursor == old(cursor) && spoiled == old(spoiled) + page)
    {
      var deltas, maxId := Deltas(page, cursor);
      assert maxId == table[n - 1].id by { assert page[|page| - 1] == table[n - 1]; }
      ghost var before := rollups;
      ghost var done;
      ok, done := Flush(deltas);
      FlushFolds(before, rollups, page, deltas, done);
      if ok {
        PageDone(table, before, rollups, cursor, spoiled, n, done);
        var took: bool := *;
        ok := *;
        if ok || took {
          cursor := maxId;
          return;
        }
      }
      PageSpoiled(table, before, rollups, cursor, spoiled, page, done);
      spoiled := spoiled + page;
    }

    /** Sweep.  Any database operation may fail, with or without effect, and end it; run again, it
        resumes from the cursor. */
    method Sweep() returns (processed: nat, ok: bool)
      requires Valid()
      modifies this`rollups, this`cursor, this`spoiled
      ensures Valid()
      // What was passed stays passed.
      ensures Passed(table, old(cursor)) <= Passed(table, cursor)
      // A sweep that finishes has covered the whole table, spoiled nothing, and counts what it did.
      ensures ok ==> Passed(table, cursor) == |table| && spoiled == old(spoiled)
      ensures ok ==> processed == |table| - Passed(table, old(cursor))
      // A sweep with nothing to do changes nothing.
      ensures Passed(table, old(cursor)) == |table| ==>
        rollups == old(rollups) && cursor == old(cursor) && spoiled == old(spoiled) && processed == 0
      // One that stops has spoiled at most one page, the one behind the cursor.
      ensures || spoiled == old(spoiled)
              || (exists n :: Passed(table, cursor) < n <= |table|
                              && spoiled == old(spoiled) + table[Passed(table, cursor)..n])
    {
      processed := 0;
      ghost var start := Passed(table, cursor);
      ok := true;
      while ok
        invariant Valid() && start <= Passed(table, cursor)
        invariant ok ==> processed == Passed(table, cursor) - start && spoiled == old(spoiled)
        invariant || spoiled == old(spoiled)
                  || (exists n :: Passed(table, cursor) < n <= |table|
                                  && spoiled == old(spoiled) + table[Passed(table, cursor)..n])
        invariant start == |table| ==>
          rollups == old(rollups) && cursor == old(cursor) && spoiled == old(spoiled) && processed == 0
        decreases ok, |table| - Passed(table, cursor)
      {
        var got, page, n := GetPage(cursor);
        if !got { return processed, false; }
        if |page| == 0 { return; }
        ok := FoldPage(page, n);
        if ok { processed := processed + |page|; }
      }
    }

    /** The loop over a page: what each bucket gains, and the highest id. */
    method Deltas(page: seq<Notification>, lastId: int) returns (deltas: map<Key, nat>, maxId: int)
      requires |page| > 0 && lastId < page[0].id && ById(page)
      ensures forall k :: CountIn(deltas, k) == Tally(page, k)
      ensures forall x | x in page :: KeyFor(x) in deltas
      ensures maxId == page[|page| - 1].id
    {
      deltas, maxId := map[], lastId;
      for i := 0 to |page|
        invariant forall k :: CountIn(deltas, k) == Tally(page[..i], k)
        invariant forall j | 0 <= j < i :: KeyFor(page[j]) in deltas
        invariant maxId == if i == 0 then lastId else page[i - 1].id
      {
        assert page[..i + 1][..i] == page[..i];
        var k := KeyFor(page[i]);
        deltas := deltas[k := CountIn(deltas, k) + 1];
        if page[i].id > maxId { maxId := page[i].id; }
      }
      assert page[..|page|] == page;
    }
  }

  lemma FlushFolds(before: Rollups, after: Rollups, page: seq<Notification>, deltas: map<Key, nat>, done: set<Key>)
    requires done <= deltas.Keys && forall k :: CountIn(deltas, k) == Tally(page, k)
    requires forall k :: CountIn(after, k) == CountIn(before, k) + if k in done then deltas[k] else 0
    ensures Folded(before, after, page, done)
  {
    forall k ensures CountIn(after, k) == CountIn(before, k) + if k in done then Tally(page, k) else 0 {
      assert CountIn(deltas, k) == Tally(page, k);
    }
  }
}
