/** domain/notification/heatmap.go and anomaly.go: reading the roll-up back, page by page, gives the
    same numbers as counting the raw notifications. */
module RollupReads {
  import opened Clock
  import opened Query
  import opened Rollup

  datatype Row = Row(key: Key, count: nat)

  // ---- Sums over rows and counts over notifications ----

  /** The total of the rows whose key satisfies `p`. */
  ghost function SumRows(rows: seq<Row>, p: Key -> bool): nat {
    if rows == [] then 0
    else SumRows(rows[..|rows| - 1], p) + if p(rows[|rows| - 1].key) then rows[|rows| - 1].count else 0
  }

  /** How many notifications have a key satisfying `p`. */
  ghost function CountRaw(raw: seq<Notification>, p: Key -> bool): nat {
    if raw == [] then 0
    else CountRaw(raw[..|raw| - 1], p) + if p(KeyFor(raw[|raw| - 1])) then 1 else 0
  }

  /** The rows satisfying a query's filter, in table order. */
  function Select(rows: seq<Row>, q: Key -> bool): seq<Row> {
    if rows == [] then []
    else Select(rows[..|rows| - 1], q) + if q(rows[|rows| - 1].key) then [rows[|rows| - 1]] else []
  }

  /** The roll-up agrees with the table it was made from: one row a key, holding that key's tally,
      and every notification's key among them. */
  ghost predicate Consistent(rows: seq<Row>, raw: seq<Notification>) {
    && (forall j, k | 0 <= j < k < |rows| :: rows[j].key != rows[k].key)
    && (forall j | 0 <= j < |rows| :: rows[j].count == Tally(raw, rows[j].key))
    && (forall n | n in raw :: KeyFor(n) in Keys(rows))
  }

  ghost function Keys(rows: seq<Row>): set<Key> {
    set j | 0 <= j < |rows| :: rows[j].key
  }

  /** A list of a roll-up table's rows. */
  ghost predicate Lists(rows: seq<Row>, rollups: Rollups) {
    && (forall j, k | 0 <= j < k < |rows| :: rows[j].key != rows[k].key)
    && (forall j | 0 <= j < |rows| :: rows[j].key in rollups && rows[j].count == rollups[rows[j].key])
    && rollups.Keys <= Keys(rows)
  }

  /** What a finished sweep leaves, if no attempt has failed, is consistent with the whole table. */
  lemma SweptIsConsistent(rows: seq<Row>, rollups: Rollups, table: seq<Notification>, cursor: int)
    requires Agrees(table, rollups, cursor, []) && Passed(table, cursor) == |table| && Lists(rows, rollups)
    ensures Consistent(rows, table)
  {
    assert table[..|table|] == table;
    forall j | 0 <= j < |rows| ensures rows[j].count == Tally(table, rows[j].key) {
      AgreesExactly(table, rollups, cursor, rows[j].key);
    }
    forall n | n in table ensures KeyFor(n) in Keys(rows) {
      AgreesExactly(table, rollups, cursor, KeyFor(n));
      TallySome(table, n);
    }
  }

  lemma {:induction false} TallySome(ns: seq<Notification>, n: Notification)
    requires n in ns
    ensures Tally(ns, KeyFor(n)) > 0
  {
    if ns[|ns| - 1] != n {
      assert ns == ns[..|ns| - 1] + [ns[|ns| - 1]];
      TallySome(ns[..|ns| - 1], n);
    }
  }

  ghost function Only(k: Key, p: Key -> bool): Key -> bool { x => x == k && p(x) }

  ghost function Within(ks: set<Key>, p: Key -> bool): Key -> bool { x => x in ks && p(x) }

  function And(q: Key -> bool, p: Key -> bool): Key -> bool { x => q(x) && p(x) }

  lemma {:induction false} CountSame(raw: seq<Notification>, p: Key -> bool, q: Key -> bool)
    requires forall n | n in raw :: p(KeyFor(n)) == q(KeyFor(n))
    ensures CountRaw(raw, p) == CountRaw(raw, q)
  {
    if raw == [] {
    } else {
      CountSame(raw[..|raw| - 1], p, q);
    }
  }

  lemma {:induction false} CountSplit(raw: seq<Notification>, p: Key -> bool, q: Key -> bool, r: Key -> bool)
    requires forall k :: p(k) <==> q(k) || r(k)
    requires forall k :: !(q(k) && r(k))
    ensures CountRaw(raw, p) == CountRaw(raw, q) + CountRaw(raw, r)
  {
    if raw == [] {
    } else {
      CountSplit(raw[..|raw| - 1], p, q, r);
    }
  }

  lemma {:induction false} CountOneKey(raw: seq<Notification>, p: Key -> bool, k: Key)
    ensures CountRaw(raw, Only(k, p)) == if p(k) then Tally(raw, k) else 0
  {
    if raw == [] {
    } else {
      CountOneKey(raw[..|raw| - 1], p, k);
    }
  }

  lemma KeysMore(rows: seq<Row>, row: Row)
    ensures Keys(rows + [row]) == Keys(rows) + {row.key}
  {
    var more := rows + [row];
    forall k | k in Keys(rows) + {row.key} ensures k in Keys(more) {
      if k in Keys(rows) {
        var j :| 0 <= j < |rows| && rows[j].key == k;
        assert more[j].key == k;
      } else {
        assert more[|rows|].key == k;
      }
    }
  }

  lemma {:induction false} SumIsCountOfKeys(rows: seq<Row>, raw: seq<Notification>, p: Key -> bool)
    requires forall j, k | 0 <= j < k < |rows| :: rows[j].key != rows[k].key
    requires forall j | 0 <= j < |rows| :: rows[j].count == Tally(raw, rows[j].key)
    ensures SumRows(rows, p) == CountRaw(raw, Within(Keys(rows), p))
  {
    if rows == [] {
      assert Keys(rows) == {};
      CountNone(raw, Within(Keys(rows), p));
    } else {
      var rest, k := rows[..|rows| - 1], rows[|rows| - 1].key;
      SumIsCountOfKeys(rest, raw, p);
      KeysMore(rest, rows[|rows| - 1]);
      assert rows == rest + [rows[|rows| - 1]];
      assert k !in Keys(rest);
      CountOneKey(raw, p, k);
      CountSplit(raw, Within(Keys(rows), p), Within(Keys(rest), p), Only(k, p));
    }
  }

  lemma {:induction false} CountNone(raw: seq<Notification>, p: Key -> bool)
    requires forall n | n in raw :: !p(KeyFor(n))
    ensures CountRaw(raw, p) == 0
  {
    if raw == [] {
    } else {
      CountNone(raw[..|raw| - 1], p);
    }
  }

  /** Refinement: over a consistent roll-up, summing rows is counting notifications. */
  lemma SumIsCount(rows: seq<Row>, raw: seq<Notification>, p: Key -> bool)
    requires Consistent(rows, raw)
    ensures SumRows(rows, p) == CountRaw(raw, p)
  {
    SumIsCountOfKeys(rows, raw, p);
    CountSame(raw, Within(Keys(rows), p), p);
  }

  lemma SumAppend(rows: seq<Row>, row: Row, p: Key -> bool)
    ensures SumRows(rows + [row], p) == SumRows(rows, p) + if p(row.key) then row.count else 0
  {
    assert (rows + [row])[..|rows|] == rows;
  }

  lemma {:induction false} SumSelected(rows: seq<Row>, q: Key -> bool, p: Key -> bool)
    ensures SumRows(Select(rows, q), p) == SumRows(rows, And(q, p))
  {
    if rows == [] {
    } else {
      var rest, last := rows[..|rows| - 1], rows[|rows| - 1];
      SumSelected(rest, q, p);
      if q(last.key) {
        SumAppend(Select(rest, q), last, p);
      } else {
        assert Select(rows, q) == Select(rest, q);
      }
    }
  }

  lemma {:induction false} SumSame(rows: seq<Row>, p: Key -> bool, q: Key -> bool)
    requires forall j | 0 <= j < |rows| :: p(rows[j].key) == q(rows[j].key)
    ensures SumRows(rows, p) == SumRows(rows, q)
  {
    if rows == [] {
    } else {
      SumSame(rows[..|rows| - 1], p, q);
    }
  }

  lemma {:induction false} SumSplit(rows: seq<Row>, p: Key -> bool, q: Key -> bool, r: Key -> bool)
    requires forall k :: p(k) <==> q(k) || r(k)
    requires forall k :: !(q(k) && r(k))
    ensures SumRows(rows, p) == SumRows(rows, q) + SumRows(rows, r)
  {
    if rows == [] {
    } else {
      SumSplit(rows[..|rows| - 1], p, q, r);
    }
  }

  // ---- Heatmap ----

  datatype Cell = Cell(slot: Slot, count: nat)

  datatype Heatmap = Heatmap(total: nat, max: nat, cells: seq<Cell>)

  /** The filter of the heatmap's query. */
  function InWindow(from: int, to: int, camera: int): Key -> bool {
    (k: Key) => LowerBound(from) <= k.bucketStart <= UpperBound(to) && (camera > 0 ==> k.cameraId == camera)
  }

  function InSlot(slot: Slot, tz: int): Key -> bool {
    (k: Key) => SlotOf(k.bucketStart + tz) == slot
  }

  function InSlots(slots: set<Slot>, tz: int): Key -> bool {
    (k: Key) => SlotOf(k.bucketStart + tz) in slots
  }

  function GridAt(grid: map<Slot, nat>, slot: Slot): nat {
    if slot in grid then grid[slot] else 0
  }

  ghost function SumCells(cells: seq<Cell>): nat {
    if cells == [] then 0 else SumCells(cells[..|cells| - 1]) + cells[|cells| - 1].count
  }

  ghost predicate Everything(k: Key) { true }

  /** Cells for distinct slots, each with its rows' total, add up to the rows in those slots. */
  lemma {:induction false} CellsAddUp(hits: seq<Row>, tz: int, cells: seq<Cell>, slots: set<Slot>)
    requires forall j | 0 <= j < |cells| :: cells[j].count == SumRows(hits, InSlot(cells[j].slot, tz))
    requires forall j, k | 0 <= j < k < |cells| :: cells[j].slot != cells[k].slot
    requires slots == set j | 0 <= j < |cells| :: cells[j].slot
    ensures SumCells(cells) == SumRows(hits, InSlots(slots, tz))
  {
    if cells == [] {
      SumNone(hits, InSlots(slots, tz));
    } else {
      var rest, last := cells[..|cells| - 1], cells[|cells| - 1];
      var others := set j | 0 <= j < |rest| :: rest[j].slot;
      assert slots == others + {last.slot} by { assert cells == rest + [last]; }
      CellsAddUp(hits, tz, rest, others);
      SumSplit(hits, InSlots(slots, tz), InSlots(others, tz),
               InSlot(last.slot, tz));
    }
  }

  lemma {:induction false} SumNone(rows: seq<Row>, p: Key -> bool)
    requires forall k :: !p(k)
    ensures SumRows(rows, p) == 0
  {
    if rows == [] {
    } else {
      SumNone(rows[..|rows| - 1], p);
    }
  }

  /** The grid and the running total hold exactly the rows read so far. */
  ghost predicate GridHolds(grid: map<Slot, nat>, sum: nat, read: seq<Row>, tz: int) {
    && sum == SumRows(read, Everything)
    && (forall s :: GridAt(grid, s) == SumRows(read, InSlot(s, tz)))
    && (forall j | 0 <= j < |read| :: SlotOf(read[j].key.bucketStart + tz) in grid)
  }

  lemma AddRow(grid: map<Slot, nat>, sum: nat, read: seq<Row>, row: Row, tz: int)
    requires GridHolds(grid, sum, read, tz)
    ensures var slot := SlotOf(row.key.bucketStart + tz);
            GridHolds(grid[slot := GridAt(grid, slot) + row.count], sum + row.count, read + [row], tz)
  {
    SumAppend(read, row, Everything);
    var slot := SlotOf(row.key.bucketStart + tz);
    var grid' := grid[slot := GridAt(grid, slot) + row.count];
    forall s ensures GridAt(grid', s) == SumRows(read + [row], InSlot(s, tz)) {
      SumAppend(read, row, InSlot(s, tz));
      assert GridAt(grid, s) == SumRows(read, InSlot(s, tz));
    }
  }

  /** Folds a page into the grid. */
  method AddPage(page: seq<Row>, tz: int, grid0: map<Slot, nat>, sum0: nat, ghost read: seq<Row>)
    returns (grid: map<Slot, nat>, sum: nat)
    requires GridHolds(grid0, sum0, read, tz)
    ensures GridHolds(grid, sum, read + page, tz)
  {
    hide GridHolds;
    grid, sum := grid0, sum0;
    assert read + page[..0] == read;
    for i := 0 to |page|
      invariant GridHolds(grid, sum, read + page[..i], tz)
    {
      AddRow(grid, sum, read + page[..i], page[i], tz);
      assert read + page[..i] + [page[i]] == read + page[..i + 1];
      var slot := SlotOf(page[i].key.bucketStart + tz);
      grid := grid[slot := GridAt(grid, slot) + page[i].count];
      sum := sum + page[i].count;
    }
    assert read + page[..|page|] == read + page;
  }

  /** A cell for every slot that has something, holding the slot's sum; the total is that of the
      cells, and the maximum that of the busiest. */
  ghost predicate Shows(out: Heatmap, read: seq<Row>, tz: int) {
    && out.total == SumRows(read, Everything) == SumCells(out.cells)
    && (forall c | c in out.cells :: c.count == SumRows(read, InSlot(c.slot, tz)) <= out.max)
    && (forall j, k | 0 <= j < k < |out.cells| :: out.cells[j].slot != out.cells[k].slot)
    && (forall s | SumRows(read, InSlot(s, tz)) > 0 :: exists c :: c in out.cells && c.slot == s)
    && (out.max > 0 ==> exists c :: c in out.cells && c.count == out.max)
  }

  ghost predicate ShowsFirst(n: nat, out: Heatmap, hits: seq<Row>, tz: int) {
    Drained(n, |hits|) && Shows(out, hits[..n], tz)
  }

  /** Service.Heatmap over the roll-up's rows. */
  method ReadHeatmap(rows: seq<Row>, from: int, to: int, camera: int, tz: int) returns (out: Heatmap)
    ensures exists n: nat :: ShowsFirst(n, out, Select(rows, InWindow(from, to, camera)), tz)
  {
    var hits := Select(rows, InWindow(from, to, camera));
    var grid, sum := ReadGrid(hits, tz);
    var cells, max := CellsOf(grid);
    out := Heatmap(sum, max, cells);
    ghost var n: nat :| Drained(n, |hits|) && GridHolds(grid, sum, hits[..n], tz);
    GridTotals(hits[..n], tz, grid, sum, cells);
    forall s | SumRows(hits[..n], InSlot(s, tz)) > 0 ensures exists c :: c in cells && c.slot == s {
      assert GridAt(grid, s) > 0;
      assert Cell(s, grid[s]) in cells;
    }
    assert ShowsFirst(n, out, hits, tz);
  }

  /** The paging loop: a short page is not the end, the reported total is. */
  method ReadGrid(hits: seq<Row>, tz: int) returns (grid: map<Slot, nat>, sum: nat)
    ensures exists n: nat :: Drained(n, |hits|) && GridHolds(grid, sum, hits[..n], tz)
  {
    var offset: nat := 0;
    grid, sum := map[], 0;
    while true
      invariant offset <= |hits| && GridHolds(grid, sum, hits[..offset], tz)
      decreases |hits| - offset
    {
      hide GridHolds;
      var page, total := GetPage(hits, offset);
      grid, sum := AddPage(page, tz, grid, sum, hits[..offset]);
      assert hits[..offset] + page == hits[..offset + |page|];
      offset := offset + |page|;
      if |page| == 0 || offset >= total || offset >= MAX_ROWS { break; }
    }
    assert Drained(offset, |hits|);
  }

  lemma GridTotals(hits: seq<Row>, tz: int, grid: map<Slot, nat>, sum: nat, cells: seq<Cell>)
    requires GridHolds(grid, sum, hits, tz)
    requires forall c | c in cells :: c.slot in grid && c.count == grid[c.slot]
    requires forall j, k | 0 <= j < k < |cells| :: cells[j].slot != cells[k].slot
    requires forall s | s in grid :: Cell(s, grid[s]) in cells
    ensures SumCells(cells) == sum
    ensures forall c | c in cells :: c.count == SumRows(hits, InSlot(c.slot, tz))
  {
    hide SumRows, SumCells, SlotOf;
    forall c | c in cells ensures c.count == SumRows(hits, InSlot(c.slot, tz)) {
      assert GridAt(grid, c.slot) == c.count;
    }
    forall j | 0 <= j < |cells| ensures cells[j].count == SumRows(hits, InSlot(cells[j].slot, tz)) {
      assert cells[j] in cells;
    }
    var slots := set j | 0 <= j < |cells| :: cells[j].slot;
    CellsAddUp(hits, tz, cells, slots);
    forall j | 0 <= j < |hits| ensures InSlots(slots, tz)(hits[j].key) == Everything(hits[j].key) {
      var s := SlotOf(hits[j].key.bucketStart + tz);
      var i :| 0 <= i < |cells| && cells[i] == Cell(s, grid[s]);
      assert cells[i].slot in slots;
    }
    SumSame(hits, InSlots(slots, tz), Everything);
  }

  /** The grid as a list of cells, in any order, with the busiest cell's count. */
  method CellsOf(grid: map<Slot, nat>) returns (cells: seq<Cell>, max: nat)
    ensures forall c | c in cells :: c.slot in grid && c.count == grid[c.slot] <= max
    ensures forall j, k | 0 <= j < k < |cells| :: cells[j].slot != cells[k].slot
    ensures forall s | s in grid :: Cell(s, grid[s]) in cells
    ensures max > 0 ==> exists c :: c in cells && c.count == max
  {
    cells, max := [], 0;
    var left := grid.Keys;
    while left != {}
      invariant left <= grid.Keys
      invariant forall c | c in cells :: c.slot in grid && c.slot !in left && c.count == grid[c.slot] <= max
      invariant forall j, k | 0 <= j < k < |cells| :: cells[j].slot != cells[k].slot
      invariant forall s | s in grid && s !in left :: Cell(s, grid[s]) in cells
      invariant max > 0 ==> exists c :: c in cells && c.count == max
      decreases left
    {
      var slot :| slot in left;
      left := left - {slot};
      cells := cells + [Cell(slot, grid[slot])];
      if grid[slot] > max {
        max := grid[slot];
        assert Cell(slot, grid[slot]) in cells;
      }
    }
  }

  // ---- AnomalyScan ----

  /** The filter of AnomalyScan's query: eight weeks of history up to the end of the scanned hour. */
  function InHistory(hourStart: int): Key -> bool
    requires hourStart > 0
  {
    var hour := hourStart - hourStart % 3600;
    (k: Key) => LowerBound(hour - 8 * 7 * DAY) <= k.bucketStart <= hour + 3600
  }

  function InHour(camera: int, occurrence: int, tz: int): Key -> bool {
    (k: Key) => k.cameraId == camera && OccurrenceKey(k.bucketStart, 3600, tz) == occurrence
  }

  function TotalAt(perCamera: map<int, map<int, nat>>, camera: int, occurrence: int): nat {
    if camera in perCamera && occurrence in perCamera[camera] then perCamera[camera][occurrence] else 0
  }

  ghost predicate TotalsHold(perCamera: map<int, map<int, nat>>, read: seq<Row>, tz: int) {
    forall c, o :: TotalAt(perCamera, c, o) == SumRows(read, InHour(c, o, tz))
  }

  lemma AddToTotals(perCamera: map<int, map<int, nat>>, read: seq<Row>, row: Row, tz: int)
    requires TotalsHold(perCamera, read, tz)
    ensures var c, o := row.key.cameraId, OccurrenceKey(row.key.bucketStart, 3600, tz);
            var m := if c in perCamera then perCamera[c] else map[];
            TotalsHold(perCamera[c := m[o := TotalAt(perCamera, c, o) + row.count]], read + [row], tz)
  {
    var c, o := row.key.cameraId, OccurrenceKey(row.key.bucketStart, 3600, tz);
    var m := if c in perCamera then perCamera[c] else map[];
    var after := perCamera[c := m[o := TotalAt(perCamera, c, o) + row.count]];
    forall c', o' ensures TotalAt(after, c', o') == SumRows(read + [row], InHour(c', o', tz)) {
      SumAppend(read, row, InHour(c', o', tz));
      assert TotalAt(perCamera, c', o') == SumRows(read, InHour(c', o', tz));
    }
  }

  ghost predicate TotalsOfFirst(n: nat, perCamera: map<int, map<int, nat>>, hits: seq<Row>, tz: int) {
    Drained(n, |hits|) && TotalsHold(perCamera, hits[..n], tz)
  }

  /** AnomalyScan's first half: each camera's total for every local hour of its history. */
  method HourTotals(rows: seq<Row>, hourStart: int, tz: int)
    returns (perCamera: map<int, map<int, nat>>)
    requires hourStart > 0
    ensures exists n: nat :: TotalsOfFirst(n, perCamera, Select(rows, InHistory(hourStart)), tz)
  {
    var hits := Select(rows, InHistory(hourStart));
    var offset: nat := 0;
    perCamera := map[];
    while true
      invariant offset <= |hits| && TotalsHold(perCamera, hits[..offset], tz)
      decreases |hits| - offset
    {
      hide TotalsHold, Select, InHistory;
      var page, total := GetPage(hits, offset);
      for i := 0 to |page|
        invariant TotalsHold(perCamera, hits[..offset + i], tz)
      {
        AddToTotals(perCamera, hits[..offset + i], page[i], tz);
        assert hits[..offset + i] + [page[i]] == hits[..offset + i + 1];
        var camera, occ := page[i].key.cameraId, OccurrenceKey(page[i].key.bucketStart, 3600, tz);
        var m: map<int, nat> := if camera in perCamera then perCamera[camera] else map[];
        perCamera := perCamera[camera := m[occ := (if occ in m then m[occ] else 0) + page[i].count]];
      }
      offset := offset + |page|;
      if |page| == 0 || offset >= total || offset >= MAX_ROWS { break; }
    }
    assert TotalsOfFirst(offset, perCamera, hits, tz);
  }

  // ---- The reads against the raw notifications ----

  ghost function CountWhere(raw: seq<Notification>, p: Notification -> bool): nat {
    if raw == [] then 0 else CountWhere(raw[..|raw| - 1], p) + if p(raw[|raw| - 1]) then 1 else 0
  }

  lemma {:induction false} CountByKey(raw: seq<Notification>, p: Key -> bool, q: Notification -> bool)
    requires forall n | n in raw :: p(KeyFor(n)) == q(n)
    ensures CountRaw(raw, p) == CountWhere(raw, q)
  {
    if raw == [] {
    } else {
      CountByKey(raw[..|raw| - 1], p, q);
    }
  }

  /** Made in the hour that begins at `k.bucketStart`, with what `k` names, a text that is not given standing
      for its default. */
  function MadeAs(k: Key): Notification -> bool {
    (n: Notification) =>
      && k.bucketStart <= n.createdAt < k.bucketStart + 3600
      && n.cameraId == k.cameraId && n.ruleId == k.ruleId && n.objectLabel == k.objectLabel && n.source == k.source
      && (n.category == k.category || (n.category == "" && k.category == "other"))
      && (n.severity == k.severity || (n.severity == "" && k.severity == "info"))
  }

  /** A key that some notification can have. */
  predicate IsKey(k: Key) { k.bucketStart % 3600 == 0 && k.category != "" && k.severity != "" }

  /** What a row of the roll-up counts: of a table swept without failures, the notifications of its hour,
      camera, rule, label, source, category and severity; a row with a key that no notification can have
      counts none. */
  lemma RowIsCount(rows: seq<Row>, raw: seq<Notification>, j: nat)
    requires Consistent(rows, raw) && Stamped(raw) && j < |rows|
    ensures rows[j].count == if IsKey(rows[j].key) then CountWhere(raw, MadeAs(rows[j].key)) else 0
  {
    var k := rows[j].key;
    TallyIsCount(raw, k);
  }

  lemma {:induction false} TallyIsCount(raw: seq<Notification>, k: Key)
    requires Stamped(raw)
    ensures Tally(raw, k) == if IsKey(k) then CountWhere(raw, MadeAs(k)) else 0
  {
    if raw == [] {
    } else {
      assert raw[|raw| - 1] in raw;
      TallyIsCount(raw[..|raw| - 1], k);
      KeyIs(raw[|raw| - 1], k);
    }
  }

  lemma KeyIs(n: Notification, k: Key)
    requires 0 <= n.createdAt
    ensures KeyFor(n) == k <==> IsKey(k) && MadeAs(k)(n)
  {
  }

  ghost predicate Stamped(raw: seq<Notification>) {
    forall n | n in raw :: 0 <= n.createdAt <= FOREVER
  }

  /** Created in a window that starts and ends on whole hours, the last one included. */
  function CreatedIn(from: int, to: int, camera: int): Notification -> bool {
    (n: Notification) =>
      LowerBound(from) <= n.createdAt && (to > 0 ==> n.createdAt < to + 3600) && (camera > 0 ==> n.cameraId == camera)
  }

  function CreatedInSlot(from: int, to: int, camera: int, tz: int, slot: Slot): Notification -> bool {
    (n: Notification) => CreatedIn(from, to, camera)(n) && SlotOf(n.createdAt + tz) == slot
  }

  function CreatedInHour(hour: int, camera: int, occurrence: int, tz: int): Notification -> bool {
    (n: Notification) =>
      LowerBound(hour - 8 * 7 * DAY) <= n.createdAt < hour + 7200 && n.cameraId == camera
      && OccurrenceKey(n.createdAt, 3600, tz) == occurrence
  }

  lemma WindowOfBucket(n: Notification, from: int, to: int)
    requires 0 <= n.createdAt <= FOREVER && from % 3600 == 0 && to % 3600 == 0
    ensures LowerBound(from) <= Bucket(n.createdAt) <= UpperBound(to)
            <==> LowerBound(from) <= n.createdAt && (to > 0 ==> n.createdAt < to + 3600)
  {
  }

  lemma SlotOfBucket(c: int, tz: int)
    requires 0 <= c && tz % 3600 == 0
    ensures SlotOf(Bucket(c) + tz) == SlotOf(c + tz)
  {
    SameHourSameSlot(Bucket(c) + tz, c + tz);
  }

  lemma HistoryOfBucket(c: int, hour: int)
    requires 0 <= c && hour % 3600 == 0 && hour >= 0
    ensures LowerBound(hour - 8 * 7 * DAY) <= Bucket(c) <= hour + 3600
            <==> LowerBound(hour - 8 * 7 * DAY) <= c < hour + 7200
  {
  }

  lemma OccurrenceOfBucket(c: int, tz: int)
    requires 0 <= c && tz % 3600 == 0
    ensures OccurrenceKey(Bucket(c), 3600, tz) == OccurrenceKey(c, 3600, tz)
  {
    hide OccurrenceKey;
    assert Bucket(c) % 3600 == 0 && Bucket(c) <= c < Bucket(c) + 3600;
    OccurrenceFloors(Bucket(c), 3600, tz);
    OccurrenceFloors(c, 3600, tz);
  }

  /** Heatmap's cells, from a consistent roll-up: over whole-hour windows and for whole-hour offsets
      each cell is the number of notifications made in that local weekday and hour. */
  lemma HeatmapCellIsRawCount(rows: seq<Row>, raw: seq<Notification>, from: int, to: int, camera: int, tz: int, slot: Slot)
    requires Consistent(rows, raw) && Stamped(raw)
    requires from % 3600 == 0 && to % 3600 == 0 && tz % 3600 == 0
    ensures SumRows(Select(rows, InWindow(from, to, camera)), InSlot(slot, tz))
         == CountWhere(raw, CreatedInSlot(from, to, camera, tz, slot))
  {
    hide SlotOf, Bucket, LowerBound, UpperBound, SumRows, CountRaw, CountWhere, Select, Tally;
    var p := And(InWindow(from, to, camera), InSlot(slot, tz));
    SumSelected(rows, InWindow(from, to, camera), InSlot(slot, tz));
    SumIsCount(rows, raw, p);
    forall n | n in raw ensures p(KeyFor(n)) == CreatedInSlot(from, to, camera, tz, slot)(n) {
      var k := KeyFor(n);
      assert p(k) == (InWindow(from, to, camera)(k) && InSlot(slot, tz)(k));
      assert InSlot(slot, tz)(k) == (SlotOf(Bucket(n.createdAt) + tz) == slot);
      WindowOfBucket(n, from, to);
      SlotOfBucket(n.createdAt, tz);
      assert InWindow(from, to, camera)(k) == CreatedIn(from, to, camera)(n);
      assert CreatedInSlot(from, to, camera, tz, slot)(n)
        == (CreatedIn(from, to, camera)(n) && SlotOf(n.createdAt + tz) == slot);
    }
    CountByKey(raw, p, CreatedInSlot(from, to, camera, tz, slot));
  }

  /** ... and its Total is the number of notifications in the window, for every offset. */
  lemma HeatmapTotalIsRawCount(rows: seq<Row>, raw: seq<Notification>, from: int, to: int, camera: int)
    requires Consistent(rows, raw) && Stamped(raw) && from % 3600 == 0 && to % 3600 == 0
    ensures SumRows(Select(rows, InWindow(from, to, camera)), Everything)
         == CountWhere(raw, CreatedIn(from, to, camera))
  {
    var p := And(InWindow(from, to, camera), Everything);
    SumSelected(rows, InWindow(from, to, camera), Everything);
    SumIsCount(rows, raw, p);
    forall n | n in raw ensures p(KeyFor(n)) == CreatedIn(from, to, camera)(n) { WindowOfBucket(n, from, to); }
    CountByKey(raw, p, CreatedIn(from, to, camera));
  }

  ghost predicate ReadsSlot(c: int, tz: int) {
    SlotOf(Bucket(c) + tz) == SlotOf(c + tz)
  }

  /** The moment at which the local hour changes within an hour. */
  lemma MisreadAt(tz: int)
    requires tz % 3600 != 0
    ensures !ReadsSlot(3600 - tz % 3600, tz)
  {
    var c := 3600 - tz % 3600;
    assert Bucket(c) == 0;
    var q := tz / 3600;
    assert (c + tz) / 3600 == q + 1;
    HourOfWeek(tz);
    HourOfWeek(c + tz);
    hide SlotOf;
    SameResidue(q + 96, 1);
  }

  /** Whole-hour offsets are exactly those for which no notification is read in the wrong slot. */
  lemma WholeHourOffsets(tz: int)
    ensures (forall c :: c >= 0 ==> ReadsSlot(c, tz)) <==> tz % 3600 == 0
  {
    hide SlotOf, Bucket;
    if tz % 3600 == 0 {
      forall c | c >= 0 ensures ReadsSlot(c, tz) { SlotOfBucket(c, tz); }
    } else {
      MisreadAt(tz);
    }
  }

  /** AnomalyScan's totals, from a consistent roll-up: each camera's count of notifications made in
      that local hour. */
  lemma HourTotalIsRawCount(rows: seq<Row>, raw: seq<Notification>, hourStart: int, tz: int, camera: int, occurrence: int)
    requires Consistent(rows, raw) && Stamped(raw) && hourStart > 0 && tz % 3600 == 0
    ensures SumRows(Select(rows, InHistory(hourStart)), InHour(camera, occurrence, tz))
         == CountWhere(raw, CreatedInHour(hourStart - hourStart % 3600, camera, occurrence, tz))
  {
    hide OccurrenceKey, Bucket, LowerBound, SumRows, CountRaw, CountWhere, Select, Tally;
    var hour := hourStart - hourStart % 3600;
    var p := And(InHistory(hourStart), InHour(camera, occurrence, tz));
    SumSelected(rows, InHistory(hourStart), InHour(camera, occurrence, tz));
    SumIsCount(rows, raw, p);
    forall n | n in raw ensures p(KeyFor(n)) == CreatedInHour(hour, camera, occurrence, tz)(n) {
      var k := KeyFor(n);
      OccurrenceOfBucket(n.createdAt, tz);
      HistoryOfBucket(n.createdAt, hour);
      assert p(k) == (InHistory(hourStart)(k) && InHour(camera, occurrence, tz)(k));
    }
    CountByKey(raw, p, CreatedInHour(hour, camera, occurrence, tz));
  }

  /** So a heat map that ReadHeatmap returns, within the row limit, is the one of the notifications. */
  lemma HeatmapIsRawCount(out: Heatmap, rows: seq<Row>, raw: seq<Notification>, from: int, to: int, camera: int, tz: int)
    requires exists n: nat :: ShowsFirst(n, out, Select(rows, InWindow(from, to, camera)), tz)
    requires |Select(rows, InWindow(from, to, camera))| <= MAX_ROWS
    requires Consistent(rows, raw) && Stamped(raw)
    requires from % 3600 == 0 && to % 3600 == 0 && tz % 3600 == 0
    ensures out.total == CountWhere(raw, CreatedIn(from, to, camera))
    ensures forall c | c in out.cells :: c.count == CountWhere(raw, CreatedInSlot(from, to, camera, tz, c.slot))
    ensures forall s | CountWhere(raw, CreatedInSlot(from, to, camera, tz, s)) > 0 ::
              exists c :: c in out.cells && c.slot == s
  {
    hide Select, InWindow, Consistent, SumRows, CountWhere, SlotOf;
    var hits := Select(rows, InWindow(from, to, camera));
    var n: nat :| ShowsFirst(n, out, hits, tz);
    assert hits[..n] == hits;
    HeatmapTotalIsRawCount(rows, raw, from, to, camera);
    forall s ensures SumRows(hits, InSlot(s, tz)) == CountWhere(raw, CreatedInSlot(from, to, camera, tz, s)) {
      HeatmapCellIsRawCount(rows, raw, from, to, camera, tz, s);
    }
  }

  /** ... and so are the totals that HourTotals returns. */
  lemma HourTotalsAreRawCounts(perCamera: map<int, map<int, nat>>, rows: seq<Row>, raw: seq<Notification>,
                               hourStart: int, tz: int)
    requires hourStart > 0 && exists n: nat :: TotalsOfFirst(n, perCamera, Select(rows, InHistory(hourStart)), tz)
    requires |Select(rows, InHistory(hourStart))| <= MAX_ROWS
    requires Consistent(rows, raw) && Stamped(raw) && tz % 3600 == 0
    ensures forall camera, occurrence :: TotalAt(perCamera, camera, occurrence)
              == CountWhere(raw, CreatedInHour(hourStart - hourStart % 3600, camera, occurrence, tz))
  {
    hide Select, InHistory, Consistent, SumRows, CountWhere, TotalAt;
    var hits := Select(rows, InHistory(hourStart));
    var n: nat :| TotalsOfFirst(n, perCamera, hits, tz);
    assert hits[..n] == hits;
    forall camera, occurrence ensures TotalAt(perCamera, camera, occurrence)
      == CountWhere(raw, CreatedInHour(hourStart - hourStart % 3600, camera, occurrence, tz))
    {
      HourTotalIsRawCount(rows, raw, hourStart, tz, camera, occurrence);
    }
  }
}
