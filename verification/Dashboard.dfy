/** domain/notification/stats.go: the dashboard's numbers, from the rows of two adjoining windows. */
module Dashboard {
  import opened Clock
  import opened Query

  /** A notification, its texts without surrounding blanks. */
  datatype Row = Row(createdAt: int, category: string, severity: string)

  datatype Window = Window(from: int, to: int, size: int, tz: int)

  datatype TimeBucket = TimeBucket(start: int, total: nat, byCategory: map<string, nat>)

  datatype Board = Board(total: nat, prevTotal: nat, critical: nat, warning: nat, info: nat,
                         byCategory: map<string, nat>, bySeverity: map<string, nat>, series: seq<TimeBucket>)

  function CategoryOf(r: Row): string { if r.category == "" then "other" else r.category }

  function SeverityOf(r: Row): string { if r.severity == "" then "info" else r.severity }

  // ---- Counting ----

  ghost function Count(rows: seq<Row>, p: Row -> bool): nat {
    if rows == [] then 0 else Count(rows[..|rows| - 1], p) + if p(rows[|rows| - 1]) then 1 else 0
  }

  ghost function Earlier(w: Window): Row -> bool { (r: Row) => r.createdAt < w.from }

  ghost function Current(w: Window): Row -> bool { (r: Row) => w.from <= r.createdAt <= w.to }

  ghost function InBucket(w: Window, start: int): Row -> bool
    requires w.size > 0
  {
    (r: Row) => w.from <= r.createdAt <= w.to && ChartStart(r.createdAt, w.size, w.tz) == start
  }

  /** Rows at the very end of the window, where a bucket begins that the series does not have. */
  ghost predicate PastSeries(w: Window, c: int)
    requires w.size > 0
  {
    c == w.to && ChartStart(w.to, w.size, w.tz) == w.to
  }

  ghost function Outside(w: Window): Row -> bool
    requires w.size > 0
  {
    (r: Row) => w.from <= r.createdAt <= w.to && PastSeries(w, r.createdAt)
  }

  ghost function With(p: Row -> bool, key: Row -> string, k: string): Row -> bool {
    (r: Row) => p(r) && key(r) == k
  }

  lemma CountMore(rows: seq<Row>, r: Row, p: Row -> bool)
    ensures Count(rows + [r], p) == Count(rows, p) + if p(r) then 1 else 0
  {
    assert (rows + [r])[..|rows|] == rows;
  }

  // ---- Tallies ----

  function At(m: map<string, nat>, k: string): nat { if k in m then m[k] else 0 }

  function Bump(m: map<string, nat>, k: string): map<string, nat> { m[k := At(m, k) + 1] }

  ghost function Sum(m: map<string, nat>): nat {
    if m == map[] then 0
    else
      var k :| k in m;
      m[k] + Sum(m - {k})
  }

  lemma {:induction false} SumOf(m: map<string, nat>, k: string)
    requires k in m
    ensures Sum(m) == m[k] + Sum(m - {k})
    decreases |m|
  {
    var x :| x in m && Sum(m) == m[x] + Sum(m - {x});
    if x != k {
      SumOf(m - {x}, k);
      SumOf(m - {k}, x);
      assert m - {x} - {k} == m - {k} - {x};
    }
  }

  lemma SumBump(m: map<string, nat>, k: string)
    ensures Sum(Bump(m, k)) == Sum(m) + 1
  {
    SumOf(Bump(m, k), k);
    if k in m {
      SumOf(m, k);
      assert Bump(m, k) - {k} == m - {k};
    } else {
      assert Bump(m, k) - {k} == m;
    }
  }

  /** The tally holds each key's count among the rows selected, and adds up to all of them. */
  ghost predicate Tallied(m: map<string, nat>, rows: seq<Row>, p: Row -> bool, key: Row -> string) {
    (forall k :: At(m, k) == Count(rows, With(p, key, k))) && Sum(m) == Count(rows, p)
  }

  lemma TallyMore(m: map<string, nat>, rows: seq<Row>, r: Row, p: Row -> bool, key: Row -> string)
    requires Tallied(m, rows, p, key)
    ensures Tallied(if p(r) then Bump(m, key(r)) else m, rows + [r], p, key)
  {
    CountMore(rows, r, p);
    SumBump(m, key(r));
    forall k
      ensures At(if p(r) then Bump(m, key(r)) else m, k) == Count(rows + [r], With(p, key, k))
    {
      CountMore(rows, r, With(p, key, k));
      assert At(m, k) == Count(rows, With(p, key, k));
    }
  }

  // ---- The axis ----

  /** Bucket after bucket, from the one the window starts in up to its end. */
  ghost predicate Axis(series: seq<TimeBucket>, w: Window)
    requires w.size > 0
  {
    && (series != [] ==> series[0].start == ChartStart(w.from, w.size, w.tz))
    && (forall j | 0 < j < |series| :: series[j].start == series[j - 1].start + w.size)
  }

  function End(series: seq<TimeBucket>, w: Window): int
    requires w.size > 0
  {
    if series == [] then ChartStart(w.from, w.size, w.tz) else series[|series| - 1].start + w.size
  }

  ghost predicate Spans(series: seq<TimeBucket>, w: Window)
    requires w.size > 0
  {
    Axis(series, w) && w.to <= End(series, w) && forall b | b in series :: b.start < w.to
  }

  lemma {:induction false} Increasing(series: seq<TimeBucket>, w: Window, i: nat, j: nat)
    requires w.size > 0 && Axis(series, w) && i < j < |series|
    ensures series[i].start + w.size <= series[j].start
    decreases j
  {
    if i + 1 < j { Increasing(series, w, i, j - 1); }
  }

  lemma NextMultiple(a: int, size: int)
    requires size > 0 && a % size == 0
    ensures (a + size) % size == 0
  {
    Euclid(a + size, a / size + 1, 0, size);
  }

  lemma {:induction false} Aligned(series: seq<TimeBucket>, w: Window, j: nat)
    requires w.size > 0 && Axis(series, w) && j < |series|
    ensures (series[j].start + w.tz) % w.size == 0
    decreases j
  {
    OccurrenceFloors(w.from, w.size, w.tz);
    if j == 0 {
    } else {
      Aligned(series, w, j - 1);
      NextMultiple(series[j - 1].start + w.tz, w.size);
    }
  }

  lemma EndAligned(series: seq<TimeBucket>, w: Window)
    requires w.size > 0 && Axis(series, w)
    ensures (End(series, w) + w.tz) % w.size == 0
  {
    OccurrenceFloors(w.from, w.size, w.tz);
    if series != [] {
      Aligned(series, w, |series| - 1);
      NextMultiple(series[|series| - 1].start + w.tz, w.size);
    }
  }

  /** A bucket's start is the only aligned time within a bucket's length up to the time itself. */
  lemma StartIs(start: int, c: int, size: int, tz: int)
    requires size > 0 && (start + tz) % size == 0 && start <= c < start + size
    ensures ChartStart(c, size, tz) == start
  {
    OccurrenceFloors(c, size, tz);
    var o := OccurrenceKey(c, size, tz);
    Euclid(c + tz, o / size, c + tz - o, size);
    Euclid(c + tz, (start + tz) / size, c - start, size);
  }

  lemma {:induction false} Locate(series: seq<TimeBucket>, w: Window, n: nat, c: int) returns (j: nat)
    requires w.size > 0 && Axis(series, w) && 0 < n <= |series|
    requires series[0].start <= c < series[n - 1].start + w.size
    ensures j < n && series[j].start <= c < series[j].start + w.size
  {
    if n == 1 || series[n - 1].start <= c { j := n - 1; } else { j := Locate(series, w, n - 1, c); }
  }

  /** A time of the window is in exactly one bucket of the series, unless it is the window's end and
      begins a bucket: then it is in none. */
  lemma OneBucket(series: seq<TimeBucket>, w: Window, c: int)
    requires w.size > 0 && Spans(series, w) && w.from <= c <= w.to
    ensures (exists j :: 0 <= j < |series| && series[j].start == ChartStart(c, w.size, w.tz)) <==> !PastSeries(w, c)
    ensures forall i, j | 0 <= i < j < |series| :: series[i].start != series[j].start
  {
    forall i, j | 0 <= i < j < |series| ensures series[i].start != series[j].start {
      Increasing(series, w, i, j);
    }
    OccurrenceFloors(w.from, w.size, w.tz);
    OccurrenceFloors(c, w.size, w.tz);
    EndAligned(series, w);
    if PastSeries(w, c) {
      assert forall j | 0 <= j < |series| :: series[j] in series;
    } else {
      if c == End(series, w) { StartIs(c, c, w.size, w.tz); }
      var j := Locate(series, w, |series|, c);
      Aligned(series, w, j);
      StartIs(series[j].start, c, w.size, w.tz);
    }
  }

  // ---- The series ----

  ghost predicate Filled(b: TimeBucket, rows: seq<Row>, w: Window)
    requires w.size > 0
  {
    Tallied(b.byCategory, rows, InBucket(w, b.start), CategoryOf) && b.total == Count(rows, InBucket(w, b.start))
  }

  ghost function SumSeries(series: seq<TimeBucket>): nat {
    if series == [] then 0 else SumSeries(series[..|series| - 1]) + series[|series| - 1].total
  }

  /** Every bucket holds its rows, and together they hold all but those past the series. */
  ghost predicate SeriesHold(series: seq<TimeBucket>, rows: seq<Row>, w: Window)
    requires w.size > 0
  {
    && (forall b | b in series :: Filled(b, rows, w))
    && SumSeries(series) + Count(rows, Outside(w)) == Count(rows, Current(w))
  }

  lemma {:induction false} SumSeriesUpdate(series: seq<TimeBucket>, j: nat, b: TimeBucket)
    requires j < |series|
    ensures SumSeries(series[j := b]) == SumSeries(series) - series[j].total + b.total
  {
    var n := |series| - 1;
    if j < n {
      SumSeriesUpdate(series[..n], j, b);
      assert series[j := b][..n] == series[..n][j := b];
    } else {
      assert series[j := b][..n] == series[..n];
    }
  }

  function BumpBucket(b: TimeBucket, r: Row): TimeBucket {
    b.(total := b.total + 1, byCategory := Bump(b.byCategory, CategoryOf(r)))
  }

  lemma FilledMore(b: TimeBucket, rows: seq<Row>, r: Row, w: Window)
    requires w.size > 0 && Filled(b, rows, w)
    ensures Filled(if InBucket(w, b.start)(r) then BumpBucket(b, r) else b, rows + [r], w)
  {
    TallyMore(b.byCategory, rows, r, InBucket(w, b.start), CategoryOf);
    CountMore(rows, r, InBucket(w, b.start));
  }

  /** A row of the window whose bucket is in the series. */
  lemma SeriesMore(series: seq<TimeBucket>, rows: seq<Row>, r: Row, w: Window, j: nat)
    requires w.size > 0 && Spans(series, w) && SeriesHold(series, rows, w) && Current(w)(r)
    requires j < |series| && series[j].start == ChartStart(r.createdAt, w.size, w.tz)
    ensures SeriesHold(series[j := BumpBucket(series[j], r)], rows + [r], w)
  {
    hide Filled, Count, ChartStart;
    var after := series[j := BumpBucket(series[j], r)];
    OneBucket(series, w, r.createdAt);
    SumSeriesUpdate(series, j, BumpBucket(series[j], r));
    CountMore(rows, r, Outside(w));
    CountMore(rows, r, Current(w));
    forall i | 0 <= i < |after| ensures Filled(after[i], rows + [r], w) {
      assert series[i] in series;
      FilledMore(series[i], rows, r, w);
    }
  }

  /** A row that is not of the window, or past the series. */
  lemma SeriesSame(series: seq<TimeBucket>, rows: seq<Row>, r: Row, w: Window)
    requires w.size > 0 && Spans(series, w) && SeriesHold(series, rows, w)
    requires forall j | 0 <= j < |series| :: series[j].start != ChartStart(r.createdAt, w.size, w.tz) || !Current(w)(r)
    ensures SeriesHold(series, rows + [r], w)
  {
    hide Filled, Count, ChartStart;
    if Current(w)(r) { OneBucket(series, w, r.createdAt); }
    CountMore(rows, r, Outside(w));
    CountMore(rows, r, Current(w));
    forall b | b in series ensures Filled(b, rows + [r], w) {
      var j :| 0 <= j < |series| && series[j] == b;
      FilledMore(b, rows, r, w);
    }
  }

  // ---- The numbers ----

  /** What the dashboard says of the rows. */
  ghost predicate Shows(b: Board, rows: seq<Row>, w: Window)
    requires w.size > 0
  {
    && b.total == Count(rows, Current(w)) && b.prevTotal == Count(rows, Earlier(w))
    && Tallied(b.byCategory, rows, Current(w), CategoryOf)
    && Tallied(b.bySeverity, rows, Current(w), SeverityOf)
    && b.critical == At(b.bySeverity, "critical") && b.warning == At(b.bySeverity, "warning")
    && b.critical + b.warning + b.info == b.total
    && Spans(b.series, w) && SeriesHold(b.series, rows, w)
  }

  lemma SpansKept(series: seq<TimeBucket>, w: Window, j: nat, b: TimeBucket)
    requires w.size > 0 && Spans(series, w) && j < |series| && b.start == series[j].start
    ensures Spans(series[j := b], w)
  {
    forall x | x in series[j := b] ensures x.start < w.to {
      assert series[j] in series;
    }
  }

  /** The empty axis: buckets from the window's first on, while they begin before its end. */
  method Seed(w: Window) returns (series: seq<TimeBucket>, index: map<int, nat>)
    requires w.size > 0
    ensures Spans(series, w) && forall b | b in series :: b == TimeBucket(b.start, 0, map[])
    ensures Indexes(index, series)
  {
    series, index := [], map[];
    var start := ChartStart(w.from, w.size, w.tz);
    while start < w.to
      invariant Axis(series, w) && start == End(series, w)
      invariant forall b | b in series :: b == TimeBucket(b.start, 0, map[]) && b.start < start && b.start < w.to
      invariant Indexes(index, series)
      decreases w.to - start
    {
      hide ChartStart, Axis, Indexes, End;
      AxisMore(series, TimeBucket(start, 0, map[]), w);
      IndexMore(series, index, TimeBucket(start, 0, map[]));
      index := index[start := |series|];
      series := series + [TimeBucket(start, 0, map[])];
      start := start + w.size;
    }
  }

  lemma AxisMore(series: seq<TimeBucket>, b: TimeBucket, w: Window)
    requires w.size > 0 && Axis(series, w) && b.start == End(series, w)
    ensures Axis(series + [b], w) && End(series + [b], w) == b.start + w.size
  {
  }

  lemma IndexMore(series: seq<TimeBucket>, index: map<int, nat>, b: TimeBucket)
    requires Indexes(index, series) && forall x | x in series :: x.start < b.start
    ensures Indexes(index[b.start := |series|], series + [b])
  {
    var more, index' := series + [b], index[b.start := |series|];
    forall s | s in index' ensures index'[s] < |more| && more[index'[s]].start == s {
      if s != b.start { assert more[index[s]] == series[index[s]]; }
    }
    forall j | 0 <= j < |more| ensures more[j].start in index' {
      if j < |series| { assert more[j] == series[j]; }
    }
  }

  /** The index finds every bucket by its start. */
  ghost predicate Indexes(index: map<int, nat>, series: seq<TimeBucket>) {
    && (forall s | s in index :: index[s] < |series| && series[index[s]].start == s)
    && (forall j | 0 <= j < |series| :: series[j].start in index)
  }

  lemma {:induction false} EmptySeries(series: seq<TimeBucket>)
    requires forall b | b in series :: b.total == 0
    ensures SumSeries(series) == 0
  {
    if series == [] {
    } else {
      assert series[|series| - 1] in series;
      EmptySeries(series[..|series| - 1]);
    }
  }

  lemma NothingCounted(series: seq<TimeBucket>, w: Window)
    requires w.size > 0 && Spans(series, w) && forall b | b in series :: b == TimeBucket(b.start, 0, map[])
    ensures Shows(Board(0, 0, 0, 0, 0, map[], map[], series), [], w)
  {
    EmptySeries(series);
  }

  /** A row of the window goes to the bucket it begins in, if the series has it. */
  method AddToSeries(series0: seq<TimeBucket>, index: map<int, nat>, r: Row, w: Window, ghost read: seq<Row>)
    returns (series: seq<TimeBucket>)
    requires w.size > 0 && Current(w)(r)
    requires Indexes(index, series0) && Spans(series0, w) && SeriesHold(series0, read, w)
    ensures Indexes(index, series) && Spans(series, w) && SeriesHold(series, read + [r], w)
  {
    hide SeriesHold, Spans, ChartStart;
    series := series0;
    var start := ChartStart(r.createdAt, w.size, w.tz);
    if start in index {
      var j := index[start];
      SeriesMore(series, read, r, w, j);
      SpansKept(series, w, j, BumpBucket(series[j], r));
      series := series[j := BumpBucket(series[j], r)];
    } else {
      SeriesSame(series, read, r, w);
    }
  }

  /** The body of the loop over the rows. */
  method AddRow(b0: Board, index: map<int, nat>, r: Row, w: Window, ghost read: seq<Row>) returns (b: Board)
    requires w.size > 0 && Shows(b0, read, w) && Indexes(index, b0.series)
    ensures Shows(b, read + [r], w) && Indexes(index, b.series)
  {
    hide Tallied, SeriesHold, Spans, Count, Sum, Indexes;
    b := b0;
    CountMore(read, r, Current(w));
    CountMore(read, r, Earlier(w));
    TallyMore(b.byCategory, read, r, Current(w), CategoryOf);
    TallyMore(b.bySeverity, read, r, Current(w), SeverityOf);
    if r.createdAt < w.from {
      SeriesSame(b.series, read, r, w);
      return b.(prevTotal := b.prevTotal + 1);
    }
    if r.createdAt > w.to {
      SeriesSame(b.series, read, r, w);
      return;
    }
    var series := AddToSeries(b.series, index, r, w, read);
    b := b.(total := b.total + 1, byCategory := Bump(b.byCategory, CategoryOf(r)), series := series);
    var sev := SeverityOf(r);
    b := b.(bySeverity := Bump(b.bySeverity, sev));
    match sev
    case "critical" => b := b.(critical := b.critical + 1);
    case "warning" => b := b.(warning := b.warning + 1);
    case _ => b := b.(info := b.info + 1);
  }

  /** The loop over the rows. */
  method Tally(rows: seq<Row>, w: Window) returns (b: Board)
    requires w.size > 0
    ensures Shows(b, rows, w)
  {
    hide Shows, Indexes, Spans;
    var series, index := Seed(w);
    NothingCounted(series, w);
    b := Board(0, 0, 0, 0, 0, map[], map[], series);
    assert rows[..0] == [];
    for i := 0 to |rows|
      invariant Shows(b, rows[..i], w) && Indexes(index, b.series)
    {
      b := AddRow(b, index, rows[i], w, rows[..i]);
      assert rows[..i] + [rows[i]] == rows[..i + 1];
    }
    assert rows[..|rows|] == rows;
  }

  // ---- The query ----

  /** A row goes behind all that are no newer. */
  function Insert(rows: seq<Row>, r: Row): seq<Row> {
    if rows == [] || rows[|rows| - 1].createdAt <= r.createdAt then rows + [r]
    else Insert(rows[..|rows| - 1], r) + [rows[|rows| - 1]]
  }

  /** The rows of the table in [lo, hi], oldest first. */
  function Hits(table: seq<Row>, lo: int, hi: int): seq<Row> {
    if table == [] then []
    else
      var hits, r := Hits(table[..|table| - 1], lo, hi), table[|table| - 1];
      if lo <= r.createdAt <= hi then Insert(hits, r) else hits
  }

  ghost predicate Sorted(rows: seq<Row>) {
    forall i, j | 0 <= i < j < |rows| :: rows[i].createdAt <= rows[j].createdAt
  }

  lemma {:induction false} InsertSorts(rows: seq<Row>, r: Row)
    requires Sorted(rows)
    ensures Sorted(Insert(rows, r)) && forall x | x in Insert(rows, r) :: x in rows || x == r
  {
    if rows == [] || rows[|rows| - 1].createdAt <= r.createdAt {
    } else {
      var front, last := rows[..|rows| - 1], rows[|rows| - 1];
      InsertSorts(front, r);
      assert forall x | x in front :: x.createdAt <= last.createdAt;
      assert forall k | 0 <= k < |Insert(front, r)| :: Insert(front, r)[k] in Insert(front, r);
    }
  }

  lemma {:induction false} HitsSorted(table: seq<Row>, lo: int, hi: int)
    ensures Sorted(Hits(table, lo, hi))
  {
    if table == [] {
    } else {
      HitsSorted(table[..|table| - 1], lo, hi);
      InsertSorts(Hits(table[..|table| - 1], lo, hi), table[|table| - 1]);
    }
  }

  /** A fetch that stops at the row limit leaves out the newest rows. */
  lemma OldestAreRead(table: seq<Row>, lo: int, hi: int, n: nat)
    requires n <= |Hits(table, lo, hi)|
    ensures forall r, x | r in Hits(table, lo, hi)[..n] && x in Hits(table, lo, hi)[n..] :: r.createdAt <= x.createdAt
  {
    HitsSorted(table, lo, hi);
  }

  lemma {:induction false} CountInsert(rows: seq<Row>, r: Row, p: Row -> bool)
    ensures Count(Insert(rows, r), p) == Count(rows, p) + if p(r) then 1 else 0
  {
    if rows == [] || rows[|rows| - 1].createdAt <= r.createdAt {
      CountMore(rows, r, p);
    } else {
      CountInsert(rows[..|rows| - 1], r, p);
      CountMore(Insert(rows[..|rows| - 1], r), rows[|rows| - 1], p);
    }
  }

  lemma {:induction false} CountHits(table: seq<Row>, lo: int, hi: int, p: Row -> bool, q: Row -> bool)
    requires forall r: Row :: p(r) <==> q(r) && lo <= r.createdAt <= hi
    ensures Count(Hits(table, lo, hi), q) == Count(table, p)
  {
    if table == [] {
    } else {
      var front, r := table[..|table| - 1], table[|table| - 1];
      CountHits(front, lo, hi, p, q);
      if lo <= r.createdAt <= hi { CountInsert(Hits(front, lo, hi), r, q); }
    }
  }

  /** fetchWindow: whatever the size of its pages, it returns every row up to the row limit. */
  method FetchWindow(table: seq<Row>, lo: int, hi: int) returns (all: seq<Row>)
    ensures var hits := Hits(table, lo, hi);
            Drained(|all|, |hits|) && all == hits[..|all|]
  {
    var hits := Hits(table, lo, hi);
    var offset := 0;
    all := [];
    while true
      invariant offset == |all| && all <= hits
      decreases |hits| - offset
    {
      var page, total := GetPage(hits, offset);
      assert all + page <= hits by { assert all == hits[..offset]; }
      all := all + page;
      offset := offset + |page|;
      if |page| == 0 || offset >= total || |all| >= MAX_ROWS { break; }
    }
  }

  function WindowOf(from: int, to: int, bucketSeconds: int, tz: int): Window {
    Window(LowerBound(from), UpperBound(to), if bucketSeconds <= 0 then DAY else bucketSeconds, tz)
  }

  /** Where the preceding window of equal length begins. */
  function PrevFrom(w: Window): int { LowerBound(w.from - (w.to - w.from)) }

  ghost function Preceding(w: Window): Row -> bool { (r: Row) => PrevFrom(w) <= r.createdAt < w.from }

  ghost predicate ShowsFirst(n: nat, b: Board, hits: seq<Row>, w: Window)
    requires w.size > 0
  {
    Drained(n, |hits|) && Shows(b, hits[..n], w)
  }

  /** Stats, over the rows that the query returns up to its limit. */
  method Stats(table: seq<Row>, from: int, to: int, bucketSeconds: int, tz: int) returns (b: Board)
    ensures var w := WindowOf(from, to, bucketSeconds, tz);
            exists n: nat :: ShowsFirst(n, b, Hits(table, PrevFrom(w), w.to), w)
  {
    var w := WindowOf(from, to, bucketSeconds, tz);
    var all := FetchWindow(table, PrevFrom(w), w.to);
    b := Tally(all, w);
    assert ShowsFirst(|all|, b, Hits(table, PrevFrom(w), w.to), w);
  }

  /** Within the row limit nothing is lost or counted twice by the board that Stats returns: the
      totals are those of the table, its categories, its severities and its series each add up to the
      total, save what lies past the series. */
  lemma NothingLost(b: Board, table: seq<Row>, w: Window)
    requires w.size > 0 && 0 <= w.from && |Hits(table, PrevFrom(w), w.to)| <= MAX_ROWS
    requires exists n: nat :: ShowsFirst(n, b, Hits(table, PrevFrom(w), w.to), w)
    ensures b.total == Count(table, Current(w)) && b.prevTotal == Count(table, Preceding(w))
    ensures Sum(b.byCategory) == Sum(b.bySeverity) == b.critical + b.warning + b.info == b.total
    ensures SumSeries(b.series) == b.total - Count(table, Outside(w))
    ensures forall k :: At(b.byCategory, k) == Count(table, With(Current(w), CategoryOf, k))
  {
    hide Sum, SumSeries, Spans, PastSeries, Count, Hits;
    var lo := PrevFrom(w);
    var hits := Hits(table, lo, w.to);
    var n: nat :| ShowsFirst(n, b, hits, w);
    assert hits[..n] == hits;
    CountHits(table, lo, w.to, Current(w), Current(w));
    CountHits(table, lo, w.to, Preceding(w), Earlier(w));
    CountHits(table, lo, w.to, Outside(w), Outside(w));
    forall k ensures At(b.byCategory, k) == Count(table, With(Current(w), CategoryOf, k)) {
      CountHits(table, lo, w.to, With(Current(w), CategoryOf, k), With(Current(w), CategoryOf, k));
    }
  }

  // ---- The board in terms of what was asked for ----

  /** Made at one of these times, both included. */
  ghost function Made(lo: int, hi: int): Row -> bool { (r: Row) => lo <= r.createdAt <= hi }

  /** Made in the window, and in a bucket, which does not include its end. */
  ghost function MadeIn(lo: int, hi: int, start: int, size: int): Row -> bool {
    (r: Row) => lo <= r.createdAt <= hi && start <= r.createdAt < start + size
  }

  function CategoryGiven(r: Row): string { r.category }

  function SeverityGiven(r: Row): string { r.severity }

  /** Of the kind `k`, a row that tells none being of the kind `none`. */
  ghost function OfKind(p: Row -> bool, kind: Row -> string, k: string, none: string): Row -> bool {
    (r: Row) => p(r) && (kind(r) == k || (kind(r) == "" && k == none))
  }

  ghost predicate CountsKinds(m: map<string, nat>, table: seq<Row>, p: Row -> bool, kind: Row -> string, none: string) {
    At(m, "") == 0 && forall k | k != "" :: At(m, k) == Count(table, OfKind(p, kind, k, none))
  }

  /** The buckets follow one another from the start of the window to its end, each beginning at a multiple
      of its length in local time, and each holding the rows of the window made in it. */
  ghost predicate ChartSays(series: seq<TimeBucket>, table: seq<Row>, lo: int, hi: int, size: int, tz: int)
    requires size > 0
  {
    && AxisSays(series, lo, hi, size, tz)
    && forall j | 0 <= j < |series| ::
         && series[j].total == Count(table, MadeIn(lo, hi, series[j].start, size))
         && CountsKinds(series[j].byCategory, table, MadeIn(lo, hi, series[j].start, size), CategoryGiven, "other")
  }

  ghost predicate AxisSays(series: seq<TimeBucket>, lo: int, hi: int, size: int, tz: int)
    requires size > 0
  {
    && (series == [] ==> hi <= lo)
    && (series != [] ==>
          && series[0].start <= lo < series[0].start + size
          && series[|series| - 1].start < hi <= series[|series| - 1].start + size)
    && (forall j | 0 < j < |series| :: series[j].start == series[j - 1].start + size)
    && forall j | 0 <= j < |series| :: (series[j].start + tz) % size == 0
  }

  /** What is asked for: no beginning means the beginning of time, no end that there is none, and no
      length of bucket a day. */
  datatype Asked = Asked(lo: int, hi: int, size: int)

  predicate AskedFor(a: Asked, from: int, to: int, bucketSeconds: int) {
    && (if from < 0 then a.lo == 0 else a.lo == from)
    && (if to <= 0 then a.hi == 0x3FFF_FFFF_FFFF_FFFF else a.hi == to)
    && (if bucketSeconds <= 0 then a.size == 24 * 60 * 60 else a.size == bucketSeconds)
  }

  /** The board that Stats returns, in terms of its arguments and the table, within the row limit. */
  lemma BoardSays(b: Board, table: seq<Row>, from: int, to: int, bucketSeconds: int, tz: int, a: Asked)
    requires AskedFor(a, from, to, bucketSeconds)
    requires var w := WindowOf(from, to, bucketSeconds, tz);
             && |Hits(table, PrevFrom(w), w.to)| <= MAX_ROWS
             && exists n: nat :: ShowsFirst(n, b, Hits(table, PrevFrom(w), w.to), w)
    ensures TotalsSay(b, table, a.lo, a.hi) && ChartSays(b.series, table, a.lo, a.hi, a.size, tz)
  {
    var w := WindowOf(from, to, bucketSeconds, tz);
    var hits := Hits(table, PrevFrom(w), w.to);
    var n: nat :| ShowsFirst(n, b, hits, w);
    assert hits[..n] == hits;
    TotalsOfTable(b, table, w);
    ChartOfTable(b.series, table, w);
  }

  ghost predicate TotalsSay(b: Board, table: seq<Row>, lo: int, hi: int) {
    var p, before := Made(lo, hi), Made(if 2 * lo - hi < 0 then 0 else 2 * lo - hi, lo - 1);
    && b.total == Count(table, p) && b.prevTotal == Count(table, before)
    && CountsKinds(b.byCategory, table, p, CategoryGiven, "other")
    && CountsKinds(b.bySeverity, table, p, SeverityGiven, "info")
    && b.critical == Count(table, OfKind(p, SeverityGiven, "critical", "info"))
    && b.warning == Count(table, OfKind(p, SeverityGiven, "warning", "info"))
    && b.critical + b.warning + b.info == b.total
  }

  lemma TotalsOfTable(b: Board, table: seq<Row>, w: Window)
    requires w.size > 0 && 0 <= w.from && Shows(b, Hits(table, PrevFrom(w), w.to), w)
    ensures TotalsSay(b, table, w.from, w.to)
  {
    hide Count, Hits, Sum, SeriesHold, Spans, OfKind, With, Tallied;
    CountHits(table, PrevFrom(w), w.to, Made(w.from, w.to), Current(w));
    CountHits(table, PrevFrom(w), w.to, Made(PrevFrom(w), w.from - 1), Earlier(w));
    KindsOfTable(b.byCategory, table, w, Current(w), Made(w.from, w.to), CategoryOf, CategoryGiven, "other");
    KindsOfTable(b.bySeverity, table, w, Current(w), Made(w.from, w.to), SeverityOf, SeverityGiven, "info");
  }

  lemma KindsOfTable(m: map<string, nat>, table: seq<Row>, w: Window, q: Row -> bool, p: Row -> bool,
                     key: Row -> string, kind: Row -> string, none: string)
    requires Tallied(m, Hits(table, PrevFrom(w), w.to), q, key) && none != ""
    requires forall r: Row :: p(r) <==> q(r) && PrevFrom(w) <= r.createdAt <= w.to
    requires forall r: Row :: key(r) == if kind(r) == "" then none else kind(r)
    ensures CountsKinds(m, table, p, kind, none)
  {
    hide Count, Hits, Sum;
    forall k: string ensures k != "" ==> At(m, k) == Count(table, OfKind(p, kind, k, none)) {
      if k != "" { CountHits(table, PrevFrom(w), w.to, OfKind(p, kind, k, none), With(q, key, k)); }
    }
    NoneCounted(Hits(table, PrevFrom(w), w.to), With(q, key, ""));
  }

  lemma {:induction false} NoneCounted(rows: seq<Row>, p: Row -> bool)
    requires forall r :: !p(r)
    ensures Count(rows, p) == 0
  {
    if rows == [] {
    } else {
      NoneCounted(rows[..|rows| - 1], p);
    }
  }

  lemma ChartOfTable(series: seq<TimeBucket>, table: seq<Row>, w: Window)
    requires w.size > 0 && 0 <= w.from && Spans(series, w) && SeriesHold(series, Hits(table, PrevFrom(w), w.to), w)
    ensures ChartSays(series, table, w.from, w.to, w.size, w.tz)
  {
    AxisOfTable(series, w);
    hide Spans, CountsKinds, Count, Hits, Filled, Made, MadeIn;
    forall j | 0 <= j < |series|
      ensures series[j].total == Count(table, MadeIn(w.from, w.to, series[j].start, w.size))
      ensures CountsKinds(series[j].byCategory, table, MadeIn(w.from, w.to, series[j].start, w.size),
                          CategoryGiven, "other")
    {
      assert series[j] in series;
      BucketOfTable(series[j], table, w);
    }
  }

  lemma AxisOfTable(series: seq<TimeBucket>, w: Window)
    requires w.size > 0 && Spans(series, w)
    ensures AxisSays(series, w.from, w.to, w.size, w.tz)
  {
    BucketHolds(w.from, w.size, w.tz);
    forall j | 0 <= j < |series| ensures (series[j].start + w.tz) % w.size == 0 { Aligned(series, w, j); }
    assert series != [] ==> series[|series| - 1] in series;
    hide ChartStart;
  }

  lemma BucketOfTable(b: TimeBucket, table: seq<Row>, w: Window)
    requires w.size > 0 && 0 <= w.from && (b.start + w.tz) % w.size == 0
    requires Filled(b, Hits(table, PrevFrom(w), w.to), w)
    ensures b.total == Count(table, MadeIn(w.from, w.to, b.start, w.size))
    ensures CountsKinds(b.byCategory, table, MadeIn(w.from, w.to, b.start, w.size), CategoryGiven, "other")
  {
    hide Count, Hits, Sum, ChartStart;
    var p, q := MadeIn(w.from, w.to, b.start, w.size), InBucket(w, b.start);
    forall r: Row ensures p(r) <==> q(r) && PrevFrom(w) <= r.createdAt <= w.to {
      if p(r) { StartIs(b.start, r.createdAt, w.size, w.tz); }
      BucketHolds(r.createdAt, w.size, w.tz);
    }
    CountHits(table, PrevFrom(w), w.to, p, q);
    KindsOfTable(b.byCategory, table, w, q, p, CategoryOf, CategoryGiven, "other");
  }

  lemma BucketHolds(c: int, size: int, tz: int)
    requires size > 0
    ensures ChartStart(c, size, tz) <= c < ChartStart(c, size, tz) + size
  {
    OccurrenceFloors(c, size, tz);
  }
}
