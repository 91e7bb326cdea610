/** infra/logging/logger.go: which file a log line goes to, over size caps, days and restarts. */
module LogRotation {
  import opened Bytes

  type Line = seq<Byte>

  /** The sequenced file of a day; LogNames shows that no two share a name. */
  type Key = (int, nat)

  type Disk = map<Key, seq<Line>>

  /** Each line is followed by a newline. */
  function Size(lines: seq<Line>): nat {
    if lines == [] then 0 else Size(lines[..|lines| - 1]) + |lines[|lines| - 1]| + 1
  }

  datatype Active = Closed | Open(day: int, seqNo: nat, size: nat)

  /** A running logger and its directory; a cap of 0 is no cap. */
  datatype State = State(disk: Disk, active: Active, cap: nat)

  function CapOf(megabytes: int): nat { if megabytes <= 0 then 0 else megabytes * 1024 * 1024 }

  // ---- Choosing the file ----

  function Later(disk: Disk, day: int, i: nat): set<Key> {
    set k | k in disk && k.0 == day && k.1 >= i
  }

  function Highest(disk: Disk, day: int, cap: nat, i: nat): nat
    decreases Later(disk, day, i)
  {
    if (day, i) !in disk || Size(disk[(day, i)]) < cap then i
    else
      assert (day, i) in Later(disk, day, i) && (day, i) !in Later(disk, day, i + 1);
      Highest(disk, day, cap, i + 1)
  }

  function Target(s: State, day: int): nat {
    if s.active.Open? && s.active.day == day then
      if s.cap == 0 || s.active.size < s.cap then s.active.seqNo else s.active.seqNo + 1
    else if s.cap > 0 then Highest(s.disk, day, s.cap, 0)
    else 0
  }

  function FileOf(disk: Disk, k: Key): seq<Line> { if k in disk then disk[k] else [] }

  /** ensureActiveFileLocked: the active file stays, or the target is opened, and created if absent. */
  function Ensure(s: State, day: int): State {
    var i := Target(s, day);
    if s.active.Open? && s.active.day == day && i == s.active.seqNo then s
    else
      var lines := FileOf(s.disk, (day, i));
      State(s.disk[(day, i) := lines], Open(day, i, Size(lines)), s.cap)
  }

  function Append(s: State, line: Line): State
    requires s.active.Open?
  {
    var k := (s.active.day, s.active.seqNo);
    State(s.disk[k := FileOf(s.disk, k) + [line]], s.active.(size := s.active.size + |line| + 1), s.cap)
  }

  datatype Op = Start(cap: nat, today: int) | Write(day: int, line: Line)

  function Next(s: State, op: Op): State {
    match op
    case Start(cap, day) => Ensure(State(s.disk, Closed, cap), day)
    case Write(day, line) => Append(Ensure(s, day), line)
  }

  function Run(ops: seq<Op>): State {
    if ops == [] then State(map[], Closed, 0) else Next(Run(ops[..|ops| - 1]), ops[|ops| - 1])
  }

  /** The lines written on a day, in order. */
  function Written(ops: seq<Op>, day: int): seq<Line> {
    if ops == [] then []
    else
      var op := ops[|ops| - 1];
      Written(ops[..|ops| - 1], day) + if op.Write? && op.day == day then [op.line] else []
  }

  // ---- The invariant of a day's files ----

  /** The first `n` files of a day, one after the other. */
  function Text(disk: Disk, day: int, n: nat): seq<Line> {
    if n == 0 then [] else Text(disk, day, n - 1) + FileOf(disk, (day, n - 1))
  }

  ghost predicate Contiguous(disk: Disk, day: int, n: nat) {
    forall j: nat :: (day, j) in disk <==> j < n
  }

  /** Every file but the last has reached the cap, so that no restart picks it again. */
  ghost predicate Sealed(disk: Disk, day: int, n: nat, cap: nat) {
    forall j: nat | j + 1 < n :: cap > 0 && Size(FileOf(disk, (day, j))) >= cap
  }

  /** The open file is the last of its day, and its size is known. */
  ghost predicate LastIsActive(s: State, day: int, n: nat) {
    s.active.Open? && s.active.day == day ==>
      n == s.active.seqNo + 1 && s.active.size == Size(FileOf(s.disk, (day, n - 1)))
  }

  /** A day's files are numbered 0 to n - 1 and hold its lines in the order of writing. */
  ghost predicate DayInv(s: State, day: int, n: nat, lines: seq<Line>) {
    && Contiguous(s.disk, day, n)
    && Text(s.disk, day, n) == lines
    && Sealed(s.disk, day, n, s.cap)
    && LastIsActive(s, day, n)
  }

  lemma {:induction false} HighestIsLast(disk: Disk, day: int, cap: nat, i: nat, n: nat)
    requires cap > 0 && i <= n && Contiguous(disk, day, n) && Sealed(disk, day, n, cap)
    ensures Highest(disk, day, cap, i)
            == if i < n && Size(FileOf(disk, (day, n - 1))) < cap then n - 1 else n
    decreases n - i
  {
    if i < n && Size(disk[(day, i)]) >= cap { HighestIsLast(disk, day, cap, i + 1, n); }
  }

  lemma {:induction false} TextSame(disk: Disk, other: Disk, day: int, n: nat)
    requires forall j: nat | j < n :: FileOf(disk, (day, j)) == FileOf(other, (day, j))
    ensures Text(disk, day, n) == Text(other, day, n)
  {
    if n == 0 {
    } else {
      TextSame(disk, other, day, n - 1);
    }
  }

  /** The target is the last file, if that has room, or a new one behind it. */
  lemma TargetIsLast(s: State, day: int, n: nat, lines: seq<Line>)
    requires DayInv(s, day, n, lines)
    ensures var i := Target(s, day);
            || (i == n && (n > 0 ==> s.cap > 0 && Size(FileOf(s.disk, (day, n - 1))) >= s.cap))
            || (i == n - 1 && (s.cap > 0 ==> Size(FileOf(s.disk, (day, n - 1))) < s.cap))
  {
    if !(s.active.Open? && s.active.day == day) && s.cap > 0 {
      HighestIsLast(s.disk, day, s.cap, 0, n);
    } else if n > 1 && s.cap == 0 {
      NoCapOneFile(s.disk, day, n);
    }
  }

  lemma NoCapOneFile(disk: Disk, day: int, n: nat)
    requires n > 1
    ensures !Sealed(disk, day, n, 0)
  {
    assert FileOf(disk, (day, 0)) == FileOf(disk, (day, 0));
  }

  lemma EnsureStep(s: State, today: int, day: int, n: nat, lines: seq<Line>) returns (m: nat)
    requires DayInv(s, day, n, lines)
    ensures DayInv(Ensure(s, today), day, m, lines)
    ensures day == today ==>
              var a := Ensure(s, today).active;
              a.Open? && a.day == day && m == a.seqNo + 1 && (s.cap > 0 ==> a.size < s.cap)
  {
    m := n;
    if day == today {
      TargetIsLast(s, day, n, lines);
      m := Target(s, day) + 1;
      var t := Ensure(s, day);
      TextSame(s.disk, t.disk, day, n);
      assert m == n + 1 ==> Text(t.disk, day, m) == Text(t.disk, day, n) + [];
    } else {
      TextSame(s.disk, Ensure(s, today).disk, day, n);
    }
  }

  /** A restart may lower the cap, or set one where there was none. */
  predicate Tightens(before: nat, cap: nat) { before == 0 || 0 < cap <= before }

  lemma AppendStep(s: State, line: Line, n: nat, lines: seq<Line>)
    requires s.active.Open? && DayInv(s, s.active.day, n, lines)
    ensures DayInv(Append(s, line), s.active.day, n, lines + [line])
  {
    hide Size;
    var day, t := s.active.day, Append(s, line);
    var file := FileOf(s.disk, (day, n - 1));
    SizeOfMore(file, line);
    TextSame(s.disk, t.disk, day, n - 1);
    assert Text(s.disk, day, n - 1) + (file + [line]) == lines + [line];
  }

  lemma AppendElsewhere(s: State, line: Line, day: int, n: nat, lines: seq<Line>)
    requires s.active.Open? && s.active.day != day && DayInv(s, day, n, lines)
    ensures DayInv(Append(s, line), day, n, lines)
  {
    TextSame(s.disk, Append(s, line).disk, day, n);
  }

  lemma SizeOfMore(file: seq<Line>, line: Line)
    ensures Size(file + [line]) == Size(file) + |line| + 1
  {
    assert (file + [line])[..|file|] == file;
  }

  lemma DayStep(s: State, op: Op, day: int, n: nat, lines: seq<Line>) returns (m: nat)
    requires DayInv(s, day, n, lines) && (op.Start? ==> Sealed(s.disk, day, n, op.cap))
    ensures DayInv(Next(s, op), day, m, lines + if op.Write? && op.day == day then [op.line] else [])
  {
    match op
    case Start(cap, today) =>
      m := EnsureStep(State(s.disk, Closed, cap), today, day, n, lines);
      assert lines + [] == lines;
    case Write(today, line) =>
      m := EnsureStep(s, today, day, n, lines);
      if day == today {
        AppendStep(Ensure(s, today), line, m, lines);
      } else {
        AppendElsewhere(Ensure(s, today), line, day, m, lines);
        assert lines + [] == lines;
      }
  }

  // ---- Whole runs ----

  /** No restart raises the cap or lifts it. */
  predicate NeverRaised(ops: seq<Op>) {
    ops != [] ==>
      var p, op := ops[..|ops| - 1], ops[|ops| - 1];
      NeverRaised(p) && (op.Start? ==> Tightens(Run(p).cap, op.cap))
  }

  ghost predicate SealedUnder(disk: Disk, day: int, cap: nat) {
    forall n | Contiguous(disk, day, n) :: Sealed(disk, day, n, cap)
  }

  /** Whenever the logger starts, all the day's files but the last have reached the new cap. */
  ghost predicate SealedRestarts(ops: seq<Op>, day: int) {
    ops != [] ==>
      var p, op := ops[..|ops| - 1], ops[|ops| - 1];
      SealedRestarts(p, day) && (op.Start? ==> SealedUnder(Run(p).disk, day, op.cap))
  }

  /** Over any such restarts, in any order of days: a day's files are 0 to some k, and read one after the
      other they are the day's lines in the order they were written. */
  lemma {:induction false} OrderKept(ops: seq<Op>, day: int) returns (n: nat)
    requires SealedRestarts(ops, day)
    ensures DayInv(Run(ops), day, n, Written(ops, day))
  {
    if ops == [] {
      n := 0;
    } else {
      var p, op := ops[..|ops| - 1], ops[|ops| - 1];
      n := OrderKept(p, day);
      n := DayStep(Run(p), op, day, n, Written(p, day));
    }
  }

  lemma OneLength(disk: Disk, day: int, n: nat, m: nat)
    requires Contiguous(disk, day, n) && Contiguous(disk, day, m)
    ensures n == m
  {
    assert (day, n) in disk <==> n < m;
    assert (day, m) in disk <==> m < n;
  }

  /** Caps that are never raised will do, for every day. */
  lemma {:induction false} NeverRaisedIsSealed(ops: seq<Op>, day: int)
    requires NeverRaised(ops)
    ensures SealedRestarts(ops, day)
  {
    if ops == [] {
    } else {
      var p, op := ops[..|ops| - 1], ops[|ops| - 1];
      NeverRaisedIsSealed(p, day);
      if op.Start? {
        var n := OrderKept(p, day);
        forall m | Contiguous(Run(p).disk, day, m) ensures Sealed(Run(p).disk, day, m, op.cap) {
          OneLength(Run(p).disk, day, n, m);
          SealedBelow(Run(p).disk, day, n, Run(p).cap, op.cap);
        }
      }
    }
  }

  lemma SealedBelow(disk: Disk, day: int, n: nat, before: nat, cap: nat)
    requires Sealed(disk, day, n, before) && Tightens(before, cap)
    ensures Sealed(disk, day, n, cap)
  {
    hide Size, FileOf;
    forall j: nat | j + 1 < n ensures cap > 0 && Size(FileOf(disk, (day, j))) >= cap {
      var size := Size(FileOf(disk, (day, j)));
    }
  }

  // ---- Restarts ----

  lemma {:induction false} HighestStopsEarly(disk: Disk, day: int, cap: nat, i: nat, j: nat)
    requires i <= j && Size(FileOf(disk, (day, j))) < cap
    ensures Highest(disk, day, cap, i) <= j
    decreases j - i
  {
    if i < j && (day, i) in disk && Size(disk[(day, i)]) >= cap { HighestStopsEarly(disk, day, cap, i + 1, j); }
  }

  /** After a restart with any cap the next line of a day goes behind all its lines exactly when every
      file but the last has reached that cap. */
  lemma RestartAppends(s: State, cap: nat, day: int, n: nat)
    requires Contiguous(s.disk, day, n)
    ensures Target(State(s.disk, Closed, cap), day) >= n - 1 <==> Sealed(s.disk, day, n, cap)
  {
    if cap > 0 && Sealed(s.disk, day, n, cap) {
      HighestIsLast(s.disk, day, cap, 0, n);
    } else if cap > 0 {
      var j: nat :| j + 1 < n && Size(FileOf(s.disk, (day, j))) < cap;
      HighestStopsEarly(s.disk, day, cap, 0, j);
    } else if n > 1 {
      assert (0 + 1) < n && FileOf(s.disk, (day, 0)) == s.disk[(day, 0)];
    }
  }

  /** A start, and lines written on one day. */
  function Filling(cap: nat, lines: seq<Line>, day: int): seq<Op> {
    if lines == [] then [Start(cap, day)]
    else Filling(cap, lines[..|lines| - 1], day) + [Write(day, lines[|lines| - 1])]
  }

  lemma RunMore(ops: seq<Op>, op: Op, day: int)
    ensures Run(ops + [op]) == Next(Run(ops), op)
    ensures Written(ops + [op], day) == Written(ops, day) + if op.Write? && op.day == day then [op.line] else []
  {
    assert (ops + [op])[..|ops|] == ops;
  }

  /** The first file of a day, alone on disk and active. */
  function Alone(day: int, lines: seq<Line>, cap: nat): State {
    State(map[(day, 0) := lines], Open(day, 0, Size(lines)), cap)
  }

  lemma FirstStart(cap: nat, day: int)
    requires cap > 0
    ensures Run([Start(cap, day)]) == Alone(day, [], cap)
    ensures Written([Start(cap, day)], day) == []
  {
    RunMore([], Start(cap, day), day);
    assert [] + [Start(cap, day)] == [Start(cap, day)];
  }

  lemma NextInFirst(lines: seq<Line>, line: Line, day: int, cap: nat)
    requires Size(lines) < cap
    ensures Next(Alone(day, lines, cap), Write(day, line)) == Alone(day, lines + [line], cap)
  {
    SizeOfMore(lines, line);
  }

  lemma NextInSecond(first: seq<Line>, second: Line, day: int, cap: nat)
    requires 0 < cap <= Size(first)
    ensures Next(Alone(day, first, cap), Write(day, second))
            == State(map[(day, 0) := first, (day, 1) := [second]], Open(day, 1, |second| + 1), cap)
  {
    var s := Alone(day, first, cap);
    assert Ensure(s, day) == State(map[(day, 0) := first, (day, 1) := []], Open(day, 1, 0), cap);
    assert [] + [second] == [second];
  }

  lemma FrontIsSmaller(lines: seq<Line>)
    requires lines != []
    ensures Size(lines[..|lines| - 1]) < Size(lines)
  {
  }

  /** Lines that all but the last keep below the cap fill the first file of a day. */
  lemma {:induction false} FillFirst(cap: nat, lines: seq<Line>, day: int)
    requires cap > 0 && (lines == [] || Size(lines[..|lines| - 1]) < cap)
    ensures Run(Filling(cap, lines, day)) == Alone(day, lines, cap)
    ensures Written(Filling(cap, lines, day), day) == lines
  {
    hide Run, Written, Next, Alone, Size;
    if lines == [] {
      FirstStart(cap, day);
    } else {
      var front, last := lines[..|lines| - 1], lines[|lines| - 1];
      if front != [] { FrontIsSmaller(front); }
      FillFirst(cap, front, day);
      RunMore(Filling(cap, front, day), Write(day, last), day);
      NextInFirst(front, last, day, cap);
      assert front + [last] == lines;
    }
  }

  /** A full first file, and a line in the second. */
  function TwoFiles(cap: nat, first: seq<Line>, second: Line, day: int): seq<Op> {
    Filling(cap, first, day) + [Write(day, second)]
  }

  lemma TwoFilesAre(cap: nat, first: seq<Line>, second: Line, day: int)
    requires first != [] && Size(first[..|first| - 1]) < cap <= Size(first)
    ensures var ops := TwoFiles(cap, first, second, day);
            && Run(ops) == State(map[(day, 0) := first, (day, 1) := [second]], Open(day, 1, |second| + 1), cap)
            && Written(ops, day) == first + [second]
  {
    hide Run, Written, Filling, Alone, Size;
    FillFirst(cap, first, day);
    NextInSecond(first, second, day, cap);
    RunMore(Filling(cap, first, day), Write(day, second), day);
  }

  /** Raising the cap between restarts does break the order: once a file filled under the lower cap is
      below the higher one, the next line goes to it, past the lines of the file behind it. */
  lemma RaisedCapReorders(before: nat, after: nat, first: seq<Line>, second: Line, third: Line, day: int)
    requires first != [] && Size(first[..|first| - 1]) < before <= Size(first) < after
    ensures var ops := TwoFiles(before, first, second, day) + [Start(after, day)] + [Write(day, third)];
            && Text(Run(ops).disk, day, 2) == first + [third] + [second]
            && Written(ops, day) == first + [second] + [third]
  {
    TwoFilesAre(before, first, second, day);
    hide Run, Written, TwoFiles;
    var ops := TwoFiles(before, first, second, day);
    RunMore(ops, Start(after, day), day);
    RunMore(ops + [Start(after, day)], Write(day, third), day);
    assert Written(ops, day) + [] == Written(ops, day);
    ReopensFirst(Run(ops), after, first, second, third, day);
  }

  lemma ReopensFirst(s: State, cap: nat, first: seq<Line>, second: Line, third: Line, day: int)
    requires s.disk == map[(day, 0) := first, (day, 1) := [second]] && Size(first) < cap
    ensures Text(Next(Next(s, Start(cap, day)), Write(day, third)).disk, day, 2) == first + [third] + [second]
  {
    var t := Next(s, Start(cap, day));
    assert t == State(s.disk, Open(day, 0, Size(first)), cap);
    var u := Next(t, Write(day, third));
    assert u.disk == map[(day, 0) := first + [third], (day, 1) := [second]];
    assert Text(u.disk, day, 1) == [] + (first + [third]);
  }

  function Repeat(line: Line, n: nat): seq<Line> { if n == 0 then [] else Repeat(line, n - 1) + [line] }

  lemma {:induction false} SizeOfRepeat(line: Line, n: nat)
    ensures |Repeat(line, n)| == n && Size(Repeat(line, n)) == n * (|line| + 1)
  {
    if n == 0 {
    } else {
      SizeOfRepeat(line, n - 1);
      SizeOfMore(Repeat(line, n - 1), line);
    }
  }

  /** For instance from one megabyte to two, after 1024 lines of 1023 bytes. */
  lemma TwoMegabytesReorder(line: Line, second: Line, third: Line, day: int)
    requires |line| == 1023
    ensures var first := Repeat(line, 1024);
            var ops := TwoFiles(CapOf(1), first, second, day) + [Start(CapOf(2), day)] + [Write(day, third)];
            && Text(Run(ops).disk, day, 2) == first + [third] + [second]
            && Written(ops, day) == first + [second] + [third]
  {
    hide Run, Written, TwoFiles, Text, Size;
    var first := Repeat(line, 1024);
    SizeOfRepeat(line, 1024);
    SizeOfRepeat(line, 1023);
    assert first[..1023] == Repeat(line, 1023);
    RaisedCapReorders(CapOf(1), CapOf(2), first, second, third, day);
  }

  // ---- The cap ----

  /** A file without its last line is below `most`. */
  ghost predicate Capped(file: seq<Line>, most: nat) {
    file != [] ==> Size(file[..|file| - 1]) < most
  }

  ghost predicate AllCapped(disk: Disk, most: nat) {
    forall k | k in disk :: Capped(disk[k], most)
  }

  predicate Full(disk: Disk, day: int, i: nat, cap: nat) {
    (day, i) in disk && Size(disk[(day, i)]) >= cap
  }

  /** A day's files that have reached the cap come before those that have not. */
  ghost predicate Stepped(disk: Disk, day: int, cap: nat) {
    forall i: nat, j: nat | i < j && Full(disk, day, j, cap) :: Full(disk, day, i, cap)
  }

  /** The active file, while it has not reached the cap, is the first of its day that has not; once it
      has, the next one is. */
  ghost predicate ActiveIsFirst(s: State)
    requires s.active.Open?
  {
    var day, k := s.active.day, s.active.seqNo;
    && s.active.size == Size(FileOf(s.disk, (day, k)))
    && (forall i: nat | i < k :: Full(s.disk, day, i, s.cap))
    && (forall j: nat | j > k :: !Full(s.disk, day, j, s.cap))
  }

  ghost predicate CapInv(s: State, day: int) {
    s.cap > 0 ==>
      && Stepped(s.disk, day, s.cap)
      && (s.active.Open? && s.active.day == day ==> ActiveIsFirst(s))
  }

  lemma {:induction false} HighestIsFirst(disk: Disk, day: int, cap: nat, i: nat)
    requires cap > 0
    ensures var h := Highest(disk, day, cap, i);
            i <= h && !Full(disk, day, h, cap) && forall k: nat | i <= k < h :: Full(disk, day, k, cap)
    decreases Later(disk, day, i)
  {
    if (day, i) !in disk || Size(disk[(day, i)]) < cap {
    } else {
      assert (day, i) in Later(disk, day, i) && (day, i) !in Later(disk, day, i + 1);
      HighestIsFirst(disk, day, cap, i + 1);
    }
  }

  lemma TargetHasRoom(s: State, day: int)
    requires CapInv(s, day) && s.cap > 0
    ensures var h := Target(s, day);
            && !Full(s.disk, day, h, s.cap)
            && (forall i: nat | i < h :: Full(s.disk, day, i, s.cap))
            && (forall j: nat | j > h :: !Full(s.disk, day, j, s.cap))
  {
    if !(s.active.Open? && s.active.day == day) { HighestIsFirst(s.disk, day, s.cap, 0); }
  }

  lemma EnsureCap(s: State, today: int, day: int)
    requires CapInv(s, day)
    ensures var t := Ensure(s, today);
            && CapInv(t, day) && t.active.Open? && t.active.day == today
            && (day == today && s.cap > 0 ==> t.active.size < s.cap)
  {
    var t := Ensure(s, today);
    assert s.cap > 0 ==> forall i: nat :: Full(t.disk, day, i, s.cap) == Full(s.disk, day, i, s.cap);
    if day == today && s.cap > 0 { TargetHasRoom(s, day); }
  }

  lemma AppendCap(s: State, line: Line, day: int)
    requires CapInv(s, day) && s.active.Open? && (s.cap > 0 && s.active.day == day ==> s.active.size < s.cap)
    ensures CapInv(Append(s, line), day)
  {
    hide Size;
    var t, k := Append(s, line), s.active.seqNo;
    var file := FileOf(s.disk, (s.active.day, k));
    SizeOfMore(file, line);
    if s.cap > 0 {
      forall i: nat | i != k || s.active.day != day ensures Full(t.disk, day, i, s.cap) == Full(s.disk, day, i, s.cap) {}
    }
  }

  lemma CapStep(s: State, op: Op, day: int)
    requires CapInv(s, day) && (op.Start? && op.cap > 0 ==> Stepped(s.disk, day, op.cap))
    ensures CapInv(Next(s, op), day)
  {
    match op
    case Start(cap, today) => EnsureCap(State(s.disk, Closed, cap), today, day);
    case Write(today, line) =>
      EnsureCap(s, today, day);
      AppendCap(Ensure(s, today), line, day);
  }

  lemma CappedStep(s: State, op: Op, most: nat)
    requires AllCapped(s.disk, most) && (op.Write? ==> CapInv(s, op.day) && 0 < s.cap <= most)
    ensures AllCapped(Next(s, op).disk, most)
  {
    if op.Write? {
      EnsureCap(s, op.day, op.day);
      var t := Ensure(s, op.day);
      var file := FileOf(t.disk, (op.day, t.active.seqNo));
      assert (file + [op.line])[..|file|] == file;
      assert t.active.size == Size(file);
    }
  }

  /** Whenever the logger starts with a cap, every day's files that have reached it come first. */
  ghost predicate SteppedRestarts(ops: seq<Op>) {
    ops != [] ==>
      var p, op := ops[..|ops| - 1], ops[|ops| - 1];
      SteppedRestarts(p) && (op.Start? && op.cap > 0 ==> forall day :: Stepped(Run(p).disk, day, op.cap))
  }

  lemma {:induction false} CapInvKept(ops: seq<Op>, day: int)
    requires SteppedRestarts(ops)
    ensures CapInv(Run(ops), day)
  {
    if ops == [] {
    } else {
      CapInvKept(ops[..|ops| - 1], day);
      CapStep(Run(ops[..|ops| - 1]), ops[|ops| - 1], day);
    }
  }

  /** Every line is written under a cap of at most `most`. */
  predicate WrittenUnder(ops: seq<Op>, most: nat) {
    ops != [] ==>
      var p, op := ops[..|ops| - 1], ops[|ops| - 1];
      WrittenUnder(p, most) && (op.Write? ==> 0 < Run(p).cap <= most)
  }

  /** No file exceeds the cap by more than one line: without its last line it is below it. */
  lemma {:induction false} CapKept(ops: seq<Op>, most: nat)
    requires SteppedRestarts(ops) && WrittenUnder(ops, most)
    ensures AllCapped(Run(ops).disk, most)
  {
    if ops == [] {
    } else {
      var p, op := ops[..|ops| - 1], ops[|ops| - 1];
      CapKept(p, most);
      if op.Write? { CapInvKept(p, op.day); }
      CappedStep(Run(p), op, most);
    }
  }

  /** Restarts that keep the order of every day keep the cap as well. */
  lemma {:induction false} SealedIsStepped(ops: seq<Op>)
    requires forall day :: SealedRestarts(ops, day)
    ensures SteppedRestarts(ops)
  {
    if ops == [] {
    } else {
      var p, op := ops[..|ops| - 1], ops[|ops| - 1];
      assert forall day :: SealedRestarts(ops, day) ==> SealedRestarts(p, day);
      SealedIsStepped(p);
      if op.Start? && op.cap > 0 {
        forall day ensures Stepped(Run(p).disk, day, op.cap) {
          assert SealedRestarts(ops, day);
          var n := OrderKept(p, day);
          SealedFilesAreStepped(Run(p).disk, day, n, op.cap);
        }
      }
    }
  }

  /** So caps that are never raised do. */
  lemma NeverRaisedIsStepped(ops: seq<Op>)
    requires NeverRaised(ops)
    ensures SteppedRestarts(ops)
  {
    forall day ensures SealedRestarts(ops, day) { NeverRaisedIsSealed(ops, day); }
    SealedIsStepped(ops);
  }

  lemma SealedFilesAreStepped(disk: Disk, day: int, n: nat, cap: nat)
    requires Contiguous(disk, day, n) && Sealed(disk, day, n, cap)
    ensures Stepped(disk, day, cap)
  {
    forall i: nat, j: nat | i < j && Full(disk, day, j, cap) ensures Full(disk, day, i, cap) {
      assert Size(FileOf(disk, (day, i))) >= cap;
    }
  }

  // ---- Caps in whole megabytes ----

  /** However a day's files are measured, in whole units, those that reach a measure come first. */
  ghost predicate Level(disk: Disk, day: int, unit: nat)
    requires unit > 0
  {
    forall cap: nat | cap > 0 && cap % unit == 0 :: Stepped(disk, day, cap)
  }

  /** Caps are of whole units, and no line with its newline is longer than one. */
  predicate InUnits(op: Op, unit: nat)
    requires unit > 0
  {
    match op
    case Start(cap, _) => cap % unit == 0
    case Write(_, line) => |line| + 1 <= unit
  }

  lemma Multiples(m: nat, c: nat, unit: nat)
    requires unit > 0 && m % unit == 0 && c % unit == 0 && m < c + unit
    ensures m <= c
  {
    var a, b := m / unit, c / unit;
    assert m == a * unit && c == b * unit;
    assert a > b ==> a * unit >= (b + 1) * unit;
  }

  /** Without a cap the active file is the first. */
  ghost predicate FirstIfUncapped(s: State) {
    s.cap == 0 && s.active.Open? ==> s.active.seqNo == 0
  }

  lemma LevelEnsure(s: State, today: int, day: int, unit: nat)
    requires unit > 0 && Level(s.disk, day, unit) && FirstIfUncapped(s)
    ensures Level(Ensure(s, today).disk, day, unit) && FirstIfUncapped(Ensure(s, today))
  {
    var t := Ensure(s, today);
    forall cap: nat | cap > 0 && cap % unit == 0 ensures Stepped(t.disk, day, cap) {
      assert Stepped(s.disk, day, cap);
      assert forall i: nat :: Full(t.disk, day, i, cap) == Full(s.disk, day, i, cap);
    }
  }

  lemma LevelAppend(s: State, line: Line, day: int, unit: nat)
    requires unit > 0 && Level(s.disk, day, unit) && s.active.Open? && FirstIfUncapped(s)
    requires s.cap % unit == 0 && |line| + 1 <= unit
    requires s.cap > 0 && s.active.day == day ==> ActiveIsFirst(s) && s.active.size < s.cap
    ensures Level(Append(s, line).disk, day, unit)
  {
    var t, k := Append(s, line), s.active.seqNo;
    forall cap: nat | cap > 0 && cap % unit == 0 ensures Stepped(t.disk, day, cap) {
      assert Stepped(s.disk, day, cap);
      forall i: nat, j: nat | i < j && Full(t.disk, day, j, cap) ensures Full(t.disk, day, i, cap) {
        FullAfter(s, line, day, i, cap);
        FullAfter(s, line, day, j, cap);
        hide Append, Full;
        if s.active.day == day && j == k && !Full(s.disk, day, j, cap) {
          Multiples(cap, s.cap, unit);
          FullBelow(s.disk, day, i, s.cap, cap);
        }
      }
    }
  }

  lemma FullAfter(s: State, line: Line, day: int, i: nat, cap: nat)
    requires s.active.Open? && cap > 0
    ensures var k := (s.active.day, s.active.seqNo);
            Full(Append(s, line).disk, day, i, cap) <==>
              if (day, i) == k then Size(FileOf(s.disk, k)) + |line| + 1 >= cap else Full(s.disk, day, i, cap)
    ensures Full(s.disk, day, i, cap) ==> Full(Append(s, line).disk, day, i, cap)
  {
    hide Size;
    SizeOfMore(FileOf(s.disk, (s.active.day, s.active.seqNo)), line);
  }

  lemma FullBelow(disk: Disk, day: int, i: nat, cap: nat, less: nat)
    requires Full(disk, day, i, cap) && less <= cap
    ensures Full(disk, day, i, less)
  {
  }

  lemma LevelStep(s: State, op: Op, day: int, unit: nat)
    requires unit > 0 && Level(s.disk, day, unit) && FirstIfUncapped(s) && CapInv(s, day)
    requires s.cap % unit == 0 && InUnits(op, unit)
    ensures Level(Next(s, op).disk, day, unit) && FirstIfUncapped(Next(s, op)) && CapInv(Next(s, op), day)
    ensures Next(s, op).cap % unit == 0
  {
    CapStep(s, op, day);
    match op
    case Start(cap, today) =>
      LevelEnsure(State(s.disk, Closed, cap), today, day, unit);
    case Write(today, line) =>
      LevelEnsure(s, today, day, unit);
      EnsureCap(s, today, day);
      LevelAppend(Ensure(s, today), line, day, unit);
  }

  ghost predicate AllInUnits(ops: seq<Op>, unit: nat)
    requires unit > 0
  {
    forall k | 0 <= k < |ops| :: InUnits(ops[k], unit)
  }

  lemma {:induction false} LevelKept(ops: seq<Op>, day: int, unit: nat)
    requires unit > 0 && AllInUnits(ops, unit)
    ensures Level(Run(ops).disk, day, unit) && FirstIfUncapped(Run(ops)) && CapInv(Run(ops), day)
    ensures Run(ops).cap % unit == 0
  {
    if ops == [] {
    } else {
      var p, op := ops[..|ops| - 1], ops[|ops| - 1];
      assert forall k | 0 <= k < |p| :: p[k] == ops[k];
      LevelKept(p, day, unit);
      LevelStep(Run(p), op, day, unit);
    }
  }

  /** For caps of whole megabytes, as they are configured, and lines of at most one, no file ever exceeds
      the highest cap by more than one line, however the caps are changed between restarts. */
  lemma ConfiguredCapKept(ops: seq<Op>, most: nat)
    requires AllInUnits(ops, CapOf(1)) && WrittenUnder(ops, most)
    ensures SteppedRestarts(ops) && AllCapped(Run(ops).disk, most)
  {
    InUnitsIsStepped(ops, CapOf(1));
    CapKept(ops, most);
  }

  lemma {:induction false} InUnitsIsStepped(ops: seq<Op>, unit: nat)
    requires unit > 0 && AllInUnits(ops, unit)
    ensures SteppedRestarts(ops)
  {
    if ops == [] {
    } else {
      var p, op := ops[..|ops| - 1], ops[|ops| - 1];
      assert forall k | 0 <= k < |p| :: p[k] == ops[k];
      InUnitsIsStepped(p, unit);
      if op.Start? && op.cap > 0 {
        forall day ensures Stepped(Run(p).disk, day, op.cap) {
          LevelKept(p, day, unit);
          assert InUnits(ops[|ops| - 1], unit);
        }
      }
    }
  }

  /** Every cap that can be configured is of that kind. */
  lemma CapsAreInUnits(megabytes: int)
    ensures CapOf(megabytes) % CapOf(1) == 0
  {
  }

  /** A cap that is not positive is none: the day's lines are then all in its first file. */
  lemma UncappedOneFile(ops: seq<Op>, megabytes: int, day: int)
    requires megabytes <= 0 && forall k | 0 <= k < |ops| && ops[k].Start? :: ops[k].cap == CapOf(megabytes)
    ensures FileOf(Run(ops).disk, (day, 0)) == Written(ops, day)
    ensures forall k | k in Run(ops).disk :: k.1 == 0
  {
    FirstFilesOnly(ops);
    UncappedIsSealed(ops, day);
    var n := OrderKept(ops, day);
    assert (day, 1) in Run(ops).disk <==> 1 < n;
    assert Text(Run(ops).disk, day, n) == if n == 0 then [] else [] + FileOf(Run(ops).disk, (day, 0));
  }

  lemma {:induction false} FirstFilesOnly(ops: seq<Op>)
    requires forall k | 0 <= k < |ops| && ops[k].Start? :: ops[k].cap == 0
    ensures var s := Run(ops);
            s.cap == 0 && (s.active.Open? ==> s.active.seqNo == 0) && forall k | k in s.disk :: k.1 == 0
  {
    if ops == [] {
    } else {
      var p := ops[..|ops| - 1];
      assert forall k | 0 <= k < |p| :: p[k] == ops[k];
      FirstFilesOnly(p);
    }
  }

  lemma {:induction false} UncappedIsSealed(ops: seq<Op>, day: int)
    requires forall k | 0 <= k < |ops| && ops[k].Start? :: ops[k].cap == 0
    ensures SealedRestarts(ops, day)
  {
    if ops == [] {
    } else {
      var p := ops[..|ops| - 1];
      assert forall k | 0 <= k < |p| :: p[k] == ops[k];
      UncappedIsSealed(p, day);
      FirstFilesOnly(p);
      forall n | Contiguous(Run(p).disk, day, n) ensures Sealed(Run(p).disk, day, n, 0) {
        assert (day, 1) in Run(p).disk <==> 1 < n;
      }
    }
  }

  // ---- Exactly when a restart keeps the cap ----

  function WriteAll(s: State, day: int, lines: seq<Line>): State
    decreases |lines|
  {
    if lines == [] then s else WriteAll(Next(s, Write(day, lines[0])), day, lines[1..])
  }

  /** The file the next line goes to has reached the cap already. */
  predicate Overflows(s: State, day: int) {
    Size(FileOf(s.disk, (day, Target(s, day)))) >= s.cap
  }

  lemma {:induction false} NeverOverflows(s: State, day: int, lines: seq<Line>)
    requires CapInv(s, day) && s.cap > 0
    ensures !Overflows(WriteAll(s, day, lines), day)
    decreases |lines|
  {
    if lines == [] {
      TargetHasRoom(s, day);
    } else {
      CapStep(s, Write(day, lines[0]), day);
      NeverOverflows(Next(s, Write(day, lines[0])), day, lines[1..]);
    }
  }

  /** A line that fills any file. */
  function Filler(cap: nat): (line: Line)
    ensures |line| == cap
  {
    seq(cap, _ => 32)
  }

  lemma Filled(s: State, day: int, j: nat)
    requires s.cap > 0 && Full(s.disk, day, j, s.cap) && !Full(s.disk, day, Target(s, day), s.cap)
    ensures var t := Next(s, Write(day, Filler(s.cap)));
            && t.cap == s.cap && Full(t.disk, day, j, s.cap)
            && t.active.Open? && t.active.day == day && t.active.seqNo == Target(s, day) && t.active.size >= s.cap
  {
  }

  /** Filling one file after the other leads to one that is full. */
  lemma {:induction false} Push(s: State, day: int, j: nat) returns (lines: seq<Line>)
    requires s.cap > 0 && Full(s.disk, day, j, s.cap)
    requires s.active.Open? && s.active.day == day && s.active.seqNo < j && s.active.size >= s.cap
    ensures Overflows(WriteAll(s, day, lines), day)
    decreases j - s.active.seqNo
  {
    if Full(s.disk, day, s.active.seqNo + 1, s.cap) {
      lines := [];
    } else {
      Filled(s, day, j);
      var t := Next(s, Write(day, Filler(s.cap)));
      var rest := Push(t, day, j);
      lines := [Filler(s.cap)] + rest;
      assert lines[1..] == rest;
    }
  }

  ghost predicate StaysWithin(s: State, day: int) {
    forall lines :: !Overflows(WriteAll(s, day, lines), day)
  }

  /** After a restart with a cap, no line that is ever written to a day goes to a file that has reached
      it, exactly when the day's files that have reached it come first. */
  lemma RestartKeepsCap(disk: Disk, cap: nat, day: int)
    requires cap > 0
    ensures StaysWithin(State(disk, Closed, cap), day) <==> Stepped(disk, day, cap)
  {
    var s := State(disk, Closed, cap);
    if Stepped(disk, day, cap) {
      forall lines ensures !Overflows(WriteAll(s, day, lines), day) { NeverOverflows(s, day, lines); }
    } else {
      var i: nat, j: nat :| i < j && Full(disk, day, j, cap) && !Full(disk, day, i, cap);
      HighestIsFirst(disk, day, cap, 0);
      Filled(s, day, j);
      var rest := Push(Next(s, Write(day, Filler(cap))), day, j);
      var lines := [Filler(cap)] + rest;
      assert lines[1..] == rest;
      assert Overflows(WriteAll(s, day, lines), day);
    }
  }

  /** A raised cap can break that too: when a file filled under the lower cap has room again, and a
      longer line lies behind it. */
  lemma RaisedCapUnsteps(before: nat, after: nat, first: seq<Line>, second: Line, day: int)
    requires first != [] && Size(first[..|first| - 1]) < before <= Size(first) < after <= |second| + 1
    ensures !Stepped(Run(TwoFiles(before, first, second, day)).disk, day, after)
  {
    hide Run, TwoFiles;
    TwoFilesAre(before, first, second, day);
    SizeOfMore([], second);
    assert [] + [second] == [second];
    hide Size;
    var disk := Run(TwoFiles(before, first, second, day)).disk;
    assert Full(disk, day, 1, after) && !Full(disk, day, 0, after);
  }

  // ---- The logger ----

  class Directory {
    var files: Disk

    constructor ()
      ensures files == map[]
    {
      files := map[];
    }
  }

  class FileLogger {
    const dir: Directory
    const maxFileBytes: nat
    var active: Active

    function Value(): State reads this, dir { State(dir.files, active, maxFileBytes) }

    /** NewFileLogger: a new process over the directory of the last. */
    constructor (dir: Directory, maxFileSizeMb: int, today: int)
      modifies dir
      ensures this.dir == dir
      ensures Value() == Next(State(old(dir.files), Closed, 0), Start(CapOf(maxFileSizeMb), today))
    {
      this.dir := dir;
      this.maxFileBytes := CapOf(maxFileSizeMb);
      this.active := Closed;
      new;
      EnsureActiveFile(today);
    }

    method HighestSeqForDay(day: int) returns (i: nat)
      ensures i == Highest(dir.files, day, maxFileBytes, 0)
    {
      i := 0;
      while (day, i) in dir.files && Size(dir.files[(day, i)]) >= maxFileBytes
        invariant Highest(dir.files, day, maxFileBytes, i) == Highest(dir.files, day, maxFileBytes, 0)
        decreases Later(dir.files, day, i)
      {
        assert (day, i) in Later(dir.files, day, i) && (day, i) !in Later(dir.files, day, i + 1);
        i := i + 1;
      }
    }

    method Reopen(day: int, i: nat)
      modifies this, dir
      ensures active == Open(day, i, Size(FileOf(old(dir.files), (day, i))))
      ensures dir.files == old(dir.files)[(day, i) := FileOf(old(dir.files), (day, i))]
    {
      if (day, i) !in dir.files {
        dir.files := dir.files[(day, i) := []];
      }
      active := Open(day, i, Size(dir.files[(day, i)]));
      assert dir.files == old(dir.files)[(day, i) := FileOf(old(dir.files), (day, i))];
    }

    method EnsureActiveFile(day: int)
      modifies this, dir
      ensures Value() == Ensure(old(Value()), day)
    {
      if active.Open? && active.day == day {
        if maxFileBytes == 0 || active.size < maxFileBytes { return; }
        Reopen(day, active.seqNo + 1);
        return;
      }
      var i := 0;
      if maxFileBytes > 0 {
        i := HighestSeqForDay(day);
      }
      Reopen(day, i);
    }

    /** writeEntry, once the entry is a line. */
    method WriteEntry(line: Line, day: int)
      modifies this, dir
      ensures Value() == Next(old(Value()), Write(day, line))
    {
      EnsureActiveFile(day);
      var k := (day, active.seqNo);
      dir.files := dir.files[k := FileOf(dir.files, k) + [line]];
      active := active.(size := active.size + |line| + 1);
    }
  }
}
