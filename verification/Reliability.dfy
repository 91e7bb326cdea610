/** domain/notification/reliability.go: one camera's outages, reduced from its health events. */
module Reliability {
  datatype Status = Offline | Online | Other

  /** A health event as parseHealthEvent reads it; `offlineFor` is 0 when no downtime is reported. */
  datatype Event = Event(at: int, status: Status, offlineFor: int)

  datatype Summary = Summary(uptime: real, offlineSeconds: int, incidents: nat, currentlyOffline: bool,
                             lastEventAt: int)

  function Max(a: int, b: int): int { if a < b then b else a }

  // ---- What the reduction adds up ----

  /** The state between two events. */
  datatype Running = Running(downtime: int, open: bool, offlineAt: int)

  /** The seconds a recovery is charged with. */
  function Charged(r: Running, e: Event, from: int): int {
    var dur := if e.offlineFor <= 0 && r.open then e.at - r.offlineAt else e.offlineFor;
    Max(0, e.at - Max(from, e.at - dur))
  }

  function Run(events: seq<Event>, from: int): Running {
    if events == [] then Running(0, false, 0)
    else
      var r, e := Run(Front(events), from), events[|events| - 1];
      match e.status
      case Offline => r.(open := true, offlineAt := e.at)
      case Online => r.(open := false, downtime := r.downtime + Charged(r, e, from))
      case Other => r
  }

  function Front(events: seq<Event>): seq<Event>
    requires events != []
  {
    events[..|events| - 1]
  }

  function Downtime(events: seq<Event>, from: int, to: int): int {
    var r := Run(events, from);
    if r.open then r.downtime + Max(0, to - Max(from, r.offlineAt)) else r.downtime
  }

  function Incidents(events: seq<Event>): nat {
    if events == [] then 0
    else Incidents(Front(events)) + if events[|events| - 1].status == Offline then 1 else 0
  }

  // ---- What a second-by-second look would say ----

  /** The status last reported at or before second `x`; Other while nothing has been. */
  function StatusBy(events: seq<Event>, x: int): Status {
    if events == [] then Other
    else
      var e := events[|events| - 1];
      if e.at <= x && e.status != Other then e.status else StatusBy(Front(events), x)
  }

  /** Whether an outage that began before the first report is on at `x`: that report is then the
      recovery, and says how long the camera had been gone. */
  function OpeningOutage(events: seq<Event>, x: int): bool {
    if events == [] then false
    else
      var e := events[|events| - 1];
      if LastStatus(Front(events)) != Other then OpeningOutage(Front(events), x)
      else e.status == Online && e.at - e.offlineFor <= x < e.at
  }

  predicate OfflineAt(events: seq<Event>, x: int) {
    StatusBy(events, x) == Offline || (StatusBy(events, x) == Other && OpeningOutage(events, x))
  }

  /** The number of seconds in [lo, hi) at which the camera was offline. */
  function CountOffline(events: seq<Event>, lo: int, hi: int): nat
    decreases hi - lo
  {
    if hi <= lo then 0 else CountOffline(events, lo, hi - 1) + if OfflineAt(events, hi - 1) then 1 else 0
  }

  // ---- Where the two differ ----

  function LastStatus(events: seq<Event>): Status {
    if events == [] then Other
    else if events[|events| - 1].status != Other then events[|events| - 1].status
    else LastStatus(Front(events))
  }

  /** Since when the camera has been in the state it was last reported in: an offline report during an
      outage does not begin another. */
  function Since(events: seq<Event>, from: int): int {
    if events == [] then from
    else
      var p, e := Front(events), events[|events| - 1];
      if e.status == Other || (e.status == Offline && LastStatus(p) == Offline) then Since(p, from) else e.at
  }

  /** What the recovery `e` after the events `p` is charged beyond the outage it ends. */
  function Excess(p: seq<Event>, e: Event, from: int): int {
    if e.status != Online || LastStatus(p) == Other then 0
    else Charged(Run(p, from), e, from) - if LastStatus(p) == Offline then e.at - Since(p, from) else 0
  }

  function ExcessOfAll(events: seq<Event>, from: int): int {
    if events == [] then 0
    else ExcessOfAll(Front(events), from) + Excess(Front(events), events[|events| - 1], from)
  }

  /** The part of an outage still open that precedes its latest offline report. */
  function Forgotten(events: seq<Event>, from: int): int {
    if LastStatus(events) == Offline then Run(events, from).offlineAt - Since(events, from) else 0
  }

  /** The events of the window, in the order of time, as the query returns them. */
  predicate InOrder(events: seq<Event>, from: int, to: int) {
    && (forall i | 0 <= i < |events| :: from <= events[i].at <= to)
    && (forall i, j | 0 <= i < j < |events| :: events[i].at <= events[j].at)
  }

  // ---- Lemmas about one more event ----

  lemma {:induction false} OpenIsOffline(events: seq<Event>, from: int, to: int)
    requires InOrder(events, from, to) && from <= to
    ensures Run(events, from).open == (LastStatus(events) == Offline)
    ensures from <= Since(events, from) <= to && forall e | e in events :: Since(events, from) <= events[|events| - 1].at
    ensures LastStatus(events) == Offline ==> Since(events, from) <= Run(events, from).offlineAt <= events[|events| - 1].at
  {
    if events == [] {
    } else {
      OpenIsOffline(Front(events), from, to);
      var p := Front(events);
      assert p != [] ==> p[|p| - 1] in p && p[|p| - 1].at <= events[|events| - 1].at;
      assert p == [] ==> LastStatus(p) == Other;
    }
  }

  /** From `Since` on the camera is in the state last reported. */
  lemma {:induction false} StateSince(events: seq<Event>, from: int, to: int, x: int)
    requires InOrder(events, from, to) && from <= to && Since(events, from) <= x && LastStatus(events) != Other
    ensures StatusBy(events, x) == LastStatus(events)
  {
    if events[|events| - 1].status == Other || x < events[|events| - 1].at {
      StateSince(Front(events), from, to, x);
    }
  }

  lemma {:induction false} NothingReported(events: seq<Event>, x: int)
    requires LastStatus(events) == Other
    ensures StatusBy(events, x) == Other && !OpeningOutage(events, x)
  {
    if events == [] {
    } else {
      NothingReported(Front(events), x);
    }
  }

  /** An event does not change what was known of the seconds before it, unless it is the first. */
  lemma PastIsKept(events: seq<Event>, x: int)
    requires events != [] && x < events[|events| - 1].at && LastStatus(Front(events)) != Other
    ensures OfflineAt(events, x) == OfflineAt(Front(events), x)
  {
  }

  lemma {:induction false} CountSplit(events: seq<Event>, lo: int, mid: int, hi: int)
    requires lo <= mid <= hi
    ensures CountOffline(events, lo, hi) == CountOffline(events, lo, mid) + CountOffline(events, mid, hi)
    decreases hi - mid
  {
    if mid == hi {
    } else {
      CountSplit(events, lo, mid, hi - 1);
    }
  }

  lemma {:induction false} CountConstant(events: seq<Event>, lo: int, hi: int, offline: bool)
    requires lo <= hi && forall x | lo <= x < hi :: OfflineAt(events, x) == offline
    ensures CountOffline(events, lo, hi) == if offline then hi - lo else 0
    decreases hi - lo
  {
    if lo == hi {
    } else {
      CountConstant(events, lo, hi - 1, offline);
    }
  }

  lemma {:induction false} CountSame(p: seq<Event>, q: seq<Event>, lo: int, hi: int)
    requires forall x | lo <= x < hi :: OfflineAt(p, x) == OfflineAt(q, x)
    ensures CountOffline(p, lo, hi) == CountOffline(q, lo, hi)
    decreases hi - lo
  {
    if hi <= lo {
    } else {
      CountSame(p, q, lo, hi - 1);
    }
  }

  /** Up to `Since`, what is charged is what was counted and the excess. */
  lemma {:induction false} ChargedSoFar(events: seq<Event>, from: int, to: int)
    requires InOrder(events, from, to) && from <= to
    ensures Run(events, from).downtime
            == CountOffline(events, from, Since(events, from)) + ExcessOfAll(events, from)
  {
    if events == [] {
    } else {
      ChargedSoFar(Front(events), from, to);
      OpenIsOffline(Front(events), from, to);
      OpenIsOffline(events, from, to);
      var e := events[|events| - 1];
      if e.status == Other {
        SilentEvent(events, from, to);
      } else if LastStatus(Front(events)) == Other {
        FirstReport(events, from, to);
      } else {
        LaterReport(events, from, to);
      }
    }
  }

  lemma SilentEvent(events: seq<Event>, from: int, to: int)
    requires events != [] && events[|events| - 1].status == Other
    ensures var s := Since(Front(events), from); CountOffline(events, from, s) == CountOffline(Front(events), from, s)
  {
    forall x ensures OfflineAt(events, x) == OfflineAt(Front(events), x) {
      if LastStatus(Front(events)) == Other { NothingReported(Front(events), x); }
    }
    CountSame(events, Front(events), from, Since(Front(events), from));
  }

  lemma {:induction false} NothingCharged(events: seq<Event>, from: int)
    requires LastStatus(events) == Other
    ensures Run(events, from) == Running(0, false, 0) && ExcessOfAll(events, from) == 0 && Since(events, from) == from
  {
    if events == [] {
    } else {
      NothingCharged(Front(events), from);
    }
  }

  lemma FirstReport(events: seq<Event>, from: int, to: int)
    requires InOrder(events, from, to) && from <= to && events != []
    requires LastStatus(events) != Other && LastStatus(Front(events)) == Other && events[|events| - 1].status != Other
    ensures Run(events, from).downtime == CountOffline(events, from, Since(events, from)) + ExcessOfAll(events, from)
  {
    var e := events[|events| - 1];
    NothingCharged(Front(events), from);
    var start := if e.status == Online && e.offlineFor > 0 then Max(from, e.at - e.offlineFor) else e.at;
    forall x | from <= x < e.at ensures OfflineAt(events, x) == (start <= x) {
      NothingReported(Front(events), x);
    }
    CountSplit(events, from, start, e.at);
    CountConstant(events, from, start, false);
    CountConstant(events, start, e.at, true);
  }

  lemma LaterReport(events: seq<Event>, from: int, to: int)
    requires InOrder(events, from, to) && from <= to && events != []
    requires LastStatus(Front(events)) != Other && events[|events| - 1].status != Other
    requires var p := Front(events);
             Run(p, from).downtime == CountOffline(p, from, Since(p, from)) + ExcessOfAll(p, from)
    ensures Run(events, from).downtime == CountOffline(events, from, Since(events, from)) + ExcessOfAll(events, from)
  {
    var p, e := Front(events), events[|events| - 1];
    var s := Since(p, from);
    OpenIsOffline(p, from, to);
    assert p[|p| - 1] in p && s <= p[|p| - 1].at <= e.at;
    forall x | from <= x < e.at
      ensures OfflineAt(events, x) == OfflineAt(p, x)
      ensures s <= x ==> OfflineAt(events, x) == (LastStatus(p) == Offline)
    {
      PastIsKept(events, x);
      if s <= x { StateSince(p, from, to, x); }
    }
    CountSame(events, p, from, s);
    CountSplit(events, from, s, e.at);
    CountConstant(events, s, e.at, LastStatus(p) == Offline);
  }

  // ---- Results ----

  /** For every stream in order: the downtime is the number of seconds in [from, to) at which the camera
      was offline, plus what recoveries were charged in excess, less what repeated offline reports of
      an open outage forgot. */
  lemma DowntimeIsCount(events: seq<Event>, from: int, to: int)
    requires InOrder(events, from, to) && from <= to
    ensures Downtime(events, from, to)
            == CountOffline(events, from, to) + ExcessOfAll(events, from) - Forgotten(events, from)
  {
    ChargedSoFar(events, from, to);
    OpenIsOffline(events, from, to);
    var s := Since(events, from);
    forall x | s <= x < to ensures OfflineAt(events, x) == (LastStatus(events) == Offline) {
      if LastStatus(events) == Other { NothingReported(events, x); } else { StateSince(events, from, to, x); }
    }
    CountSplit(events, from, s, to);
    CountConstant(events, s, to, LastStatus(events) == Offline);
    assert LastStatus(events) == Offline ==> events[|events| - 1] in events;
  }

  /** Offline and online reports alternate, and a recovery reports no downtime or the real one. */
  predicate Faithful(events: seq<Event>, from: int) {
    events != [] ==>
      var p, e := Front(events), events[|events| - 1];
      && Faithful(p, from)
      && (e.status != Other ==> e.status != LastStatus(p))
      && (e.status == Online && LastStatus(p) == Offline ==> e.offlineFor <= 0 || e.offlineFor == e.at - Since(p, from))
  }

  lemma {:induction false} FaithfulHasNoExcess(events: seq<Event>, from: int, to: int)
    requires InOrder(events, from, to) && from <= to && Faithful(events, from)
    ensures ExcessOfAll(events, from) == 0 && Forgotten(events, from) == 0
  {
    if events == [] {
    } else {
      FaithfulHasNoExcess(Front(events), from, to);
      OpenIsOffline(Front(events), from, to);
    }
  }

  lemma {:induction false} CountBounded(events: seq<Event>, lo: int, hi: int)
    requires lo <= hi
    ensures CountOffline(events, lo, hi) <= hi - lo
    decreases hi - lo
  {
    if lo == hi {
    } else {
      CountBounded(events, lo, hi - 1);
    }
  }

  /** Faithful streams are accounted for to the second, whatever is open at either edge. */
  lemma FaithfulIsExact(events: seq<Event>, from: int, to: int)
    requires InOrder(events, from, to) && from <= to && Faithful(events, from)
    ensures Downtime(events, from, to) == CountOffline(events, from, to)
    ensures 0 <= Downtime(events, from, to) <= to - from
  {
    DowntimeIsCount(events, from, to);
    FaithfulHasNoExcess(events, from, to);
    CountBounded(events, from, to);
  }

  /** A further offline report makes an open outage begin anew: the seconds since the last one are
      lost, though the camera was offline all along. */
  lemma RepeatedOfflineForgets(p: seq<Event>, e: Event, from: int, to: int)
    requires InOrder(p + [e], from, to) && from <= to && LastStatus(p) == Offline && e.status == Offline
    ensures Downtime(p + [e], from, to) == Downtime(p, from, to) - (e.at - Run(p, from).offlineAt)
    ensures CountOffline(p + [e], from, to) == CountOffline(p, from, to)
  {
    assert Front(p + [e]) == p && p[|p| - 1] in p;
    assert forall i | 0 <= i < |p| :: p[i] == (p + [e])[i];
    OpenIsOffline(p, from, to);
    forall x | from <= x < to ensures OfflineAt(p + [e], x) == OfflineAt(p, x) {
      if x < e.at { PastIsKept(p + [e], x); } else { StateSince(p, from, to, x); }
    }
    CountSame(p + [e], p, from, to);
  }

  /** A second recovery that repeats the downtime of the first charges it again, even past the window. */
  lemma RepeatedRecoveryOvercharges(from: int, window: nat)
    requires window > 0
    ensures var e := Event(from + window, Online, window);
            InOrder([e, e], from, from + window) && Downtime([e, e], from, from + window) == 2 * window
  {
    var e := Event(from + window, Online, window);
    assert Front([e, e]) == [e] && Front([e]) == [];
    assert Run([e], from) == Running(window, false, 0);
  }

  // ---- What a recovery is charged with ----

  /** The latest offline report, if no recovery has come after it. */
  predicate OpenedBy(events: seq<Event>, k: int) {
    0 <= k < |events| && events[k].status == Offline && forall j | k < j < |events| :: events[j].status == Other
  }

  lemma {:induction false} OpenedByLast(events: seq<Event>, from: int) returns (k: int)
    ensures if Run(events, from).open then OpenedBy(events, k) && Run(events, from).offlineAt == events[k].at
            else forall i :: !OpenedBy(events, i)
  {
    if events == [] {
      k := 0;
    } else {
      var p, n := Front(events), |events| - 1;
      k := OpenedByLast(p, from);
      match events[n].status
      case Offline => k := n;
      case Online =>
      case Other =>
        forall i ensures OpenedBy(events, i) <==> OpenedBy(p, i) {}
    }
  }

  /** A recovery adds the seconds of the window in the downtime it reports, if it reports any; if not,
      those since the latest offline report, if no recovery has come after that; and otherwise none. */
  lemma RecoveryCharges(p: seq<Event>, e: Event, from: int)
    requires e.status == Online && from <= e.at && forall i | 0 <= i < |p| :: from <= p[i].at <= e.at
    ensures var more := Run(p + [e], from).downtime - Run(p, from).downtime;
            && (e.offlineFor >= 1 ==> more == if e.at - e.offlineFor < from then e.at - from else e.offlineFor)
            && (e.offlineFor < 1 ==> forall k | OpenedBy(p, k) :: more == e.at - p[k].at)
            && (e.offlineFor < 1 && (forall k :: !OpenedBy(p, k)) ==> more == 0)
  {
    assert Front(p + [e]) == p;
    var k := OpenedByLast(p, from);
    forall i | OpenedBy(p, i) && OpenedBy(p, k) ensures i == k {}
  }

  // ---- Incidents ----

  ghost function OfflineReports(events: seq<Event>): set<int> {
    set i | 0 <= i < |events| && events[i].status == Offline
  }

  /** An offline report at which the camera was not reported offline already. */
  predicate Begins(events: seq<Event>, i: int) {
    0 <= i < |events| && events[i].status == Offline && LastStatus(events[..i]) != Offline
  }

  ghost function OutagesBegun(events: seq<Event>): set<int> {
    set i | 0 <= i < |events| && Begins(events, i)
  }

  lemma {:induction false} IncidentsAreReports(events: seq<Event>)
    ensures Incidents(events) == |OfflineReports(events)|
  {
    if events == [] {
    } else {
      var p, n := Front(events), |events| - 1;
      IncidentsAreReports(p);
      assert OfflineReports(events) == OfflineReports(p) + if events[n].status == Offline then {n} else {};
    }
  }

  lemma SameSize(small: set<int>, large: set<int>)
    requires small <= large
    ensures |small| <= |large| && (|small| == |large| <==> small == large)
  {
    assert large == small + (large - small);
    assert |large| == |small| + |large - small|;
  }

  /** Incidents are offline reports: as many as there are outages that begin in the window if and only if
      no outage is reported twice, and otherwise more. */
  lemma IncidentsAreOutages(events: seq<Event>)
    ensures Incidents(events) == |OfflineReports(events)| >= |OutagesBegun(events)|
    ensures Incidents(events) == |OutagesBegun(events)|
            <==> forall i | 0 <= i < |events| && events[i].status == Offline :: LastStatus(events[..i]) != Offline
  {
    IncidentsAreReports(events);
    SameSize(OutagesBegun(events), OfflineReports(events));
    if OutagesBegun(events) == OfflineReports(events) {
      forall i | 0 <= i < |events| && events[i].status == Offline ensures LastStatus(events[..i]) != Offline {
        assert i in OfflineReports(events);
      }
    } else {
      var i :| i in OfflineReports(events) && i !in OutagesBegun(events);
      assert LastStatus(events[..i]) == Offline;
    }
  }

  /** A faithful stream has one incident for each outage that begins in the window. */
  lemma FaithfulIncidents(events: seq<Event>, from: int)
    requires Faithful(events, from)
    ensures Incidents(events) == |OutagesBegun(events)|
  {
    IncidentsAreOutages(events);
    forall i | 0 <= i < |events| && events[i].status == Offline ensures LastStatus(events[..i]) != Offline {
      FaithfulPart(events, from, i + 1);
      assert Front(events[..i + 1]) == events[..i];
    }
  }

  lemma {:induction false} FaithfulPart(events: seq<Event>, from: int, n: nat)
    requires Faithful(events, from) && n <= |events|
    ensures Faithful(events[..n], from)
    decreases |events|
  {
    if n == |events| {
      assert events[..n] == events;
    } else {
      FaithfulPart(Front(events), from, n);
      assert Front(events)[..n] == events[..n];
    }
  }

  // ---- The reduction ----

  /** The percentage of the window not in the downtime, kept between 0 and 100. */
  function Uptime(downtime: int, window: int): (u: real)
    ensures 0.0 <= u <= 100.0
    ensures window > 0 && 0 <= downtime <= window ==> u * window as real == 100.0 * (window - downtime) as real
    ensures window > 0 && downtime >= window ==> u == 0.0
    ensures window <= 0 || downtime <= 0 ==> u == 100.0
  {
    if window <= 0 then 100.0
    else
      var share := downtime as real / window as real;
      assert share * window as real == downtime as real;
      var u := 100.0 * (1.0 - share);
      if u < 0.0 then 0.0 else if u > 100.0 then 100.0 else u
  }

  /** What the score card shows for a faithful stream: the share of the window the camera was up, and
      whether it is offline at the end of it. */
  lemma FaithfulScore(events: seq<Event>, from: int, to: int)
    requires InOrder(events, from, to) && from < to && Faithful(events, from)
    ensures Uptime(Downtime(events, from, to), to - from) * (to - from) as real
            == 100.0 * (to - from - CountOffline(events, from, to)) as real
    ensures Run(events, from).open == OfflineAt(events, to)
  {
    hide Uptime, Downtime, CountOffline;
    FaithfulIsExact(events, from, to);
    OpenIsOffline(events, from, to);
    if LastStatus(events) == Other { NothingReported(events, to); } else { StateSince(events, from, to, to); }
  }

  /** reliabilityForCamera. */
  method Reduce(events: seq<Event>, from: int, to: int, window: int) returns (r: Summary)
    ensures r.offlineSeconds == Downtime(events, from, to)
    ensures r.incidents == Incidents(events) == |OfflineReports(events)|
    ensures r.currentlyOffline == Run(events, from).open
    ensures r.lastEventAt == if events == [] then 0 else events[|events| - 1].at
    ensures r.uptime == Uptime(r.offlineSeconds, window)
  {
    var downtime, incidents, open, offlineAt, lastAt := 0, 0, false, 0, 0;
    for i := 0 to |events|
      invariant Run(events[..i], from) == Running(downtime, open, offlineAt)
      invariant incidents == Incidents(events[..i]) && lastAt == if i == 0 then 0 else events[i - 1].at
    {
      assert Front(events[..i + 1]) == events[..i];
      var e := events[i];
      lastAt := e.at;
      match e.status
      case Offline =>
        incidents := incidents + 1;
        offlineAt := e.at;
        open := true;
      case Online =>
        var dur := e.offlineFor;
        if dur <= 0 && open {
          dur := e.at - offlineAt;
        }
        var start := e.at - dur;
        if start < from { start := from; }
        if e.at > start { downtime := downtime + (e.at - start); }
        open := false;
      case Other =>
    }
    assert events[..|events|] == events;
    IncidentsAreReports(events);
    if open {
      var start := offlineAt;
      if start < from { start := from; }
      if to > start { downtime := downtime + (to - start); }
    }
    var uptime := 100.0;
    if window > 0 {
      uptime := 100.0 * (1.0 - downtime as real / window as real);
      if uptime < 0.0 { uptime := 0.0; }
      if uptime > 100.0 { uptime := 100.0; }
    }
    r := Summary(uptime, downtime, incidents, open, lastAt);
  }
}
