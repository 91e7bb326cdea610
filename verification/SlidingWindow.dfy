/** infra/cache: the sliding-window limiter of one key, as the memory provider and the Redis script
    each define it, and what both owe their callers.

    Times are nanoseconds since the epoch and windows are durations in nanoseconds; both providers
    keep milliseconds. */
module SlidingWindow {
  import opened Results

  const MS := 1_000_000

  /** UnixMilli, and the whole milliseconds of a duration. */
  function MsOf(t: int): int { t / MS }

  datatype Decision = Decision(allowed: bool, limit: int, count: int, remaining: int, retryAfter: int, resetAfter: int)

  function AtLeastZero(x: int): int { if x < 0 then 0 else x }

  // ---- The memory provider ----

  /** The timestamps after the cutoff, in order. */
  function Active(w: seq<int>, cutoff: int): seq<int> {
    if w == [] then []
    else Active(w[..|w| - 1], cutoff) + if w[|w| - 1] > cutoff then [w[|w| - 1]] else []
  }

  predicate Unlimited(limit: int, window: int) { limit <= 0 || window <= 0 }

  /** What the window holds after a call, the call's own time included if it is allowed. */
  function MemWindow(w: seq<int>, limit: int, window: int, now: int): seq<int> {
    if Unlimited(limit, window) then w
    else
      var active := Active(w, MsOf(now - window));
      if |active| < limit then active + [MsOf(now)] else active
  }

  function MemDecision(w: seq<int>, limit: int, window: int, now: int): Decision {
    if Unlimited(limit, window) then Decision(true, limit, 0, limit, 0, 0)
    else
      var allowed := |Active(w, MsOf(now - window))| < limit;
      var after := MemWindow(w, limit, window, now);
      var reset := if after == [] then window else AtLeastZero(after[0] * MS + window - now);
      Decision(allowed, limit, |after|, AtLeastZero(limit - |after|), if allowed then 0 else reset, reset)
  }

  // ---- The Redis script ----

  /** An entry of the sorted set: its score, and its member, the caller's nanosecond clock and a nonce. */
  datatype Entry = Entry(score: int, member: (int, nat))

  /** The key: its sorted set in ZRANGE order, and the server time after which it is gone. */
  datatype ZKey = ZKey(entries: seq<Entry>, expireAt: int)

  function Scores(es: seq<Entry>): seq<int> {
    seq(|es|, i requires 0 <= i < |es| => es[i].score)
  }

  /** A key is served until the server clock has passed its expiry. */
  function Entries(z: Option<ZKey>, serverMs: int): seq<Entry> {
    if z.None? || serverMs > z.value.expireAt then [] else z.value.entries
  }

  /** ZREMRANGEBYSCORE key 0 cutoff. */
  function RemoveUpTo(es: seq<Entry>, cutoff: int): seq<Entry> {
    if es == [] then []
    else RemoveUpTo(es[..|es| - 1], cutoff) + if 0 <= es[|es| - 1].score <= cutoff then [] else [es[|es| - 1]]
  }

  /** ZADD of a member that is not yet in the set: after everything that does not score higher. */
  function Insert(es: seq<Entry>, e: Entry): seq<Entry> {
    if es == [] || es[|es| - 1].score <= e.score then es + [e]
    else Insert(es[..|es| - 1], e) + [es[|es| - 1]]
  }

  /** PEXPIRE, which deletes the key at once for a time to live that is not positive. */
  function Expiring(es: seq<Entry>, serverMs: int, ttl: int): Option<ZKey> {
    if ttl <= 0 then None else Some(ZKey(es, serverMs + ttl))
  }

  function RedisKey(z: Option<ZKey>, limit: int, window: int, now: int, nonce: nat): Option<ZKey> {
    if Unlimited(limit, window) then z
    else
      var kept := RemoveUpTo(Entries(z, MsOf(now)), MsOf(now - window));
      var es := if |kept| >= limit then kept else Insert(kept, Entry(MsOf(now), (now, nonce)));
      Expiring(es, MsOf(now), MsOf(window))
  }

  function RedisDecision(z: Option<ZKey>, limit: int, window: int, now: int, nonce: nat): Decision {
    if Unlimited(limit, window) then Decision(true, limit, 0, limit, 0, 0)
    else
      var kept := RemoveUpTo(Entries(z, MsOf(now)), MsOf(now - window));
      var allowed := |kept| < limit;
      var es := if allowed then Insert(kept, Entry(MsOf(now), (now, nonce))) else kept;
      var after := if es == [] then MsOf(window) else AtLeastZero(es[0].score + MsOf(window) - MsOf(now));
      Decision(allowed, limit, |es|, AtLeastZero(limit - |es|), if allowed then 0 else after * MS, after * MS)
  }

  // ---- Histories of one key ----

  datatype Call = Allow(limit: int, now: int) | Delete

  /** The clock of a history never runs backwards. */
  ghost predicate Forward(calls: seq<Call>, from: int) {
    calls == [] ||
    match calls[0]
    case Allow(_, now) => from <= now && Forward(calls[1..], now)
    case Delete => Forward(calls[1..], from)
  }

  ghost function MemRun(w: seq<int>, window: int, calls: seq<Call>): seq<Decision>
    decreases |calls|
  {
    if calls == [] then []
    else match calls[0]
      case Allow(limit, now) =>
        [MemDecision(w, limit, window, now)] + MemRun(MemWindow(w, limit, window, now), window, calls[1..])
      case Delete => MemRun([], window, calls[1..])
  }

  ghost function RedisRun(z: Option<ZKey>, window: int, nonce: nat, calls: seq<Call>): seq<Decision>
    decreases |calls|
  {
    if calls == [] then []
    else match calls[0]
      case Allow(limit, now) =>
        [RedisDecision(z, limit, window, now, nonce)]
        + RedisRun(RedisKey(z, limit, window, now, nonce), window, nonce + 1, calls[1..])
      case Delete => RedisRun(None, window, nonce, calls[1..])
  }

  // ---- Provider equivalence ----

  ghost predicate SortedUpTo(w: seq<int>, last: int) {
    && (forall k | 0 <= k < |w| :: 0 <= w[k] <= last)
    && (forall j, k | 0 <= j < k < |w| :: w[j] <= w[k])
  }

  lemma {:induction false} ActiveSorted(w: seq<int>, cutoff: int, last: int)
    requires SortedUpTo(w, last)
    ensures SortedUpTo(Active(w, cutoff), last)
    ensures forall x :: x in Active(w, cutoff) <==> x in w && x > cutoff
    ensures |Active(w, cutoff)| <= |w|
  {
    if w == [] {
    } else {
      ActiveSorted(w[..|w| - 1], cutoff, last);
      assert w == w[..|w| - 1] + [w[|w| - 1]];
      var rest := Active(w[..|w| - 1], cutoff);
      forall k | 0 <= k < |rest| ensures rest[k] <= w[|w| - 1] {
        assert rest[k] in w[..|w| - 1];
      }
    }
  }

  lemma {:induction false} NoneActive(w: seq<int>, cutoff: int)
    requires forall k | 0 <= k < |w| :: w[k] <= cutoff
    ensures Active(w, cutoff) == []
  {
    if w == [] {
    } else {
      NoneActive(w[..|w| - 1], cutoff);
    }
  }

  /** Removing by score and filtering keep the same timestamps. */
  lemma {:induction false} RemoveIsActive(es: seq<Entry>, cutoff: int)
    requires forall k | 0 <= k < |es| :: es[k].score >= 0
    ensures Scores(RemoveUpTo(es, cutoff)) == Active(Scores(es), cutoff)
  {
    if es == [] {
    } else {
      var rest := es[..|es| - 1];
      assert Scores(es)[..|es| - 1] == Scores(rest);
      RemoveIsActive(rest, cutoff);
    }
  }

  /** Adding the newest time to a sorted set appends it. */
  lemma InsertNewest(es: seq<Entry>, e: Entry)
    requires forall k | 0 <= k < |es| :: es[k].score <= e.score
    ensures Scores(Insert(es, e)) == Scores(es) + [e.score]
  {
  }

  /** What the two providers' states have in common after a history whose last deciding call was at
      `last`: the same timestamps, which Redis will drop only when they no longer count. */
  ghost predicate Coupled(w: seq<int>, z: Option<ZKey>, window: int, last: int) {
    && 0 <= last && SortedUpTo(w, MsOf(last))
    && (z.None? ==> w == [])
    && (z.Some? ==> Scores(z.value.entries) == w && z.value.expireAt == MsOf(last) + MsOf(window))
  }

  /** The Redis answer to a call is the memory answer with the times rounded up to the millisecond. */
  function RoundedUp(d: Decision, window: int, now: int): Decision {
    if Unlimited(d.limit, window) then d
    else d.(retryAfter := if d.allowed then 0 else d.retryAfter + now % MS, resetAfter := d.resetAfter + now % MS)
  }

  lemma SameKept(w: seq<int>, z: Option<ZKey>, window: int, last: int, now: int)
    requires Coupled(w, z, window, last) && last <= now && window > 0 && window % MS == 0
    ensures Scores(RemoveUpTo(Entries(z, MsOf(now)), MsOf(now - window))) == Active(w, MsOf(now - window))
  {
    var cutoff := MsOf(now - window);
    assert cutoff == MsOf(now) - MsOf(window);
    ActiveSorted(w, cutoff, MsOf(last));
    if z.Some? {
      forall k | 0 <= k < |z.value.entries| ensures z.value.entries[k].score >= 0 {
        assert Scores(z.value.entries)[k] == w[k];
      }
      if MsOf(now) > z.value.expireAt {
        NoneActive(w, cutoff);
      } else {
        RemoveIsActive(z.value.entries, cutoff);
      }
    }
  }

  /** Over whole milliseconds, counting in milliseconds rounds a time that is left up. */
  lemma LeftRoundsUp(oldest: int, window: int, now: int)
    requires window % MS == 0
    ensures MsOf(now - window) == MsOf(now) - MsOf(window)
    ensures oldest > MsOf(now) - MsOf(window) ==>
              AtLeastZero(oldest + MsOf(window) - MsOf(now)) * MS
              == AtLeastZero(oldest * MS + window - now) + now % MS
  {
  }

  /** After an allowed call or a denied one the two providers hold the same times, in order. */
  lemma SameTimes(w: seq<int>, z: Option<ZKey>, limit: int, window: int, last: int, now: int, nonce: nat)
    requires Coupled(w, z, window, last) && last <= now && window % MS == 0 && !Unlimited(limit, window)
    ensures var kept := RemoveUpTo(Entries(z, MsOf(now)), MsOf(now - window));
            && |kept| == |Active(w, MsOf(now - window))|
            && Scores(if |kept| >= limit then kept else Insert(kept, Entry(MsOf(now), (now, nonce))))
               == MemWindow(w, limit, window, now)
    ensures var after := MemWindow(w, limit, window, now);
            after != [] && SortedUpTo(after, MsOf(now)) && after[0] > MsOf(now) - MsOf(window)
  {
    var cutoff := MsOf(now - window);
    LeftRoundsUp(0, window, now);
    SameKept(w, z, window, last, now);
    var kept, active := RemoveUpTo(Entries(z, MsOf(now)), cutoff), Active(w, cutoff);
    assert MsOf(last) <= MsOf(now) && 0 < MsOf(window);
    ActiveSorted(w, cutoff, MsOf(last));
    hide MsOf, RemoveUpTo, Active, Entries, Coupled;
    assert SortedUpTo(active, MsOf(now)) && forall k | 0 <= k < |active| :: active[k] in active;
    OneMore(kept, active, Entry(MsOf(now), (now, nonce)));
  }

  /** Adding a call to a kept set and to the same times. */
  lemma OneMore(kept: seq<Entry>, active: seq<int>, e: Entry)
    requires Scores(kept) == active && SortedUpTo(active, e.score) && 0 <= e.score
    ensures |kept| == |active| && Scores(Insert(kept, e)) == active + [e.score]
    ensures SortedUpTo(active + [e.score], e.score)
  {
    assert |Scores(kept)| == |kept|;
    forall k | 0 <= k < |kept| ensures kept[k].score <= e.score {
      assert Scores(kept)[k] == kept[k].score;
    }
    InsertNewest(kept, e);
  }

  lemma CoupledStep(w: seq<int>, z: Option<ZKey>, limit: int, window: int, last: int, now: int, nonce: nat)
    requires Coupled(w, z, window, last) && last <= now && window % MS == 0
    ensures RedisDecision(z, limit, window, now, nonce) == RoundedUp(MemDecision(w, limit, window, now), window, now)
    ensures Coupled(MemWindow(w, limit, window, now), RedisKey(z, limit, window, now, nonce), window,
                    if Unlimited(limit, window) then last else now)
  {
    if !Unlimited(limit, window) {
      SameTimes(w, z, limit, window, last, now, nonce);
      var after := MemWindow(w, limit, window, now);
      LeftRoundsUp(after[0], window, now);
      assert MsOf(window) > 0;
      hide MsOf, RemoveUpTo, Active, Entries, Insert, SortedUpTo;
      var kept := RemoveUpTo(Entries(z, MsOf(now)), MsOf(now - window));
      var es := if |kept| >= limit then kept else Insert(kept, Entry(MsOf(now), (now, nonce)));
      assert |Scores(es)| == |es| && Scores(es)[0] == es[0].score;
    }
  }

  ghost function Rounded(ds: seq<Decision>, window: int, calls: seq<Call>): seq<Decision> {
    if calls == [] || ds == [] then []
    else match calls[0]
      case Allow(_, now) => [RoundedUp(ds[0], window, now)] + Rounded(ds[1..], window, calls[1..])
      case Delete => Rounded(ds, window, calls[1..])
  }

  lemma {:induction false} SameRun(w: seq<int>, z: Option<ZKey>, window: int, last: int, nonce: nat, calls: seq<Call>)
    requires Coupled(w, z, window, last) && Forward(calls, last) && window % MS == 0
    ensures RedisRun(z, window, nonce, calls) == Rounded(MemRun(w, window, calls), window, calls)
    decreases |calls|
  {
    if calls == [] {
    } else {
      match calls[0]
      case Allow(limit, now) =>
        CoupledStep(w, z, limit, window, last, now, nonce);
        var last' := if Unlimited(limit, window) then last else now;
        ForwardEarlier(calls[1..], now, last');
        SameRun(MemWindow(w, limit, window, now), RedisKey(z, limit, window, now, nonce), window, last', nonce + 1,
                calls[1..]);
        var m := MemRun(w, window, calls);
        assert m[1..] == MemRun(MemWindow(w, limit, window, now), window, calls[1..]);
      case Delete => SameRun([], None, window, last, nonce, calls[1..]);
    }
  }

  lemma {:induction false} ForwardEarlier(calls: seq<Call>, from: int, earlier: int)
    requires Forward(calls, from) && earlier <= from
    ensures Forward(calls, earlier)
    decreases |calls|
  {
    if calls != [] && calls[0].Delete? { ForwardEarlier(calls[1..], from, earlier); }
  }

  /** The clock shows whole milliseconds. */
  ghost predicate WholeMs(calls: seq<Call>) {
    forall k | 0 <= k < |calls| && calls[k].Allow? :: calls[k].now % MS == 0
  }

  lemma {:induction false} RoundedWhole(ds: seq<Decision>, window: int, calls: seq<Call>)
    requires WholeMs(calls)
    requires forall d | d in ds :: d.allowed ==> d.retryAfter == 0
    requires |ds| == AllowCount(calls)
    ensures Rounded(ds, window, calls) == ds
    decreases |calls|
  {
    if calls == [] {
    } else {
      if calls[0].Allow? {
        assert ds[0] in ds;
        RoundedWhole(ds[1..], window, calls[1..]);
        assert ds == [ds[0]] + ds[1..];
      } else {
        RoundedWhole(ds, window, calls[1..]);
      }
    }
  }

  ghost function AllowCount(calls: seq<Call>): nat {
    if calls == [] then 0 else (if calls[0].Allow? then 1 else 0) + AllowCount(calls[1..])
  }

  lemma {:induction false} MemRunShape(w: seq<int>, window: int, calls: seq<Call>)
    ensures |MemRun(w, window, calls)| == AllowCount(calls)
    ensures forall d | d in MemRun(w, window, calls) :: d.allowed ==> d.retryAfter == 0
    decreases |calls|
  {
    if calls == [] {
    } else {
      match calls[0]
      case Allow(limit, now) => MemRunShape(MemWindow(w, limit, window, now), window, calls[1..]);
      case Delete => MemRunShape([], window, calls[1..]);
    }
  }

  ghost predicate ProvidersAgree(window: int, calls: seq<Call>) {
    MemRun([], window, calls) == RedisRun(None, window, 0, calls)
  }

  /** Provider equivalence: for whole-millisecond windows, and only for those, the two providers give
      the same decisions, counts and times over every history with a forward millisecond clock. */
  lemma ProviderEquivalence(window: int)
    requires window > 0
    ensures (forall calls | Forward(calls, 0) && WholeMs(calls) :: ProvidersAgree(window, calls))
            <==> window % MS == 0
  {
    if window % MS == 0 {
      forall calls | Forward(calls, 0) && WholeMs(calls) ensures ProvidersAgree(window, calls) {
        SameRun([], None, window, 0, 0, calls);
        MemRunShape([], window, calls);
        RoundedWhole(MemRun([], window, calls), window, calls);
      }
    } else {
      var calls := FractionOfMs(window);
    }
  }

  /** Two calls that tell the providers apart: for a window with a fraction of a millisecond the
      second call, made as the whole part runs out, is denied by the memory provider for the
      fraction left, which Redis has dropped. */
  lemma FractionOfMs(window: int) returns (calls: seq<Call>)
    requires window > 0 && window % MS != 0
    ensures Forward(calls, 0) && WholeMs(calls) && !ProvidersAgree(window, calls)
  {
    var at := MsOf(window) * MS;
    var second := [Allow(1, at)];
    calls := [Allow(1, 0)] + second;
    assert calls[1..] == second && second[1..] == [];
    assert at >= 0 && at % MS == 0;
    assert Forward(second, 0);
    assert |calls| == 2 && calls[0] == Allow(1, 0) && calls[1] == Allow(1, at);
    forall k | 0 <= k < |calls| && calls[k].Allow? ensures calls[k].now % MS == 0 {
      assert k == 0 || k == 1;
    }
    MemoryDenies(window);
    RedisForgets(window);
    hide MemDecision, MemWindow, RedisDecision, RedisKey, MsOf;
    assert MemRun([0], window, second) == [MemDecision([0], 1, window, at)] + [];
    assert MemRun([], window, calls)[1] == MemDecision([0], 1, window, at);
    var z := RedisKey(None, 1, window, 0, 0);
    assert RedisRun(z, window, 1, second) == [RedisDecision(z, 1, window, at, 1)] + [];
    assert RedisRun(None, window, 0, calls)[1] == RedisDecision(z, 1, window, at, 1);
  }

  lemma MemoryDenies(window: int)
    requires window > 0 && window % MS != 0
    ensures MemWindow([], 1, window, 0) == [0]
    ensures var d := MemDecision([0], 1, window, MsOf(window) * MS); !d.allowed && d.retryAfter > 0
  {
    var at := MsOf(window) * MS;
    assert MsOf(at) == MsOf(window) && MsOf(at - window) == -1;
    assert [0][..0] == [];
    assert Active([0], -1) == [0];
  }

  lemma RedisForgets(window: int)
    requires window > 0
    ensures var e := RedisDecision(RedisKey(None, 1, window, 0, 0), 1, window, MsOf(window) * MS, 1);
            e.allowed || e.retryAfter == 0
  {
    var at := MsOf(window) * MS;
    assert MsOf(0 - window) < 0 && MsOf(0) == 0 && MsOf(at) == MsOf(window);
    var es := [Entry(0, (0, 0))];
    assert RemoveUpTo([], MsOf(0 - window)) == [] && Insert([], es[0]) == es;
    assert RedisKey(None, 1, window, 0, 0) == Expiring(es, 0, MsOf(window));
    if MsOf(window) > 0 {
      assert es[..0] == [];
      var cutoff := MsOf(at - window);
      assert RemoveUpTo(es, cutoff) == if 0 <= cutoff then [] else es;
    }
  }

  /** The nonce keeps members apart: everything in the set was added under a smaller one, so ZADD
      never replaces an entry. */
  ghost predicate OlderNonces(es: seq<Entry>, nonce: nat) {
    forall e | e in es :: e.member.1 < nonce
  }

  lemma NoncesGrow(z: Option<ZKey>, limit: int, window: int, now: int, nonce: nat)
    requires z.Some? ==> OlderNonces(z.value.entries, nonce)
    ensures var z' := RedisKey(z, limit, window, now, nonce);
            z'.Some? ==> OlderNonces(z'.value.entries, nonce + 1)
  {
    if !Unlimited(limit, window) {
      var es, e := Entries(z, MsOf(now)), Entry(MsOf(now), (now, nonce));
      KeptAreOld(es, MsOf(now - window));
      InsertMembers(RemoveUpTo(es, MsOf(now - window)), e);
    }
  }

  lemma {:induction false} KeptAreOld(es: seq<Entry>, cutoff: int)
    ensures forall e | e in RemoveUpTo(es, cutoff) :: e in es
  {
    if es == [] {
    } else {
      KeptAreOld(es[..|es| - 1], cutoff);
      assert es == es[..|es| - 1] + [es[|es| - 1]];
    }
  }

  lemma {:induction false} InsertMembers(es: seq<Entry>, e: Entry)
    ensures forall x | x in Insert(es, e) :: x in es || x == e
  {
    if es != [] && es[|es| - 1].score > e.score {
      InsertMembers(es[..|es| - 1], e);
      assert es == es[..|es| - 1] + [es[|es| - 1]];
    }
  }

  ghost predicate ByScore(es: seq<Entry>) {
    forall j, k | 0 <= j < k < |es| :: es[j].score <= es[k].score
  }

  /** The sorted set stays sorted by score, whatever is added. */
  lemma {:induction false} InsertSorts(es: seq<Entry>, e: Entry)
    requires ByScore(es)
    ensures ByScore(Insert(es, e)) && multiset(Insert(es, e)) == multiset(es) + multiset{e}
  {
    if es == [] || es[|es| - 1].score <= e.score {
    } else {
      var front, last := es[..|es| - 1], es[|es| - 1];
      assert es == front + [last];
      InsertSorts(front, e);
      LastStaysLast(front, last, e, Insert(front, e));
    }
  }

  lemma LastStaysLast(front: seq<Entry>, last: Entry, e: Entry, more: seq<Entry>)
    requires ByScore(more) && multiset(more) == multiset(front) + multiset{e}
    requires ByScore(front + [last]) && e.score <= last.score
    ensures ByScore(more + [last])
  {
    forall k | 0 <= k < |more| ensures more[k].score <= last.score {
      assert more[k] in multiset(more);
      if more[k] != e {
        var j :| 0 <= j < |front| && front[j] == more[k];
        assert (front + [last])[j].score <= (front + [last])[|front|].score;
      }
    }
  }

  // ---- The limiter's promise ----

  /** The times of the allowed calls of a history with one limit, decided by the memory provider. */
  ghost function AllowedTimes(w: seq<int>, limit: int, window: int, nows: seq<int>): seq<int>
    decreases |nows|
  {
    if nows == [] then []
    else
      (if MemDecision(w, limit, window, nows[0]).allowed then [nows[0]] else [])
      + AllowedTimes(MemWindow(w, limit, window, nows[0]), limit, window, nows[1..])
  }

  ghost predicate Ascending(nows: seq<int>, from: int) {
    && (forall k | 0 <= k < |nows| :: from <= nows[k])
    && (forall j, k | 0 <= j < k < |nows| :: nows[j] <= nows[k])
  }

  /** How many of `times` lie in the window that ends at `t`: after its cutoff millisecond, and not
      later than `t`. */
  function InWindow(times: seq<int>, window: int, t: int): nat {
    if times == [] then 0
    else InWindow(times[..|times| - 1], window, t)
         + if MsOf(times[|times| - 1]) > MsOf(t - window) && times[|times| - 1] <= t then 1 else 0
  }

  /** From `last` on the window answers for `times` at every instant. */
  ghost predicate AnswersFor(w: seq<int>, times: seq<int>, window: int, last: int) {
    forall now | now >= last :: |Active(w, MsOf(now - window))| == InWindow(times, window, now)
  }

  ghost predicate NeverOver(times: seq<int>, limit: int, window: int) {
    forall t :: InWindow(times, window, t) <= limit
  }

  /** The window kept for `times`, the allowed calls so far, holds of them what any later cutoff still
      counts, and no window of time holds more of them than the limit. */
  ghost predicate Remembers(w: seq<int>, times: seq<int>, limit: int, window: int, last: int) {
    && SortedUpTo(w, MsOf(last)) && |w| <= limit
    && (forall k | 0 <= k < |times| :: 0 <= times[k] <= last)
    && AnswersFor(w, times, window, last)
    && NeverOver(times, limit, window)
  }

  lemma ActiveAppend(w: seq<int>, x: int, cutoff: int)
    ensures Active(w + [x], cutoff) == Active(w, cutoff) + if x > cutoff then [x] else []
  {
    assert (w + [x])[..|w|] == w;
  }

  lemma {:induction false} ActiveTwice(w: seq<int>, c1: int, c2: int)
    requires c1 <= c2
    ensures Active(Active(w, c1), c2) == Active(w, c2)
  {
    if w == [] {
    } else {
      var rest, last := w[..|w| - 1], w[|w| - 1];
      ActiveTwice(rest, c1, c2);
      if last > c1 { ActiveAppend(Active(rest, c1), last, c2); } else { assert Active(w, c1) == Active(rest, c1); }
    }
  }

  lemma InWindowAppend(times: seq<int>, x: int, window: int, t: int)
    ensures InWindow(times + [x], window, t)
         == InWindow(times, window, t) + if MsOf(x) > MsOf(t - window) && x <= t then 1 else 0
  {
    assert (times + [x])[..|times|] == times;
  }

  lemma {:induction false} InWindowShrinks(times: seq<int>, window: int, now: int, t: int)
    requires now <= t && forall k | 0 <= k < |times| :: times[k] <= now
    ensures InWindow(times, window, t) <= InWindow(times, window, now)
  {
    if times == [] {
    } else {
      InWindowShrinks(times[..|times| - 1], window, now, t);
    }
  }

  lemma AnswersStep(w: seq<int>, times: seq<int>, limit: int, window: int, last: int, now: int)
    requires AnswersFor(w, times, window, last) && limit > 0 && window > 0 && last <= now
    ensures AnswersFor(MemWindow(w, limit, window, now),
                       if MemDecision(w, limit, window, now).allowed then times + [now] else times, window, now)
  {
    var cutoff := MsOf(now - window);
    var active, allowed := Active(w, cutoff), MemDecision(w, limit, window, now).allowed;
    var w', times' := MemWindow(w, limit, window, now), if allowed then times + [now] else times;
    forall later | later >= now ensures |Active(w', MsOf(later - window))| == InWindow(times', window, later) {
      ActiveTwice(w, cutoff, MsOf(later - window));
      ActiveAppend(active, MsOf(now), MsOf(later - window));
      InWindowAppend(times, now, window, later);
    }
  }

  lemma NeverOverStep(times: seq<int>, limit: int, window: int, now: int)
    requires NeverOver(times, limit, window) && InWindow(times, window, now) < limit
    requires forall k | 0 <= k < |times| :: times[k] <= now
    ensures NeverOver(times + [now], limit, window)
  {
    forall t ensures InWindow(times + [now], window, t) <= limit {
      InWindowAppend(times, now, window, t);
      if t >= now { InWindowShrinks(times, window, now, t); }
    }
  }

  /** The memory provider's test is the full-history test. */
  lemma DecisionIsFullHistory(w: seq<int>, times: seq<int>, limit: int, window: int, last: int, now: int)
    requires AnswersFor(w, times, window, last) && limit > 0 && window > 0 && last <= now
    ensures MemDecision(w, limit, window, now).allowed <==> InWindow(times, window, now) < limit
  {
  }

  lemma WindowStaysSmall(w: seq<int>, limit: int, window: int, last: int, now: int)
    requires SortedUpTo(w, MsOf(last)) && |w| <= limit && 0 <= last <= now
    ensures SortedUpTo(MemWindow(w, limit, window, now), MsOf(now)) && |MemWindow(w, limit, window, now)| <= limit
  {
    ActiveSorted(w, MsOf(now - window), MsOf(last));
  }

  lemma RemembersStep(w: seq<int>, times: seq<int>, limit: int, window: int, last: int, now: int)
    requires Remembers(w, times, limit, window, last) && limit > 0 && window > 0 && 0 <= last <= now
    ensures MemDecision(w, limit, window, now).allowed <==> InWindow(times, window, now) < limit
    ensures Remembers(MemWindow(w, limit, window, now),
                      if MemDecision(w, limit, window, now).allowed then times + [now] else times, limit, window, now)
  {
    hide MemDecision, MemWindow, InWindow, SortedUpTo, AnswersFor, NeverOver;
    DecisionIsFullHistory(w, times, limit, window, last, now);
    WindowStaysSmall(w, limit, window, last, now);
    AnswersStep(w, times, limit, window, last, now);
    if MemDecision(w, limit, window, now).allowed {
      NeverOverStep(times, limit, window, now);
    }
  }

  lemma NothingRemembered(limit: int, window: int)
    requires limit > 0
    ensures Remembers([], [], limit, window, 0)
  {
  }

  ghost function WindowAfter(w: seq<int>, limit: int, window: int, nows: seq<int>): seq<int>
    decreases |nows|
  {
    if nows == [] then w else WindowAfter(MemWindow(w, limit, window, nows[0]), limit, window, nows[1..])
  }

  lemma AllowedCons(w: seq<int>, times: seq<int>, limit: int, window: int, nows: seq<int>)
    ensures times + AllowedTimes(w, limit, window, nows) ==
            if nows == [] then times
            else (if MemDecision(w, limit, window, nows[0]).allowed then times + [nows[0]] else times)
                 + AllowedTimes(MemWindow(w, limit, window, nows[0]), limit, window, nows[1..])
  {
    hide MemWindow, MemDecision;
    if nows != [] {
      var more := AllowedTimes(MemWindow(w, limit, window, nows[0]), limit, window, nows[1..]);
      if MemDecision(w, limit, window, nows[0]).allowed {
        assert AllowedTimes(w, limit, window, nows) == [nows[0]] + more;
        assert times + ([nows[0]] + more) == times + [nows[0]] + more;
      } else {
        assert AllowedTimes(w, limit, window, nows) == [] + more == more;
      }
    }
  }

  lemma {:induction false} RemembersAfter(w: seq<int>, times: seq<int>, limit: int, window: int, last: int, nows: seq<int>)
    requires Remembers(w, times, limit, window, last) && limit > 0 && window > 0 && 0 <= last && Ascending(nows, last)
    ensures Remembers(WindowAfter(w, limit, window, nows), times + AllowedTimes(w, limit, window, nows), limit, window,
                      if nows == [] then last else nows[|nows| - 1])
    decreases |nows|
  {
    hide Remembers, MemWindow, MemDecision, AllowedTimes;
    AllowedCons(w, times, limit, window, nows);
    if nows == [] {
    } else {
      var now := nows[0];
      RemembersStep(w, times, limit, window, last, now);
      var times' := if MemDecision(w, limit, window, now).allowed then times + [now] else times;
      RemembersAfter(MemWindow(w, limit, window, now), times', limit, window, now, nows[1..]);
    }
  }

  /** The bound in the provider's own terms: with one limit and window, over every history with a
      forward clock, no window cut off at a whole millisecond contains more than `limit` allowed calls. */
  lemma LimitHolds(limit: int, window: int, nows: seq<int>, t: int)
    requires limit > 0 && window > 0 && Ascending(nows, 0)
    ensures InWindow(AllowedTimes([], limit, window, nows), window, t) <= limit
  {
    NothingRemembered(limit, window);
    RemembersAfter([], [], limit, window, 0, nows);
    assert [] + AllowedTimes([], limit, window, nows) == AllowedTimes([], limit, window, nows);
  }

  /** How many of `times` lie in the interval (t - span, t], to the nanosecond. */
  function InSpan(times: seq<int>, span: int, t: int): nat {
    if times == [] then 0
    else InSpan(times[..|times| - 1], span, t)
         + if t - span < times[|times| - 1] <= t then 1 else 0
  }

  ghost predicate AllWhole(times: seq<int>) {
    forall k | 0 <= k < |times| :: times[k] % MS == 0
  }

  /** For times of whole milliseconds the provider's window is the interval. */
  lemma {:induction false} WholeTimes(times: seq<int>, window: int, t: int)
    requires AllWhole(times)
    ensures InSpan(times, window, t) == InWindow(times, window, t)
  {
    if times == [] {
    } else {
      var x := times[|times| - 1];
      WholeTimes(times[..|times| - 1], window, t);
      assert MsOf(x) > MsOf(t - window) <==> x > t - window;
    }
  }

  /** Any other times may be mistaken by less than a millisecond. */
  lemma {:induction false} ShorterSpan(times: seq<int>, window: int, t: int, short: int)
    requires short >= MS - 1
    ensures InSpan(times, window - short, t) <= InWindow(times, window, t)
  {
    if times == [] {
    } else {
      ShorterSpan(times[..|times| - 1], window, t, short);
    }
  }

  lemma {:induction false} AllowedAreCalls(w: seq<int>, limit: int, window: int, nows: seq<int>)
    ensures forall x | x in AllowedTimes(w, limit, window, nows) :: x in nows
    decreases |nows|
  {
    if nows == [] {
    } else {
      AllowedAreCalls(MemWindow(w, limit, window, nows[0]), limit, window, nows[1..]);
      assert nows == [nows[0]] + nows[1..];
    }
  }

  /** The bound of the interval itself, for every window: if the clock shows whole milliseconds no
      interval (t - window, t] contains more than `limit` allowed calls. */
  lemma LimitHoldsExactly(limit: int, window: int, nows: seq<int>, t: int)
    requires limit > 0 && window > 0 && Ascending(nows, 0) && AllWhole(nows)
    ensures InSpan(AllowedTimes([], limit, window, nows), window, t) <= limit
  {
    LimitHolds(limit, window, nows, t);
    AllowedAreCalls([], limit, window, nows);
    var times := AllowedTimes([], limit, window, nows);
    assert forall k | 0 <= k < |times| :: times[k] in times;
    WholeTimes(times, window, t);
  }

  /** No interval of this length, wherever it ends, contains more than `limit` allowed calls. */
  ghost predicate SpanHolds(limit: int, window: int, span: int, nows: seq<int>) {
    forall t :: InSpan(AllowedTimes([], limit, window, nows), span, t) <= limit
  }

  /** For a clock of nanoseconds the bound fails of the window itself, whatever limit and window are:
      it holds over all histories exactly for intervals shorter than the window by all but one of the
      nanoseconds of a millisecond, or more. */
  lemma LimitHoldsShort(limit: int, window: int, short: int)
    requires limit > 0 && 0 <= short < window
    ensures (forall nows | Ascending(nows, 0) :: SpanHolds(limit, window, window - short, nows)) <==> short >= MS - 1
  {
    if short >= MS - 1 {
      forall nows | Ascending(nows, 0) ensures SpanHolds(limit, window, window - short, nows) {
        var times, span := AllowedTimes([], limit, window, nows), window - short;
        forall t ensures InSpan(times, span, t) <= limit {
          LimitHolds(limit, window, nows, t);
          ShorterSpan(times, window, t, short);
        }
      }
    } else {
      var nows := OneTooMany(limit, window, short);
      assert !SpanHolds(limit, window, window - short, nows);
    }
  }

  function Repeat(x: int, n: nat): (r: seq<int>)
    ensures |r| == n && forall k | 0 <= k < n :: r[k] == x
  {
    if n == 0 then [] else [x] + Repeat(x, n - 1)
  }

  /** Times of the first millisecond stay in a window until its cutoff reaches that millisecond. */
  lemma {:induction false} ActiveRepeat(m: nat, cutoff: int)
    ensures Active(Repeat(0, m), cutoff) == if cutoff < 0 then Repeat(0, m) else []
  {
    if m == 0 {
    } else {
      assert Repeat(0, m)[..m - 1] == Repeat(0, m - 1);
      ActiveRepeat(m - 1, cutoff);
      assert Repeat(0, m) == Repeat(0, m - 1) + [0];
    }
  }

  lemma {:induction false} SpanOfRepeat(x: int, n: nat, span: int, t: int)
    requires t - span < x <= t
    ensures InSpan(Repeat(x, n), span, t) == n
  {
    if n == 0 {
    } else {
      assert Repeat(x, n)[..n - 1] == Repeat(x, n - 1);
      SpanOfRepeat(x, n - 1, span, t);
    }
  }

  /** While the window has room a call in the first millisecond is allowed, and so is one a window
      after its beginning. */
  lemma GrantedEarly(limit: int, window: int, x: int, m: nat) returns (left: nat)
    requires 0 < x < MS && x <= window && m < limit
    ensures MemDecision(Repeat(0, m), limit, window, x).allowed
    ensures left <= m && MemWindow(Repeat(0, m), limit, window, x) == Repeat(0, left + 1)
  {
    var cutoff := MsOf(x - window);
    ActiveRepeat(m, cutoff);
    left := if cutoff < 0 then m else 0;
    assert MsOf(x) == 0 && Repeat(0, left) + [0] == Repeat(0, left + 1);
  }

  lemma GrantedLate(limit: int, window: int, m: nat)
    requires limit > 0 && window > 0
    ensures MemDecision(Repeat(0, m), limit, window, window).allowed
  {
    ActiveRepeat(m, 0);
    assert MsOf(window - window) == 0;
  }

  lemma {:induction false} AllGranted(limit: int, window: int, x: int, m: nat, n: nat)
    requires 0 < x < MS && x <= window && limit > 0 && m + n <= limit
    ensures AllowedTimes(Repeat(0, m), limit, window, Repeat(x, n) + [window]) == Repeat(x, n) + [window]
    decreases n
  {
    hide MemDecision, MemWindow;
    var w, nows := Repeat(0, m), Repeat(x, n) + [window];
    if n == 0 {
      GrantedLate(limit, window, m);
      assert nows == [window] && nows[1..] == [];
    } else {
      var left := GrantedEarly(limit, window, x, m);
      var rest := Repeat(x, n - 1) + [window];
      assert nows == [x] + rest && nows[1..] == rest;
      AllGranted(limit, window, x, left + 1, n - 1);
    }
  }

  /** `limit` calls late in the first millisecond, and one a window after its beginning. */
  lemma OneTooMany(limit: int, window: int, short: int) returns (nows: seq<int>)
    requires limit > 0 && 0 <= short < window && short < MS - 1
    ensures Ascending(nows, 0) && !SpanHolds(limit, window, window - short, nows)
  {
    hide AllowedTimes;
    var x := short + 1;
    nows := Repeat(x, limit) + [window];
    AllGranted(limit, window, x, 0, limit);
    assert Repeat(0, 0) == [];
    SpanOfRepeat(x, limit, window - short, window);
    assert nows[..limit] == Repeat(x, limit);
    assert InSpan(nows, window - short, window) == limit + 1;
  }

  /** No allowed call is refused for want of memory: after any history a call is allowed exactly when
      a limiter that had kept every allowed call for ever would allow it. */
  lemma AsGoodAsFullHistory(limit: int, window: int, nows: seq<int>, now: int)
    requires limit > 0 && window > 0 && Ascending(nows + [now], 0)
    ensures MemDecision(WindowAfter([], limit, window, nows), limit, window, now).allowed
            <==> InWindow(AllowedTimes([], limit, window, nows), window, now) < limit
  {
    NothingRemembered(limit, window);
    AscendingPrefix(nows, now);
    RemembersAfter([], [], limit, window, 0, nows);
    var times := AllowedTimes([], limit, window, nows);
    assert [] + times == times;
    RemembersStep(WindowAfter([], limit, window, nows), times, limit, window,
                  if nows == [] then 0 else nows[|nows| - 1], now);
  }

  /** Retry-After is exact, to the nanosecond and for any window: after any history and a denial,
      every call made sooner is denied and changes nothing, and one made at that instant is allowed. */
  lemma RetryIsExact(limit: int, window: int, nows: seq<int>, now: int, t: int)
    requires limit > 0 && window > 0 && Ascending(nows + [now], 0) && now <= t
    requires !MemDecision(WindowAfter([], limit, window, nows), limit, window, now).allowed
    ensures var w := WindowAfter([], limit, window, nows);
            var d, w' := MemDecision(w, limit, window, now), MemWindow(w, limit, window, now);
            && d.retryAfter > 0
            && (t < now + d.retryAfter ==> !MemDecision(w', limit, window, t).allowed && MemWindow(w', limit, window, t) == w')
            && (t == now + d.retryAfter ==> MemDecision(w', limit, window, t).allowed)
  {
    NothingRemembered(limit, window);
    AscendingPrefix(nows, now);
    RemembersAfter([], [], limit, window, 0, nows);
    RetryFrom(WindowAfter([], limit, window, nows), [] + AllowedTimes([], limit, window, nows), limit, window,
              if nows == [] then 0 else nows[|nows| - 1], now, t);
  }

  lemma AscendingPrefix(nows: seq<int>, now: int)
    requires Ascending(nows + [now], 0)
    ensures Ascending(nows, 0) && 0 <= now && forall k | 0 <= k < |nows| :: nows[k] <= now
  {
    var all := nows + [now];
    assert all[|nows|] == now;
    forall k | 0 <= k < |nows| ensures 0 <= nows[k] <= now { assert all[k] <= all[|nows|]; }
    forall j, k | 0 <= j < k < |nows| ensures nows[j] <= nows[k] { assert all[j] <= all[k]; }
  }

  lemma RetryFrom(w: seq<int>, times: seq<int>, limit: int, window: int, last: int, now: int, t: int)
    requires Remembers(w, times, limit, window, last) && limit > 0 && window > 0 && last <= now <= t
    requires !MemDecision(w, limit, window, now).allowed
    ensures var d, w' := MemDecision(w, limit, window, now), MemWindow(w, limit, window, now);
            && d.retryAfter > 0
            && (t < now + d.retryAfter ==> !MemDecision(w', limit, window, t).allowed && MemWindow(w', limit, window, t) == w')
            && (t == now + d.retryAfter ==> MemDecision(w', limit, window, t).allowed)
  {
    var cutoff := MsOf(now - window);
    ActiveSorted(w, cutoff, MsOf(last));
    var w' := MemWindow(w, limit, window, now);
    assert w' == Active(w, cutoff) && |w'| == limit && w'[0] in w';
    var c := MsOf(t - window);
    if t < w'[0] * MS + window {
      AllActive(w', c);
    } else if t == w'[0] * MS + window {
      assert c == w'[0];
      OldestDropped(w', c);
    }
  }

  /** The count a call reports is that of the allowed calls in the window, its own included. */
  ghost predicate CountTold(limit: int, window: int, nows: seq<int>, now: int) {
    var d := MemDecision(WindowAfter([], limit, window, nows), limit, window, now);
    d.count == InWindow(AllowedTimes([], limit, window, nows) + if d.allowed then [now] else [], window, now)
  }

  /** For windows of a millisecond or more what a call reports is exact: the count, what remains of the
      limit, and the reset, which comes at the first instant at which one of the calls counted has left the
      window. */
  lemma ReportIsExact(limit: int, window: int, nows: seq<int>, now: int, t: int)
    requires limit > 0 && window >= MS && Ascending(nows + [now], 0) && now <= t
    ensures CountTold(limit, window, nows, now)
    ensures var d := MemDecision(WindowAfter([], limit, window, nows), limit, window, now);
            var times := AllowedTimes([], limit, window, nows) + if d.allowed then [now] else [];
            && d.limit == limit && d.remaining == limit - d.count >= 0
            && 0 < d.resetAfter <= window && d.retryAfter == (if d.allowed then 0 else d.resetAfter)
            && (InWindow(times, window, t) < d.count <==> now + d.resetAfter <= t)
  {
    NothingRemembered(limit, window);
    AscendingPrefix(nows, now);
    RemembersAfter([], [], limit, window, 0, nows);
    var w, times := WindowAfter([], limit, window, nows), AllowedTimes([], limit, window, nows);
    assert [] + times == times && times + [] == times;
    ReportFrom(w, times, limit, window, if nows == [] then 0 else nows[|nows| - 1], now, t);
  }

  /** A shorter window may be over before the millisecond is: a call is then not even in its own window,
      though it reports that it is.  So counts are exact for windows of a millisecond or more, and for no others. */
  lemma CountsAreExact(limit: int, window: int)
    requires limit > 0 && window > 0
    ensures (forall nows: seq<int>, now | Ascending(nows + [now], 0) :: CountTold(limit, window, nows, now))
            <==> window >= MS
  {
    if window >= MS {
      forall nows: seq<int>, now | Ascending(nows + [now], 0) ensures CountTold(limit, window, nows, now) {
        ReportIsExact(limit, window, nows, now, now);
      }
    } else {
      assert [] + [window] == [window] && Ascending([] + [window], 0);
      InWindowAppend([], window, window, window);
      assert MemDecision([], limit, window, window).count == 1 && !CountTold(limit, window, [], window);
    }
  }

  lemma ReportFrom(w: seq<int>, times: seq<int>, limit: int, window: int, last: int, now: int, t: int)
    requires Remembers(w, times, limit, window, last) && limit > 0 && window >= MS && 0 <= last <= now <= t
    ensures var d := MemDecision(w, limit, window, now);
            var times' := if d.allowed then times + [now] else times;
            && d.limit == limit && d.count == InWindow(times', window, now) && d.remaining == limit - d.count >= 0
            && 0 < d.resetAfter <= window && d.retryAfter == (if d.allowed then 0 else d.resetAfter)
            && (InWindow(times', window, t) < d.count <==> now + d.resetAfter <= t)
  {
    RemembersStep(w, times, limit, window, last, now);
    var d, w', c := MemDecision(w, limit, window, now), MemWindow(w, limit, window, now), MsOf(t - window);
    var times' := if d.allowed then times + [now] else times;
    assert |Active(w', MsOf(now - window))| == InWindow(times', window, now);
    assert |Active(w', c)| == InWindow(times', window, t);
    DecisionTells(w, limit, window, last, now);
    AllActive(w', MsOf(now - window));
    if t < w'[0] * MS + window { AllActive(w', c); } else { OldestDropped(w', c); }
    hide InWindow, Active, MemWindow, MemDecision, Remembers;
  }

  /** The decision in terms of the window after it. */
  lemma DecisionTells(w: seq<int>, limit: int, window: int, last: int, now: int)
    requires SortedUpTo(w, MsOf(last)) && |w| <= limit && limit > 0 && window >= MS && 0 <= last <= now
    ensures var d, w' := MemDecision(w, limit, window, now), MemWindow(w, limit, window, now);
            && w' != [] && |w'| <= limit && d.limit == limit && d.count == |w'| && d.remaining == limit - |w'|
            && d.resetAfter == w'[0] * MS + window - now && 0 < d.resetAfter <= window
            && d.retryAfter == (if d.allowed then 0 else d.resetAfter)
            && forall k | 0 <= k < |w'| :: w'[k] >= w'[0] > MsOf(now - window)
  {
    WindowStaysSmall(w, limit, window, last, now);
    ActiveSorted(w, MsOf(now - window), MsOf(last));
    var w' := MemWindow(w, limit, window, now);
    assert w' != [] && w'[0] in w';
    assert MsOf(now) > MsOf(now - window) && w'[0] > MsOf(now - window);
    hide Active;
    InMillis(w'[0], now);
    InMillis(w'[0], now - window);
  }

  lemma InMillis(x: int, t: int)
    ensures x <= MsOf(t) <==> x * MS <= t
  {
  }

  /** Whatever the clock and the limit do, nothing reported is negative: what remains is nothing once there
      are as many calls as the limit, and the reset is now once the oldest call's time is up. */
  lemma NeverNegative(w: seq<int>, limit: int, window: int, now: int)
    requires limit > 0 && window > 0
    ensures var d, w' := MemDecision(w, limit, window, now), MemWindow(w, limit, window, now);
            && w' != [] && d.count == |w'|
            && d.remaining == (if |w'| >= limit then 0 else limit - |w'|)
            && d.resetAfter == (if w'[0] * MS + window <= now then 0 else w'[0] * MS + window - now)
            && 0 <= d.retryAfter <= d.resetAfter
  {
    hide Active, MsOf;
  }

  /** The script deletes the key at once for a window of less than a millisecond: it never denies a call
      then, and counts none but the call's own. */
  lemma {:induction false} ScriptForgets(window: int, nonce: nat, calls: seq<Call>)
    requires 0 < window < MS && forall c | c in calls :: c.Allow? && c.limit > 0
    ensures |RedisRun(None, window, nonce, calls)| == |calls|
    ensures forall k | 0 <= k < |calls| ::
              RedisRun(None, window, nonce, calls)[k].allowed && RedisRun(None, window, nonce, calls)[k].count == 1
    decreases |calls|
  {
    if calls == [] {
    } else {
      assert calls[0] in calls;
      ScriptForgets(window, nonce + 1, calls[1..]);
    }
  }

  /** Without a limit, or without a window, every call is allowed, and none is remembered. */
  lemma {:induction false} NoLimit(w: seq<int>, window: int, calls: seq<Call>)
    requires forall c | c in calls :: c.Allow? && (c.limit <= 0 || window <= 0)
    ensures |MemRun(w, window, calls)| == |calls|
    ensures forall k | 0 <= k < |calls| :: MemRun(w, window, calls)[k] == Decision(true, calls[k].limit, 0, calls[k].limit, 0, 0)
    decreases |calls|
  {
    if calls == [] {
    } else {
      assert calls[0] in calls;
      NoLimit(MemWindow(w, calls[0].limit, window, calls[0].now), window, calls[1..]);
    }
  }

  lemma {:induction false} AllActive(w: seq<int>, cutoff: int)
    requires forall k | 0 <= k < |w| :: w[k] > cutoff
    ensures Active(w, cutoff) == w
  {
    if w == [] {
    } else {
      AllActive(w[..|w| - 1], cutoff);
      assert w == w[..|w| - 1] + [w[|w| - 1]];
    }
  }

  lemma {:induction false} OldestDropped(w: seq<int>, cutoff: int)
    requires w != [] && w[0] <= cutoff
    ensures |Active(w, cutoff)| < |w|
  {
    if |w| > 1 {
      OldestDropped(w[..|w| - 1], cutoff);
    } else {
      assert w[..0] == [];
    }
  }
}
