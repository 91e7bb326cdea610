/** infra/cache/memory.go and redis.go: the two stores, updated in place, against SlidingWindow. */
module CacheStores {
  import opened Results
  import opened SlidingWindow

  /** A Go slice: the leading `len` elements of a buffer that may have room for more. */
  datatype Slice = Slice(buf: array<int>, len: nat)

  class MemoryStore {
    var rateWindows: map<string, Slice>

    ghost predicate Valid() reads this {
      && (forall k | k in rateWindows :: rateWindows[k].len <= rateWindows[k].buf.Length)
      && (forall j, k | j in rateWindows && k in rateWindows && j != k :: rateWindows[j].buf != rateWindows[k].buf)
    }

    ghost function Buffers(): set<object> reads this {
      set k | k in rateWindows :: rateWindows[k].buf
    }

    /** The timestamps kept for a key. */
    ghost function Window(key: string): seq<int>
      requires Valid()
      reads this, Buffers()
    {
      if key in rateWindows then rateWindows[key].buf[..rateWindows[key].len] else []
    }

    constructor ()
      ensures Valid() && rateWindows == map[]
    {
      rateWindows := map[];
    }

    /** The filter loop: the survivors move to the front of the buffer they are in. */
    static method FilterInPlace(raw: Slice, cutoff: int) returns (active: Slice)
      requires raw.len <= raw.buf.Length
      modifies raw.buf
      ensures active.buf == raw.buf && active.len <= raw.len
      ensures active.buf[..active.len] == Active(old(raw.buf[..raw.len]), cutoff)
    {
      ghost var was := raw.buf[..raw.len];
      var n := 0;
      for i := 0 to raw.len
        invariant n <= i
        invariant raw.buf[..n] == Active(was[..i], cutoff)
        invariant forall k | i <= k < raw.len :: raw.buf[k] == was[k]
      {
        var ts := raw.buf[i];
        ghost var kept := raw.buf[..n];
        assert was[..i + 1][..i] == was[..i];
        if ts > cutoff {
          raw.buf[n] := ts;
          n := n + 1;
          assert raw.buf[..n] == kept + [ts];
        } else {
          assert kept + [] == kept;
        }
      }
      assert was[..raw.len] == was;
      active := Slice(raw.buf, n);
    }

    /** Go's append: in place while there is room, in a larger copy when there is not. */
    static method Append(s: Slice, x: int) returns (r: Slice)
      requires s.len <= s.buf.Length
      modifies s.buf
      ensures r.len == s.len + 1 <= r.buf.Length && (r.buf == s.buf || fresh(r.buf))
      ensures r.buf[..r.len] == old(s.buf[..s.len]) + [x]
    {
      if s.len < s.buf.Length {
        s.buf[s.len] := x;
        r := Slice(s.buf, s.len + 1);
      } else {
        var bigger := new int[2 * s.len + 1](_ => 0);
        forall i | 0 <= i < s.len { bigger[i] := s.buf[i]; }
        bigger[s.len] := x;
        r := Slice(bigger, s.len + 1);
      }
    }

    /** The slice a key has, or an empty one. */
    method Load(key: string) returns (raw: Slice)
      requires Valid()
      ensures raw.len <= raw.buf.Length && raw.buf[..raw.len] == Window(key)
      ensures if key in rateWindows then raw == rateWindows[key] && raw.buf in Buffers() else fresh(raw.buf)
    {
      if key in rateWindows {
        raw := rateWindows[key];
      } else {
        var none := new int[0];
        raw := Slice(none, 0);
      }
    }

    /** Puts a slice back under its key, or forgets the key if nothing is left. */
    method Store(key: string, s: Slice)
      requires Valid() && s.len <= s.buf.Length
      requires forall k | k in rateWindows && k != key :: rateWindows[k].buf != s.buf
      modifies this
      ensures Valid() && Window(key) == s.buf[..s.len]
      ensures forall k | k != key :: Window(k) == old(Window(k))
      ensures Buffers() <= old(Buffers()) + {s.buf}
    {
      if s.len == 0 {
        rateWindows := rateWindows - {key};
      } else {
        rateWindows := rateWindows[key := s];
      }
    }

    /** Slides a key's window to `now`, in place, and adds `now` if the call is allowed. */
    method Slide(key: string, limit: int, window: int, now: int) returns (active: Slice, allowed: bool)
      requires Valid() && limit > 0 && window > 0
      modifies this, Buffers()
      ensures Valid() && Buffers() <= old(Buffers()) + {active.buf} && (active.buf in old(Buffers()) || fresh(active.buf))
      ensures allowed <==> |Active(old(Window(key)), MsOf(now - window))| < limit
      ensures active.len <= active.buf.Length
      ensures active.buf[..active.len] == Window(key) == MemWindow(old(Window(key)), limit, window, now)
      ensures forall k | k != key :: Window(k) == old(Window(k))
    {
      ghost var was := Window(key);
      var raw := Load(key);
      assert forall k | k in rateWindows && k != key :: rateWindows[k].buf != raw.buf && rateWindows[k].buf in Buffers();
      active := FilterInPlace(raw, MsOf(now - window));
      allowed := active.len < limit;
      if allowed {
        active := Append(active, MsOf(now));
      }
      assert forall k | k != key :: Window(k) == old(Window(k));
      Store(key, active);
    }

    method AllowSlidingWindow(key: string, limit: int, window: int, now: int) returns (d: Decision)
      requires Valid()
      modifies this, Buffers()
      ensures Valid()
      ensures d == MemDecision(old(Window(key)), limit, window, now)
      ensures Window(key) == MemWindow(old(Window(key)), limit, window, now)
      ensures forall k | k != key :: Window(k) == old(Window(k))
      ensures forall b | b in Buffers() :: b in old(Buffers()) || fresh(b)
    {
      if limit <= 0 || window <= 0 {
        return Decision(true, limit, 0, limit, 0, 0);
      }
      var active, allowed := Slide(key, limit, window, now);
      var retryAfter, resetAfter := 0, window;
      if active.len > 0 {
        assert active.buf[0] == active.buf[..active.len][0];
        resetAfter := active.buf[0] * MS + window - now;
        if resetAfter < 0 { resetAfter := 0; }
        if !allowed { retryAfter := resetAfter; }
      }
      d := Decision(allowed, limit, active.len, AtLeastZero(limit - active.len), retryAfter, resetAfter);
    }

    method Delete(key: string)
      requires Valid()
      modifies this
      ensures Valid() && Window(key) == []
      ensures forall k | k != key :: Window(k) == old(Window(k))
    {
      rateWindows := rateWindows - {key};
    }
  }

  /** The Redis server's side of the limiter: the script runs as one step on one key. */
  class RedisStore {
    var keys: map<string, ZKey>
    var nonce: nat

    ghost function Key(key: string): Option<ZKey> reads this {
      if key in keys then Some(keys[key]) else None
    }

    constructor ()
      ensures keys == map[] && nonce == 0
    {
      keys, nonce := map[], 0;
    }

    method PExpire(key: string, serverMs: int, ttl: int)
      requires key in keys
      modifies this`keys
      ensures Key(key) == Expiring(old(keys[key].entries), serverMs, ttl)
      ensures forall k | k != key :: Key(k) == old(Key(k))
    {
      if ttl <= 0 {
        keys := keys - {key};
      } else {
        keys := keys[key := ZKey(keys[key].entries, serverMs + ttl)];
      }
    }

    method AllowSlidingWindow(key: string, limit: int, window: int, now: int) returns (d: Decision)
      modifies this
      ensures d == RedisDecision(old(Key(key)), limit, window, now, old(nonce))
      ensures Key(key) == RedisKey(old(Key(key)), limit, window, now, old(nonce))
      ensures forall k | k != key :: Key(k) == old(Key(k))
      ensures nonce >= old(nonce)
    {
      if limit <= 0 || window <= 0 {
        return Decision(true, limit, 0, limit, 0, 0);
      }
      var nowMs, cutoffMs, windowMs, member := MsOf(now), MsOf(now - window), MsOf(window), (now, nonce);
      nonce := nonce + 1;
      // A key past its expiry is gone before the script sees it.
      var es := Entries(if key in keys then Some(keys[key]) else None, nowMs);
      es := RemoveUpTo(es, cutoffMs);
      var count := |es|;
      var allowed := count < limit;
      if allowed {
        es := Insert(es, Entry(nowMs, member));
      }
      keys := keys[key := ZKey(es, nowMs)];
      PExpire(key, nowMs, windowMs);
      var after := windowMs;
      if |es| > 0 { after := AtLeastZero(es[0].score + windowMs - nowMs); }
      d := Decision(allowed, limit, |es|, AtLeastZero(limit - |es|), if allowed then 0 else after * MS, after * MS);
    }

    method Delete(key: string)
      modifies this
      ensures Key(key) == None
      ensures forall k | k != key :: Key(k) == old(Key(k))
    {
      keys := keys - {key};
    }
  }
}
