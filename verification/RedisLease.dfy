/** infra/coordination/redis.go: the lease on one resource key.

    Every Redis command is one atomic step on the store, and the commands of any number of
    clients interleave freely.  A client is named by its token (a fresh uuid per acquisition);
    its renewal goroutine and its Release run side by side.  Store time only moves in Tick
    steps, and a key is gone from the instant its expiry time is reached.  SetNX and Expire are given
    the same lease, but the client library need not send the same time for both: it sends the one in
    milliseconds and the other in whole seconds. */
module RedisLease {
  import opened Results

  type Token = nat

  /** What SetNX and what Expire gives the key, in one unit. */
  datatype Ttl = Ttl(lease: int, renewal: int)

  predicate Sane(ttl: Ttl) { 0 < ttl.lease && 0 < ttl.renewal }

  datatype Lease = Lease(owner: Token, expireAt: int)

  /** How far Release has got: `DelPending` means its Get saw the holder's own token on a lease that
      was sure to stand until `seen`, so a Del is on its way. */
  datatype ReleasePc = Held | Closed | DelPending(seen: int) | Released

  /** A token whose SetNX succeeded.  `expires` counts the Expire commands its renewal loop has
      issued that have not reached the store; a client-side timeout does not recall them.
      `acquiredAt` and `epoch` record when the SetNX ran and how many ran before it. */
  datatype Holder = Holder(acquiredAt: int, epoch: nat, expires: nat, release: ReleasePc)

  datatype State = State(now: int, key: Option<Lease>, holders: map<Token, Holder>, epochs: nat)

  datatype Action =
    | Tick(d: nat)
    | SetNX(tok: Token)
    | RenewGet(tok: Token)
    | RenewExpire(tok: Token)
    | Close(tok: Token)
    | ReleaseGet(tok: Token)
    | ReleaseDel(tok: Token)

  const INIT := State(0, None, map[], 0)

  predicate Live(s: State) {
    s.key.Some? && s.now < s.key.value.expireAt
  }

  /** What a Get of the lock key answers. */
  predicate Owns(s: State, tok: Token) {
    Live(s) && s.key.value.owner == tok
  }

  function Min(a: int, b: int): int { if a < b then a else b }

  /** The time until which a lease stands whatever lands: an Expire puts the expiry at its own time and
      a renewal's length on. */
  function SureUntil(ttl: Ttl, s: State): int
    requires s.key.Some?
  {
    Min(s.key.value.expireAt, s.now + ttl.renewal)
  }

  predicate Enabled(s: State, a: Action) {
    match a
    case Tick(_) => true
    case SetNX(tok) => tok !in s.holders
    case RenewGet(tok) => tok in s.holders
    case RenewExpire(tok) => tok in s.holders && s.holders[tok].expires > 0
    case Close(tok) => tok in s.holders && s.holders[tok].release.Held?
    case ReleaseGet(tok) => tok in s.holders && s.holders[tok].release.Closed?
    case ReleaseDel(tok) => tok in s.holders && s.holders[tok].release.DelPending?
  }

  function Next(ttl: Ttl, s: State, a: Action): State
    requires Enabled(s, a)
  {
    match a
    case Tick(d) => s.(now := s.now + d)
    case SetNX(tok) =>
      if Live(s) then s
      else State(s.now, Some(Lease(tok, s.now + ttl.lease)),
                 s.holders[tok := Holder(s.now, s.epochs, 0, Held)], s.epochs + 1)
    case RenewGet(tok) =>
      var h := s.holders[tok];
      if Owns(s, tok) then s.(holders := s.holders[tok := h.(expires := h.expires + 1)]) else s
    case RenewExpire(tok) =>
      var h := s.holders[tok];
      // EXPIRE names the key, not the owner: it extends whatever lease is there.
      var key := if Live(s) then Some(s.key.value.(expireAt := s.now + ttl.renewal)) else s.key;
      s.(key := key, holders := s.holders[tok := h.(expires := h.expires - 1)])
    case Close(tok) =>
      s.(holders := s.holders[tok := s.holders[tok].(release := Closed)])
    case ReleaseGet(tok) =>
      var pc := if Owns(s, tok) then DelPending(SureUntil(ttl, s)) else Released;
      s.(holders := s.holders[tok := s.holders[tok].(release := pc)])
    case ReleaseDel(tok) =>
      // DEL is just as blind.
      s.(key := None, holders := s.holders[tok := s.holders[tok].(release := Released)])
  }

  /** The timing assumption on Release: the Del lands before the lease its Get saw can have run out. */
  predicate Prompt(s: State, a: Action)
    requires Enabled(s, a)
  {
    a.ReleaseDel? ==> s.now < s.holders[a.tok].release.seen
  }

  ghost predicate Executable(ttl: Ttl, s: State, acts: seq<Action>)
    decreases |acts|
  {
    acts == [] || (Enabled(s, acts[0]) && Executable(ttl, Next(ttl, s, acts[0]), acts[1..]))
  }

  ghost function Exec(ttl: Ttl, s: State, acts: seq<Action>): State
    requires Executable(ttl, s, acts)
    decreases |acts|
  {
    if acts == [] then s else Exec(ttl, Next(ttl, s, acts[0]), acts[1..])
  }

  ghost predicate AllPrompt(ttl: Ttl, s: State, acts: seq<Action>)
    requires Executable(ttl, s, acts)
    decreases |acts|
  {
    acts == [] || (Prompt(s, acts[0]) && AllPrompt(ttl, Next(ttl, s, acts[0]), acts[1..]))
  }

  /** A lease never outlives the longer of the two times from now, and its owner is a known holder. */
  ghost predicate KeyInv(ttl: Ttl, s: State) {
    s.key.Some? ==>
      && (s.key.value.expireAt <= s.now + ttl.lease || s.key.value.expireAt <= s.now + ttl.renewal)
      && s.key.value.owner in s.holders
  }

  /** A Del on its way is aimed at a lease that is still its sender's, and sure to be until the time its
      Get saw. */
  ghost predicate DelInv(ttl: Ttl, s: State) {
    forall tok | tok in s.holders && s.holders[tok].release.DelPending? && s.now < s.holders[tok].release.seen ::
      s.key.Some? && s.key.value.owner == tok && s.holders[tok].release.seen <= SureUntil(ttl, s)
  }

  ghost predicate Inv(ttl: Ttl, s: State) {
    KeyInv(ttl, s) && DelInv(ttl, s)
  }

  lemma KeyInvStep(ttl: Ttl, s: State, a: Action)
    requires Sane(ttl) && KeyInv(ttl, s) && Enabled(s, a)
    ensures KeyInv(ttl, Next(ttl, s, a))
  {
  }

  lemma InvStep(ttl: Ttl, s: State, a: Action)
    requires Sane(ttl) && Inv(ttl, s) && Enabled(s, a) && Prompt(s, a)
    ensures Inv(ttl, Next(ttl, s, a))
  {
    KeyInvStep(ttl, s, a);
  }

  /** An Expire landing on a live lease brings its expiry forward. */
  ghost predicate Shortens(ttl: Ttl, s: State, tok: Token)
    requires Enabled(s, RenewExpire(tok)) && Live(s)
  {
    Next(ttl, s, RenewExpire(tok)).key.value.expireAt < s.key.value.expireAt
  }

  /** An Expire that lands late, on whoever's lease it finds, leaves the owner; it never shortens the
      lease, in any reachable state, exactly if a renewal is at least as long as a lease. */
  lemma LateExpireNeverShortens(ttl: Ttl)
    requires Sane(ttl)
    ensures forall s: State, tok | Enabled(s, RenewExpire(tok)) && Live(s) ::
              Owns(Next(ttl, s, RenewExpire(tok)), s.key.value.owner)
    ensures NeverShortens(ttl) <==> ttl.lease <= ttl.renewal
  {
    if ttl.lease <= ttl.renewal {
      forall acts, tok | Reaches(ttl, acts, tok) ensures !Shortens(ttl, Exec(ttl, INIT, acts), tok) {
        KeyInvKept(ttl, INIT, acts);
      }
    } else {
      var acts := EarlyRenewal(ttl);
      assert Reaches(ttl, acts, 1) && Shortens(ttl, Exec(ttl, INIT, acts), 1);
    }
  }

  /** A run after which an Expire of `tok` lands on a live lease. */
  ghost predicate Reaches(ttl: Ttl, acts: seq<Action>, tok: Token) {
    Executable(ttl, INIT, acts) && Enabled(Exec(ttl, INIT, acts), RenewExpire(tok)) && Live(Exec(ttl, INIT, acts))
  }

  ghost predicate NeverShortens(ttl: Ttl) {
    forall acts, tok | Reaches(ttl, acts, tok) :: !Shortens(ttl, Exec(ttl, INIT, acts), tok)
  }

  lemma {:induction false} KeyInvKept(ttl: Ttl, s: State, acts: seq<Action>)
    requires Sane(ttl) && KeyInv(ttl, s) && Executable(ttl, s, acts)
    ensures KeyInv(ttl, Exec(ttl, s, acts))
    decreases |acts|
  {
    if acts == [] {
    } else {
      KeyInvStep(ttl, s, acts[0]);
      KeyInvKept(ttl, Next(ttl, s, acts[0]), acts[1..]);
    }
  }

  ghost predicate Steps(ttl: Ttl, ss: seq<State>, acts: seq<Action>) {
    |ss| == |acts| + 1 && forall k | 0 <= k < |acts| :: Enabled(ss[k], acts[k]) && ss[k + 1] == Next(ttl, ss[k], acts[k])
  }

  /** A run given with the states it passes. */
  lemma {:induction false} RunAlong(ttl: Ttl, ss: seq<State>, acts: seq<Action>)
    requires Steps(ttl, ss, acts)
    ensures Executable(ttl, ss[0], acts) && Exec(ttl, ss[0], acts) == ss[|acts|]
    ensures (forall k | 0 <= k < |acts| :: Prompt(ss[k], acts[k])) ==> AllPrompt(ttl, ss[0], acts)
    decreases |acts|
  {
    if acts == [] {
    } else {
      RunAlong(ttl, ss[1..], acts[1..]);
    }
  }

  lemma {:induction false} OneMore(ttl: Ttl, s: State, acts: seq<Action>, a: Action)
    requires Executable(ttl, s, acts) && Enabled(Exec(ttl, s, acts), a)
    ensures Executable(ttl, s, acts + [a]) && Exec(ttl, s, acts + [a]) == Next(ttl, Exec(ttl, s, acts), a)
    decreases |acts|
  {
    if acts == [] {
      assert ([] + [a])[1..] == [] && ([] + [a])[0] == a;
    } else {
      OneMore(ttl, Next(ttl, s, acts[0]), acts[1..], a);
      assert (acts + [a])[1..] == acts[1..] + [a];
    }
  }

  /** A renewal's Get just after the SetNX. */
  lemma EarlyRenewal(ttl: Ttl) returns (acts: seq<Action>)
    requires Sane(ttl)
    ensures acts == [SetNX(1), RenewGet(1)] && Executable(ttl, INIT, acts) && AllPrompt(ttl, INIT, acts)
    ensures Exec(ttl, INIT, acts)
            == State(0, Some(Lease(1, ttl.lease)), map[1 := Holder(0, 0, 1, Held)], 1)
  {
    acts := [SetNX(1), RenewGet(1)];
    var s1 := Next(ttl, INIT, SetNX(1));
    RunAlong(ttl, [INIT, s1, Next(ttl, s1, RenewGet(1))], acts);
  }

  lemma {:induction false} ReachableInv(ttl: Ttl, s: State, acts: seq<Action>)
    requires Sane(ttl) && Inv(ttl, s)
    requires Executable(ttl, s, acts) && AllPrompt(ttl, s, acts)
    ensures Inv(ttl, Exec(ttl, s, acts))
    decreases |acts|
  {
    if acts == [] {
    } else {
      InvStep(ttl, s, acts[0]);
      ReachableInv(ttl, Next(ttl, s, acts[0]), acts[1..]);
    }
  }

  /** Lease exclusion, one lease: whatever any client does, a live lease keeps its owner for as long as
      it is sure to stand, unless the owner's own Del lands. */
  lemma {:induction false} LeaseKept(ttl: Ttl, s: State, acts: seq<Action>)
    requires Sane(ttl) && Inv(ttl, s) && Live(s)
    requires Executable(ttl, s, acts) && AllPrompt(ttl, s, acts)
    requires ReleaseDel(s.key.value.owner) !in acts
    ensures var s' := Exec(ttl, s, acts);
            s'.now < SureUntil(ttl, s) ==>
              Owns(s', s.key.value.owner) && SureUntil(ttl, s) <= s'.key.value.expireAt
    decreases |acts|
  {
    if acts == [] {
    } else {
      var a, s1 := acts[0], Next(ttl, s, acts[0]);
      InvStep(ttl, s, a);
      TimeForward(ttl, s1, acts[1..]);
      if s1.now < SureUntil(ttl, s) {
        assert a != ReleaseDel(s.key.value.owner);
        assert Owns(s1, s.key.value.owner) && SureUntil(ttl, s) <= SureUntil(ttl, s1);
        LeaseKept(ttl, s1, acts[1..]);
      }
    }
  }

  lemma {:induction false} TimeForward(ttl: Ttl, s: State, acts: seq<Action>)
    requires Executable(ttl, s, acts)
    ensures s.now <= Exec(ttl, s, acts).now
    decreases |acts|
  {
    if acts == [] {
    } else {
      TimeForward(ttl, Next(ttl, s, acts[0]), acts[1..]);
    }
  }

  /** The two steps that start a lease period for `tok`: its SetNX succeeding, and one of its
      renewals landing while the key is its own. */
  predicate StartsLease(s: State, a: Action, tok: Token) {
    || (a == SetNX(tok) && !Live(s))
    || (a == RenewExpire(tok) && Owns(s, tok))
  }

  /** What a step that starts a lease grants: a renewal its own length, a SetNX the lease, or a renewal's
      length if that is shorter. */
  function Granted(ttl: Ttl, a: Action): int {
    if a.SetNX? then Min(ttl.lease, ttl.renewal) else ttl.renewal
  }

  /** The main theorem, over whole runs from the empty store: after a run `before`, a step that
      starts a lease for `tok` at store time t, and any run `after` without `tok`'s own Del, the key
      still carries `tok` whenever the clock reads less than t and what the step grants. */
  lemma LeaseExclusion(ttl: Ttl, before: seq<Action>, a: Action, tok: Token, after: seq<Action>)
    requires Sane(ttl)
    requires Executable(ttl, INIT, before) && AllPrompt(ttl, INIT, before)
    requires var s := Exec(ttl, INIT, before);
             Enabled(s, a) && StartsLease(s, a, tok)
             && Executable(ttl, Next(ttl, s, a), after) && AllPrompt(ttl, Next(ttl, s, a), after)
    requires ReleaseDel(tok) !in after
    ensures var s := Exec(ttl, INIT, before);
            var s' := Exec(ttl, Next(ttl, s, a), after);
            s'.now < s.now + Granted(ttl, a) ==> Owns(s', tok)
  {
    ReachableInv(ttl, INIT, before);
    var s := Exec(ttl, INIT, before);
    InvStep(ttl, s, a);
    LeaseKept(ttl, Next(ttl, s, a), after);
  }

  /** ... so nobody else is granted the lock during that time. */
  lemma NoSecondGrant(ttl: Ttl, before: seq<Action>, a: Action, tok: Token, after: seq<Action>, other: Token)
    requires Sane(ttl)
    requires Executable(ttl, INIT, before) && AllPrompt(ttl, INIT, before)
    requires var s := Exec(ttl, INIT, before);
             Enabled(s, a) && StartsLease(s, a, tok)
             && Executable(ttl, Next(ttl, s, a), after) && AllPrompt(ttl, Next(ttl, s, a), after)
    requires ReleaseDel(tok) !in after
    ensures var s := Exec(ttl, INIT, before);
            var s' := Exec(ttl, Next(ttl, s, a), after);
            s'.now < s.now + Granted(ttl, a) ==> !StartsLease(s', SetNX(other), other)
  {
    LeaseExclusion(ttl, before, a, tok, after);
  }

  /** Without renewals a lease is not prolonged. */
  lemma {:induction false} NotProlonged(ttl: Ttl, s: State, acts: seq<Action>, tok: Token, until: int)
    requires Executable(ttl, s, acts) && tok in s.holders && forall a | a in acts :: !a.RenewExpire?
    requires s.key.Some? && s.key.value.owner == tok ==> s.key.value.expireAt <= until
    ensures var s' := Exec(ttl, s, acts); s'.key.Some? && s'.key.value.owner == tok ==> s'.key.value.expireAt <= until
    decreases |acts|
  {
    if acts == [] {
    } else {
      assert acts[0] in acts;
      NotProlonged(ttl, Next(ttl, s, acts[0]), acts[1..], tok, until);
    }
  }

  function Max(a: int, b: int): int { if a < b then b else a }

  /** A holder that dies keeps nobody out: once the renewals stop, its lease is over after the longer of
      the two times, whatever else is done in the meantime. */
  lemma DeadHolderExpires(ttl: Ttl, before: seq<Action>, after: seq<Action>, tok: Token)
    requires Sane(ttl) && Executable(ttl, INIT, before) && Executable(ttl, Exec(ttl, INIT, before), after)
    requires tok in Exec(ttl, INIT, before).holders && forall a | a in after :: !a.RenewExpire?
    ensures var s := Exec(ttl, INIT, before);
            var s' := Exec(ttl, s, after);
            s.now + Max(ttl.lease, ttl.renewal) <= s'.now ==> !Owns(s', tok)
  {
    KeyInvKept(ttl, INIT, before);
    var s := Exec(ttl, INIT, before);
    NotProlonged(ttl, s, after, tok, s.now + Max(ttl.lease, ttl.renewal));
  }

  function Expires(acts: seq<Action>, tok: Token): nat {
    if acts == [] then 0 else (if acts[0] == RenewExpire(tok) then 1 else 0) + Expires(acts[1..], tok)
  }

  /** In no state of the run does the key belong to `tok` when it asks. */
  ghost predicate NeverFinds(ttl: Ttl, s: State, acts: seq<Action>, tok: Token)
    requires Executable(ttl, s, acts)
    decreases |acts|
  {
    acts == [] || ((acts[0] == RenewGet(tok) ==> !Owns(s, tok)) && NeverFinds(ttl, Next(ttl, s, acts[0]), acts[1..], tok))
  }

  /** A holder that has lost its lease stops renewing: from then on no more of its Expire commands land than
      were already on their way. */
  lemma {:induction false} StaleHolderStops(ttl: Ttl, s: State, acts: seq<Action>, tok: Token)
    requires Executable(ttl, s, acts) && tok in s.holders && NeverFinds(ttl, s, acts, tok)
    ensures tok in Exec(ttl, s, acts).holders
    ensures Expires(acts, tok) + Exec(ttl, s, acts).holders[tok].expires == s.holders[tok].expires
    decreases |acts|
  {
    if acts == [] {
    } else {
      StaleHolderStops(ttl, Next(ttl, s, acts[0]), acts[1..], tok);
    }
  }

  /** In a run from the SetNX of the first holder on, the holder keeps the key for the whole lease. */
  ghost predicate KeepsWholeLease(ttl: Ttl, after: seq<Action>)
    requires Executable(ttl, Next(ttl, INIT, SetNX(1)), after)
  {
    var s := Exec(ttl, Next(ttl, INIT, SetNX(1)), after);
    s.now < ttl.lease ==> Owns(s, 1)
  }

  ghost predicate RunsOn(ttl: Ttl, after: seq<Action>) {
    && Executable(ttl, Next(ttl, INIT, SetNX(1)), after) && AllPrompt(ttl, Next(ttl, INIT, SetNX(1)), after)
    && ReleaseDel(1) !in after
  }

  /** The whole lease is kept, over all runs, exactly if a renewal is at least as long: otherwise the
      holder's own renewal cuts its lease short. */
  lemma WholeLeaseKept(ttl: Ttl)
    requires Sane(ttl)
    ensures (forall after | RunsOn(ttl, after) :: KeepsWholeLease(ttl, after)) <==> ttl.lease <= ttl.renewal
  {
    if ttl.lease <= ttl.renewal {
      forall after | RunsOn(ttl, after) ensures KeepsWholeLease(ttl, after) {
        LeaseExclusion(ttl, [], SetNX(1), 1, after);
      }
    } else {
      var after := CutShort(ttl);
      assert RunsOn(ttl, after) && !KeepsWholeLease(ttl, after);
    }
  }

  lemma CutShort(ttl: Ttl) returns (after: seq<Action>)
    requires Sane(ttl) && ttl.renewal < ttl.lease
    ensures RunsOn(ttl, after) && !KeepsWholeLease(ttl, after)
  {
    var s1 := Next(ttl, INIT, SetNX(1));
    var s2 := Next(ttl, s1, RenewGet(1));
    var s3 := Next(ttl, s2, RenewExpire(1));
    var s4 := Next(ttl, s3, Tick(ttl.renewal));
    after := [RenewGet(1), RenewExpire(1), Tick(ttl.renewal)];
    RunAlong(ttl, [s1, s2, s3, s4], after);
  }

  /** The client library's times for a lease in milliseconds: SetNX sends it as it is, Expire cuts it down
      to whole seconds, but sends at least one. */
  function ClientTtl(ms: int): Ttl
    requires ms > 0
  {
    Ttl(ms, if ms < 1000 then 1000 else ms / 1000 * 1000)
  }

  /** So a configured lease is kept whole exactly if it is one of whole seconds or less than one. */
  lemma WholeSeconds(ms: int)
    requires ms > 0
    ensures (forall after | RunsOn(ClientTtl(ms), after) :: KeepsWholeLease(ClientTtl(ms), after))
            <==> ms % 1000 == 0 || ms < 1000
  {
    WholeLeaseKept(ClientTtl(ms));
  }

  /** Without the timing assumption exclusion fails: a holder whose Del is delayed past its lease
      deletes its successor's fresh lease, and a third client then takes the lock beside it. */
  lemma StaleDelBreaksExclusion(ttl: Ttl)
    returns (before: seq<Action>, after: seq<Action>)
    requires Sane(ttl)
    ensures Executable(ttl, INIT, before + [SetNX(2)] + after)
    ensures Executable(ttl, INIT, before) && !Live(Exec(ttl, INIT, before))
    ensures ReleaseDel(2) !in after
    ensures var s := Exec(ttl, INIT, before + [SetNX(2)] + after);
            s.now == Exec(ttl, INIT, before).now && Owns(s, 3) && 2 in s.holders && s.holders[2].release.Held?
  {
    before := [SetNX(1), Close(1), ReleaseGet(1), Tick(ttl.lease)];
    after := [ReleaseDel(1), SetNX(3)];
    var s1 := Next(ttl, INIT, SetNX(1));
    var s2 := Next(ttl, s1, Close(1));
    var s3 := Next(ttl, s2, ReleaseGet(1));
    var s4 := Next(ttl, s3, Tick(ttl.lease));
    var s5 := Next(ttl, s4, SetNX(2));
    var s6 := Next(ttl, s5, ReleaseDel(1));
    var s7 := Next(ttl, s6, SetNX(3));
    hide Next;
    RunAlong(ttl, [INIT, s1, s2, s3, s4], before);
    RunAlong(ttl, [INIT, s1, s2, s3, s4, s5, s6, s7], before + [SetNX(2)] + after);
  }
}
