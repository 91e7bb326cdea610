/** infra/coordination/leader.go over infra/coordination/redis.go: any number of instances
    campaigning for one lease.

    An instance is a small program whose Redis commands are split into sending, running at the
    store, and the answer being handled.  The only timing facts used are the ones the code gives:
    a command's answer (or its timeout) is handled within `cmd` of sending it, a leader sends its
    next command, or begins to resign, within `gap` of sending the one that last confirmed its lease,
    and resigning takes no longer than `leave`.  Any command may fail, and one that has timed out may
    still land at the store. */
module Election {
  import opened Results
  import Lease = RedisLease
  import opened Leader

  type Id = nat

  datatype Pc =
    | Idle
    | ValidSent(at: int)                    // the Get of Valid is on its way
    | ValidAnswered(at: int, own: bool)
    | StoodDown                             // about to try the lock again
    | TrySent(at: int, tok: Token)          // the SetNX of TryLock is on its way
    | TryAnswered(at: int, tok: Token, ok: bool)
    | ResignGetSent(at: int)                // the Get, then the Del, of the Release that resign began at `at`
    | ResignGetAnswered(at: int, own: bool)
    | ResignDelSent(at: int)
    | ResignDelAnswered(at: int)
    | Gone

  /** `lock` is the lock the instance holds or, while it resigns, is releasing; `confirmed` is when
      the command that last found the lease to be its own was sent. */
  datatype Instance = Instance(lock: Option<Token>, isLeader: bool, pc: Pc, confirmed: int)

  datatype State = State(store: Lease.State, inst: map<Id, Instance>)

  /** `gap` is the time from one command that confirms the lease to the next, so at least as long as
      the first one's answer may take; `leave` is what resign gives its Release, and is not related to
      the others. */
  datatype Times = Times(ttl: Lease.Ttl, gap: int, cmd: int, leave: int)

  ghost predicate Sane(t: Times) { Lease.Sane(t.ttl) && 0 < t.cmd <= t.gap && 0 < t.leave }

  datatype Action =
    | Store(a: Lease.Action)                // time passing, renewals, releases, other clients
    | Start(i: Id)
    | ValidRuns(i: Id)
    | ValidFails(i: Id)                     // the store cannot be reached: reported as not held
    | ValidHandled(i: Id)
    | TrySends(i: Id, tok: Token)
    | TryRuns(i: Id)
    | TryFails(i: Id)
    | TryHandled(i: Id)
    | Resign(i: Id)
    | ResignGetRuns(i: Id)
    | ResignGetFails(i: Id)                 // its errors end the Release like any other answer
    | ResignGetHandled(i: Id)
    | ResignDelRuns(i: Id)
    | ResignDelFails(i: Id)                 // given up on; it may still land
    | ResignDelHandled(i: Id)

  /** The latest time at which a program counter can still be where it is. */
  function Deadline(t: Times, n: Instance): int {
    match n.pc
    case ValidSent(at) => at + t.cmd
    case ValidAnswered(at, _) => at + t.cmd
    case TrySent(at, _) => at + t.cmd
    case TryAnswered(at, _, _) => at + t.cmd
    case ResignGetSent(at) => at + t.leave
    case ResignGetAnswered(at, _) => at + t.leave
    case ResignDelSent(at) => at + t.leave
    case ResignDelAnswered(at) => at + t.leave
    case _ => n.confirmed + t.gap
  }

  predicate Resigning(n: Instance) {
    n.pc.ResignGetSent? || n.pc.ResignGetAnswered? || n.pc.ResignDelSent? || n.pc.ResignDelAnswered?
  }

  /** How long an instance may take to act on a command it has sent in time. */
  function Slack(t: Times, n: Instance): int { if Resigning(n) then t.leave else t.cmd }

  predicate Timed(n: Instance) {
    n.isLeader || n.pc.TrySent? || n.pc.TryAnswered?
  }

  ghost predicate OnTime(t: Times, s: State, now: int) {
    forall i | i in s.inst && Timed(s.inst[i]) :: now <= Deadline(t, s.inst[i])
  }

  /** A token no SetNX has used and no instance has drawn. */
  ghost predicate FreshToken(s: State, tok: Token) {
    tok !in s.store.holders && forall i | i in s.inst :: !Drawn(s.inst[i], tok)
  }

  predicate Drawn(n: Instance, tok: Token) {
    || n.lock == Some(tok)
    || (n.pc.TrySent? && n.pc.tok == tok)
    || (n.pc.TryAnswered? && n.pc.ok && n.pc.tok == tok)
  }

  predicate GaveUp(pc: Pc) { pc.ResignGetAnswered? || pc.ResignDelAnswered? || pc.Gone? }

  ghost predicate Enabled(t: Times, s: State, a: Action) {
    match a
    case Store(la) =>
      && Lease.Enabled(s.store, la)
      && (la.Tick? ==> OnTime(t, s, s.store.now + la.d))
      && (la.SetNX? ==> FreshToken(s, la.tok))
      // The releases of locks held by instances are steps of those instances, until they give up
      // on them; every other token's release runs on its own.
      && (la.Close? || la.ReleaseGet? || la.ReleaseDel? ==>
            forall i | i in s.inst && Drawn(s.inst[i], la.tok) :: GaveUp(s.inst[i].pc))
    case Start(i) => i in s.inst && s.inst[i].pc.Idle? && s.inst[i].lock.Some?
    case ValidRuns(i) => i in s.inst && s.inst[i].pc.ValidSent? && s.inst[i].lock.Some?
    case ValidFails(i) => i in s.inst && s.inst[i].pc.ValidSent?
    case ValidHandled(i) => i in s.inst && s.inst[i].pc.ValidAnswered?
    case TrySends(i, tok) =>
      && i in s.inst && (s.inst[i].pc.StoodDown? || (s.inst[i].pc.Idle? && s.inst[i].lock.None?))
      && FreshToken(s, tok)
    case TryRuns(i) => i in s.inst && s.inst[i].pc.TrySent? && s.inst[i].pc.tok !in s.store.holders
    case TryFails(i) => i in s.inst && s.inst[i].pc.TrySent?
    case TryHandled(i) => i in s.inst && s.inst[i].pc.TryAnswered?
    case Resign(i) => i in s.inst && s.inst[i].pc.Idle?
    case ResignGetRuns(i) => i in s.inst && s.inst[i].pc.ResignGetSent? && s.inst[i].lock.Some?
    case ResignGetFails(i) => i in s.inst && s.inst[i].pc.ResignGetSent?
    case ResignGetHandled(i) => i in s.inst && s.inst[i].pc.ResignGetAnswered?
    case ResignDelRuns(i) =>
      && i in s.inst && s.inst[i].pc.ResignDelSent? && s.inst[i].lock.Some?
      && Lease.Enabled(s.store, Lease.ReleaseDel(s.inst[i].lock.value))
    case ResignDelFails(i) => i in s.inst && s.inst[i].pc.ResignDelSent?
    case ResignDelHandled(i) => i in s.inst && s.inst[i].pc.ResignDelAnswered?
  }

  ghost function Next(t: Times, s: State, a: Action): State
    requires Enabled(t, s, a)
  {
    var now := s.store.now;
    match a
    case Store(la) => s.(store := Lease.Next(t.ttl, s.store, la))
    case Start(i) => Put(s, i, s.inst[i].(pc := ValidSent(now)))
    case ValidRuns(i) =>
      var n := s.inst[i];
      var own := Lease.Owns(s.store, n.lock.value);
      Put(s, i, n.(pc := ValidAnswered(n.pc.at, own)))
    case ValidFails(i) => Put(s, i, s.inst[i].(pc := ValidAnswered(s.inst[i].pc.at, false)))
    case ValidHandled(i) =>
      var n := s.inst[i];
      if n.pc.own then Put(s, i, n.(pc := Idle, confirmed := n.pc.at))
      else Put(s, i, n.(lock := None, isLeader := false, pc := StoodDown))
    case TrySends(i, tok) => Put(s, i, s.inst[i].(pc := TrySent(now, tok)))
    case TryRuns(i) =>
      var n := s.inst[i];
      var s' := s.(store := Lease.Next(t.ttl, s.store, Lease.SetNX(n.pc.tok)));
      Put(s', i, n.(pc := TryAnswered(n.pc.at, n.pc.tok, !Lease.Live(s.store))))
    case TryFails(i) => Put(s, i, s.inst[i].(pc := TryAnswered(s.inst[i].pc.at, s.inst[i].pc.tok, false)))
    case TryHandled(i) =>
      var n := s.inst[i];
      if n.pc.ok then Put(s, i, n.(lock := Some(n.pc.tok), isLeader := true, pc := Idle, confirmed := n.pc.at))
      else Put(s, i, n.(isLeader := false, pc := Idle))
    case Resign(i) =>
      var n := s.inst[i];
      if n.lock.None? then Put(s, i, n.(isLeader := false, pc := Gone))
      else Put(CloseLock(t, s, n.lock.value), i, n.(pc := ResignGetSent(now)))
    case ResignGetRuns(i) =>
      var n := s.inst[i];
      var own := Lease.Owns(s.store, n.lock.value);
      Put(GetForRelease(t, s, n.lock.value), i, n.(pc := ResignGetAnswered(n.pc.at, own)))
    case ResignGetFails(i) => Put(s, i, s.inst[i].(pc := ResignGetAnswered(s.inst[i].pc.at, false)))
    case ResignGetHandled(i) =>
      var n := s.inst[i];
      if n.pc.own then Put(s, i, n.(pc := ResignDelSent(n.pc.at)))
      else Put(s, i, n.(isLeader := false, pc := Gone))
    case ResignDelRuns(i) =>
      var n := s.inst[i];
      var s' := s.(store := Lease.Next(t.ttl, s.store, Lease.ReleaseDel(n.lock.value)));
      Put(s', i, n.(pc := ResignDelAnswered(n.pc.at)))
    case ResignDelFails(i) => Put(s, i, s.inst[i].(pc := ResignDelAnswered(s.inst[i].pc.at)))
    case ResignDelHandled(i) => Put(s, i, s.inst[i].(isLeader := false, pc := Gone))
  }

  function Put(s: State, i: Id, n: Instance): State {
    s.(inst := s.inst[i := n])
  }

  function CloseLock(t: Times, s: State, tok: Token): State {
    if Lease.Enabled(s.store, Lease.Close(tok)) then s.(store := Lease.Next(t.ttl, s.store, Lease.Close(tok))) else s
  }

  function GetForRelease(t: Times, s: State, tok: Token): State {
    if Lease.Enabled(s.store, Lease.ReleaseGet(tok)) then s.(store := Lease.Next(t.ttl, s.store, Lease.ReleaseGet(tok))) else s
  }

  // ---- What every step keeps ----

  /** The lock and the flag agree, and a lock being tried for is never also held. */
  ghost predicate FlagInv(n: Instance) {
    match n.pc
    case Idle => n.isLeader <==> n.lock.Some?
    case StoodDown => !n.isLeader && n.lock.None?
    case TrySent(_, _) => !n.isLeader && n.lock.None?
    case TryAnswered(_, _, _) => !n.isLeader && n.lock.None?
    case Gone => !n.isLeader
    case _ => n.isLeader && n.lock.Some?
  }

  /** Commands were sent in the past, and in time. */
  ghost predicate SentInv(t: Times, now: int, n: Instance) {
    && (n.isLeader ==> n.confirmed <= now)
    && match n.pc
    case ValidSent(at) => at <= now && at <= n.confirmed + t.gap
    case ValidAnswered(at, _) => at <= now && at <= n.confirmed + t.gap
    case ResignGetSent(at) => at <= now && at <= n.confirmed + t.gap
    case ResignGetAnswered(at, _) => at <= now && at <= n.confirmed + t.gap
    case ResignDelSent(at) => at <= now && at <= n.confirmed + t.gap
    case ResignDelAnswered(at) => at <= now && at <= n.confirmed + t.gap
    case TrySent(at, _) => at <= now
    case TryAnswered(at, _, _) => at <= now
    case _ => true
  }

  ghost predicate LocalInv(t: Times, s: State) {
    && (forall i | i in s.inst :: FlagInv(s.inst[i]) && SentInv(t, s.store.now, s.inst[i]))
    && OnTime(t, s, s.store.now)
  }

  ghost predicate HeldApart(s: State) {
    forall i, j, tok | i in s.inst && j in s.inst && Drawn(s.inst[i], tok) && Drawn(s.inst[j], tok) :: i == j
  }

  ghost predicate HoldsGranted(st: Lease.State, n: Instance) {
    && (n.lock.Some? ==> n.lock.value in st.holders)
    && (n.pc.TryAnswered? && n.pc.ok ==> n.pc.tok in st.holders)
  }

  /** Each instance draws its own tokens, and a lock is a token whose SetNX succeeded. */
  ghost predicate TokenInv(s: State) {
    HeldApart(s) && forall i | i in s.inst :: HoldsGranted(s.store, s.inst[i])
  }

  /** Grants are numbered in order, and the key is always the latest grant's. */
  ghost predicate EpochInv(st: Lease.State) {
    && (forall a | a in st.holders :: st.holders[a].epoch < st.epochs && st.holders[a].acquiredAt <= st.now)
    && (forall a, b | a in st.holders && b in st.holders && st.holders[a].epoch == st.holders[b].epoch :: a == b)
    && (st.key.Some? ==> st.key.value.owner in st.holders && st.holders[st.key.value.owner].epoch == st.epochs - 1)
  }

  /** Every grant after `tok`'s was made at `at` or later. */
  ghost predicate SupersededAfter(st: Lease.State, tok: Token, at: int) {
    tok in st.holders &&
    forall b | b in st.holders && st.holders[tok].epoch < st.holders[b].epoch :: at <= st.holders[b].acquiredAt
  }

  /** The beliefs an instance holds, as (token, time) pairs. */
  ghost predicate Believes(n: Instance, tok: Token, at: int) {
    || (n.isLeader && n.lock == Some(tok) && at == n.confirmed)
    || (n.pc.ValidAnswered? && n.pc.own && n.lock == Some(tok) && at == n.pc.at)
    || (n.pc.TryAnswered? && n.pc.ok && tok == n.pc.tok && at == n.pc.at)
  }

  /** What an instance believes about its lease was true when the belief was formed. */
  ghost predicate BeliefInv(st: Lease.State, n: Instance) {
    forall tok, at | Believes(n, tok, at) :: SupersededAfter(st, tok, at)
  }

  ghost predicate Inv(t: Times, s: State) {
    && LocalInv(t, s)
    && TokenInv(s)
    && EpochInv(s.store)
    && forall i | i in s.inst :: BeliefInv(s.store, s.inst[i])
  }

  lemma LocalInvStep(t: Times, s: State, a: Action)
    requires Sane(t) && LocalInv(t, s) && Enabled(t, s, a)
    ensures LocalInv(t, Next(t, s, a))
  {
    if a.Store? { StoreLocal(t, s, a); } else { InstanceLocal(t, s, a); }
  }

  lemma StoreLocal(t: Times, s: State, a: Action)
    requires LocalInv(t, s) && Enabled(t, s, a) && a.Store?
    ensures LocalInv(t, Next(t, s, a))
  {
    var s' := Next(t, s, a);
    assert s'.inst == s.inst && s.store.now <= s'.store.now;
    hide Next, Enabled, FlagInv;
    forall i | i in s.inst ensures SentInv(t, s'.store.now, s'.inst[i]) {
      assert SentInv(t, s.store.now, s.inst[i]);
    }
  }

  lemma InstanceLocal(t: Times, s: State, a: Action)
    requires Sane(t) && LocalInv(t, s) && Enabled(t, s, a) && !a.Store?
    ensures LocalInv(t, Next(t, s, a))
  {
    var i, s' := Actor(a).value, Next(t, s, a);
    ActorLocal(t, s, a, i);
    hide Next, Enabled, FlagInv, SentInv, Timed, Deadline;
    forall j | j in s'.inst
      ensures FlagInv(s'.inst[j]) && SentInv(t, s'.store.now, s'.inst[j])
      ensures Timed(s'.inst[j]) ==> s'.store.now <= Deadline(t, s'.inst[j])
    {
      if j != i { assert s'.inst[j] == s.inst[j]; }
    }
  }

  /** A step of an instance changes that instance alone, and keeps its part of the invariant. */
  lemma ActorLocal(t: Times, s: State, a: Action, i: Id)
    requires Sane(t) && LocalInv(t, s) && Enabled(t, s, a) && Actor(a) == Some(i)
    ensures var s' := Next(t, s, a);
            && i in s.inst && s'.store.now == s.store.now && s'.inst == s.inst[i := s'.inst[i]]
            && FlagInv(s'.inst[i]) && SentInv(t, s'.store.now, s'.inst[i])
            && (Timed(s'.inst[i]) ==> s'.store.now <= Deadline(t, s'.inst[i]))
  {
    assert i in s.inst && FlagInv(s.inst[i]) && SentInv(t, s.store.now, s.inst[i]);
    assert Timed(s.inst[i]) ==> s.store.now <= Deadline(t, s.inst[i]);
    hide LocalInv, OnTime, FreshToken;
  }

  /** Steps draw no token that is drawn already, and hold only what has been granted. */
  lemma ActorToken(t: Times, s: State, a: Action, i: Id)
    requires Sane(t) && TokenInv(s) && Enabled(t, s, a) && Actor(a) == Some(i)
    ensures var s' := Next(t, s, a);
            && i in s.inst && s'.inst == s.inst[i := s'.inst[i]]
            && (forall tok :: Drawn(s'.inst[i], tok) ==>
                  Drawn(s.inst[i], tok) || forall j | j in s.inst :: !Drawn(s.inst[j], tok))
            && HoldsGranted(s'.store, s'.inst[i])
            && s.store.holders.Keys <= s'.store.holders.Keys
  {
    assert HoldsGranted(s.store, s.inst[i]);
    hide TokenInv, HeldApart, OnTime;
  }

  lemma TokenInvStep(t: Times, s: State, a: Action)
    requires Sane(t) && TokenInv(s) && Enabled(t, s, a)
    ensures TokenInv(Next(t, s, a))
  {
    var s' := Next(t, s, a);
    if a.Store? {
      assert s.store.holders.Keys <= s'.store.holders.Keys && s'.inst == s.inst;
    } else {
      ActorToken(t, s, a, Actor(a).value);
    }
    hide Next, Enabled, Drawn;
  }

  lemma EpochInvStep(ttl: Lease.Ttl, st: Lease.State, la: Lease.Action)
    requires EpochInv(st) && Lease.Enabled(st, la)
    ensures EpochInv(Lease.Next(ttl, st, la))
  {
  }

  /** The store keeps every grant on record, so a belief about the past stays true. */
  lemma SupersededStep(ttl: Lease.Ttl, st: Lease.State, la: Lease.Action, tok: Token, at: int)
    requires EpochInv(st) && Lease.Enabled(st, la)
    requires SupersededAfter(st, tok, at) && at <= st.now
    ensures SupersededAfter(Lease.Next(ttl, st, la), tok, at)
  {
  }

  /** The Redis command a step runs at the store, if any. */
  ghost function CommandOf(s: State, a: Action): (la: Option<Lease.Action>)
  {
    match a
    case Store(la) => Some(la)
    case TryRuns(i) => if i in s.inst && s.inst[i].pc.TrySent? then Some(Lease.SetNX(s.inst[i].pc.tok)) else None
    case Resign(i) => if i in s.inst && s.inst[i].lock.Some? then Some(Lease.Close(s.inst[i].lock.value)) else None
    case ResignGetRuns(i) => if i in s.inst && s.inst[i].lock.Some? then Some(Lease.ReleaseGet(s.inst[i].lock.value)) else None
    case ResignDelRuns(i) => if i in s.inst && s.inst[i].lock.Some? then Some(Lease.ReleaseDel(s.inst[i].lock.value)) else None
    case _ => None
  }

  lemma StoreSteps(t: Times, s: State, a: Action)
    requires Enabled(t, s, a)
    ensures var c := CommandOf(s, a);
            Next(t, s, a).store == if c.Some? && Lease.Enabled(s.store, c.value) then Lease.Next(t.ttl, s.store, c.value)
                                   else s.store
  {
  }

  lemma BeliefKept(t: Times, s: State, a: Action, tok: Token, at: int)
    requires Enabled(t, s, a) && EpochInv(s.store)
    requires SupersededAfter(s.store, tok, at) && at <= s.store.now
    ensures SupersededAfter(Next(t, s, a).store, tok, at)
  {
    StoreSteps(t, s, a);
    if Next(t, s, a).store != s.store {
      SupersededStep(t.ttl, s.store, CommandOf(s, a).value, tok, at);
    }
  }

  /** The instance whose program a step is part of. */
  function Actor(a: Action): Option<Id> {
    match a
    case Store(_) => None
    case Start(i) => Some(i)
    case ValidRuns(i) => Some(i)
    case ValidFails(i) => Some(i)
    case ValidHandled(i) => Some(i)
    case TrySends(i, _) => Some(i)
    case TryRuns(i) => Some(i)
    case TryFails(i) => Some(i)
    case TryHandled(i) => Some(i)
    case Resign(i) => Some(i)
    case ResignGetRuns(i) => Some(i)
    case ResignGetFails(i) => Some(i)
    case ResignGetHandled(i) => Some(i)
    case ResignDelRuns(i) => Some(i)
    case ResignDelFails(i) => Some(i)
    case ResignDelHandled(i) => Some(i)
  }

  /** A step forms a new belief only by running a Get that answers with the token or a SetNX that
      takes it, on a lease that is live afterwards. */
  lemma NewBelief(t: Times, s: State, a: Action, i: Id, tok: Token, at: int)
    requires Sane(t) && LocalInv(t, s) && Enabled(t, s, a)
    requires i in s.inst && Believes(Next(t, s, a).inst[i], tok, at)
    ensures at <= s.store.now
    ensures Believes(s.inst[i], tok, at)
            || (Lease.Owns(Next(t, s, a).store, tok) && Next(t, s, a).store.now == s.store.now)
  {
    assert FlagInv(s.inst[i]) && SentInv(t, s.store.now, s.inst[i]);
    if Actor(a) != Some(i) {
      assert Next(t, s, a).inst[i] == s.inst[i];
    }
  }

  lemma BeliefInvStep(t: Times, s: State, a: Action, i: Id)
    requires Sane(t) && Inv(t, s) && Enabled(t, s, a)
    requires i in s.inst
    ensures BeliefInv(Next(t, s, a).store, Next(t, s, a).inst[i])
  {
    var s' := Next(t, s, a);
    StoreSteps(t, s, a);
    EpochsStep(t, s, a);
    forall tok, at | Believes(s'.inst[i], tok, at) ensures SupersededAfter(s'.store, tok, at) {
      NewBelief(t, s, a, i, tok, at);
      if Believes(s.inst[i], tok, at) {
        assert BeliefInv(s.store, s.inst[i]);
        BeliefKept(t, s, a, tok, at);
      }
    }
  }

  lemma EpochsStep(t: Times, s: State, a: Action)
    requires EpochInv(s.store) && Enabled(t, s, a)
    ensures EpochInv(Next(t, s, a).store)
  {
    StoreSteps(t, s, a);
    if Next(t, s, a).store != s.store {
      EpochInvStep(t.ttl, s.store, CommandOf(s, a).value);
    }
  }

  lemma InvStep(t: Times, s: State, a: Action)
    requires Sane(t) && Inv(t, s) && Enabled(t, s, a)
    ensures Inv(t, Next(t, s, a))
  {
    LocalInvStep(t, s, a);
    TokenInvStep(t, s, a);
    EpochsStep(t, s, a);
    forall i | i in Next(t, s, a).inst ensures BeliefInv(Next(t, s, a).store, Next(t, s, a).inst[i]) {
      BeliefInvStep(t, s, a, i);
    }
  }

  // ---- Whole runs ----

  /** Before anything has happened: an empty store, and followers that have not tried yet. */
  ghost predicate Initial(s: State) {
    s.store == Lease.INIT && forall i | i in s.inst :: s.inst[i] == Instance(None, false, Idle, 0)
  }

  ghost predicate Steps(t: Times, s: State, s': State) {
    exists a :: Enabled(t, s, a) && s' == Next(t, s, a)
  }

  ghost predicate Run(t: Times, ss: seq<State>) {
    && |ss| > 0 && Initial(ss[0])
    && forall k | 0 < k < |ss| :: Steps(t, ss[k - 1], ss[k])
  }

  ghost predicate Leads(s: State, i: Id) {
    i in s.inst && s.inst[i].isLeader
  }

  ghost predicate OwnedNow(s: State, tok: Token, at: int) {
    at <= s.store.now && Lease.Owns(s.store, tok)
  }

  /** At some point of the run up to `n`, at time `at` or later, the key was `tok`'s. */
  ghost predicate OwnedSince(ss: seq<State>, n: nat, tok: Token, at: int)
    requires n < |ss|
  {
    exists k: nat | k <= n :: OwnedNow(ss[k], tok, at)
  }

  /** Every belief held at point `n` of a run is borne out by an earlier point. */
  ghost predicate Borne(ss: seq<State>, n: nat)
    requires n < |ss|
  {
    forall i, tok, at | i in ss[n].inst && Believes(ss[n].inst[i], tok, at) :: OwnedSince(ss, n, tok, at)
  }

  lemma BorneStep(t: Times, ss: seq<State>, n: nat, a: Action)
    requires 0 < n < |ss| && Borne(ss, n - 1)
    requires Sane(t) && LocalInv(t, ss[n - 1]) && Enabled(t, ss[n - 1], a) && ss[n] == Next(t, ss[n - 1], a)
    ensures Borne(ss, n)
  {
    forall i, tok, at | i in ss[n].inst && Believes(ss[n].inst[i], tok, at) ensures OwnedSince(ss, n, tok, at) {
      NewBelief(t, ss[n - 1], a, i, tok, at);
      if Believes(ss[n - 1].inst[i], tok, at) {
        assert OwnedSince(ss, n - 1, tok, at);
        var k: nat :| k <= n - 1 && OwnedNow(ss[k], tok, at);
        assert OwnedNow(ss[k], tok, at);
      } else {
        assert OwnedNow(ss[n], tok, at);
      }
    }
  }

  lemma {:induction false} RunInv(t: Times, ss: seq<State>, n: nat)
    requires Sane(t) && Run(t, ss) && n < |ss|
    ensures Inv(t, ss[n]) && Borne(ss, n)
  {
    if n == 0 {
    } else {
      RunInv(t, ss, n - 1);
      var a := StepTaken(t, ss, n);
      InvStep(t, ss[n - 1], a);
      BorneStep(t, ss, n, a);
    }
  }

  lemma StepTaken(t: Times, ss: seq<State>, n: nat) returns (a: Action)
    requires Run(t, ss) && 0 < n < |ss|
    ensures Enabled(t, ss[n - 1], a) && ss[n] == Next(t, ss[n - 1], a)
  {
    assert Steps(t, ss[n - 1], ss[n]);
    a :| Enabled(t, ss[n - 1], a) && ss[n] == Next(t, ss[n - 1], a);
  }

  lemma StillRecent(t: Times, s: State, i: Id)
    requires Sane(t) && LocalInv(t, s) && Leads(s, i)
    ensures s.store.now <= s.inst[i].confirmed + t.gap + Slack(t, s.inst[i])
  {
    assert FlagInv(s.inst[i]) && SentInv(t, s.store.now, s.inst[i]) && Timed(s.inst[i]);
  }

  /** A stale leader is never more than gap + cmd out of date, or gap + leave once it resigns: in every
      run, an instance that reports IsLeader owned the key at some moment no longer ago than that. */
  lemma LeaderOwnedRecently(t: Times, ss: seq<State>, n: nat, i: Id)
    requires Sane(t) && Run(t, ss) && n < |ss| && Leads(ss[n], i)
    ensures ss[n].inst[i].lock.Some?
    ensures OwnedSince(ss, n, ss[n].inst[i].lock.value, ss[n].store.now - t.gap - Slack(t, ss[n].inst[i]))
  {
    RunInv(t, ss, n);
    var m := ss[n].inst[i];
    assert FlagInv(m);
    StillRecent(t, ss[n], i);
    assert Believes(m, m.lock.value, m.confirmed);
    assert OwnedSince(ss, n, m.lock.value, m.confirmed);
    var k: nat :| k <= n && OwnedNow(ss[k], m.lock.value, m.confirmed);
    assert OwnedNow(ss[k], m.lock.value, ss[n].store.now - t.gap - Slack(t, ss[n].inst[i]));
  }

  function Later(a: int, b: int): int { if a < b then b else a }

  /** When two instances lead at once, the later of their two grants is no older than that. */
  lemma DualLeadersAreRecent(t: Times, s: State, i: Id, j: Id)
    requires Sane(t) && Inv(t, s) && Leads(s, i) && Leads(s, j) && i != j
    ensures s.inst[i].lock.Some? && s.inst[j].lock.Some?
    ensures s.inst[i].lock.value in s.store.holders && s.inst[j].lock.value in s.store.holders
    ensures var hi, hj := s.store.holders[s.inst[i].lock.value], s.store.holders[s.inst[j].lock.value];
            s.store.now - (if hi.epoch < hj.epoch then hj else hi).acquiredAt
              <= t.gap + Later(Slack(t, s.inst[i]), Slack(t, s.inst[j]))
  {
    assert FlagInv(s.inst[i]) && FlagInv(s.inst[j]);
    var ti, tj := s.inst[i].lock.value, s.inst[j].lock.value;
    StillRecent(t, s, i);
    StillRecent(t, s, j);
    assert BeliefInv(s.store, s.inst[i]) && Believes(s.inst[i], ti, s.inst[i].confirmed);
    assert BeliefInv(s.store, s.inst[j]) && Believes(s.inst[j], tj, s.inst[j].confirmed);
    assert Drawn(s.inst[i], ti) && Drawn(s.inst[j], tj);
  }

  /** While it leads without a break an instance keeps one lock, whose grant stays on record. */
  lemma {:induction false} SameLockWhileLeading(t: Times, ss: seq<State>, a: nat, b: nat, i: Id)
    requires Sane(t) && Run(t, ss) && a <= b < |ss|
    requires Leads(ss[a], i) && Leads(ss[b], i) && forall k | a <= k <= b :: Leads(ss[k], i)
    ensures ss[a].inst[i].lock.Some? && ss[b].inst[i].lock == ss[a].inst[i].lock
    ensures var tok := ss[a].inst[i].lock.value;
            tok in ss[a].store.holders && tok in ss[b].store.holders
            && ss[b].store.holders[tok].acquiredAt == ss[a].store.holders[tok].acquiredAt <= ss[a].store.now
            && ss[b].store.holders[tok].epoch == ss[a].store.holders[tok].epoch
    decreases b
  {
    RunInv(t, ss, a);
    assert FlagInv(ss[a].inst[i]);
    if a == b {
    } else {
      SameLockWhileLeading(t, ss, a, b - 1, i);
      RunInv(t, ss, b - 1);
      var act := StepTaken(t, ss, b);
      LockKept(t, ss[b - 1], act, i);
      GrantKept(t, ss[b - 1], act, ss[a].inst[i].lock.value);
    }
  }

  lemma LockKept(t: Times, s: State, a: Action, i: Id)
    requires Inv(t, s) && Enabled(t, s, a) && Leads(s, i) && Leads(Next(t, s, a), i)
    ensures Next(t, s, a).inst[i].lock == s.inst[i].lock
  {
    assert FlagInv(s.inst[i]);
  }

  lemma GrantKept(t: Times, s: State, a: Action, tok: Token)
    requires Enabled(t, s, a) && tok in s.store.holders
    ensures var st := Next(t, s, a).store;
            tok in st.holders && st.holders[tok].acquiredAt == s.store.holders[tok].acquiredAt
            && st.holders[tok].epoch == s.store.holders[tok].epoch
  {
  }

  /** Bounded dual leadership: in every run, any stretch over which two instances both report
      IsLeader lasts at most gap + cmd, or gap + leave if at its end one of them is resigning, whatever
      the store, its clients and the network do. */
  lemma DualLeadershipBounded(t: Times, ss: seq<State>, a: nat, b: nat, i: Id, j: Id)
    requires Sane(t) && Run(t, ss) && a <= b < |ss| && i != j
    requires forall k | a <= k <= b :: Leads(ss[k], i) && Leads(ss[k], j)
    ensures i in ss[b].inst && j in ss[b].inst
    ensures ss[b].store.now - ss[a].store.now <= t.gap + Later(Slack(t, ss[b].inst[i]), Slack(t, ss[b].inst[j]))
  {
    RunInv(t, ss, b);
    assert Leads(ss[a], i) && Leads(ss[b], i) && Leads(ss[a], j) && Leads(ss[b], j);
    SameLockWhileLeading(t, ss, a, b, i);
    SameLockWhileLeading(t, ss, a, b, j);
    DualLeadersAreRecent(t, ss[b], i, j);
  }

  /** Between attempts an instance holds a lock exactly when it says it leads. */
  lemma LockHeldIffLeading(t: Times, ss: seq<State>, n: nat, i: Id)
    requires Sane(t) && Run(t, ss) && n < |ss| && i in ss[n].inst && ss[n].inst[i].pc.Idle?
    ensures ss[n].inst[i].isLeader <==> ss[n].inst[i].lock.Some?
  {
    RunInv(t, ss, n);
    assert FlagInv(ss[n].inst[i]);
  }

  // ---- What an attempt comes to ----

  ghost predicate Took(t: Times, ss: seq<State>, k: nat, a: Action) {
    k + 1 < |ss| && Enabled(t, ss[k], a) && ss[k + 1] == Next(t, ss[k], a)
  }

  /** At point `k` the Get of Valid finds the key to be the instance's own. */
  ghost predicate FoundOwn(t: Times, ss: seq<State>, k: nat, i: Id) {
    Took(t, ss, k, ValidRuns(i)) && Lease.Owns(ss[k].store, ss[k].inst[i].lock.value)
  }

  /** At point `k` the SetNX of TryLock finds the key free, and takes it for this token. */
  ghost predicate FoundFree(t: Times, ss: seq<State>, k: nat, i: Id, tok: Token) {
    Took(t, ss, k, TryRuns(i)) && ss[k].inst[i].pc.tok == tok && !Lease.Live(ss[k].store)
  }

  /** An attempt that began at `a` is still on at `m`, or just over. */
  ghost predicate Attempting(ss: seq<State>, a: nat, m: nat, i: Id) {
    && a < m < |ss| && (forall k | a <= k <= m :: i in ss[k].inst)
    && ss[a].inst[i].pc.Idle? && !ss[a + 1].inst[i].pc.Idle? && forall k | a < k < m :: !ss[k].inst[i].pc.Idle?
  }

  /** How far an attempt has come with the answers it has got. */
  ghost predicate Progress(lock: Option<Token>, n: Instance, stillValid: bool, grant: Option<Token>) {
    match n.pc
    case Idle => n.lock == AfterAttempt(lock, stillValid, grant)
    case ValidSent(_) => n.lock == lock && lock.Some? && !stillValid && grant == None
    case ValidAnswered(_, own) => n.lock == lock && lock.Some? && stillValid == own && grant == None
    case StoodDown => !stillValid && grant == None
    case TrySent(_, _) => !stillValid && grant == None
    case TryAnswered(_, tok, ok) => !stillValid && grant == if ok then Some(tok) else None
    case _ => true
  }

  ghost predicate Answers(t: Times, ss: seq<State>, a: nat, m: nat, i: Id, stillValid: bool, grant: Option<Token>) {
    && (stillValid <==> exists k: nat :: a < k < m && FoundOwn(t, ss, k, i))
    && forall tok: Token :: grant == Some(tok) <==> exists k: nat :: a < k < m && FoundFree(t, ss, k, i, tok)
  }

  /** An attempt in Election comes to what Leader.Attempt makes of the answers: whoever steps in between,
      the instance ends with the lock it held if the Get found that to be its own, and otherwise with the
      one its SetNX found free, or none; and it leads exactly if it has a lock. */
  lemma AttemptAsLeader(t: Times, ss: seq<State>, a: nat, b: nat, i: Id) returns (stillValid: bool, grant: Option<Token>)
    requires Sane(t) && Run(t, ss) && Attempting(ss, a, b, i) && ss[b].inst[i].pc.Idle?
    ensures Answers(t, ss, a, b, i, stillValid, grant)
    ensures ss[b].inst[i].lock == AfterAttempt(ss[a].inst[i].lock, stillValid, grant)
    ensures Leads(ss[b], i) <==> ss[b].inst[i].lock.Some?
  {
    stillValid, grant := AttemptSoFar(t, ss, a, b, i);
    LockHeldIffLeading(t, ss, b, i);
  }

  lemma {:induction false} AttemptSoFar(t: Times, ss: seq<State>, a: nat, m: nat, i: Id)
    returns (stillValid: bool, grant: Option<Token>)
    requires Sane(t) && Run(t, ss) && Attempting(ss, a, m, i)
    ensures Answers(t, ss, a, m, i, stillValid, grant)
    ensures Progress(ss[a].inst[i].lock, ss[m].inst[i], stillValid, grant)
    decreases m
  {
    hide Next, Enabled, Inv, FoundOwn, FoundFree, Run, Progress;
    RunInv(t, ss, m - 1);
    if m == a + 1 {
      stillValid, grant := false, None;
      var act := StepTaken(t, ss, m);
      AttemptBegins(t, ss[a], act, i);
    } else {
      var v, g := AttemptSoFar(t, ss, a, m - 1, i);
      stillValid, grant := NextAnswer(t, ss, a, m - 1, i, v, g);
    }
  }

  lemma AttemptBegins(t: Times, s: State, act: Action, i: Id)
    requires Inv(t, s) && Enabled(t, s, act) && i in s.inst && s.inst[i].pc.Idle?
    ensures var n := Next(t, s, act).inst[i]; n.pc.Idle? || Progress(s.inst[i].lock, n, false, None)
  {
    assert FlagInv(s.inst[i]);
  }

  lemma NextAnswer(t: Times, ss: seq<State>, a: nat, m: nat, i: Id, v: bool, g: Option<Token>)
    returns (stillValid: bool, grant: Option<Token>)
    requires Sane(t) && Run(t, ss) && Attempting(ss, a, m, i) && m + 1 < |ss|
    requires !ss[m].inst[i].pc.Idle? && Answers(t, ss, a, m, i, v, g) && Progress(ss[a].inst[i].lock, ss[m].inst[i], v, g)
    ensures Answers(t, ss, a, m + 1, i, stillValid, grant)
    ensures Progress(ss[a].inst[i].lock, ss[m + 1].inst[i], stillValid, grant)
  {
    RunInv(t, ss, m);
    hide Next, Run, Inv, Progress, Answers;
    var lock, n := ss[a].inst[i].lock, ss[m].inst[i];
    var act := ActTaken(t, ss, m, i);
    ProgressStep(t, ss[m], act, i, lock, v, g);
    stillValid := v || (act == ValidRuns(i) && Lease.Owns(ss[m].store, n.lock.value));
    grant := if act == TryRuns(i) && !Lease.Live(ss[m].store) then Some(n.pc.tok) else g;
    hide Enabled, FoundOwn, FoundFree;
    AnswersMore(t, ss, a, m, i, v, g, stillValid, grant);
  }

  /** The action of a step, by what it finds if it finds anything. */
  lemma ActTaken(t: Times, ss: seq<State>, m: nat, i: Id) returns (act: Action)
    requires Run(t, ss) && m + 1 < |ss| && i in ss[m].inst
    ensures Took(t, ss, m, act)
    ensures FoundOwn(t, ss, m, i) <==> act == ValidRuns(i) && Lease.Owns(ss[m].store, ss[m].inst[i].lock.value)
    ensures forall tok: Token :: FoundFree(t, ss, m, i, tok) <==>
              act == TryRuns(i) && ss[m].inst[i].pc.tok == tok && !Lease.Live(ss[m].store)
  {
    act := StepTaken(t, ss, m + 1);
    hide Next, Run;
    if FoundOwn(t, ss, m, i) {
      act := ValidRuns(i);
    } else if tok: Token :| FoundFree(t, ss, m, i, tok) {
      act := TryRuns(i);
    }
  }

  lemma AnswersMore(t: Times, ss: seq<State>, a: nat, m: nat, i: Id, v: bool, g: Option<Token>, v': bool, g': Option<Token>)
    requires a < m && Answers(t, ss, a, m, i, v, g)
    requires v' == (v || FoundOwn(t, ss, m, i))
    requires forall tok: Token :: g' == Some(tok) <==> g == Some(tok) || FoundFree(t, ss, m, i, tok)
    ensures Answers(t, ss, a, m + 1, i, v', g')
  {
    hide FoundOwn, FoundFree;
    forall tok: Token ensures g' == Some(tok) <==> exists k: nat :: a < k < m + 1 && FoundFree(t, ss, k, i, tok) {
      if FoundFree(t, ss, m, i, tok) { assert a < m < m + 1; }
      if k: nat :| a < k < m + 1 && FoundFree(t, ss, k, i, tok) { assert k < m || k == m; }
    }
    if FoundOwn(t, ss, m, i) { assert a < m < m + 1; }
    if k: nat :| a < k < m + 1 && FoundOwn(t, ss, k, i) { assert k < m || k == m; }
  }

  /** An answer is what the store said; every other step leaves the answers as they are. */
  lemma ProgressStep(t: Times, s: State, act: Action, i: Id, lock: Option<Token>, v: bool, g: Option<Token>)
    requires Inv(t, s) && Enabled(t, s, act) && i in s.inst && !s.inst[i].pc.Idle?
    requires Progress(lock, s.inst[i], v, g)
    ensures var n, n' := s.inst[i], Next(t, s, act).inst[i];
            if act == ValidRuns(i) && Lease.Owns(s.store, n.lock.value) then !v && g == None && Progress(lock, n', true, g)
            else if act == TryRuns(i) && !Lease.Live(s.store) then !v && g == None && Progress(lock, n', v, Some(n.pc.tok))
            else Progress(lock, n', v, g)
  {
    if Actor(act) == Some(i) {
      OwnProgress(t, s, act, i, lock, v, g);
    } else {
      hide Inv;
      assert Next(t, s, act).inst[i] == s.inst[i];
    }
  }

  lemma OwnProgress(t: Times, s: State, act: Action, i: Id, lock: Option<Token>, v: bool, g: Option<Token>)
    requires LocalInv(t, s) && Enabled(t, s, act) && Actor(act) == Some(i) && !s.inst[i].pc.Idle?
    requires Progress(lock, s.inst[i], v, g)
    ensures var n, n' := s.inst[i], Next(t, s, act).inst[i];
            if act == ValidRuns(i) && Lease.Owns(s.store, n.lock.value) then !v && g == None && Progress(lock, n', true, g)
            else if act == TryRuns(i) && !Lease.Live(s.store) then !v && g == None && Progress(lock, n', v, Some(n.pc.tok))
            else Progress(lock, n', v, g)
  {
    assert FlagInv(s.inst[i]);
    hide LocalInv;
  }

  // ---- Winning, keeping and handing over ----

  ghost predicate Possible(t: Times, s: State, acts: seq<Action>)
    decreases |acts|
  {
    acts == [] || (Enabled(t, s, acts[0]) && Possible(t, Next(t, s, acts[0]), acts[1..]))
  }

  ghost function After(t: Times, s: State, acts: seq<Action>): State
    requires Possible(t, s, acts)
    decreases |acts|
  {
    if acts == [] then s else After(t, Next(t, s, acts[0]), acts[1..])
  }

  /** Between attempts the instance leads, and owns the key with the lock it holds. */
  ghost predicate Holds(s: State, i: Id, tok: Token) {
    Leads(s, i) && s.inst[i].pc.Idle? && s.inst[i].lock == Some(tok) && Lease.Owns(s.store, tok)
  }

  ghost predicate Follows(s: State, i: Id) {
    i in s.inst && s.inst[i].pc.Idle? && !s.inst[i].isLeader && s.inst[i].lock == None
  }

  ghost predicate StepsAlong(t: Times, ss: seq<State>, acts: seq<Action>) {
    |ss| == |acts| + 1 && forall k | 0 <= k < |acts| :: Enabled(t, ss[k], acts[k]) && ss[k + 1] == Next(t, ss[k], acts[k])
  }

  /** Actions given with the states they pass. */
  lemma {:induction false} Along(t: Times, ss: seq<State>, acts: seq<Action>)
    requires StepsAlong(t, ss, acts)
    ensures Possible(t, ss[0], acts) && After(t, ss[0], acts) == ss[|acts|]
    decreases |acts|
  {
    hide Enabled, Next;
    if acts == [] {
    } else {
      Along(t, ss[1..], acts[1..]);
    }
  }

  function TryActions(i: Id, tok: Token): seq<Action> { [TrySends(i, tok), TryRuns(i), TryHandled(i)] }

  function ValidActions(i: Id): seq<Action> { [Start(i), ValidRuns(i), ValidHandled(i)] }

  /** Leadership is won: from every state of a run in which the key is free, an instance without a lock
      leads after its attempt, and owns the key. */
  lemma LeadershipWon(t: Times, ss: seq<State>, n: nat, i: Id, tok: Token)
    requires Sane(t) && Run(t, ss) && n < |ss| && i in ss[n].inst && ss[n].inst[i].pc.Idle? && !Leads(ss[n], i)
    requires !Lease.Live(ss[n].store) && FreshToken(ss[n], tok)
    ensures Possible(t, ss[n], TryActions(i, tok)) && Holds(After(t, ss[n], TryActions(i, tok)), i, tok)
    ensures After(t, ss[n], TryActions(i, tok)).store.now == ss[n].store.now
  {
    RunInv(t, ss, n);
    assert FlagInv(ss[n].inst[i]);
    TryWins(t, ss[n], i, tok);
  }

  lemma TryWins(t: Times, s: State, i: Id, tok: Token)
    requires Lease.Sane(t.ttl) && i in s.inst && s.inst[i].pc.Idle? && s.inst[i].lock.None?
    requires !Lease.Live(s.store) && FreshToken(s, tok)
    ensures Possible(t, s, TryActions(i, tok)) && Holds(After(t, s, TryActions(i, tok)), i, tok)
    ensures After(t, s, TryActions(i, tok)).store.now == s.store.now
  {
    var s1 := Next(t, s, TrySends(i, tok));
    var s2 := Next(t, s1, TryRuns(i));
    var s3 := Next(t, s2, TryHandled(i));
    assert Holds(s3, i, tok) && s3.store.now == s.store.now;
    hide Next, Enabled;
    Along(t, [s, s1, s2, s3], TryActions(i, tok));
  }

  /** ... and kept: in every state of a run in which a leader between attempts owns the key, its next
      attempt leaves it leading with the same lock. */
  lemma LeadershipKept(t: Times, ss: seq<State>, n: nat, i: Id, tok: Token)
    requires Sane(t) && Run(t, ss) && n < |ss| && Holds(ss[n], i, tok)
    ensures Possible(t, ss[n], ValidActions(i)) && Holds(After(t, ss[n], ValidActions(i)), i, tok)
  {
    var s := ss[n];
    var s1 := Next(t, s, Start(i));
    var s2 := Next(t, s1, ValidRuns(i));
    var s3 := Next(t, s2, ValidHandled(i));
    assert Holds(s3, i, tok);
    hide Next, Enabled, Run;
    Along(t, [s, s1, s2, s3], ValidActions(i));
  }

  /** A lock that no release has begun for. */
  ghost predicate Untouched(st: Lease.State, tok: Token) {
    tok in st.holders && st.holders[tok].release.Held?
  }

  /** Until an instance resigns, nobody has begun to release what it holds or has been granted. */
  ghost predicate ReleaseInv(s: State) {
    forall i | i in s.inst :: NotReleased(s.store, s.inst[i])
  }

  ghost predicate NotReleased(st: Lease.State, n: Instance) {
    && (n.lock.Some? && !Resigning(n) && !n.pc.Gone? ==> Untouched(st, n.lock.value))
    && (n.pc.TryAnswered? && n.pc.ok ==> Untouched(st, n.pc.tok))
  }

  lemma ReleaseInvStep(t: Times, s: State, a: Action)
    requires Sane(t) && LocalInv(t, s) && TokenInv(s) && ReleaseInv(s) && Enabled(t, s, a)
    ensures ReleaseInv(Next(t, s, a))
  {
    var s' := Next(t, s, a);
    forall i | i in s'.inst ensures NotReleased(s'.store, s'.inst[i]) {
      assert NotReleased(s.store, s.inst[i]) && FlagInv(s.inst[i]);
      if Actor(a) != Some(i) {
        assert s'.inst[i] == s.inst[i];
        OthersRelease(t, s, a, i);
      }
    }
  }

  predicate Releases(la: Lease.Action, tok: Token) {
    la == Lease.Close(tok) || la == Lease.ReleaseGet(tok) || la == Lease.ReleaseDel(tok)
  }

  lemma UntouchedStep(ttl: Lease.Ttl, st: Lease.State, la: Lease.Action, tok: Token)
    requires Untouched(st, tok) && Lease.Enabled(st, la) && !Releases(la, tok)
    ensures Untouched(Lease.Next(ttl, st, la), tok)
  {
  }

  /** No other's step releases what an instance has drawn and not given up on. */
  lemma NotForOthers(t: Times, s: State, a: Action, i: Id, tok: Token)
    requires TokenInv(s) && Enabled(t, s, a) && Actor(a) != Some(i) && i in s.inst
    requires Drawn(s.inst[i], tok) && !GaveUp(s.inst[i].pc) && CommandOf(s, a).Some?
    ensures !Releases(CommandOf(s, a).value, tok)
  {
  }

  lemma OthersRelease(t: Times, s: State, a: Action, i: Id)
    requires TokenInv(s) && Enabled(t, s, a) && Actor(a) != Some(i) && i in s.inst
    requires NotReleased(s.store, s.inst[i])
    ensures NotReleased(Next(t, s, a).store, s.inst[i])
  {
    StoreSteps(t, s, a);
    var n, st' := s.inst[i], Next(t, s, a).store;
    hide Next, Enabled, TokenInv, Lease.Next, CommandOf;
    if st' != s.store {
      var la := CommandOf(s, a).value;
      if n.lock.Some? && !Resigning(n) && !n.pc.Gone? {
        NotForOthers(t, s, a, i, n.lock.value);
        UntouchedStep(t.ttl, s.store, la, n.lock.value);
      }
      if n.pc.TryAnswered? && n.pc.ok {
        NotForOthers(t, s, a, i, n.pc.tok);
        UntouchedStep(t.ttl, s.store, la, n.pc.tok);
      }
    }
  }

  lemma {:induction false} RunReleases(t: Times, ss: seq<State>, n: nat)
    requires Sane(t) && Run(t, ss) && n < |ss|
    ensures ReleaseInv(ss[n])
  {
    if n == 0 {
    } else {
      RunReleases(t, ss, n - 1);
      RunInv(t, ss, n - 1);
      var a := StepTaken(t, ss, n);
      hide Next, Enabled, ReleaseInv;
      ReleaseInvStep(t, ss[n - 1], a);
    }
  }

  function ResignActions(i: Id): seq<Action> {
    [Resign(i), ResignGetRuns(i), ResignGetHandled(i), ResignDelRuns(i), ResignDelHandled(i)]
  }

  /** ... and handed over: a leader that owns the key and resigns leaves it free at once, and whoever
      tries next leads. */
  lemma HandOver(t: Times, ss: seq<State>, n: nat, i: Id, tok: Token, j: Id, tok': Token)
    requires Sane(t) && Run(t, ss) && n < |ss| && i != j
    requires Holds(ss[n], i, tok)
    requires j in ss[n].inst && ss[n].inst[j].pc.Idle? && !Leads(ss[n], j) && FreshToken(ss[n], tok')
    ensures Possible(t, ss[n], ResignActions(i))
    ensures var s := After(t, ss[n], ResignActions(i));
            && !Leads(s, i) && Possible(t, s, TryActions(j, tok')) && s.store.now == ss[n].store.now
            && Holds(After(t, s, TryActions(j, tok')), j, tok')
  {
    RunInv(t, ss, n);
    RunReleases(t, ss, n);
    assert NotReleased(ss[n].store, ss[n].inst[i]) && FlagInv(ss[n].inst[j]);
    assert forall k | k in ss[n].inst :: !Drawn(ss[n].inst[k], tok');
    hide Run, Inv;
    Resigns(t, ss[n], i, tok);
    var s := After(t, ss[n], ResignActions(i));
    hide After, Possible, Next, Enabled;
    TryWins(t, s, j, tok');
  }

  lemma Resigns(t: Times, s: State, i: Id, tok: Token)
    requires Lease.Sane(t.ttl) && Holds(s, i, tok) && Untouched(s.store, tok)
    ensures Possible(t, s, ResignActions(i)) && LeftFree(s, After(t, s, ResignActions(i)), i)
  {
    var s1 := Next(t, s, Resign(i));
    var s2 := Next(t, s1, ResignGetRuns(i));
    Asks(t, s, i, tok);
    GivesUp(t, s2, i, tok);
    var s3 := Next(t, s2, ResignGetHandled(i));
    var s4 := Next(t, s3, ResignDelRuns(i));
    var s5 := Next(t, s4, ResignDelHandled(i));
    hide Next, Enabled;
    Along(t, [s, s1, s2, s3, s4, s5], ResignActions(i));
  }

  /** The key is gone, no time has passed, and of the instances only this one has changed. */
  ghost predicate LeftFree(s: State, s': State, i: Id)
    requires i in s.inst
  {
    && s'.store.key.None? && s'.store.now == s.store.now && s'.store.holders.Keys == s.store.holders.Keys
    && i in s'.inst && s'.inst == s.inst[i := s'.inst[i]]
    && s'.inst[i].lock == s.inst[i].lock && !s'.inst[i].isLeader && s'.inst[i].pc.Gone?
  }

  lemma Asks(t: Times, s: State, i: Id, tok: Token)
    requires Holds(s, i, tok) && Untouched(s.store, tok)
    ensures Enabled(t, s, Resign(i)) && Enabled(t, Next(t, s, Resign(i)), ResignGetRuns(i))
    ensures var s' := Next(t, Next(t, s, Resign(i)), ResignGetRuns(i));
            && s'.store.key == s.store.key && s'.store.now == s.store.now
            && s'.store.holders.Keys == s.store.holders.Keys && s'.store.holders[tok].release.DelPending?
            && s'.inst == s.inst[i := s.inst[i].(pc := ResignGetAnswered(s.store.now, true))]
  {
  }

  lemma GivesUp(t: Times, s: State, i: Id, tok: Token)
    requires i in s.inst && s.inst[i].pc.ResignGetAnswered? && s.inst[i].pc.own && s.inst[i].lock == Some(tok)
    requires tok in s.store.holders && s.store.holders[tok].release.DelPending?
    ensures Enabled(t, s, ResignGetHandled(i))
    ensures var s1 := Next(t, s, ResignGetHandled(i));
            Enabled(t, s1, ResignDelRuns(i)) && Enabled(t, Next(t, s1, ResignDelRuns(i)), ResignDelHandled(i))
            && LeftFree(s, Next(t, Next(t, s1, ResignDelRuns(i)), ResignDelHandled(i)), i)
  {
  }

  /** A leader that cannot reach the store is a follower after its attempt: both commands fail. */
  lemma FailsClosed(t: Times, ss: seq<State>, n: nat, i: Id, tok: Token)
    requires Sane(t) && Run(t, ss) && n < |ss| && Leads(ss[n], i) && ss[n].inst[i].pc.Idle? && FreshToken(ss[n], tok)
    ensures var acts := [Start(i), ValidFails(i), ValidHandled(i), TrySends(i, tok), TryFails(i), TryHandled(i)];
            && Possible(t, ss[n], acts) && Follows(After(t, ss[n], acts), i)
            && After(t, ss[n], acts).store == ss[n].store
  {
    RunInv(t, ss, n);
    var s := ss[n];
    assert FlagInv(s.inst[i]) && forall j | j in s.inst :: !Drawn(s.inst[j], tok);
    hide Run, Inv;
    StandsDown(t, s, i);
    var s1 := Next(t, s, Start(i));
    var s2 := Next(t, s1, ValidFails(i));
    var s3 := Next(t, s2, ValidHandled(i));
    TriesInVain(t, s3, i, tok);
    var s4 := Next(t, s3, TrySends(i, tok));
    var s5 := Next(t, s4, TryFails(i));
    var s6 := Next(t, s5, TryHandled(i));
    hide Next, Enabled, Follows;
    Along(t, [s, s1, s2, s3, s4, s5, s6], [Start(i), ValidFails(i), ValidHandled(i), TrySends(i, tok), TryFails(i), TryHandled(i)]);
  }

  lemma StandsDown(t: Times, s: State, i: Id)
    requires i in s.inst && s.inst[i].pc.Idle? && s.inst[i].lock.Some?
    ensures Enabled(t, s, Start(i)) && Enabled(t, Next(t, s, Start(i)), ValidFails(i))
    ensures var s2 := Next(t, Next(t, s, Start(i)), ValidFails(i));
            && Enabled(t, s2, ValidHandled(i))
            && var s3 := Next(t, s2, ValidHandled(i));
               s3 == s.(inst := s.inst[i := s.inst[i].(lock := None, isLeader := false, pc := StoodDown)])
  {
  }

  lemma TriesInVain(t: Times, s: State, i: Id, tok: Token)
    requires i in s.inst && s.inst[i].pc.StoodDown? && !s.inst[i].isLeader && s.inst[i].lock == None
    requires tok !in s.store.holders && forall j | j in s.inst :: !Drawn(s.inst[j], tok)
    ensures Enabled(t, s, TrySends(i, tok)) && Enabled(t, Next(t, s, TrySends(i, tok)), TryFails(i))
    ensures var s2 := Next(t, Next(t, s, TrySends(i, tok)), TryFails(i));
            && Enabled(t, s2, TryHandled(i))
            && var s3 := Next(t, s2, TryHandled(i)); Follows(s3, i) && s3.store == s.store
  {
  }

  /** A resigning leader whose Get fails, or finds the key not its own, is gone without touching the key. */
  lemma ResignLeavesKey(t: Times, ss: seq<State>, n: nat, i: Id, fails: bool)
    requires Sane(t) && Run(t, ss) && n < |ss| && Leads(ss[n], i) && ss[n].inst[i].pc.Idle?
    requires fails || !Lease.Owns(ss[n].store, (if ss[n].inst[i].lock.Some? then ss[n].inst[i].lock.value else 0))
    ensures var acts := [Resign(i), if fails then ResignGetFails(i) else ResignGetRuns(i), ResignGetHandled(i)];
            && Possible(t, ss[n], acts)
            && var s := After(t, ss[n], acts);
               && i in s.inst && s.inst[i].pc.Gone? && !s.inst[i].isLeader
               && s.store.key == ss[n].store.key && s.store.now == ss[n].store.now
  {
    RunInv(t, ss, n);
    var s := ss[n];
    assert FlagInv(s.inst[i]);
    hide Run, Inv;
    var get := if fails then ResignGetFails(i) else ResignGetRuns(i);
    var s1 := Next(t, s, Resign(i));
    var s2 := Next(t, s1, get);
    var s3 := Next(t, s2, ResignGetHandled(i));
    assert i in s3.inst && s3.inst[i].pc.Gone? && !s3.inst[i].isLeader;
    assert s3.store.key == s.store.key && s3.store.now == s.store.now;
    hide Next, Enabled;
    Along(t, [s, s1, s2, s3], [Resign(i), get, ResignGetHandled(i)]);
  }

  // ---- The store of an election is the lease's ----

  /** Refinement: what the store has gone through at any point of a run is a run of RedisLease, so all that is
      proved of that holds of the election's store. */
  lemma {:induction false} StoreIsLease(t: Times, ss: seq<State>, n: nat) returns (acts: seq<Lease.Action>)
    requires Sane(t) && Run(t, ss) && n < |ss|
    ensures Lease.Executable(t.ttl, Lease.INIT, acts) && Lease.Exec(t.ttl, Lease.INIT, acts) == ss[n].store
  {
    if n == 0 {
      acts := [];
    } else {
      acts := StoreIsLease(t, ss, n - 1);
      var a := StepTaken(t, ss, n);
      StoreSteps(t, ss[n - 1], a);
      var c := CommandOf(ss[n - 1], a);
      hide Next, Enabled, Run, CommandOf;
      if c.Some? && Lease.Enabled(ss[n - 1].store, c.value) {
        Lease.OneMore(t.ttl, Lease.INIT, acts, c.value);
        acts := acts + [c.value];
      }
    }
  }

  /** A leader that has died is replaced: when no instance reports leadership or has a try under way, the
      key is free once the longer of the two times has passed, and whoever tries then leads. */
  lemma DeadLeaderReplaced(t: Times, ss: seq<State>, n: nat, j: Id, tok: Token)
    requires Sane(t) && Run(t, ss) && n < |ss| && (forall i | i in ss[n].inst :: !Timed(ss[n].inst[i]))
    requires j in ss[n].inst && ss[n].inst[j].pc.Idle? && FreshToken(ss[n], tok)
    ensures var wait := Store(Lease.Tick(Lease.Max(t.ttl.lease, t.ttl.renewal)));
            && Possible(t, ss[n], [wait] + TryActions(j, tok))
            && Holds(After(t, ss[n], [wait] + TryActions(j, tok)), j, tok)
  {
    RunInv(t, ss, n);
    var acts := StoreIsLease(t, ss, n);
    Lease.KeyInvKept(t.ttl, Lease.INIT, acts);
    var s, wait := ss[n], Store(Lease.Tick(Lease.Max(t.ttl.lease, t.ttl.renewal)));
    assert FlagInv(s.inst[j]) && forall i | i in s.inst :: !Drawn(s.inst[i], tok);
    hide Run, Inv;
    var s1 := Next(t, s, wait);
    assert Enabled(t, s, wait) && !Lease.Live(s1.store) && FreshToken(s1, tok);
    TryWins(t, s1, j, tok);
    hide Next, Enabled;
    assert ([wait] + TryActions(j, tok))[1..] == TryActions(j, tok);
  }
}
