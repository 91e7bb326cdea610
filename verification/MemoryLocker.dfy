/** infra/coordination/memory.go: the in-process FIFO lock, one step per critical section. */
module MemoryLocker {
  import opened Results

  type Resource = string
  type Token = nat

  datatype Queue = Queue(owner: Option<Token>, waiters: seq<Token>)

  datatype Phase = Waiting | Holding | Finished

  /** What one Lock or TryLock call has become.  `ticket` numbers the Lock calls in the order in
      which they joined a queue. */
  datatype Client = Client(res: Resource, phase: Phase, ticket: nat)

  datatype Grant = Grant(res: Resource, ticket: nat)

  /** `queues` is the locker's table; the rest records what its callers are doing. */
  datatype State = State(queues: map<Resource, Queue>, clients: map<Token, Client>, tickets: nat, grants: seq<Grant>)

  datatype Action =
    | Enqueue(res: Resource, tok: Token)   // Lock joins the queue
    | Poll(tok: Token)                     // one turn of Lock's loop
    | GiveUp(tok: Token)                   // Lock times out or is cancelled: removeWaiter
    | TryLock(res: Resource, tok: Token)
    | Release(tok: Token)

  const INIT := State(map[], map[], 0, [])

  function QueueOf(queues: map<Resource, Queue>, res: Resource): Queue {
    if res in queues then queues[res] else Queue(None, [])
  }

  /** `waiters` without the first occurrence of `tok`. */
  function Without(waiters: seq<Token>, tok: Token): seq<Token> {
    if waiters == [] then []
    else if waiters[0] == tok then waiters[1..]
    else [waiters[0]] + Without(waiters[1..], tok)
  }

  predicate CanAcquire(q: Queue, tok: Token) {
    q.owner.None? && |q.waiters| > 0 && q.waiters[0] == tok
  }

  function AfterPoll(q: Queue, tok: Token): Queue {
    if CanAcquire(q, tok) then Queue(Some(tok), q.waiters[1..]) else q
  }

  function AfterTry(q: Queue, tok: Token): Queue {
    if q.owner.None? then q.(owner := Some(tok)) else q
  }

  /** The table after Release: the owner steps down, and a queue nobody needs is deleted. */
  function AfterRelease(queues: map<Resource, Queue>, res: Resource, tok: Token): map<Resource, Queue> {
    var q := QueueOf(queues, res);
    var q' := if q.owner == Some(tok) then q.(owner := None) else q;
    if q'.owner.None? && q'.waiters == [] then queues - {res} else queues[res := q']
  }

  predicate Enabled(s: State, a: Action) {
    match a
    case Enqueue(_, tok) => tok !in s.clients
    case Poll(tok) => tok in s.clients && s.clients[tok].phase.Waiting?
    case GiveUp(tok) => tok in s.clients && s.clients[tok].phase.Waiting?
    case TryLock(_, tok) => tok !in s.clients
    case Release(tok) => tok in s.clients && s.clients[tok].phase.Holding?
  }

  function Next(s: State, a: Action): State
    requires Enabled(s, a)
  {
    match a
    case Enqueue(res, tok) =>
      var q := QueueOf(s.queues, res);
      State(s.queues[res := q.(waiters := q.waiters + [tok])],
            s.clients[tok := Client(res, Waiting, s.tickets)], s.tickets + 1, s.grants)
    case Poll(tok) =>
      var c := s.clients[tok];
      var q := QueueOf(s.queues, c.res);
      var s' := s.(queues := s.queues[c.res := AfterPoll(q, tok)]);
      if CanAcquire(q, tok)
      then s'.(clients := s.clients[tok := c.(phase := Holding)], grants := s.grants + [Grant(c.res, c.ticket)])
      else s'
    case GiveUp(tok) =>
      var c := s.clients[tok];
      var q := QueueOf(s.queues, c.res);
      s.(queues := s.queues[c.res := q.(waiters := Without(q.waiters, tok))],
         clients := s.clients[tok := c.(phase := Finished)])
    case TryLock(res, tok) =>
      var q := QueueOf(s.queues, res);
      var phase := if q.owner.None? then Holding else Finished;
      s.(queues := s.queues[res := AfterTry(q, tok)], clients := s.clients[tok := Client(res, phase, 0)])
    case Release(tok) =>
      var c := s.clients[tok];
      s.(queues := AfterRelease(s.queues, c.res, tok), clients := s.clients[tok := c.(phase := Finished)])
  }

  /** What Valid answers for the handle with this token. */
  predicate HandleValid(s: State, tok: Token) {
    tok in s.clients && s.clients[tok].phase.Holding?
    && s.clients[tok].res in s.queues && s.queues[s.clients[tok].res].owner == Some(tok)
  }

  predicate InPhase(s: State, tok: Token, res: Resource, phase: Phase) {
    tok in s.clients && s.clients[tok].res == res && s.clients[tok].phase == phase
  }

  predicate Agrees(s: State, tok: Token, res: Resource) {
    && (QueueOf(s.queues, res).owner == Some(tok) <==> InPhase(s, tok, res, Holding))
    && (tok in QueueOf(s.queues, res).waiters <==> InPhase(s, tok, res, Waiting))
  }

  /** The table and the callers agree: the owner of a resource is its one holder, and its waiters
      are exactly the calls still waiting. */
  ghost predicate TableInv(s: State) {
    forall tok: Token, res: Resource :: Agrees(s, tok, res)
  }

  ghost predicate ByTicket(s: State, waiters: seq<Token>) {
    && (forall k | 0 <= k < |waiters| :: waiters[k] in s.clients && s.clients[waiters[k]].ticket < s.tickets)
    && (forall j, k | 0 <= j < k < |waiters| :: s.clients[waiters[j]].ticket < s.clients[waiters[k]].ticket)
  }

  ghost predicate Precedes(s: State, u: Token, v: Token) {
    u in s.clients && v in s.clients && s.clients[u].ticket < s.clients[v].ticket
  }

  ghost predicate QueueOrder(s: State) {
    forall res | res in s.queues :: ByTicket(s, s.queues[res].waiters)
  }

  /** The grants of each resource are in ticket order, all of them before anybody still waiting. */
  ghost predicate GrantOrder(s: State) {
    && (forall j, k | 0 <= j < k < |s.grants| && s.grants[j].res == s.grants[k].res ::
          s.grants[j].ticket < s.grants[k].ticket)
    && (forall j, tok: Token | 0 <= j < |s.grants| && InPhase(s, tok, s.grants[j].res, Waiting) ::
          s.grants[j].ticket < s.clients[tok].ticket)
    && (forall j | 0 <= j < |s.grants| :: s.grants[j].ticket < s.tickets)
  }

  ghost predicate Inv(s: State) {
    TableInv(s) && QueueOrder(s) && GrantOrder(s)
  }

  lemma {:induction false} WithoutMembers(s: State, waiters: seq<Token>, tok: Token)
    requires ByTicket(s, waiters)
    ensures ByTicket(s, Without(waiters, tok))
    ensures forall u: Token :: u in Without(waiters, tok) <==> u in waiters && u != tok
  {
    if waiters == [] {
    } else {
      var head, tail := waiters[0], waiters[1..];
      assert waiters == [head] + tail;
      AfterHead(s, waiters);
      WithoutMembers(s, tail, tok);
      if head != tok { BehindHead(s, head, Without(tail, tok)); }
    }
  }

  lemma AfterHead(s: State, waiters: seq<Token>)
    requires ByTicket(s, waiters) && waiters != []
    ensures waiters[0] in s.clients && s.clients[waiters[0]].ticket < s.tickets
    ensures ByTicket(s, waiters[1..]) && forall u | u in waiters[1..] :: Precedes(s, waiters[0], u)
  {
    var tail := waiters[1..];
    forall k | 0 <= k < |tail| ensures Precedes(s, waiters[0], tail[k]) { assert waiters[k + 1] == tail[k]; }
    assert forall k | 0 <= k < |tail| :: tail[k] == waiters[k + 1];
  }

  lemma BehindHead(s: State, head: Token, tail: seq<Token>)
    requires head in s.clients && s.clients[head].ticket < s.tickets
    requires ByTicket(s, tail) && forall u | u in tail :: Precedes(s, head, u)
    ensures ByTicket(s, [head] + tail)
  {
    assert forall k | 0 <= k < |tail| :: tail[k] in tail;
  }

  lemma {:induction false} WithoutAt(waiters: seq<Token>, tok: Token, i: nat)
    requires i <= |waiters| && tok !in waiters[..i]
    requires i < |waiters| ==> waiters[i] == tok
    ensures Without(waiters, tok) == if i < |waiters| then waiters[..i] + waiters[i + 1..] else waiters
  {
    if i == 0 {
    } else {
      assert waiters[0] in waiters[..i];
      assert waiters[1..][..i - 1] == waiters[..i][1..];
      WithoutAt(waiters[1..], tok, i - 1);
    }
  }

  lemma AgreesStep(s: State, a: Action, tok: Token, res: Resource)
    requires Inv(s) && Enabled(s, a)
    ensures Agrees(Next(s, a), tok, res)
  {
    match a
    case Enqueue(_, _) => assert Agrees(s, tok, res);
    case Poll(t) => AgreesPoll(s, t, tok, res);
    case GiveUp(t) => AgreesGiveUp(s, t, tok, res);
    case TryLock(_, _) => assert Agrees(s, tok, res);
    case Release(t) => AgreesRelease(s, t, tok, res);
  }

  lemma AgreesPoll(s: State, t: Token, tok: Token, res: Resource)
    requires Inv(s) && Enabled(s, Poll(t))
    ensures Agrees(Next(s, Poll(t)), tok, res)
  {
    assert Agrees(s, tok, res) && Agrees(s, t, s.clients[t].res);
    HeadOnce(s, t);
  }

  lemma AgreesGiveUp(s: State, t: Token, tok: Token, res: Resource)
    requires Inv(s) && Enabled(s, GiveUp(t))
    ensures Agrees(Next(s, GiveUp(t)), tok, res)
  {
    assert Agrees(s, tok, res) && Agrees(s, t, s.clients[t].res);
    if s.clients[t].res in s.queues { WithoutMembers(s, s.queues[s.clients[t].res].waiters, t); }
  }

  lemma AgreesRelease(s: State, t: Token, tok: Token, res: Resource)
    requires Inv(s) && Enabled(s, Release(t))
    ensures Agrees(Next(s, Release(t)), tok, res)
  {
    assert Agrees(s, tok, res) && Agrees(s, t, s.clients[t].res);
  }

  /** The head of a queue occurs nowhere else in it. */
  lemma HeadOnce(s: State, tok: Token)
    requires Inv(s) && tok in s.clients
    ensures var q := QueueOf(s.queues, s.clients[tok].res);
            CanAcquire(q, tok) ==>
              q.waiters == [tok] + q.waiters[1..] && tok !in q.waiters[1..]
  {
    var q := QueueOf(s.queues, s.clients[tok].res);
    if CanAcquire(q, tok) {
      assert s.clients[tok].res in s.queues && ByTicket(s, q.waiters);
    }
  }

  /** Client records only move forward, so a queue order once established stays. */
  lemma TicketsKept(s: State, a: Action, waiters: seq<Token>)
    requires Enabled(s, a) && ByTicket(s, waiters)
    ensures ByTicket(Next(s, a), waiters)
  {
  }

  lemma QueueOrderStep(s: State, a: Action)
    requires Inv(s) && Enabled(s, a)
    ensures QueueOrder(Next(s, a))
  {
    var s' := Next(s, a);
    forall res | res in s'.queues ensures ByTicket(s', s'.queues[res].waiters) {
      if res in s.queues {
        TicketsKept(s, a, s.queues[res].waiters);
        if a.GiveUp? {
          WithoutMembers(s', s.queues[res].waiters, a.tok);
        }
      }
    }
  }

  lemma GrantOrderStep(s: State, a: Action)
    requires Inv(s) && Enabled(s, a)
    ensures GrantOrder(Next(s, a))
  {
    if a.Poll? && CanAcquire(QueueOf(s.queues, s.clients[a.tok].res), a.tok) {
      PollGrantsOldest(s, a.tok);
      assert InPhase(s, a.tok, s.clients[a.tok].res, Waiting);
      assert ByTicket(s, QueueOf(s.queues, s.clients[a.tok].res).waiters);
    }
    var s' := Next(s, a);
    forall j, tok: Token | 0 <= j < |s'.grants| && InPhase(s', tok, s'.grants[j].res, Waiting)
      ensures s'.grants[j].ticket < s'.clients[tok].ticket
    {
      if !a.Enqueue? || tok != a.tok { assert InPhase(s, tok, s'.grants[j].res, Waiting); }
    }
  }

  /** The head of a queue has waited longest: every other waiter drew its ticket later. */
  lemma PollGrantsOldest(s: State, tok: Token)
    requires Inv(s) && Enabled(s, Poll(tok)) && CanAcquire(QueueOf(s.queues, s.clients[tok].res), tok)
    ensures forall u | InPhase(s, u, s.clients[tok].res, Waiting) && u != tok ::
              s.clients[tok].ticket < s.clients[u].ticket
  {
    var q := QueueOf(s.queues, s.clients[tok].res);
    assert ByTicket(s, q.waiters);
    forall u | InPhase(s, u, s.clients[tok].res, Waiting) && u != tok
      ensures s.clients[tok].ticket < s.clients[u].ticket
    {
      assert Agrees(s, u, s.clients[tok].res);
      var k :| 0 <= k < |q.waiters| && q.waiters[k] == u;
    }
  }

  lemma InvStep(s: State, a: Action)
    requires Inv(s) && Enabled(s, a)
    ensures Inv(Next(s, a))
  {
    forall tok: Token, res: Resource ensures Agrees(Next(s, a), tok, res) {
      AgreesStep(s, a, tok, res);
    }
    QueueOrderStep(s, a);
    GrantOrderStep(s, a);
  }

  // ---- Whole runs ----

  ghost predicate Executable(s: State, acts: seq<Action>)
    decreases |acts|
  {
    acts == [] || (Enabled(s, acts[0]) && Executable(Next(s, acts[0]), acts[1..]))
  }

  ghost function Exec(s: State, acts: seq<Action>): State
    requires Executable(s, acts)
    decreases |acts|
  {
    if acts == [] then s else Exec(Next(s, acts[0]), acts[1..])
  }

  /** A queue that nobody owns and nobody waits in. */
  predicate Idle(s: State, res: Resource) {
    res in s.queues && s.queues[res] == Queue(None, [])
  }

  /** As long as no call gives up, a queue that nobody needs any more is deleted with the last release... */
  lemma {:induction false} NoIdleQueues(s: State, acts: seq<Action>)
    requires Inv(s) && Executable(s, acts) && (forall a | a in acts :: !a.GiveUp?) && forall res :: !Idle(s, res)
    ensures forall res :: !Idle(Exec(s, acts), res)
    decreases |acts|
  {
    if acts == [] {
    } else {
      assert acts[0] in acts;
      InvStep(s, acts[0]);
      NoneBecomesIdle(s, acts[0]);
      NoIdleQueues(Next(s, acts[0]), acts[1..]);
    }
  }

  lemma NoneBecomesIdle(s: State, a: Action)
    requires Inv(s) && Enabled(s, a) && !a.GiveUp? && forall res :: !Idle(s, res)
    ensures forall res :: !Idle(Next(s, a), res)
  {
    forall res ensures !Idle(Next(s, a), res) {
      assert !Idle(s, res);
      if a.Poll? { assert Agrees(s, a.tok, s.clients[a.tok].res); }
    }
  }

  /** ... but one whose last waiter gives up while the resource is free is left behind. */
  lemma GivingUpLeavesIdle(s: State, res: Resource, tok: Token)
    requires Inv(s) && tok !in s.clients && res !in s.queues
    ensures Executable(s, [Enqueue(res, tok), GiveUp(tok)]) && Idle(Exec(s, [Enqueue(res, tok), GiveUp(tok)]), res)
  {
    var acts, s1 := [Enqueue(res, tok), GiveUp(tok)], Next(s, Enqueue(res, tok));
    assert acts[1..] == [GiveUp(tok)] && [GiveUp(tok)][1..] == [];
    assert s1.queues[res].waiters == [tok];
    var s2 := Next(s1, GiveUp(tok));
    assert Executable(s2, []) && Executable(s1, [GiveUp(tok)]) && Exec(s1, [GiveUp(tok)]) == Exec(s2, []) == s2;
  }

  lemma {:induction false} ExecInv(s: State, acts: seq<Action>)
    requires Inv(s) && Executable(s, acts)
    ensures Inv(Exec(s, acts))
    decreases |acts|
  {
    if acts == [] {
    } else {
      InvStep(s, acts[0]);
      ExecInv(Next(s, acts[0]), acts[1..]);
    }
  }

  /** Exclusion: a resource never has two holders, and a holder's handle is valid until its own
      Release. */
  lemma OneValidHandle(acts: seq<Action>, t1: Token, t2: Token)
    requires Executable(INIT, acts)
    ensures var s := Exec(INIT, acts);
            && (HandleValid(s, t1) <==> t1 in s.clients && s.clients[t1].phase.Holding?)
            && (HandleValid(s, t1) && HandleValid(s, t2) && s.clients[t1].res == s.clients[t2].res ==> t1 == t2)
  {
    ExecInv(INIT, acts);
    var s := Exec(INIT, acts);
    if t1 in s.clients { assert Agrees(s, t1, s.clients[t1].res); }
  }

  /** No waiter is lost, not even when a queue is deleted: a call is waiting if and only if it is
      in its resource's queue, where it occurs once. */
  lemma WaitersAreTheWaiting(acts: seq<Action>, res: Resource, tok: Token)
    requires Executable(INIT, acts)
    ensures var s := Exec(INIT, acts);
            && (InPhase(s, tok, res, Waiting) <==> res in s.queues && tok in s.queues[res].waiters)
            && forall j, k | 0 <= j < k < |QueueOf(s.queues, res).waiters| ::
                 QueueOf(s.queues, res).waiters[j] != QueueOf(s.queues, res).waiters[k]
  {
    ExecInv(INIT, acts);
    var s := Exec(INIT, acts);
    assert Agrees(s, tok, res);
    if res in s.queues { assert ByTicket(s, s.queues[res].waiters); }
  }

  /** FIFO: over any run, the Lock grants of one resource come in the order in which the calls
      joined its queue, whatever time-outs and TryLock calls happen between them. */
  lemma GrantsFollowTickets(acts: seq<Action>, j: nat, k: nat)
    requires Executable(INIT, acts)
    requires j < k < |Exec(INIT, acts).grants|
    requires Exec(INIT, acts).grants[j].res == Exec(INIT, acts).grants[k].res
    ensures Exec(INIT, acts).grants[j].ticket < Exec(INIT, acts).grants[k].ticket
  {
    ExecInv(INIT, acts);
  }

  /** The turns of waiting calls that end with the call holding its resource, in order. */
  ghost function TurnsTaken(s: State, acts: seq<Action>): seq<Grant>
    requires Executable(s, acts)
    decreases |acts|
  {
    if acts == [] then []
    else
      var s' := Next(s, acts[0]);
      (if acts[0].Poll? && s'.clients[acts[0].tok].phase.Holding?
       then [Grant(s.clients[acts[0].tok].res, s.clients[acts[0].tok].ticket)] else [])
      + TurnsTaken(s', acts[1..])
  }

  /** The grants on record are these turns, no more and no fewer. */
  lemma {:induction false} GrantsAreTurns(s: State, acts: seq<Action>)
    requires Executable(s, acts)
    ensures Exec(s, acts).grants == s.grants + TurnsTaken(s, acts)
    decreases |acts|
  {
    if acts == [] {
    } else {
      GrantsAreTurns(Next(s, acts[0]), acts[1..]);
    }
  }

  /** No stuck resource: if it is free and somebody waits, the longest waiter's next turn takes it. */
  lemma HeadCanAcquire(acts: seq<Action>, res: Resource)
    requires Executable(INIT, acts)
    requires var q := QueueOf(Exec(INIT, acts).queues, res); q.owner.None? && q.waiters != []
    ensures var s := Exec(INIT, acts);
            var head := QueueOf(s.queues, res).waiters[0];
            && Enabled(s, Poll(head))
            && HandleValid(Next(s, Poll(head)), head)
            && forall u | InPhase(s, u, res, Waiting) && u != head :: s.clients[head].ticket < s.clients[u].ticket
  {
    ExecInv(INIT, acts);
    var s := Exec(INIT, acts);
    var head := QueueOf(s.queues, res).waiters[0];
    assert Agrees(s, head, res);
    PollGrantsOldest(s, head);
  }

  // ---- The locker itself ----

  /** memoryLock: `closed` is its done channel, guarded by once. */
  class MemoryLock {
    const res: Resource
    const token: Token
    var closed: bool

    constructor (res: Resource, token: Token)
      ensures this.res == res && this.token == token && !closed
    {
      this.res, this.token, closed := res, token, false;
    }
  }

  class MemoryLocker {
    var queues: map<Resource, Queue>
    /** The run so far, as the state machine above sees it. */
    ghost var model: State

    ghost predicate Valid() reads this {
      model.queues == queues && Inv(model)
    }

    constructor ()
      ensures Valid() && model == INIT
    {
      queues, model := map[], INIT;
    }

    /** queue(resource): the entry is created on first use. */
    method Ensure(res: Resource) returns (q: Queue)
      modifies this`queues
      ensures q == QueueOf(old(queues), res) && queues == old(queues)[res := q]
    {
      if res !in queues {
        queues := queues[res := Queue(None, [])];
      }
      q := queues[res];
      assert queues == old(queues)[res := q];
    }

    method Enqueue(res: Resource, token: Token)
      requires Valid() && Enabled(model, Action.Enqueue(res, token))
      modifies this
      ensures Valid() && model == Next(old(model), Action.Enqueue(res, token))
    {
      InvStep(model, Action.Enqueue(res, token));
      var q := Ensure(res);
      queues := queues[res := q.(waiters := q.waiters + [token])];
      model := Next(model, Action.Enqueue(res, token));
    }

    method Poll(res: Resource, token: Token) returns (lock: MemoryLock?)
      requires Valid() && InPhase(model, token, res, Waiting)
      modifies this
      ensures Valid() && model == Next(old(model), Action.Poll(token))
      ensures lock != null <==> model.clients[token].phase.Holding?
      ensures lock != null ==> fresh(lock) && lock.res == res && lock.token == token && !lock.closed
    {
      InvStep(model, Action.Poll(token));
      model := Next(model, Action.Poll(token));
      var q := Ensure(res);
      lock := null;
      if q.owner.None? && |q.waiters| > 0 && q.waiters[0] == token {
        queues := queues[res := Queue(Some(token), q.waiters[1..])];
        lock := new MemoryLock(res, token);
      }
    }

    method RemoveWaiter(res: Resource, token: Token)
      requires Valid() && InPhase(model, token, res, Waiting)
      modifies this
      ensures Valid() && model == Next(old(model), GiveUp(token))
    {
      InvStep(model, GiveUp(token));
      model := Next(model, GiveUp(token));
      var q := Ensure(res);
      var i := 0;
      while i < |q.waiters| && q.waiters[i] != token
        invariant 0 <= i <= |q.waiters|
        invariant token !in q.waiters[..i]
      {
        i := i + 1;
      }
      WithoutAt(q.waiters, token, i);
      if i < |q.waiters| {
        queues := queues[res := q.(waiters := q.waiters[..i] + q.waiters[i + 1..])];
      }
    }

    method TryLock(res: Resource, token: Token) returns (lock: MemoryLock?)
      requires Valid() && token !in model.clients
      modifies this
      ensures Valid() && model == Next(old(model), Action.TryLock(res, token))
      ensures lock != null <==> QueueOf(old(queues), res).owner.None?
      ensures lock != null ==> fresh(lock) && lock.res == res && lock.token == token && !lock.closed
    {
      InvStep(model, Action.TryLock(res, token));
      model := Next(model, Action.TryLock(res, token));
      var q := Ensure(res);
      if q.owner.Some? {
        return null;
      }
      queues := queues[res := q.(owner := Some(token))];
      lock := new MemoryLock(res, token);
    }

    method HandleIsValid(lock: MemoryLock) returns (valid: bool)
      requires Valid()
      requires lock.token in model.clients && model.clients[lock.token].res == lock.res
      requires lock.closed <==> model.clients[lock.token].phase.Finished?
      ensures valid <==> HandleValid(model, lock.token)
    {
      if lock.closed {
        return false;
      }
      valid := lock.res in queues && queues[lock.res].owner == Some(lock.token);
      assert Agrees(model, lock.token, lock.res);
    }

    /** The first Release takes effect; a second one finds the handle closed and does nothing. */
    method Release(lock: MemoryLock)
      requires Valid()
      requires lock.token in model.clients && model.clients[lock.token].res == lock.res
      requires !lock.closed ==> model.clients[lock.token].phase.Holding?
      modifies this, lock
      ensures Valid() && lock.closed
      ensures model == if old(lock.closed) then old(model) else Next(old(model), Action.Release(lock.token))
    {
      if lock.closed {
        return;
      }
      lock.closed := true;
      InvStep(model, Action.Release(lock.token));
      model := Next(model, Action.Release(lock.token));
      var before := queues;
      var q := Ensure(lock.res);
      if q.owner == Some(lock.token) {
        q := q.(owner := None);
        queues := queues[lock.res := q];
      }
      if q.owner.None? && |q.waiters| == 0 {
        queues := queues - {lock.res};
        assert queues == before - {lock.res};
      }
    }
  }
}
