/** infra/coordination/leader.go: leadership of one instance over any Locker. */
module Leader {
  import opened Results

  type Token = nat

  /** Calls of onChange are started on transitions only, so they are started alternately, the first one
      announcing a gain.  Each is a goroutine of its own: how they then interleave is left to them. */
  ghost predicate Alternates(calls: seq<bool>) {
    forall k :: 0 <= k < |calls| ==> (calls[k] <==> k % 2 == 0)
  }

  /** The lock held after an attempt: the one held before if it is still valid, and otherwise what
      TryLock grants. */
  function AfterAttempt(held: Option<Token>, stillValid: bool, grant: Option<Token>): Option<Token> {
    if held.Some? && stillValid then held else grant
  }

  class Leader {
    var held: Option<Token>
    var isLeader: bool
    /** The arguments of the onChange calls in the order in which they were started. */
    ghost var calls: seq<bool>

    /** What the two flags agree on between attempts. */
    ghost predicate Valid() reads this {
      && (isLeader <==> held.Some?)
      && (isLeader <==> |calls| % 2 == 1)
      && Alternates(calls)
    }

    constructor ()
      ensures Valid() && !isLeader && calls == []
    {
      held, isLeader, calls := None, false, [];
    }

    method Set(leading: bool)
      requires (isLeader <==> |calls| % 2 == 1) && Alternates(calls)
      modifies this`isLeader, this`calls
      ensures isLeader == leading
      ensures calls == if old(isLeader) == leading then old(calls) else old(calls) + [leading]
      ensures (isLeader <==> |calls| % 2 == 1) && Alternates(calls)
    {
      var changed := isLeader != leading;
      isLeader := leading;
      if changed {
        calls := calls + [leading];
      }
    }

    /** One attempt.  `stillValid` is what the held lock's Valid answers, and `grant` what TryLock
        answers: a lock, or None for ErrNotAcquired and for every other error.  `released` is the
        lock on which Release was called. */
    method Attempt(stillValid: bool, grant: Option<Token>) returns (released: Option<Token>)
      requires Valid()
      modifies this
      ensures Valid()
      ensures held == AfterAttempt(old(held), stillValid, grant)
      ensures released == if stillValid then None else old(held)
      // The announcement of a lost lease is started before that of the next one.
      ensures calls == old(calls) + (if old(held).Some? && !stillValid then [false] else [])
                       + (if grant.Some? && !(old(held).Some? && stillValid) then [true] else [])
    {
      released := None;
      var lock := held;
      if lock.Some? {
        if stillValid {
          return;
        }
        held := None;
        Set(false);
        released := lock;
      }
      if grant.None? {
        Set(false);
        return;
      }
      held := grant;
      Set(true);
    }

    method Resign() returns (released: Option<Token>)
      requires Valid()
      modifies this
      ensures Valid() && !isLeader && released == old(held)
      ensures calls == if old(isLeader) then old(calls) + [false] else old(calls)
    {
      released := held;
      held := None;
      Set(false);
    }
  }
}
