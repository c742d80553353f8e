/** Cross-instance exclusion on a session-scoped advisory lock: one call as the service makes it,
    and any number of calls by any number of instances, step by step. */
module AdvisoryLock {
  import opened Prelude

  type Session = nat
  type Instance = nat

  /** The lock counter of a session; a session that never asked holds nothing. */
  function Count(held: map<Session, nat>, s: Session): nat {
    if s in held then held[s] else 0
  }

  /** `pg_try_advisory_lock`: granted unless another session holds the lock; re-entrant for its own session. */
  predicate FreeFor(held: map<Session, nat>, s: Session) {
    forall t :: t in held && t != s ==> held[t] == 0
  }

  // ---------------------------------------------------------------- one call

  datatype WorkResult<T> = Returned(value: T) | Threw(error: string)

  datatype Outcome<T> = Ran(value: T) | NotAcquired | Thrown(error: string)

  /** How the query that releases the lock ends: done, lost with the session alive, or the session gone. */
  datatype UnlockAnswer = Unlocked | QueryLost | SessionGone

  /** What one call leaves of the lock counters. */
  ghost predicate CallLeaves(before: map<Session, nat>, after: map<Session, nat>,
                             connects: Option<Session>, asked: bool, unlock: UnlockAnswer)
  {
    if connects.None? || !asked || !FreeFor(before, connects.value) then after == before
    else
      && (forall t :: t != connects.value ==> Count(after, t) == Count(before, t))
      && Count(after, connects.value) == match unlock
                                         case Unlocked => Count(before, connects.value)
                                         case QueryLost => Count(before, connects.value) + 1
                                         case SessionGone => 0
  }

  class AdvisoryLockService {
    var held: map<Session, nat>
    var checkedOut: set<Session>

    constructor ()
      ensures held == map[] && checkedOut == {}
    {
      held := map[];
      checkedOut := {};
    }

    /** Runs `work` under the lock. On every path the connection goes back to the pool, what `work` did is what the
        caller sees, and, if the unlock query succeeds, no session holds more than it did before. */
    method RunExclusively<T>(connects: Option<Session>, asked: bool, work: WorkResult<T>, unlock: UnlockAnswer)
      returns (outcome: Outcome<T>)
      requires connects.Some? ==> connects.value !in checkedOut
      modifies this
      ensures checkedOut == old(checkedOut)
      ensures CallLeaves(old(held), held, connects, asked, unlock)
      ensures connects.None? || !asked ==> outcome.Thrown?
      ensures connects.Some? && asked && !FreeFor(old(held), connects.value) ==> outcome == NotAcquired
      ensures connects.Some? && asked && FreeFor(old(held), connects.value) ==>
                outcome == match work case Returned(v) => Ran(v) case Threw(e) => Thrown(e)
    {
      if connects.None? { return Thrown("connect failed"); }
      var s := connects.value;
      checkedOut := checkedOut + {s};
      if !asked {
        outcome := Thrown("lock query failed");
      } else if !FreeFor(held, s) {
        outcome := NotAcquired;
      } else {
        held := held[s := Count(held, s) + 1];
        match work {
          case Returned(v) => outcome := Ran(v);
          case Threw(e) => outcome := Thrown(e);
        }
        match unlock {
          case Unlocked => held := held[s := Count(held, s) - 1];
          case QueryLost =>
          case SessionGone => held := held[s := 0];
        }
      }
      checkedOut := checkedOut - {s};
    }
  }

  // ---------------------------------------------------------------- many calls

  /** Where a `runSweep` that got past the `running` check stands. */
  datatype Pc =
    | Connecting
    | Asking(session: Session)
    | Working(session: Session)
    | Unlocking(session: Session)
    | Releasing(session: Session)
    | Leaving

  datatype Call = Call(instance: Instance, pc: Pc)

  datatype System = System(calls: map<nat, Call>, running: set<Instance>, held: map<Session, nat>)

  const INITIAL := System(map[], {}, map[])

  datatype Move =
    | Enter(call: nat, instance: Instance)   // `running` was clear; it is set in the same turn
    | Connect(call: nat, session: Session)
    | ConnectFails(call: nat)
    | TryLock(call: nat)
    | QueryFails(call: nat)
    | WorkEnds(call: nat)                    // returned or threw
    | Unlock(call: nat)
    | UnlockFails(call: nat)
    | Release(call: nat)
    | Leave(call: nat)
    | SessionDies(session: Session)

  predicate HasSession(pc: Pc) {
    pc.Asking? || pc.Working? || pc.Unlocking? || pc.Releasing?
  }

  ghost predicate InUse(sys: System, s: Session) {
    exists c :: c in sys.calls && HasSession(sys.calls[c].pc) && sys.calls[c].pc.session == s
  }

  predicate At(sys: System, c: nat, pc: Pc -> bool) {
    c in sys.calls && pc(sys.calls[c].pc)
  }

  ghost predicate Enabled(sys: System, move: Move) {
    match move
    case Enter(c, i) => c !in sys.calls && i !in sys.running
    case Connect(c, s) => At(sys, c, (pc: Pc) => pc.Connecting?) && !InUse(sys, s)
    case ConnectFails(c) => At(sys, c, (pc: Pc) => pc.Connecting?)
    case TryLock(c) => At(sys, c, (pc: Pc) => pc.Asking?)
    case QueryFails(c) => At(sys, c, (pc: Pc) => pc.Asking?)
    case WorkEnds(c) => At(sys, c, (pc: Pc) => pc.Working?)
    case Unlock(c) => At(sys, c, (pc: Pc) => pc.Unlocking?)
    case UnlockFails(c) => At(sys, c, (pc: Pc) => pc.Unlocking?)
    case Release(c) => At(sys, c, (pc: Pc) => pc.Releasing?)
    case Leave(c) => At(sys, c, (pc: Pc) => pc.Leaving?)
    case SessionDies(_) => true
  }

  function MoveTo(sys: System, c: nat, pc: Pc): System
    requires c in sys.calls
  {
    sys.(calls := sys.calls[c := sys.calls[c].(pc := pc)])
  }

  function Next(sys: System, move: Move): System
    requires Enabled(sys, move)
  {
    match move
    case Enter(c, i) => sys.(calls := sys.calls[c := Call(i, Connecting)], running := sys.running + {i})
    case Connect(c, s) => MoveTo(sys, c, Asking(s))
    case ConnectFails(c) => MoveTo(sys, c, Leaving)
    case TryLock(c) =>
      var s := sys.calls[c].pc.session;
      if FreeFor(sys.held, s)
      then MoveTo(sys, c, Working(s)).(held := sys.held[s := Count(sys.held, s) + 1])
      else MoveTo(sys, c, Releasing(s))
    case QueryFails(c) => MoveTo(sys, c, Releasing(sys.calls[c].pc.session))
    case WorkEnds(c) => MoveTo(sys, c, Unlocking(sys.calls[c].pc.session))
    case Unlock(c) =>
      var s := sys.calls[c].pc.session;
      MoveTo(sys, c, Releasing(s)).(held := sys.held[s := Max(0, Count(sys.held, s) - 1)])
    case UnlockFails(c) => MoveTo(sys, c, Releasing(sys.calls[c].pc.session))
    case Release(c) => MoveTo(sys, c, Leaving)
    case Leave(c) => sys.(calls := sys.calls - {c}, running := sys.running - {sys.calls[c].instance})
    case SessionDies(s) => sys.(held := sys.held[s := 0])
  }

  /** The proviso of the claim: no session dies while a sweep is at work on it. */
  ghost predicate Spares(sys: System, move: Move) {
    move.SessionDies? ==>
      forall c :: c in sys.calls && sys.calls[c].pc.Working? ==> sys.calls[c].pc.session != move.session
  }

  /** `running` is set for exactly the instances that have a call, and none has two. */
  ghost predicate OneCallPerInstance(sys: System) {
    && (forall c :: c in sys.calls ==> sys.calls[c].instance in sys.running)
    && (forall i :: i in sys.running ==> HasCall(sys, i))
    && (forall c, d :: c in sys.calls && d in sys.calls && c != d ==> sys.calls[c].instance != sys.calls[d].instance)
  }

  ghost predicate HasCall(sys: System, i: Instance) {
    exists c :: c in sys.calls && sys.calls[c].instance == i
  }

  ghost predicate OneCallPerSession(sys: System) {
    forall c, d :: c in sys.calls && d in sys.calls && c != d && HasSession(sys.calls[c].pc) && HasSession(sys.calls[d].pc)
      ==> sys.calls[c].pc.session != sys.calls[d].pc.session
  }

  ghost predicate OneHolder(held: map<Session, nat>) {
    forall s, t :: s in held && t in held && held[s] > 0 && held[t] > 0 ==> s == t
  }

  ghost predicate WorkersHold(sys: System) {
    forall c :: c in sys.calls && sys.calls[c].pc.Working? ==> Count(sys.held, sys.calls[c].pc.session) > 0
  }

  ghost predicate Inv(sys: System) {
    OneCallPerInstance(sys) && OneCallPerSession(sys) && OneHolder(sys.held) && WorkersHold(sys)
  }

  /** The lock is held only by a call that is at work or about to unlock. */
  ghost predicate NothingLeaks(sys: System) {
    forall s :: s in sys.held && sys.held[s] > 0 ==> HeldByACall(sys, s)
  }

  ghost predicate HeldByACall(sys: System, s: Session) {
    exists c :: c in sys.calls && (sys.calls[c].pc == Working(s) || sys.calls[c].pc == Unlocking(s))
  }

  /** An instance that is still running keeps its call; one that has just entered has a new one. */
  lemma RunningHasCall(sys: System, move: Move, i: Instance)
    requires OneCallPerInstance(sys) && Enabled(sys, move)
    requires i in Next(sys, move).running
    ensures HasCall(Next(sys, move), i)
  {
    var next := Next(sys, move);
    if i in sys.running {
      assert HasCall(sys, i);
      var c :| c in sys.calls && sys.calls[c].instance == i;
      assert c in next.calls && next.calls[c].instance == i;
    } else {
      assert next.calls[move.call].instance == i;
    }
  }

  lemma InstancesStep(sys: System, move: Move)
    requires OneCallPerInstance(sys) && Enabled(sys, move)
    ensures OneCallPerInstance(Next(sys, move))
  {
    forall i | i in Next(sys, move).running ensures HasCall(Next(sys, move), i) {
      RunningHasCall(sys, move, i);
    }
  }

  lemma SessionsStep(sys: System, move: Move)
    requires OneCallPerSession(sys) && Enabled(sys, move)
    ensures OneCallPerSession(Next(sys, move))
  {
    var next := Next(sys, move);
    forall c, d | c in next.calls && d in next.calls && c != d && HasSession(next.calls[c].pc) && HasSession(next.calls[d].pc)
      ensures next.calls[c].pc.session != next.calls[d].pc.session
    {
      if move.Connect? {
        if c == move.call { assert !InUse(sys, next.calls[c].pc.session); }
        if d == move.call { assert !InUse(sys, next.calls[d].pc.session); }
      } else {
        assert HasSession(sys.calls[c].pc) && HasSession(sys.calls[d].pc);
      }
    }
  }

  lemma HolderStep(sys: System, move: Move)
    requires OneHolder(sys.held) && WorkersHold(sys) && OneCallPerSession(sys)
    requires Enabled(sys, move) && Spares(sys, move)
    ensures OneHolder(Next(sys, move).held) && WorkersHold(Next(sys, move))
  {
    var next := Next(sys, move);
    forall c | c in next.calls && next.calls[c].pc.Working? ensures Count(next.held, next.calls[c].pc.session) > 0 {
      if !(move.TryLock? && c == move.call) {
        assert sys.calls[c].pc.Working?;
        if move.Unlock? {
          assert sys.calls[c].pc.session != sys.calls[move.call].pc.session;
        }
      }
    }
  }

  lemma InvStep(sys: System, move: Move)
    requires Inv(sys) && Enabled(sys, move) && Spares(sys, move)
    ensures Inv(Next(sys, move))
  {
    InstancesStep(sys, move);
    SessionsStep(sys, move);
    HolderStep(sys, move);
  }

  ghost predicate HeldOnce(held: map<Session, nat>) {
    forall s :: s in held ==> held[s] <= 1
  }

  /** A lock granted to a call was not held before, not even by its own session. */
  lemma GrantedOnce(sys: System, c: nat)
    requires OneCallPerSession(sys) && NothingLeaks(sys) && At(sys, c, (pc: Pc) => pc.Asking?)
    ensures Count(sys.held, sys.calls[c].pc.session) == 0
  {
  }

  lemma GrantKeepsLock(sys: System, c: nat)
    requires OneCallPerSession(sys) && NothingLeaks(sys) && HeldOnce(sys.held) && At(sys, c, (pc: Pc) => pc.Asking?)
    ensures NothingLeaks(Next(sys, TryLock(c))) && HeldOnce(Next(sys, TryLock(c)).held)
  {
    var next, mine := Next(sys, TryLock(c)), sys.calls[c].pc.session;
    GrantedOnce(sys, c);
    forall s | s in next.held && next.held[s] > 0 ensures HeldByACall(next, s) {
      if s == mine {
        assert next.calls[c].pc == Working(s);
      } else {
        var d :| d in sys.calls && (sys.calls[d].pc == Working(s) || sys.calls[d].pc == Unlocking(s));
        assert next.calls[d].pc == sys.calls[d].pc;
      }
    }
  }

  lemma LeakStep(sys: System, move: Move)
    requires Inv(sys) && NothingLeaks(sys) && HeldOnce(sys.held) && Enabled(sys, move) && !move.UnlockFails?
    ensures NothingLeaks(Next(sys, move)) && HeldOnce(Next(sys, move).held)
  {
    var next := Next(sys, move);
    if move.TryLock? {
      GrantKeepsLock(sys, move.call);
    } else {
      forall s | s in next.held && next.held[s] > 0 ensures HeldByACall(next, s) {
        var c :| c in sys.calls && (sys.calls[c].pc == Working(s) || sys.calls[c].pc == Unlocking(s));
        assert c in next.calls && (next.calls[c].pc == Working(s) || next.calls[c].pc == Unlocking(s));
      }
    }
  }

  // ---------------------------------------------------------------- one call as moves

  /** The moves of one call that nothing interrupts. */
  function MovesOf(c: nat, connects: Option<Session>, asked: bool, granted: bool, unlock: UnlockAnswer): seq<Move> {
    if connects.None? then [ConnectFails(c)]
    else if !asked then [Connect(c, connects.value), QueryFails(c), Release(c)]
    else if !granted then [Connect(c, connects.value), TryLock(c), Release(c)]
    else [Connect(c, connects.value), TryLock(c), WorkEnds(c)] + UnlockMoves(c, connects.value, unlock)
  }

  function UnlockMoves(c: nat, s: Session, unlock: UnlockAnswer): seq<Move> {
    match unlock
    case Unlocked => [Unlock(c), Release(c)]
    case QueryLost => [UnlockFails(c), Release(c)]
    case SessionGone => [SessionDies(s), UnlockFails(c), Release(c)]
  }

  ghost predicate CanTake(sys: System, moves: seq<Move>)
    decreases |moves|
  {
    moves == [] || (Enabled(sys, moves[0]) && Spares(sys, moves[0]) && CanTake(Next(sys, moves[0]), moves[1..]))
  }

  ghost function Take(sys: System, moves: seq<Move>): System
    requires CanTake(sys, moves)
    decreases |moves|
  {
    if moves == [] then sys else Take(Next(sys, moves[0]), moves[1..])
  }

  lemma TakeFirst(sys: System, move: Move, rest: seq<Move>)
    requires Enabled(sys, move) && Spares(sys, move) && CanTake(Next(sys, move), rest)
    ensures CanTake(sys, [move] + rest) && Take(sys, [move] + rest) == Take(Next(sys, move), rest)
  {
    assert ([move] + rest)[1..] == rest;
  }

  lemma TakeOne(sys: System, move: Move)
    requires Enabled(sys, move) && Spares(sys, move)
    ensures CanTake(sys, [move]) && Take(sys, [move]) == Next(sys, move)
  {
    TakeFirst(sys, move, []);
    assert [move] + [] == [move];
  }

  /** From the end of the work to the connection's return. */
  lemma UnlockTaken(sys: System, c: nat, s: Session, unlock: UnlockAnswer)
    requires c in sys.calls && sys.calls[c].pc == Unlocking(s)
    requires forall d :: d in sys.calls && sys.calls[d].pc.Working? ==> sys.calls[d].pc.session != s
    ensures CanTake(sys, UnlockMoves(c, s, unlock))
    ensures var end := Take(sys, UnlockMoves(c, s, unlock));
            && end.calls == sys.calls[c := Call(sys.calls[c].instance, Leaving)] && end.running == sys.running
            && end.held == match unlock
                           case Unlocked => sys.held[s := Max(0, Count(sys.held, s) - 1)]
                           case QueryLost => sys.held
                           case SessionGone => sys.held[s := 0]
  {
    match unlock {
      case Unlocked =>
        TakeOne(Next(sys, Unlock(c)), Release(c));
        TakeFirst(sys, Unlock(c), [Release(c)]);
        assert UnlockMoves(c, s, unlock) == [Unlock(c)] + [Release(c)];
      case QueryLost =>
        TakeOne(Next(sys, UnlockFails(c)), Release(c));
        TakeFirst(sys, UnlockFails(c), [Release(c)]);
        assert UnlockMoves(c, s, unlock) == [UnlockFails(c)] + [Release(c)];
      case SessionGone =>
        var died := Next(sys, SessionDies(s));
        TakeOne(Next(died, UnlockFails(c)), Release(c));
        TakeFirst(died, UnlockFails(c), [Release(c)]);
        TakeFirst(sys, SessionDies(s), [UnlockFails(c)] + [Release(c)]);
        assert UnlockMoves(c, s, unlock) == [SessionDies(s)] + ([UnlockFails(c)] + [Release(c)]);
    }
  }

  /** A call on a connection nobody else uses, up to the moment it has its answer. */
  lemma AskedTaken(sys: System, c: nat, s: Session, answer: Move, rest: seq<Move>)
    requires c in sys.calls && sys.calls[c].pc.Connecting? && !InUse(sys, s)
    requires answer == TryLock(c) || answer == QueryFails(c)
    requires CanTake(Next(Next(sys, Connect(c, s)), answer), rest)
    ensures CanTake(sys, [Connect(c, s)] + ([answer] + rest))
    ensures Take(sys, [Connect(c, s)] + ([answer] + rest)) == Take(Next(Next(sys, Connect(c, s)), answer), rest)
  {
    TakeFirst(Next(sys, Connect(c, s)), answer, rest);
    TakeFirst(sys, Connect(c, s), [answer] + rest);
  }

  lemma RefusedTaken(sys: System, c: nat, s: Session, answer: Move)
    requires c in sys.calls && sys.calls[c].pc.Connecting? && !InUse(sys, s)
    requires answer == QueryFails(c) || (answer == TryLock(c) && !FreeFor(sys.held, s))
    ensures CanTake(sys, [Connect(c, s), answer, Release(c)])
    ensures var end := Take(sys, [Connect(c, s), answer, Release(c)]);
            && end.calls == sys.calls[c := Call(sys.calls[c].instance, Leaving)] && end.running == sys.running
            && end.held == sys.held
  {
    TakeOne(Next(Next(sys, Connect(c, s)), answer), Release(c));
    AskedTaken(sys, c, s, answer, [Release(c)]);
    assert [Connect(c, s), answer, Release(c)] == [Connect(c, s)] + ([answer] + [Release(c)]);
  }

  lemma GrantedTaken(sys: System, c: nat, s: Session, unlock: UnlockAnswer)
    requires c in sys.calls && sys.calls[c].pc.Connecting? && !InUse(sys, s) && FreeFor(sys.held, s)
    ensures CanTake(sys, MovesOf(c, Some(s), true, true, unlock))
    ensures var end := Take(sys, MovesOf(c, Some(s), true, true, unlock));
            && end.calls == sys.calls[c := Call(sys.calls[c].instance, Leaving)] && end.running == sys.running
            && CallLeaves(sys.held, end.held, Some(s), true, unlock)
  {
    var asked := Next(Next(sys, Connect(c, s)), TryLock(c));
    var worked := Next(asked, WorkEnds(c));
    forall d | d in worked.calls && worked.calls[d].pc.Working? ensures worked.calls[d].pc.session != s {
      assert sys.calls[d].pc == worked.calls[d].pc;
    }
    UnlockTaken(worked, c, s, unlock);
    TakeFirst(asked, WorkEnds(c), UnlockMoves(c, s, unlock));
    AskedTaken(sys, c, s, TryLock(c), [WorkEnds(c)] + UnlockMoves(c, s, unlock));
    assert MovesOf(c, Some(s), true, true, unlock)
        == [Connect(c, s)] + ([TryLock(c)] + ([WorkEnds(c)] + UnlockMoves(c, s, unlock)));
  }

  /** The call the service makes is moves of the protocol: taken one after another they bring it from the pool and back
      to it, and leave the lock as `RunExclusively` says. */
  lemma OneCallIsItsMoves(sys: System, c: nat, connects: Option<Session>, asked: bool, unlock: UnlockAnswer)
    requires c in sys.calls && sys.calls[c].pc.Connecting?
    requires connects.Some? ==> !InUse(sys, connects.value)
    ensures var moves := MovesOf(c, connects, asked, connects.Some? && FreeFor(sys.held, connects.value), unlock);
            && CanTake(sys, moves)
            && Take(sys, moves).calls == sys.calls[c := Call(sys.calls[c].instance, Leaving)]
            && Take(sys, moves).running == sys.running
            && CallLeaves(sys.held, Take(sys, moves).held, connects, asked, unlock)
  {
    if connects.None? {
      TakeOne(sys, ConnectFails(c));
    } else if !asked {
      RefusedTaken(sys, c, connects.value, QueryFails(c));
    } else if !FreeFor(sys.held, connects.value) {
      RefusedTaken(sys, c, connects.value, TryLock(c));
    } else {
      GrantedTaken(sys, c, connects.value, unlock);
    }
  }

  // ---------------------------------------------------------------- every run

  /** A run in which no session dies under a working sweep. */
  ghost predicate Runs(moves: seq<Move>) {
    moves == [] ||
    var n := |moves| - 1;
    Runs(moves[..n]) && Enabled(Reached(moves[..n]), moves[n]) && Spares(Reached(moves[..n]), moves[n])
  }

  ghost function Reached(moves: seq<Move>): System {
    if moves == [] then INITIAL
    else
      var before := Reached(moves[..|moves| - 1]);
      if Enabled(before, moves[|moves| - 1]) then Next(before, moves[|moves| - 1]) else before
  }

  lemma {:induction false} InvAlways(moves: seq<Move>)
    requires Runs(moves)
    ensures Inv(Reached(moves))
  {
    if moves != [] {
      var n := |moves| - 1;
      InvAlways(moves[..n]);
      InvStep(Reached(moves[..n]), moves[n]);
    }
  }

  /** At most one call, of one instance, is at work; and `running` is set for exactly the instances that have a call,
      so every way out of a call, refused, finished or thrown, leaves it clear. */
  lemma AtMostOneSweep(moves: seq<Move>)
    requires Runs(moves)
    ensures var sys := Reached(moves);
            && (forall c, d :: c in sys.calls && d in sys.calls && sys.calls[c].pc.Working? && sys.calls[d].pc.Working?
                  ==> c == d)
            && (forall i :: i in sys.running <==> HasCall(sys, i))
  {
    InvAlways(moves);
  }

  /** As long as every unlock query succeeded, a connection on its way back to the pool holds nothing,
      and with no call at work or unlocking the lock is free for anyone. */
  lemma {:induction false} NothingIsLeftLocked(moves: seq<Move>)
    requires Runs(moves) && forall m :: m in moves ==> !m.UnlockFails?
    ensures NothingLeaks(Reached(moves)) && HeldOnce(Reached(moves).held)
    ensures var sys := Reached(moves);
            && (forall c :: c in sys.calls && sys.calls[c].pc.Releasing? ==> Count(sys.held, sys.calls[c].pc.session) == 0)
            && ((forall c :: c in sys.calls ==> !sys.calls[c].pc.Working? && !sys.calls[c].pc.Unlocking?)
                  ==> forall s :: FreeFor(sys.held, s))
  {
    if moves != [] {
      var n := |moves| - 1;
      assert moves[n] in moves;
      NothingIsLeftLocked(moves[..n]);
      InvAlways(moves[..n]);
      LeakStep(Reached(moves[..n]), moves[n]);
    }
    InvAlways(moves);
    ReleasedIsUnlocked(Reached(moves));
  }

  lemma ReleasedIsUnlocked(sys: System)
    requires Inv(sys) && NothingLeaks(sys)
    ensures forall c :: c in sys.calls && sys.calls[c].pc.Releasing? ==> Count(sys.held, sys.calls[c].pc.session) == 0
    ensures (forall c :: c in sys.calls ==> !sys.calls[c].pc.Working? && !sys.calls[c].pc.Unlocking?)
              ==> forall s :: FreeFor(sys.held, s)
  {
  }

  /** Why the session must outlive the work: whenever it dies under a working sweep, any other instance that is about
      to ask is granted the lock, and two sweeps are at work. */
  lemma DeadSessionAdmitsASecond(sys: System, c: nat, d: nat)
    requires Inv(sys)
    requires c in sys.calls && sys.calls[c].pc.Working?
    requires d in sys.calls && sys.calls[d].pc.Asking?
    ensures var died := Next(sys, SessionDies(sys.calls[c].pc.session));
            && Enabled(died, TryLock(d))
            && var after := Next(died, TryLock(d));
            c != d && after.calls[c].pc.Working? && after.calls[d].pc.Working?
  {
  }
}
