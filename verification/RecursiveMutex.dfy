/** The recursive mutex of `thread.h`, in small steps of any number of threads. The inner mutex is
    a plain lock. `owner_` is read and written with relaxed order: its writes have one order, and a
    read may return any write that is not older than one the reading thread has seen. Taking the
    inner mutex makes everything seen that was written before it was released. */
module RecursiveMutex {

  import opened Wrappers

  type Tid = nat

  // Where a thread is inside lock(), unlock() or owns_lock(); each name is the next action.
  datatype Pc =
    | Idle
    | LockReadOwner
    | LockReadDepth | LockWriteDepth
    | LockAcquire | LockCheckDepth | LockWriteOwner | LockSetDepth
    | UnlockReadOwner | UnlockReadDepth | UnlockWriteDepth | UnlockTestDepth
    | UnlockClearOwner | UnlockRelease
    | OwnsReadOwner

  // nest counts the calls of lock() that have returned less the calls of unlock() that have;
  // seen is the latest write of the owner the thread knows; temp is a value of the depth.
  datatype Local = Local(pc: Pc, nest: nat, seen: nat, temp: int)

  datatype State = State(writes: seq<Tid>, released: nat, holder: Option<Tid>, depth: int, local: Tid -> Local)

  function Init(): State {
    State([0], 0, None, 0, (t: Tid) => Local(Idle, 0, 0, 0))
  }

  function With(s: State, t: Tid, l: Local): State {
    s.(local := (u: Tid) => if u == t then l else s.local(u))
  }

  function Goto(s: State, t: Tid, pc: Pc): State {
    With(s, t, s.local(t).(pc := pc))
  }

  datatype Action = CallLock | CallUnlock | CallOwnsLock | Next(read: nat)

  predicate ReadsOwner(pc: Pc) { pc.LockReadOwner? || pc.UnlockReadOwner? || pc.OwnsReadOwner? }

  // A call starts when the thread is idle, and unlock() only if the thread owns the lock. The inner
  // mutex is taken only when it is free. A read of the owner returns a write not older than any seen.
  predicate Enabled(s: State, t: Tid, a: Action) {
    t != 0 &&
    var l := s.local(t);
    match a
    case CallLock => l.pc.Idle?
    case CallUnlock => l.pc.Idle? && l.nest > 0
    case CallOwnsLock => l.pc.Idle?
    case Next(read) =>
      && !l.pc.Idle?
      && (l.pc.LockAcquire? ==> s.holder.None?)
      && (ReadsOwner(l.pc) ==> l.seen <= read < |s.writes|)
  }

  function WriteOwner(s: State, t: Tid, v: Tid, pc: Pc): State {
    With(s, t, s.local(t).(pc := pc, seen := |s.writes|)).(writes := s.writes + [v])
  }

  function Read(s: State, t: Tid, read: nat, pc: Pc): State {
    With(s, t, s.local(t).(pc := pc, seen := read))
  }

  function Step(s: State, t: Tid, a: Action): State
    requires Enabled(s, t, a)
  {
    var l := s.local(t);
    match a
    case CallLock => Goto(s, t, LockReadOwner)
    case CallUnlock => Goto(s, t, UnlockReadOwner)
    case CallOwnsLock => Goto(s, t, OwnsReadOwner)
    case Next(read) =>
      match l.pc
      case LockReadOwner => Read(s, t, read, if s.writes[read] == t then LockReadDepth else LockAcquire)
      case LockReadDepth => With(s, t, l.(pc := LockWriteDepth, temp := s.depth))
      case LockWriteDepth => With(s, t, l.(pc := Idle, nest := l.nest + 1)).(depth := l.temp + 1)
      case LockAcquire =>
        With(s, t, l.(pc := LockCheckDepth, seen := if l.seen < s.released then s.released else l.seen)).(holder := Some(t))
      case LockCheckDepth => Goto(s, t, LockWriteOwner)
      case LockWriteOwner => WriteOwner(s, t, t, LockSetDepth)
      case LockSetDepth => With(s, t, l.(pc := Idle, nest := l.nest + 1)).(depth := 1)
      case UnlockReadOwner => Read(s, t, read, UnlockReadDepth)
      case UnlockReadDepth => With(s, t, l.(pc := UnlockWriteDepth, temp := s.depth))
      case UnlockWriteDepth => Goto(s, t, UnlockTestDepth).(depth := l.temp - 1)
      case UnlockTestDepth =>
        if s.depth > 0 then With(s, t, l.(pc := Idle, nest := if l.nest > 0 then l.nest - 1 else 0))
        else Goto(s, t, UnlockClearOwner)
      case UnlockClearOwner => WriteOwner(s, t, 0, UnlockRelease)
      case UnlockRelease =>
        With(s, t, l.(pc := Idle, nest := if l.nest > 0 then l.nest - 1 else 0)).(holder := None, released := l.seen)
      case OwnsReadOwner => Read(s, t, read, Idle)
      case Idle => s
  }

  // ---- The invariant ----

  predicate TouchesDepth(pc: Pc) {
    || pc.LockReadDepth? || pc.LockWriteDepth? || pc.LockCheckDepth? || pc.LockSetDepth?
    || pc.UnlockReadDepth? || pc.UnlockWriteDepth? || pc.UnlockTestDepth?
  }

  // The thread has been granted the inner mutex but has not written the owner, or has cleared it.
  predicate Unnamed(pc: Pc) { pc.LockCheckDepth? || pc.LockWriteOwner? || pc.UnlockRelease? }

  // What the depth is while the thread holds the inner mutex.
  predicate DepthFits(depth: int, l: Local) {
    match l.pc
    case Idle => depth == l.nest > 0
    case LockReadOwner => depth == l.nest > 0
    case LockReadDepth => depth == l.nest > 0
    case LockWriteDepth => depth == l.nest == l.temp > 0
    case LockAcquire => false
    case LockCheckDepth => depth == l.nest == 0
    case LockWriteOwner => depth == l.nest == 0
    case LockSetDepth => depth == l.nest == 0
    case UnlockReadOwner => depth == l.nest > 0
    case UnlockReadDepth => depth == l.nest > 0
    case UnlockWriteDepth => depth == l.nest == l.temp > 0
    case UnlockTestDepth => depth == l.nest - 1 >= 0
    case UnlockClearOwner => depth == 0 && l.nest == 1
    case UnlockRelease => depth == 0 && l.nest == 1
    case OwnsReadOwner => depth == l.nest > 0
  }

  predicate CannotRead(s: State, t: Tid) {
    forall i :: s.local(t).seen <= i < |s.writes| ==> s.writes[i] != t
  }

  // A thread that does not hold the inner mutex is outside, and can read any owner but itself.
  predicate Outside(s: State, t: Tid) {
    var l := s.local(t);
    && l.nest == 0
    && (l.pc.Idle? || l.pc.LockReadOwner? || l.pc.LockAcquire? || l.pc.OwnsReadOwner?)
    && CannotRead(s, t)
  }

  predicate Inside(s: State, t: Tid) {
    var l := s.local(t);
    && DepthFits(s.depth, l)
    && l.seen == |s.writes| - 1
    && s.writes[|s.writes| - 1] == if Unnamed(l.pc) then 0 else t
  }

  // The inner mutex is free: the last write of the owner is 0 and was made before its release.
  predicate Free(s: State) {
    s.holder.None? && s.depth == 0 && s.released == |s.writes| - 1 && s.writes[|s.writes| - 1] == 0
  }

  predicate Held(s: State, h: Tid) {
    s.holder == Some(h) && h != 0 && Inside(s, h)
  }

  // The owner is cleared by every other write.
  predicate Alternates(writes: seq<Tid>) {
    forall i :: 0 <= i < |writes| ==> (writes[i] == 0 <==> i % 2 == 0)
  }

  ghost predicate Inv(s: State) {
    && s.writes != [] && Alternates(s.writes)
    && (forall t: Tid :: s.local(t).seen < |s.writes|)
    && (s.holder.None? ==> Free(s))
    && (s.holder.Some? ==> Held(s, s.holder.value))
    && (forall t: Tid :: t != 0 && s.holder != Some(t) ==> Outside(s, t))
  }

  lemma {:induction false} InitInv()
    ensures Inv(Init())
  {
  }

  // A step of another thread leaves an outside thread outside.
  lemma {:induction false} StaysOutside(s: State, s': State, u: Tid)
    requires u != 0 && Outside(s, u) && s'.local(u) == s.local(u)
    requires s'.writes == s.writes || exists v :: v != u && s'.writes == s.writes + [v]
    ensures Outside(s', u)
  {
  }

  // A step of a thread that does not hold the inner mutex: it stays outside, or takes the mutex.
  lemma {:induction false} OutsiderStep(s: State, t: Tid, a: Action)
    requires Enabled(s, t, a) && s.writes != [] && s.local(t).seen < |s.writes|
    requires s.holder != Some(t) && Outside(s, t) && (s.holder.None? ==> Free(s))
    ensures var s' := Step(s, t, a);
      && s'.writes == s.writes && s'.depth == s.depth && s'.released == s.released && s'.local(t).seen < |s.writes|
      && ((s'.holder == s.holder && Outside(s', t)) || (s.holder.None? && Held(s', t) && s'.local(t).pc.LockCheckDepth?))
  {
  }

  // A step of the holder: it stays inside, or releases the inner mutex with nothing held.
  lemma {:induction false} HolderStep(s: State, t: Tid, a: Action)
    requires Enabled(s, t, a) && s.writes != [] && Held(s, t)
    ensures var s' := Step(s, t, a);
      && (s'.writes == s.writes || s'.writes == s.writes + [0] || s'.writes == s.writes + [t]) && s'.local(t).seen < |s'.writes|
      && (Held(s', t) || (s.local(t).pc.UnlockRelease? && s'.writes == s.writes && Free(s') && Outside(s', t)))
  {
  }

  lemma {:induction false} HolderAlternates(s: State, t: Tid, a: Action)
    requires Enabled(s, t, a) && s.writes != [] && Alternates(s.writes) && Held(s, t)
    ensures Alternates(Step(s, t, a).writes)
  {
  }

  lemma {:induction false} StepKeepsInv(s: State, t: Tid, a: Action)
    requires Inv(s) && Enabled(s, t, a)
    ensures Inv(Step(s, t, a))
  {
    var s' := Step(s, t, a);
    if s.holder == Some(t) {
      HolderStep(s, t, a);
      HolderAlternates(s, t, a);
    } else {
      assert Outside(s, t);
      OutsiderStep(s, t, a);
    }
    forall u: Tid | u != t
      ensures s'.local(u) == s.local(u)
      ensures s'.local(u).seen < |s'.writes|
      ensures u != 0 && s'.holder != Some(u) ==> Outside(s', u)
    {
      if u != 0 && s'.holder != Some(u) {
        assert Outside(s, u);
        StaysOutside(s, s', u);
      }
    }
    if s.holder.Some? && s.holder != Some(t) {
      assert s'.local(s.holder.value) == s.local(s.holder.value);
    }
  }

  // ---- What holds in every run ----

  datatype Move = Move(t: Tid, a: Action)

  ghost predicate IsRun(states: seq<State>, moves: seq<Move>) {
    && |states| == |moves| + 1 && states[0] == Init()
    && forall i :: 0 <= i < |moves| ==>
         Enabled(states[i], moves[i].t, moves[i].a) && states[i + 1] == Step(states[i], moves[i].t, moves[i].a)
  }

  lemma {:induction false} RunKeepsInv(states: seq<State>, moves: seq<Move>, k: nat)
    requires IsRun(states, moves) && k < |states|
    ensures Inv(states[k])
  {
    if k > 0 {
      RunKeepsInv(states, moves, k - 1);
      StepKeepsInv(states[k - 1], moves[k - 1].t, moves[k - 1].a);
    } else {
      InitInv();
    }
  }

  // Between two of its calls, the thread is inside the lock.
  predicate Owns(s: State, t: Tid) { s.local(t).nest > 0 }

  // Whichever write of the owner the thread reads, it is its own if and only if it owns the lock.
  predicate ReadsRightly(s: State, t: Tid) {
    forall i :: s.local(t).seen <= i < |s.writes| ==> (s.writes[i] == t <==> Owns(s, t))
  }

  ghost predicate MutualExclusion(s: State) {
    && (forall t: Tid, u: Tid :: t != 0 && u != 0 && Owns(s, t) && Owns(s, u) ==> t == u)
    && (forall t: Tid, u: Tid :: t != 0 && u != 0 && TouchesDepth(s.local(t).pc) && TouchesDepth(s.local(u).pc) ==> t == u)
  }

  // Only the holder of the inner mutex is inside, or touches the depth; while it is inside and
  // idle, the depth is the number of its calls; and every check of the source holds.
  ghost predicate ThreadSafe(s: State, t: Tid) {
    var l := s.local(t);
    && (Owns(s, t) || TouchesDepth(l.pc) ==> s.holder == Some(t))
    && (l.pc.Idle? && Owns(s, t) ==> s.depth == l.nest)
    && (l.pc.LockCheckDepth? ==> s.depth == 0)
    && (ReadsOwner(l.pc) ==> ReadsRightly(s, t))
    && (l.pc.UnlockReadOwner? ==> Owns(s, t))
    && (l.pc.LockWriteOwner? || l.pc.UnlockClearOwner? ==> l.seen == |s.writes| - 1)
  }

  // Every thread is outside and idle.
  ghost predicate Unused(s: State) {
    forall t: Tid :: t != 0 ==> s.local(t).pc.Idle? && !Owns(s, t)
  }

  // The checks of the destructor hold whichever write of the owner the destroying thread reads.
  ghost predicate DestructorChecks(s: State, t: Tid) {
    s.depth == 0 && forall i :: s.local(t).seen <= i < |s.writes| ==> s.writes[i] == 0
  }

  lemma {:induction false} InvThreadSafe(s: State, t: Tid)
    requires Inv(s) && t != 0
    ensures ThreadSafe(s, t)
  {
    if s.holder != Some(t) {
      assert Outside(s, t);
    }
  }

  // In every interleaving of any number of threads, at every point.
  lemma {:induction false} RunIsSafe(states: seq<State>, moves: seq<Move>, k: nat)
    requires IsRun(states, moves) && k < |states|
    ensures forall t: Tid :: t != 0 ==> ThreadSafe(states[k], t)
    ensures MutualExclusion(states[k])
  {
    var s := states[k];
    RunKeepsInv(states, moves, k);
    forall t: Tid | t != 0
      ensures ThreadSafe(s, t)
    {
      InvThreadSafe(s, t);
    }
    forall t: Tid, u: Tid | t != 0 && u != 0
      ensures Owns(s, t) && Owns(s, u) ==> t == u
      ensures TouchesDepth(s.local(t).pc) && TouchesDepth(s.local(u).pc) ==> t == u
    {
      assert ThreadSafe(s, t) && ThreadSafe(s, u);
    }
  }

  // An unused mutex is free, and its destructor's checks are sure to hold if and only if the
  // destroying thread has seen the release that came last.
  lemma {:induction false} DestroyedSafelyExactlyIfSeen(states: seq<State>, moves: seq<Move>, k: nat, t: Tid)
    requires IsRun(states, moves) && k < |states| && Unused(states[k])
    ensures Free(states[k])
    ensures DestructorChecks(states[k], t) <==> states[k].local(t).seen >= states[k].released
  {
    var s := states[k];
    RunKeepsInv(states, moves, k);
    assert s.holder.Some? ==> Held(s, s.holder.value);
    if s.local(t).seen < s.released {
      assert s.writes[s.released - 1] != 0;
    }
  }

  lemma {:induction false} RunMore(states: seq<State>, moves: seq<Move>, a: Action) returns (states': seq<State>, moves': seq<Move>)
    requires IsRun(states, moves) && Enabled(states[|moves|], 1, a)
    ensures IsRun(states', moves') && |moves'| == |moves| + 1 && states'[|moves'|] == Step(states[|moves|], 1, a)
  {
    states', moves' := states + [Step(states[|moves|], 1, a)], moves + [Move(1, a)];
  }

  // Only thread 1 has made any step.
  ghost predicate OnlyFirst(s: State, pc: Pc, nest: nat, seen: nat, depth: int, writes: seq<Tid>) {
    && s.local(1).pc == pc && s.local(1).nest == nest && s.local(1).seen == seen && s.depth == depth && s.writes == writes
    && forall t: Tid :: t != 1 ==> s.local(t) == Local(Idle, 0, 0, 0)
  }

  lemma {:induction false} FirstLocks() returns (states: seq<State>, moves: seq<Move>)
    ensures IsRun(states, moves) && OnlyFirst(states[|moves|], Idle, 1, 1, 1, [0, 1])
  {
    states, moves := [Init()], [];
    states, moves := RunMore(states, moves, CallLock);
    states, moves := RunMore(states, moves, Next(0));
    states, moves := RunMore(states, moves, Next(0));
    states, moves := RunMore(states, moves, Next(0));
    states, moves := RunMore(states, moves, Next(0));
    states, moves := RunMore(states, moves, Next(0));
  }

  lemma {:induction false} FirstLeaves() returns (states: seq<State>, moves: seq<Move>)
    ensures IsRun(states, moves) && OnlyFirst(states[|moves|], UnlockClearOwner, 1, 1, 0, [0, 1])
  {
    states, moves := FirstLocks();
    states, moves := RunMore(states, moves, CallUnlock);
    states, moves := RunMore(states, moves, Next(1));
    states, moves := RunMore(states, moves, Next(0));
    states, moves := RunMore(states, moves, Next(0));
    states, moves := RunMore(states, moves, Next(0));
  }

  lemma {:induction false} FirstUnlocks() returns (states: seq<State>, moves: seq<Move>)
    ensures IsRun(states, moves) && OnlyFirst(states[|moves|], Idle, 0, 2, 0, [0, 1, 0])
  {
    states, moves := FirstLeaves();
    states, moves := RunMore(states, moves, Next(0));
    states, moves := RunMore(states, moves, Next(0));
  }

  // After one thread has used the mutex, another that has not seen it be released may read the
  // id of the first.
  lemma {:induction false} UnseenReleaseMisleads() returns (states: seq<State>, moves: seq<Move>)
    ensures IsRun(states, moves)
    ensures var s := states[|moves|]; Unused(s) && !DestructorChecks(s, 2)
  {
    states, moves := FirstUnlocks();
    assert states[|moves|].writes[1] == 1;
  }

  // The inner mutex is released exactly by the step with which an unlock() returns that leaves no
  // call of lock() to match.
  lemma {:induction false} ReleasedExactlyAtZero(states: seq<State>, moves: seq<Move>, k: nat)
    requires IsRun(states, moves) && k < |moves|
    ensures var s, s', t := states[k], states[k + 1], moves[k].t;
      s.holder.Some? && s'.holder.None? <==> Owns(s, t) && !Owns(s', t)
  {
    var s, t := states[k], moves[k].t;
    RunKeepsInv(states, moves, k);
    if s.holder != Some(t) {
      assert Outside(s, t);
    }
  }

  // A thread that owns the lock never waits for it.
  lemma {:induction false} ReentryNeverWaits(states: seq<State>, moves: seq<Move>, k: nat)
    requires IsRun(states, moves) && k < |states|
    ensures forall t: Tid :: t != 0 && states[k].local(t).pc.LockAcquire? ==> !Owns(states[k], t)
  {
    RunKeepsInv(states, moves, k);
    forall t: Tid | t != 0 && states[k].local(t).pc.LockAcquire?
      ensures !Owns(states[k], t)
    {
      InvThreadSafe(states[k], t);
      if states[k].holder != Some(t) {
        assert Outside(states[k], t);
      }
    }
  }
}
