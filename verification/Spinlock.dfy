/** kern/spinlock.c with DEBUG_SPINLOCK: any number of processors calling spin_lock and spin_unlock,
    interleaved at single memory accesses. */
module Spinlock {
  import opened Wrappers

  /** Where a processor is.  Out and In are outside both functions, before and after its winning
      xchg; the rest is the access it makes next, where held says whether it held the lock when it
      called. */
  datatype Place =
    | Out
    | In
    | LockReadLocked(held: bool)
    | LockReadOwner(held: bool)
    | LockXchg
    | LockSetOwner
    | UnlockReadLocked(held: bool)
    | UnlockReadOwner(held: bool)
    | UnlockClearOwner
    | UnlockXchg
    | LockPanic(held: bool)
    | UnlockPanic(held: bool)

  datatype State = State(locked: bool, owner: Option<nat>, at: seq<Place>)

  /** Between the winning xchg and the releasing xchg. */
  predicate Holds(a: Place) {
    match a
    case In => true
    case LockReadLocked(held) => held
    case LockReadOwner(held) => held
    case UnlockReadLocked(held) => held
    case UnlockReadOwner(held) => held
    case LockPanic(held) => held
    case UnlockPanic(held) => held
    case LockSetOwner => true
    case UnlockClearOwner => true
    case UnlockXchg => true
    case _ => false
  }

  /** Holding, and recorded as the owner. */
  predicate Recorded(a: Place) { Holds(a) && a != LockSetOwner && a != UnlockXchg }

  datatype Call = Lock | Unlock

  /** The next access of processor c; a processor outside both functions makes the given call. */
  function Step(s: State, c: nat, call: Call): State
    requires c < |s.at|
  {
    match s.at[c]
    case Out => Go(s, c, if call == Lock then LockReadLocked(false) else UnlockReadLocked(false))
    case In => Go(s, c, if call == Lock then LockReadLocked(true) else UnlockReadLocked(true))
    case LockReadLocked(held) => Go(s, c, if s.locked then LockReadOwner(held) else LockXchg)
    case LockReadOwner(held) => Go(s, c, if s.owner == Some(c) then LockPanic(held) else LockXchg)
    case LockXchg => Go(s.(locked := true), c, if s.locked then LockXchg else LockSetOwner)
    case LockSetOwner => Go(s.(owner := Some(c)), c, In)
    case UnlockReadLocked(held) => Go(s, c, if s.locked then UnlockReadOwner(held) else UnlockPanic(held))
    case UnlockReadOwner(held) => Go(s, c, if s.owner == Some(c) then UnlockClearOwner else UnlockPanic(held))
    case UnlockClearOwner => Go(s.(owner := None), c, UnlockXchg)
    case UnlockXchg => Go(s.(locked := false), c, Out)
    case _ => s
  }

  function Go(s: State, c: nat, a: Place): State
    requires c < |s.at|
  {
    s.(at := s.at[c := a])
  }

  /** At most one processor holds the lock, the lock is taken exactly if one does, the owner is null
      or the holder, and a panic happens only to a processor that locks twice or unlocks what it
      does not hold. */
  ghost predicate Inv(s: State) {
    && (forall c, d :: 0 <= c < d < |s.at| && Holds(s.at[c]) ==> !Holds(s.at[d]))
    && (s.locked <==> exists c :: 0 <= c < |s.at| && Holds(s.at[c]))
    && (forall c :: 0 <= c < |s.at| ==> (Recorded(s.at[c]) <==> s.owner == Some(c)))
    && (s.owner.Some? ==> s.owner.value < |s.at|)
    && (forall c :: 0 <= c < |s.at| && s.at[c].LockPanic? ==> s.at[c].held)
    && (forall c :: 0 <= c < |s.at| && s.at[c].UnlockPanic? ==> !s.at[c].held)
  }

  /** A step that leaves the lock word, the owner and who holds what. */
  lemma QuietStep(s: State, c: nat, a: Place)
    requires Inv(s) && c < |s.at| && Holds(a) == Holds(s.at[c]) && Recorded(a) == Recorded(s.at[c])
    requires (a.LockPanic? ==> a.held) && (a.UnlockPanic? ==> !a.held)
    ensures Inv(Go(s, c, a))
  {
    var s' := Go(s, c, a);
    if s.locked {
      var d :| 0 <= d < |s.at| && Holds(s.at[d]);
      assert Holds(s'.at[d]);
    }
    forall d | 0 <= d < |s.at| && Holds(s'.at[d]) ensures Holds(s.at[d]) {}
  }

  lemma WinStep(s: State, c: nat)
    requires Inv(s) && c < |s.at| && s.at[c] == LockXchg && !s.locked
    ensures Inv(Go(s.(locked := true), c, LockSetOwner))
  {
    var s' := Go(s.(locked := true), c, LockSetOwner);
    assert Holds(s'.at[c]);
    forall d | 0 <= d < |s.at| ensures !Holds(s.at[d]) {}
  }

  lemma RecordStep(s: State, c: nat)
    requires Inv(s) && c < |s.at| && s.at[c] == LockSetOwner
    ensures Inv(Go(s.(owner := Some(c)), c, In))
  {
    var s' := Go(s.(owner := Some(c)), c, In);
    assert Holds(s.at[c]) && Holds(s'.at[c]);
  }

  lemma ClearStep(s: State, c: nat)
    requires Inv(s) && c < |s.at| && s.at[c] == UnlockClearOwner
    ensures Inv(Go(s.(owner := None), c, UnlockXchg))
  {
    var s' := Go(s.(owner := None), c, UnlockXchg);
    assert Holds(s.at[c]) && Holds(s'.at[c]);
  }

  lemma ReleaseStep(s: State, c: nat)
    requires Inv(s) && c < |s.at| && s.at[c] == UnlockXchg
    ensures Inv(Go(s.(locked := false), c, Out))
  {
    assert Holds(s.at[c]);
    forall d | 0 <= d < |s.at| && d != c ensures !Holds(s.at[d]) {}
  }

  lemma StepInv(s: State, c: nat, call: Call)
    requires Inv(s) && c < |s.at|
    ensures Inv(Step(s, c, call))
  {
    HolderSees(s, c);
    match s.at[c]
    case LockXchg => if s.locked { QuietStep(s, c, LockXchg); } else { WinStep(s, c); }
    case LockSetOwner => RecordStep(s, c);
    case UnlockClearOwner => ClearStep(s, c);
    case UnlockXchg => ReleaseStep(s, c);
    case LockPanic(_) =>
    case UnlockPanic(_) =>
    case _ => QuietStep(s, c, Step(s, c, call).at[c]);
  }

  /** What the two reads of holding() find: a holder outside the two functions sees the lock taken
      and itself as owner, and nobody else ever sees itself as owner. */
  lemma HolderSees(s: State, c: nat)
    requires Inv(s) && c < |s.at|
    ensures Holds(s.at[c]) ==> s.locked
    ensures s.owner == Some(c) <==> Recorded(s.at[c])
  {
  }

  /** An xchg on a free lock makes its caller the holder, and one on a taken lock changes nothing. */
  lemma XchgWins(s: State, c: nat, call: Call)
    requires Inv(s) && c < |s.at| && s.at[c] == LockXchg
    ensures !s.locked ==> Step(s, c, call).locked && Holds(Step(s, c, call).at[c])
    ensures s.locked ==> Step(s, c, call) == s
  {
    assert s.at[c := LockXchg] == s.at;
  }

  /** Any interleaving: in the n-th step processor who[n] makes its next access. */
  function After(s: State, who: seq<nat>, calls: seq<Call>): State
    requires |who| == |calls| && forall n :: 0 <= n < |who| ==> who[n] < |s.at|
    decreases |who|
  {
    if who == [] then s else After(Step(s, who[0], calls[0]), who[1..], calls[1..])
  }

  lemma {:induction false} RunInv(s: State, who: seq<nat>, calls: seq<Call>)
    requires Inv(s) && |who| == |calls| && forall n :: 0 <= n < |who| ==> who[n] < |s.at|
    ensures Inv(After(s, who, calls))
    decreases |who|
  {
    hide Inv, Step;
    if who != [] {
      SameCpus(s, who[0], calls[0]);
      StepInv(s, who[0], calls[0]);
      RunInv(Step(s, who[0], calls[0]), who[1..], calls[1..]);
    }
  }

  lemma SameCpus(s: State, c: nat, call: Call)
    requires c < |s.at|
    ensures |Step(s, c, call).at| == |s.at|
  {
  }

  function Start(cpus: nat): State { State(false, None, seq(cpus, c => Out)) }

  lemma StartInv(cpus: nat)
    ensures Inv(Start(cpus))
  {
  }

  /** Mutual exclusion, over every interleaving from the initial lock. */
  lemma MutualExclusion(cpus: nat, who: seq<nat>, calls: seq<Call>, c: nat, d: nat)
    requires |who| == |calls| && forall n :: 0 <= n < |who| ==> who[n] < cpus
    ensures var s := After(Start(cpus), who, calls);
            c < |s.at| && d < |s.at| && Holds(s.at[c]) && Holds(s.at[d]) ==> c == d
  {
    StartInv(cpus);
    RunInv(Start(cpus), who, calls);
  }

  /** A lock call by the holder and an unlock call by another do panic, whatever the others do: the
      two reads of holding() can give no other answer. */
  lemma MisuseCaught(s: State, c: nat, call: Call)
    requires Inv(s) && c < |s.at|
    ensures s.at[c] == LockReadLocked(true) ==> Step(s, c, call).at[c] == LockReadOwner(true)
    ensures s.at[c] == LockReadOwner(true) ==> Step(s, c, call).at[c] == LockPanic(true)
    ensures s.at[c] == UnlockReadLocked(false) ==>
              Step(s, c, call).at[c] == UnlockReadOwner(false) || Step(s, c, call).at[c] == UnlockPanic(false)
    ensures s.at[c] == UnlockReadOwner(false) ==> Step(s, c, call).at[c] == UnlockPanic(false)
  {
    HolderSees(s, c);
  }

  /** Every processor locks only what it does not hold and unlocks only what it does. */
  ghost predicate Bracketed(s: State, who: seq<nat>, calls: seq<Call>)
    requires |who| == |calls| && forall n :: 0 <= n < |who| ==> who[n] < |s.at|
    decreases |who|
  {
    who != [] ==>
      (s.at[who[0]] == Out ==> calls[0] == Lock) && (s.at[who[0]] == In ==> calls[0] == Unlock) &&
      (SameCpus(s, who[0], calls[0]); Bracketed(Step(s, who[0], calls[0]), who[1..], calls[1..]))
  }

  /** No call in progress is a misuse, and nothing has panicked. */
  ghost predicate Calm(s: State) {
    forall c :: 0 <= c < |s.at| ==> CalmAt(s.at[c])
  }

  predicate CalmAt(a: Place) {
    && !a.LockPanic? && !a.UnlockPanic?
    && a != LockReadLocked(true) && a != LockReadOwner(true)
    && a != UnlockReadLocked(false) && a != UnlockReadOwner(false)
  }

  /** Bracketed callers never panic. */
  lemma {:induction false} BracketedNeverPanics(s: State, who: seq<nat>, calls: seq<Call>)
    requires Inv(s) && Calm(s) && |who| == |calls| && forall n :: 0 <= n < |who| ==> who[n] < |s.at|
    requires Bracketed(s, who, calls)
    ensures Calm(After(s, who, calls))
    decreases |who|
  {
    hide Inv, Step;
    if who != [] {
      SameCpus(s, who[0], calls[0]);
      CalmStep(s, who[0], calls[0]);
      StepInv(s, who[0], calls[0]);
      BracketedNeverPanics(Step(s, who[0], calls[0]), who[1..], calls[1..]);
    }
  }

  lemma CalmStep(s: State, c: nat, call: Call)
    requires Inv(s) && Calm(s) && c < |s.at|
    requires (s.at[c] == Out ==> call == Lock) && (s.at[c] == In ==> call == Unlock)
    ensures Calm(Step(s, c, call))
  {
    HolderSees(s, c);
  }

  /** The first n accesses of processor c in a row, in one call. */
  function Alone(s: State, c: nat, call: Call, n: nat): (s': State)
    requires c < |s.at|
    ensures |s'.at| == |s.at|
    decreases n
  {
    if n == 0 then s else Step(Alone(s, c, call, n - 1), c, call)
  }

  /** A processor that finds the lock free and is not disturbed has it after four accesses, and after five
      more everything is as it was. */
  lemma LockAndUnlock(s: State, c: nat)
    requires Inv(s) && c < |s.at| && s.at[c] == Out && !s.locked
    ensures var s1 := Alone(s, c, Lock, 4);
            && s1 == State(true, Some(c), s.at[c := In]) && Inv(s1) && Alone(s1, c, Unlock, 5) == s
  {
    hide Inv;
    FreeHasNoOwner(s);
    var a1 := Alone(s, c, Lock, 1);
    assert a1 == Step(Alone(s, c, Lock, 0), c, Lock);
    var a2 := Alone(s, c, Lock, 2);
    var a3 := Alone(s, c, Lock, 3);
    var s1 := Alone(s, c, Lock, 4);
    assert s1.at == s.at[c := In];
    StepInv(s, c, Lock);
    StepInv(a1, c, Lock);
    StepInv(a2, c, Lock);
    StepInv(a3, c, Lock);
    var b1 := Alone(s1, c, Unlock, 1);
    assert b1 == Step(Alone(s1, c, Unlock, 0), c, Unlock);
    var b2 := Alone(s1, c, Unlock, 2);
    var b3 := Alone(s1, c, Unlock, 3);
    var b4 := Alone(s1, c, Unlock, 4);
    assert Alone(s1, c, Unlock, 5).at == s.at;
  }

  lemma FreeHasNoOwner(s: State)
    requires Inv(s) && !s.locked
    ensures s.owner == None
  {
  }
}
