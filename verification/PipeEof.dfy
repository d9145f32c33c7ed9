/** lib/pipe.c and lib/fd.c: end-of-file detection by comparing page reference counts, as a
    system of environments that take turns on one processor.  A step is one system call of dup
    or close, or one memory read of _pipeisclosed. */
module PipeEof {
  import opened Wrappers

  const WRAP: nat := 0x1_0000_0000

  /** pp_ref has sixteen bits. */
  const REFS: nat := 0x1_0000

  /** The two descriptor pages of one pipe. */
  datatype End = Reader | Writer

  /** What one environment has mapped at one descriptor number: the descriptor page and the
      pipe's data page. */
  datatype Slot = Slot(fd: Option<End>, data: bool)

  const EMPTY: Slot := Slot(None, false)

  /** Where an environment is in dup, close or _pipeisclosed. */
  datatype Pc =
    | Ready
    | CloseFd(slot: nat, next: Option<(nat, nat)>)      // unmap the descriptor page; then perhaps go on with a dup
    | CloseData(slot: nat, next: Option<(nat, nat)>)    // unmap the data page
    | DupData(src: nat, dst: nat)                      // map the data page
    | DupFd(src: nat, dst: nat)                        // map the descriptor page
    | Undo1(dst: nat)                                  // a map failed: unmap the descriptor page
    | Undo2(dst: nat)                                  // and the data page
    | Check(slot: nat, n: nat, fdRef: Option<nat>, dataRef: Option<nat>)
    | Checked(slot: nat, n: nat, closed: bool)

  /** slots are the mappings of every address space there has been, by environment and descriptor
      number, and dead are the environments that env_free has taken down.  dispatches counts how
      often an environment was switched to; env_runs is its low 32 bits. */
  datatype State = State(slots: map<(nat, nat), Slot>, pc: map<nat, Pc>, cur: nat, dispatches: map<nat, nat>, dead: set<nat>)

  datatype Action =
    | Switch(to: nat)
    | StartDup(src: nat, dst: nat)
    | StartClose(slot: nat)
    | StartCheck(slot: nat)
    | ReadFd
    | ReadData
    | Finish
    | Return
    | Syscall(ok: bool)
    | Kill(env: nat)
    | Exit(to: nat)

  function At(s: State, e: nat, f: nat): Slot {
    if (e, f) in s.slots then s.slots[(e, f)] else EMPTY
  }

  function Pc_(s: State, e: nat): Pc { if e in s.pc then s.pc[e] else Ready }

  function Dispatches(s: State, e: nat): nat { if e in s.dispatches then s.dispatches[e] else 0 }

  function EnvRuns(s: State, e: nat): nat { Dispatches(s, e) % WRAP }

  /** The mappings that pageref counts for the descriptor page of end and for the data page. */
  ghost function FdSlots(s: State, end: End): set<(nat, nat)> {
    set k | k in s.slots && s.slots[k].fd == Some(end)
  }

  ghost function DataSlots(s: State): set<(nat, nat)> {
    set k | k in s.slots && s.slots[k].data
  }

  /** What pageref reads. */
  ghost function FdRef(s: State, end: End): nat { |FdSlots(s, end)| % REFS }

  ghost function DataRef(s: State): nat { |DataSlots(s)| % REFS }

  function Put(s: State, f: nat, slot: Slot, pc: Pc): State {
    s.(slots := s.slots[(s.cur, f) := slot], pc := s.pc[s.cur := pc])
  }

  function Goto(s: State, pc: Pc): State { s.(pc := s.pc[s.cur := pc]) }

  function Dispatch(s: State, to: nat): State {
    s.(cur := to, dispatches := s.dispatches[to := Dispatches(s, to) + 1])
  }

  /** env_free, one kernel entry.  It does not visit the addresses of descriptor and data pages
      (EnvSpace.DescriptorsSkipped), so the references of these mappings are never given up. */
  function Free(s: State, x: nat): State {
    s.(dead := s.dead + {x}, pc := s.pc[x := Ready])
  }

  ghost predicate Enabled(s: State, a: Action) {
    var pc := Pc_(s, s.cur);
    match a
    case Switch(e) => e != s.cur && e !in s.dead
    case Kill(e) => e != s.cur && e !in s.dead && pc == Ready
    case Exit(e) => e != s.cur && e !in s.dead
    case StartDup(_, _) | StartClose(_) => pc == Ready
    case StartCheck(f) => pc == Ready && At(s, s.cur, f).fd.Some?
    case ReadFd => pc.Check? && pc.fdRef == None
    case ReadData => pc.Check? && pc.dataRef == None
    case Finish => pc.Check? && pc.fdRef.Some? && pc.dataRef.Some?
    case Return => pc.Checked?
    case Syscall(_) => !pc.Ready? && !pc.Check? && !pc.Checked?
  }

  ghost function Do(s: State, a: Action): State {
    var e := s.cur;
    var pc := Pc_(s, e);
    match a
    case Switch(to) => Dispatch(s, to)
    case Kill(x) => Free(s, x)
    case Exit(to) => Dispatch(Free(s, e), to)
    case StartDup(src, dst) =>
      if At(s, e, src).fd == None then s
      else Goto(s, if At(s, e, dst).fd.Some? then CloseFd(dst, Some((src, dst))) else DupData(src, dst))
    case StartClose(f) => if At(s, e, f).fd == None then s else Goto(s, CloseFd(f, None))
    case StartCheck(f) => Goto(s, Check(f, Dispatches(s, e), None, None))
    case ReadFd =>
      if pc.Check? && At(s, e, pc.slot).fd.Some?
      then Goto(s, pc.(fdRef := Some(FdRef(s, At(s, e, pc.slot).fd.value)))) else s
    case ReadData => if pc.Check? then Goto(s, pc.(dataRef := Some(DataRef(s)))) else s
    case Finish =>
      if pc.Check? && pc.fdRef.Some? && pc.dataRef.Some? then
        if pc.n % WRAP == EnvRuns(s, e) then Goto(s, Checked(pc.slot, pc.n, pc.fdRef == pc.dataRef))
        else Goto(s, Check(pc.slot, Dispatches(s, e), None, None))
      else s
    case Return => Goto(s, Ready)
    case Syscall(ok) =>
      match pc
      case CloseFd(f, next) => Put(s, f, At(s, e, f).(fd := None), CloseData(f, next))
      case CloseData(f, next) =>
        Put(s, f, At(s, e, f).(data := false), if next.Some? then DupData(next.value.0, next.value.1) else Ready)
      case DupData(src, dst) =>
        if !At(s, e, src).data then Goto(s, DupFd(src, dst))
        else if ok then Put(s, dst, At(s, e, dst).(data := true), DupFd(src, dst))
        else Goto(s, Undo1(dst))
      case DupFd(src, dst) =>
        if ok && At(s, e, src).fd.Some? then Put(s, dst, At(s, e, dst).(fd := At(s, e, src).fd), Ready)
        else Goto(s, Undo1(dst))
      case Undo1(dst) => Put(s, dst, At(s, e, dst).(fd := None), Undo2(dst))
      case Undo2(dst) => Put(s, dst, At(s, e, dst).(data := false), Ready)
      case _ => s
  }

  // ---------------------------------------------------------------- invariant

  /** Wherever a descriptor page is mapped, the data page is too. */
  ghost predicate FdHasData(s: State) {
    forall k :: k in s.slots && s.slots[k].fd.Some? ==> s.slots[k].data
  }

  /** What each step of dup and close may rely on. */
  ghost predicate PcOk(s: State, e: nat) {
    match Pc_(s, e)
    case CloseFd(f, next) => next.Some? ==> next.value.1 == f
    case CloseData(f, next) => At(s, e, f).fd == None && (next.Some? ==> next.value.1 == f)
    case DupData(_, dst) => At(s, e, dst).fd == None
    case DupFd(src, dst) => At(s, e, dst).fd == None && (At(s, e, src).data ==> At(s, e, dst).data)
    case Undo2(dst) => At(s, e, dst).fd == None
    case Check(f, n, a, b) =>
      && At(s, e, f).fd.Some? && n <= Dispatches(s, e)
      && (s.cur == e && Dispatches(s, e) == n ==>
            && (a.Some? ==> a.value == FdRef(s, At(s, e, f).fd.value))
            && (b.Some? ==> b.value == DataRef(s)))
    case Checked(f, n, _) => At(s, e, f).fd.Some? && n <= Dispatches(s, e)
    case _ => true
  }

  ghost predicate Inv(s: State) {
    FdHasData(s) && s.cur !in s.dead && forall e :: e in s.pc ==> PcOk(s, e)
  }

  /** Any number of environments, each with any of its descriptors wholly open or wholly closed. */
  ghost predicate Init(s: State) {
    && (forall k :: k in s.slots ==> (s.slots[k].fd.Some? <==> s.slots[k].data))
    && s.pc == map[] && s.dead == {}
  }

  lemma InitInv(s: State)
    requires Init(s)
    ensures Inv(s)
  {
  }

  lemma DispatchInv(s: State, to: nat)
    requires FdHasData(s) && (forall e :: e in s.pc ==> PcOk(s, e)) && to != s.cur && to !in s.dead
    ensures Inv(Dispatch(s, to))
  {
    hide FdSlots, DataSlots;
    var s' := Dispatch(s, to);
    forall e | e in s'.pc ensures PcOk(s', e) {
      assert PcOk(s, e);
    }
  }

  lemma FreeInv(s: State, x: nat)
    requires Inv(s)
    ensures FdHasData(Free(s, x)) && (forall e :: e in Free(s, x).pc ==> PcOk(Free(s, x), e))
    ensures x != s.cur ==> Inv(Free(s, x))
  {
    var s' := Free(s, x);
    assert forall end :: FdSlots(s', end) == FdSlots(s, end);
    assert DataSlots(s') == DataSlots(s);
    forall e | e in s'.pc ensures PcOk(s', e) {
      if e != x { assert PcOk(s, e); }
    }
  }

  /** A step of the current environment disturbs no other environment's progress. */
  lemma OthersOk(s: State, s': State)
    requires Inv(s) && s'.cur == s.cur && s'.dispatches == s.dispatches && s'.dead == s.dead && FdHasData(s')
    requires forall e :: e != s.cur ==> (e in s'.pc <==> e in s.pc) && Pc_(s', e) == Pc_(s, e)
    requires forall e, f :: e != s.cur ==> At(s', e, f) == At(s, e, f)
    requires PcOk(s', s.cur)
    ensures Inv(s')
  {
    hide FdSlots, DataSlots;
    forall e | e in s'.pc ensures PcOk(s', e) {
      if e != s.cur { assert PcOk(s, e); }
    }
  }

  /** The steps of dup and close. */
  lemma SyscallInv(s: State, ok: bool)
    requires Inv(s) && Enabled(s, Syscall(ok))
    ensures Inv(Do(s, Syscall(ok)))
  {
    hide FdSlots, DataSlots;
    SyscallPc(s, ok);
    OthersOk(s, Do(s, Syscall(ok)));
  }

  lemma SyscallPc(s: State, ok: bool)
    requires FdHasData(s) && s.cur in s.pc && PcOk(s, s.cur) && Enabled(s, Syscall(ok))
    ensures FdHasData(Do(s, Syscall(ok))) && PcOk(Do(s, Syscall(ok)), s.cur)
  {
    hide FdSlots, DataSlots;
  }

  /** The steps that change no mapping. */
  lemma LocalInv(s: State, a: Action)
    requires Inv(s) && Enabled(s, a) && !a.Switch? && !a.Kill? && !a.Exit? && !a.Syscall?
    ensures Inv(Do(s, a))
  {
    hide FdSlots, DataSlots, PcOk;
    LocalPc(s, a);
    OthersOk(s, Do(s, a));
  }

  lemma LocalPc(s: State, a: Action)
    requires (s.cur in s.pc ==> PcOk(s, s.cur)) && Enabled(s, a) && !a.Switch? && !a.Kill? && !a.Exit? && !a.Syscall?
    ensures Do(s, a).slots == s.slots && PcOk(Do(s, a), s.cur)
  {
    var s' := Do(s, a);
    assert s'.slots == s.slots;
    assert forall end :: FdSlots(s', end) == FdSlots(s, end);
    assert DataSlots(s') == DataSlots(s);
  }

  lemma StepInv(s: State, a: Action)
    requires Inv(s) && Enabled(s, a)
    ensures Inv(Do(s, a))
  {
    hide FdHasData, PcOk, FdSlots, DataSlots;
    match a
    case Switch(to) => DispatchInv(s, to);
    case Kill(x) => FreeInv(s, x);
    case Exit(to) => FreeInv(s, s.cur); DispatchInv(Free(s, s.cur), to);
    case Syscall(ok) => SyscallInv(s, ok);
    case _ => LocalInv(s, a);
  }

  // ---------------------------------------------------------------- what a check means

  /** The data page is mapped only together with the descriptor page of this end, in address spaces
      that are live and in those that are lost: every descriptor of the other end was closed, and no
      dup or close of one is half done. */
  ghost predicate OnlyEnd(s: State, end: End) {
    forall k :: k in s.slots && s.slots[k].data ==> s.slots[k].fd == Some(end)
  }

  /** No descriptor of the other end is mapped, or lost, in any environment. */
  ghost predicate OppositeGone(s: State, end: End) {
    forall k :: k in s.slots ==> s.slots[k].fd == None || s.slots[k].fd == Some(end)
  }

  lemma EqualRefs(s: State, end: End)
    requires FdHasData(s)
    ensures |FdSlots(s, end)| == |DataSlots(s)| <==> OnlyEnd(s, end)
    ensures OnlyEnd(s, end) ==> OppositeGone(s, end)
    ensures |FdSlots(s, Reader)| + |FdSlots(s, Writer)| <= |DataSlots(s)|
  {
    assert FdSlots(s, end) <= DataSlots(s);
    if OnlyEnd(s, end) {
      assert FdSlots(s, end) == DataSlots(s);
    }
    if |FdSlots(s, end)| == |DataSlots(s)| {
      SameSize(FdSlots(s, end), DataSlots(s));
      forall k | k in s.slots && s.slots[k].data ensures s.slots[k].fd == Some(end) {
        assert k in DataSlots(s);
      }
    }
    assert FdSlots(s, Reader) !! FdSlots(s, Writer);
    Subset(FdSlots(s, Reader) + FdSlots(s, Writer), DataSlots(s));
  }

  /** What the comparison of the two counts tells: exactly that their difference is a multiple of 2^16,
      and so, with fewer than 2^16 mappings, that only this end is left. */
  lemma PageRefs(s: State, end: End)
    requires FdHasData(s)
    ensures |FdSlots(s, end)| <= |DataSlots(s)|
    ensures FdRef(s, end) == DataRef(s) <==> (|DataSlots(s)| - |FdSlots(s, end)|) % REFS == 0
    ensures Few(s) ==> (FdRef(s, end) == DataRef(s) <==> OnlyEnd(s, end))
  {
    hide FdSlots, DataSlots, FdHasData, OnlyEnd;
    EqualRefs(s, end);
    SameRemainder(|FdSlots(s, end)|, |DataSlots(s)|);
  }

  /** The data page is mapped less often than its count can tell. */
  ghost predicate Few(s: State) { |DataSlots(s)| < REFS }

  lemma SameRemainder(a: nat, b: nat)
    requires a <= b
    ensures a % REFS == b % REFS <==> (b - a) % REFS == 0
  {
  }

  lemma {:induction false} Subset<T>(a: set<T>, b: set<T>)
    requires a <= b
    ensures |a| <= |b|
  {
    if a != {} {
      var x :| x in a;
      Subset(a - {x}, b - {x});
    }
  }

  lemma SameSize<T>(a: set<T>, b: set<T>)
    requires a <= b && |a| == |b|
    ensures a == b
  {
    if x :| x in b && x !in a {
      Subset(a, b - {x});
      assert false;
    }
  }

  /** A check that ends gives the exact answer for the state it ends in, provided the
      environment was not switched to a multiple of 2^32 times since the check began. */
  lemma FinishExact(s: State)
    requires Inv(s) && Enabled(s, Finish) && s.cur in s.pc
    requires Dispatches(s, s.cur) - s.pc[s.cur].n < WRAP
    requires Do(s, Finish).pc[s.cur].Checked?
    ensures At(s, s.cur, s.pc[s.cur].slot).fd.Some?
    ensures var s', end := Do(s, Finish), At(s, s.cur, s.pc[s.cur].slot).fd.value;
            && (s'.pc[s.cur].closed <==> FdRef(s', end) == DataRef(s'))
            && (Few(s') ==> (s'.pc[s.cur].closed <==> OnlyEnd(s', end)))
  {
    hide FdSlots, DataSlots, OnlyEnd, FdRef, DataRef, Few;
    var pc := s.pc[s.cur];
    assert PcOk(s, s.cur);
    SmallDifference(pc.n, Dispatches(s, s.cur));
    var end := At(s, s.cur, pc.slot).fd.value;
    SameMappings(s, Do(s, Finish), end);
    PageRefs(Do(s, Finish), end);
  }

  /** A check ends exactly if env_runs is what it was when the check began, and otherwise starts again. */
  lemma FinishOrRetry(s: State)
    requires Enabled(s, Finish)
    ensures var pc, pc' := Pc_(s, s.cur), Pc_(Do(s, Finish), s.cur);
            if pc.n % WRAP == EnvRuns(s, s.cur) then pc' == Checked(pc.slot, pc.n, pc.fdRef == pc.dataRef)
            else pc' == Check(pc.slot, Dispatches(s, s.cur), None, None)
  {
  }

  /** A switch counts once, for the environment switched to. */
  lemma SwitchCounts(s: State, to: nat, e: nat)
    ensures EnvRuns(Do(s, Switch(to)), e) == if e == to then (EnvRuns(s, e) + 1) % WRAP else EnvRuns(s, e)
    ensures Do(s, Switch(to)).cur == to && Do(s, Switch(to)).slots == s.slots && Do(s, Switch(to)).pc == s.pc
  {
  }

  lemma SmallDifference(n: nat, m: nat)
    requires n <= m && m - n < WRAP && n % WRAP == m % WRAP
    ensures n == m
  {
  }

  lemma SameMappings(s: State, s': State, end: End)
    requires s'.slots == s.slots
    ensures FdRef(s', end) == FdRef(s, end) && DataRef(s') == DataRef(s)
  {
    assert FdSlots(s', end) == FdSlots(s, end) && DataSlots(s') == DataSlots(s);
  }

  // ---------------------------------------------------------------- whole runs

  ghost predicate IsRun(run: seq<State>, acts: seq<Action>) {
    && |run| == |acts| + 1 && Init(run[0])
    && forall i :: 0 <= i < |acts| ==> Enabled(run[i], acts[i]) && run[i + 1] == Do(run[i], acts[i])
  }

  lemma {:induction false} RunInv(run: seq<State>, acts: seq<Action>, i: nat)
    requires IsRun(run, acts) && i < |run|
    ensures Inv(run[i])
  {
    hide Inv, Init, Enabled, Do;
    if i == 0 {
      InitInv(run[0]);
    } else {
      RunInv(run, acts, i - 1);
      StepInv(run[i - 1], acts[i - 1]);
    }
  }

  /** In every run _pipeisclosed ends with true exactly if the number of mappings of the data page that
      do not go with this end is a multiple of 2^16.  While there are fewer than 2^16 in all: exactly if
      nothing but this end is mapped or lost, and then no descriptor of the opposite end is mapped. */
  lemma EndOfFileIsReal(run: seq<State>, acts: seq<Action>, i: nat, end: End)
    requires IsRun(run, acts) && i < |acts| && Asks(run, acts, i, end)
    ensures |FdSlots(run[i + 1], end)| <= |DataSlots(run[i + 1])|
    ensures Answer(run, i) <==> (|DataSlots(run[i + 1])| - |FdSlots(run[i + 1], end)|) % REFS == 0
    ensures Few(run[i + 1]) ==> (Answer(run, i) <==> OnlyEnd(run[i + 1], end))
    ensures Few(run[i + 1]) && Answer(run, i) ==> OppositeGone(run[i + 1], end)
  {
    hide OnlyEnd, FdSlots, DataSlots, FdHasData, PcOk, FdRef, DataRef, Few;
    RunInv(run, acts, i);
    RunInv(run, acts, i + 1);
    FinishExact(run[i]);
    PageRefs(run[i + 1], end);
    EqualRefs(run[i + 1], end);
  }

  /** The i-th step ends a check of the given end, less than 2^32 dispatches after it began. */
  ghost predicate Asks(run: seq<State>, acts: seq<Action>, i: nat, end: End)
    requires i < |acts| && |run| == |acts| + 1
  {
    var e := run[i].cur;
    var pc := Pc_(run[i], e);
    && acts[i] == Finish && Enabled(run[i], Finish) && At(run[i], e, pc.slot).fd == Some(end)
    && Dispatches(run[i], e) - pc.n < WRAP && Pc_(run[i + 1], e).Checked?
  }

  ghost predicate Answer(run: seq<State>, i: nat)
    requires i + 1 < |run|
  {
    Pc_(run[i + 1], run[i].cur).Checked? && Pc_(run[i + 1], run[i].cur).closed
  }

  // ---------------------------------------------------------------- what dup and close do

  /** The slot that dup or close of e is changing. */
  predicate Busy(pc: Pc, f: nat) {
    match pc
    case CloseData(g, _) => f == g
    case DupFd(_, g) => f == g
    case Undo1(g) => f == g
    case Undo2(g) => f == g
    case _ => false
  }

  ghost predicate Whole(slot: Slot) { slot.fd.Some? <==> slot.data }

  /** Every other descriptor of a live environment is wholly open or wholly closed. */
  ghost predicate WholeOk(s: State) {
    forall e, f :: e !in s.dead && !Busy(Pc_(s, e), f) ==> Whole(At(s, e, f))
  }

  lemma WholeStep(s: State, a: Action)
    requires Inv(s) && WholeOk(s) && Enabled(s, a)
    ensures WholeOk(Do(s, a))
  {
    hide FdSlots, DataSlots, FdRef, DataRef, FdHasData, Do;
    var s' := Do(s, a);
    forall e, f | e !in s'.dead && !Busy(Pc_(s', e), f) ensures Whole(At(s', e, f)) {
      OnlyMoreDead(s, a);
      if s.cur == e && !a.Switch? && !a.Kill? && !a.Exit? { OwnWhole(s, a, f); } else { Untouched(s, a, e); }
    }
  }

  lemma OnlyMoreDead(s: State, a: Action)
    requires Enabled(s, a)
    ensures s.dead <= Do(s, a).dead
  {
    hide FdSlots, DataSlots, FdRef, DataRef;
  }

  lemma OwnWhole(s: State, a: Action, f: nat)
    requires (s.cur in s.pc ==> PcOk(s, s.cur)) && Enabled(s, a) && !a.Switch? && !a.Kill? && !a.Exit?
    requires forall g :: !Busy(Pc_(s, s.cur), g) ==> Whole(At(s, s.cur, g))
    ensures !Busy(Pc_(Do(s, a), s.cur), f) ==> Whole(At(Do(s, a), s.cur, f))
  {
    hide FdSlots, DataSlots, FdRef, DataRef, Dispatch, Free;
    if !Busy(Pc_(s, s.cur), f) { assert Whole(At(s, s.cur, f)); }
  }

  lemma {:induction false} WholeRun(run: seq<State>, acts: seq<Action>, i: nat)
    requires IsRun(run, acts) && i < |run|
    ensures WholeOk(run[i])
  {
    hide Inv, Enabled, Do, WholeOk, Init;
    if i == 0 {
      InitWhole(run[0]);
    } else {
      WholeRun(run, acts, i - 1);
      RunInv(run, acts, i - 1);
      WholeStep(run[i - 1], acts[i - 1]);
    }
  }

  lemma InitWhole(s: State)
    requires Init(s)
    ensures WholeOk(s)
  {
  }

  /** How far a dup of src to dst by e has got since base: only dst has changed, to nothing, to the data page
      alone, and to what src is; failed says whether a mapping was refused. */
  ghost predicate Dupping(base: State, s: State, e: nat, src: nat, dst: nat, failed: bool) {
    && (forall f :: f != dst ==> At(s, e, f) == At(base, e, f))
    && match Pc_(s, e)
       case CloseFd(f, next) => f == dst && next == Some((src, dst)) && !failed
       case CloseData(f, next) => f == dst && next == Some((src, dst)) && At(s, e, dst).fd == None && !failed
       case DupData(a, b) => a == src && b == dst && At(s, e, dst) == EMPTY && !failed
       case DupFd(a, b) => a == src && b == dst && At(s, e, dst) == Slot(None, true) && !failed
       case Undo1(f) => f == dst && failed
       case Undo2(f) => f == dst && failed && At(s, e, dst).fd == None
       case Ready => At(s, e, dst) == if failed then EMPTY else At(base, e, src)
       case _ => false
  }

  /** The step refuses one of the two mappings of a dup by e. */
  predicate Refuses(s: State, a: Action, e: nat) {
    s.cur == e && a == Syscall(false) && (Pc_(s, e).DupData? || Pc_(s, e).DupFd?)
  }

  lemma DupStep(base: State, s: State, a: Action, e: nat, src: nat, dst: nat, end: End, failed: bool)
    requires Enabled(s, a) && Dupping(base, s, e, src, dst, failed) && Pc_(s, e) != Ready && src != dst
    requires At(base, e, src) == Slot(Some(end), true) && e !in Do(s, a).dead
    ensures Dupping(base, Do(s, a), e, src, dst, failed || Refuses(s, a, e))
  {
    hide Do;
    assert At(s, e, src) == At(base, e, src);
    if s.cur == e && a.Syscall? { DupSyscall(base, s, a.ok, src, dst, end, failed); } else { Untouched(s, a, e); }
  }

  lemma DupSyscall(base: State, s: State, ok: bool, src: nat, dst: nat, end: End, failed: bool)
    requires Dupping(base, s, s.cur, src, dst, failed) && Pc_(s, s.cur) != Ready && src != dst
    requires At(s, s.cur, src) == At(base, s.cur, src) == Slot(Some(end), true)
    ensures Dupping(base, Do(s, Syscall(ok)), s.cur, src, dst, failed || Refuses(s, Syscall(ok), s.cur))
  {
    hide FdSlots, DataSlots, FdRef, DataRef, Dispatch, Free;
    var s' := Do(s, Syscall(ok));
    assert forall f :: f != dst ==> At(s', s.cur, f) == At(s, s.cur, f);
  }

  /** What is not a step of e's own leaves e as it is. */
  lemma Untouched(s: State, a: Action, e: nat)
    requires Enabled(s, a) && e !in Do(s, a).dead && (s.cur != e || a.Switch? || a.Kill? || a.Exit?)
    ensures Pc_(Do(s, a), e) == Pc_(s, e) && forall f :: At(Do(s, a), e, f) == At(s, e, f)
  {
    hide FdSlots, DataSlots, FdRef, DataRef;
  }

  /** Between steps i and j of a run e is in one call, and alive when it is over. */
  ghost predicate OneCall(run: seq<State>, acts: seq<Action>, i: nat, j: nat, e: nat) {
    && IsRun(run, acts) && i < j < |run| && run[i].cur == e && Enabled(run[i], acts[i])
    && (forall k :: i < k < j ==> Pc_(run[k], e) != Ready) && Pc_(run[j], e) == Ready && e !in run[j].dead
  }

  /** One of its mappings was refused. */
  ghost predicate Refused(run: seq<State>, acts: seq<Action>, i: nat, j: nat, e: nat)
    requires |run| == |acts| + 1 && j < |run|
  {
    exists k :: i < k < j && Refuses(run[k], acts[k], e)
  }

  lemma {:induction false} DeadStays(run: seq<State>, acts: seq<Action>, i: nat, j: nat, e: nat)
    requires IsRun(run, acts) && i <= j < |run| && e !in run[j].dead
    ensures e !in run[i].dead
    decreases j - i
  {
    hide Inv, Init, FdSlots, DataSlots, FdRef, DataRef;
    if i < j { DeadStays(run, acts, i, j - 1, e); }
  }

  lemma {:induction false} DupProgress(run: seq<State>, acts: seq<Action>, i: nat, j: nat, k: nat, e: nat, src: nat, dst: nat, end: End)
    requires OneCall(run, acts, i, j, e) && acts[i] == StartDup(src, dst) && src != dst && i < k <= j
    requires At(run[i], e, src) == Slot(Some(end), true)
    ensures Dupping(run[i], run[k], e, src, dst, Refused(run, acts, i, k, e))
    decreases k
  {
    hide Inv, Init, Enabled, Do, Dupping, Refuses;
    if k == i + 1 {
      WholeRun(run, acts, i);
      DeadStays(run, acts, i, j, e);
      DupStarts(run[i], src, dst, end);
    } else {
      DupProgress(run, acts, i, j, k - 1, e, src, dst, end);
      DeadStays(run, acts, k, j, e);
      DupStep(run[i], run[k - 1], acts[k - 1], e, src, dst, end, Refused(run, acts, i, k - 1, e));
      assert Refused(run, acts, i, k, e) <==> Refused(run, acts, i, k - 1, e) || Refuses(run[k - 1], acts[k - 1], e);
    }
  }

  lemma DupStarts(s: State, src: nat, dst: nat, end: End)
    requires WholeOk(s) && Enabled(s, StartDup(src, dst)) && s.cur !in s.dead && At(s, s.cur, src) == Slot(Some(end), true)
    ensures Dupping(s, Do(s, StartDup(src, dst)), s.cur, src, dst, false)
  {
    assert !Busy(Pc_(s, s.cur), dst);
    assert Whole(At(s, s.cur, dst));
  }

  /** How far a dup of f to itself by e has got since base: dup closes f first, and then there is nothing to map. */
  ghost predicate SelfDupping(base: State, s: State, e: nat, f: nat) {
    && (forall g :: g != f ==> At(s, e, g) == At(base, e, g))
    && match Pc_(s, e)
       case CloseFd(g, next) => g == f && next == Some((f, f))
       case CloseData(g, next) => g == f && next == Some((f, f)) && At(s, e, f).fd == None
       case DupData(a, b) => a == f && b == f && At(s, e, f) == EMPTY
       case DupFd(a, b) => a == f && b == f && At(s, e, f) == EMPTY
       case Undo1(g) => g == f
       case Undo2(g) => g == f && At(s, e, f).fd == None
       case Ready => At(s, e, f) == EMPTY
       case _ => false
  }

  lemma SelfDupStep(base: State, s: State, a: Action, e: nat, f: nat)
    requires Enabled(s, a) && SelfDupping(base, s, e, f) && Pc_(s, e) != Ready && e !in Do(s, a).dead
    ensures SelfDupping(base, Do(s, a), e, f)
  {
    hide Do;
    if s.cur == e && a.Syscall? { SelfDupSyscall(base, s, a.ok, f); } else { Untouched(s, a, e); }
  }

  lemma SelfDupSyscall(base: State, s: State, ok: bool, f: nat)
    requires SelfDupping(base, s, s.cur, f) && Pc_(s, s.cur) != Ready
    ensures SelfDupping(base, Do(s, Syscall(ok)), s.cur, f)
  {
    hide FdSlots, DataSlots, FdRef, DataRef, Dispatch, Free;
    assert forall g :: g != f ==> At(Do(s, Syscall(ok)), s.cur, g) == At(s, s.cur, g);
  }

  lemma {:induction false} SelfDupProgress(run: seq<State>, acts: seq<Action>, i: nat, j: nat, k: nat, e: nat, f: nat)
    requires OneCall(run, acts, i, j, e) && acts[i] == StartDup(f, f) && i < k <= j && At(run[i], e, f).fd.Some?
    ensures SelfDupping(run[i], run[k], e, f)
    decreases k
  {
    hide Inv, Init, FdSlots, DataSlots, FdRef, DataRef, Dispatch, Free, SelfDupping;
    if k == i + 1 {
      SelfDupStarts(run[i], f);
    } else {
      SelfDupProgress(run, acts, i, j, k - 1, e, f);
      DeadStays(run, acts, k, j, e);
      SelfDupStep(run[i], run[k - 1], acts[k - 1], e, f);
    }
  }

  lemma SelfDupStarts(s: State, f: nat)
    requires Enabled(s, StartDup(f, f)) && At(s, s.cur, f).fd.Some?
    ensures SelfDupping(s, Do(s, StartDup(f, f)), s.cur, f)
  {
  }

  /** In every run, whatever other environments do meanwhile: a dup that is over has left dst alone if src was
      closed, has closed dst if it was src itself or a mapping was refused, has made dst what src is
      otherwise, and has touched no other descriptor. */
  lemma DupResult(run: seq<State>, acts: seq<Action>, i: nat, j: nat, e: nat, src: nat, dst: nat)
    requires OneCall(run, acts, i, j, e) && acts[i] == StartDup(src, dst)
    ensures At(run[j], e, dst) ==
            if At(run[i], e, src) == EMPTY then At(run[i], e, dst)
            else if src == dst || Refused(run, acts, i, j, e) then EMPTY
            else At(run[i], e, src)
    ensures forall f :: f != dst ==> At(run[j], e, f) == At(run[i], e, f)
  {
    hide Inv, Init, FdSlots, DataSlots, FdRef, DataRef, Dispatch, Free, Refuses, Refused;
    WholeRun(run, acts, i);
    DeadStays(run, acts, i, j, e);
    assert !Busy(Pc_(run[i], e), src);
    assert Whole(At(run[i], e, src));
    if At(run[i], e, src).fd == None {
      assert run[i + 1] == run[i];
    } else if src == dst {
      SelfDupProgress(run, acts, i, j, j, e, src);
    } else {
      DupProgress(run, acts, i, j, j, e, src, dst, At(run[i], e, src).fd.value);
    }
  }

  /** How many system calls a dup or close still needs at most. */
  function Left(pc: Pc): nat {
    match pc
    case CloseFd(_, _) => 6
    case CloseData(_, _) => 5
    case DupData(_, _) => 4
    case DupFd(_, _) => 3
    case Undo1(_) => 2
    case Undo2(_) => 1
    case _ => 0
  }

  /** Every one it makes brings it nearer to its end. */
  lemma SyscallProgress(s: State, ok: bool)
    requires Enabled(s, Syscall(ok))
    ensures Left(Pc_(Do(s, Syscall(ok)), s.cur)) < Left(Pc_(s, s.cur))
    ensures Left(Pc_(Do(s, Syscall(ok)), s.cur)) == 0 ==> Pc_(Do(s, Syscall(ok)), s.cur) == Ready
  {
    hide FdSlots, DataSlots, FdRef, DataRef;
  }

  /** The same for close: the descriptor is closed and no other has changed. */
  ghost predicate Closing(base: State, s: State, e: nat, f: nat) {
    && (forall g :: g != f ==> At(s, e, g) == At(base, e, g))
    && match Pc_(s, e)
       case CloseFd(g, next) => g == f && next == None
       case CloseData(g, next) => g == f && next == None && At(s, e, f).fd == None
       case Ready => At(s, e, f) == EMPTY
       case _ => false
  }

  lemma CloseStep(base: State, s: State, a: Action, e: nat, f: nat)
    requires Enabled(s, a) && Closing(base, s, e, f) && Pc_(s, e) != Ready && e !in Do(s, a).dead
    ensures Closing(base, Do(s, a), e, f)
  {
    hide Do;
    if s.cur == e && a.Syscall? { CloseSyscall(base, s, a.ok, f); } else { Untouched(s, a, e); }
  }

  lemma CloseSyscall(base: State, s: State, ok: bool, f: nat)
    requires Closing(base, s, s.cur, f) && Pc_(s, s.cur) != Ready
    ensures Closing(base, Do(s, Syscall(ok)), s.cur, f)
  {
    hide FdSlots, DataSlots, FdRef, DataRef, Dispatch, Free;
  }

  lemma {:induction false} CloseProgress(run: seq<State>, acts: seq<Action>, i: nat, j: nat, k: nat, e: nat, f: nat)
    requires OneCall(run, acts, i, j, e) && acts[i] == StartClose(f) && i < k <= j && At(run[i], e, f).fd.Some?
    ensures Closing(run[i], run[k], e, f)
    decreases k
  {
    hide Inv, Init, Closing, Enabled, Do;
    if k == i + 1 {
      CloseStarts(run[i], f);
    } else {
      CloseProgress(run, acts, i, j, k - 1, e, f);
      DeadStays(run, acts, k, j, e);
      CloseStep(run[i], run[k - 1], acts[k - 1], e, f);
    }
  }

  lemma CloseStarts(s: State, f: nat)
    requires Enabled(s, StartClose(f)) && At(s, s.cur, f).fd.Some?
    ensures Closing(s, Do(s, StartClose(f)), s.cur, f)
  {
  }

  lemma CloseResult(run: seq<State>, acts: seq<Action>, i: nat, j: nat, e: nat, f: nat)
    requires OneCall(run, acts, i, j, e) && acts[i] == StartClose(f)
    ensures At(run[j], e, f) == EMPTY && forall g :: g != f ==> At(run[j], e, g) == At(run[i], e, g)
  {
    hide Inv, Init, FdSlots, DataSlots, FdRef, DataRef, Dispatch, Free;
    if At(run[i], e, f).fd == None {
      WholeRun(run, acts, i);
      DeadStays(run, acts, i, j, e);
      assert !Busy(Pc_(run[i], e), f);
      assert Whole(At(run[i], e, f));
      assert run[i + 1] == run[i];
    } else {
      CloseProgress(run, acts, i, j, j, e, f);
    }
  }

  // ---------------------------------------------------------------- descriptors that are lost

  /** No environment that is still alive has a descriptor of the other end, or part of one. */
  ghost predicate NobodyLeft(s: State, end: End) {
    forall k :: k in s.slots && k.0 !in s.dead && s.slots[k].data ==> s.slots[k].fd == Some(end)
  }

  /** A dead environment still holds the data page, and not as this end. */
  ghost predicate Lost(s: State, end: End, e: nat, f: nat) {
    e in s.dead && At(s, e, f).data && At(s, e, f).fd != Some(end)
  }

  /** The exact answer in terms of what is left and what was lost. */
  lemma OnlyEndIff(s: State, end: End)
    ensures OnlyEnd(s, end) <==> NobodyLeft(s, end) && forall e, f :: !Lost(s, end, e, f)
  {
    if OnlyEnd(s, end) {
      forall e, f ensures !Lost(s, end, e, f) {}
    }
    if NobodyLeft(s, end) && forall e, f :: !Lost(s, end, e, f) {
      forall k | k in s.slots && s.slots[k].data ensures s.slots[k].fd == Some(end) {
        assert !Lost(s, end, k.0, k.1);
      }
    }
  }

  lemma LostStep(s: State, a: Action, end: End, e: nat, f: nat)
    requires Inv(s) && Enabled(s, a) && Lost(s, end, e, f)
    ensures Lost(Do(s, a), end, e, f)
  {
    hide FdSlots, DataSlots, FdHasData, PcOk;
  }

  lemma {:induction false} LostForever(run: seq<State>, acts: seq<Action>, i: nat, j: nat, end: End, e: nat, f: nat)
    requires IsRun(run, acts) && i <= j < |run| && Lost(run[i], end, e, f)
    ensures Lost(run[j], end, e, f)
    decreases j - i
  {
    hide Inv, Init, Enabled, Do, Lost;
    if i < j {
      LostForever(run, acts, i, j - 1, end, e, f);
      RunInv(run, acts, j - 1);
      LostStep(run[j - 1], acts[j - 1], end, e, f);
    }
  }

  /** Once an environment has been taken down with a descriptor of the other end open, no check of
      this end ever answers true again, whoever closes what. */
  lemma EndOfFileNeverComes(run: seq<State>, acts: seq<Action>, i: nat, j: nat, end: End, e: nat, f: nat)
    requires IsRun(run, acts) && i <= j < |acts| && Lost(run[i], end, e, f) && Asks(run, acts, j, end)
    ensures Few(run[j + 1]) ==> !Answer(run, j)
  {
    hide Init, Enabled, Do, Asks, Answer, Lost, OnlyEnd, NobodyLeft, OppositeGone, Few, FdSlots, DataSlots;
    LostForever(run, acts, i, j + 1, end, e, f);
    EndOfFileIsReal(run, acts, j, end);
    OnlyEndIff(run[j + 1], end);
  }

  /** A reader, environment 0, and a writer, environment 1, which is killed at once. */
  function Killed(pc: Option<Pc>): State {
    State(PAIR, if pc.Some? then map[1 := Ready, 0 := pc.value] else map[1 := Ready], 0, map[], {1})
  }

  const PAIR: map<(nat, nat), Slot> := map[(0, 0) := Slot(Some(Reader), true), (1, 0) := Slot(Some(Writer), true)]

  const KILLED_RUN: seq<State> := [
    State(PAIR, map[], 0, map[], {}), Killed(None), Killed(Some(Check(0, 0, None, None))), Killed(Some(Check(0, 0, Some(1), None))),
    Killed(Some(Check(0, 0, Some(1), Some(2)))), Killed(Some(Checked(0, 0, false)))]

  const KILLED_ACTS: seq<Action> := [Kill(1), StartCheck(0), ReadFd, ReadData, Finish]

  /** The reader then sees no end of file although nobody is left to write. */
  lemma KilledWriter()
    ensures IsRun(KILLED_RUN, KILLED_ACTS) && Asks(KILLED_RUN, KILLED_ACTS, 4, Reader)
    ensures NobodyLeft(KILLED_RUN[5], Reader) && !Answer(KILLED_RUN, 4)
  {
    KilledReads();
    forall i | 0 <= i < 5
      ensures Enabled(KILLED_RUN[i], KILLED_ACTS[i]) && KILLED_RUN[i + 1] == Do(KILLED_RUN[i], KILLED_ACTS[i])
    {
      if i == 0 { KilledStarts(); } else if i == 1 { KilledChecks(); }
    }
  }

  lemma KilledStarts()
    ensures Enabled(KILLED_RUN[0], Kill(1)) && Do(KILLED_RUN[0], Kill(1)) == KILLED_RUN[1]
  {
    hide FdSlots, DataSlots;
  }

  lemma KilledChecks()
    ensures Enabled(KILLED_RUN[1], StartCheck(0)) && Do(KILLED_RUN[1], StartCheck(0)) == KILLED_RUN[2]
  {
    hide FdSlots, DataSlots;
  }

  lemma KilledReads()
    ensures Do(KILLED_RUN[2], ReadFd) == KILLED_RUN[3] && Do(KILLED_RUN[3], ReadData) == KILLED_RUN[4]
    ensures Do(KILLED_RUN[4], Finish) == KILLED_RUN[5]
  {
    assert FdSlots(KILLED_RUN[2], Reader) == {(0, 0)};
    assert DataSlots(KILLED_RUN[3]) == {(0, 0), (1, 0)};
  }

  // ---------------------------------------------------------------- why the conditions are there

  /** Two readers, environments 0 and 1, and a writer, environment 2; environment 0 checks. */
  function Example(one: Slot, pc0: Pc, pc1: Pc, cur: nat): State {
    State(map[(0, 0) := Slot(Some(Reader), true), (1, 0) := one, (2, 0) := Slot(Some(Writer), true)],
          map[0 := pc0, 1 := pc1], cur, map[], {})
  }

  const OPEN: Slot := Slot(Some(Reader), true)

  lemma ExampleReadsTwo(pc1: Pc)
    ensures Do(Example(OPEN, Check(0, 0, None, None), pc1, 0), ReadFd) == Example(OPEN, Check(0, 0, Some(2), None), pc1, 0)
  {
    var s := Example(OPEN, Check(0, 0, None, None), pc1, 0);
    assert FdSlots(s, Reader) == {(0, 0), (1, 0)};
  }

  lemma ExampleStartsClose(pc0: Pc)
    ensures Do(Example(OPEN, pc0, Ready, 1), StartClose(0)) == Example(OPEN, pc0, CloseFd(0, None), 1)
  {
  }

  lemma ExampleClosesFd(pc0: Pc)
    ensures Do(Example(OPEN, pc0, CloseFd(0, None), 1), Syscall(true)) == Example(Slot(None, true), pc0, CloseData(0, None), 1)
  {
  }

  lemma ExampleClosesData(pc0: Pc)
    ensures Do(Example(Slot(None, true), pc0, CloseData(0, None), 1), Syscall(true)) == Example(EMPTY, pc0, Ready, 1)
  {
    var s := Example(Slot(None, true), pc0, CloseData(0, None), 1);
    assert Pc_(s, 1) == CloseData(0, None);
  }

  lemma ExampleReadsTwoAgain()
    ensures Do(Example(EMPTY, Check(0, 0, Some(2), None), Ready, 0), ReadData) == Example(EMPTY, Check(0, 0, Some(2), Some(2)), Ready, 0)
    ensures Do(Example(EMPTY, Check(0, 0, Some(2), Some(2)), Ready, 0), Finish) == Example(EMPTY, Checked(0, 0, true), Ready, 0)
  {
    var s := Example(EMPTY, Check(0, 0, Some(2), None), Ready, 0);
    assert DataSlots(s) == {(0, 0), (2, 0)};
  }

  /** With a second processor another environment may close its reader between the two reads
      although the checking environment is never switched away: the check then reports end of
      file while a writer is open.  s1.(cur := 1) is environment 1 acting on its own processor. */
  lemma SecondProcessorBreaksCheck()
    ensures var s := Example(OPEN, Check(0, 0, None, None), Ready, 0);
            var s1 := Do(s, ReadFd).(cur := 1);
            var s2 := Do(Do(Do(s1, StartClose(0)), Syscall(true)), Syscall(true)).(cur := 0);
            var s3 := Do(Do(s2, ReadData), Finish);
            && Inv(s) && Pc_(s3, 0) == Checked(0, 0, true) && At(s3, 2, 0).fd == Some(Writer)
  {
    hide Do;
    ExampleReadsTwo(Ready);
    ExampleStartsClose(Check(0, 0, Some(2), None));
    ExampleClosesFd(Check(0, 0, Some(2), None));
    ExampleClosesData(Check(0, 0, Some(2), None));
    ExampleReadsTwoAgain();
  }

  /** Nothing has happened to environment e; the other processors may have done anything else. */
  ghost predicate Undisturbed(s: State, s': State, e: nat) {
    s'.cur == s.cur == e && Pc_(s', e) == Pc_(s, e) && Dispatches(s', e) == Dispatches(s, e)
  }

  /** With any number of processors the answer is exact for the moment of the second read, whichever
      that is, if no page of the pipe is mapped or unmapped between the two. */
  lemma QuietBetweenReads(s: State, s1: State, s2: State, fdFirst: bool, f: nat, end: End)
    requires var first := if fdFirst then ReadFd else ReadData; var second := if fdFirst then ReadData else ReadFd;
             && Pc_(s, s.cur) == Check(f, Dispatches(s, s.cur), None, None) && At(s, s.cur, f).fd == Some(end)
             && Undisturbed(Do(s, first), s1, s.cur) && s1.slots == s.slots && FdHasData(s1)
             && Undisturbed(Do(s1, second), s2, s.cur)
    ensures Pc_(Do(s2, Finish), s.cur).Checked?
    ensures Pc_(Do(s2, Finish), s.cur).closed <==> (|DataSlots(s1)| - |FdSlots(s1, end)|) % REFS == 0
    ensures Few(s1) ==> (Pc_(Do(s2, Finish), s.cur).closed <==> OnlyEnd(s1, end))
  {
    hide FdSlots, DataSlots, OnlyEnd, FdHasData, FdRef, DataRef, Few;
    SameMappings(s, s1, end);
    PageRefs(s1, end);
  }
}
