/** kern/sched.c with env_run and env_destroy of kern/env.c and the entry code of kern/trap.c, on any
    number of processors.  Each kernel entry is one step, as the big kernel lock is meant to make it:
    in this tree trap() takes the lock only after a halt, not on entry from user mode. */
module Sched {
  import opened Wrappers
  import opened EnvTable

  /** The status of every environment, and the environment current on every processor. */
  datatype Sys = Sys(status: seq<Status>, current: seq<Option<nat>>)

  predicate OnCpu(st: Status) { st == Running || st == Dying }

  ghost predicate Shaped(s: Sys) {
    |s.status| == NENV && forall c :: 0 <= c < |s.current| && s.current[c].Some? ==> s.current[c].value < NENV
  }

  /** No environment is current on two processors, and exactly the running and the dying ones are
      current on one. */
  ghost predicate Exclusive(s: Sys) {
    && Shaped(s)
    && (forall c :: 0 <= c < |s.current| && s.current[c].Some? ==> OnCpu(s.status[s.current[c].value]))
    && (forall c, d :: 0 <= c < d < |s.current| && s.current[c].Some? ==> s.current[c] != s.current[d])
    && (forall e :: 0 <= e < NENV && OnCpu(s.status[e]) ==> Some(e) in s.current)
  }

  // ---------------------------------------------------------------- the search

  /** How many steps of the search from slot i lead to slot j. */
  function Distance(i: nat, j: nat): nat
    requires i < NENV && j < NENV
  {
    if j > i then j - i else j + NENV - i
  }

  function Ahead(i: nat, d: nat): (j: nat)
    ensures j < NENV
  {
    (i + d) % NENV
  }

  lemma AheadDistance(i: nat, j: nat)
    requires i < NENV && j < NENV
    ensures 1 <= Distance(i, j) <= NENV && Ahead(i, Distance(i, j)) == j
  {
  }

  lemma DistanceAhead(i: nat, d: nat)
    requires i < NENV && 1 <= d <= NENV
    ensures Distance(i, Ahead(i, d)) == d
  {
  }

  /** The first runnable slot after i, going round. */
  function Search(status: seq<Status>, i: nat, n: nat): (r: Option<nat>)
    requires |status| == NENV && i < NENV
    ensures r.Some? ==> r.value < NENV
    decreases n
  {
    if n == 0 then None
    else
      var j := Ahead(i, 1);
      if status[j] == Runnable then Some(j) else Search(status, j, n - 1)
  }

  lemma AheadStep(i: nat, d: nat)
    requires i < NENV
    ensures Ahead(Ahead(i, 1), d) == Ahead(i, d + 1)
  {
  }

  /** The search returns a runnable slot with none between, or there is none within n steps. */
  lemma {:induction false} SearchNearest(status: seq<Status>, i: nat, n: nat)
    requires |status| == NENV && i < NENV && n <= NENV
    ensures var r := Search(status, i, n);
            && (r == None ==> forall d :: 1 <= d <= n ==> status[Ahead(i, d)] != Runnable)
            && (r.Some? ==> status[r.value] == Runnable && Distance(i, r.value) <= n &&
                            forall d :: 1 <= d < Distance(i, r.value) ==> status[Ahead(i, d)] != Runnable)
    decreases n
  {
    hide Ahead, Distance;
    if n > 0 {
      var j := Ahead(i, 1);
      DistanceAhead(i, 1);
      if status[j] != Runnable {
        SearchNearest(status, j, n - 1);
        NotYet(status, i, n);
      }
    }
  }

  lemma NotYet(status: seq<Status>, i: nat, n: nat)
    requires |status| == NENV && i < NENV && 0 < n <= NENV && status[Ahead(i, 1)] != Runnable
    requires var r := Search(status, Ahead(i, 1), n - 1);
             && (r == None ==> forall d :: 1 <= d <= n - 1 ==> status[Ahead(Ahead(i, 1), d)] != Runnable)
             && (r.Some? ==> status[r.value] == Runnable && Distance(Ahead(i, 1), r.value) <= n - 1 &&
                             forall d :: 1 <= d < Distance(Ahead(i, 1), r.value) ==> status[Ahead(Ahead(i, 1), d)] != Runnable)
    ensures var r := Search(status, Ahead(i, 1), n - 1);
            && (r == None ==> forall d :: 1 <= d <= n ==> status[Ahead(i, d)] != Runnable)
            && (r.Some? ==> Distance(i, r.value) <= n &&
                            forall d :: 1 <= d < Distance(i, r.value) ==> status[Ahead(i, d)] != Runnable)
  {
    hide Search, Ahead, Distance;
    var j := Ahead(i, 1);
    var r := Search(status, j, n - 1);
    if r.Some? {
      AheadDistance(j, r.value);
      AheadStep(i, Distance(j, r.value));
      DistanceAhead(i, Distance(j, r.value) + 1);
    }
    forall d | 1 <= d <= (if r.Some? then Distance(i, r.value) - 1 else n)
      ensures status[Ahead(i, d)] != Runnable
    {
      if d > 1 {
        AheadStep(i, d - 1);
        assert status[Ahead(j, d - 1)] != Runnable;
      }
    }
  }

  /** Where the search of processor c starts. */
  function From(current: Option<nat>): nat { if current.Some? then current.value else 0 }

  /** An environment that is and stays runnable gets closer with every search that passes it. */
  lemma SearchCloser(status: seq<Status>, i: nat, e: nat)
    requires |status| == NENV && i < NENV && e < NENV && status[e] == Runnable
    ensures var r := Search(status, i, NENV);
            r.Some? && (r.value == e || Distance(r.value, e) < Distance(i, e))
  {
    hide Search;
    SearchNearest(status, i, NENV);
    AheadDistance(i, e);
    var r := Search(status, i, NENV);
    assert status[Ahead(i, Distance(i, e))] == Runnable;
    assert r.Some? && !(Distance(i, e) < Distance(i, r.value));
  }

  /** The slot processor 0 runs after each of a row of yields, each with the statuses of its time. */
  function Picked(trace: seq<seq<Status>>, i: nat): (r: seq<nat>)
    requires i < NENV && forall t :: 0 <= t < |trace| ==> |trace[t]| == NENV
    ensures |r| == |trace|
  {
    if trace == [] then []
    else
      var r := Search(trace[0], i, NENV);
      var j := if r.Some? then r.value else i;
      [j] + Picked(trace[1..], j)
  }

  /** An environment that stays runnable is dispatched within NENV yields: after at most its
      distance from the one running first. */
  lemma {:induction false} Dispatched(trace: seq<seq<Status>>, i: nat, e: nat)
    requires i < NENV && e < NENV
    requires forall t :: 0 <= t < |trace| ==> |trace[t]| == NENV && trace[t][e] == Runnable
    requires |trace| >= Distance(i, e)
    ensures Distance(i, e) <= NENV && exists t :: 0 <= t < Distance(i, e) && Picked(trace, i)[t] == e
    decreases |trace|
  {
    hide Search, Distance;
    AheadDistance(i, e);
    SearchCloser(trace[0], i, e);
    var j := Search(trace[0], i, NENV).value;
    assert Picked(trace, i)[0] == j;
    if j != e {
      Dispatched(trace[1..], j, e);
      var t :| 0 <= t < Distance(j, e) && Picked(trace[1..], j)[t] == e;
      assert Picked(trace, i)[t + 1] == e;
    }
  }

  /** Without a current environment the search starts over: slot 1 is taken while it is runnable,
      however long another one has waited. */
  lemma StartsOver(status: seq<Status>)
    requires |status| == NENV && status[1] == Runnable
    ensures Search(status, From(None), NENV) == Some(1)
  {
  }

  // ---------------------------------------------------------------- kernel steps

  /** env_run on processor c, or None if its assertion fails. */
  function RunOn(s: Sys, c: nat, e: nat): (r: Option<Sys>)
    requires Shaped(s) && c < |s.current| && e < NENV
    ensures r.Some? ==> r.value.current == s.current[c := Some(e)] && |r.value.status| == NENV
  {
    var s' := if s.current[c] == Some(e) then s else Switch(s, c, e);
    if s'.status[e] == Running then Some(s') else None
  }

  function Switch(s: Sys, c: nat, e: nat): Sys
    requires Shaped(s) && c < |s.current| && e < NENV
  {
    var status := match s.current[c]
      case Some(x) => if s.status[x] == Running then s.status[x := Runnable] else s.status
      case None => s.status;
    Sys(status[e := Running], s.current[c := Some(e)])
  }

  /** sched_yield on processor c. */
  function Yield(s: Sys, c: nat): Option<Sys>
    requires Shaped(s) && c < |s.current|
  {
    var r := Search(s.status, From(s.current[c]), NENV);
    if r.Some? then RunOn(s, c, r.value)
    else if s.current[c].Some? && s.status[s.current[c].value] == Running then RunOn(s, c, s.current[c].value)
    else Some(s.(current := s.current[c := None]))
  }

  /** Freeing environment e on processor c and leaving it if it was the current one. */
  function Drop(s: Sys, c: nat, e: nat): Sys
    requires Shaped(s) && c < |s.current| && e < NENV
  {
    Sys(s.status[e := Free], if s.current[c] == Some(e) then s.current[c := None] else s.current)
  }

  /** env_destroy(e) on processor c, up to the yield if e was the current environment. */
  function Destroy(s: Sys, c: nat, e: nat): Sys
    requires Shaped(s) && c < |s.current| && e < NENV
  {
    if s.status[e] == Running && s.current[c] != Some(e) then s.(status := s.status[e := Dying]) else Drop(s, c, e)
  }

  /** What a processor enters the kernel for: a trap that returns, a yield or the timer, destroying
      an environment, a new environment in slot e, or the timer on a halted processor; and what it does
      at boot, before it has an environment: env_create in slot e, and the first sched_yield (Wake). */
  datatype Entry =
    | Return(cpu: nat)
    | YieldCall(cpu: nat)
    | DestroyCall(cpu: nat, e: nat)
    | NewEnv(cpu: nat, e: nat)
    | EnvCreate(cpu: nat, e: nat)
    | Wake(cpu: nat)

  ghost predicate Enabled(s: Sys, en: Entry)
    requires Shaped(s)
  {
    && en.cpu < |s.current|
    && (s.current[en.cpu].Some? <==> !en.Wake? && !en.EnvCreate?)
    && (en.DestroyCall? ==> en.e < NENV && s.status[en.e] != Free)
    && (en.NewEnv? || en.EnvCreate? ==> en.e < NENV && s.status[en.e] == Free)
  }

  /** The side condition: env_destroy is not applied to an environment already dying. */
  ghost predicate NotDying(s: Sys, en: Entry)
    requires Shaped(s) && Enabled(s, en)
  {
    en.DestroyCall? ==> s.status[en.e] != Dying
  }

  /** One kernel entry. */
  function Enter(s: Sys, en: Entry): Option<Sys>
    requires Shaped(s) && Enabled(s, en)
  {
    var c := en.cpu;
    if en.Wake? then Yield(s, c)
    else if en.EnvCreate? then Some(s.(status := s.status[en.e := Runnable]))
    else
      var e := s.current[c].value;
      if s.status[e] == Dying then Yield(Drop(s, c, e), c)
      else
        match en
        case Return(_) => Back(s, c, e)
        case YieldCall(_) => Yield(s, c)
        case DestroyCall(_, x) => if x == e then Yield(Destroy(s, c, e), c) else Back(Destroy(s, c, x), c, e)
        case NewEnv(_, x) => Back(s.(status := s.status[x := Runnable]), c, e)
  }

  /** The end of trap: back to environment e if it still runs. */
  function Back(s: Sys, c: nat, e: nat): Option<Sys>
    requires Shaped(s) && c < |s.current| && e < NENV
  {
    if s.status[e] == Running then RunOn(s, c, e) else Yield(s, c)
  }

  // ---------------------------------------------------------------- what the steps do

  /** Processor c has gone from what it ran to e: e runs, what ran before it can run again, and nothing
      else has changed. */
  ghost predicate Switched(s: Sys, s': Sys, c: nat, e: nat) {
    && c < |s.current| == |s'.current| && |s.status| == |s'.status| == NENV && e < NENV
    && s'.current[c] == Some(e) && (forall d :: 0 <= d < |s.current| && d != c ==> s'.current[d] == s.current[d])
    && s'.status[e] == Running
    && forall x :: 0 <= x < NENV && x != e ==>
         s'.status[x] == if s.current[c] == Some(x) && s.status[x] == Running then Runnable else s.status[x]
  }

  lemma EnvRunSwitches(s: Sys, c: nat, e: nat)
    requires Shaped(s) && c < |s.current| && e < NENV
    ensures s.current[c] != Some(e) ==> RunOn(s, c, e).Some? && Switched(s, RunOn(s, c, e).value, c, e)
    ensures s.current[c] == Some(e) ==> RunOn(s, c, e) == if s.status[e] == Running then Some(s) else None
  {
  }

  /** sched_yield switches to the nearest runnable environment ahead; with none it goes on with the current
      one, or with nothing. */
  lemma YieldMeans(s: Sys, c: nat)
    requires Exclusive(s) && c < |s.current| && (s.current[c].Some? ==> s.status[s.current[c].value] == Running)
    ensures (forall x :: 0 <= x < NENV ==> s.status[x] != Runnable) ==> Yield(s, c) == Some(s)
    ensures (exists x :: 0 <= x < NENV && s.status[x] == Runnable) ==>
              var i := From(s.current[c]);
              && i < NENV && Yield(s, c).Some? && Yield(s, c).value.current[c].Some?
              && var r := Yield(s, c).value.current[c].value;
                 && r < NENV && s.status[r] == Runnable && Switched(s, Yield(s, c).value, c, r)
                 && forall d :: 1 <= d < Distance(i, r) ==> s.status[Ahead(i, d)] != Runnable
  {
    hide Search, RunOn, Ahead, Distance;
    CurrentOnCpu(s, c);
    var i := From(s.current[c]);
    SearchNearest(s.status, i, NENV);
    if x :| 0 <= x < NENV && s.status[x] == Runnable { SearchCloser(s.status, i, x); }
    var r := Search(s.status, i, NENV);
    if r.Some? {
      EnvRunSwitches(s, c, r.value);
    } else if s.current[c].Some? {
      EnvRunSwitches(s, c, s.current[c].value);
    } else {
      assert s.current[c := None] == s.current;
    }
  }

  /** A yield does not touch what is free. */
  lemma YieldKeepsFree(s: Sys, c: nat, e: nat)
    requires Exclusive(s) && c < |s.current| && (s.current[c].Some? ==> s.status[s.current[c].value] == Running)
    requires e < NENV && s.status[e] == Free
    ensures Yield(s, c).Some? && Shaped(Yield(s, c).value) && |Yield(s, c).value.current| == |s.current|
    ensures Yield(s, c).value.status[e] == Free && Yield(s, c).value.current[c] != Some(e)
  {
    hide Yield, Ahead, Distance;
    YieldInv(s, c);
    YieldMeans(s, c);
  }

  /** A trap that has nothing else to do returns to the environment, and a new environment is runnable. */
  lemma EntryMeans(s: Sys, en: Entry)
    requires Exclusive(s) && Enabled(s, en) && (s.current[en.cpu].Some? ==> s.status[s.current[en.cpu].value] == Running)
    ensures en.Return? ==> Enter(s, en) == Some(s)
    ensures en.NewEnv? || en.EnvCreate? ==> Enter(s, en) == Some(s.(status := s.status[en.e := Runnable]))
    ensures en.YieldCall? || en.Wake? ==> Enter(s, en) == Yield(s, en.cpu)
  {
    hide Yield;
  }

  /** env_destroy: an environment that runs nowhere, or here, is free; one that runs on another processor is
      dying, and nothing else changes. */
  lemma DestroyMeans(s: Sys, c: nat, e: nat)
    requires Exclusive(s) && c < |s.current| && s.current[c].Some? && s.status[s.current[c].value] == Running
    requires Enabled(s, DestroyCall(c, e)) && s.status[e] != Dying
    ensures s.current[c] != Some(e) && s.status[e] == Running ==>
              Enter(s, DestroyCall(c, e)) == Some(s.(status := s.status[e := Dying]))
    ensures s.current[c] != Some(e) && s.status[e] != Running ==>
              Enter(s, DestroyCall(c, e)) == Some(s.(status := s.status[e := Free]))
    ensures s.current[c] == Some(e) ==>
              var r := Enter(s, DestroyCall(c, e));
              r.Some? && |r.value.current| == |s.current| && Shaped(r.value) && r.value.status[e] == Free && r.value.current[c] != Some(e)
  {
    hide Yield;
    if s.current[c] == Some(e) {
      DropInv(s, c, e);
      YieldKeepsFree(Drop(s, c, e), c, e);
    }
  }

  /** A dying environment is free after the next entry of the processor it is current on, whatever the entry
      is for. */
  lemma ZombieGone(s: Sys, en: Entry)
    requires Exclusive(s) && Enabled(s, en) && s.current[en.cpu].Some? && s.status[s.current[en.cpu].value] == Dying
    ensures var r, e := Enter(s, en), s.current[en.cpu].value;
            r.Some? && |r.value.current| == |s.current| && Shaped(r.value) && r.value.status[e] == Free && r.value.current[en.cpu] != Some(e)
  {
    hide Yield;
    var e := s.current[en.cpu].value;
    DropInv(s, en.cpu, e);
    YieldKeepsFree(Drop(s, en.cpu, e), en.cpu, e);
  }

  // ---------------------------------------------------------------- fairness on one processor

  /** The state after k yields of the only processor. */
  function Yielded(s: Sys, k: nat): Option<Sys>
    decreases k
  {
    if k == 0 then Some(s)
    else if |s.status| == NENV && |s.current| == 1 && s.current[0].Some? && s.current[0].value < NENV then
      var r := Enter(s, YieldCall(0));
      if r.Some? then Yielded(r.value, k - 1) else None
    else None
  }

  predicate CanRun(s: Sys, e: nat) { e < |s.status| && (s.status[e] == Runnable || s.status[e] == Running) }

  /** Where the next search starts: a dying environment is dropped first. */
  function Origin(s: Sys): nat
    requires Shaped(s) && |s.current| == 1 && s.current[0].Some?
  {
    if s.status[s.current[0].value] == Running then s.current[0].value else 0
  }

  /** One yield: an environment that can run still can, some environment runs, and one that was waiting now
      runs or is closer. */
  lemma YieldOnce(s: Sys, e: nat)
    requires Exclusive(s) && |s.current| == 1 && s.current[0].Some? && CanRun(s, e)
    ensures var r := Enter(s, YieldCall(0));
            && r.Some? && Exclusive(r.value) && |r.value.current| == 1 && r.value.current[0].Some? && CanRun(r.value, e)
            && r.value.status[r.value.current[0].value] == Running
            && (s.status[e] == Runnable ==>
                  r.value.current[0] == Some(e) || Distance(r.value.current[0].value, e) < Distance(Origin(s), e))
  {
    hide Yield, Search, Ahead, Distance;
    var x := s.current[0].value;
    EnterInv(s, YieldCall(0));
    if s.status[x] == Dying {
      DropInv(s, 0, x);
      YieldFrom(Drop(s, 0, x), e);
    } else {
      YieldFrom(s, e);
    }
  }

  lemma YieldFrom(s: Sys, e: nat)
    requires Exclusive(s) && |s.current| == 1 && (s.current[0].Some? ==> s.status[s.current[0].value] == Running)
    requires CanRun(s, e)
    ensures var r := Yield(s, 0);
            && r.Some? && |r.value.current| == 1 && |r.value.status| == NENV && CanRun(r.value, e)
            && r.value.current[0].Some? && r.value.current[0].value < NENV && r.value.status[r.value.current[0].value] == Running
            && From(s.current[0]) < NENV
            && (s.status[e] == Runnable ==>
                  r.value.current[0] == Some(e) || Distance(r.value.current[0].value, e) < Distance(From(s.current[0]), e))
  {
    hide Yield, Search, Ahead, Distance, Exclusive;
    CurrentOnCpu(s, 0);
    YieldMeans(s, 0);
    if s.status[e] == Runnable {
      SearchCloser(s.status, From(s.current[0]), e);
      YieldPicks(s, 0);
    } else {
      OneCurrent(s, e);
    }
  }

  lemma YieldPicks(s: Sys, c: nat)
    requires Exclusive(s) && c < |s.current| && Search(s.status, From(s.current[c]), NENV).Some?
    ensures Yield(s, c).Some? ==> Yield(s, c).value.current[c] == Search(s.status, From(s.current[c]), NENV)
  {
    hide Search;
  }

  lemma OneCurrent(s: Sys, e: nat)
    requires Exclusive(s) && |s.current| == 1 && e < NENV && s.status[e] == Running
    ensures s.current[0] == Some(e)
  {
  }

  lemma {:induction false} AlwaysCanRun(s: Sys, e: nat, k: nat)
    requires Exclusive(s) && |s.current| == 1 && s.current[0].Some? && CanRun(s, e)
    ensures Yielded(s, k).Some? && CanRun(Yielded(s, k).value, e) && Exclusive(Yielded(s, k).value)
    ensures |Yielded(s, k).value.current| == 1 && Yielded(s, k).value.current[0].Some?
    decreases k
  {
    hide Enter, Exclusive;
    if k > 0 {
      OnlyShaped(s);
      YieldOnce(s, e);
      AlwaysCanRun(Enter(s, YieldCall(0)).value, e, k - 1);
    }
  }

  lemma OnlyShaped(s: Sys)
    requires Exclusive(s)
    ensures Shaped(s)
  {
  }

  lemma {:induction false} RunsWithin(s: Sys, e: nat) returns (k: nat)
    requires Exclusive(s) && |s.current| == 1 && s.current[0].Some? && CanRun(s, e)
    ensures Origin(s) < NENV && k <= Distance(Origin(s), e) <= NENV
    ensures Yielded(s, k).Some? && Yielded(s, k).value.current == [Some(e)]
    decreases Distance(Origin(s), e)
  {
    hide Enter, Distance, Exclusive;
    OnlyShaped(s);
    AheadDistance(Origin(s), e);
    if s.status[e] == Running {
      OneCurrent(s, e);
      k := 0;
    } else {
      YieldOnce(s, e);
      var s' := Enter(s, YieldCall(0)).value;
      if s'.current[0] == Some(e) {
        k := 1;
        assert Yielded(s', 0) == Some(s');
      } else {
        var n := RunsWithin(s', e);
        k := n + 1;
      }
    }
  }

  /** Round robin: with only yields, an environment that can run always can, and it runs within NENV of them. */
  lemma Fair(s: Sys, e: nat)
    requires Exclusive(s) && |s.current| == 1 && s.current[0].Some? && CanRun(s, e)
    ensures forall k: nat :: Yielded(s, k).Some? && CanRun(Yielded(s, k).value, e)
    ensures exists k: nat :: k <= NENV && Yielded(s, k).Some? && Yielded(s, k).value.current == [Some(e)]
  {
    hide Yielded, Exclusive, Distance;
    forall k: nat ensures Yielded(s, k).Some? && CanRun(Yielded(s, k).value, e) { AlwaysCanRun(s, e, k); }
    var k := RunsWithin(s, e);
  }

  lemma StaysRunning(s: Sys, c: nat, e: nat)
    requires Exclusive(s) && c < |s.current| && s.current[c] == Some(e) && s.status[e] == Running
    ensures RunOn(s, c, e) == Some(s)
  {
  }

  /** Switching to a runnable environment. */
  lemma SwitchInv(s: Sys, c: nat, e: nat)
    requires Exclusive(s) && c < |s.current| && e < NENV && s.status[e] == Runnable
    requires s.current[c].Some? ==> s.status[s.current[c].value] == Running
    ensures RunOn(s, c, e).Some? && Exclusive(RunOn(s, c, e).value)
  {
    var s' := Switch(s, c, e);
    forall x | 0 <= x < NENV && OnCpu(s'.status[x])
      ensures Some(x) in s'.current
    {
      if x == e {
        assert s'.current[c] == Some(x);
      } else {
        var d :| 0 <= d < |s.current| && s.current[d] == Some(x);
        assert d != c && s'.current[d] == Some(x);
      }
    }
  }

  lemma YieldInv(s: Sys, c: nat)
    requires Exclusive(s) && c < |s.current| && (s.current[c].Some? ==> s.status[s.current[c].value] == Running)
    ensures Yield(s, c).Some? && Exclusive(Yield(s, c).value)
  {
    hide Exclusive, Search, RunOn;
    CurrentOnCpu(s, c);
    SearchNearest(s.status, From(s.current[c]), NENV);
    var r := Search(s.status, From(s.current[c]), NENV);
    if r.Some? {
      SwitchInv(s, c, r.value);
    } else if s.current[c].Some? {
      StaysRunning(s, c, s.current[c].value);
    } else {
      assert s.current[c := None] == s.current;
    }
  }

  /** Freeing the current environment of c, or one that is current nowhere. */
  lemma DropInv(s: Sys, c: nat, e: nat)
    requires Exclusive(s) && c < |s.current| && e < NENV && (s.current[c] == Some(e) || !OnCpu(s.status[e]))
    ensures Exclusive(Drop(s, c, e))
  {
    var s' := Drop(s, c, e);
    forall x | 0 <= x < NENV && OnCpu(s'.status[x])
      ensures Some(x) in s'.current
    {
      var d :| 0 <= d < |s.current| && s.current[d] == Some(x);
      assert s'.current[d] == Some(x);
    }
  }

  lemma MarkInv(s: Sys, e: nat)
    requires Exclusive(s) && e < NENV && s.status[e] == Running
    ensures Exclusive(s.(status := s.status[e := Dying]))
  {
  }

  lemma NewInv(s: Sys, e: nat)
    requires Exclusive(s) && e < NENV && s.status[e] == Free
    ensures Exclusive(s.(status := s.status[e := Runnable]))
  {
  }

  /** Exactly when env_destroy keeps the processors apart: unless it frees an environment that is
      dying on another processor. */
  lemma DestroyIff(s: Sys, c: nat, e: nat)
    requires Exclusive(s) && c < |s.current| && e < NENV && s.status[e] != Free
    ensures Exclusive(Destroy(s, c, e)) <==> s.status[e] != Dying || s.current[c] == Some(e)
  {
    if s.status[e] == Running && s.current[c] != Some(e) {
      MarkInv(s, e);
    } else if !OnCpu(s.status[e]) || s.current[c] == Some(e) {
      DropInv(s, c, e);
    } else {
      var d :| 0 <= d < |s.current| && s.current[d] == Some(e);
      assert Destroy(s, c, e).current[d] == Some(e);
    }
  }

  /** Every kernel entry on every processor keeps the invariant, and env_run's assertion holds. */
  lemma EnterInv(s: Sys, en: Entry)
    requires Exclusive(s) && Enabled(s, en) && NotDying(s, en)
    ensures Enter(s, en).Some? && Exclusive(Enter(s, en).value)
  {
    hide Exclusive, Yield, RunOn;
    CurrentOnCpu(s, en.cpu);
    var c := en.cpu;
    if en.Wake? {
      YieldInv(s, c);
    } else if en.EnvCreate? {
      NewInv(s, en.e);
    } else {
      var e := s.current[c].value;
      if s.status[e] == Dying {
        DropInv(s, c, e);
        YieldInv(Drop(s, c, e), c);
      } else if en.DestroyCall? && en.e == e {
        DropInv(s, c, e);
        YieldInv(Drop(s, c, e), c);
      } else if en.DestroyCall? {
        DestroyIff(s, c, en.e);
        StaysRunning(Destroy(s, c, en.e), c, e);
      } else if en.NewEnv? {
        NewInv(s, en.e);
        StaysRunning(s.(status := s.status[en.e := Runnable]), c, e);
      } else {
        YieldInv(s, c);
        StaysRunning(s, c, e);
      }
    }
  }

  lemma CurrentOnCpu(s: Sys, c: nat)
    requires Exclusive(s) && c < |s.current|
    ensures Shaped(s) && (s.current[c].Some? ==> OnCpu(s.status[s.current[c].value]))
  {
  }

  /** A run of kernel entries. */
  ghost predicate Run(s: Sys, entries: seq<Entry>, s': Sys)
    decreases |entries|
  {
    if entries == [] then s' == s
    else
      Shaped(s) && Enabled(s, entries[0]) && NotDying(s, entries[0]) &&
      Enter(s, entries[0]).Some? && Run(Enter(s, entries[0]).value, entries[1..], s')
  }

  /** In every state of every run no environment is current on two processors. */
  lemma {:induction false} RunInv(s: Sys, entries: seq<Entry>, s': Sys)
    requires Exclusive(s) && Run(s, entries, s')
    ensures Exclusive(s')
    decreases |entries|
  {
    hide Exclusive, Enter;
    if entries != [] {
      EnterInv(s, entries[0]);
      RunInv(Enter(s, entries[0]).value, entries[1..], s');
    }
  }

  /** env_init has made every environment free, and no processor has a current one. */
  function Boot(cpus: nat): Sys { Sys(seq(NENV, i => Free), seq(cpus, i => None)) }

  /** So it holds in every state that is reached after boot. */
  lemma BootRuns(cpus: nat, entries: seq<Entry>, s: Sys)
    requires Run(Boot(cpus), entries, s)
    ensures Exclusive(s)
  {
    assert Exclusive(Boot(cpus));
    RunInv(Boot(cpus), entries, s);
  }

  /** Two processors, and what is in the first two slots. */
  function Pair(a: Status, b: Status, c: Option<nat>, d: Option<nat>): Sys {
    Sys(seq(NENV, i => if i == 0 then a else if i == 1 then b else Free), [c, d])
  }

  const STARTUP: seq<Entry> := [EnvCreate(0, 0), EnvCreate(0, 1), Wake(0), Wake(1)]

  /** As i386_init does it: two environments are created, each processor yields, and both run. */
  lemma BothRun()
    ensures Run(Boot(2), STARTUP, Pair(Running, Running, Some(1), Some(0)))
  {
    hide Enter, Enabled, NotDying, Run;
    BootSteps();
    var s1, s2 := Pair(Runnable, Free, None, None), Pair(Runnable, Runnable, None, None);
    var s3, s4 := Pair(Runnable, Running, Some(1), None), Pair(Running, Running, Some(1), Some(0));
    RunNone(s4);
    RunCons(s3, Wake(1), s4, [], s4);
    assert [Wake(1)] + [] == [Wake(1)];
    RunCons(s2, Wake(0), s3, [Wake(1)], s4);
    assert [Wake(0)] + [Wake(1)] == [Wake(0), Wake(1)];
    RunCons(s1, EnvCreate(0, 1), s2, [Wake(0), Wake(1)], s4);
    assert [EnvCreate(0, 1)] + [Wake(0), Wake(1)] == [EnvCreate(0, 1), Wake(0), Wake(1)];
    RunCons(Boot(2), EnvCreate(0, 0), s1, [EnvCreate(0, 1), Wake(0), Wake(1)], s4);
    assert [EnvCreate(0, 0)] + [EnvCreate(0, 1), Wake(0), Wake(1)] == STARTUP;
  }

  /** en leads from s to s'. */
  ghost predicate Leads(s: Sys, en: Entry, s': Sys) {
    Shaped(s) && Enabled(s, en) && NotDying(s, en) && Enter(s, en) == Some(s')
  }

  lemma RunNone(s: Sys)
    ensures Run(s, [], s)
  {
  }

  lemma RunCons(s: Sys, en: Entry, s1: Sys, rest: seq<Entry>, s': Sys)
    requires Leads(s, en, s1) && Run(s1, rest, s')
    ensures Run(s, [en] + rest, s')
  {
    hide Enter, Enabled, NotDying;
    assert ([en] + rest)[1..] == rest;
  }

  lemma BootSteps()
    ensures Leads(Boot(2), EnvCreate(0, 0), Pair(Runnable, Free, None, None))
    ensures Leads(Pair(Runnable, Free, None, None), EnvCreate(0, 1), Pair(Runnable, Runnable, None, None))
    ensures Leads(Pair(Runnable, Runnable, None, None), Wake(0), Pair(Runnable, Running, Some(1), None))
    ensures Leads(Pair(Runnable, Running, Some(1), None), Wake(1), Pair(Running, Running, Some(1), Some(0)))
  {
    hide Search;
    assert Boot(2).status[0 := Runnable] == Pair(Runnable, Free, None, None).status && Boot(2).current == [None, None];
    var s1, s2, s3 := Pair(Runnable, Free, None, None), Pair(Runnable, Runnable, None, None), Pair(Runnable, Running, Some(1), None);
    assert s1.status[1 := Runnable] == s2.status;
    SearchStep(s2.status, 0, NENV);
    assert s2.status[1 := Running] == s3.status && s2.current[0 := Some(1)] == s3.current;
    OnlyRunnable(s3.status, 0, 0);
    assert s3.status[0 := Running] == Pair(Running, Running, Some(1), Some(0)).status && s3.current[1 := Some(0)] == [Some(1), Some(0)];
  }

  lemma OnlyRunnable(status: seq<Status>, i: nat, j: nat)
    requires |status| == NENV && i < NENV && j < NENV && forall x :: 0 <= x < NENV ==> (status[x] == Runnable <==> x == j)
    ensures Search(status, i, NENV) == Some(j)
  {
    hide Ahead, Distance, Search;
    SearchNearest(status, i, NENV);
    AheadDistance(i, j);
  }

  /** Why each entry must be one step: two processors that search before either of them switches choose
      the same environment, and then both run it. */
  lemma WithoutLock()
    ensures var s := Sys(seq(NENV, i => if i < 2 then Running else if i == 2 then Runnable else Free), [Some(0), Some(1)]);
            && Exclusive(s) && Search(s.status, 0, NENV) == Some(2) && Search(s.status, 1, NENV) == Some(2)
            && RunOn(s, 0, 2).Some? && Shaped(RunOn(s, 0, 2).value) && RunOn(RunOn(s, 0, 2).value, 1, 2).Some?
            && RunOn(RunOn(s, 0, 2).value, 1, 2).value.current == [Some(2), Some(2)]
  {
    hide Search;
    var s := Sys(seq(NENV, i => if i < 2 then Running else if i == 2 then Runnable else Free), [Some(0), Some(1)]);
    assert s.current[0] == Some(0) && s.current[1] == Some(1);
    OnlyRunnable(s.status, 0, 2);
    OnlyRunnable(s.status, 1, 2);
  }

  /** Processor 0 runs environment 0, and environment 1 is dying on processor 1. */
  function Zombie(): Sys {
    Sys(seq(NENV, i => if i == 0 then Running else if i == 1 then Dying else Free), [Some(0), Some(1)])
  }

  /** The side condition is needed: environment 0 destroys the dying environment 1, makes a new one
      in its slot and yields, and slot 1 is current on both processors. */
  lemma DestroyedTwice()
    ensures Exclusive(Zombie()) && Enabled(Zombie(), DestroyCall(0, 1))
    ensures Enter(Zombie(), DestroyCall(0, 1)) == Some(Reused(Free))
    ensures Enabled(Reused(Free), NewEnv(0, 1)) && Enter(Reused(Free), NewEnv(0, 1)) == Some(Reused(Runnable))
    ensures Enabled(Reused(Runnable), YieldCall(0)) && Enter(Reused(Runnable), YieldCall(0)).Some?
    ensures Enter(Reused(Runnable), YieldCall(0)).value.current == [Some(1), Some(1)]
  {
    hide Enter;
    assert Zombie().current[0] == Some(0) && Zombie().current[1] == Some(1);
    ZombieFreed();
    SlotReused();
    RunTwice();
  }

  lemma ZombieFreed()
    ensures Enter(Zombie(), DestroyCall(0, 1)) == Some(Reused(Free))
  {
    hide Search;
    assert Zombie().status[1 := Free] == Reused(Free).status;
  }

  lemma SlotReused()
    ensures Enter(Reused(Free), NewEnv(0, 1)) == Some(Reused(Runnable))
  {
    hide Search;
    assert Reused(Free).status[1 := Runnable] == Reused(Runnable).status;
  }

  lemma RunTwice()
    ensures Enter(Reused(Runnable), YieldCall(0)).Some?
    ensures Enter(Reused(Runnable), YieldCall(0)).value.current == [Some(1), Some(1)]
  {
    hide Search;
    SearchStep(Reused(Runnable).status, 0, NENV);
  }

  function Reused(st: Status): Sys {
    Sys(seq(NENV, i => if i == 0 then Running else if i == 1 then st else Free), [Some(0), Some(1)])
  }

  // ---------------------------------------------------------------- the code

  class Machine {
    var status: seq<Status>
    var current: seq<Option<nat>>

    ghost function State(): Sys
      reads this
    {
      Sys(status, current)
    }

    method EnvRun(c: nat, e: nat) returns (ok: bool)
      requires Shaped(State()) && c < |current| && e < NENV
      modifies this
      ensures ok == RunOn(old(State()), c, e).Some?
      ensures ok ==> Some(State()) == RunOn(old(State()), c, e)
    {
      if current[c] != Some(e) {
        if current[c].Some? && status[current[c].value] == Running {
          status := status[current[c].value := Runnable];
        }
        current := current[c := Some(e)];
        status := status[e := Running];
      }
      ok := status[e] == Running;
    }

    /** sched_yield; monitor says that no environment is left to wait for. */
    method SchedYield(c: nat) returns (ok: bool, monitor: bool)
      requires Exclusive(State()) && c < |current|
      requires current[c].Some? ==> status[current[c].value] == Running
      modifies this
      ensures ok && Exclusive(State()) && Yield(old(State()), c) == Some(State())
      ensures monitor <==> forall e :: 0 <= e < NENV ==> status[e] == Free || status[e] == NotRunnable
    {
      hide Exclusive, Search, Yield;
      YieldInv(State(), c);
      CurrentOnCpu(State(), c);
      YieldIs(State(), c);
      monitor := false;
      var i: nat := if current[c].Some? then current[c].value else 0;
      var k := 0;
      ghost var goal := Search(status, i, NENV);
      while k < NENV
        invariant 0 <= k <= NENV && i < NENV && State() == old(State())
        invariant Search(status, i, NENV - k) == goal
      {
        SearchStep(status, i, NENV - k);
        i := (i + 1) % NENV;
        if status[i] == Runnable {
          ok := EnvRun(c, i);
          assert status[i] == Running;
          return;
        }
        k := k + 1;
      }
      SearchOver(status, i);
      if current[c].Some? && status[current[c].value] == Running {
        ghost var e := current[c].value;
        ok := EnvRun(c, current[c].value);
        assert status[e] == Running;
        return;
      }
      i := 0;
      while i < NENV && !(status[i] == Runnable || OnCpu(status[i]))
        invariant i <= NENV && forall e :: 0 <= e < i ==> status[e] == Free || status[e] == NotRunnable
      {
        i := i + 1;
      }
      monitor := i == NENV;
      current := current[c := None];
      ok := true;
    }
  }

  lemma YieldIs(s: Sys, c: nat)
    requires Shaped(s) && c < |s.current|
    ensures var r := Search(s.status, From(s.current[c]), NENV);
            Yield(s, c) == if r.Some? then RunOn(s, c, r.value)
              else if s.current[c].Some? && s.status[s.current[c].value] == Running then RunOn(s, c, s.current[c].value)
              else Some(s.(current := s.current[c := None]))
  {
  }

  lemma SearchStep(status: seq<Status>, i: nat, n: nat)
    requires |status| == NENV && i < NENV && n > 0
    ensures Search(status, i, n) ==
              if status[(i + 1) % NENV] == Runnable then Some((i + 1) % NENV) else Search(status, (i + 1) % NENV, n - 1)
  {
  }

  lemma SearchOver(status: seq<Status>, i: nat)
    requires |status| == NENV && i < NENV
    ensures Search(status, i, 0) == None
  {
  }
}
