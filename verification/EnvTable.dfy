/** kern/env.c: the table of environments, its free list and its generational ids. */
module EnvTable {
  import opened Wrappers
  import opened FreeList

  const NENV: nat := 1024
  const GENERATION: nat := 4096

  /** How many allocations of a slot use all its ids. */
  const PERIOD: nat := 0x7FFFF

  datatype Status = Free | Dying | Runnable | Running | NotRunnable

  datatype Envs = Envs(id: seq<int>, status: seq<Status>, parent: seq<int>, link: seq<Option<nat>>, head: Option<nat>)

  ghost predicate Shape(s: Envs) {
    |s.id| == NENV && |s.status| == NENV && |s.parent| == NENV && |s.link| == NENV
  }

  /** A slot's id: none yet, or a positive 31-bit number that ends in the slot's index. */
  ghost predicate IdOk(id: int, i: nat) {
    id == 0 || exists k :: 1 <= k <= PERIOD && id == Id(k, i)
  }

  function Id(k: int, i: nat): int { GENERATION * k + i }

  ghost predicate Inv(s: Envs, free: seq<nat>) {
    && Shape(s)
    && Chain(s.head, s.link, free)
    && (forall i :: 0 <= i < NENV ==> (i in free <==> s.status[i] == Free))
    && (forall i :: 0 <= i < NENV ==> IdOk(s.id[i], i) && (s.status[i] != Free ==> s.id[i] != 0))
  }

  // ---------------------------------------------------------------- ids

  /** Addition in a 32-bit int. */
  function Wrap32(x: int): int {
    if x >= 0x8000_0000 then x - 0x1_0000_0000 else x
  }

  /** The id that an allocation gives slot i after id. */
  function NextId(id: int, i: nat): int {
    var generation := Wrap32(id + GENERATION) / NENV * NENV;
    (if generation <= 0 then GENERATION else generation) + i
  }

  function Ids(id: int, i: nat, n: nat): int {
    if n == 0 then id else NextId(Ids(id, i, n - 1), i)
  }

  lemma NextGeneration(k: int, i: nat)
    requires 1 <= k <= PERIOD && i < NENV
    ensures NextId(Id(k, i), i) == Id(if k == PERIOD then 1 else k + 1, i)
  {
    var x := Wrap32(Id(k, i) + GENERATION);
    if k == PERIOD {
      assert x == i - 0x8000_0000;
    } else {
      assert x == GENERATION * (k + 1) + i;
      assert x / NENV == 4 * (k + 1);
    }
  }

  /** The id after n allocations. */
  lemma {:induction false} IdsAre(k: int, i: nat, n: nat)
    requires 1 <= k <= PERIOD && i < NENV
    ensures Ids(Id(k, i), i, n) == Id((k - 1 + n) % PERIOD + 1, i)
  {
    hide NextId, Id;
    if n > 0 {
      IdsAre(k, i, n - 1);
      NextGeneration((k - 1 + n - 1) % PERIOD + 1, i);
      Successor(k - 1 + n - 1);
    } else {
      assert (k - 1) % PERIOD == k - 1;
    }
  }

  lemma Successor(x: nat)
    ensures (x + 1) % PERIOD == if x % PERIOD == PERIOD - 1 then 0 else x % PERIOD + 1
  {
  }

  /** An id comes back exactly after every whole period. */
  lemma IdComesBack(k: int, i: nat, n: nat)
    requires 1 <= k <= PERIOD && i < NENV
    ensures Ids(Id(k, i), i, n) == Id(k, i) <==> n % PERIOD == 0
  {
    hide Ids;
    IdsAre(k, i, n);
    SameResidue(k - 1, n);
  }

  lemma SameResidue(x: nat, n: nat)
    requires x < PERIOD
    ensures (x + n) % PERIOD == x <==> n % PERIOD == 0
  {
    var r := n % PERIOD;
    assert n == PERIOD * (n / PERIOD) + r;
    assert (x + n) % PERIOD == if x + r < PERIOD then x + r else x + r - PERIOD;
  }

  lemma NextIdOk(id: int, i: nat)
    requires IdOk(id, i) && i < NENV
    ensures IdOk(NextId(id, i), i) && NextId(id, i) > 0
  {
    if id == 0 {
      assert NextId(id, i) == Id(1, i);
    } else {
      var k :| 1 <= k <= PERIOD && id == Id(k, i);
      NextGeneration(k, i);
    }
  }

  /** The index of an id is its slot, so live ids are distinct. */
  lemma LiveIdsDistinct(s: Envs, free: seq<nat>, i: nat, j: nat)
    requires Inv(s, free) && i < NENV && j < NENV && s.status[i] != Free && s.status[j] != Free
    ensures s.id[i] % NENV == i && (s.id[i] == s.id[j] ==> i == j)
  {
    IndexOf(s.id[i], i);
    IndexOf(s.id[j], j);
  }

  lemma IndexOf(id: int, i: nat)
    requires IdOk(id, i) && id != 0 && i < NENV
    ensures id % NENV == i && id > 0
  {
    var k :| 1 <= k <= PERIOD && id == Id(k, i);
    IndexPart(4 * k, i);
  }

  lemma IndexPart(k: nat, i: nat)
    requires i < NENV
    ensures (NENV * k + i) % NENV == i
  {
  }

  // ---------------------------------------------------------------- operations

  datatype Allocated = NoFreeEnv | NoMem | New(slot: nat)

  /** env_alloc, where memory says whether env_setup_vm succeeds. */
  function Alloc(s: Envs, parent: int, memory: bool): (Envs, Allocated)
    requires Shape(s) && (s.head.Some? ==> s.head.value < NENV)
  {
    if s.head == None then (s, NoFreeEnv)
    else if !memory then (s, NoMem)
    else
      var e := s.head.value;
      (Envs(s.id[e := NextId(s.id[e], e)], s.status[e := Runnable], s.parent[e := parent], s.link, s.link[e]), New(e))
  }

  /** The end of env_free. */
  function Release(s: Envs, i: nat): Envs
    requires Shape(s) && i < NENV
  {
    s.(status := s.status[i := Free], link := s.link[i := s.head], head := Some(i))
  }

  datatype Lookup = Found(slot: Option<nat>) | BadEnv | NullDereference

  /** envid2env. */
  function Find(s: Envs, current: Option<nat>, envid: int, checkPerm: bool): Lookup
    requires Shape(s) && (current.Some? ==> current.value < NENV)
  {
    if envid == 0 then Found(current)
    else
      var e := envid % NENV;
      if s.status[e] == Free || s.id[e] != envid then BadEnv
      else if checkPerm && current != Some(e) then
        if current == None then NullDereference
        else if s.parent[e] != s.id[current.value] then BadEnv
        else Found(Some(e))
      else Found(Some(e))
  }

  /** Id zero finds the current environment.  For any other id the lookup finds a slot exactly if it is live,
      has that id and, where asked, is the caller or a child of the caller. */
  lemma FindExact(s: Envs, free: seq<nat>, current: Option<nat>, envid: int, checkPerm: bool, i: nat)
    requires Inv(s, free) && (current.Some? ==> current.value < NENV) && i < NENV
    requires checkPerm ==> current.Some?
    ensures envid == 0 ==> Find(s, current, envid, checkPerm) == Found(current)
    ensures envid != 0 ==>
              (Find(s, current, envid, checkPerm) == Found(Some(i)) <==>
                 && s.status[i] != Free && s.id[i] == envid
                 && (checkPerm ==> current == Some(i) || s.parent[i] == s.id[current.value]))
    ensures envid != 0 && Find(s, current, envid, checkPerm).Found? ==> envid > 0
  {
    if s.status[i] != Free { IndexOf(s.id[i], i); }
    var e := envid % NENV;
    if s.status[e] != Free { IndexOf(s.id[e], e); }
  }

  lemma PopKeeping(head: Option<nat>, link: seq<Option<nat>>, xs: seq<nat>)
    requires Chain(head, link, xs) && |xs| > 0
    ensures Chain(link[xs[0]], link, xs[1..]) && xs[0] !in xs[1..] && xs == [xs[0]] + xs[1..]
  {
    var ys := xs[1..];
    forall i | 0 <= i < |ys|
      ensures ys[i] < |link| && link[ys[i]] == Next(ys, i)
    {
      hide Chain;
      assert ys[i] == xs[i + 1];
      InLink(head, link, xs, i + 1);
      LinkAt(head, link, xs, i + 1);
    }
    LinkAt(head, link, xs, 0);
  }

  lemma InLink(head: Option<nat>, link: seq<Option<nat>>, xs: seq<nat>, i: nat)
    requires Chain(head, link, xs) && i < |xs|
    ensures xs[i] < |link|
  {
  }

  /** Slot e is a new runnable environment with that parent; no other slot has changed. */
  ghost predicate Started(s: Envs, s': Envs, e: nat, parent: int) {
    && Shape(s) && Shape(s') && e < NENV && s'.status[e] == Runnable && s'.parent[e] == parent
    && forall i :: 0 <= i < NENV && i != e ==> s'.status[i] == s.status[i] && s'.id[i] == s.id[i] && s'.parent[i] == s.parent[i]
  }

  /** An allocation takes the head of the list; a failed one changes nothing. */
  lemma AllocInv(s: Envs, free: seq<nat>, parent: int, memory: bool)
    requires Inv(s, free)
    ensures var (s', r) := Alloc(s, parent, memory);
            && (free == [] <==> r == NoFreeEnv)
            && (free != [] ==> r == if memory then New(free[0]) else NoMem)
            && (r.New? ==> Inv(s', free[1..]) && Started(s, s', free[0], parent))
            && (!r.New? ==> s' == s)
  {
    hide IdOk, NextId;
    if free != [] && memory {
      var s' := Alloc(s, parent, memory).0;
      PopKeeping(s.head, s.link, free);
      NextIdOk(s.id[free[0]], free[0]);
      forall i | 0 <= i < NENV
        ensures i in free[1..] <==> s'.status[i] == Free
      {
        assert i in free <==> i == free[0] || i in free[1..];
      }
    }
  }

  /** The caller finds its new child by id even when permission is checked, and every environment that
      was live is found, or refused, as before. */
  lemma NewEnvFound(s: Envs, free: seq<nat>, cur: nat, j: nat, checkPerm: bool)
    requires Inv(s, free) && free != [] && cur < NENV && s.status[cur] != Free && j < NENV && s.status[j] != Free
    ensures var (s', r) := Alloc(s, s.id[cur], true);
            && r == New(free[0])
            && Find(s', Some(cur), s'.id[free[0]], true) == Found(Some(free[0]))
            && Find(s', Some(cur), s.id[j], checkPerm) == Find(s, Some(cur), s.id[j], checkPerm)
  {
    hide Chain, NextId;
    AllocInv(s, free, s.id[cur], true);
    HeadOk(s, free);
    NextIdOk(s.id[free[0]], free[0]);
    IndexOf(NextId(s.id[free[0]], free[0]), free[0]);
    IndexOf(s.id[j], j);
    assert free[0] in free;
  }

  lemma ReleaseInv(s: Envs, free: seq<nat>, i: nat)
    requires Inv(s, free) && i < NENV && s.status[i] != Free
    ensures Inv(Release(s, i), [i] + free)
    ensures var s' := Release(s, i);
            s'.id == s.id && s'.parent == s.parent && forall j :: 0 <= j < NENV && j != i ==> s'.status[j] == s.status[j]
  {
    hide IdOk;
    Push(s.head, s.link, free, i);
  }

  // ---------------------------------------------------------------- runs

  /** StatusOp is any change of status by the scheduler or by env_destroy that frees nothing. */
  datatype Op = AllocOp(parent: int, memory: bool) | FreeOp(slot: nat) | StatusOp(slot: nat, status: Status)

  ghost predicate Legal(s: Envs, op: Op) {
    && (op.FreeOp? || op.StatusOp? ==> op.slot < |s.status| && s.status[op.slot] != Free)
    && (op.StatusOp? ==> op.status != Free)
  }

  function Step(s: Envs, op: Op): Envs
    requires Shape(s) && (s.head.Some? ==> s.head.value < NENV) && Legal(s, op)
  {
    match op
    case AllocOp(parent, memory) => Alloc(s, parent, memory).0
    case FreeOp(i) => Release(s, i)
    case StatusOp(i, status) => s.(status := s.status[i := status])
  }

  function StepFree(free: seq<nat>, op: Op): seq<nat> {
    if op.FreeOp? then [op.slot] + free
    else if op.AllocOp? && op.memory && free != [] then free[1..]
    else free
  }

  lemma StepInv(s: Envs, free: seq<nat>, op: Op)
    requires Inv(s, free) && Legal(s, op)
    ensures Inv(Step(s, op), StepFree(free, op))
  {
    hide Alloc, Release, Chain, IdOk;
    HeadOk(s, free);
    if op.AllocOp? { AllocInv(s, free, op.parent, op.memory); } else if op.FreeOp? { ReleaseInv(s, free, op.slot); }
  }

  lemma HeadOk(s: Envs, free: seq<nat>)
    requires Inv(s, free)
    ensures Shape(s) && s.head == (if free == [] then None else Some(free[0])) && (s.head.Some? ==> s.head.value < NENV)
  {
  }

  /** A run: the states, one after each operation. */
  ghost predicate Run(s: Envs, free: seq<nat>, ops: seq<Op>, s': Envs, free': seq<nat>)
    requires Inv(s, free)
    decreases |ops|
  {
    if ops == [] then s' == s && free' == free
    else
      Legal(s, ops[0]) &&
      (HeadOk(s, free); StepInv(s, free, ops[0]);
       Run(Step(s, ops[0]), StepFree(free, ops[0]), ops[1..], s', free'))
  }

  /** How often the run allocates slot i. */
  ghost function Uses(free: seq<nat>, ops: seq<Op>, i: nat): nat
    decreases |ops|
  {
    if ops == [] then 0
    else (if ops[0].AllocOp? && ops[0].memory && free != [] && free[0] == i then 1 else 0) +
         Uses(StepFree(free, ops[0]), ops[1..], i)
  }

  lemma {:induction false} IdsFrom(id: int, i: nat, n: nat)
    ensures Ids(NextId(id, i), i, n) == Ids(id, i, n + 1)
  {
    if n > 0 { IdsFrom(id, i, n - 1); }
  }

  /** Over every run the table stays well formed, and a slot's id depends only on how often the slot
      was allocated. */
  lemma {:induction false} RunIds(s: Envs, free: seq<nat>, ops: seq<Op>, s': Envs, free': seq<nat>, i: nat)
    requires Inv(s, free) && Run(s, free, ops, s', free') && i < NENV
    ensures Inv(s', free') && s'.id[i] == Ids(s.id[i], i, Uses(free, ops, i))
    decreases |ops|
  {
    hide Inv, NextId;
    HeadOk(s, free);
    if ops != [] {
      StepInv(s, free, ops[0]);
      var n := Uses(StepFree(free, ops[0]), ops[1..], i);
      RunIds(Step(s, ops[0]), StepFree(free, ops[0]), ops[1..], s', free', i);
      IdsFrom(s.id[i], i, n);
    }
  }

  /** Whatever happens to a live environment and its slot, its id is accepted again exactly if the
      slot is live and has been allocated a multiple of 2^19 - 1 times since. */
  lemma StaleIdIff(s: Envs, free: seq<nat>, ops: seq<Op>, s': Envs, free': seq<nat>, i: nat, current: Option<nat>)
    requires Inv(s, free) && Run(s, free, ops, s', free') && i < NENV && s.status[i] != Free
    requires current.Some? ==> current.value < NENV
    ensures Inv(s', free')
    ensures Find(s', current, s.id[i], false) == (
              if s'.status[i] != Free && Uses(free, ops, i) % PERIOD == 0 then Found(Some(i)) else BadEnv)
  {
    hide Ids, NextId, Run, Uses, Chain;
    RunIds(s, free, ops, s', free', i);
    var k :| 1 <= k <= PERIOD && s.id[i] == Id(k, i);
    IdComesBack(k, i, Uses(free, ops, i));
    IndexOf(s.id[i], i);
  }

  // ---------------------------------------------------------------- the code

  class EnvArray {
    var envs: Envs
    ghost var free: seq<nat>

    ghost predicate Valid()
      reads this
    {
      Inv(envs, free)
    }

    /** env_init on a zeroed table: every slot is free, in the order of the array. */
    constructor ()
      ensures Valid() && free == seq(NENV, i => i) && forall i :: 0 <= i < NENV ==> envs.id[i] == 0
    {
      var zero := seq(NENV, i => 0);
      var status, link := seq(NENV, i => NotRunnable), seq(NENV, i => None);
      var i := 0;
      while i < NENV
        invariant i <= NENV == |status| == |link|
        invariant forall j :: 0 <= j < i ==> status[j] == Free && link[j] == Some(j + 1)
      {
        status, link := status[i := Free], link[i := Some(i + 1)];
        i := i + 1;
      }
      link := link[NENV - 1 := None];
      envs := Envs(zero, status, zero, link, Some(0));
      free := seq(NENV, i => i);
      new;
      forall i | 0 <= i < NENV ensures i in free {
        assert free[i] == i;
      }
    }

    method EnvAlloc(parent: int, memory: bool) returns (r: Allocated)
      requires Valid()
      modifies this
      ensures Valid() && (envs, r) == Alloc(old(envs), parent, memory)
      ensures r == if old(free) == [] then NoFreeEnv else if memory then New(old(free)[0]) else NoMem
      ensures r.New? ==> free == old(free)[1..]
      ensures !r.New? ==> envs == old(envs) && free == old(free)
    {
      HeadOk(envs, free);
      AllocInv(envs, free, parent, memory);
      if envs.head == None { return NoFreeEnv; }
      if !memory { return NoMem; }
      var e := envs.head.value;
      var generation := Wrap32(envs.id[e] + GENERATION) / NENV * NENV;
      if generation <= 0 { generation := GENERATION; }
      envs := envs.(id := envs.id[e := generation + e], parent := envs.parent[e := parent], status := envs.status[e := Runnable]);
      envs := envs.(head := envs.link[e]);
      free := free[1..];
      r := New(e);
    }

    method EnvFree(i: nat)
      requires Valid() && i < NENV && envs.status[i] != Free
      modifies this
      ensures Valid() && envs == Release(old(envs), i) && free == [i] + old(free)
    {
      ReleaseInv(envs, free, i);
      envs := envs.(status := envs.status[i := Free]);
      envs := envs.(link := envs.link[i := envs.head], head := Some(i));
      free := [i] + free;
    }
  }
}
