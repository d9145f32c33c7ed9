/** What a creating walk may do to physical memory, as relations between the state before
    and the state after. */
module WalkOps {
  import opened Wrappers
  import opened FreeList
  import opened Mmu
  import opened PhysMem
  import opened TableOps

  /** The table a walk from table t of level k reaches for va. */
  function WalkFrom(m: seq<Page>, t: nat, k: nat, va: VPage): Option<nat>
    requires 2 <= k <= 4
  {
    if k == 2 then Step(m, Some(t), va.d)
    else if k == 3 then Step(m, Step(m, Some(t), va.p), va.d)
    else LeafTable(m, t, va)
  }

  /** How many tables are missing on the way. */
  function Missing(m: seq<Page>, t: nat, k: nat, va: VPage): nat
    requires 2 <= k <= 4
    decreases k
  {
    var o := Step(m, Some(t), Index(k, va));
    if o == None then k - 1 else if k == 2 then 0 else Missing(m, o.value, k - 1, va)
  }

  function Index(k: nat, va: VPage): nat {
    if k == 2 then va.d else if k == 3 then va.p else va.m
  }

  lemma WalkStep(m: seq<Page>, t: nat, k: nat, va: VPage)
    requires 3 <= k <= 4
    ensures var o := Step(m, Some(t), Index(k, va));
            WalkFrom(m, t, k, va) == if o.Some? then WalkFrom(m, o.value, k - 1, va) else None
  {
  }

  /** t is a live table of level k whose entry for va is counted. */
  ghost predicate Walkable(s: State, t: nat, k: nat, va: VPage) {
    2 <= k <= 4 && t in s.level && s.level[t] == k && (k == 4 ==> UserVa(va))
  }

  lemma WalkableStep(s: State, t: nat, k: nat, va: VPage)
    requires Inv(s) && Walkable(s, t, k, va)
    ensures var o := Step(s.mem, Some(t), Index(k, va));
            if o.Some? then Edge(s, t, Index(k, va)) && Target(s, t, Index(k, va)) == o.value && o.value in s.level
                            && s.level[o.value] == k - 1 && (k > 2 ==> Walkable(s, o.value, k - 1, va))
            else !Edge(s, t, Index(k, va))
  {
  }

  // ---------------------------------------------------------------- a walk that failed

  /** Pages that are neither free nor live tables keep their contents, and so do the
      shared slots of every root. */
  ghost predicate SameData(s: State, s': State) {
    && |s'.mem| == |s.mem|
    && (forall p :: 0 <= p < |s.mem| && p !in s.free && p !in s.level ==> s'.mem[p] == s.mem[p])
    && (forall p: nat, i: nat :: IsRoot(s, p) && i in SHARED && p < |s.mem| && i < |s.mem[p]| && i < |s'.mem[p]|
          ==> s'.mem[p][i] == s.mem[p][i])
  }

  /** Nothing a caller can observe has changed: counts, links, the free list and its order, the
      live tables and every present entry, and every page that is neither free nor a table. */
  ghost predicate Kept(s: State, s': State) {
    s' == s.(mem := s'.mem) && ListOk(s') && SameLeaves(s, s') && SameData(s, s')
  }

  lemma KeptInv(s: State, s': State)
    requires Inv(s) && Kept(s, s')
    ensures Inv(s') && View(s') == View(s) && s' == s.(mem := s'.mem)
  {
    hide Inv, View, ListOk, SameData, SameEdges;
    SameEdgesInv(s, s');
    SameLeavesView(s, s');
  }

  lemma KeptRefl(s: State)
    requires Inv(s)
    ensures Kept(s, s)
  {
  }

  lemma UnlinkReady(s: State, t: nat, i: nat, s2: State)
    requires CanLink(s, t, i) && t != s.free[0] && Kept(NewTable(s, t, i), s2)
    ensures t < |s2.mem| && i < |s2.mem[t]| && s.free[0] < |s2.ref| && ListOk(WriteEntry(s2, t, i, ZERO))
  {
  }

  /** Undoing the link of a new table after the walk below it failed. */
  lemma RollbackKept(s: State, t: nat, i: nat, s2: State)
    requires CanLink(s, t, i) && t != s.free[0] && Kept(NewTable(s, t, i), s2)
    ensures t < |s2.mem| && |s2.mem[t]| == 512 && Kept(s, s.(mem := WriteEntry(s2, t, i, ZERO).mem))
  {
    NewTableEdges(s, t, i);
    var s1 := NewTable(s, t, i);
    var s3 := s.(mem := WriteEntry(s2, t, i, ZERO).mem);
    RollbackEdges(s, s1, s2, s3, t, i);
    RollbackData(s, t, i, s2);
    assert ListOk(s3);
  }

  lemma RollbackData(s: State, t: nat, i: nat, s2: State)
    requires Shape(s) && Shape(s2) && |s.free| > 0 && s.free[0] < |s.ref| && s.free[0] !in s.level
    requires t in s.level && t < |s.ref| && s.level[t] > 1 && i < 512 && (s.level[t] == 4 ==> i !in SHARED)
    requires SameData(NewTable(s, t, i), s2)
    ensures SameData(s, s.(mem := WriteEntry(s2, t, i, ZERO).mem))
  {
    var s1 := NewTable(s, t, i);
    var s3 := s.(mem := WriteEntry(s2, t, i, ZERO).mem);
    forall p | 0 <= p < |s.mem| && p !in s.free && p !in s.level ensures s3.mem[p] == s.mem[p] {
      assert p !in s1.free && p !in s1.level;
    }
    forall p: nat, j: nat | IsRoot(s, p) && j in SHARED && p < |s.mem| && j < |s.mem[p]|
      ensures s3.mem[p][j] == s.mem[p][j]
    {
      assert IsRoot(s1, p) && s1.mem[p][j] == s.mem[p][j];
    }
  }

  lemma RollbackEdges(s: State, s1: State, s2: State, s3: State, t: nat, i: nat)
    requires Shape(s) && Shape(s2) && |s2.mem| == |s.mem| && t in s.level && t < |s.mem| && i < 512 && s.level[t] > 1
    requires AddsEdge(s, s1, t, i) && SameLeaves(s1, s2) && s3 == s.(mem := WriteEntry(s2, t, i, ZERO).mem)
    requires forall u :: u in s.level ==> u in s1.level && s1.level[u] == s.level[u]
    ensures SameLeaves(s, s3)
  {
    forall u: nat, j: nat ensures Edge(s, u, j) <==> Edge(s3, u, j) {
      assert Edge(s1, u, j) <==> Edge(s2, u, j);
      assert Edge(s1, u, j) <==> Edge(s, u, j) || (u == t && j == i);
    }
    forall u: nat, j: nat | Edge(s, u, j)
      ensures Target(s3, u, j) == Target(s, u, j) && (s.level[u] == 1 ==> s3.mem[u][j] == s.mem[u][j])
    {
      assert Edge(s1, u, j) && s1.mem[u][j] == s.mem[u][j];
    }
  }

  // ---------------------------------------------------------------- a walk that succeeded

  ghost predicate GrownRefs(s: State, s': State, n: nat) {
    && n <= |s.free| && s'.free == s.free[n..] && s'.holds == s.holds && |s'.ref| == |s.ref|
    && (forall f :: 0 <= f < |s.ref| ==> s'.ref[f] == if f in s.free[..n] then 1 else s.ref[f])
  }

  ghost predicate GrownLevels(s: State, s': State, n: nat) {
    && n <= |s.free|
    && (forall u :: u in s.level ==> u in s'.level && s'.level[u] == s.level[u])
    && (forall u :: u in s'.level ==> u in s.level || (u in s.free[..n] && s'.level[u] < 4))
    && (forall u :: u in s.free[..n] ==> u in s'.level)
  }

  ghost predicate GrownMem(s: State, s': State) {
    forall u, j :: u in s.level && u < |s.mem| && u < |s'.mem| && 0 <= j < |s.mem[u]| && j < |s'.mem[u]| ==>
      s'.mem[u][j] == s.mem[u][j] || (!Edge(s, u, j) && Edge(s', u, j) && s.level[u] > 1)
  }

  /** n pages from the front of the free list have become tables; nothing else has changed. */
  ghost predicate Grown(s: State, s': State, n: nat) {
    GrownRefs(s, s', n) && GrownLevels(s, s', n) && GrownMem(s, s') && SameData(s, s')
  }

  lemma GrownRefl(s: State)
    requires Inv(s)
    ensures Grown(s, s, 0)
  {
  }

  lemma NewTableGrown(s: State, t: nat, i: nat)
    requires CanLink(s, t, i) && t != s.free[0] && s.free[0] < |s.ref| && s.free[0] !in s.level
    ensures Grown(s, NewTable(s, t, i), 1)
  {
    NewTableEdges(s, t, i);
    GrownByOne(s, t, i);
  }

  lemma GrownByOne(s: State, t: nat, i: nat)
    requires Shape(s) && |s.free| > 0 && s.free[0] < |s.ref| && s.free[0] !in s.level
    requires t in s.level && t < |s.ref| && 1 < s.level[t] <= 4 && i < 512 && (s.level[t] == 4 ==> i !in SHARED)
    requires AddsEdge(s, NewTable(s, t, i), t, i)
    ensures Grown(s, NewTable(s, t, i), 1)
  {
    assert s.free[..1] == [s.free[0]];
    var s' := NewTable(s, t, i);
    assert GrownMem(s, s');
    assert SameData(s, s');
  }

  lemma GrownTrans(a: State, b: State, c: State, m: nat, n: nat)
    requires ListOk(a) && ListOk(b) && ListOk(c) && Grown(a, b, m) && Grown(b, c, n)
    ensures Grown(a, c, m + n)
  {
    TakenTogether(a, b, m, n);
    GrownMemTrans(a, b, c, m, n);
    assert GrownRefs(a, c, m + n) by {
      assert c.free == a.free[m + n..];
    }
  }

  lemma TakenTogether(a: State, b: State, m: nat, n: nat)
    requires m <= |a.free| && b.free == a.free[m..] && n <= |b.free|
    ensures m + n <= |a.free| && forall x :: x in a.free[..m + n] <==> x in a.free[..m] || x in b.free[..n]
    ensures forall x :: x in b.free ==> x in a.free
  {
    assert a.free[..m + n] == a.free[..m] + b.free[..n];
  }

  lemma GrownMemTrans(a: State, b: State, c: State, m: nat, n: nat)
    requires Shape(a) && Shape(b) && Shape(c) && Grown(a, b, m) && Grown(b, c, n)
    ensures GrownMem(a, c) && SameData(a, c)
  {
    assert forall x :: x in b.free ==> x in a.free;
    assert forall x :: x in a.free[..m] ==> x in a.free;
    forall u, j | u in a.level && u < |a.mem| && u < |c.mem| && 0 <= j < |a.mem[u]| && j < |c.mem[u]|
      ensures c.mem[u][j] == a.mem[u][j] || (!Edge(a, u, j) && Edge(c, u, j) && a.level[u] > 1)
    {
      assert u in b.level && b.level[u] == a.level[u];
      if b.mem[u][j] == a.mem[u][j] {
        assert Edge(b, u, j) <==> Edge(a, u, j);
      }
    }
  }

  /** Present entries survive a successful walk. */
  lemma GrownEdge(s: State, s': State, n: nat, u: nat, j: nat)
    requires Shape(s) && Shape(s') && Grown(s, s', n) && Edge(s, u, j)
    ensures Edge(s', u, j) && s'.mem[u][j] == s.mem[u][j]
  {
  }

  /** The pages taken are live tables, and a page the caller holds is not among them. */
  lemma GrownNew(s: State, s': State, n: nat, pp: nat)
    requires Grown(s, s', n) && pp !in s.level && pp !in s.free && pp < |s.ref|
    ensures pp !in s'.level && pp !in s'.free && s'.ref[pp] == s.ref[pp]
    ensures forall r :: IsRoot(s, r) ==> IsRoot(s', r)
    ensures forall f :: f in s.free[..n] ==> f in s'.level
  {
    assert forall f :: f in s.free[..n] ==> f in s.free;
    assert forall f :: f in s.free[n..] ==> f in s.free;
  }

  // ---------------------------------------------------------------- the contract of the three walks

  /** What the walk from table t of level k for va does, and what it returns.  Without create it
      only reads.  With create it succeeds exactly when the free list covers the missing tables;
      otherwise it is a no-op. */
  ghost predicate Walked(s: State, s': State, t: nat, k: nat, va: VPage, create: bool, pt: Option<nat>)
    requires 2 <= k <= 4
  {
    if !create then s' == s && pt == WalkFrom(s.mem, t, k, va)
    else if Missing(s.mem, t, k, va) <= |s.free| then
      pt.Some? && pt == WalkFrom(s'.mem, t, k, va) && Inv(s') && View(s') == View(s) && Grown(s, s', Missing(s.mem, t, k, va))
    else pt == None && Kept(s, s')
  }

  lemma WalkedPresent(s: State, s': State, t: nat, k: nat, va: VPage, create: bool, pt: Option<nat>)
    requires Inv(s) && Walkable(s, t, k, va) && k > 2 && Edge(s, t, Index(k, va))
    requires Walked(s, s', Target(s, t, Index(k, va)), k - 1, va, create, pt)
    ensures Walked(s, s', t, k, va, create, pt)
  {
    hide Inv, View, ListOk, Kept;
    InvList(s);
    WalkableStep(s, t, k, va);
    var n := Missing(s.mem, t, k, va);
    if create && n <= |s.free| { InvShape(s'); InvShape(s); GrownEdge(s, s', n, t, Index(k, va)); }
    WalkStep(s.mem, t, k, va);
    WalkStep(s'.mem, t, k, va);
  }

  lemma MissingNew(s: State, t: nat, k: nat, va: VPage)
    requires CanLink(s, t, Index(k, va)) && Walkable(s, t, k, va) && k > 2 && t != s.free[0]
    ensures Missing(s.mem, t, k, va) == k - 1
    ensures Missing(NewTable(s, t, Index(k, va)).mem, s.free[0], k - 1, va) == k - 2
    ensures NewTable(s, t, Index(k, va)).free == s.free[1..]
  {
  }

  lemma WalkedNew(s: State, s': State, t: nat, k: nat, va: VPage, pt: Option<nat>)
    requires CanLink(s, t, Index(k, va)) && Walkable(s, t, k, va) && k > 2 && t != s.free[0]
    requires Walked(NewTable(s, t, Index(k, va)), s', s.free[0], k - 1, va, true, pt) && pt.Some?
    ensures Walked(s, s', t, k, va, true, pt)
  {
    MissingNew(s, t, k, va);
    NewTableView(s, t, Index(k, va));
    NewTableChain(s, s', t, Index(k, va), k - 2);
    WalkStep(s'.mem, t, k, va);
  }

  lemma NewTableChain(s: State, s': State, t: nat, i: nat, n: nat)
    requires CanLink(s, t, i) && t != s.free[0] && Grown(NewTable(s, t, i), s', n) && Inv(s')
    ensures Grown(s, s', n + 1) && Step(s'.mem, Some(t), i) == Some(s.free[0])
  {
    var s1 := NewTable(s, t, i);
    NewTableInv(s, t, i);
    NewTableGrown(s, t, i);
    NewTableEdges(s, t, i);
    GrownTrans(s, s1, s', 1, n);
    GrownEdge(s1, s', n, t, i);
  }
}
