/** kern/env.c, env_setup_vm and env_free: how an address space comes and goes. */
module EnvSpace {
  import opened Wrappers
  import opened FreeList
  import opened Mmu
  import opened PhysMem
  import opened TableOps
  import opened WalkOps
  import opened Reclaim
  import opened PmapCode

  /** Every address space but root's translates as before, and no root is added. */
  ghost predicate OthersSame(s: State, s': State, root: nat) {
    forall r: nat, v: VPage :: r != root ==> Translate(s', r, v) == Translate(s, r, v)
  }

  /** Walks that pass through table t start at root. */
  ghost predicate Owned(s: State, root: nat, t: nat) {
    forall r: nat, v: VPage :: IsRoot(s, r) && UserVa(v) &&
      (r == t || Step(s.mem, Some(r), v.m) == Some(t) || Step(s.mem, Step(s.mem, Some(r), v.m), v.p) == Some(t))
      ==> r == root
  }

  lemma OwnedRoot(s: State, root: nat)
    requires Inv(s) && IsRoot(s, root)
    ensures Owned(s, root, root)
  {
    hide Inv;
    forall r: nat, v: VPage | IsRoot(s, r) && UserVa(v)
      ensures Step(s.mem, Some(r), v.m) != Some(root) && Step(s.mem, Step(s.mem, Some(r), v.m), v.p) != Some(root)
    {
      PathLevels(s, r, v);
    }
  }

  lemma OwnedPdpt(s: State, root: nat, m: nat)
    requires Inv(s) && IsRoot(s, root) && Edge(s, root, m)
    ensures Owned(s, root, Target(s, root, m))
  {
    hide CountOk, Chain, ListOk;
    var t := Target(s, root, m);
    forall r: nat, v: VPage | IsRoot(s, r) && UserVa(v) &&
      (r == t || Step(s.mem, Some(r), v.m) == Some(t) || Step(s.mem, Step(s.mem, Some(r), v.m), v.p) == Some(t))
      ensures r == root
    {
      PathLevels(s, r, v);
    }
  }

  lemma OwnedPgdir(s: State, root: nat, m: nat, i: nat)
    requires Inv(s) && IsRoot(s, root) && Edge(s, root, m) && Edge(s, Target(s, root, m), i)
    ensures Owned(s, root, Target(s, Target(s, root, m), i))
  {
    hide CountOk, Chain, ListOk;
    var t := Target(s, Target(s, root, m), i);
    forall r: nat, v: VPage | IsRoot(s, r) && UserVa(v) &&
      (r == t || Step(s.mem, Some(r), v.m) == Some(t) || Step(s.mem, Step(s.mem, Some(r), v.m), v.p) == Some(t))
      ensures r == root
    {
      PathLevels(s, r, v);
    }
  }

  // ---------------------------------------------------------------- dropping one table

  ghost function Dropped(s: State, t: nat, i: nat): (s': State)
    requires Inv(s) && Edge(s, t, i) && s.level[t] > 1
  {
    EdgeToHoldInv(s, t, i);
    var p := Target(s, t, i);
    var s2 := Orphan(EdgeToHold(s, t, i), p);
    DroppedReady(s, t, i);
    Release(s2, p)
  }

  lemma NoOtherParent(s: State, t: nat, i: nat)
    requires Inv(s) && Edge(s, t, i) && s.level[t] > 1
    ensures Refs(s, Target(s, t, i)) == {(t, i)}
  {
    hide CountOk, Chain;
    assert forall e :: e in Refs(s, Target(s, t, i)) ==> e == (t, i);
    assert (t, i) in Refs(s, Target(s, t, i));
  }

  lemma DroppedReady(s: State, t: nat, i: nat)
    requires Inv(s) && Edge(s, t, i) && s.level[t] > 1
    ensures Target(s, t, i) < |s.holds| && Refs(EdgeToHold(s, t, i), Target(s, t, i)) == {}
    ensures var s2 := Orphan(EdgeToHold(s, t, i), Target(s, t, i)); var p := Target(s, t, i);
            Inv(s2) && p < |s2.ref| && p < |s2.link| && p < |s2.holds| && s2.ref[p] > 0 && s2.holds[p] > 0
  {
    hide CountOk, Chain;
    EdgeToHoldInv(s, t, i);
    EdgeCounted(s, t, i);
    var p := Target(s, t, i);
    var s1 := EdgeToHold(s, t, i);
    NoOtherParent(s, t, i);
    FewerEdges(s, s1, t, i);
    AddsEdgeRefs(s1, s, t, i, p);
    OrphanInv(s1, p);
  }

  lemma DroppedInv(s: State, t: nat, i: nat)
    requires Inv(s) && Edge(s, t, i) && s.level[t] > 1
    ensures Inv(Dropped(s, t, i))
  {
    hide Inv;
    DroppedReady(s, t, i);
    ReleaseInv(Orphan(EdgeToHold(s, t, i), Target(s, t, i)), Target(s, t, i));
  }

  /** What dropping the table at slot i of t changes, spelled out. */
  ghost predicate DroppedTable(s: State, s': State, t: nat, i: nat)
    requires Edge(s, t, i)
  {
    var p := Target(s, t, i);
    && s'.level == s.level - {p} && t < |s.mem| && i < |s.mem[t]| && s'.mem == s.mem[t := s.mem[t][i := ZERO]]
    && |s'.holds| == |s.holds|
    && (forall f :: 0 <= f < |s.holds| ==> s'.holds[f] >= s.holds[f])
    && (s'.holds == s.holds <==> forall j: nat :: !Edge(s, p, j))
    && p < |s.ref| && s.ref[p] > 0 && s'.ref == s.ref[p := s.ref[p] - 1]
    && s'.free == (if s.ref[p] == 1 then [p] else []) + s.free
  }

  lemma DroppedIs(s: State, t: nat, i: nat)
    requires Inv(s) && Edge(s, t, i) && s.level[t] > 1
    ensures DroppedTable(s, Dropped(s, t, i), t, i)
  {
    hide Inv, Chain;
    DroppedReady(s, t, i);
    var p := Target(s, t, i);
    var s1 := EdgeToHold(s, t, i);
    var s' := Dropped(s, t, i);
    InvShape(s);
    EdgeCounted(s, t, i);
    DroppedHolds(s, t, i);
  }

  lemma DroppedHolds(s: State, t: nat, i: nat)
    requires Inv(s) && Edge(s, t, i) && s.level[t] > 1
    ensures var p := Target(s, t, i); var s' := Dropped(s, t, i);
            && |s'.holds| == |s.holds|
            && (forall f :: 0 <= f < |s.holds| ==> s'.holds[f] == s.holds[f] + |Row(s, p, f)|)
            && (s'.holds == s.holds <==> forall j: nat :: !Edge(s, p, j))
  {
    hide Inv, Chain;
    DroppedReady(s, t, i);
    InvShape(s);
    EdgeCounted(s, t, i);
    var p := Target(s, t, i);
    var s1 := EdgeToHold(s, t, i);
    var s' := Dropped(s, t, i);
    assert Row(s1, p, p) == {};
    NoOtherParent(s, t, i);
    assert Row(s, p, p) == {};
    forall f | 0 <= f < |s.holds| && f != p ensures s'.holds[f] == s.holds[f] + |Row(s, p, f)| {
      assert Row(s1, p, f) == Row(s, p, f);
    }
    if s'.holds == s.holds {
      forall j: nat ensures !Edge(s, p, j) {
        if Edge(s, p, j) { LeakSeen(s, p, j); }
      }
    } else {
      var f :| 0 <= f < |s.holds| && s'.holds[f] != s.holds[f];
      assert Row(s, p, f) != {};
      var e :| e in Row(s, p, f);
      assert Edge(s, p, e.1);
    }
  }

  lemma LeakSeen(s: State, p: nat, j: nat)
    requires Inv(s) && Edge(s, p, j)
    ensures Target(s, p, j) < |s.holds| && |Row(s, p, Target(s, p, j))| > 0
  {
    EdgeCounted(s, p, j);
    assert (p, j) in Row(s, p, Target(s, p, j));
  }

  lemma DroppedShape(s: State, t: nat, i: nat)
    requires Inv(s) && Edge(s, t, i) && s.level[t] > 1
    ensures var s' := Dropped(s, t, i);
            s'.level == s.level - {Target(s, t, i)} && t < |s.mem| && i < |s.mem[t]| && s'.mem == s.mem[t := s.mem[t][i := ZERO]]
  {
    hide Inv;
    DroppedIs(s, t, i);
  }

  lemma DroppedOthers(s: State, t: nat, i: nat, root: nat)
    requires Inv(s) && Edge(s, t, i) && s.level[t] > 1 && Owned(s, root, t)
    ensures OthersSame(s, Dropped(s, t, i), root)
  {
    hide Inv, Dropped, DroppedTable;
    DroppedShape(s, t, i);
    InvShape(s);
    EdgeCounted(s, t, i);
    var s' := Dropped(s, t, i);
    forall r: nat, v: VPage | r != root ensures Translate(s', r, v) == Translate(s, r, v) {
      assert IsRoot(s', r) <==> IsRoot(s, r);
      if IsRoot(s, r) && UserVa(v) { PathLevels(s, r, v); }
    }
  }

  /** Clears slot i of upper-level table t and drops the table it named. */
  method DropTable(k: Pmap, t: nat, i: nat, ghost root: nat)
    requires Inv(k.St()) && Edge(k.St(), t, i) && k.level[t] > 1 && Owned(k.St(), root, t)
    modifies k
    ensures Inv(k.St()) && DroppedTable(old(k.St()), k.St(), t, i) && OthersSame(old(k.St()), k.St(), root)
  {
    hide Inv, Refs, Edge, Owned, OthersSame, DroppedTable;
    ghost var s := k.St();
    InvShape(s);
    DroppedIs(s, t, i);
    DroppedShape(s, t, i);
    DroppedInv(s, t, i);
    DroppedOthers(s, t, i, root);
    DroppedReady(s, t, i);
    var p := k.mem[t][i].frame;
    ghost var s2 := Orphan(EdgeToHold(s, t, i), p);
    k.mem := k.mem[t := k.mem[t][i := ZERO]];
    k.holds := s2.holds;
    k.level := s2.level;
    InvList(s2);
    k.PageDecref(p);
    k.holds := k.holds[p := k.holds[p] - 1];
    assert k.St() == Dropped(s, t, i);
  }

  // ---------------------------------------------------------------- env_setup_vm

  /** A new address space translates nothing of its own and disturbs no other. */
  method EnvSetupVm(k: Pmap, kernel: Entry) returns (root: Option<nat>)
    requires Inv(k.St())
    modifies k
    ensures old(k.free) == [] ==> root == None && k.St() == old(k.St())
    ensures old(k.free) != [] ==>
              && root == Some(old(k.free)[0]) && root.value !in old(k.level) && IsRoot(k.St(), root.value)
              && root.value < |k.holds| && k.holds[root.value] == 1
    ensures old(k.free) != [] ==> NewRootReady(old(k.St())) && k.St() == NewRoot(old(k.St()), kernel)
    ensures root.Some? ==> && root.value < |k.mem| && |k.mem[root.value]| == 512
                           && k.mem[root.value][1] == kernel && k.mem[root.value][2] == Entry(true, root.value, 0x004)
                           && forall i :: 0 <= i < 512 && i != 1 && i != 2 ==> !k.mem[root.value][i].p
    ensures Inv(k.St()) && View(k.St()) == old(View(k.St()))
  {
    hide Inv, View;
    ghost var s := k.St();
    InvList(s);
    InvShape(s);
    if k.free != [] {
      NewRootInv(s, kernel);
      FreePageUnreachable(s, s.free[0]);
    }
    root := k.PageAlloc(true);
    if root.Some? {
      var p := root.value;
      k.ppRef := k.ppRef[p := (k.ppRef[p] + 1) % 0x1_0000];
      k.mem := k.mem[p := ZeroPage()];
      k.mem := k.mem[p := k.mem[p][1 := kernel]];
      k.mem := k.mem[p := k.mem[p][2 := Entry(true, p, 4)]];
      k.level := k.level[p := 4];
      k.holds := k.holds[p := k.holds[p] + 1];
      assert k.St() == NewRoot(s, kernel);
    }
  }

  // ---------------------------------------------------------------- env_free

  const USER_PDPES: nat := 4
  const LAST_PT: nat := 511
  const LAST_PDE: nat := 511
  const UTOP_PDE: nat := 4

  /** PDX(UTOP) for the last directory and PDX(0xFFFFFFFF) for the others. */
  function PdeLimit(pdpeIndex: nat): nat { if pdpeIndex == 3 then UTOP_PDE else LAST_PDE }

  lemma Limits()
    ensures UTOP_PDE == PDX(0x80_0080_0000) && LAST_PDE == PDX(0xFFFF_FFFF) && LAST_PT == PTX(0xFFFF_FFFF_FFFF_FFFF)
  {
    assert 0xFFFF_FFFF_FFFF_FFFF / 0x1000 == 0xF_FFFF_FFFF_FFFF;
  }

  /** The slots env_free visits cover everything below the table. */
  ghost predicate PtClean(s: State, pt: nat) { !Edge(s, pt, LAST_PT) }

  ghost predicate PgdirClean(s: State, pgdir: nat, i: nat) {
    forall d: nat :: Edge(s, pgdir, d) ==> d < PdeLimit(i) && PtClean(s, Target(s, pgdir, d))
  }

  ghost predicate PdptClean(s: State, pdpt: nat) {
    forall i: nat :: Edge(s, pdpt, i) ==> i < USER_PDPES && PgdirClean(s, Target(s, pdpt, i), i)
  }

  ghost predicate RootClean(s: State, root: nat) {
    forall m: nat :: Edge(s, root, m) ==> m == 0 && PdptClean(s, Target(s, root, m))
  }

  /** The path env_free is on. */
  ghost predicate OnPath(s: State, root: nat, pdpt: nat, i: nat, pgdir: nat) {
    && IsRoot(s, root) && Edge(s, root, 0) && Target(s, root, 0) == pdpt
    && Edge(s, pdpt, i) && Target(s, pdpt, i) == pgdir
  }

  /** The free list only gets longer at the front, by every page that has lost its last reference and
      by no page that had none: what has been handed out and not yet been mapped stays as it is. */
  ghost predicate FreeGrew(s: State, s': State) {
    && |s'.ref| == |s.ref| && (exists xs :: s'.free == xs + s.free)
    && (forall p :: 0 <= p < |s.ref| && s.ref[p] == 0 && p !in s.free ==> s'.ref[p] == 0 && p !in s'.free)
    && (forall p :: 0 <= p < |s.ref| && s.ref[p] > 0 && s'.ref[p] == 0 ==> p in s'.free)
  }

  lemma FreeGrewTrans(a: State, b: State, c: State)
    requires FreeGrew(a, b) && FreeGrew(b, c)
    ensures FreeGrew(a, c)
  {
    var xs :| b.free == xs + a.free;
    var ys :| c.free == ys + b.free;
    assert c.free == (ys + xs) + a.free;
  }

  lemma FreeGrewOne(s: State, s': State, p: nat)
    requires p < |s.ref| && s.ref[p] > 0 && s'.ref == s.ref[p := s.ref[p] - 1]
    requires s'.free == (if s.ref[p] == 1 then [p] else []) + s.free
    ensures FreeGrew(s, s')
  {
  }

  lemma FreeGrewRefl(s: State)
    ensures FreeGrew(s, s)
  {
    assert s.free == [] + s.free;
  }

  /** Progress of the innermost loop: the first n entries of pt are gone. */
  ghost predicate Emptied(s: State, s': State, pt: nat, n: nat) {
    && s'.level == s.level && s'.holds == s.holds && |s'.mem| == |s.mem|
    && FreeGrew(s, s')
    && (forall u :: 0 <= u < |s.mem| && u != pt ==> s'.mem[u] == s.mem[u])
    && pt < |s.mem| && |s'.mem[pt]| == 512 && |s.mem[pt]| == 512
    && (forall j :: 0 <= j < n && j < 512 ==> !s'.mem[pt][j].p)
    && (forall j :: n <= j < 512 ==> s'.mem[pt][j] == s.mem[pt][j])
  }

  lemma EmptiedStart(s: State, root: nat, pgdir: nat, d: nat, pt: nat)
    requires Inv(s) && Edge(s, pgdir, d) && Target(s, pgdir, d) == pt
    ensures Emptied(s, s, pt, 0) && OthersSame(s, s, root)
  {
    FreeGrewRefl(s);
  }

  lemma EmptiedPath(s: State, s1: State, root: nat, pdpt: nat, i: Idx, pgdir: nat, d: Idx, pt: nat, n: Idx)
    requires Inv(s) && OnPath(s, root, pdpt, i, pgdir) && Edge(s, pgdir, d) && Target(s, pgdir, d) == pt
    requires Emptied(s, s1, pt, n) && Inv(s1)
    ensures IsRoot(s1, root) && LeafTable(s1.mem, root, VPage(0, i, d, n)) == Some(pt)
    ensures pt in s1.level && pt < |s1.mem| && |s1.mem[pt]| == 512 && (s1.mem[pt][n].p <==> Edge(s1, pt, n))
    ensures (root, VPage(0, i, d, n)) in View(s1) <==> s1.mem[pt][n].p
  {
    hide Inv, View;
    EdgeCounted(s, root, 0);
    EdgeCounted(s, pdpt, i);
    EdgeCounted(s, pgdir, d);
    ViewAt(s1, root, VPage(0, i, d, n));
  }

  lemma ViewTranslate(s: State, s': State, root: nat, v: VPage)
    requires View(s') == View(s) - {(root, v)}
    ensures OthersSame(s, s', root)
  {
    hide Translate;
    forall r: nat, w: VPage | r != root ensures Translate(s', r, w) == Translate(s, r, w) {
      assert (r, w) in View(s') <==> (r, w) in View(s);
      if (r, w) in View(s) { assert View(s')[(r, w)] == View(s)[(r, w)]; }
    }
  }

  lemma EmptiedStep(s: State, s1: State, s2: State, root: nat, v: VPage, pt: nat, n: Idx)
    requires Emptied(s, s1, pt, n) && OthersSame(s, s1, root) && View(s2) == View(s1) - {(root, v)}
    requires pt < |s1.mem| && n < |s1.mem[pt]| && s2.mem == s1.mem[pt := s1.mem[pt][n := ZERO]]
    requires s2.level == s1.level && s2.holds == s1.holds && FreeGrew(s1, s2)
    ensures Emptied(s, s2, pt, n + 1) && OthersSame(s, s2, root)
  {
    hide View, Translate, FreeGrew;
    ViewTranslate(s1, s2, root, v);
    FreeGrewTrans(s, s1, s2);
  }

  lemma EmptiedSkip(s: State, s1: State, pt: nat, n: Idx)
    requires Emptied(s, s1, pt, n) && pt < |s1.mem| && n < |s1.mem[pt]| && !s1.mem[pt][n].p
    ensures Emptied(s, s1, pt, n + 1)
  {
  }

  method EmptyPt(k: Pmap, root: nat, pdpt: nat, i: nat, pgdir: nat, d: nat, pt: nat)
    requires Inv(k.St()) && OnPath(k.St(), root, pdpt, i, pgdir) && i < 512 && d < 512
    requires Edge(k.St(), pgdir, d) && Target(k.St(), pgdir, d) == pt
    modifies k
    ensures Inv(k.St()) && Emptied(old(k.St()), k.St(), pt, LAST_PT) && OthersSame(old(k.St()), k.St(), root)
  {
    hide Inv, OthersSame, Emptied, View, PML4, PDPE, PDX, PTX, PGADDR;
    ghost var s := k.St();
    EmptiedStart(s, root, pgdir, d, pt);
    for pteno := 0 to LAST_PT
      invariant Inv(k.St()) && Emptied(s, k.St(), pt, pteno) && OthersSame(s, k.St(), root)
    {
      ghost var s1 := k.St();
      EmptiedPath(s, s1, root, pdpt, i, pgdir, d, pt, pteno);
      if k.mem[pt][pteno].p {
        JoinRoundTrip(0, i, d, pteno, 0);
        k.PageRemove(Some(root), PGADDR(0, i, d, pteno, 0));
        RemovedCounts(s1, pt, pteno);
        FreeGrewOne(s1, k.St(), Target(s1, pt, pteno));
        EmptiedStep(s, s1, k.St(), root, VPage(0, i, d, pteno), pt, pteno);
      } else {
        EmptiedSkip(s, s1, pt, pteno);
      }
    }
  }

  /** Tables above level k survive, live tables other than t keep their contents, and t has
      lost its first n entries and no others. */
  ghost predicate Trimmed(s: State, s': State, t: nat, n: nat, k: nat) {
    && Below(s, s', t, k) && t < |s.mem| && |s.mem[t]| == 512 && |s'.mem[t]| == 512
    && (forall d :: 0 <= d < n && d < 512 ==> !s'.mem[t][d].p)
    && (forall d :: n <= d < 512 ==> s'.mem[t][d] == s.mem[t][d])
  }

  ghost predicate Below(s: State, s': State, t: nat, k: nat) {
    && |s'.mem| == |s.mem|
    && (forall u :: u in s'.level ==> u in s.level && s'.level[u] == s.level[u])
    && (forall u :: u in s.level && s.level[u] > k ==> u in s'.level)
    && (forall u :: u in s'.level && u != t && 0 <= u < |s.mem| ==> s'.mem[u] == s.mem[u])
  }

  /** Holds only grow, and so does the free list. */
  ghost predicate Grew(s: State, s': State) {
    && |s'.holds| == |s.holds| && (forall f :: 0 <= f < |s.holds| ==> s'.holds[f] >= s.holds[f])
    && FreeGrew(s, s')
  }

  lemma GrewTrans(a: State, b: State, c: State)
    requires Grew(a, b) && Grew(b, c)
    ensures Grew(a, c) && (c.holds == a.holds <==> b.holds == a.holds && c.holds == b.holds)
  {
    hide FreeGrew;
    if c.holds == a.holds { assert forall f :: 0 <= f < |a.holds| ==> b.holds[f] == a.holds[f]; }
    FreeGrewTrans(a, b, c);
  }

  lemma TrimmedStep(s: State, s1: State, s2: State, s3: State, t: nat, n: nat, k: nat, p: nat)
    requires Trimmed(s, s1, t, n, k) && n < 512 && t in s.level && s.level[t] > k && p != t
    requires Below(s1, s2, p, k) && p in s1.level && s1.level[p] <= k
    requires s3.level == s2.level - {p} && t < |s2.mem| && n < |s2.mem[t]| && s3.mem == s2.mem[t := s2.mem[t][n := ZERO]]
    ensures Trimmed(s, s3, t, n + 1, k)
  {
    assert s2.mem[t] == s1.mem[t];
  }

  lemma DroppedGrew(s: State, s': State, t: nat, i: nat)
    requires Edge(s, t, i) && DroppedTable(s, s', t, i)
    ensures Grew(s, s')
  {
    FreeGrewOne(s, s', Target(s, t, i));
  }

  ghost predicate Names(s: State, t: nat, i: nat, u: nat) { Edge(s, t, i) && Target(s, t, i) == u }

  /** Progress of the middle loop: page directory pgdir has lost its first n entries, the page
      tables below them are dropped, and a reference leaked exactly if one of those tables had
      its last entry in use. */
  ghost predicate Swept(s: State, s': State, pgdir: nat, n: nat) {
    && Trimmed(s, s', pgdir, n, 1) && Grew(s, s')
    && (forall u :: u in s.level && !(exists d: nat :: d < n && Names(s, pgdir, d, u)) ==> u in s'.level)
    && (s'.holds == s.holds <==> forall d: nat :: d < n && Edge(s, pgdir, d) ==> PtClean(s, Target(s, pgdir, d)))
  }

  lemma SweptStart(s: State, root: nat, pdpt: nat, i: nat, pgdir: nat)
    requires Inv(s) && OnPath(s, root, pdpt, i, pgdir)
    ensures Swept(s, s, pgdir, 0) && OthersSame(s, s, root)
  {
    EdgeCounted(s, pdpt, i);
    FreeGrewRefl(s);
  }

  /** The path to pgdir survives the sweep of its entries. */
  lemma SweptPath(s: State, s1: State, root: nat, pdpt: nat, i: nat, pgdir: nat, n: nat)
    requires Inv(s) && Inv(s1) && OnPath(s, root, pdpt, i, pgdir) && Swept(s, s1, pgdir, n)
    ensures OnPath(s1, root, pdpt, i, pgdir) && pgdir in s1.level && s1.level[pgdir] == 2 && Owned(s1, root, pgdir)
    ensures pgdir < |s1.mem| && |s1.mem[pgdir]| == 512
    ensures forall d: nat :: d < 512 ==> (s1.mem[pgdir][d].p <==> Edge(s1, pgdir, d))
  {
    hide Inv, Owned;
    EdgeCounted(s, root, 0);
    EdgeCounted(s, pdpt, i);
    OwnedPgdir(s1, root, 0, i);
  }

  lemma SweptSkip(s: State, s1: State, pgdir: nat, n: nat)
    requires Inv(s) && Inv(s1) && Swept(s, s1, pgdir, n) && n < 512 && pgdir in s.level && s.level[pgdir] == 2 && !s1.mem[pgdir][n].p
    ensures Swept(s, s1, pgdir, n + 1)
  {
    hide Inv, Grew;
    assert s1.mem[pgdir][n] == s.mem[pgdir][n];
    assert !Edge(s, pgdir, n);
  }

  lemma SweptStep(s: State, s1: State, s2: State, s3: State, pgdir: nat, n: nat, pt: nat)
    requires Inv(s) && Inv(s1) && Inv(s2) && Swept(s, s1, pgdir, n) && n < 512
    requires pgdir in s.level && s.level[pgdir] == 2 && Edge(s1, pgdir, n) && Target(s1, pgdir, n) == pt
    requires Emptied(s1, s2, pt, LAST_PT)
    requires Edge(s2, pgdir, n) && Target(s2, pgdir, n) == pt && DroppedTable(s2, s3, pgdir, n)
    ensures Swept(s, s3, pgdir, n + 1)
  {
    hide Inv, Grew;
    EdgeCounted(s1, pgdir, n);
    InvShape(s);
    assert pt != pgdir && s1.mem[pt] == s.mem[pt] && s1.mem[pgdir][n] == s.mem[pgdir][n];
    assert Edge(s, pgdir, n) && Target(s, pgdir, n) == pt;
    assert Names(s, pgdir, n, pt);
    SweptClean(s, s1, s2, pgdir, n, pt);
    TrimmedStep(s, s1, s2, s3, pgdir, n, 1, pt);
    EmptiedGrew(s1, s2, pt);
    DroppedGrew(s2, s3, pgdir, n);
    GrewTrans(s1, s2, s3);
    GrewTrans(s, s1, s3);
  }

  lemma EmptiedGrew(s: State, s': State, pt: nat)
    requires Emptied(s, s', pt, LAST_PT)
    ensures Grew(s, s')
  {
  }

  /** An emptied page table still has an entry exactly if its last one was in use. */
  lemma SweptClean(s: State, s1: State, s2: State, pgdir: nat, n: nat, pt: nat)
    requires Swept(s, s1, pgdir, n) && Emptied(s1, s2, pt, LAST_PT) && pt in s1.level && s1.level[pt] == 1
    requires s1.mem[pt] == s.mem[pt]
    ensures (forall j: nat :: !Edge(s2, pt, j)) <==> PtClean(s, pt)
  {
    assert s2.mem[pt][511] == s.mem[pt][511];
    assert Edge(s2, pt, 511) <==> Edge(s, pt, 511);
    forall j: nat | Edge(s2, pt, j) ensures j == 511 {}
  }

  method SweepPgdir(k: Pmap, root: nat, pdpt: nat, i: nat, pgdir: nat)
    requires Inv(k.St()) && OnPath(k.St(), root, pdpt, i, pgdir) && i < USER_PDPES
    modifies k
    ensures Inv(k.St()) && Swept(old(k.St()), k.St(), pgdir, PdeLimit(i)) && OthersSame(old(k.St()), k.St(), root)
  {
    hide Inv, OthersSame, Emptied, Swept, Owned, OnPath, DroppedTable;
    ghost var s := k.St();
    SweptStart(s, root, pdpt, i, pgdir);
    for pdeno := 0 to PdeLimit(i)
      invariant Inv(k.St()) && Swept(s, k.St(), pgdir, pdeno) && OthersSame(s, k.St(), root)
    {
      ghost var s1 := k.St();
      SweptPath(s, s1, root, pdpt, i, pgdir, pdeno);
      PgdirLive(s, root, pdpt, i, pgdir);
      if !k.mem[pgdir][pdeno].p {
        SweptSkip(s, s1, pgdir, pdeno);
        continue;
      }
      var pt := k.mem[pgdir][pdeno].frame;
      EmptyPt(k, root, pdpt, i, pgdir, pdeno, pt);
      ghost var s2 := k.St();
      EmptiedKeeps(s1, s2, root, pdpt, i, pgdir, pdeno, pt);
      DropTable(k, pgdir, pdeno, root);
      SweptStep(s, s1, s2, k.St(), pgdir, pdeno, pt);
      OthersTrans(s, s1, s2, root);
      OthersTrans(s, s2, k.St(), root);
    }
  }

  lemma PgdirLive(s: State, root: nat, pdpt: nat, i: nat, pgdir: nat)
    requires Inv(s) && OnPath(s, root, pdpt, i, pgdir)
    ensures pgdir in s.level && s.level[pgdir] == 2
  {
    EdgeCounted(s, root, 0);
    EdgeCounted(s, pdpt, i);
  }

  lemma EmptiedKeeps(s1: State, s2: State, root: nat, pdpt: nat, i: nat, pgdir: nat, n: nat, pt: nat)
    requires Inv(s1) && Inv(s2) && OnPath(s1, root, pdpt, i, pgdir)
    requires Edge(s1, pgdir, n) && Target(s1, pgdir, n) == pt && Emptied(s1, s2, pt, LAST_PT)
    ensures Edge(s2, pgdir, n) && Target(s2, pgdir, n) == pt && s2.level[pgdir] == 2 && Owned(s2, root, pgdir)
  {
    hide Inv, Owned;
    EdgeCounted(s1, root, 0);
    EdgeCounted(s1, pdpt, i);
    EdgeCounted(s1, pgdir, n);
    OwnedPgdir(s2, root, 0, i);
  }

  lemma OthersTrans(a: State, b: State, c: State, root: nat)
    requires OthersSame(a, b, root) && OthersSame(b, c, root)
    ensures OthersSame(a, c, root)
  {
    hide Translate;
  }

  /** Table u is one that the first n rounds of the outer loop take down. */
  ghost predicate Visited(s: State, pdpt: nat, n: nat, u: nat) {
    exists i: nat :: i < n && Edge(s, pdpt, i) && VisitedIn(s, Target(s, pdpt, i), i, u)
  }

  ghost predicate VisitedIn(s: State, pgdir: nat, i: nat, u: nat) {
    u == pgdir || exists d: nat :: d < PdeLimit(i) && Names(s, pgdir, d, u)
  }

  /** Progress of the outer loop: directory-pointer table pdpt has lost its first n entries. */
  ghost predicate Cleared(s: State, s': State, pdpt: nat, n: nat) {
    && Trimmed(s, s', pdpt, n, 2) && Grew(s, s')
    && (forall u :: u in s.level && !Visited(s, pdpt, n, u) ==> u in s'.level)
    && (s'.holds == s.holds <==> forall i: nat :: i < n && Edge(s, pdpt, i) ==> PgdirClean(s, Target(s, pdpt, i), i))
  }

  lemma ClearedStart(s: State, root: nat, pdpt: nat)
    requires Inv(s) && IsRoot(s, root) && Edge(s, root, 0) && Target(s, root, 0) == pdpt
    ensures Cleared(s, s, pdpt, 0) && OthersSame(s, s, root)
  {
    EdgeCounted(s, root, 0);
    FreeGrewRefl(s);
  }

  lemma ClearedPath(s: State, s1: State, root: nat, pdpt: nat, n: nat)
    requires Inv(s) && Inv(s1) && IsRoot(s, root) && Edge(s, root, 0) && Target(s, root, 0) == pdpt && Cleared(s, s1, pdpt, n)
    ensures IsRoot(s1, root) && Edge(s1, root, 0) && Target(s1, root, 0) == pdpt && Owned(s1, root, pdpt) && Owned(s1, root, root)
    ensures pdpt in s1.level && s1.level[pdpt] == 3 && pdpt in s.level && s.level[pdpt] == 3
    ensures pdpt < |s1.mem| && |s1.mem[pdpt]| == 512
    ensures forall i: nat :: i < 512 ==> (s1.mem[pdpt][i].p <==> Edge(s1, pdpt, i))
  {
    hide Inv, Owned;
    EdgeCounted(s, root, 0);
    OwnedPdpt(s1, root, 0);
    OwnedRoot(s1, root);
  }

  lemma ClearedSkip(s: State, s1: State, pdpt: nat, n: nat)
    requires Cleared(s, s1, pdpt, n) && n < 512 && pdpt in s.level && s.level[pdpt] == 3 && !s1.mem[pdpt][n].p
    ensures Cleared(s, s1, pdpt, n + 1)
  {
    hide PgdirClean, VisitedIn, Grew;
    assert s1.mem[pdpt][n] == s.mem[pdpt][n];
    assert !Edge(s, pdpt, n);
    forall u ensures Visited(s, pdpt, n, u) ==> Visited(s, pdpt, n + 1, u) {}
  }

  /** After its sweep a directory has an entry left exactly if one lay beyond the limit. */
  lemma SweptLeft(s: State, s1: State, s2: State, pdpt: nat, n: nat, pgdir: nat)
    requires Inv(s) && Cleared(s, s1, pdpt, n) && n < USER_PDPES && pgdir in s1.level && s1.level[pgdir] == 2 && pgdir != pdpt
    requires Swept(s1, s2, pgdir, PdeLimit(n)) && Inv(s1)
    ensures PgdirClean(s, pgdir, n) <==> (s2.holds == s1.holds && forall j: nat :: !Edge(s2, pgdir, j))
  {
    hide Inv;
    assert s1.mem[pgdir] == s.mem[pgdir];
    assert forall d: nat :: Edge(s1, pgdir, d) <==> Edge(s, pgdir, d);
    forall d: nat | Edge(s, pgdir, d) ensures PtClean(s1, Target(s, pgdir, d)) <==> PtClean(s, Target(s, pgdir, d)) {
      EdgeCounted(s, pgdir, d);
      EdgeCounted(s1, pgdir, d);
    }
    forall d: nat ensures Edge(s2, pgdir, d) <==> Edge(s, pgdir, d) && d >= PdeLimit(n) {
      assert pgdir in s2.level && s2.level[pgdir] == 2;
      if d < 512 && d >= PdeLimit(n) { assert s2.mem[pgdir][d] == s1.mem[pgdir][d]; }
    }
  }

  /** The tables not taken down by one more round. */
  lemma ClearedSpares(s: State, s1: State, s2: State, s3: State, pdpt: nat, n: nat, pgdir: nat)
    requires Cleared(s, s1, pdpt, n) && Swept(s1, s2, pgdir, PdeLimit(n)) && s3.level == s2.level - {pgdir}
    requires Edge(s, pdpt, n) && Target(s, pdpt, n) == pgdir && pgdir != pdpt && pgdir in s1.level && pgdir < |s.mem|
    ensures forall u :: u in s.level && !Visited(s, pdpt, n + 1, u) ==> u in s3.level
  {
    hide Grew, PgdirClean, PtClean;
    assert s1.mem[pgdir] == s.mem[pgdir] && pgdir in s.level && s1.level[pgdir] == s.level[pgdir];
    forall u | u in s.level && !Visited(s, pdpt, n + 1, u) ensures u in s3.level {
      assert !VisitedIn(s, pgdir, n, u);
      assert !Visited(s, pdpt, n, u);
      forall d: nat | d < PdeLimit(n) ensures !Names(s1, pgdir, d, u) {
        assert !Names(s, pgdir, d, u);
      }
    }
  }

  lemma ClearedStep(s: State, s1: State, s2: State, s3: State, pdpt: nat, n: nat, pgdir: nat)
    requires Inv(s) && Inv(s1) && Inv(s2) && Cleared(s, s1, pdpt, n) && n < USER_PDPES
    requires pdpt in s.level && s.level[pdpt] == 3 && Edge(s1, pdpt, n) && Target(s1, pdpt, n) == pgdir
    requires Swept(s1, s2, pgdir, PdeLimit(n))
    requires Edge(s2, pdpt, n) && Target(s2, pdpt, n) == pgdir && DroppedTable(s2, s3, pdpt, n)
    ensures Cleared(s, s3, pdpt, n + 1)
  {
    hide Inv, PtClean, PgdirClean, Grew, Visited, VisitedIn;
    EdgeCounted(s1, pdpt, n);
    assert pgdir != pdpt && s1.mem[pdpt][n] == s.mem[pdpt][n];
    assert Edge(s, pdpt, n) && Target(s, pdpt, n) == pgdir;
    ClearedSpares(s, s1, s2, s3, pdpt, n, pgdir);
    SweptLeft(s, s1, s2, pdpt, n, pgdir);
    TrimmedStep(s, s1, s2, s3, pdpt, n, 2, pgdir);
    DroppedGrew(s2, s3, pdpt, n);
    GrewTrans(s1, s2, s3);
    GrewTrans(s, s1, s3);
  }

  lemma SweptKeeps(s1: State, s2: State, root: nat, pdpt: nat, n: nat, pgdir: nat)
    requires Inv(s1) && Inv(s2) && OnPath(s1, root, pdpt, n, pgdir) && Swept(s1, s2, pgdir, PdeLimit(n))
    ensures Edge(s2, pdpt, n) && Target(s2, pdpt, n) == pgdir && s2.level[pdpt] == 3 && Owned(s2, root, pdpt)
  {
    hide Inv, Owned;
    EdgeCounted(s1, root, 0);
    EdgeCounted(s1, pdpt, n);
    OwnedPdpt(s2, root, 0);
  }

  method ClearPdpt(k: Pmap, root: nat, pdpt: nat)
    requires Inv(k.St()) && IsRoot(k.St(), root) && Edge(k.St(), root, 0) && Target(k.St(), root, 0) == pdpt
    modifies k
    ensures Inv(k.St()) && Cleared(old(k.St()), k.St(), pdpt, USER_PDPES) && OthersSame(old(k.St()), k.St(), root)
  {
    hide Inv, OthersSame, Cleared, Swept, Owned, DroppedTable;
    ghost var s := k.St();
    ClearedStart(s, root, pdpt);
    for pdpeIndex := 0 to USER_PDPES
      invariant Inv(k.St()) && Cleared(s, k.St(), pdpt, pdpeIndex) && OthersSame(s, k.St(), root)
    {
      ghost var s1 := k.St();
      ClearedPath(s, s1, root, pdpt, pdpeIndex);
      if !k.mem[pdpt][pdpeIndex].p {
        ClearedSkip(s, s1, pdpt, pdpeIndex);
        continue;
      }
      var pgdir := k.mem[pdpt][pdpeIndex].frame;
      SweepPgdir(k, root, pdpt, pdpeIndex, pgdir);
      ghost var s2 := k.St();
      SweptKeeps(s1, s2, root, pdpt, pdpeIndex, pgdir);
      DropTable(k, pdpt, pdpeIndex, root);
      ClearedStep(s, s1, s2, k.St(), pdpt, pdpeIndex, pgdir);
      OthersTrans(s, s1, s2, root);
      OthersTrans(s, s2, k.St(), root);
    }
  }

  // ---------------------------------------------------------------- the root itself

  ghost function RootGone(s: State, r: nat): (s': State)
    requires Inv(s) && IsRoot(s, r) && r < |s.holds| && s.holds[r] > 0
  {
    RootReady(s, r);
    Release(Orphan(s, r), r)
  }

  lemma RootReady(s: State, r: nat)
    requires Inv(s) && IsRoot(s, r) && r < |s.holds| && s.holds[r] > 0
    ensures Refs(s, r) == {} && Inv(Orphan(s, r))
    ensures var s2 := Orphan(s, r); r < |s2.ref| && r < |s2.link| && r < |s2.holds| && s2.ref[r] > 0 && s2.holds[r] > 0
  {
    hide CountOk, Chain, TreeOk;
    assert forall e :: e in Refs(s, r) ==> Edge(s, e.0, e.1) && Target(s, e.0, e.1) == r;
    assert Refs(s, r) == {};
    OrphanInv(s, r);
  }

  lemma RootGoneInv(s: State, r: nat)
    requires Inv(s) && IsRoot(s, r) && r < |s.holds| && s.holds[r] > 0
    ensures var s' := RootGone(s, r);
            && Inv(s') && OthersSame(s, s', r) && r !in s'.level && |s'.holds| == |s.holds|
            && (forall f :: 0 <= f < |s.holds| ==> s'.holds[f] + (if f == r then 1 else 0) >= s.holds[f])
            && (s'.holds == s.holds[r := s.holds[r] - 1] <==> forall j: nat :: !Edge(s, r, j))
            && FreeGrew(s, s') && s'.level == s.level - {r} && s'.mem == s.mem
  {
    hide Inv, Chain;
    RootReady(s, r);
    ReleaseInv(Orphan(s, r), r);
    var s' := RootGone(s, r);
    FreeGrewOne(s, s', r);
    assert Row(s, r, r) == {};
    if j: nat :| Edge(s, r, j) {
      LeakSeen(s, r, j);
      assert s'.holds[Target(s, r, j)] > s.holds[r := s.holds[r] - 1][Target(s, r, j)];
    } else {
      assert forall f: nat :: Row(s, r, f) == {};
      assert s'.holds == s.holds[r := s.holds[r] - 1];
    }
  }

  /** Once the root is no longer live, what is stored in it no longer matters. */
  lemma ScribbleInv(s: State, r: nat, e: Entry)
    requires Inv(s) && r !in s.level && r < |s.mem|
    ensures |s.mem[r]| == 512 && Inv(WriteEntry(s, r, 0, e)) && View(WriteEntry(s, r, 0, e)) == View(s)
    ensures OthersSame(s, WriteEntry(s, r, 0, e), r)
  {
    hide Inv, View;
    InvShape(s);
    InvList(s);
    var s' := WriteEntry(s, r, 0, e);
    WriteEntryList(s, r, 0, e);
    assert SameLeaves(s, s');
    SameEdgesInv(s, s');
    SameLeavesView(s, s');
    forall q: nat, v: VPage | q != r ensures Translate(s', q, v) == Translate(s, q, v) {
      if IsRoot(s, q) && UserVa(v) { SamePath(s, s', q, v); }
    }
  }

  /** What giving up the root changes, spelled out. */
  ghost predicate RootDropped(s: State, s': State, root: nat) {
    && OthersSame(s, s', root) && root !in s'.level && root < |s.holds| == |s'.holds| && s.holds[root] > 0
    && (forall f :: 0 <= f < |s.holds| ==> s'.holds[f] + (if f == root then 1 else 0) >= s.holds[f])
    && (s'.holds == s.holds[root := s.holds[root] - 1] <==> forall j: nat :: !Edge(s, root, j))
    && FreeGrew(s, s') && s'.level == s.level - {root} && OnlyPage(s.mem, s'.mem, root)
  }

  ghost function RootErased(s: State, root: nat): State
    requires Inv(s) && IsRoot(s, root) && root < |s.holds| && s.holds[root] > 0
  {
    RootGoneInv(s, root);
    InvShape(s);
    WriteEntry(RootGone(s, root), root, 0, ZERO)
  }

  lemma RootErasedInv(s: State, root: nat)
    requires Inv(s) && IsRoot(s, root) && root < |s.holds| && s.holds[root] > 0
    ensures Inv(RootErased(s, root)) && RootDropped(s, RootErased(s, root), root)
  {
    hide Inv, Edge, OthersSame, RootGone, FreeGrew;
    RootGoneInv(s, root);
    InvShape(s);
    ScribbleInv(RootGone(s, root), root, ZERO);
    OthersTrans(s, RootGone(s, root), RootErased(s, root), root);
    SameFree(s, RootGone(s, root), RootErased(s, root));
  }

  lemma SameFree(s: State, s1: State, s2: State)
    requires FreeGrew(s, s1) && s2.ref == s1.ref && s2.free == s1.free
    ensures FreeGrew(s, s2)
  {
  }

  /** The last part of env_free: slot 0 is cleared and the hold on the root given up. */
  method DropRoot(k: Pmap, root: nat)
    requires Inv(k.St()) && IsRoot(k.St(), root) && root < |k.holds| && k.holds[root] > 0
    modifies k
    ensures Inv(k.St()) && RootDropped(old(k.St()), k.St(), root)
  {
    hide Inv, Refs, Edge, RootDropped, Leaked;
    ghost var s := k.St();
    RootReady(s, root);
    RootErasedInv(s, root);
    InvShape(s);
    ghost var s2 := Orphan(s, root);
    InvList(s2);
    WriteEntryList(s2, root, 0, ZERO);
    k.level := s2.level;
    k.holds := s2.holds;
    k.mem := k.mem[root := k.mem[root][0 := ZERO]];
    k.PageDecref(root);
    k.holds := k.holds[root := k.holds[root] - 1];
    assert k.St() == RootErased(s, root);
  }

  lemma RootSlot(s: State, root: nat)
    requires Inv(s) && IsRoot(s, root)
    ensures root < |s.mem| && |s.mem[root]| == 512 && (s.mem[root][0].p <==> Edge(s, root, 0))
    ensures Edge(s, root, 0) ==> Target(s, root, 0) == s.mem[root][0].frame
  {
  }

  /** An address whose page table env_free does not visit. */
  predicate Skipped(v: VPage) { v.m != 0 || v.p >= USER_PDPES || v.d >= PdeLimit(v.p) }

  /** Last-level table t is still there, with every entry it had. */
  ghost predicate Spared(s: State, s': State, t: nat) {
    && t in s.level && s.level[t] == 1 && t in s'.level && s'.level[t] == 1
    && t < |s.mem| == |s'.mem| && s'.mem[t] == s.mem[t]
  }

  ghost predicate SparesSkipped(s: State, s': State, root: nat) {
    forall v: VPage :: UserVa(v) && Skipped(v) && LeafTable(s.mem, root, v).Some? ==> Spared(s, s', LeafTable(s.mem, root, v).value)
  }

  ghost predicate FewerTables(s: State, s': State) {
    forall u :: u in s'.level ==> u in s.level && s'.level[u] == s.level[u]
  }

  /** What env_free has done when only the root is left. */
  ghost predicate Pruned(s: State, s2: State, root: nat) {
    && IsRoot(s2, root) && Grew(s, s2) && OthersSame(s, s2, root) && SparesSkipped(s, s2, root)
    && (forall r :: IsRoot(s, r) ==> IsRoot(s2, r)) && FewerTables(s, s2)
    && (RootClean(s, root) <==> s2.holds == s.holds && forall m: nat :: !Edge(s2, root, m))
  }

  lemma NoPdpt(s: State, root: nat)
    requires Inv(s) && IsRoot(s, root) && !Edge(s, root, 0)
    ensures Pruned(s, s, root)
  {
    hide Inv, PdptClean;
    FreeGrewRefl(s);
    InvShape(s);
    forall v: VPage | UserVa(v) && LeafTable(s.mem, root, v).Some? ensures Spared(s, s, LeafTable(s.mem, root, v).value) {
      PathLevels(s, root, v);
    }
  }

  lemma AfterPdpt(s: State, s1: State, s2: State, root: nat, pdpt: nat)
    requires Inv(s) && Inv(s1) && IsRoot(s, root) && Edge(s, root, 0) && Target(s, root, 0) == pdpt
    requires Cleared(s, s1, pdpt, USER_PDPES) && Edge(s1, root, 0) && Target(s1, root, 0) == pdpt && IsRoot(s1, root)
    requires DroppedTable(s1, s2, root, 0) && OthersSame(s, s2, root)
    ensures Pruned(s, s2, root)
  {
    hide Inv, PgdirClean, OthersSame, Grew, SparesSkipped, Visited;
    EdgeCounted(s, root, 0);
    DroppedGrew(s1, s2, root, 0);
    GrewTrans(s, s1, s2);
    assert s1.mem[root] == s.mem[root];
    assert forall m: nat :: Edge(s2, root, m) <==> Edge(s, root, m) && m != 0;
    ClearedLeft(s, s1, pdpt);
    PdptSpares(s, s1, s2, root, pdpt);
  }

  /** A table that is not visited is not under a visited slot, since a table has one path. */
  lemma NotVisited(s: State, root: nat, pdpt: nat, v: VPage, pt: nat)
    requires Inv(s) && IsRoot(s, root) && Edge(s, root, 0) && Target(s, root, 0) == pdpt
    requires UserVa(v) && Skipped(v) && LeafTable(s.mem, root, v) == Some(pt)
    ensures !Visited(s, pdpt, USER_PDPES, pt) && pt in s.level && s.level[pt] == 1
  {
    hide Inv;
    PathLevels(s, root, v);
    EdgeCounted(s, root, 0);
    forall i: nat | i < USER_PDPES && Edge(s, pdpt, i) ensures !VisitedIn(s, Target(s, pdpt, i), i, pt) {
      EdgeCounted(s, pdpt, i);
      forall d: nat | d < PdeLimit(i) ensures !Names(s, Target(s, pdpt, i), d, pt) {
        if Names(s, Target(s, pdpt, i), d, pt) { UniquePath(s, root, v, root, VPage(0, i, d, 0)); }
      }
    }
  }

  lemma PdptSpares(s: State, s1: State, s2: State, root: nat, pdpt: nat)
    requires Inv(s) && IsRoot(s, root) && Edge(s, root, 0) && Target(s, root, 0) == pdpt
    requires Cleared(s, s1, pdpt, USER_PDPES) && s2.level == s1.level - {pdpt}
    requires root < |s1.mem| && 0 < |s1.mem[root]| && s2.mem == s1.mem[root := s1.mem[root][0 := ZERO]]
    ensures SparesSkipped(s, s2, root)
  {
    hide Inv, Visited, Grew, PgdirClean;
    InvShape(s);
    EdgeCounted(s, root, 0);
    forall v: VPage | UserVa(v) && Skipped(v) && LeafTable(s.mem, root, v).Some?
      ensures Spared(s, s2, LeafTable(s.mem, root, v).value)
    {
      NotVisited(s, root, pdpt, v, LeafTable(s.mem, root, v).value);
    }
  }

  lemma ClearedLeft(s: State, s1: State, pdpt: nat)
    requires Cleared(s, s1, pdpt, USER_PDPES) && pdpt in s.level && s.level[pdpt] == 3
    ensures PdptClean(s, pdpt) <==> (s1.holds == s.holds && forall i: nat :: !Edge(s1, pdpt, i))
  {
    hide PgdirClean, Grew;
    assert pdpt in s1.level && s1.level[pdpt] == 3;
    forall i: nat ensures Edge(s1, pdpt, i) <==> Edge(s, pdpt, i) && i >= USER_PDPES {
      if USER_PDPES <= i < 512 { assert s1.mem[pdpt][i] == s.mem[pdpt][i]; }
    }
  }

  lemma EnvFreed(s: State, s2: State, s': State, root: nat)
    requires Inv(s) && Inv(s') && Pruned(s, s2, root) && RootDropped(s2, s', root) && root < |s.holds| && s.holds[root] > 0
    ensures forall f :: 0 <= f < |s'.ref| && f < |s.holds| ==>
              s'.ref[f] + (if f == root then 1 else 0) >= |Refs(s', f)| + s.holds[f]
    ensures FewerTables(s, s') && FreeGrew(s, s') && SparesSkipped(s, s', root) && forall r :: IsRoot(s, r) && r != root ==> IsRoot(s', r)
    ensures |s'.holds| == |s.holds| && forall f :: 0 <= f < |s.holds| ==> s'.holds[f] + (if f == root then 1 else 0) >= s.holds[f]
    ensures s'.holds == s.holds[root := s.holds[root] - 1] <==> RootClean(s, root)
  {
    hide RootClean, OthersSame, Refs, ListOk, EdgesOk, TreeOk, Edge, FreeGrew, LeafTable;
    FreeGrewTrans(s, s2, s');
    assert IsRoot(s2, root);
    if s'.holds == s.holds[root := s.holds[root] - 1] {
      assert forall f :: 0 <= f < |s.holds| ==> s2.holds[f] == s.holds[f];
      assert s2.holds == s.holds;
    }
  }

  /** No count falls below the references that remain, the free list keeps all it had and gets no
      page that had no reference, other address spaces translate as before, page tables that are
      not visited stay with all their entries, and everything is reclaimed exactly when nothing was
      mapped in the slots the loops leave out. */
  method EnvFree(k: Pmap, root: nat)
    requires Inv(k.St()) && IsRoot(k.St(), root) && root < |k.holds| && k.holds[root] > 0
    modifies k
    ensures Inv(k.St()) && root !in k.level && OthersSame(old(k.St()), k.St(), root)
    ensures |k.holds| == |old(k.holds)| && |k.ppRef| == |old(k.ppRef)|
    ensures forall f :: 0 <= f < |k.ppRef| && f < |k.holds| ==>
              k.ppRef[f] + (if f == root then 1 else 0) >= |Refs(k.St(), f)| + old(k.holds)[f]
    ensures FewerTables(old(k.St()), k.St()) && FreeGrew(old(k.St()), k.St()) && SparesSkipped(old(k.St()), k.St(), root)
    ensures forall r :: IsRoot(old(k.St()), r) && r != root ==> IsRoot(k.St(), r)
    ensures forall f :: 0 <= f < |k.holds| ==> k.holds[f] + (if f == root then 1 else 0) >= old(k.holds)[f]
    ensures k.holds == old(k.holds)[root := old(k.holds)[root] - 1] <==> RootClean(old(k.St()), root)
  {
    hide Inv, Edge, OthersSame, Cleared, Owned, DroppedTable, Refs, PdptClean, FreeGrew, SparesSkipped, RootClean;
    ghost var s := k.St();
    InvShape(s);
    RootSlot(s, root);
    if k.mem[root][0].p {
      var pdpt := k.mem[root][0].frame;
      ClearPdpt(k, root, pdpt);
      ghost var s1 := k.St();
      ClearedPath(s, s1, root, pdpt, USER_PDPES);
      DropTable(k, root, 0, root);
      ghost var s2 := k.St();
      OthersTrans(s, s1, s2, root);
      AfterPdpt(s, s1, s2, root, pdpt);
    } else {
      NoPdpt(s, root);
    }
    ghost var s2 := k.St();
    DropRoot(k, root);
    OthersTrans(s, s2, k.St(), root);
    EnvFreed(s, s2, k.St(), root);
    InvShape(k.St());
  }

  // ---------------------------------------------------------------- what is never given back

  /** A mapping at a skipped address keeps its reference for ever, and so the address space is not
      reclaimed completely. */
  lemma SkippedLeaks(s: State, root: nat, v: VPage)
    requires Inv(s) && IsRoot(s, root) && UserVa(v) && Skipped(v) && (root, v) in View(s)
    ensures !RootClean(s, root)
    ensures forall s' :: SparesSkipped(s, s', root) && Inv(s') ==> exists t: nat :: Edge(s', t, v.t) && Target(s', t, v.t) == View(s)[(root, v)].frame
  {
    hide Inv, View;
    ViewAt(s, root, v);
    PathLevels(s, root, v);
    var pt := LeafTable(s.mem, root, v).value;
    forall s' | SparesSkipped(s, s', root) && Inv(s')
      ensures Edge(s', pt, v.t) && Target(s', pt, v.t) == View(s)[(root, v)].frame
    {
      assert Spared(s, s', pt);
    }
    var pdpt := Target(s, root, v.m);
    var pgdir := Target(s, pdpt, v.p);
    assert Edge(s, root, v.m) && Edge(s, pdpt, v.p) && Edge(s, pgdir, v.d);
  }

  const USTACKTOP: nat := 0xEF7F_E000
  const FDTABLE: nat := 0xD000_0000
  const MAXFD: nat := 32

  /** The stack page of every environment is at such an address. */
  lemma StackSkipped()
    ensures Split(USTACKTOP - PGSIZE) == VPage(0, 3, 379, 509) && Skipped(Split(USTACKTOP - PGSIZE))
  {
  }

  /** So are the descriptor page and the data page of every file descriptor. */
  lemma DescriptorsSkipped(fd: nat)
    requires fd < MAXFD
    ensures Skipped(Split(FDTABLE + fd * PGSIZE)) && UserVa(Split(FDTABLE + fd * PGSIZE))
    ensures Skipped(Split(FDTABLE + MAXFD * PGSIZE + fd * PGSIZE)) && UserVa(Split(FDTABLE + MAXFD * PGSIZE + fd * PGSIZE))
  {
  }
}
