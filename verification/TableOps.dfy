/** The primitive changes the pmap code makes to physical memory, each with the lemma that
    it keeps the invariant and the lemma that says what it does to the translation. */
module TableOps {
  import opened Wrappers
  import opened FreeList
  import opened Mmu
  import opened PhysMem

  // ---------------------------------------------------------------- changes that move no edge

  ghost predicate SameEdges(s: State, s': State) {
    && s'.level == s.level && |s'.mem| == |s.mem|
    && (forall t, i :: Edge(s, t, i) <==> Edge(s', t, i))
    && (forall t: nat, i: nat :: Edge(s, t, i) ==> Target(s', t, i) == Target(s, t, i))
  }

  /** The last-level entries agree too. */
  ghost predicate SameLeaves(s: State, s': State) {
    SameEdges(s, s')
    && forall t: nat, i: nat :: Edge(s, t, i) && s.level[t] == 1 ==> s'.mem[t][i] == s.mem[t][i]
  }

  lemma SameEdgesInv(s: State, s': State)
    requires Inv(s) && SameEdges(s, s') && ListOk(s') && s'.ref == s.ref && s'.holds == s.holds
    ensures Inv(s')
  {
    forall f: nat ensures Refs(s', f) == Refs(s, f) {}
  }

  lemma TranslateExt(s: State, s': State)
    requires forall r: nat, v: VPage :: Translate(s', r, v) == Translate(s, r, v)
    ensures View(s') == View(s)
  {
    hide Translate;
    GraphExt((r: nat, v: VPage) => Translate(s, r, v), (r: nat, v: VPage) => Translate(s', r, v));
  }

  lemma ViewExt(s: State, s': State)
    requires forall r :: IsRoot(s, r) <==> IsRoot(s', r)
    requires forall r: nat, va: VPage :: IsRoot(s, r) && UserVa(va) ==> Lookup(s'.mem, r, va) == Lookup(s.mem, r, va)
    ensures View(s') == View(s)
  {
    assert forall r: nat, v: VPage :: Translate(s', r, v) == Translate(s, r, v);
    TranslateExt(s, s');
  }

  /** If no edge moves and the last-level entries stay, every walk and translation stays. */
  lemma SameLeavesView(s: State, s': State)
    requires Inv(s) && Inv(s') && SameLeaves(s, s')
    ensures View(s') == View(s)
    ensures forall r, va :: IsRoot(s, r) && UserVa(va) ==> LeafTable(s'.mem, r, va) == LeafTable(s.mem, r, va)
  {
    forall r: nat, va: VPage | IsRoot(s, r) && UserVa(va)
      ensures LeafTable(s'.mem, r, va) == LeafTable(s.mem, r, va) && Lookup(s'.mem, r, va) == Lookup(s.mem, r, va)
    {
      SamePath(s, s', r, va);
    }
    ViewExt(s, s');
  }

  lemma SamePath(s: State, s': State, r: nat, va: VPage)
    requires Inv(s) && Inv(s') && SameLeaves(s, s') && IsRoot(s, r) && UserVa(va)
    ensures LeafTable(s'.mem, r, va) == LeafTable(s.mem, r, va) && Lookup(s'.mem, r, va) == Lookup(s.mem, r, va)
  {
    hide Inv;
    PathLevels(s, r, va);
    StepSame(s, s', r, va.m);
    var a := Step(s.mem, Some(r), va.m);
    if a.Some? {
      StepSame(s, s', a.value, va.p);
      var b := Step(s.mem, a, va.p);
      if b.Some? {
        StepSame(s, s', b.value, va.d);
        var c := Step(s.mem, b, va.d);
        if c.Some? { StepSame(s, s', c.value, va.t); }
      }
    }
  }

  lemma StepSame(s: State, s': State, t: nat, i: nat)
    requires Inv(s) && Inv(s') && SameEdges(s, s') && t in s.level && i < 512 && (s.level[t] == 4 ==> i !in SHARED)
    ensures Step(s'.mem, Some(t), i) == Step(s.mem, Some(t), i)
    ensures Step(s.mem, Some(t), i).Some? <==> Edge(s, t, i)
  {
    assert Edge(s, t, i) <==> Edge(s', t, i);
  }

  /** Writing one entry, the only change to a table the code makes. */
  function WriteEntry(s: State, t: nat, i: nat, e: Entry): (s': State)
    requires t < |s.mem| && i < |s.mem[t]|
  {
    s.(mem := s.mem[t := s.mem[t][i := e]])
  }

  lemma WriteEntryList(s: State, t: nat, i: nat, e: Entry)
    requires ListOk(s) && t < |s.mem| && i < 512
    ensures ListOk(WriteEntry(s, t, i, e))
  {
  }

  lemma WriteSameEdges(s: State, t: nat, i: nat, e: Entry)
    requires t in s.level && t < |s.mem| && i < |s.mem[t]|
    requires e.p == s.mem[t][i].p && e.frame == s.mem[t][i].frame && s.level[t] > 1
    ensures SameLeaves(s, WriteEntry(s, t, i, e))
  {
  }

  /** s' differs from s only in the contents of tables, and translates and walks alike. */
  ghost predicate SameWalks(s: State, s': State) {
    && s' == s.(mem := s'.mem) && Inv(s') && View(s') == View(s)
    && (forall r, va :: IsRoot(s, r) && UserVa(va) ==> LeafTable(s'.mem, r, va) == LeafTable(s.mem, r, va))
  }

  /** Or-ing permission bits into a present upper-level entry. */
  lemma WidenEntry(s: State, t: nat, i: nat, x: bv12)
    requires Inv(s) && Edge(s, t, i) && s.level[t] > 1
    ensures var s' := WriteEntry(s, t, i, s.mem[t][i].(perm := s.mem[t][i].perm | x));
            SameWalks(s, s') && SameLeaves(s, s')
  {
    var e := s.mem[t][i].(perm := s.mem[t][i].perm | x);
    var s' := WriteEntry(s, t, i, e);
    assert i < 512;
    WriteEntryList(s, t, i, e);
    WriteSameEdges(s, t, i, e);
    hide Inv, View;
    SameEdgesInv(s, s');
    SameLeavesView(s, s');
  }

  // ---------------------------------------------------------------- one more edge

  /** s' has the edges of s and one more, at slot i of table t. */
  ghost predicate AddsEdge(s: State, s': State, t: nat, i: nat) {
    && i < 512 && !Edge(s, t, i) && Edge(s', t, i)
    && (forall u, j :: Edge(s', u, j) <==> Edge(s, u, j) || (u == t && j == i))
    && (forall u: nat, j: nat :: Edge(s, u, j) ==> u in s'.level && s'.level[u] == s.level[u] && s'.mem[u][j] == s.mem[u][j])
  }

  lemma AddsEdgeRefs(s: State, s': State, t: nat, i: nat, f: nat)
    requires AddsEdge(s, s', t, i)
    ensures Refs(s', f) == Refs(s, f) + (if f == Target(s', t, i) then {(t, i)} else {})
    ensures (t, i) !in Refs(s, f)
  {
  }

  lemma AddsEdgeCount(s: State, s': State, t: nat, i: nat)
    requires AddsEdge(s, s', t, i) && CountOk(s) && s'.holds == s.holds && Target(s', t, i) < |s.ref| <= |s.holds|
    requires s'.ref == s.ref[Target(s', t, i) := s.ref[Target(s', t, i)] + 1]
    ensures CountOk(s')
  {
    forall f | 0 <= f < |s'.ref| ensures s'.ref[f] == |Refs(s', f)| + s'.holds[f] {
      AddsEdgeRefs(s, s', t, i, f);
    }
  }

  lemma AddsEdgeTree(s: State, s': State, t: nat, i: nat)
    requires AddsEdge(s, s', t, i) && TreeOk(s)
    requires s'.level[t] > 1 ==> forall u: nat, j: nat :: Edge(s, u, j) ==> Target(s, u, j) != Target(s', t, i)
    ensures TreeOk(s')
  {
    forall u: nat, j: nat, v: nat, k: nat |
      Edge(s', u, j) && Edge(s', v, k) && s'.level[u] > 1 && s'.level[v] > 1 && Target(s', u, j) == Target(s', v, k)
      ensures u == v && j == k
    {
      assert (u == t && j == i) || (Edge(s, u, j) && Target(s', u, j) == Target(s, u, j));
      assert (v == t && k == i) || (Edge(s, v, k) && Target(s', v, k) == Target(s, v, k));
    }
  }

  // ---------------------------------------------------------------- a new table

  /** page_alloc(ALLOC_ZERO), pp_ref += 1 and the write of the parent's entry. */
  function NewTable(s: State, t: nat, i: nat): (s': State)
    requires |s.free| > 0 && s.free[0] < |s.ref| && s.free[0] < |s.link| && s.free[0] < |s.mem|
    requires t < |s.mem| && i < |s.mem[t]| && t != s.free[0] && t in s.level && s.level[t] > 1
  {
    var p := s.free[0];
    State(s.ref[p := 1], s.link[p := None], s.link[p],
          s.mem[p := ZeroPage()][t := s.mem[t][i := Entry(true, p, PTE_UW)]],
          s.free[1..], s.level[p := s.level[t] - 1], s.holds)
  }

  ghost predicate CanLink(s: State, t: nat, i: nat) {
    && Inv(s) && t in s.level && s.level[t] > 1 && i < 512 && !Edge(s, t, i) && |s.free| > 0
    && (s.level[t] == 4 ==> i !in SHARED)
  }

  lemma NewTableEdges(s: State, t: nat, i: nat)
    requires CanLink(s, t, i)
    ensures t != s.free[0] && s.free[0] < |s.ref| && s.free[0] !in s.level
    ensures var s' := NewTable(s, t, i); AddsEdge(s, s', t, i) && Target(s', t, i) == s.free[0]
    ensures forall u: nat, j: nat :: Edge(s, u, j) ==> Target(s, u, j) != s.free[0]
  {
    hide TreeOk, CountOk;
    FreePageUnreachable(s, s.free[0]);
  }

  lemma NewTableList(s: State, t: nat, i: nat)
    requires ListOk(s) && |s.free| > 0 && t in s.level && s.level[t] > 1 && t < |s.mem| && i < 512 && t != s.free[0]
    ensures ListOk(NewTable(s, t, i))
  {
    Pop(s.head, s.link, s.free);
  }

  lemma NewTableInv(s: State, t: nat, i: nat)
    requires CanLink(s, t, i)
    ensures t != s.free[0] && s.free[0] < |s.ref| && s.free[0] !in s.level && Inv(NewTable(s, t, i))
  {
    hide ListOk, LevelsOk, EdgesOk, TreeOk, CountOk, AddsEdge, Shape, Edge;
    InvShape(s);
    NewTableEdges(s, t, i);
    NewTableList(s, t, i);
    var s' := NewTable(s, t, i);
    AddsEdgeCount(s, s', t, i);
    AddsEdgeTree(s, s', t, i);
    NewTableTargets(s, t, i);
  }

  lemma NewTableTargets(s: State, t: nat, i: nat)
    requires CanLink(s, t, i) && t != s.free[0]
    ensures EdgesOk(NewTable(s, t, i)) && LevelsOk(NewTable(s, t, i))
  {
    NewTableEdges(s, t, i);
    var s' := NewTable(s, t, i);
    forall u: nat, j: nat | Edge(s', u, j)
      ensures Target(s', u, j) < |s'.ref|
      ensures if s'.level[u] > 1 then Target(s', u, j) in s'.level && s'.level[Target(s', u, j)] == s'.level[u] - 1
              else Target(s', u, j) !in s'.level
    {
      if u == t && j == i {} else { assert Edge(s, u, j); }
    }
  }

  /** The new entry names the page and lets users read and write below it; the table itself is empty. */
  lemma NewTableEntry(s: State, t: nat, i: nat)
    requires CanLink(s, t, i) && t != s.free[0]
    ensures s.free[0] < |s.ref| && s.free[0] < |s.link| && s.free[0] < |s.mem| && t < |s.mem| && i < |s.mem[t]|
    ensures var s', p := NewTable(s, t, i), s.free[0];
            && s'.mem[t][i].p && s'.mem[t][i].frame == p && s'.mem[t][i].perm == 0x006 && s'.level[p] == s.level[t] - 1
            && |s'.mem[p]| == 512 && (forall j :: 0 <= j < 512 ==> !s'.mem[p][j].p)
            && (forall j :: 0 <= j < |s.mem[t]| && j != i ==> s'.mem[t][j] == s.mem[t][j])
  {
    hide LevelsOk, EdgesOk, TreeOk, CountOk, Chain;
    InvShape(s);
    assert s.free[0] in s.free;
  }

  lemma NewTableView(s: State, t: nat, i: nat)
    requires CanLink(s, t, i) && t != s.free[0]
    ensures View(NewTable(s, t, i)) == View(s)
  {
    NewTableEdges(s, t, i);
    var s' := NewTable(s, t, i);
    forall r: nat, va: VPage | IsRoot(s, r) && UserVa(va)
      ensures Lookup(s'.mem, r, va) == Lookup(s.mem, r, va)
    {
      NewTableLookup(s, t, i, r, va);
    }
    ViewExt(s, s');
  }

  lemma NewTableLookup(s: State, t: nat, i: nat, r: nat, va: VPage)
    requires CanLink(s, t, i) && IsRoot(s, r) && UserVa(va) && t != s.free[0]
    ensures Lookup(NewTable(s, t, i).mem, r, va) == Lookup(s.mem, r, va)
  {
    hide Inv;
    FreePageUnreachable(s, s.free[0]);
    InvShape(s);
    var s' := NewTable(s, t, i);
    assert forall j :: 0 <= j < 512 ==> Step(s'.mem, Some(s.free[0]), j) == None;
    PathLevels(s, r, va);
    NewTableStep(s, t, i, r, va.m);
    var a := Step(s.mem, Some(r), va.m);
    if a.Some? {
      NewTableStep(s, t, i, a.value, va.p);
      var b := Step(s.mem, a, va.p);
      if b.Some? {
        NewTableStep(s, t, i, b.value, va.d);
        var c := Step(s.mem, b, va.d);
        if c.Some? { NewTableStep(s, t, i, c.value, va.t); }
      }
    }
  }

  lemma NewTableStep(s: State, t: nat, i: nat, u: nat, j: nat)
    requires CanLink(s, t, i) && u in s.level && j < 512 && (s.level[u] == 4 ==> j !in SHARED)
    requires t != s.free[0]
    ensures var o := Step(NewTable(s, t, i).mem, Some(u), j);
            if u == t && j == i then o == Some(s.free[0]) && Step(s.mem, Some(u), j) == None
            else o == Step(s.mem, Some(u), j)
    ensures Step(s.mem, Some(u), j).Some? ==> Edge(s, u, j) && NewTable(s, t, i).mem[u][j] == s.mem[u][j]
  {
    NewTableEdges(s, t, i);
    var s' := NewTable(s, t, i);
    assert Edge(s', u, j) <==> Step(s'.mem, Some(u), j).Some?;
    assert Edge(s, u, j) <==> Step(s.mem, Some(u), j).Some?;
  }

  // ---------------------------------------------------------------- last-level entries

  /** The view is what Lookup reads. */
  lemma ViewAt(s: State, r: nat, va: VPage)
    requires IsRoot(s, r) && UserVa(va)
    ensures (r, va) in View(s) <==> Lookup(s.mem, r, va).Some?
    ensures (r, va) in View(s) ==> View(s)[(r, va)] == Lookup(s.mem, r, va).value
    ensures (r, va) !in View(s) ==> View(s) - {(r, va)} == View(s)
  {
    assert Translate(s, r, va) == Lookup(s.mem, r, va);
  }

  lemma RemoveLeafAll(s: State, r: nat, va: VPage, t: nat)
    requires Inv(s) && IsRoot(s, r) && UserVa(va) && LeafTable(s.mem, r, va) == Some(t) && Edge(s, t, va.t)
    ensures Removable(s, t, va.t) && Inv(RemoveLeaf(s, t, va.t))
    ensures View(RemoveLeaf(s, t, va.t)) == View(s) - {(r, va)}
  {
    hide Inv, View;
    PathLevels(s, r, va);
    RemoveLeafInv(s, t, va.t);
    LeafView(s, RemoveLeaf(s, t, va.t), r, va, t, ZERO);
  }

  /** The entry a walk finds is an edge of a last-level table. */
  lemma FoundEdge(s: State, r: nat, va: VPage, t: nat)
    requires Inv(s) && IsRoot(s, r) && UserVa(va) && LeafTable(s.mem, r, va) == Some(t)
    ensures t in s.level && s.level[t] == 1 && t < |s.mem| && |s.mem[t]| == 512
    ensures s.mem[t][va.t].p <==> Edge(s, t, va.t)
    ensures Lookup(s.mem, r, va) == if s.mem[t][va.t].p then Some(s.mem[t][va.t]) else None
  {
    PathLevels(s, r, va);
  }

  function InsertLeaf(s: State, t: nat, i: nat, pp: nat, perm: bv12): (s': State)
    requires t < |s.mem| && i < |s.mem[t]| && pp < |s.ref|
  {
    WriteEntry(s, t, i, Entry(true, pp, perm)).(ref := s.ref[pp := (s.ref[pp] + 1) % 0x1_0000])
  }

  lemma InsertLeafInv(s: State, t: nat, i: nat, pp: nat, perm: bv12)
    requires Inv(s) && t in s.level && s.level[t] == 1 && i < 512 && !Edge(s, t, i)
    requires pp < |s.ref| && pp !in s.level && pp !in s.free && s.ref[pp] < 0xFFFF
    ensures Inv(InsertLeaf(s, t, i, pp, perm))
  {
    InsertLeafEdges(s, t, i, pp, perm);
    InsertLeafCounts(s, t, i, pp, perm);
    InsertLeafList(s, t, i, pp, perm);
  }

  /** pp_ref has sixteen bits: the insertion keeps the invariant exactly while the count is not
      yet at its maximum. */
  lemma InsertLeafIff(s: State, t: nat, i: nat, pp: nat, perm: bv12)
    requires Inv(s) && t in s.level && s.level[t] == 1 && i < 512 && !Edge(s, t, i)
    requires pp < |s.ref| && pp !in s.level && pp !in s.free
    ensures Inv(InsertLeaf(s, t, i, pp, perm)) <==> s.ref[pp] < 0xFFFF
  {
    hide ListOk, LevelsOk, EdgesOk, TreeOk, CountOk, AddsEdge, Edge;
    InvShape(s);
    if s.ref[pp] < 0xFFFF {
      InsertLeafInv(s, t, i, pp, perm);
    } else {
      InsertLeafEdges(s, t, i, pp, perm);
      InsertLeafWraps(s, t, i, pp, perm);
    }
  }

  lemma InsertLeafWraps(s: State, t: nat, i: nat, pp: nat, perm: bv12)
    requires Shape(s) && t in s.level && t < |s.mem| && i < 512 && pp < |s.ref| && s.ref[pp] >= 0xFFFF
    requires AddsEdge(s, InsertLeaf(s, t, i, pp, perm), t, i)
    ensures !CountOk(InsertLeaf(s, t, i, pp, perm))
  {
    var s' := InsertLeaf(s, t, i, pp, perm);
    AddsEdgeRefs(s, s', t, i, pp);
    assert s'.ref[pp] == 0 && (t, i) in Refs(s', pp);
  }

  lemma InsertLeafList(s: State, t: nat, i: nat, pp: nat, perm: bv12)
    requires ListOk(s) && LevelsOk(s) && t < |s.mem| && i < 512
    requires pp < |s.ref| && pp !in s.free && pp !in s.level && s.ref[pp] < 0xFFFF
    ensures ListOk(InsertLeaf(s, t, i, pp, perm)) && LevelsOk(InsertLeaf(s, t, i, pp, perm))
  {
    WriteEntryList(s, t, i, Entry(true, pp, perm));
    RaiseRefList(WriteEntry(s, t, i, Entry(true, pp, perm)), pp);
  }

  lemma InsertLeafCounts(s: State, t: nat, i: nat, pp: nat, perm: bv12)
    requires Shape(s) && CountOk(s) && TreeOk(s) && t in s.level && s.level[t] == 1 && t < |s.mem| && i < 512
    requires pp < |s.ref| && s.ref[pp] < 0xFFFF && AddsEdge(s, InsertLeaf(s, t, i, pp, perm), t, i)
    ensures CountOk(InsertLeaf(s, t, i, pp, perm)) && TreeOk(InsertLeaf(s, t, i, pp, perm))
  {
    var s' := InsertLeaf(s, t, i, pp, perm);
    AddsEdgeCount(s, s', t, i);
    AddsEdgeTree(s, s', t, i);
  }

  lemma RaiseRefList(s: State, pp: nat)
    requires ListOk(s) && pp < |s.ref| && pp !in s.free && s.ref[pp] < 0xFFFF
    ensures ListOk(s.(ref := s.ref[pp := s.ref[pp] + 1]))
  {
  }

  lemma InsertLeafEdges(s: State, t: nat, i: nat, pp: nat, perm: bv12)
    requires Shape(s) && EdgesOk(s) && t in s.level && s.level[t] == 1 && t < |s.mem| && i < 512 && !Edge(s, t, i)
    requires pp < |s.ref| && pp !in s.level
    ensures AddsEdge(s, InsertLeaf(s, t, i, pp, perm), t, i) && EdgesOk(InsertLeaf(s, t, i, pp, perm))
  {
    var s' := InsertLeaf(s, t, i, pp, perm);
    assert AddsEdge(s, s', t, i);
  }

  function DropRef(s: State, f: nat): (s': State)
    requires f < |s.ref| && f < |s.link| && s.ref[f] > 0
  {
    if s.ref[f] == 1
    then s.(ref := s.ref[f := 0], link := s.link[f := s.head], head := Some(f), free := [f] + s.free)
    else s.(ref := s.ref[f := s.ref[f] - 1])
  }

  lemma DropRefList(s: State, f: nat)
    requires ListOk(s) && f < |s.ref| && s.ref[f] > 0
    ensures ListOk(DropRef(s, f))
  {
    if s.ref[f] == 1 { Push(s.head, s.link, s.free, f); }
  }

  ghost predicate Removable(s: State, t: nat, i: nat)
    requires Edge(s, t, i)
  {
    Shape(s) && Target(s, t, i) < |s.ref| && s.ref[Target(s, t, i)] > 0
  }

  /** Writing new permissions over the page that is already there. */
  lemma RewriteLeaf(s: State, r: nat, va: VPage, t: nat, perm: bv12)
    requires Inv(s) && IsRoot(s, r) && UserVa(va) && LeafTable(s.mem, r, va) == Some(t) && Edge(s, t, va.t)
    ensures var e := Entry(true, Target(s, t, va.t), perm); var s' := WriteEntry(s, t, va.t, e);
            Inv(s') && View(s') == View(s)[(r, va) := e]
  {
    PathLevels(s, r, va);
    var e := Entry(true, Target(s, t, va.t), perm);
    var s' := WriteEntry(s, t, va.t, e);
    WriteEntryList(s, t, va.t, e);
    RewriteEdges(s, t, va.t, perm);
    hide Inv, View;
    SameEdgesInv(s, s');
    LeafView(s, s', r, va, t, e);
  }

  lemma RewriteEdges(s: State, t: nat, i: nat, perm: bv12)
    requires Edge(s, t, i)
    ensures SameEdges(s, WriteEntry(s, t, i, Entry(true, Target(s, t, i), perm)))
  {
  }

  lemma InsertLeafAll(s: State, r: nat, va: VPage, t: nat, pp: nat, perm: bv12)
    requires Inv(s) && IsRoot(s, r) && UserVa(va) && LeafTable(s.mem, r, va) == Some(t) && !Edge(s, t, va.t)
    requires pp < |s.ref| && pp !in s.level && pp !in s.free && s.ref[pp] < 0xFFFF
    ensures t < |s.mem| && va.t < |s.mem[t]| && Inv(InsertLeaf(s, t, va.t, pp, perm))
    ensures View(InsertLeaf(s, t, va.t, pp, perm)) == View(s)[(r, va) := Entry(true, pp, perm)]
  {
    PathLevels(s, r, va);
    assert t < |s.mem| && va.t < |s.mem[t]|;
    hide Inv, View;
    InsertLeafInv(s, t, va.t, pp, perm);
    LeafView(s, InsertLeaf(s, t, va.t, pp, perm), r, va, t, Entry(true, pp, perm));
  }

  ghost function RemoveLeaf(s: State, t: nat, i: nat): (s': State)
    requires Edge(s, t, i) && Removable(s, t, i)
  {
    DropRef(WriteEntry(s, t, i, ZERO), Target(s, t, i))
  }

  /** page_decref first and the entry second gives the same state. */
  lemma RemoveLeafIs(s: State, t: nat, i: nat)
    requires Edge(s, t, i) && Removable(s, t, i)
    ensures RemoveLeaf(s, t, i) == WriteEntry(DropRef(s, Target(s, t, i)), t, i, ZERO)
  {
  }

  lemma RemovedCounts(s: State, t: nat, i: nat)
    requires Edge(s, t, i) && Removable(s, t, i)
    ensures var s' := RemoveLeaf(s, t, i); var f := Target(s, t, i);
            && !Edge(s', t, i) && s'.level == s.level && s'.holds == s.holds && f < |s.ref| && s.ref[f] > 0
            && s'.ref == s.ref[f := s.ref[f] - 1]
            && s'.free == (if s.ref[f] == 1 then [f] else []) + s.free
            && s'.mem == WriteEntry(s, t, i, ZERO).mem
  {
  }

  /** Removing the entry leaves the table it was in where it is. */
  lemma RemovedPath(s: State, r: nat, va: VPage, t: nat)
    requires Inv(s) && IsRoot(s, r) && UserVa(va) && LeafTable(s.mem, r, va) == Some(t) && Edge(s, t, va.t)
    requires Removable(s, t, va.t)
    ensures LeafTable(RemoveLeaf(s, t, va.t).mem, r, va) == Some(t)
  {
    PathLevels(s, r, va);
    LeafPath(s, RemoveLeaf(s, t, va.t), t, va.t, ZERO, r, va);
  }

  lemma EdgeCounted(s: State, t: nat, i: nat)
    requires Inv(s) && Edge(s, t, i)
    ensures Removable(s, t, i)
    ensures if s.level[t] > 1 then Target(s, t, i) in s.level && s.level[Target(s, t, i)] == s.level[t] - 1
            else Target(s, t, i) !in s.level
  {
    assert (t, i) in Refs(s, Target(s, t, i));
  }

  lemma RemoveLeafInv(s: State, t: nat, i: nat)
    requires Inv(s) && Edge(s, t, i) && s.level[t] == 1
    ensures Removable(s, t, i) && Inv(RemoveLeaf(s, t, i))
  {
    hide ListOk, LevelsOk, EdgesOk, TreeOk, CountOk, AddsEdge, Shape;
    EdgeCounted(s, t, i);
    InvShape(s);
    RemoveLeafEdges(s, t, i);
    RemoveLeafList(s, t, i);
    RemovedCounts(s, t, i);
    AddsEdgeCountBack(RemoveLeaf(s, t, i), s, t, i);
  }

  lemma RemoveLeafList(s: State, t: nat, i: nat)
    requires ListOk(s) && LevelsOk(s) && Edge(s, t, i) && Target(s, t, i) !in s.level
    requires Removable(s, t, i)
    ensures ListOk(RemoveLeaf(s, t, i)) && LevelsOk(RemoveLeaf(s, t, i))
  {
    WriteEntryList(s, t, i, ZERO);
    DropRefList(WriteEntry(s, t, i, ZERO), Target(s, t, i));
  }

  lemma RemoveLeafEdges(s: State, t: nat, i: nat)
    requires Shape(s) && EdgesOk(s) && TreeOk(s) && Edge(s, t, i) && s.level[t] == 1
    requires Removable(s, t, i)
    ensures AddsEdge(RemoveLeaf(s, t, i), s, t, i)
    ensures EdgesOk(RemoveLeaf(s, t, i)) && TreeOk(RemoveLeaf(s, t, i))
  {
    var s' := RemoveLeaf(s, t, i);
    assert s'.mem == WriteEntry(s, t, i, ZERO).mem && s'.level == s.level;
    FewerEdges(s, s', t, i);
  }

  lemma FewerEdges(s: State, s': State, t: nat, i: nat)
    requires Shape(s) && EdgesOk(s) && TreeOk(s) && Edge(s, t, i) && |s'.ref| == |s.ref|
    requires s'.mem == WriteEntry(s, t, i, ZERO).mem && s'.level == s.level
    ensures AddsEdge(s', s, t, i) && EdgesOk(s') && TreeOk(s')
  {
    assert forall u, j :: Edge(s', u, j) <==> Edge(s, u, j) && !(u == t && j == i);
    assert forall u: nat, j: nat :: Edge(s', u, j) ==> Target(s', u, j) == Target(s, u, j);
  }

  lemma AddsEdgeCountBack(s: State, s': State, t: nat, i: nat)
    requires AddsEdge(s, s', t, i) && CountOk(s') && s'.holds == s.holds && Target(s', t, i) < |s'.ref| <= |s.holds|
    requires s'.ref[Target(s', t, i)] > 0 && s.ref == s'.ref[Target(s', t, i) := s'.ref[Target(s', t, i)] - 1]
    ensures CountOk(s)
  {
    forall f | 0 <= f < |s.ref| ensures s.ref[f] == |Refs(s, f)| + s.holds[f] {
      AddsEdgeRefs(s, s', t, i, f);
    }
  }

  /** A change of one last-level entry changes the translation of one page, the one the walk
      came for. */
  lemma LeafView(s: State, s': State, r: nat, va: VPage, t: nat, e: Entry)
    requires Inv(s) && IsRoot(s, r) && UserVa(va) && LeafTable(s.mem, r, va) == Some(t)
    requires s'.level == s.level && t < |s.mem| && s'.mem == WriteEntry(s, t, va.t, e).mem
    ensures View(s') == if e.p then View(s)[(r, va) := e] else View(s) - {(r, va)}
  {
    forall r': nat, v: VPage
      ensures Translate(s', r', v)
           == if r' == r && v == va then (if e.p then Some(e) else None) else Translate(s, r', v)
    {
      if IsRoot(s, r') && UserVa(v) { LeafLookup(s, s', r, va, t, e, r', v); }
    }
    GraphUpdate((r: nat, v: VPage) => Translate(s, r, v), (r: nat, v: VPage) => Translate(s', r, v), r, va, e);
  }

  lemma LeafPath(s: State, s': State, t: nat, i: nat, e: Entry, r: nat, va: VPage)
    requires Inv(s) && t in s.level && s.level[t] == 1 && IsRoot(s, r) && UserVa(va) && i < 512
    requires s'.mem == WriteEntry(s, t, i, e).mem
    ensures LeafTable(s'.mem, r, va) == LeafTable(s.mem, r, va)
  {
    PathLevels(s, r, va);
  }

  lemma LeafLookup(s: State, s': State, r: nat, va: VPage, t: nat, e: Entry, r': nat, va': VPage)
    requires Inv(s) && IsRoot(s, r) && UserVa(va) && LeafTable(s.mem, r, va) == Some(t)
    requires s'.level == s.level && t < |s.mem| && s'.mem == WriteEntry(s, t, va.t, e).mem
    requires IsRoot(s, r') && UserVa(va')
    ensures Lookup(s'.mem, r', va')
         == if r' == r && va' == va then (if e.p then Some(e) else None) else Lookup(s.mem, r', va')
  {
    hide Inv, LeafTable;
    FoundEdge(s, r, va, t);
    LeafPath(s, s', t, va.t, e, r', va');
    if LeafTable(s.mem, r', va') == Some(t) { UniquePath(s, r, va, r', va'); }
  }
}
