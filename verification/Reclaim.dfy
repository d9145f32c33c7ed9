/** References that do not come from table entries: how an entry, a whole table or a new root
    turns into a hold or out of one. */
module Reclaim {
  import opened Wrappers
  import opened FreeList
  import opened Mmu
  import opened PhysMem
  import opened TableOps

  // ---------------------------------------------------------------- giving up a hold

  /** page_decref by a holder. */
  function Release(s: State, p: nat): (s': State)
    requires p < |s.ref| && p < |s.link| && p < |s.holds| && s.ref[p] > 0 && s.holds[p] > 0
  {
    DropRef(s, p).(holds := s.holds[p := s.holds[p] - 1])
  }

  lemma HeldCounted(s: State, p: nat)
    requires Inv(s) && p < |s.holds| && s.holds[p] > 0
    ensures p < |s.ref| && p < |s.link| && s.ref[p] > 0
  {
  }

  lemma ReleaseInv(s: State, p: nat)
    requires Inv(s) && p < |s.holds| && s.holds[p] > 0 && p !in s.level
    ensures p < |s.ref| && p < |s.link| && s.ref[p] > 0 && Inv(Release(s, p)) && View(Release(s, p)) == View(s)
  {
    hide View, LeafTable, Lookup, Chain;
    HeldCounted(s, p);
    var s' := Release(s, p);
    DropRefList(s, p);
    assert ListOk(s');
    assert forall t, i :: Edge(s', t, i) <==> Edge(s, t, i);
    ReleaseCount(s, s', p);
    ReleaseView(s, s');
  }

  lemma ReleaseView(s: State, s': State)
    requires s'.mem == s.mem && s'.level == s.level
    ensures View(s') == View(s)
  {
    ViewExt(s, s');
  }

  lemma ReleaseCount(s: State, s': State, p: nat)
    requires CountOk(s) && p < |s.ref| == |s.holds| && s.ref[p] > 0 && s.holds[p] > 0
    requires s'.mem == s.mem && s'.level == s.level
    requires s'.ref == s.ref[p := s.ref[p] - 1] && s'.holds == s.holds[p := s.holds[p] - 1]
    ensures CountOk(s')
  {
    forall f: nat ensures Refs(s', f) == Refs(s, f) {}
  }

  // ---------------------------------------------------------------- clearing an upper-level entry

  /** The entry is cleared and the reference it stood for is held instead. */
  function EdgeToHold(s: State, t: nat, i: nat): (s': State)
    requires Edge(s, t, i) && Target(s, t, i) < |s.holds|
  {
    var p := Target(s, t, i);
    WriteEntry(s, t, i, ZERO).(holds := s.holds[p := s.holds[p] + 1])
  }

  lemma EdgeToHoldInv(s: State, t: nat, i: nat)
    requires Inv(s) && Edge(s, t, i)
    ensures Target(s, t, i) < |s.holds| && Inv(EdgeToHold(s, t, i))
  {
    hide TreeOk, CountOk;
    EdgeCounted(s, t, i);
    var s' := EdgeToHold(s, t, i);
    WriteEntryList(s, t, i, ZERO);
    FewerEdges(s, s', t, i);
    HoldCount(s', s, t, i);
  }

  lemma HoldCount(s: State, s': State, t: nat, i: nat)
    requires AddsEdge(s, s', t, i) && CountOk(s') && s.ref == s'.ref && |s'.holds| == |s'.ref| && Target(s', t, i) < |s'.holds|
    requires s.holds == s'.holds[Target(s', t, i) := s'.holds[Target(s', t, i)] + 1]
    ensures CountOk(s)
  {
    forall f | 0 <= f < |s.ref| ensures s.ref[f] == |Refs(s, f)| + s.holds[f] {
      AddsEdgeRefs(s, s', t, i, f);
    }
  }

  // ---------------------------------------------------------------- giving up a table

  ghost function Row(s: State, p: nat, f: nat): set<(nat, nat)> {
    set e | e in Refs(s, f) && e.0 == p
  }

  ghost function Leaked(s: State, p: nat): (h: seq<nat>)
    ensures |h| == |s.holds| && forall f :: 0 <= f < |h| ==> h[f] == s.holds[f] + |Row(s, p, f)|
  {
    seq(|s.holds|, f requires 0 <= f < |s.holds| => s.holds[f] + |Row(s, p, f)|)
  }

  /** Table p stops being live; the references its entries stood for are forgotten, that is,
      held by nobody who will ever give them up. */
  ghost function Orphan(s: State, p: nat): (s': State) {
    s.(level := s.level - {p}, holds := Leaked(s, p))
  }

  lemma OrphanInv(s: State, p: nat)
    requires Inv(s) && p in s.level && Refs(s, p) == {}
    ensures Inv(Orphan(s, p))
  {
    hide CountOk, Chain;
    var s' := Orphan(s, p);
    assert forall t, i :: Edge(s', t, i) <==> Edge(s, t, i) && t != p;
    assert forall t: nat, i: nat :: Edge(s, t, i) ==> Target(s, t, i) != p by {
      forall t: nat, i: nat | Edge(s, t, i) ensures Target(s, t, i) != p { assert (t, i) !in Refs(s, p); }
    }
    assert EdgesOk(s');
    OrphanCount(s, p);
  }

  lemma OrphanCount(s: State, p: nat)
    requires CountOk(s) && |s.holds| == |s.ref|
    ensures CountOk(Orphan(s, p))
  {
    var s' := Orphan(s, p);
    forall f | 0 <= f < |s'.ref| ensures s'.ref[f] == |Refs(s', f)| + s'.holds[f] {
      assert Refs(s', f) == Refs(s, f) - Row(s, p, f);
      assert Row(s, p, f) <= Refs(s, f);
    }
  }

  // ---------------------------------------------------------------- a new root

  predicate NewRootReady(s: State) {
    |s.free| > 0 && s.free[0] < |s.ref| && s.free[0] < |s.link| && s.free[0] < |s.mem| && s.free[0] < |s.holds|
  }

  /** env_setup_vm: a zeroed page becomes a root; slot 1 is the kernel's, slot 2 points back. */
  function NewRoot(s: State, kernel: Entry): (s': State)
    requires NewRootReady(s)
  {
    var p := s.free[0];
    State(s.ref[p := 1], s.link[p := None], s.link[p],
          s.mem[p := ZeroPage()[1 := kernel][2 := Entry(true, p, 4)]],
          s.free[1..], s.level[p := 4], s.holds[p := s.holds[p] + 1])
  }

  lemma NewRootInv(s: State, kernel: Entry)
    requires Inv(s) && |s.free| > 0
    ensures NewRootReady(s) && Inv(NewRoot(s, kernel)) && View(NewRoot(s, kernel)) == View(s)
  {
    hide CountOk, Chain, View, LeafTable, Lookup;
    var p := s.free[0];
    FreePageUnreachable(s, p);
    var s' := NewRoot(s, kernel);
    Pop(s.head, s.link, s.free);
    assert ListOk(s');
    NewRootEdges(s, s', p);
    NewRootCount(s, s', p);
    NewRootView(s, s', p);
  }

  lemma NewRootEdges(s: State, s': State, p: nat)
    requires LevelsOk(s) && EdgesOk(s) && p !in s.level && p < |s.mem| == |s.ref|
    requires forall t: nat, i: nat :: Edge(s, t, i) ==> Target(s, t, i) != p
    requires |s'.ref| == |s.ref| && s'.level == s.level[p := 4] && |s'.mem| == |s.mem| && |s'.mem[p]| == 512
    requires forall t :: 0 <= t < |s.mem| && t != p ==> s'.mem[t] == s.mem[t]
    requires forall i :: 0 <= i < 512 && i !in SHARED ==> !s'.mem[p][i].p
    ensures forall t, i :: Edge(s', t, i) <==> Edge(s, t, i)
    ensures EdgesOk(s') && (TreeOk(s) ==> TreeOk(s'))
  {
    assert forall t, i :: Edge(s', t, i) <==> Edge(s, t, i);
  }

  lemma NewRootCount(s: State, s': State, p: nat)
    requires CountOk(s) && p < |s.ref| == |s.holds| && s.ref[p] == 0 && |s'.mem| == |s.mem|
    requires s'.ref == s.ref[p := 1] && s'.holds == s.holds[p := s.holds[p] + 1]
    requires forall t, i :: Edge(s', t, i) <==> Edge(s, t, i)
    requires forall t :: 0 <= t < |s.mem| && t != p ==> s'.mem[t] == s.mem[t]
    requires p !in s.level && s'.level == s.level[p := 4]
    ensures CountOk(s')
  {
    forall f: nat ensures Refs(s', f) == Refs(s, f) {}
  }

  lemma NewRootView(s: State, s': State, p: nat)
    requires Inv(s) && p !in s.level && s'.level == s.level[p := 4] && |s'.mem| == |s.mem| && p < |s'.mem| && |s'.mem[p]| == 512
    requires forall t :: 0 <= t < |s.mem| && t != p ==> s'.mem[t] == s.mem[t]
    requires forall i :: 0 <= i < 512 && i !in SHARED ==> !s'.mem[p][i].p
    ensures View(s') == View(s)
  {
    hide Inv, View, Graph;
    forall r: nat, v: VPage ensures Translate(s', r, v) == Translate(s, r, v) {
      if r == p {
        assert Step(s'.mem, Some(p), v.m) == None || v.m in SHARED;
      } else if IsRoot(s, r) && UserVa(v) {
        PathLevels(s, r, v);
      }
    }
    TranslateExt(s, s');
  }
}
