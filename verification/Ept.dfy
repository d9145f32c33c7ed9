/** vmm/ept.c: tearing down a guest's extended page tables (section 28.2.2 of the Intel 64 SDM
    volume 3). */
module Ept {
  import opened Wrappers
  import opened FreeList
  import opened Mmu
  import opened PhysMem
  import opened TableOps
  import opened PmapCode

  const EPT_LEVELS: nat := 4

  /** Any of the read, write and execute bits. */
  predicate EptePresent(e: Entry) { e.p || e.perm & 0x6 != 0 }

  /** The entry lets the guest read, write or execute. */
  predicate AnyAccess(e: Entry) { e.p || e.perm & 0x2 != 0 || e.perm & 0x4 != 0 }

  lemma PresentIff(e: Entry)
    ensures EptePresent(e) <==> AnyAccess(e)
  {
  }

  /** The tables below slot i and onward of table t are within physical memory. */
  ghost predicate InRange(m: seq<Page>, t: nat, level: nat, i: nat)
    decreases level, 512 - i
  {
    && t < |m| && |m[t]| == 512
    && (i < 512 ==>
          && (EptePresent(m[t][i]) ==> m[t][i].frame < |m| && (level > 0 ==> InRange(m, m[t][i].frame, level - 1, 0)))
          && InRange(m, t, level, i + 1))
  }

  /** The pages that slots i and onward of table t give up, in order: below each upper-level
      entry its whole subtree and then the table itself, at level 0 the guest's pages. */
  ghost function Drops(m: seq<Page>, t: nat, level: nat, i: nat): (d: seq<nat>)
    requires InRange(m, t, level, i)
    ensures forall f :: f in d ==> f < |m|
    decreases level, 512 - i
  {
    if i >= 512 then []
    else if EptePresent(m[t][i]) then
      (if level > 0 then Drops(m, m[t][i].frame, level - 1, 0) else []) + [m[t][i].frame] + Drops(m, t, level, i + 1)
    else Drops(m, t, level, i + 1)
  }

  /** Every page can afford to lose what the sequence takes from it. */
  ghost predicate Covered(s: State, d: seq<nat>) {
    forall f :: f in d ==> f < |s.ref| && multiset(d)[f] <= s.ref[f]
  }

  ghost function DropAll(s: State, d: seq<nat>): (s': State)
    requires ListOk(s) && Covered(s, d)
    decreases |d|
  {
    if d == [] then s
    else CoveredRest(s, d); DropAll(DropRef(s, d[0]), d[1..])
  }

  lemma CoveredRest(s: State, d: seq<nat>)
    requires ListOk(s) && Covered(s, d) && d != []
    ensures d[0] < |s.ref| && s.ref[d[0]] > 0 && ListOk(DropRef(s, d[0])) && Covered(DropRef(s, d[0]), d[1..])
  {
    hide Chain;
    assert d == [d[0]] + d[1..];
    assert d[0] in d && multiset(d)[d[0]] > 0;
    DropRefList(s, d[0]);
    forall f | f in d[1..] ensures f < |s.ref| && multiset(d[1..])[f] <= DropRef(s, d[0]).ref[f] { assert f in d; }
  }

  /** What a whole teardown does: every count falls by the number of times the page occurs, the
      pages that reach zero join the free list, and nothing else changes. */
  lemma {:induction false} DropAllIs(s: State, d: seq<nat>)
    requires ListOk(s) && Covered(s, d)
    ensures var s' := DropAll(s, d);
            && ListOk(s') && |s'.ref| == |s.ref| && s'.mem == s.mem && s'.level == s.level && s'.holds == s.holds
            && (forall f :: 0 <= f < |s.ref| ==> s'.ref[f] == s.ref[f] - multiset(d)[f])
            && (forall f :: f in s'.free <==> f in s.free || (f in d && multiset(d)[f] == s.ref[f]))
    decreases |d|
  {
    hide Chain;
    if d != [] {
      CoveredRest(s, d);
      DropAllIs(DropRef(s, d[0]), d[1..]);
      assert d == [d[0]] + d[1..];
    }
  }

  lemma {:induction false} DropAllConcat(s: State, a: seq<nat>, b: seq<nat>)
    requires ListOk(s) && Covered(s, a + b)
    ensures Covered(s, a) && ListOk(DropAll(s, a)) && Covered(DropAll(s, a), b)
    ensures DropAll(s, a + b) == DropAll(DropAll(s, a), b)
    decreases |a|
  {
    hide Chain;
    assert Covered(s, a) by {
      forall f | f in a ensures f < |s.ref| && multiset(a)[f] <= s.ref[f] { assert f in a + b; }
    }
    DropAllIs(s, a);
    assert Covered(DropAll(s, a), b) by {
      forall f | f in b ensures f < |s.ref| && multiset(b)[f] <= DropAll(s, a).ref[f] { assert f in a + b; }
    }
    if a == [] {
      assert a + b == b;
    } else {
      assert (a + b)[0] == a[0] && (a + b)[1..] == a[1..] + b;
      CoveredRest(s, a + b);
      CoveredRest(s, a);
      DropAllConcat(DropRef(s, a[0]), a[1..], b);
    }
  }

  /** The rest of a table's pages after the first entries have been given up. */
  lemma DropsStep(m: seq<Page>, t: nat, level: nat, i: nat)
    requires InRange(m, t, level, i) && i < 512
    ensures InRange(m, t, level, i + 1) && t < |m| && |m[t]| == 512
    ensures !EptePresent(m[t][i]) ==> Drops(m, t, level, i) == Drops(m, t, level, i + 1)
    ensures EptePresent(m[t][i]) ==> m[t][i].frame < |m|
    ensures EptePresent(m[t][i]) && level == 0 ==>
              Drops(m, t, level, i) == [m[t][i].frame] + Drops(m, t, level, i + 1)
    ensures EptePresent(m[t][i]) && level > 0 ==>
              && InRange(m, m[t][i].frame, level - 1, 0)
              && Drops(m, t, level, i) == Drops(m, m[t][i].frame, level - 1, 0) + ([m[t][i].frame] + Drops(m, t, level, i + 1))
  {
  }

  method FreeEptLevel(k: Pmap, eptrt: nat, level: nat)
    requires ListOk(k.St()) && InRange(k.mem, eptrt, level, 0) && Covered(k.St(), Drops(k.mem, eptrt, level, 0))
    modifies k
    ensures ListOk(k.St()) && k.mem == old(k.mem) && k.St() == DropAll(old(k.St()), Drops(old(k.mem), eptrt, level, 0))
    decreases level
  {
    hide ListOk, Covered, Drops, DropAll, InRange, EptePresent;
    ghost var s, m := k.St(), k.mem;
    for i := 0 to 512
      invariant k.mem == m && ListOk(k.St()) && InRange(m, eptrt, level, i)
      invariant Covered(k.St(), Drops(m, eptrt, level, i))
      invariant DropAll(k.St(), Drops(m, eptrt, level, i)) == DropAll(s, Drops(m, eptrt, level, 0))
    {
      DropsStep(m, eptrt, level, i);
      if EptePresent(k.mem[eptrt][i]) {
        var pa := k.mem[eptrt][i].frame;
        ghost var rest := [pa] + Drops(m, eptrt, level, i + 1);
        if level != 0 {
          DropAllConcat(k.St(), Drops(m, pa, level - 1, 0), rest);
          FreeEptLevel(k, pa, level - 1);
        }
        DropOne(k.St(), pa, Drops(m, eptrt, level, i + 1));
        k.PageDecref(pa);
      }
    }
    DropsEnd(m, eptrt, level, k.St());
  }

  lemma DropOne(s: State, p: nat, rest: seq<nat>)
    requires ListOk(s) && Covered(s, [p] + rest)
    ensures p < |s.ref| && s.ref[p] > 0 && ListOk(DropRef(s, p)) && Covered(DropRef(s, p), rest)
    ensures DropRef(s, p).mem == s.mem
    ensures DropAll(s, [p] + rest) == DropAll(DropRef(s, p), rest)
  {
    hide ListOk;
    assert ([p] + rest)[0] == p && ([p] + rest)[1..] == rest;
    CoveredRest(s, [p] + rest);
  }

  lemma DropsEnd(m: seq<Page>, t: nat, level: nat, s: State)
    requires InRange(m, t, level, 512) && ListOk(s) && Covered(s, Drops(m, t, level, 512))
    ensures DropAll(s, Drops(m, t, level, 512)) == s
  {
  }

  // ---------------------------------------------------------------- the whole guest

  /** The table slots a teardown visits. */
  ghost function Visits(m: seq<Page>, t: nat, level: nat, i: nat): (v: seq<(nat, nat)>)
    requires InRange(m, t, level, i)
    ensures forall e :: e in v ==> e.0 < |m| && e.1 < |m[e.0]|
    decreases level, 512 - i
  {
    if i >= 512 then []
    else if EptePresent(m[t][i]) then
      (if level > 0 then Visits(m, m[t][i].frame, level - 1, 0) else []) + [(t, i)] + Visits(m, t, level, i + 1)
    else Visits(m, t, level, i + 1)
  }

  lemma {:induction false} SlotInRange(m: seq<Page>, t: nat, level: nat, i: nat, j: nat)
    requires InRange(m, t, level, i) && i <= j < 512
    ensures t < |m| && |m[t]| == 512
    ensures EptePresent(m[t][j]) ==> m[t][j].frame < |m| && (level > 0 ==> InRange(m, m[t][j].frame, level - 1, 0))
    decreases j - i
  {
    hide EptePresent;
    if i < j { SlotInRange(m, t, level, i + 1, j); }
  }

  /** The path, a list of slots, leads from table t at the level through present entries to table u. */
  ghost predicate Leads(m: seq<Page>, t: nat, level: nat, path: seq<nat>, u: nat)
    requires InRange(m, t, level, 0)
    decreases level
  {
    if path == [] then u == t
    else
      && level > 0 && path[0] < 512
      && (SlotInRange(m, t, level, 0, path[0]);
          EptePresent(m[t][path[0]]) && Leads(m, m[t][path[0]].frame, level - 1, path[1..], u))
  }

  ghost predicate Present(m: seq<Page>, u: nat, k: nat) { u < |m| && k < 512 == |m[u]| && EptePresent(m[u][k]) }

  /** Slot k of table u is present, and some path leads there. */
  ghost predicate InTree(m: seq<Page>, t: nat, level: nat, u: nat, k: nat)
    requires InRange(m, t, level, 0)
  {
    Present(m, u, k) && exists path :: Leads(m, t, level, path, u)
  }

  /** A tree: only one path leads to each present slot. */
  ghost predicate IsTree(m: seq<Page>, t: nat, level: nat)
    requires InRange(m, t, level, 0)
  {
    forall p, q, u, k :: Leads(m, t, level, p, u) && Leads(m, t, level, q, u) && Present(m, u, k) ==> p == q
  }

  /** The slots of the tree that name f. */
  ghost function Naming(m: seq<Page>, root: nat, f: nat): set<(nat, nat)>
    requires InRange(m, root, EPT_LEVELS - 1, 0)
  {
    set u: nat, k: nat | u < |m| && k < 512 && InTree(m, root, EPT_LEVELS - 1, u, k) && m[u][k].frame == f :: (u, k)
  }

  /** The same slots, by the first entry on the way to them. */
  ghost predicate Below(m: seq<Page>, t: nat, level: nat, i: nat, u: nat, k: nat)
    requires InRange(m, t, level, 0)
  {
    && Present(m, u, k)
    && ((u == t && k >= i) || (level > 0 && exists j :: i <= j < 512 && Through(m, t, level, j, u, k)))
  }

  ghost predicate Through(m: seq<Page>, t: nat, level: nat, j: nat, u: nat, k: nat)
    requires InRange(m, t, level, 0) && level > 0 && j < 512
  {
    SlotInRange(m, t, level, 0, j);
    EptePresent(m[t][j]) && InTree(m, m[t][j].frame, level - 1, u, k)
  }

  lemma InTreeBelow(m: seq<Page>, t: nat, level: nat, u: nat, k: nat)
    requires InRange(m, t, level, 0)
    ensures InTree(m, t, level, u, k) <==> Below(m, t, level, 0, u, k)
  {
    hide InRange, EptePresent;
    if InTree(m, t, level, u, k) {
      var path :| Leads(m, t, level, path, u);
      if path != [] {
        SlotInRange(m, t, level, 0, path[0]);
        assert Leads(m, m[t][path[0]].frame, level - 1, path[1..], u);
        assert Through(m, t, level, path[0], u, k);
      }
    }
    if Below(m, t, level, 0, u, k) {
      if u == t {
        assert Leads(m, t, level, [], u);
      } else {
        var j :| 0 <= j < 512 && Through(m, t, level, j, u, k);
        SlotInRange(m, t, level, 0, j);
        var path :| Leads(m, m[t][j].frame, level - 1, path, u);
        assert ([j] + path)[1..] == path;
        assert Leads(m, t, level, [j] + path, u);
      }
    }
  }

  /** The teardown visits exactly the slots that a path leads to. */
  lemma {:induction false} VisitsIff(m: seq<Page>, t: nat, level: nat, i: nat, u: nat, k: nat)
    requires InRange(m, t, level, 0) && InRange(m, t, level, i)
    ensures (u, k) in Visits(m, t, level, i) <==> Below(m, t, level, i, u, k)
    decreases level, 512 - i
  {
    hide EptePresent, InTree, Through, InRange;
    RangeStep(m, t, level, i);
    VisitsStep(m, t, level, i);
    if i < 512 {
      VisitsIff(m, t, level, i + 1, u, k);
      SlotInRange(m, t, level, 0, i);
      assert level > 0 ==> (Below(m, t, level, i, u, k) <==>
        Below(m, t, level, i + 1, u, k) || (Present(m, u, k) && ((u, k) == (t, i) || Through(m, t, level, i, u, k))));
      if EptePresent(m[t][i]) && level > 0 {
        VisitsIff(m, m[t][i].frame, level - 1, 0, u, k);
        InTreeBelow(m, m[t][i].frame, level - 1, u, k);
      }
      ThroughIs(m, t, level, i, u, k);
    }
  }

  lemma ThroughIs(m: seq<Page>, t: nat, level: nat, j: nat, u: nat, k: nat)
    requires InRange(m, t, level, 0) && j < 512
    ensures t < |m| && |m[t]| == 512 && (EptePresent(m[t][j]) && level > 0 ==> InRange(m, m[t][j].frame, level - 1, 0))
    ensures level > 0 ==> (Through(m, t, level, j, u, k) <==> EptePresent(m[t][j]) && InTree(m, m[t][j].frame, level - 1, u, k))
    ensures level > 0 && Through(m, t, level, j, u, k) ==> Present(m, u, k)
  {
    hide EptePresent, InRange;
    SlotInRange(m, t, level, 0, j);
  }

  lemma RangeStep(m: seq<Page>, t: nat, level: nat, i: nat)
    requires InRange(m, t, level, i)
    ensures t < |m| && |m[t]| == 512 && (i < 512 ==> InRange(m, t, level, i + 1))
  {
  }

  lemma VisitsStep(m: seq<Page>, t: nat, level: nat, i: nat)
    requires InRange(m, t, level, i)
    ensures i >= 512 ==> Visits(m, t, level, i) == []
  {
  }

  ghost predicate Distinct(v: seq<(nat, nat)>) { forall i, j :: 0 <= i < j < |v| ==> v[i] != v[j] }

  lemma DistinctConcat(a: seq<(nat, nat)>, b: seq<(nat, nat)>)
    requires Distinct(a) && Distinct(b) && forall e :: e in a ==> e !in b
    ensures Distinct(a + b)
  {
    var v := a + b;
    forall i, j | 0 <= i < j < |v| ensures v[i] != v[j] {
      if i < |a| <= j { assert a[i] in a && b[j - |a|] in b; }
    }
  }

  /** In a tree no slot is visited twice. */
  lemma {:induction false} VisitsDistinct(m: seq<Page>, t: nat, level: nat, i: nat)
    requires InRange(m, t, level, 0) && InRange(m, t, level, i) && IsTree(m, t, level)
    ensures Distinct(Visits(m, t, level, i))
    decreases level, 512 - i
  {
    hide EptePresent, InRange, IsTree, Below;
    RangeStep(m, t, level, i);
    VisitsStep(m, t, level, i);
    if i < 512 {
      VisitsDistinct(m, t, level, i + 1);
      if EptePresent(m[t][i]) {
        SlotInRange(m, t, level, 0, i);
        var sub := if level > 0 then Visits(m, m[t][i].frame, level - 1, 0) else [];
        var rest := Visits(m, t, level, i + 1);
        if level > 0 {
          SubTree(m, t, level, i);
          VisitsDistinct(m, m[t][i].frame, level - 1, 0);
          forall e | e in sub ensures e !in [(t, i)] + rest { SubApart(m, t, level, i, e.0, e.1); }
        }
        assert (t, i) !in rest by { VisitsIff(m, t, level, i + 1, t, i); OwnApart(m, t, level, i); }
        DistinctConcat([(t, i)], rest);
        DistinctConcat(sub, [(t, i)] + rest);
        assert sub + [(t, i)] + rest == sub + ([(t, i)] + rest);
      }
    }
  }

  lemma LeadsOn(m: seq<Page>, t: nat, level: nat, j: nat, path: seq<nat>, u: nat)
    requires InRange(m, t, level, 0) && level > 0 && j < 512
    ensures t < |m| && |m[t]| == 512 && (EptePresent(m[t][j]) ==> InRange(m, m[t][j].frame, level - 1, 0))
    ensures EptePresent(m[t][j]) ==> (Leads(m, t, level, [j] + path, u) <==> Leads(m, m[t][j].frame, level - 1, path, u))
  {
    hide InRange, EptePresent;
    SlotInRange(m, t, level, 0, j);
    assert ([j] + path)[1..] == path;
  }

  lemma SubTree(m: seq<Page>, t: nat, level: nat, j: nat)
    requires InRange(m, t, level, 0) && level > 0 && j < 512 && IsTree(m, t, level)
    ensures t < |m| && |m[t]| == 512
    ensures EptePresent(m[t][j]) ==> InRange(m, m[t][j].frame, level - 1, 0) && IsTree(m, m[t][j].frame, level - 1)
  {
    hide InRange, EptePresent, Leads, Present;
    LeadsOn(m, t, level, j, [], 0);
    if EptePresent(m[t][j]) {
      var w, l := m[t][j].frame, level - 1;
      forall p, q, u, k | Leads(m, w, l, p, u) && Leads(m, w, l, q, u) && Present(m, u, k)
        ensures p == q
      {
        LeadsOn(m, t, level, j, p, u);
        LeadsOn(m, t, level, j, q, u);
        assert [j] + p == [j] + q;
        assert p == ([j] + p)[1..] && q == ([j] + q)[1..];
      }
    }
  }

  /** What a path beginning with slot i leads to is no slot of t itself and none below a later slot. */
  lemma SubApart(m: seq<Page>, t: nat, level: nat, i: nat, u: nat, k: nat)
    requires InRange(m, t, level, 0) && InRange(m, t, level, i) && level > 0 && i < 512 && IsTree(m, t, level)
    requires Present(m, t, i) && InRange(m, m[t][i].frame, level - 1, 0) && (u, k) in Visits(m, m[t][i].frame, level - 1, 0)
    ensures InRange(m, t, level, i + 1) && (u, k) !in [(t, i)] + Visits(m, t, level, i + 1)
  {
    hide InRange, EptePresent, Leads, InTree, Below, Visits;
    RangeStep(m, t, level, i);
    ThroughIs(m, t, level, i, u, k);
    VisitsIff(m, m[t][i].frame, level - 1, 0, u, k);
    InTreeBelow(m, m[t][i].frame, level - 1, u, k);
    VisitsIff(m, t, level, i + 1, u, k);
    OnePath(m, t, level, i, u, k);
  }

  lemma OnePath(m: seq<Page>, t: nat, level: nat, i: nat, u: nat, k: nat)
    requires InRange(m, t, level, 0) && level > 0 && i < 512 && IsTree(m, t, level) && Through(m, t, level, i, u, k)
    ensures u != t && !Below(m, t, level, i + 1, u, k)
  {
    hide InRange, EptePresent, Leads;
    SlotInRange(m, t, level, 0, i);
    var p :| Leads(m, m[t][i].frame, level - 1, p, u);
    LeadsOn(m, t, level, i, p, u);
    if u == t {
      EmptyPath(m, t, level);
    } else if Below(m, t, level, i + 1, u, k) {
      var j :| i + 1 <= j < 512 && Through(m, t, level, j, u, k);
      SlotInRange(m, t, level, 0, j);
      var q :| Leads(m, m[t][j].frame, level - 1, q, u);
      FirstDiffers(i, p, j, q);
      LeadsOn(m, t, level, j, q, u);
    }
  }

  lemma FirstDiffers(i: nat, p: seq<nat>, j: nat, q: seq<nat>)
    requires i != j
    ensures [i] + p != [j] + q
  {
    assert ([i] + p)[0] == i && ([j] + q)[0] == j;
  }

  lemma EmptyPath(m: seq<Page>, t: nat, level: nat)
    requires InRange(m, t, level, 0)
    ensures Leads(m, t, level, [], t)
  {
  }

  lemma OwnApart(m: seq<Page>, t: nat, level: nat, i: nat)
    requires InRange(m, t, level, 0) && i < 512 && IsTree(m, t, level)
    ensures !Below(m, t, level, i + 1, t, i)
  {
    hide InRange, EptePresent, Through;
    if Below(m, t, level, i + 1, t, i) {
      var j :| i + 1 <= j < 512 && Through(m, t, level, j, t, i);
      OnePath(m, t, level, j, t, i);
      assert false;
    }
  }

  /** The slots of the tree that name f are the visited ones that do. */
  lemma NamingIs(m: seq<Page>, root: nat, f: nat)
    requires InRange(m, root, EPT_LEVELS - 1, 0)
    ensures Naming(m, root, f) == SlotsOf(m, Visits(m, root, EPT_LEVELS - 1, 0), f)
  {
    hide InRange, InTree, Below, Visits;
    var top := EPT_LEVELS - 1;
    var v := Visits(m, root, top, 0);
    forall e: (nat, nat) ensures e in Naming(m, root, f) <==> e in SlotsOf(m, v, f) {
      VisitsIff(m, root, top, 0, e.0, e.1);
      InTreeBelow(m, root, top, e.0, e.1);
      if InTree(m, root, top, e.0, e.1) { InTreePresent(m, root, top, e.0, e.1); }
      assert e == (e.0, e.1);
    }
  }

  lemma InTreePresent(m: seq<Page>, t: nat, level: nat, u: nat, k: nat)
    requires InRange(m, t, level, 0) && InTree(m, t, level, u, k)
    ensures u < |m| && k < 512 == |m[u]|
  {
  }

  ghost function Frames(m: seq<Page>, v: seq<(nat, nat)>): (d: seq<nat>)
    requires forall e :: e in v ==> e.0 < |m| && e.1 < |m[e.0]|
  {
    if v == [] then [] else [m[v[0].0][v[0].1].frame] + Frames(m, v[1..])
  }

  lemma {:induction false} FramesConcat(m: seq<Page>, a: seq<(nat, nat)>, b: seq<(nat, nat)>)
    requires forall e :: e in a + b ==> e.0 < |m| && e.1 < |m[e.0]|
    ensures (forall e :: e in a ==> e in a + b) && (forall e :: e in b ==> e in a + b)
    ensures Frames(m, a + b) == Frames(m, a) + Frames(m, b)
  {
    assert forall e :: e in a ==> e in a + b;
    assert forall e :: e in b ==> e in a + b;
    if a == [] {
      assert a + b == b;
    } else {
      assert (a + b)[1..] == a[1..] + b;
      FramesConcat(m, a[1..], b);
    }
  }

  lemma {:induction false} DropsAreFrames(m: seq<Page>, t: nat, level: nat, i: nat)
    requires InRange(m, t, level, i)
    ensures Drops(m, t, level, i) == Frames(m, Visits(m, t, level, i))
    decreases level, 512 - i
  {
    if i < 512 {
      DropsAreFrames(m, t, level, i + 1);
      if EptePresent(m[t][i]) {
        var sub := if level > 0 then Visits(m, m[t][i].frame, level - 1, 0) else [];
        if level > 0 { DropsAreFrames(m, m[t][i].frame, level - 1, 0); }
        var rest := Visits(m, t, level, i + 1);
        assert sub + [(t, i)] + rest == sub + ([(t, i)] + rest);
        FramesConcat(m, sub, [(t, i)] + rest);
        FramesConcat(m, [(t, i)], rest);
      }
    }
  }

  ghost function SlotsOf(m: seq<Page>, v: seq<(nat, nat)>, f: nat): set<(nat, nat)>
    requires forall e :: e in v ==> e.0 < |m| && e.1 < |m[e.0]|
  {
    set e | e in v && m[e.0][e.1].frame == f
  }

  lemma SlotsOfFirst(m: seq<Page>, v: seq<(nat, nat)>, f: nat)
    requires v != [] && forall e :: e in v ==> e.0 < |m| && e.1 < |m[e.0]|
    requires forall i, j :: 0 <= i < j < |v| ==> v[i] != v[j]
    ensures v[0] !in SlotsOf(m, v[1..], f)
    ensures SlotsOf(m, v, f) == SlotsOf(m, v[1..], f) + (if m[v[0].0][v[0].1].frame == f then {v[0]} else {})
  {
    assert forall e :: e in v <==> e == v[0] || e in v[1..];
  }

  lemma {:induction false} FramesCount(m: seq<Page>, v: seq<(nat, nat)>, f: nat)
    requires forall e :: e in v ==> e.0 < |m| && e.1 < |m[e.0]|
    requires forall i, j :: 0 <= i < j < |v| ==> v[i] != v[j]
    ensures multiset(Frames(m, v))[f] == |SlotsOf(m, v, f)|
  {
    if v != [] {
      FramesCount(m, v[1..], f);
      SlotsOfFirst(m, v, f);
    }
  }

  /** On a tree, the number of references a page loses is the number of slots that name it. */
  lemma TreeDrops(m: seq<Page>, root: nat, f: nat)
    requires InRange(m, root, EPT_LEVELS - 1, 0) && IsTree(m, root, EPT_LEVELS - 1)
    ensures multiset(Drops(m, root, EPT_LEVELS - 1, 0))[f] == |Naming(m, root, f)|
  {
    hide InRange, IsTree, Naming, Visits, Drops, Frames;
    NamingIs(m, root, f);
    VisitsDistinct(m, root, EPT_LEVELS - 1, 0);
    DropsAreFrames(m, root, EPT_LEVELS - 1, 0);
    FramesCount(m, Visits(m, root, EPT_LEVELS - 1, 0), f);
  }

  /** free_guest_mem and then the page_decref of the root, as env_guest_free runs them.  Every
      page's count falls by exactly the number of slots that name it; exactly the pages that
      reach zero, the root among them, are added to the free list. */
  method FreeGuest(k: Pmap, root: nat)
    requires ListOk(k.St()) && InRange(k.mem, root, EPT_LEVELS - 1, 0) && IsTree(k.mem, root, EPT_LEVELS - 1)
    requires root < |k.ppRef| && k.ppRef[root] == 1 && Naming(k.mem, root, root) == {}
    requires forall f :: 0 <= f < |k.ppRef| ==> |Naming(k.mem, root, f)| <= k.ppRef[f]
    modifies k
    ensures ListOk(k.St()) && |k.ppRef| == |old(k.ppRef)| && k.mem == old(k.mem)
    ensures forall f :: 0 <= f < |k.ppRef| ==>
              k.ppRef[f] == old(k.ppRef)[f] - |Naming(old(k.mem), root, f)| - (if f == root then 1 else 0)
    ensures forall f :: 0 <= f < |k.ppRef| ==>
              (f in k.free <==> f in old(k.free) || (old(k.ppRef)[f] > 0 && k.ppRef[f] == 0))
  {
    hide ListOk, InRange, IsTree, Naming, Drops, DropAll;
    ghost var s := k.St();
    ghost var d := Drops(k.mem, root, EPT_LEVELS - 1, 0);
    GuestCovered(s, root);
    FreeEptLevel(k, root, EPT_LEVELS - 1);
    ghost var s1 := k.St();
    GuestDropped(s, root);
    k.PageDecref(root);
    GuestDone(s, s1, root);
  }

  lemma GuestCovered(s: State, root: nat)
    requires ListOk(s) && InRange(s.mem, root, EPT_LEVELS - 1, 0) && IsTree(s.mem, root, EPT_LEVELS - 1)
    requires forall f :: 0 <= f < |s.ref| ==> |Naming(s.mem, root, f)| <= s.ref[f]
    ensures Covered(s, Drops(s.mem, root, EPT_LEVELS - 1, 0))
  {
    hide InRange, IsTree, Naming, Drops, Chain;
    forall f | f in Drops(s.mem, root, EPT_LEVELS - 1, 0)
      ensures f < |s.ref| && multiset(Drops(s.mem, root, EPT_LEVELS - 1, 0))[f] <= s.ref[f]
    {
      TreeDrops(s.mem, root, f);
    }
  }

  lemma GuestDropped(s: State, root: nat)
    requires ListOk(s) && InRange(s.mem, root, EPT_LEVELS - 1, 0) && IsTree(s.mem, root, EPT_LEVELS - 1)
    requires Covered(s, Drops(s.mem, root, EPT_LEVELS - 1, 0))
    ensures var s1 := DropAll(s, Drops(s.mem, root, EPT_LEVELS - 1, 0));
            && |s1.ref| == |s.ref| && |s1.link| == |s.ref|
            && (forall f :: 0 <= f < |s.ref| ==> s1.ref[f] == s.ref[f] - |Naming(s.mem, root, f)|)
            && (forall f :: 0 <= f < |s.ref| ==> (f in s1.free <==> f in s.free || (s.ref[f] > 0 && s1.ref[f] == 0)))
  {
    hide InRange, IsTree, Naming, Drops, Chain, DropAll;
    DropAllIs(s, Drops(s.mem, root, EPT_LEVELS - 1, 0));
    forall f: nat | f < |s.ref|
      ensures multiset(Drops(s.mem, root, EPT_LEVELS - 1, 0))[f] == |Naming(s.mem, root, f)|
    {
      TreeDrops(s.mem, root, f);
    }
  }

  lemma GuestDone(s: State, s1: State, root: nat)
    requires root < |s1.ref| == |s.ref| == |s1.link| && s1.ref[root] == 1 == s.ref[root]
    requires forall f :: 0 <= f < |s.ref| ==> (f in s1.free <==> f in s.free || (s.ref[f] > 0 && s1.ref[f] == 0))
    ensures var s2 := DropRef(s1, root);
            forall f :: 0 <= f < |s.ref| ==> (f in s2.free <==> f in s.free || (s.ref[f] > 0 && s2.ref[f] == 0))
  {
  }
}
