/** kern/pmap.c: the page allocator, the three-function walk and the mapping operations. */
module PmapCode {
  import opened Wrappers
  import opened FreeList
  import opened Mmu
  import opened PhysMem
  import opened TableOps
  import opened WalkOps

  /** page_alloc on a non-empty free list. */
  function Popped(s: State, zero: bool): State
    requires |s.free| > 0 && s.free[0] < |s.link| && s.free[0] < |s.mem|
  {
    var p := s.free[0];
    s.(link := s.link[p := None], head := s.link[p], free := s.free[1..],
       mem := if zero then s.mem[p := ZeroPage()] else s.mem)
  }

  lemma PoppedList(s: State, zero: bool)
    requires ListOk(s) && |s.free| > 0
    ensures ListOk(Popped(s, zero)) && s.free[0] !in s.free[1..]
  {
    Pop(s.head, s.link, s.free);
  }

  /** A page handed out by page_alloc disturbs nothing. */
  lemma PoppedInv(s: State, zero: bool)
    requires Inv(s) && |s.free| > 0
    ensures Inv(Popped(s, zero)) && View(Popped(s, zero)) == View(s)
  {
    hide Inv, View, ListOk;
    FreePageUnreachable(s, s.free[0]);
    InvShape(s);
    InvList(s);
    PoppedList(s, zero);
    var s' := Popped(s, zero);
    assert SameLeaves(s, s');
    SameEdgesInv(s, s');
    SameLeavesView(s, s');
  }

  /** Popping a page, counting it and giving it back restores the list exactly. */
  lemma LinkUndone(s: State, t: nat, i: nat)
    requires CanLink(s, t, i) && t != s.free[0]
    ensures var p := s.free[0]; var s1 := NewTable(s, t, i);
            && s1.ref[p] == 1 && s1.ref[p := 0] == s.ref && s1.link[p := s1.head] == s.link && Some(p) == s.head
            && [p] + s1.free == s.free && s1.level - {p} == s.level
  {
    FreePageUnreachable(s, s.free[0]);
  }

  const ULIM: nat := 0x80_03C0_0000

  /** No bit of perm other than PTE_P is missing in the last-level entry for a, which is present. */
  ghost predicate Accessible(m: seq<Page>, root: nat, a: nat, perm: bv12) {
    Lookup(m, root, Split(a)).Some? && perm & !Lookup(m, root, Split(a)).value.perm & 0xFFE == 0
  }

  /** The test the code makes: a present entry has PTE_P anyway. */
  predicate Grants(e: Option<Entry>, perm: bv12) {
    e.Some? && e.value.perm & (perm & 0xFFE) == perm & 0xFFE
  }

  lemma GrantsIff(m: seq<Page>, root: nat, a: nat, perm: bv12)
    ensures Grants(Lookup(m, root, Split(a)), perm) <==> Accessible(m, root, a, perm)
  {
    hide Lookup, Split;
    if Lookup(m, root, Split(a)).Some? { NoneMissing(Lookup(m, root, Split(a)).value.perm, perm); }
  }

  lemma NoneMissing(bits: bv12, perm: bv12)
    ensures bits & (perm & 0xFFE) == perm & 0xFFE <==> perm & !bits & 0xFFE == 0
  {
  }

  /** What user_mem_check reports: no fault if the whole range is accessible, and otherwise the first
      address that is not; a range that wraps or does not end below ULIM is refused at once. */
  ghost predicate CheckResult(m: seq<Page>, root: nat, start: nat, len: nat, perm: bv12, fault: Option<nat>) {
    var end := (start + len) % WORD;
    if end >= ULIM || start > end then fault == Some(start)
    else if fault == None then forall a :: start <= a < end ==> Accessible(m, root, a, perm)
    else start <= fault.value < end && !Accessible(m, root, fault.value, perm)
         && forall a :: start <= a < fault.value ==> Accessible(m, root, a, perm)
  }

  /** A memory in which every address is mapped with every permission. */
  const ALL_MAPPED: seq<Page> := seq(5, t requires 0 <= t => seq(512, i => Entry(true, if t < 4 then t + 1 else 4, 0xFFF)))

  /** The last page below ULIM is refused although all of it is accessible. */
  lemma RefusedBelowUlim(perm: bv12, fault: Option<nat>)
    requires CheckResult(ALL_MAPPED, 0, ULIM - PGSIZE, PGSIZE, perm, fault)
    ensures fault == Some(ULIM - PGSIZE)
    ensures forall a :: ULIM - PGSIZE <= a < ULIM ==> Accessible(ALL_MAPPED, 0, a, perm)
  {
    forall a: nat ensures Accessible(ALL_MAPPED, 0, a, perm) {
      AllAccessible(Split(a), perm);
      GrantsIff(ALL_MAPPED, 0, a, perm);
    }
  }

  lemma AllAccessible(v: VPage, perm: bv12)
    ensures Grants(Lookup(ALL_MAPPED, 0, v), perm)
  {
    hide Grants, Step;
    AllStep(0, v.m);
    AllStep(1, v.p);
    AllStep(2, v.d);
    AllStep(3, v.t);
    GrantsAll(ALL_MAPPED[3][v.t], perm);
  }

  lemma AllStep(t: nat, i: nat)
    requires t < 4 && i < 512
    ensures Step(ALL_MAPPED, Some(t), i) == Some(t + 1) && ALL_MAPPED[t][i].perm == 0xFFF
  {
    assert ALL_MAPPED[t] == seq(512, j => Entry(true, t + 1, 0xFFF));
  }

  lemma GrantsAll(e: Entry, perm: bv12)
    requires e.perm == 0xFFF
    ensures Grants(Some(e), perm)
  {
  }

  lemma SamePageAccess(m: seq<Page>, root: nat, a: nat, b: nat, perm: bv12)
    requires a / PGSIZE == b / PGSIZE
    ensures Accessible(m, root, a, perm) == Accessible(m, root, b, perm)
  {
    hide Lookup, PML4, PDPE, PDX, PTX, Split;
    SamePageSameSplit(a, b);
  }

  /** Every upper-level entry on the way to page v has the bits perm. */
  predicate Permits(m: seq<Page>, root: nat, v: VPage, perm: bv12) {
    var a := Step(m, Some(root), v.m);
    var b := Step(m, a, v.p);
    a.Some? && HasBits(m, Some(root), v.m, perm) && HasBits(m, a, v.p, perm) && HasBits(m, b, v.d, perm)
  }

  /** None of the bits is missing from any of the three. */
  lemma PermitsMeans(m: seq<Page>, root: nat, v: VPage, perm: bv12)
    requires Permits(m, root, v, perm)
    ensures var a := Step(m, Some(root), v.m);
            var b := Step(m, a, v.p);
            a.Some? && b.Some? && forall at :: at in [(root, v.m), (a.value, v.p), (b.value, v.d)] ==>
              at.0 < |m| && at.1 < |m[at.0]| && perm & !m[at.0][at.1].perm == 0
  {
    var a := Step(m, Some(root), v.m);
    var b := Step(m, a, v.p);
    forall at | at in [(root, v.m), (a.value, v.p), (b.value, v.d)] ensures at.0 < |m| && at.1 < |m[at.0]| && perm & !m[at.0][at.1].perm == 0 {
      assert HasBits(m, Some(at.0), at.1, perm);
    }
  }

  lemma StillWalks(s: State, s': State, root: nat, v: VPage)
    requires SameWalks(s, s') && Walkable(s, root, 4, v) && LeafTable(s.mem, root, v).Some?
    ensures Inv(s') && s' == s.(mem := s'.mem) && Walkable(s', root, 4, v) && LeafTable(s'.mem, root, v).Some?
  {
    hide Inv, View, LeafTable;
  }

  /** The three tables on the way to v, one level below the other. */
  lemma OnPath(s: State, root: nat, v: VPage)
    requires Inv(s) && Walkable(s, root, 4, v) && LeafTable(s.mem, root, v).Some?
    ensures Paged(s.mem) && Edge(s, root, v.m) && root in s.level && s.level[root] == 4 && root < |s.mem| && v.m < |s.mem[root]|
    ensures var a := s.mem[root][v.m].frame;
            && Edge(s, a, v.p) && a in s.level && s.level[a] == 3 && a < |s.mem| && v.p < |s.mem[a]|
            && var b := s.mem[a][v.p].frame;
               Edge(s, b, v.d) && b in s.level && s.level[b] == 2 && b < |s.mem| && v.d < |s.mem[b]|
  {
    hide Inv, UserVa;
    InvShape(s);
    PathLevels(s, root, v);
  }

  lemma PermitsOnPath(s: State, root: nat, v: VPage, bits: bv12)
    requires Inv(s) && Walkable(s, root, 4, v) && LeafTable(s.mem, root, v).Some?
    requires HasBits(s.mem, Some(root), v.m, bits)
    requires HasBits(s.mem, Some(s.mem[root][v.m].frame), v.p, bits)
    requires HasBits(s.mem, Some(s.mem[s.mem[root][v.m].frame][v.p].frame), v.d, bits)
    ensures Permits(s.mem, root, v, bits)
  {
    hide Inv, UserVa, Includes;
    PathLevels(s, root, v);
  }

  lemma SameWalksTrans(s: State, s': State, s'': State)
    requires SameWalks(s, s') && SameWalks(s', s'')
    ensures SameWalks(s, s'')
  {
    hide Inv, View, LeafTable;
  }

  predicate HasBits(m: seq<Page>, t: Option<nat>, i: nat, perm: bv12) {
    t.Some? && t.value < |m| && i < |m[t.value]| && Includes(m[t.value][i].perm, perm)
  }

  predicate Includes(bits: bv12, perm: bv12) { bits & perm == perm }

  /** A change below the upper levels leaves them alone. */
  lemma PermitsKept(s: State, m': seq<Page>, root: nat, v: VPage, pt: nat, perm: bv12)
    requires Inv(s) && IsRoot(s, root) && UserVa(v) && LeafTable(s.mem, root, v) == Some(pt) && Permits(s.mem, root, v, perm)
    requires OnlyPage(s.mem, m', pt)
    ensures Permits(m', root, v, perm)
  {
    hide Inv, Includes, UserVa;
    PathLevels(s, root, v);
  }

  /** Contents are the same except perhaps those of page t. */
  ghost predicate OnlyPage(m: seq<Page>, m': seq<Page>, t: nat) {
    t < |m| == |m'| && forall u :: 0 <= u < |m| && u != t ==> m'[u] == m[u]
  }

  /** Only live tables have changed, and of a root nothing in the slots shared with the kernel. */
  ghost predicate DataKept(s: State, s': State) {
    && |s'.mem| == |s.mem| && s'.level == s.level
    && (forall p :: 0 <= p < |s.mem| && p !in s.level ==> s'.mem[p] == s.mem[p])
    && (forall p: nat, i: nat :: IsRoot(s, p) && i in SHARED && p < |s.mem| && i < |s.mem[p]| && i < |s'.mem[p]|
          ==> s'.mem[p][i] == s.mem[p][i])
  }

  ghost predicate Paged(m: seq<Page>) { forall p :: 0 <= p < |m| ==> |m[p]| == 512 }

  lemma DataKeptOne(s: State, s': State, t: nat, i: nat)
    requires OnlyPage(s.mem, s'.mem, t) && t in s.level && s'.level == s.level && i < |s.mem[t]| == |s'.mem[t]|
    requires s'.mem[t] == s.mem[t][i := s'.mem[t][i]] && (s.level[t] == 4 ==> i !in SHARED)
    ensures DataKept(s, s')
  {
  }

  lemma DataKeptLeaf(s: State, s': State, t: nat)
    requires OnlyPage(s.mem, s'.mem, t) && t in s.level && s'.level == s.level && s.level[t] == 1
    ensures DataKept(s, s')
  {
  }

  lemma DataKeptTrans(a: State, b: State, c: State)
    requires DataKept(a, b) && DataKept(b, c) && Paged(a.mem) && Paged(b.mem)
    ensures DataKept(a, c)
  {
  }

  /** A walk that took n pages and then writes to tables only: other data stays. */
  lemma GrownData(s: State, s1: State, s2: State, n: nat)
    requires Grown(s, s1, n) && DataKept(s1, s2) && Paged(s.mem) && Paged(s1.mem)
    ensures SameData(s, s2)
  {
    assert forall u :: u in s.free[..n] ==> u in s.free;
  }

  function Wide(e: Entry, perm: bv12): Entry { e.(perm := e.perm | perm) }

  lemma WideBits(e: Entry, perm: bv12)
    ensures Wide(e, perm).p == e.p && Wide(e, perm).frame == e.frame && Includes(Wide(e, perm).perm, perm)
  {
  }

  /** Lowering a sixteen-bit count. */
  lemma Lowered(s: State, pp: nat)
    requires ListOk(s) && pp < |s.ref|
    ensures (s.ref[pp] + 0xFFFF) % 0x1_0000 == if s.ref[pp] == 0 then 0xFFFF else s.ref[pp] - 1
    ensures s.ref[pp] > 0 ==> pp !in s.free && pp < |s.link| && ListOk(s.(ref := s.ref[pp := s.ref[pp] - 1]))
  {
    hide Chain;
  }

  /** What page_init is told: memory sizes in pages, and the physical addresses where free
      memory and the boot page tables begin and end. */
  datatype Boot = Boot(npages: nat, basePages: nat, nextFree: nat, bootStart: nat, bootEnd: nat)

  /** Page 0, the I/O hole, the kernel, the processor start-up page and the boot page tables. */
  predicate InUse(b: Boot, i: nat) {
    || (b.bootStart <= i * PGSIZE < b.bootEnd)
    || (i < b.nextFree / PGSIZE && (i == 0x7000 / PGSIZE || i == 0 || i >= b.basePages))
  }

  lemma InUseIs(b: Boot, i: nat)
    ensures !InUse(b, i) <==>
              !(b.bootStart <= i * PGSIZE < b.bootEnd) && (i >= b.nextFree / PGSIZE || (0 < i < b.basePages && i != 7))
  {
  }

  function FreePages(b: Boot, n: nat): seq<nat> {
    if n == 0 then [] else FreePages(b, n - 1) + (if InUse(b, n - 1) then [] else [n - 1])
  }

  lemma {:induction false} FreePagesBelow(b: Boot, n: nat)
    ensures forall p :: p in FreePages(b, n) <==> 0 <= p < n && !InUse(b, p)
  {
    hide InUse;
    if n > 0 { FreePagesBelow(b, n - 1); }
  }

  lemma FreePagesStep(b: Boot, n: nat)
    ensures FreePages(b, 0) == []
    ensures FreePages(b, n + 1) == if InUse(b, n) then FreePages(b, n) else FreePages(b, n) + [n]
  {
    hide InUse;
  }

  /** With no table live, the invariant is about the free list and the boot-time counts only. */
  lemma BootInv(s: State)
    requires ListOk(s) && s.level == map[] && s.holds == s.ref
    ensures Inv(s)
  {
    hide Chain;
    assert forall f: nat :: Refs(s, f) == {};
  }

  /** The effect of writing page pp into a last-level entry that held was: pp gains a
      reference, the page mapped before loses one and is released if that was the last. */
  ghost predicate Replaced(ref: seq<nat>, ref': seq<nat>, free: seq<nat>, free': seq<nat>, was: Option<nat>, pp: nat) {
    && |ref'| == |ref|
    && (forall f :: 0 <= f < |ref| ==>
          ref'[f] + (if was == Some(f) then 1 else 0) == ref[f] + (if f == pp then 1 else 0))
    && free' == (if was.Some? && was.value != pp && was.value < |ref| && ref[was.value] == 1 then [was.value] else []) + free
  }

  function FrameOf(e: Option<Entry>): Option<nat> {
    if e.Some? then Some(e.value.frame) else None
  }

  function Promote(ref: seq<nat>, taken: seq<nat>): (r: seq<nat>)
    ensures |r| == |ref| && forall f :: 0 <= f < |ref| ==> r[f] == if f in taken then 1 else ref[f]
  {
    seq(|ref|, f requires 0 <= f < |ref| => if f in taken then 1 else ref[f])
  }

  /** The effect of a successful page_insert on counts and on the free list: n pages become
      tables with count one, and then the entry is replaced. */
  ghost predicate Inserted(s: State, s': State, r: nat, va: VPage, pp: nat) {
    var n := Missing(s.mem, r, 4, va);
    && n <= |s.free| && s'.holds == s.holds
    && (forall f :: f in s.free[..n] ==> f in s'.level)
    && Replaced(Promote(s.ref, s.free[..n]), s'.ref, s.free[n..], s'.free, FrameOf(Lookup(s.mem, r, va)), pp)
  }

  lemma SameLookup(s: State, s': State, r: nat, va: VPage)
    requires Inv(s) && Inv(s') && IsRoot(s, r) && IsRoot(s', r) && UserVa(va) && View(s') == View(s)
    ensures Lookup(s'.mem, r, va) == Lookup(s.mem, r, va)
  {
    hide Inv, View, Lookup;
    ViewAt(s, r, va);
    ViewAt(s', r, va);
  }

  lemma InsertedFrom(s: State, s1: State, s2: State, s4: State, r: nat, va: VPage, pp: nat)
    requires Inv(s) && IsRoot(s, r) && IsRoot(s1, r) && UserVa(va) && Missing(s.mem, r, 4, va) <= |s.free|
    requires Grown(s, s1, Missing(s.mem, r, 4, va)) && View(s1) == View(s) && SameWalks(s1, s2)
    requires s4.level == s2.level && s4.holds == s2.holds
    requires Replaced(s2.ref, s4.ref, s2.free, s4.free, FrameOf(Lookup(s2.mem, r, va)), pp)
    requires forall f :: f in s.free[..Missing(s.mem, r, 4, va)] ==> f in s1.level
    ensures Inserted(s, s4, r, va, pp)
  {
    hide Inv, View, Lookup, Missing;
    ViewAt(s, r, va);
    ViewAt(s1, r, va);
    ViewAt(s2, r, va);
    var n := Missing(s.mem, r, 4, va);
    assert Lookup(s2.mem, r, va) == Lookup(s.mem, r, va);
    assert s2.ref == Promote(s.ref, s.free[..n]);
  }

  /** Tables stay, and new ones are former free pages and no roots. */
  ghost predicate NewTables(s: State, s': State) {
    && (forall u :: u in s.level ==> u in s'.level && s'.level[u] == s.level[u])
    && (forall u :: u in s'.level ==> u in s.level || (u in s.free && s'.level[u] < 4))
  }

  lemma InsertedData(s: State, s1: State, s2: State, s4: State, n: nat, r: nat, va: VPage, pt: nat)
    requires Inv(s) && Inv(s1) && Inv(s2) && Grown(s, s1, n) && DataKept(s1, s2) && s2.level == s1.level && s4.level == s2.level
    requires IsRoot(s2, r) && UserVa(va) && LeafTable(s2.mem, r, va) == Some(pt) && OnlyPage(s2.mem, s4.mem, pt)
    ensures SameData(s, s4) && NewTables(s, s4)
  {
    hide Inv, DataKept, SameData;
    PathLevels(s2, r, va);
    InvShape(s);
    InvShape(s1);
    InvShape(s2);
    DataKeptLeaf(s2, s4, pt);
    DataKeptTrans(s1, s2, s4);
    GrownData(s, s1, s4, n);
  }

  class Pmap {
    var ppRef: seq<nat>
    var ppLink: seq<Option<nat>>
    var pageFreeList: Option<nat>
    var mem: seq<Page>
    ghost var free: seq<nat>
    ghost var level: map<nat, nat>
    ghost var holds: seq<nat>

    ghost function St(): State
      reads this
    {
      State(ppRef, ppLink, pageFreeList, mem, free, level, holds)
    }

    method PageAlloc(zero: bool) returns (pp: Option<nat>)
      requires ListOk(St())
      modifies this
      ensures ListOk(St())
      ensures pp == old(pageFreeList)
      ensures old(free) == [] ==> pp == None && St() == old(St())
      ensures old(free) != [] ==> pp == Some(old(free)[0]) && St() == Popped(old(St()), zero)
      ensures pp.Some? && zero ==> pp.value < |mem| && |mem[pp.value]| == 512 && forall i :: 0 <= i < 512 ==> mem[pp.value][i] == Entry(false, 0, 0)
    {
      pp := pageFreeList;
      if pp.Some? {
        PoppedList(St(), zero);
        pageFreeList := ppLink[pp.value];
        ppLink := ppLink[pp.value := None];
        if zero { mem := mem[pp.value := ZeroPage()]; }
        free := free[1..];
      }
    }

    /** A page that still has references or a successor on the list is left alone.  The link
        test catches a double free of every page but the last one of the free list; freeing
        that one again ties the list into a cycle. */
    method PageFree(pp: nat)
      requires ListOk(St()) && pp < |ppRef|
      modifies this
      ensures old(ppRef[pp] != 0 || ppLink[pp] != None) ==> St() == old(St())
      ensures old(ppRef[pp] == 0) && pp !in old(free) ==>
                ListOk(St()) && St() == old(St()).(link := ppLink, head := Some(pp), free := [pp] + old(free))
                && ppLink == old(ppLink)[pp := old(pageFreeList)]
      ensures pp in old(free) ==>
                (St() == old(St()) <==> pp != old(free)[|old(free)| - 1])
      ensures pp in old(free) && pp == old(free)[|old(free)| - 1] ==>
                forall xs :: !Chain(pageFreeList, ppLink, xs)
    {
      ghost var s := St();
      if pp in free {
        var i :| 0 <= i < |free| && free[i] == pp;
        LinkAt(pageFreeList, ppLink, free, i);
      }
      if ppRef[pp] != 0 || ppLink[pp] != None {
        return;
      }
      ppLink := ppLink[pp := pageFreeList];
      pageFreeList := Some(pp);
      ppRef := ppRef[pp := 0];
      if pp in s.free {
        forall xs ensures !Chain(pageFreeList, ppLink, xs) {
          PushTailIsCyclic(s.head, s.link, s.free, pp, xs);
        }
      } else {
        Push(s.head, s.link, s.free, pp);
        free := [pp] + free;
      }
    }

    method PageDecref(pp: nat)
      requires ListOk(St()) && pp < |ppRef|
      modifies this
      ensures old(ppRef[pp]) > 0 ==> St() == DropRef(old(St()), pp) && ListOk(St())
      ensures old(ppRef[pp]) == 0 ==> St() == old(St()).(ref := old(ppRef)[pp := 0xFFFF])
    {
      hide ListOk, Chain;
      Lowered(St(), pp);
      if ppRef[pp] > 0 { DropRefList(St(), pp); }
      ppRef := ppRef[pp := (ppRef[pp] + 0xFFFF) % 0x1_0000];
      if ppRef[pp] == 0 {
        PageFree(pp);
      }
    }

    /** Links a fresh zeroed table at slot i of table t (the allocation branch that the three
        walks share). */
    method LinkTable(t: nat, i: nat) returns (page: Option<nat>)
      requires ListOk(St()) && t in level && level[t] > 1 && t < |mem| && i < 512 && t !in free
      modifies this
      ensures old(free) == [] ==> page == None && St() == old(St())
      ensures old(free) != [] ==> page == Some(old(free)[0]) && St() == NewTable(old(St()), t, i)
    {
      page := PageAlloc(true);
      if page.Some? {
        ppRef := ppRef[page.value := (ppRef[page.value] + 1) % 0x1_0000];
        mem := mem[t := mem[t][i := Entry(true, page.value, PTE_UW)]];
        level := level[page.value := level[t] - 1];
      }
    }

    /** Takes back what LinkTable did after the walk below failed. */
    method UnlinkTable(t: nat, i: nat, page: nat, ghost s: State)
      requires CanLink(s, t, i) && page == s.free[0] && page != t && Kept(NewTable(s, t, i), St())
      modifies this
      ensures Kept(s, St())
    {
      hide Inv, Edge, SameLeaves, SameData, ListOk, AddsEdge;
      UnlinkReady(s, t, i, St());
      RollbackKept(s, t, i, St());
      NewTableEdges(s, t, i);
      ghost var s3 := s.(mem := WriteEntry(St(), t, i, ZERO).mem);
      mem := mem[t := mem[t][i := ZERO]];
      PageDecref(page);
      level := level - {page};
      assert St() == s3 by { LinkUndone(s, t, i); }
    }

    method PgdirWalk(pgdir: nat, va: nat, create: bool) returns (pt: Option<nat>)
      requires Inv(St()) && Walkable(St(), pgdir, 2, Split(va))
      modifies this
      ensures Walked(old(St()), St(), pgdir, 2, Split(va), create, pt)
    {
      hide Inv, View, Grown, Kept, Edge, PML4, PDPE, PDX, PTX;
      ghost var s := St();
      InvShape(s);
      InvList(s);
      WalkableStep(s, pgdir, 2, Split(va));
      GrownRefl(s);
      KeptRefl(s);
      var pde := mem[pgdir][PDX(va)];
      if !pde.p && create {
        pt := LinkTable(pgdir, PDX(va));
        if pt.Some? {
          NewTableInv(s, pgdir, PDX(va));
          NewTableView(s, pgdir, PDX(va));
          NewTableGrown(s, pgdir, PDX(va));
        }
      } else if pde.p {
        pt := Some(pde.frame);
      } else {
        pt := None;
      }
    }

    method PdpeWalk(pdpe: nat, va: nat, create: bool) returns (pt: Option<nat>)
      requires Inv(St()) && Walkable(St(), pdpe, 3, Split(va))
      modifies this
      ensures Walked(old(St()), St(), pdpe, 3, Split(va), create, pt)
    {
      hide Inv, View, Grown, Edge, PML4, PDPE, PDX, PTX, SameLeaves, SameData, ListOk;
      ghost var s := St();
      InvShape(s);
      InvList(s);
      KeptRefl(s);
      WalkableStep(s, pdpe, 3, Split(va));
      var e := mem[pdpe][PDPE(va)];
      if !e.p && create {
        var page := LinkTable(pdpe, PDPE(va));
        if page.Some? {
          NewTableInv(s, pdpe, PDPE(va));
          MissingNew(s, pdpe, 3, Split(va));
          pt := PgdirWalk(page.value, va, create);
          if pt != None {
            WalkedNew(s, St(), pdpe, 3, Split(va), pt);
          } else {
            UnlinkTable(pdpe, PDPE(va), page.value, s);
          }
        } else {
          pt := None;
        }
      } else if e.p {
        pt := PgdirWalk(e.frame, va, create);
        WalkedPresent(s, St(), pdpe, 3, Split(va), create, pt);
      } else {
        pt := None;
      }
    }

    method Pml4eWalk(pml4e: Option<nat>, va: nat, create: bool) returns (pt: Option<nat>)
      requires Inv(St()) && (pml4e.Some? ==> Walkable(St(), pml4e.value, 4, Split(va)))
      modifies this
      ensures pml4e == None ==> pt == None && St() == old(St())
      ensures pml4e.Some? ==> Walked(old(St()), St(), pml4e.value, 4, Split(va), create, pt)
    {
      hide Inv, View, Grown, Edge, PML4, PDPE, PDX, PTX, SameLeaves, SameData, ListOk;
      ghost var s := St();
      if pml4e == None {
        return None;
      }
      var r := pml4e.value;
      InvShape(s);
      InvList(s);
      KeptRefl(s);
      WalkableStep(s, r, 4, Split(va));
      var e := mem[r][PML4(va)];
      if !e.p && create {
        var page := LinkTable(r, PML4(va));
        if page.Some? {
          NewTableInv(s, r, PML4(va));
          MissingNew(s, r, 4, Split(va));
          pt := PdpeWalk(page.value, va, create);
          if pt != None {
            WalkedNew(s, St(), r, 4, Split(va), pt);
          } else {
            UnlinkTable(r, PML4(va), page.value, s);
          }
        } else {
          pt := None;
        }
      } else if e.p {
        pt := PdpeWalk(e.frame, va, create);
        WalkedPresent(s, St(), r, 4, Split(va), create, pt);
      } else {
        pt := None;
      }
    }

    method PageLookup(pml4e: Option<nat>, va: nat) returns (page: Option<nat>, pt: Option<nat>)
      requires Inv(St()) && (pml4e.Some? ==> Walkable(St(), pml4e.value, 4, Split(va)))
      modifies this
      ensures St() == old(St())
      ensures page == if pml4e.Some? && (pml4e.value, Split(va)) in View(St())
                      then Some(View(St())[(pml4e.value, Split(va))].frame) else None
      ensures page.Some? ==> pt.Some? && pt == LeafTable(mem, pml4e.value, Split(va))
    {
      page := None;
      pt := Pml4eWalk(pml4e, va, false);
      if pml4e.Some? { ViewAt(St(), pml4e.value, Split(va)); }
      if pt.Some? {
        FoundEdge(St(), pml4e.value, Split(va), pt.value);
        if mem[pt.value][PTX(va)].p {
          page := Some(mem[pt.value][PTX(va)].frame);
        }
      }
    }

    /** Deletes one key of the translation; the page loses one reference and is freed exactly
        when that was the last. */
    method PageRemove(pml4e: Option<nat>, va: nat)
      requires Inv(St()) && (pml4e.Some? ==> Walkable(St(), pml4e.value, 4, Split(va)))
      modifies this
      ensures Inv(St())
      ensures pml4e == None || (pml4e.value, Split(va)) !in old(View(St())) ==> St() == old(St())
      ensures pml4e.Some? && (pml4e.value, Split(va)) in old(View(St())) ==>
                var t := LeafTable(old(mem), pml4e.value, Split(va));
                && t.Some? && Edge(old(St()), t.value, PTX(va)) && Removable(old(St()), t.value, PTX(va))
                && St() == RemoveLeaf(old(St()), t.value, PTX(va))
      ensures pml4e.Some? ==> View(St()) == old(View(St())) - {(pml4e.value, Split(va))}
    {
      hide Inv, View, ListOk, RemoveLeaf, PML4, PDPE, PDX, PTX;
      ghost var s := St();
      InvList(s);
      var page, pt := PageLookup(pml4e, va);
      if pml4e.Some? { ViewAt(s, pml4e.value, Split(va)); }
      if page.Some? {
        FoundEdge(s, pml4e.value, Split(va), pt.value);
        RemoveLeafAll(s, pml4e.value, Split(va), pt.value);
        RemoveLeafIs(s, pt.value, PTX(va));
        PageDecref(page.value);
        mem := mem[pt.value := mem[pt.value][PTX(va) := ZERO]];
      }
    }

    method WidenAt(t: nat, i: nat, perm: bv12)
      requires Inv(St()) && Edge(St(), t, i) && level[t] > 1
      modifies this
      ensures SameWalks(old(St()), St()) && SameLeaves(old(St()), St())
      ensures OnlyPage(old(mem), mem, t) && i < |mem[t]| == |old(mem)[t]| && mem[t][i] == Wide(old(mem)[t][i], perm)
      ensures DataKept(old(St()), St())
    {
      hide Inv, View, SameLeaves, SameWalks;
      WidenEntry(St(), t, i, perm);
      ghost var s := St();
      mem := mem[t := mem[t][i := mem[t][i].(perm := mem[t][i].perm | perm)]];
      DataKeptOne(s, St(), t, i);
    }

    /** Or-s the permissions into the three upper-level entries on the way to va. */
    method WidenPath(root: nat, va: nat, perm: bv12)
      requires Inv(St()) && Walkable(St(), root, 4, Split(va)) && LeafTable(mem, root, Split(va)).Some?
      modifies this
      ensures SameWalks(old(St()), St()) && Permits(mem, root, Split(va), perm & !PTE_AVAIL)
      ensures DataKept(old(St()), St())
    {
      hide Inv, View, PML4, PDPE, PDX, PTX, Wide, SameLeaves, UserVa, Includes, DataKept, SameWalks, LeafTable, Permits, Step, Edge, Paged;
      ghost var s0, v := St(), Split(va);
      var bits := perm & !PTE_AVAIL;
      OnPath(s0, root, v);
      var pdpe := mem[root][PML4(va)].frame;
      var pde := mem[pdpe][PDPE(va)].frame;
      WideBits(mem[root][PML4(va)], bits);
      WidenAt(root, PML4(va), bits);
      ghost var s1 := St();
      StillWalks(s0, s1, root, v);
      OnPath(s1, root, v);
      WideBits(mem[pdpe][PDPE(va)], bits);
      WidenAt(pdpe, PDPE(va), bits);
      ghost var s2 := St();
      StillWalks(s1, s2, root, v);
      OnPath(s2, root, v);
      WideBits(mem[pde][PDX(va)], bits);
      WidenAt(pde, PDX(va), bits);
      StillWalks(s2, St(), root, v);
      PermitsOnPath(St(), root, v, bits);
      DataKeptTrans(s0, s1, s2);
      DataKeptTrans(s0, s2, St());
      SameWalksTrans(s0, s1, s2);
      SameWalksTrans(s0, s2, St());
    }

    method WriteFresh(root: nat, va: nat, pt: nat, pp: nat, perm: bv12)
      requires Inv(St()) && Walkable(St(), root, 4, Split(va)) && LeafTable(mem, root, Split(va)) == Some(pt)
      requires !Edge(St(), pt, PTX(va))
      requires pp < |ppRef| && pp !in level && pp !in free && ppRef[pp] < 0xFFFF
      modifies this
      ensures Inv(St()) && level == old(level) && holds == old(holds) && free == old(free)
      ensures View(St()) == old(View(St()))[(root, Split(va)) := Entry(true, pp, perm)]
      ensures ppRef == old(ppRef)[pp := old(ppRef)[pp] + 1]
      ensures OnlyPage(old(mem), mem, pt)
    {
      hide Inv, View, PML4, PDPE, PDX, PTX;
      InsertLeafAll(St(), root, Split(va), pt, pp, perm);
      ppRef := ppRef[pp := (ppRef[pp] + 1) % 0x1_0000];
      mem := mem[pt := mem[pt][PTX(va) := Entry(true, pp, perm)]];
    }

    /** Replacing a different page: page_remove and then a fresh entry. */
    method WriteOver(root: nat, va: nat, pt: nat, pp: nat, perm: bv12)
      requires Inv(St()) && Walkable(St(), root, 4, Split(va)) && LeafTable(mem, root, Split(va)) == Some(pt)
      requires Edge(St(), pt, PTX(va)) && Target(St(), pt, PTX(va)) != pp
      requires pp < |ppRef| && pp !in level && pp !in free && ppRef[pp] < 0xFFFF
      modifies this
      ensures Inv(St()) && level == old(level) && holds == old(holds)
      ensures View(St()) == old(View(St()))[(root, Split(va)) := Entry(true, pp, perm)]
      ensures Replaced(old(ppRef), ppRef, old(free), free, Some(Target(old(St()), pt, PTX(va))), pp)
      ensures OnlyPage(old(mem), mem, pt)
    {
      hide Inv, View, RemoveLeaf, Removable, LeafTable, Lookup, PML4, PDPE, PDX, PTX;
      ghost var s := St();
      FoundEdge(s, root, Split(va), pt);
      ViewAt(s, root, Split(va));
      PageRemove(Some(root), va);
      RemovedCounts(s, pt, PTX(va));
      RemovedPath(s, root, Split(va), pt);
      WriteFresh(root, va, pt, pp, perm);
      UpdateAfterRemove(View(s), (root, Split(va)), Entry(true, pp, perm));
    }

    /** The last part of page_insert, once the last-level table pt is known. */
    method SetPte(root: nat, va: nat, pt: nat, pp: nat, perm: bv12)
      requires Inv(St()) && Walkable(St(), root, 4, Split(va)) && LeafTable(mem, root, Split(va)) == Some(pt)
      requires pp < |ppRef| && pp !in level && pp !in free
      requires ppRef[pp] < 0xFFFF || FrameOf(Lookup(mem, root, Split(va))) == Some(pp)
      modifies this
      ensures Inv(St()) && level == old(level) && holds == old(holds)
      ensures View(St()) == old(View(St()))[(root, Split(va)) := Entry(true, pp, perm)]
      ensures Replaced(old(ppRef), ppRef, old(free), free, FrameOf(Lookup(old(mem), root, Split(va))), pp)
      ensures OnlyPage(old(mem), mem, pt)
    {
      hide Inv, View, LeafTable, Lookup, PML4, PDPE, PDX, PTX;
      FoundEdge(St(), root, Split(va), pt);
      var pte := mem[pt][PTX(va)];
      if pte.p && pte.frame == pp {
        RewriteLeaf(St(), root, Split(va), pt, perm);
        mem := mem[pt := mem[pt][PTX(va) := Entry(true, pte.frame, perm)]];
      } else if pte.p {
        WriteOver(root, va, pt, pp, perm);
      } else {
        WriteFresh(root, va, pt, pp, perm);
      }
    }

    /** Updates one key of the translation, or fails and changes nothing.  Re-inserting the
        page that is already there leaves its count alone; replacing another page gives that
        one up. */
    method PageInsert(pml4e: Option<nat>, pp: Option<nat>, va: nat, perm: bv12) returns (ok: bool)
      requires Inv(St()) && (pml4e.Some? ==> Walkable(St(), pml4e.value, 4, Split(va)))
      requires pp.Some? ==> pp.value < |ppRef| && pp.value !in level && pp.value !in free
      requires pp.Some? ==> ppRef[pp.value] < 0xFFFF || (pml4e.Some? && FrameOf(Lookup(mem, pml4e.value, Split(va))) == pp)
      modifies this
      ensures Inv(St())
      ensures ok <==> pml4e.Some? && pp.Some? && Missing(old(mem), pml4e.value, 4, Split(va)) <= |old(free)|
      ensures !ok ==> View(St()) == old(View(St())) && Kept(old(St()), St())
      ensures ok ==> SameData(old(St()), St()) && NewTables(old(St()), St())
      ensures ok ==> View(St()) == old(View(St()))[(pml4e.value, Split(va)) := Entry(true, pp.value, perm)]
      ensures ok ==> Inserted(old(St()), St(), pml4e.value, Split(va), pp.value)
      ensures ok ==> Permits(mem, pml4e.value, Split(va), perm & !PTE_AVAIL)
    {
      hide Inv, View, Kept, LeafTable, Missing, PML4, PDPE, PDX, PTX, Permits, SameData, DataKept;
      ghost var s := St();
      if pml4e == None || pp == None {
        KeptRefl(s);
        return false;
      }
      var root := pml4e.value;
      var pt := Pml4eWalk(pml4e, va, true);
      ghost var s1 := St();
      if pt == None {
        KeptInv(s, s1);
        return false;
      }
      GrownNew(s, s1, Missing(s.mem, root, 4, Split(va)), pp.value);
      WidenPath(root, va, perm);
      ghost var s2 := St();
      SameLookup(s, s2, root, Split(va));
      SetPte(root, va, pt.value, pp.value, perm);
      InsertedFrom(s, s1, s2, St(), root, Split(va), pp.value);
      PermitsKept(s2, mem, root, Split(va), pt.value, perm & !PTE_AVAIL);
      InsertedData(s, s1, s2, St(), Missing(s.mem, root, 4, Split(va)), root, Split(va), pt.value);
      ok := true;
    }

    /** Either the whole range is accessible, or the first address that is not. */
    method UserMemCheck(root: nat, start: nat, len: nat, perm: bv12) returns (fault: Option<nat>)
      requires start < WORD && len < WORD
      ensures CheckResult(mem, root, start, len, perm, fault)
    {
      hide Accessible, Grants;
      var end := (start + len) % WORD;
      if end >= ULIM || start > end {
        return Some(start);
      }
      var va := start;
      while va < end
        invariant start <= va
        invariant forall a :: start <= a < va && a < end ==> Accessible(mem, root, a, perm)
        decreases end - va
      {
        GrantsIff(mem, root, va, perm);
        if !Grants(Lookup(mem, root, Split(va)), perm) {
          return Some(va);
        }
        var next := va + 1 + (PGSIZE - 1) - (va + 1 + (PGSIZE - 1)) % PGSIZE;
        forall a | va <= a < next ensures Accessible(mem, root, a, perm) {
          SamePageAccess(mem, root, va, a, perm);
        }
        va := next;
      }
      return None;
    }

    /** Builds the free list in ascending order; afterwards the invariant holds, with every
        page in use at boot held once. */
    method PageInit(b: Boot, contents: seq<Page>)
      requires |contents| == b.npages && forall p :: 0 <= p < |contents| ==> |contents[p]| == 512
      modifies this
      ensures Inv(St()) && level == map[] && mem == contents && |ppRef| == b.npages
      ensures forall i :: 0 <= i < b.npages ==> ppRef[i] == holds[i] == if InUse(b, i) then 1 else 0
      ensures free == FreePages(b, b.npages)
      ensures forall p :: p in free <==>
                && 0 <= p < b.npages && !(b.bootStart <= p * PGSIZE < b.bootEnd)
                && (p >= b.nextFree / PGSIZE || (0 < p < b.basePages && p != 7))
    {
      hide InUse, Chain, Inv, FreePages;
      FreePagesStep(b, 0);
      EmptyChain(seq(b.npages, _ => None));
      ppRef, ppLink, mem := seq(b.npages, _ => 0), seq(b.npages, _ => None), contents;
      pageFreeList := None;
      free, level := [], map[];
      var last: Option<nat> := None;
      for i := 0 to b.npages
        invariant |ppRef| == b.npages && |ppLink| == b.npages && mem == contents && level == map[]
        invariant free == FreePages(b, i) && Chain(pageFreeList, ppLink, free)
        invariant last == if free == [] then None else Some(free[|free| - 1])
        invariant forall j :: 0 <= j < i ==> ppRef[j] == if InUse(b, j) then 1 else 0
        invariant forall j :: 0 <= j < b.npages && j !in free ==> ppLink[j] == None
      {
        var inuse := true;
        if i != 0 && i < b.basePages { inuse := false; }
        if i == 0x7000 / PGSIZE { inuse := true; }
        if i >= b.nextFree / PGSIZE { inuse := false; }
        if b.bootStart <= i * PGSIZE < b.bootEnd { inuse := true; }
        InUseIs(b, i);
        FreePagesBelow(b, i);
        FreePagesStep(b, i);
        ppRef := ppRef[i := if inuse then 1 else 0];
        assert ppLink[i := None] == ppLink;
        ppLink := ppLink[i := None];
        if !inuse {
          AddLast(i, last);
          last := Some(i);
        }
      }
      holds := ppRef;
      FreePagesBelow(b, b.npages);
      forall p: nat { InUseIs(b, p); }
      BootInv(St());
    }

    method AddLast(i: nat, last: Option<nat>)
      requires Chain(pageFreeList, ppLink, free) && i < |ppLink| && i !in free && ppLink[i] == None
      requires last == if free == [] then None else Some(free[|free| - 1])
      modifies this`pageFreeList, this`ppLink, this`free
      ensures free == old(free) + [i] && |ppLink| == |old(ppLink)| && Chain(pageFreeList, ppLink, free)
      ensures forall j :: 0 <= j < |ppLink| && j !in old(free) ==> ppLink[j] == old(ppLink)[j]
    {
      Append(pageFreeList, ppLink, free, i);
      if last.Some? {
        ppLink := ppLink[last.value := Some(i)];
      } else {
        pageFreeList := Some(i);
      }
      free := free + [i];
    }
  }

  /** What acceptance means, in terms of the entries alone: the range ends below ULIM and every address in
      it is mapped with every permission asked for. */
  lemma CheckAccepts(m: seq<Page>, root: nat, start: nat, len: nat, perm: bv12, fault: Option<nat>)
    requires CheckResult(m, root, start, len, perm, fault)
    ensures fault == None <==>
              && start <= (start + len) % WORD < ULIM
              && forall a :: start <= a < (start + len) % WORD ==>
                   Lookup(m, root, Split(a)).Some? && perm & !Lookup(m, root, Split(a)).value.perm & 0xFFE == 0
  {
    hide Lookup, Split, Accessible;
    forall a: nat ensures Accessible(m, root, a, perm) <==>
        Lookup(m, root, Split(a)).Some? && perm & !Lookup(m, root, Split(a)).value.perm & 0xFFE == 0 {
      AccessibleIs(m, root, a, perm);
    }
    if fault.Some? && start <= (start + len) % WORD < ULIM { assert !Accessible(m, root, fault.value, perm); }
  }

  lemma AccessibleIs(m: seq<Page>, root: nat, a: nat, perm: bv12)
    ensures Accessible(m, root, a, perm) <==>
              Lookup(m, root, Split(a)).Some? && perm & !Lookup(m, root, Split(a)).value.perm & 0xFFE == 0
  {
  }

  lemma OneAddress(m: seq<Page>, root: nat, va: nat, q: bv12, fault: Option<nat>)
    requires CheckResult(m, root, va, 1, q, fault) && va + 1 < ULIM
    ensures fault == None <==> Accessible(m, root, va, q)
  {
    hide Accessible;
  }

  /** What page_insert and user_mem_check make of permissions together: a page mapped with p passes a
      check for q exactly if q asks for nothing that p lacks. */
  method InsertAndCheck(k: Pmap, root: nat, pp: nat, va: nat, p: bv12, q: bv12) returns (ok: bool, fault: Option<nat>)
    requires Inv(k.St()) && Walkable(k.St(), root, 4, Split(va)) && va + 1 < ULIM
    requires pp < |k.ppRef| && pp !in k.level && pp !in k.free && k.ppRef[pp] < 0xFFFF
    modifies k
    ensures ok ==> (fault == None <==> q & !p & 0xFFE == 0)
  {
    hide Inv, View, Kept, SameData, Inserted, Permits, Missing, PML4, PDPE, PDX, PTX;
    ok := k.PageInsert(Some(root), Some(pp), va, p);
    fault := k.UserMemCheck(root, va, 1, q);
    if ok {
      ViewAt(k.St(), root, Split(va));
      assert Lookup(k.mem, root, Split(va)) == Some(Entry(true, pp, p));
      assert Accessible(k.mem, root, va, q) <==> q & !p & 0xFFE == 0;
      assert (va + 1) % WORD == va + 1;
      OneAddress(k.mem, root, va, q, fault);
    }
  }
}
