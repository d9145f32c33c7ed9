/** Whole runs of the page allocator and the page tables: any sequence of operations by clients that
    use only pages they were handed and address spaces they made. */
module PageRuns {
  import opened Wrappers
  import opened FreeList
  import opened Mmu
  import opened PhysMem
  import opened TableOps
  import opened WalkOps
  import opened Reclaim
  import opened PmapCode
  import opened EnvSpace

  /** What a client may do: take a page and give it back unused, map a page it has, share a page that
      is mapped, unmap, make the tables for an address, and start and end an address space. */
  datatype Op =
    | Take(zero: bool)
    | GiveBack(pp: nat)
    | MapPage(root: nat, va: nat, pp: nat, perm: bv12)
    | Share(src: nat, srcVa: nat, dst: nat, dstVa: nat, perm: bv12)
    | Unmap(root: nat, va: nat)
    | MakeTables(root: nat, va: nat)
    | NewSpace(kernel: Entry)
    | EndSpace(root: nat)

  // ---------------------------------------------------------------- what holds all along

  /** The kernel's state, the pages handed out and not yet mapped, the address spaces, and whether no
      env_free has lost a reference. */
  datatype Client = Client(s: State, hand: set<nat>, roots: set<nat>, exact: bool)

  function One(f: nat, xs: set<nat>): nat { if f in xs then 1 else 0 }

  /** The pages nobody refers to that are not on the free list. */
  ghost function Loose(s: State): set<nat> { set p | 0 <= p < |s.ref| && s.ref[p] == 0 && p !in s.free }

  /** base are the references held since boot. */
  ghost predicate Fine(base: seq<nat>, c: Client) {
    Inv(c.s) && c.hand == Loose(c.s) && OwnOk(base, c) && TablesOk(base, c)
  }

  /** The address spaces are the roots there are, and no table is a page in use since boot. */
  ghost predicate TablesOk(base: seq<nat>, c: Client) {
    && (forall r :: r in c.roots <==> IsRoot(c.s, r))
    && (forall t :: t in c.s.level && t < |base| ==> base[t] == 0)
  }

  /** The references that do not come from table entries: those held since boot, one for each address
      space, and what an env_free has lost. */
  ghost predicate OwnOk(base: seq<nat>, c: Client) {
    && |base| == |c.s.holds|
    && (forall f :: 0 <= f < |base| ==> c.s.holds[f] >= base[f] + One(f, c.roots))
    && (c.exact ==> forall f :: 0 <= f < |base| ==> c.s.holds[f] == base[f] + One(f, c.roots))
  }

  /** What that says of every page: it is free, handed out or referred to; a free page is not handed
      out, mapped, a table, an address space or held since boot; a page handed out is referred to by
      nobody; and the count covers the entries that name the page, the boot's reference and the
      address space's, and is their sum while no env_free has lost a reference. */
  lemma FineMeans(base: seq<nat>, c: Client, f: nat)
    requires Fine(base, c) && f < |c.s.ref|
    ensures |base| == |c.s.ref|
    ensures c.s.ref[f] == 0 ==> f in c.s.free || f in c.hand
    ensures f in c.s.free ==> f !in c.hand && f !in c.roots && f !in c.s.level && base[f] == 0
                              && forall t, i :: Edge(c.s, t, i) ==> Target(c.s, t, i) != f
    ensures f in c.hand ==> f !in c.roots && f !in c.s.level && base[f] == 0 && Refs(c.s, f) == {}
    ensures c.s.ref[f] >= |Refs(c.s, f)| + base[f] + One(f, c.roots)
    ensures c.exact ==> c.s.ref[f] == |Refs(c.s, f)| + base[f] + One(f, c.roots)
  {
    hide Chain, EdgesOk, TreeOk, Refs;
    InvShape(c.s);
    if f in c.s.free { FreePageUnreachable(c.s, f); }
  }

  // ---------------------------------------------------------------- what the operations do

  /** page_insert: the map gets one key and the page is in hand no more, or, if the free list does not
      cover the missing tables, nothing that can be observed changes. */
  ghost predicate Mapped(a: Client, b: Client, root: nat, va: nat, pp: nat, perm: bv12) {
    if Missing(a.s.mem, root, 4, Split(va)) <= |a.s.free| then
      b == a.(s := b.s, hand := a.hand - {pp}) && View(b.s) == View(a.s)[(root, Split(va)) := Entry(true, pp, perm)]
    else
      b == a.(s := b.s) && View(b.s) == View(a.s) && Kept(a.s, b.s)
  }

  /** The first free page, if there is one. */
  function First(free: seq<nat>): set<nat> { if free == [] then {} else {free[0]} }

  ghost predicate Zeroed(m: seq<Page>, p: nat) {
    p < |m| && |m[p]| == 512 && forall i :: 0 <= i < 512 ==> m[p][i] == Entry(false, 0, 0)
  }

  function Rest(free: seq<nat>): seq<nat> { if free == [] then [] else free[1..] }

  /** What a client has the right to. */
  ghost predicate Allowed(op: Op, c: Client) {
    match op
    case Take(_) => true
    case GiveBack(pp) => pp in c.hand
    case MapPage(root, va, pp, _) => root in c.roots && pp in c.hand && UserVa(Split(va))
    case Share(src, srcVa, dst, dstVa, _) =>
      && src in c.roots && dst in c.roots && UserVa(Split(srcVa)) && UserVa(Split(dstVa))
      && (src, Split(srcVa)) in View(c.s) && CountBelow(c.s, View(c.s)[(src, Split(srcVa))].frame)
    case Unmap(root, va) => root in c.roots && UserVa(Split(va))
    case MakeTables(root, va) => root in c.roots && UserVa(Split(va))
    case NewSpace(_) => true
    case EndSpace(root) => root in c.roots
  }

  predicate CountBelow(s: State, f: nat) { f < |s.ref| && s.ref[f] < 0xFFFF }

  /** One operation, from a to b; one that the client has no right to is not made. */
  ghost predicate Does(op: Op, a: Client, b: Client) {
    if !Allowed(op, a) then b == a
    else
      match op
      case Take(zero) =>
        && b == a.(s := b.s, hand := a.hand + First(a.s.free))
        && View(b.s) == View(a.s) && b.s.ref == a.s.ref && b.s.free == Rest(a.s.free)
        && (zero ==> forall p :: p in First(a.s.free) ==> Zeroed(b.s.mem, p))
      case GiveBack(pp) =>
        && b == a.(s := b.s, hand := a.hand - {pp})
        && View(b.s) == View(a.s) && b.s.ref == a.s.ref && b.s.free == [pp] + a.s.free
      case MapPage(root, va, pp, perm) => Mapped(a, b, root, va, pp, perm)
      case Share(src, srcVa, dst, dstVa, perm) =>
        Mapped(a, b, dst, dstVa, View(a.s)[(src, Split(srcVa))].frame, perm)
      case Unmap(root, va) => b == a.(s := b.s) && View(b.s) == View(a.s) - {(root, Split(va))}
      case MakeTables(root, va) =>
        && b == a.(s := b.s) && View(b.s) == View(a.s)
        && (LeafTable(b.s.mem, root, Split(va)).Some? || Missing(a.s.mem, root, 4, Split(va)) > |a.s.free|)
      case NewSpace(_) =>
        && b == a.(s := b.s, roots := a.roots + First(a.s.free)) && First(a.s.free) !! a.roots
        && View(b.s) == View(a.s) && b.s.free == Rest(a.s.free)
      case EndSpace(root) =>
        && b == a.(s := b.s, roots := a.roots - {root}, exact := a.exact && RootClean(a.s, root))
        && OthersSame(a.s, b.s, root) && root !in b.s.level && FreeGrew(a.s, b.s)
  }

  // ---------------------------------------------------------------- what operations leave alone

  /** Apart from the exceptions the same pages are loose. */
  ghost predicate Quiet(s: State, s': State, except: set<nat>) {
    |s'.ref| == |s.ref| && forall p :: p !in except ==> (p in Loose(s') <==> p in Loose(s))
  }

  lemma StillFine(base: seq<nat>, a: Client, b: Client, used: set<nat>)
    requires Fine(base, a) && Inv(b.s) && Quiet(a.s, b.s, used) && NewTables(a.s, b.s) && b.s.holds == a.s.holds
    requires b == a.(s := b.s, hand := a.hand - used) && used !! Loose(b.s)
    ensures Fine(base, b)
  {
    hide Inv, Loose;
    forall f | f in a.s.free ensures f < |a.s.holds| && a.s.holds[f] == 0 {
      FreePageUnreachable(a.s, f);
      InvShape(a.s);
    }
  }

  lemma WalkQuiet(s: State, s': State, root: nat, va: VPage, pt: Option<nat>)
    requires Inv(s) && Walked(s, s', root, 4, va, true, pt)
    ensures Inv(s') && View(s') == View(s) && Quiet(s, s', {}) && NewTables(s, s') && s'.holds == s.holds
    ensures LeafTable(s'.mem, root, va).Some? || Missing(s.mem, root, 4, va) > |s.free|
  {
    hide Inv, View, SameLeaves, SameData, ListOk, WalkFrom, Missing, GrownMem;
    if Missing(s.mem, root, 4, va) <= |s.free| {
      var n := Missing(s.mem, root, 4, va);
      SplitFree(s.free, n);
      WalkIsLeaf(s'.mem, root, va);
    } else {
      KeptInv(s, s');
    }
  }

  lemma WalkIsLeaf(m: seq<Page>, root: nat, va: VPage)
    ensures WalkFrom(m, root, 4, va) == LeafTable(m, root, va)
  {
  }

  lemma SplitFree(free: seq<nat>, n: nat)
    requires n <= |free|
    ensures forall f :: f in free <==> f in free[..n] || f in free[n..]
  {
    assert free == free[..n] + free[n..];
  }

  lemma InsertQuiet(s: State, s': State, root: nat, va: VPage, pp: nat)
    requires Inv(s) && Inv(s') && Inserted(s, s', root, va, pp) && NewTables(s, s')
    requires pp < |s.ref| && FrameOf(Lookup(s.mem, root, va)) == Some(pp) ==> s.ref[pp] > 0 && pp !in s.free
    ensures Quiet(s, s', {pp}) && NewTables(s, s') && s'.holds == s.holds && pp !in Loose(s')
  {
    hide Inv, Lookup, Missing;
    SplitFree(s.free, Missing(s.mem, root, 4, va));
  }

  lemma KeptQuiet(s: State, s': State)
    requires Inv(s) && Kept(s, s')
    ensures Inv(s') && Quiet(s, s', {}) && NewTables(s, s') && s'.holds == s.holds
  {
    hide Inv, View, SameLeaves, SameData, ListOk;
    KeptInv(s, s');
  }

  lemma RemoveQuiet(s: State, t: nat, i: nat)
    requires Inv(s) && Edge(s, t, i) && Removable(s, t, i)
    ensures var s' := RemoveLeaf(s, t, i); Quiet(s, s', {}) && NewTables(s, s') && s'.holds == s.holds
  {
    hide Inv, RemoveLeaf, Removable;
    RemovedCounts(s, t, i);
  }

  /** Putting an unreferenced page back on the list. */
  lemma PushedInv(s: State, s': State, pp: nat)
    requires Inv(s) && ListOk(s') && s' == s.(link := s'.link, head := s'.head, free := [pp] + s.free)
    ensures Inv(s') && View(s') == View(s) && Quiet(s, s', {pp}) && NewTables(s, s') && pp !in Loose(s')
  {
    hide Chain, Refs, View;
    SameEdgesInv(s, s');
    SameLeavesView(s, s');
  }

  lemma FreeLoose(s: State)
    requires Inv(s) && s.free != []
    ensures s.free[0] < |s.ref| && s.ref[s.free[0]] == 0
    ensures forall f :: f in s.free <==> f == s.free[0] || f in s.free[1..]
  {
    hide Chain, EdgesOk, TreeOk, LevelsOk, CountOk;
    assert s.free[0] in s.free;
  }

  lemma NewRootKeeps(base: seq<nat>, a: Client, kernel: Entry)
    requires Fine(base, a) && NewRootReady(a.s) && Inv(NewRoot(a.s, kernel))
    ensures a.s.free[0] !in a.roots
    ensures Fine(base, a.(s := NewRoot(a.s, kernel), roots := a.roots + {a.s.free[0]}))
  {
    hide Inv;
    var s, s' := a.s, NewRoot(a.s, kernel);
    FreePageUnreachable(s, s.free[0]);
    InvShape(s);
    InvList(s);
    PoppedList(s, false);
    FreeLoose(s);
    assert Loose(s') == Loose(s);
  }

  // ---------------------------------------------------------------- one operation

  method TakePage(k: Pmap, zero: bool, hand: set<nat>, ghost roots: set<nat>, ghost exact: bool, ghost base: seq<nat>)
    returns (hand': set<nat>)
    requires Fine(base, Client(k.St(), hand, roots, exact))
    modifies k
    ensures Fine(base, Client(k.St(), hand', roots, exact))
    ensures Does(Take(zero), Client(old(k.St()), hand, roots, exact), Client(k.St(), hand', roots, exact))
  {
    hide Inv, View, ListOk;
    ghost var s := k.St();
    InvList(s);
    InvShape(s);
    if s.free != [] {
      PoppedInv(s, zero);
      PoppedList(s, zero);
      FreePageUnreachable(s, s.free[0]);
      FreeLoose(s);
    }
    var pp := k.PageAlloc(zero);
    hand' := if pp.Some? then hand + {pp.value} else hand;
    assert pp.Some? <==> s.free != [] by { HeadIs(s); }
    assert Loose(k.St()) == Loose(s) + First(s.free);
  }

  lemma HeadIs(s: State)
    requires ListOk(s)
    ensures s.head.Some? <==> s.free != []
  {
  }

  method GivePageBack(k: Pmap, pp: nat, hand: set<nat>, ghost roots: set<nat>, ghost exact: bool, ghost base: seq<nat>)
    returns (hand': set<nat>)
    requires Fine(base, Client(k.St(), hand, roots, exact)) && pp in hand
    modifies k
    ensures Fine(base, Client(k.St(), hand', roots, exact))
    ensures Does(GiveBack(pp), Client(old(k.St()), hand, roots, exact), Client(k.St(), hand', roots, exact))
  {
    hide Inv, View, Quiet, NewTables;
    ghost var s := k.St();
    InvList(s);
    k.PageFree(pp);
    PushedInv(s, k.St(), pp);
    hand' := hand - {pp};
    StillFine(base, Client(s, hand, roots, exact), Client(k.St(), hand', roots, exact), {pp});
  }

  lemma NotTable(s: State, pp: nat)
    requires Inv(s) && pp < |s.ref| && s.ref[pp] == 0
    ensures pp !in s.level
  {
  }

  method Insert(k: Pmap, root: nat, va: nat, pp: nat, perm: bv12, hand: set<nat>, ghost roots: set<nat>, ghost exact: bool, ghost base: seq<nat>)
    returns (hand': set<nat>)
    requires Fine(base, Client(k.St(), hand, roots, exact)) && root in roots && UserVa(Split(va))
    requires pp < |k.ppRef| && pp !in k.level && pp !in k.free && k.ppRef[pp] < 0xFFFF
    modifies k
    ensures Fine(base, Client(k.St(), hand', roots, exact))
    ensures Mapped(Client(old(k.St()), hand, roots, exact), Client(k.St(), hand', roots, exact), root, va, pp, perm)
  {
    hide Inv, View, Quiet, NewTables, Inserted, Kept, SameData, Permits, Missing, PML4, PDPE, PDX, PTX, Loose;
    ghost var s := k.St();
    MappedCounted(s, root, Split(va), pp);
    var ok := k.PageInsert(Some(root), Some(pp), va, perm);
    hand' := if ok then hand - {pp} else hand;
    ghost var a, b := Client(s, hand, roots, exact), Client(k.St(), hand', roots, exact);
    if ok {
      InsertQuiet(s, k.St(), root, Split(va), pp);
      StillFine(base, a, b, {pp});
    } else {
      KeptQuiet(s, k.St());
      assert hand - {} == hand;
      StillFine(base, a, b, {});
    }
  }

  lemma MappedCounted(s: State, r: nat, v: VPage, pp: nat)
    requires Inv(s) && IsRoot(s, r) && UserVa(v)
    ensures FrameOf(Lookup(s.mem, r, v)) == Some(pp) ==> pp < |s.ref| && s.ref[pp] > 0 && pp !in s.free
  {
    hide Inv, View, Lookup;
    ViewAt(s, r, v);
    if FrameOf(Lookup(s.mem, r, v)) == Some(pp) { MappedPage(s, r, v, pp); }
  }

  /** page_lookup in one address space and page_insert in another. */
  method SharePage(k: Pmap, src: nat, srcVa: nat, dst: nat, dstVa: nat, perm: bv12,
                   hand: set<nat>, ghost roots: set<nat>, ghost exact: bool, ghost base: seq<nat>)
    returns (hand': set<nat>)
    requires Fine(base, Client(k.St(), hand, roots, exact)) && src in roots && dst in roots && UserVa(Split(srcVa)) && UserVa(Split(dstVa))
    modifies k
    ensures Fine(base, Client(k.St(), hand', roots, exact)) && hand' == hand
    ensures Does(Share(src, srcVa, dst, dstVa, perm), Client(old(k.St()), hand, roots, exact), Client(k.St(), hand', roots, exact))
  {
    hide Inv, View, Mapped, Loose, PML4, PDPE, PDX, PTX;
    hand' := hand;
    var page, pt := k.PageLookup(Some(src), srcVa);
    if page.Some? {
      MappedPage(k.St(), src, Split(srcVa), page.value);
      if k.ppRef[page.value] < 0xFFFF {
        ghost var a := Client(k.St(), hand, roots, exact);
        assert page.value !in hand by { NotLoose(k.St(), page.value); }
        hand' := Insert(k, dst, dstVa, page.value, perm, hand, roots, exact, base);
        MappedHand(a, Client(k.St(), hand', roots, exact), dst, dstVa, page.value, perm);
      }
    }
  }

  lemma NotLoose(s: State, f: nat)
    requires f < |s.ref| && s.ref[f] > 0
    ensures f !in Loose(s)
  {
  }

  lemma MappedHand(a: Client, b: Client, root: nat, va: nat, pp: nat, perm: bv12)
    requires Mapped(a, b, root, va, pp, perm) && pp !in a.hand
    ensures b.hand == a.hand
  {
    hide View, Kept, Missing, PML4, PDPE, PDX, PTX;
  }

  lemma MappedPage(s: State, r: nat, v: VPage, f: nat)
    requires Inv(s) && IsRoot(s, r) && UserVa(v) && (r, v) in View(s) && View(s)[(r, v)].frame == f
    ensures f < |s.ref| && f !in s.level && f !in s.free && s.ref[f] > 0
  {
    hide Inv, View;
    ViewAt(s, r, v);
    PathLevels(s, r, v);
    var pt := LeafTable(s.mem, r, v).value;
    EdgeCounted(s, pt, v.t);
    InvShape(s);
  }

  method UnmapPage(k: Pmap, root: nat, va: nat, ghost hand: set<nat>, ghost roots: set<nat>, ghost exact: bool, ghost base: seq<nat>)
    requires Fine(base, Client(k.St(), hand, roots, exact)) && root in roots && UserVa(Split(va))
    modifies k
    ensures Fine(base, Client(k.St(), hand, roots, exact))
    ensures Does(Unmap(root, va), Client(old(k.St()), hand, roots, exact), Client(k.St(), hand, roots, exact))
  {
    hide Inv, View, Quiet, NewTables, RemoveLeaf, LeafTable, PML4, PDPE, PDX, PTX, Loose;
    ghost var s := k.St();
    k.PageRemove(Some(root), va);
    ghost var t := LeafTable(s.mem, root, Split(va));
    if (root, Split(va)) in View(s) {
      RemoveQuiet(s, t.value, PTX(va));
      assert hand - {} == hand;
      StillFine(base, Client(s, hand, roots, exact), Client(k.St(), hand, roots, exact), {});
    }
  }

  method MakeTablesFor(k: Pmap, root: nat, va: nat, ghost hand: set<nat>, ghost roots: set<nat>, ghost exact: bool, ghost base: seq<nat>)
    requires Fine(base, Client(k.St(), hand, roots, exact)) && root in roots && UserVa(Split(va))
    modifies k
    ensures Fine(base, Client(k.St(), hand, roots, exact))
    ensures Does(MakeTables(root, va), Client(old(k.St()), hand, roots, exact), Client(k.St(), hand, roots, exact))
  {
    hide Inv, View, Quiet, NewTables, Walked, PML4, PDPE, PDX, PTX, Loose, LeafTable, Missing;
    ghost var s := k.St();
    var pt := k.Pml4eWalk(Some(root), va, true);
    WalkQuiet(s, k.St(), root, Split(va), pt);
    assert hand - {} == hand;
    StillFine(base, Client(s, hand, roots, exact), Client(k.St(), hand, roots, exact), {});
  }

  method StartSpace(k: Pmap, kernel: Entry, roots: set<nat>, ghost hand: set<nat>, ghost exact: bool, ghost base: seq<nat>)
    returns (roots': set<nat>)
    requires Fine(base, Client(k.St(), hand, roots, exact))
    modifies k
    ensures Fine(base, Client(k.St(), hand, roots', exact))
    ensures Does(NewSpace(kernel), Client(old(k.St()), hand, roots, exact), Client(k.St(), hand, roots', exact))
  {
    hide Inv, View, Loose;
    ghost var s := k.St();
    var root := EnvSetupVm(k, kernel);
    roots' := if root.Some? then roots + {root.value} else roots;
    if root.Some? { NewRootKeeps(base, Client(s, hand, roots, exact), kernel); }
  }

  method EndAddressSpace(k: Pmap, root: nat, roots: set<nat>, ghost hand: set<nat>, ghost exact: bool, ghost base: seq<nat>)
    returns (roots': set<nat>, ghost exact': bool)
    requires Fine(base, Client(k.St(), hand, roots, exact)) && root in roots
    modifies k
    ensures Fine(base, Client(k.St(), hand, roots', exact'))
    ensures Does(EndSpace(root), Client(old(k.St()), hand, roots, exact), Client(k.St(), hand, roots', exact'))
  {
    hide Inv, View, OthersSame, SparesSkipped, RootClean, Refs, FreeGrew, Loose;
    ghost var s := k.St();
    InvShape(s);
    EnvFree(k, root);
    roots' := roots - {root};
    exact' := exact && RootClean(s, root);
    assert Loose(k.St()) == Loose(s) by { GrewLoose(s, k.St()); }
  }

  lemma GrewLoose(s: State, s': State)
    requires FreeGrew(s, s')
    ensures Loose(s') == Loose(s)
  {
    var xs :| s'.free == xs + s.free;
    assert forall p :: p in s.free ==> p in s'.free;
  }

  // ---------------------------------------------------------------- every run

  /** Carries out one operation. */
  method Perform(k: Pmap, op: Op, hand: set<nat>, roots: set<nat>, ghost exact: bool, ghost base: seq<nat>)
    returns (hand': set<nat>, roots': set<nat>, ghost exact': bool)
    requires Fine(base, Client(k.St(), hand, roots, exact))
    modifies k
    ensures Fine(base, Client(k.St(), hand', roots', exact'))
    ensures Does(op, Client(old(k.St()), hand, roots, exact), Client(k.St(), hand', roots', exact'))
  {
    hide Inv, OwnOk, RootClean, View, PML4, PDPE, PDX, PTX, FreeGrew, OthersSame, LeafTable, Missing, Mapped;
    hand', roots', exact' := hand, roots, exact;
    match op {
      case Take(zero) => hand' := TakePage(k, zero, hand, roots, exact, base);
      case GiveBack(pp) => if pp in hand { hand' := GivePageBack(k, pp, hand, roots, exact, base); }
      case MapPage(root, va, pp, perm) =>
        if root in roots && pp in hand && UserVa(Split(va)) {
          NotTable(k.St(), pp);
          hand' := Insert(k, root, va, pp, perm, hand, roots, exact, base);
        }
      case Share(src, srcVa, dst, dstVa, perm) =>
        if src in roots && dst in roots && UserVa(Split(srcVa)) && UserVa(Split(dstVa)) {
          hand' := SharePage(k, src, srcVa, dst, dstVa, perm, hand, roots, exact, base);
        }
      case Unmap(root, va) =>
        if root in roots && UserVa(Split(va)) { UnmapPage(k, root, va, hand, roots, exact, base); }
      case MakeTables(root, va) =>
        if root in roots && UserVa(Split(va)) { MakeTablesFor(k, root, va, hand, roots, exact, base); }
      case NewSpace(kernel) => roots' := StartSpace(k, kernel, roots, hand, exact, base);
      case EndSpace(root) =>
        if root in roots { roots', exact' := EndAddressSpace(k, root, roots, hand, exact, base); }
    }
  }

  /** The references page_init leaves: one to every page in use at boot. */
  function AtBoot(b: Boot): seq<nat> { seq(b.npages, i requires 0 <= i => if InUse(b, i) then 1 else 0) }

  ghost predicate Booted(b: Boot, contents: seq<Page>, c: Client) {
    && c.s.level == map[] && c.s.mem == contents && c.s.free == FreePages(b, b.npages) && c.s.holds == c.s.ref == AtBoot(b)
    && c.hand == {} && c.roots == {} && c.exact
  }

  /** The states of a run: each operation does what it should to the one before it, and in all of them
      every page is accounted for. */
  ghost predicate IsRun(b: Boot, contents: seq<Page>, ops: seq<Op>, trace: seq<Client>) {
    && |trace| == |ops| + 1 && Booted(b, contents, trace[0])
    && (forall i :: 0 <= i < |ops| ==> Does(ops[i], trace[i], trace[i + 1]))
    && (forall i :: 0 <= i < |trace| ==> Fine(AtBoot(b), trace[i]))
  }

  /** From page_init on, for any sequence of operations. */
  method Run(k: Pmap, b: Boot, contents: seq<Page>, ops: seq<Op>) returns (hand: set<nat>, roots: set<nat>, ghost trace: seq<Client>)
    requires |contents| == b.npages && forall p :: 0 <= p < |contents| ==> |contents[p]| == 512
    modifies k
    ensures IsRun(b, contents, ops, trace)
    ensures trace[|ops|] == Client(k.St(), hand, roots, trace[|ops|].exact)
  {
    hide Inv, RootClean, InUse, Does, Fine;
    k.PageInit(b, contents);
    ghost var exact := true;
    hand, roots := {}, {};
    trace := [Client(k.St(), hand, roots, exact)];
    BootFine(b, contents, trace[0]);
    var i := 0;
    while i < |ops|
      invariant 0 <= i <= |ops| && IsRun(b, contents, ops[..i], trace)
      invariant trace[i] == Client(k.St(), hand, roots, exact)
    {
      hand, roots, exact := Perform(k, ops[i], hand, roots, exact, AtBoot(b));
      trace := trace + [Client(k.St(), hand, roots, exact)];
      i := i + 1;
    }
    assert ops[..i] == ops;
  }

  lemma BootFine(b: Boot, contents: seq<Page>, c: Client)
    requires Inv(c.s) && |c.s.ref| == b.npages && c.s.level == map[] && c.s.mem == contents && c.hand == {} && c.roots == {} && c.exact
    requires forall i :: 0 <= i < b.npages ==> c.s.ref[i] == c.s.holds[i] == if InUse(b, i) then 1 else 0
    requires c.s.free == FreePages(b, b.npages)
    ensures Booted(b, contents, c) && Fine(AtBoot(b), c)
  {
    hide Inv, InUse;
    InvShape(c.s);
    FreePagesBelow(b, b.npages);
    assert Loose(c.s) == {};
  }

  /** Page 0, the processors' start-up page and the pages from base memory up to the kernel's end, and the
      boot page tables, are never free, handed out, a table or an address space, in any state of any run. */
  lemma ReservedStays(b: Boot, contents: seq<Page>, ops: seq<Op>, trace: seq<Client>, i: nat, p: nat)
    requires IsRun(b, contents, ops, trace) && i < |trace| && p < b.npages
    requires || (b.bootStart <= p * PGSIZE < b.bootEnd)
             || (p < b.nextFree / PGSIZE && (p == 0 || p == 7 || b.basePages <= p))
    ensures p < |trace[i].s.ref| && trace[i].s.ref[p] > 0
    ensures p !in trace[i].s.free && p !in trace[i].hand && p !in trace[i].s.level && p !in trace[i].roots
  {
    hide Does, InUse, OwnOk, Loose;
    InUseIs(b, p);
    InvShape(trace[i].s);
    assert AtBoot(b)[p] == 1;
    SameSize(AtBoot(b), trace[i]);
    FineMeans(AtBoot(b), trace[i], p);
  }

  lemma SameSize(base: seq<nat>, c: Client)
    requires Fine(base, c)
    ensures |base| == |c.s.ref|
  {
    hide EdgesOk, TreeOk, CountOk, Chain;
    InvShape(c.s);
  }

  /** Counts are exact in every state before the first address space is ended. */
  lemma {:induction false} ExactUntilEnd(b: Boot, contents: seq<Page>, ops: seq<Op>, trace: seq<Client>, i: nat)
    requires IsRun(b, contents, ops, trace) && i < |trace| && forall j :: 0 <= j < i ==> !ops[j].EndSpace?
    ensures trace[i].exact
  {
    hide Fine;
    if i > 0 {
      ExactUntilEnd(b, contents, ops, trace, i - 1);
      assert Does(ops[i - 1], trace[i - 1], trace[i]);
    }
  }

  /** A table has a parent, and so, level by level, there is an address space above it. */
  lemma {:induction false} RootAbove(base: seq<nat>, c: Client, t: nat)
    requires Fine(base, c) && c.exact && t in c.s.level
    ensures c.roots != {}
    decreases 4 - c.s.level[t]
  {
    hide Loose, ListOk, TreeOk, CountOk, Refs;
    if t !in c.roots {
      InvShape(c.s);
      FineMeans(base, c, t);
      var u := Parent(c.s, t);
      RootAbove(base, c, u);
    }
  }

  lemma Parent(s: State, t: nat) returns (u: nat)
    requires Inv(s) && t in s.level && |Refs(s, t)| > 0
    ensures u in s.level && s.level[u] == s.level[t] + 1
  {
    var e :| e in Refs(s, t);
    assert Edge(s, e.0, e.1) && Target(s, e.0, e.1) == t;
    u := e.0;
  }

  lemma AllBack(base: seq<nat>, c: Client)
    requires Fine(base, c) && c.exact && c.roots == {} && c.hand == {}
    ensures forall t :: t !in c.s.level
    ensures forall f :: f in c.s.free <==> 0 <= f < |base| && base[f] == 0
  {
    hide Inv, Loose;
    InvShape(c.s);
    forall t ensures t !in c.s.level { if t in c.s.level { RootAbove(base, c, t); assert false; } }
    forall f: nat | f < |base| ensures f in c.s.free <==> base[f] == 0 {
      FineMeans(base, c, f);
      assert Refs(c.s, f) == {};
    }
  }

  /** Nothing is lost: whatever happened before, once every address space has been ended without loss
      and every page given back, no table is left and exactly the pages that were free at boot are free. */
  lemma RunGivesBack(b: Boot, contents: seq<Page>, ops: seq<Op>, trace: seq<Client>, i: nat)
    requires IsRun(b, contents, ops, trace) && i < |trace| && trace[i].exact && trace[i].roots == {} && trace[i].hand == {}
    ensures forall t :: t !in trace[i].s.level
    ensures forall f :: f in trace[i].s.free <==> f in trace[0].s.free
  {
    hide Fine, Does;
    AllBack(AtBoot(b), trace[i]);
    AllBack(AtBoot(b), trace[0]);
  }
}
