/** Physical pages and page tables as one value: the reference counts, the free list and
    the contents of every page, with the bookkeeping the invariant speaks about. */
module PhysMem {
  import opened Wrappers
  import opened FreeList
  import opened Mmu

  /** A 64-bit table entry: the present bit, the frame number PTE_ADDR selects and the other
      eleven low bits. */
  datatype Entry = Entry(p: bool, frame: nat, perm: bv12)

  const ZERO: Entry := Entry(false, 0, 0)
  const PTE_UW: bv12 := 0x006
  const PTE_AVAIL: bv12 := 0xE00

  type Page = seq<Entry>

  function ZeroPage(): (p: Page)
    ensures |p| == 512 && forall i :: 0 <= i < 512 ==> p[i] == ZERO
  {
    seq(512, _ => ZERO)
  }

  /** ref, link, head and mem are the kernel's own data: pp_ref and pp_link of every page,
      page_free_list and the contents of physical memory.  free lists the free pages in
      order, level says which pages are live page tables (4 for a PML4 down to 1), and
      holds counts the references that do not come from table entries: an environment's
      hold on its root, pages reserved at boot, pages an env_free forgot. */
  datatype State = State(
    ref: seq<nat>, link: seq<Option<nat>>, head: Option<nat>, mem: seq<Page>,
    free: seq<nat>, level: map<nat, nat>, holds: seq<nat>)

  /** PML4 slots that every environment shares with the kernel (slot 1) or points at
      itself (slot 2, UVPT); entries there are not counted in pp_ref. */
  const SHARED: set<nat> := {1, 2}

  predicate UserVa(va: VPage) { va.m !in SHARED }

  predicate IsRoot(s: State, r: nat) { r in s.level && s.level[r] == 4 }

  /** Slot i of live table t is present and counted. */
  predicate Edge(s: State, t: nat, i: nat) {
    && t in s.level && t < |s.mem| && i < |s.mem[t]|
    && (s.level[t] == 4 ==> i !in SHARED)
    && s.mem[t][i].p
  }

  function Target(s: State, t: nat, i: nat): nat
    requires Edge(s, t, i)
  {
    s.mem[t][i].frame
  }

  ghost function Refs(s: State, f: nat): set<(nat, nat)> {
    set t: nat, i: nat | t in s.level && i < 512 && Edge(s, t, i) && Target(s, t, i) == f :: (t, i)
  }

  // ---------------------------------------------------------------- invariant

  ghost predicate Shape(s: State) {
    && |s.link| == |s.ref| && |s.mem| == |s.ref| && |s.holds| == |s.ref|
    && (forall p :: 0 <= p < |s.mem| ==> |s.mem[p]| == 512)
    && (forall p :: 0 <= p < |s.ref| ==> s.ref[p] < 0x1_0000)
  }

  /** The free list is a finite duplicate-free list of pages with count zero. */
  ghost predicate ListOk(s: State) {
    && Shape(s)
    && Chain(s.head, s.link, s.free)
    && (forall p :: p in s.free ==> p < |s.ref| && s.ref[p] == 0)
    && (forall p :: 0 <= p < |s.link| && p !in s.free ==> s.link[p] == None)
  }

  ghost predicate LevelsOk(s: State) {
    forall t :: t in s.level ==> t < |s.ref| && 1 <= s.level[t] <= 4 && s.ref[t] > 0
  }

  /** A table of level k + 1 points at tables of level k; a level-1 table at pages that are
      not live tables. */
  ghost predicate EdgesOk(s: State) {
    forall t, i :: Edge(s, t, i) ==>
      && Target(s, t, i) < |s.ref|
      && if s.level[t] > 1
         then Target(s, t, i) in s.level && s.level[Target(s, t, i)] == s.level[t] - 1
         else Target(s, t, i) !in s.level
  }

  /** No table has two parents. */
  ghost predicate TreeOk(s: State) {
    forall t, i, u, j ::
      (Edge(s, t, i) && Edge(s, u, j) && s.level[t] > 1 && s.level[u] > 1 && Target(s, t, i) == Target(s, u, j))
      ==> t == u && i == j
  }

  ghost predicate CountOk(s: State) {
    forall f :: 0 <= f < |s.ref| && f < |s.holds| ==> s.ref[f] == |Refs(s, f)| + s.holds[f]
  }

  ghost predicate Inv(s: State) {
    ListOk(s) && LevelsOk(s) && EdgesOk(s) && TreeOk(s) && CountOk(s)
  }

  lemma InvList(s: State)
    requires Inv(s)
    ensures ListOk(s)
  {
  }

  lemma InvShape(s: State)
    requires Inv(s)
    ensures Shape(s) && |s.link| == |s.ref| && |s.mem| == |s.ref| && |s.holds| == |s.ref|
    ensures forall t :: t in s.level ==> t < |s.ref| && |s.mem[t]| == 512 && 1 <= s.level[t] <= 4 && s.ref[t] > 0
    ensures forall p :: p in s.free ==> p < |s.ref| && s.ref[p] == 0
  {
  }

  /** What the invariant is for: a free page is not a live table and nothing names or holds it. */
  lemma FreePageUnreachable(s: State, f: nat)
    requires Inv(s) && f in s.free
    ensures f !in s.level && s.holds[f] == 0 && Refs(s, f) == {}
    ensures forall t, i :: Edge(s, t, i) ==> Target(s, t, i) != f
  {
    forall t: nat, i: nat | Edge(s, t, i) ensures Target(s, t, i) != f {
      assert (t, i) !in Refs(s, f);
    }
  }

  // ---------------------------------------------------------------- translation

  function Step(m: seq<Page>, o: Option<nat>, i: nat): Option<nat> {
    if o.Some? && o.value < |m| && i < |m[o.value]| && m[o.value][i].p then Some(m[o.value][i].frame) else None
  }

  /** The last-level table a walk from root r reaches for va. */
  function LeafTable(m: seq<Page>, r: nat, va: VPage): Option<nat> {
    Step(m, Step(m, Step(m, Some(r), va.m), va.p), va.d)
  }

  /** The present last-level entry for va, if there is one. */
  function Lookup(m: seq<Page>, r: nat, va: VPage): Option<Entry> {
    var o := LeafTable(m, r, va);
    if Step(m, o, va.t).Some? then Some(m[o.value][va.t]) else None
  }

  /** The entry that translates page v of the address space rooted at r. */
  function Translate(s: State, r: nat, v: VPage): Option<Entry> {
    if IsRoot(s, r) && UserVa(v) then Lookup(s.mem, r, v) else None
  }

  ghost function Graph(f: (nat, VPage) -> Option<Entry>): imap<(nat, VPage), Entry> {
    imap r: nat, v: VPage | f(r, v).Some? :: (r, v) := f(r, v).value
  }

  lemma GraphExt(f: (nat, VPage) -> Option<Entry>, g: (nat, VPage) -> Option<Entry>)
    requires forall r, v :: g(r, v) == f(r, v)
    ensures Graph(g) == Graph(f)
  {
  }

  lemma GraphUpdate(f: (nat, VPage) -> Option<Entry>, g: (nat, VPage) -> Option<Entry>, r: nat, v: VPage, e: Entry)
    requires forall r', v' :: g(r', v') == if r' == r && v' == v then (if e.p then Some(e) else None) else f(r', v')
    ensures Graph(g) == if e.p then Graph(f)[(r, v) := e] else Graph(f) - {(r, v)}
  {
  }

  lemma UpdateAfterRemove(m: imap<(nat, VPage), Entry>, k: (nat, VPage), e: Entry)
    ensures (m - {k})[k := e] == m[k := e]
  {
  }

  /** The plain map the tables stand for: (root, virtual page) to (frame, permissions). */
  ghost function View(s: State): imap<(nat, VPage), Entry> {
    Graph((r: nat, v: VPage) => Translate(s, r, v))
  }

  lemma PathLevels(s: State, r: nat, va: VPage)
    requires Inv(s) && IsRoot(s, r) && UserVa(va)
    ensures var a := Step(s.mem, Some(r), va.m); var b := Step(s.mem, a, va.p); var c := Step(s.mem, b, va.d);
            && (a.Some? ==> Edge(s, r, va.m) && a.value in s.level && s.level[a.value] == 3)
            && (b.Some? ==> Edge(s, a.value, va.p) && b.value in s.level && s.level[b.value] == 2)
            && (c.Some? ==> Edge(s, b.value, va.d) && c.value in s.level && s.level[c.value] == 1)
  {
    var a := Step(s.mem, Some(r), va.m);
    if a.Some? {
      assert Edge(s, r, va.m);
      var b := Step(s.mem, a, va.p);
      if b.Some? {
        assert Edge(s, a.value, va.p);
        if Step(s.mem, b, va.d).Some? { assert Edge(s, b.value, va.d); }
      }
    }
  }

  /** Two walks that end in the same last-level table started at the same root and took
      the same three indices. */
  lemma UniquePath(s: State, r: nat, va: VPage, r': nat, va': VPage)
    requires Inv(s) && IsRoot(s, r) && IsRoot(s, r') && UserVa(va) && UserVa(va')
    requires LeafTable(s.mem, r, va).Some? && LeafTable(s.mem, r, va) == LeafTable(s.mem, r', va')
    ensures r == r' && va.m == va'.m && va.p == va'.p && va.d == va'.d
  {
    PathLevels(s, r, va);
    PathLevels(s, r', va');
  }
}
