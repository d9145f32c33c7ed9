/** lib/malloc.c: a cursor allocator that counts live blocks in the last word of a page and
    chains the pages of large blocks with PTE_CONTINUED. */
module Malloc {
  const PGSIZE: nat := 4096
  const WORD: nat := 0x1_0000_0000_0000_0000
  const MAXMALLOC: nat := 0x10_0000
  const MBEGIN: nat := 0x800_0000
  const MEND: nat := 0x1000_0000
  const PBEGIN: nat := 0x8000
  const PEND: nat := 0x1_0000

  /** Reference words are 32 bits wide. */
  const REFS: nat := 0x1_0000_0000

  /** mptr, the mapped pages of the heap region with their PTE_CONTINUED bits, and the last word
      of every page that is not continued are the allocator's own data.  blocks holds the live
      blocks (address to size), zeros the pages in which live zero-sized blocks lie, and leaked
      the pages whose cursor reference can no longer be given up. */
  datatype Heap = Heap(
    mptr: nat, pages: map<nat, bool>, ref: map<nat, nat>,
    blocks: map<nat, nat>, zeros: multiset<nat>, leaked: set<nat>)

  /** The page that holds the reference word of a block of n bytes at v. */
  function Last(v: nat, n: nat): nat { (v + n + 3) / PGSIZE }

  function First(v: nat): nat { v / PGSIZE }

  predicate CursorIn(h: Heap, p: nat) { h.mptr % PGSIZE != 0 && h.mptr / PGSIZE == p }

  ghost function Ending(blocks: map<nat, nat>, p: nat): set<nat> {
    set v | v in blocks && Last(v, blocks[v]) == p
  }

  ghost function Holders(h: Heap, p: nat): nat {
    |Ending(h.blocks, p)| + h.zeros[p] + (if p in h.leaked then 1 else 0) + (if CursorIn(h, p) then 1 else 0)
  }

  // ---------------------------------------------------------------- invariant

  /** A block is word-aligned, its pages are mapped, all but the last are continued, it starts a
      page if it has several, and it ends before the reference word. */
  ghost predicate BlockOk(h: Heap, v: nat, n: nat) {
    && n > 0 && v % 4 == 0 && n % 4 == 0 && MBEGIN <= v && v + n + 4 <= (Last(v, n) + 1) * PGSIZE
    && (First(v) < Last(v, n) ==> v % PGSIZE == 0)
    && Last(v, n) in h.pages && !h.pages[Last(v, n)]
    && (forall p :: First(v) <= p < Last(v, n) ==> p in h.pages && h.pages[p])
  }

  ghost predicate BlocksOk(h: Heap) {
    forall v :: v in h.blocks ==> BlockOk(h, v, h.blocks[v])
  }

  ghost predicate Disjoint(h: Heap) {
    forall v, w :: v in h.blocks && w in h.blocks && v < w ==> v + h.blocks[v] <= w
  }

  /** Every continued page belongs to a live block that goes on after it. */
  ghost predicate ContinuedOk(h: Heap) {
    forall p :: p in h.pages && h.pages[p] ==>
      exists v :: v in h.blocks && First(v) <= p < Last(v, h.blocks[v])
  }

  /** A reference word counts the live blocks that end in its page, and the cursor; the page is
      mapped exactly as long as that is not zero. */
  ghost predicate RefsOk(h: Heap) {
    && h.ref.Keys == (set p | p in h.pages && !h.pages[p])
    && (forall p :: p in h.ref ==> h.ref[p] == Holders(h, p) && 0 < h.ref[p] < REFS)
    && (forall p :: p in h.zeros || p in h.leaked ==> p in h.ref)
  }

  /** The cursor stands in a mapped page, past every block that ends there, or starts a page,
      perhaps one beyond the region. */
  ghost predicate CursorOk(h: Heap) {
    && MBEGIN <= h.mptr < WORD && h.mptr % 4 == 0
    && (h.mptr % PGSIZE != 0 ==>
          && h.mptr / PGSIZE in h.ref
          && forall v :: v in h.blocks && Last(v, h.blocks[v]) == h.mptr / PGSIZE ==> v + h.blocks[v] <= h.mptr)
  }

  ghost predicate Inv(h: Heap) {
    && (forall p :: p in h.pages ==> PBEGIN <= p < PEND)
    && BlocksOk(h) && Disjoint(h) && ContinuedOk(h) && RefsOk(h) && CursorOk(h)
  }

  /** A live block covers no reference word, not even of another page. */
  lemma NoRefWordCovered(h: Heap, v: nat, p: nat)
    requires Inv(h) && v in h.blocks && p in h.ref
    ensures v + h.blocks[v] <= p * PGSIZE + PGSIZE - 4 || (p + 1) * PGSIZE <= v
  {
    assert BlockOk(h, v, h.blocks[v]);
  }

  const FRESH: Heap := Heap(MBEGIN, map[], map[], map[], multiset{}, {})

  lemma FreshInv()
    ensures Inv(FRESH)
  {
  }

  // ---------------------------------------------------------------- a block in the current page

  function AddLive(h: Heap, v: nat, n: nat): Heap {
    if n == 0 then h.(zeros := h.zeros + multiset{Last(v, 0)}) else h.(blocks := h.blocks[v := n])
  }

  predicate Fits(h: Heap, n: nat) {
    h.mptr % PGSIZE != 0 && h.mptr / PGSIZE == (h.mptr + n + 3) / PGSIZE
  }

  function InPage(h: Heap, n: nat): Heap
    requires h.mptr / PGSIZE in h.ref
  {
    var p := h.mptr / PGSIZE;
    AddLive(h, h.mptr, n).(ref := h.ref[p := (h.ref[p] + 1) % REFS], mptr := h.mptr + n)
  }

  /** The invariant is kept exactly if the reference word does not wrap. */
  lemma InPageIff(h: Heap, n: nat)
    requires Inv(h) && n % 4 == 0 && Fits(h, n)
    ensures h.mptr / PGSIZE in h.ref && (Inv(InPage(h, n)) <==> h.ref[h.mptr / PGSIZE] + 1 < REFS)
    ensures n > 0 ==> h.mptr !in h.blocks
  {
    hide BlocksOk, Disjoint, ContinuedOk, BlockOk, Holders, CursorIn;
    InPageApart(h);
    if h.ref[h.mptr / PGSIZE] + 1 < REFS { InPageInv(h, n); }
  }

  lemma InPageInv(h: Heap, n: nat)
    requires Inv(h) && n % 4 == 0 && Fits(h, n) && h.mptr / PGSIZE in h.ref && h.ref[h.mptr / PGSIZE] + 1 < REFS
    ensures Inv(InPage(h, n))
  {
    hide BlocksOk, Disjoint, ContinuedOk, RefsOk, BlockOk, Holders, CursorIn;
    FitsArith(h.mptr, n);
    InPageApart(h);
    InPageRefs(h, n);
    InPageBlocks(h, n);
    InPageCursor(h, n);
  }

  lemma FitsArith(m: nat, n: nat)
    requires m % PGSIZE != 0 && m / PGSIZE == (m + n + 3) / PGSIZE && m % 4 == 0 && n % 4 == 0
    ensures Last(m, n) == m / PGSIZE && Last(m, 0) == m / PGSIZE && (m + n) / PGSIZE == m / PGSIZE
    ensures (m + n) % PGSIZE != 0 && (m + n) % 4 == 0 && m + n + 4 <= (m / PGSIZE + 1) * PGSIZE
  {
  }

  lemma InPageCursor(h: Heap, n: nat)
    requires CursorOk(h) && RefsOk(h) && n % 4 == 0 && Fits(h, n)
    requires forall v :: v in h.blocks ==> v + h.blocks[v] <= h.mptr || (h.mptr / PGSIZE + 1) * PGSIZE <= v
    requires h.mptr / PGSIZE < PEND
    ensures h.mptr / PGSIZE in h.ref && CursorOk(InPage(h, n))
  {
    hide RefsOk;
    FitsArith(h.mptr, n);
  }

  lemma InPageRefs(h: Heap, n: nat)
    requires RefsOk(h) && CursorOk(h) && n % 4 == 0 && Fits(h, n) && (n > 0 ==> h.mptr !in h.blocks)
    requires h.mptr / PGSIZE in h.ref && h.ref[h.mptr / PGSIZE] + 1 < REFS
    ensures RefsOk(InPage(h, n))
  {
    hide Last, Ending, Holders, Fits;
    var p, h' := h.mptr / PGSIZE, InPage(h, n);
    forall q ensures Holders(h', q) == Holders(h, q) + if q == p then 1 else 0 {
      InPageHolders(h, n, q);
    }
    InPageKeys(h, n);
  }

  lemma InPageHolders(h: Heap, n: nat, q: nat)
    requires n % 4 == 0 && h.mptr % 4 == 0 && Fits(h, n) && (n > 0 ==> h.mptr !in h.blocks) && h.mptr / PGSIZE in h.ref
    ensures Holders(InPage(h, n), q) == Holders(h, q) + if q == h.mptr / PGSIZE then 1 else 0
  {
    hide Last, Ending;
    FitsArith(h.mptr, n);
    AddedHolder(h, h.mptr, n, q);
  }

  lemma InPageKeys(h: Heap, n: nat)
    requires n % 4 == 0 && h.mptr % 4 == 0 && Fits(h, n) && h.mptr / PGSIZE in h.ref
    ensures var h' := InPage(h, n);
            h'.ref.Keys == h.ref.Keys && h'.pages == h.pages && h'.leaked == h.leaked
            && forall q :: q in h'.zeros ==> q in h.zeros || q == h.mptr / PGSIZE
  {
    hide Last;
    FitsArith(h.mptr, n);
  }

  /** A new block has one more holder for the page it ends in. */
  lemma AddedHolder(h: Heap, v: nat, n: nat, q: nat)
    requires n > 0 ==> v !in h.blocks
    ensures var h' := AddLive(h, v, n);
            |Ending(h'.blocks, q)| + h'.zeros[q] == |Ending(h.blocks, q)| + h.zeros[q] + if q == Last(v, n) then 1 else 0
  {
    hide Last;
    if n > 0 {
      var b' := AddLive(h, v, n).blocks;
      assert Ending(b', q) == if q == Last(v, n) then Ending(h.blocks, q) + {v} else Ending(h.blocks, q);
    }
  }

  lemma InPageBlocks(h: Heap, n: nat)
    requires BlocksOk(h) && Disjoint(h) && ContinuedOk(h) && RefsOk(h) && CursorOk(h) && n % 4 == 0 && Fits(h, n)
    requires forall v :: v in h.blocks ==> v + h.blocks[v] <= h.mptr || (h.mptr / PGSIZE + 1) * PGSIZE <= v
    requires h.mptr !in h.blocks
    ensures h.mptr / PGSIZE in h.ref
    ensures BlocksOk(InPage(h, n)) && Disjoint(InPage(h, n)) && ContinuedOk(InPage(h, n))
  {
    hide Last, Holders, BlocksOk, Disjoint, ContinuedOk;
    FitsArith(h.mptr, n);
    var h' := InPage(h, n);
    assert n > 0 ==> BlockOk(h', h.mptr, n);
    KeepBlocks(h, h', h.mptr, n);
    KeepDisjoint(h, h', h.mptr, n);
    KeepContinued(h, h', h.mptr, n);
  }

  // ---------------------------------------------------------------- adding a block

  /** h' has at least the pages of h, and the blocks of h with perhaps one more at v. */
  ghost predicate Extends(h: Heap, h': Heap, v: nat, n: nat) {
    && (forall p :: p in h.pages ==> p in h'.pages && h'.pages[p] == h.pages[p])
    && v !in h.blocks && h'.blocks == if n == 0 then h.blocks else h.blocks[v := n]
  }

  lemma KeepBlocks(h: Heap, h': Heap, v: nat, n: nat)
    requires BlocksOk(h) && Extends(h, h', v, n) && (n > 0 ==> BlockOk(h', v, n))
    ensures BlocksOk(h')
  {
    hide Last, First;
    forall w | w in h'.blocks ensures BlockOk(h', w, h'.blocks[w]) {
      if w in h.blocks { assert BlockOk(h, w, h.blocks[w]); }
    }
  }

  lemma KeepDisjoint(h: Heap, h': Heap, v: nat, n: nat)
    requires Disjoint(h) && Extends(h, h', v, n)
    requires n > 0 ==> forall w :: w in h.blocks ==> w + h.blocks[w] <= v || v + n <= w
    ensures Disjoint(h')
  {
  }

  lemma KeepContinued(h: Heap, h': Heap, v: nat, n: nat)
    requires ContinuedOk(h) && Extends(h, h', v, n)
    requires forall p :: p in h'.pages && h'.pages[p] && p !in h.pages ==> n > 0 && First(v) <= p < Last(v, n)
    ensures ContinuedOk(h')
  {
    hide Last, First;
    forall p | p in h'.pages && h'.pages[p]
      ensures exists w :: w in h'.blocks && First(w) <= p < Last(w, h'.blocks[w])
    {
      if p in h.pages {
        var w :| w in h.blocks && First(w) <= p < Last(w, h.blocks[w]);
        assert w in h'.blocks && h'.blocks[w] == h.blocks[w];
      } else {
        assert v in h'.blocks;
      }
    }
  }

  lemma InPageApartAt(h: Heap, v: nat)
    requires BlocksOk(h) && RefsOk(h) && CursorOk(h) && h.mptr % PGSIZE != 0 && v in h.blocks
    ensures h.blocks[v] > 0 && (v + h.blocks[v] <= h.mptr || (h.mptr / PGSIZE + 1) * PGSIZE <= v)
  {
    hide Holders;
    assert BlockOk(h, v, h.blocks[v]);
    assert h.mptr / PGSIZE in h.ref;
  }

  /** Nothing lies between the cursor and the end of its page. */
  lemma InPageApart(h: Heap)
    requires Inv(h) && h.mptr % PGSIZE != 0
    ensures forall v :: v in h.blocks ==> v + h.blocks[v] <= h.mptr || (h.mptr / PGSIZE + 1) * PGSIZE <= v
    ensures h.mptr !in h.blocks && h.mptr / PGSIZE in h.ref && h.mptr / PGSIZE < PEND
  {
    hide BlocksOk, BlockOk, Disjoint, ContinuedOk, Holders, Last;
    forall v | v in h.blocks
      ensures h.blocks[v] > 0 && (v + h.blocks[v] <= h.mptr || (h.mptr / PGSIZE + 1) * PGSIZE <= v)
    {
      InPageApartAt(h, v);
    }
  }

  // ---------------------------------------------------------------- new pages

  ghost predicate IsFree(pages: map<nat, bool>, p: nat, k: nat) {
    forall q :: p <= q < p + k ==> q < PEND && q !in pages
  }

  predicate Between(p: nat, first: nat, last: nat) { first <= p <= last }

  function NewPages(first: nat, last: nat): map<nat, bool> {
    map p: nat | first <= p <= last && Between(p, first, last) :: p < last
  }

  /** A block at the page-aligned cursor, on pages that were free. */
  function FreshBlock(h: Heap, n: nat): Heap {
    var first, last := h.mptr / PGSIZE, Last(h.mptr, n);
    AddLive(h, h.mptr, n).(
      pages := h.pages + NewPages(first, last), ref := h.ref[last := 2], mptr := h.mptr + n,
      leaked := if n % PGSIZE == 0 then h.leaked + {last} else h.leaked)
  }

  lemma FreshArith(m: nat, n: nat)
    requires m % PGSIZE == 0 && n % 4 == 0
    ensures First(m) == m / PGSIZE <= Last(m, n) && m == First(m) * PGSIZE && (m + n) % 4 == 0
    ensures m + n + 4 <= (Last(m, n) + 1) * PGSIZE && m + n >= Last(m, n) * PGSIZE
    ensures (m + n) % PGSIZE == n % PGSIZE && (m + n) / PGSIZE == Last(m, n)
    ensures Last(m, 0) == First(m) && (n == 0 ==> Last(m, n) == First(m))
  {
    var f, q := m / PGSIZE, (n + 3) / PGSIZE;
    RoundedArith(n, q);
    FreshParts(f, q, n - q * PGSIZE);
    assert m == f * PGSIZE;
  }

  lemma FreshParts(f: nat, q: nat, r: nat)
    requires r <= PGSIZE - 4 && r % 4 == 0
    ensures var m, n := f * PGSIZE, q * PGSIZE + r;
            && Last(m, n) == f + q && Last(m, 0) == f && (m + n) / PGSIZE == f + q && (m + n) % PGSIZE == r && (m + n) % 4 == 0
  {
    PageShift(f + q, r + 3);
    PageShift(f + q, r);
    PageShift(f, 3);
  }

  lemma PageShift(f: nat, x: nat)
    requires x < PGSIZE
    ensures (f * PGSIZE + x) / PGSIZE == f && (f * PGSIZE + x) % PGSIZE == x
  {
  }

  lemma RoundedArith(n: nat, q: nat)
    requires n % 4 == 0 && q == (n + 3) / PGSIZE
    ensures q * PGSIZE <= n <= q * PGSIZE + PGSIZE - 4 && n % PGSIZE == n - q * PGSIZE
  {
  }

  lemma FreshBlockInv(h: Heap, n: nat)
    requires Inv(h) && h.mptr % PGSIZE == 0 && n % 4 == 0 && h.mptr < MEND
    requires IsFree(h.pages, h.mptr / PGSIZE, Last(h.mptr, n) - h.mptr / PGSIZE + 1)
    ensures Inv(FreshBlock(h, n)) && h.mptr !in h.blocks
  {
    hide BlocksOk, Disjoint, ContinuedOk, RefsOk, BlockOk, Last, First;
    FreshArith(h.mptr, n);
    FreshApart(h, n);
    FreshBlocks(h, n);
    FreshRefs(h, n);
    FreshCursor(h, n);
  }

  /** No live block touches the free pages. */
  lemma FreshApart(h: Heap, n: nat)
    requires BlocksOk(h) && h.mptr % PGSIZE == 0 && n % 4 == 0
    requires IsFree(h.pages, h.mptr / PGSIZE, Last(h.mptr, n) - h.mptr / PGSIZE + 1)
    ensures forall v :: v in h.blocks ==> v + h.blocks[v] <= h.mptr || (Last(h.mptr, n) + 1) * PGSIZE <= v
    ensures h.mptr !in h.blocks
    ensures forall v :: v in h.blocks ==> Last(v, h.blocks[v]) in h.pages
  {
    hide Last, First;
    FreshArith(h.mptr, n);
    if h.mptr in h.blocks { BlockSpan(h, h.mptr); }
    forall v | v in h.blocks
      ensures v + h.blocks[v] <= h.mptr || (Last(h.mptr, n) + 1) * PGSIZE <= v
    {
      BlockSpan(h, v);
      assert First(v) in h.pages && Last(v, h.blocks[v]) in h.pages;
      assert h.mptr / PGSIZE !in h.pages;
    }
  }

  /** The pages a block lies in, from its first to the one with its reference word. */
  lemma BlockSpan(h: Heap, v: nat)
    requires BlocksOk(h) && v in h.blocks
    ensures var n := h.blocks[v];
            && First(v) * PGSIZE <= v < (First(v) + 1) * PGSIZE && First(v) <= Last(v, n)
            && v + n + 4 <= (Last(v, n) + 1) * PGSIZE && v + n >= Last(v, n) * PGSIZE
            && (forall p :: First(v) <= p <= Last(v, n) ==> p in h.pages)
  {
    assert BlockOk(h, v, h.blocks[v]);
    SpanArith(v, h.blocks[v]);
  }

  lemma SpanArith(v: nat, n: nat)
    requires n > 0 && v % 4 == 0 && n % 4 == 0
    ensures First(v) * PGSIZE <= v < (First(v) + 1) * PGSIZE && First(v) <= Last(v, n) && v + n >= Last(v, n) * PGSIZE
  {
    WordsBelow((v + n) / 4);
    assert v + n == 4 * ((v + n) / 4);
  }

  lemma WordsBelow(k: nat)
    ensures (4 * k + 3) / PGSIZE * PGSIZE <= 4 * k
  {
    var q := (4 * k + 3) / PGSIZE;
    assert 4 * (q * 1024) <= 4 * k + 3;
  }

  lemma FreshBlocks(h: Heap, n: nat)
    requires BlocksOk(h) && Disjoint(h) && ContinuedOk(h) && h.mptr % PGSIZE == 0 && n % 4 == 0 && MBEGIN <= h.mptr
    requires IsFree(h.pages, h.mptr / PGSIZE, Last(h.mptr, n) - h.mptr / PGSIZE + 1)
    requires forall v :: v in h.blocks ==> v + h.blocks[v] <= h.mptr || (Last(h.mptr, n) + 1) * PGSIZE <= v
    requires h.mptr !in h.blocks
    ensures BlocksOk(FreshBlock(h, n)) && Disjoint(FreshBlock(h, n)) && ContinuedOk(FreshBlock(h, n))
  {
    hide Last, First, BlocksOk, BlockOk, Disjoint, ContinuedOk, Extends;
    FreshArith(h.mptr, n);
    var h' := FreshBlock(h, n);
    FreshBlockOk(h, n);
    FreshExtends(h, n);
    KeepBlocks(h, h', h.mptr, n);
    KeepDisjoint(h, h', h.mptr, n);
    KeepContinued(h, h', h.mptr, n);
  }

  lemma FreshBlockOk(h: Heap, n: nat)
    requires h.mptr % PGSIZE == 0 && n % 4 == 0 && MBEGIN <= h.mptr
    ensures n > 0 ==> BlockOk(FreshBlock(h, n), h.mptr, n)
  {
    hide Last, First;
    FreshArith(h.mptr, n);
    var h' := FreshBlock(h, n);
    forall p | First(h.mptr) <= p <= Last(h.mptr, n) ensures p in h'.pages && h'.pages[p] == (p < Last(h.mptr, n)) {
      assert Between(p, First(h.mptr), Last(h.mptr, n));
    }
    assert h.mptr % 4 == 0;
  }

  lemma FreshExtends(h: Heap, n: nat)
    requires h.mptr % PGSIZE == 0 && n % 4 == 0 && h.mptr !in h.blocks
    requires IsFree(h.pages, h.mptr / PGSIZE, Last(h.mptr, n) - h.mptr / PGSIZE + 1)
    ensures var h' := FreshBlock(h, n);
            && Extends(h, h', h.mptr, n)
            && (forall p :: p in h'.pages && h'.pages[p] && p !in h.pages ==> n > 0 && First(h.mptr) <= p < Last(h.mptr, n))
  {
    hide Last, First;
    FreshArith(h.mptr, n);
  }

  lemma FreshRefs(h: Heap, n: nat)
    requires RefsOk(h) && h.mptr % PGSIZE == 0 && n % 4 == 0 && h.mptr !in h.blocks
    requires IsFree(h.pages, h.mptr / PGSIZE, Last(h.mptr, n) - h.mptr / PGSIZE + 1)
    requires forall v :: v in h.blocks ==> Last(v, h.blocks[v]) in h.pages
    ensures RefsOk(FreshBlock(h, n))
  {
    hide Last, First, Ending;
    FreshArith(h.mptr, n);
    var last, h' := Last(h.mptr, n), FreshBlock(h, n);
    NoHolder(h, last);
    forall q ensures Holders(h', q) == if q == last then 2 else Holders(h, q) {
      AddedHolder(h, h.mptr, n, q);
    }
    FreshKeys(h, n);
  }

  lemma NoHolder(h: Heap, p: nat)
    requires RefsOk(h) && p !in h.pages && h.mptr % PGSIZE == 0
    requires forall v :: v in h.blocks ==> Last(v, h.blocks[v]) in h.pages
    ensures Holders(h, p) == 0 && p !in h.leaked && h.zeros[p] == 0 && |Ending(h.blocks, p)| == 0
  {
    hide Last;
    assert Ending(h.blocks, p) == {};
  }

  lemma FreshKeys(h: Heap, n: nat)
    requires h.ref.Keys == (set p | p in h.pages && !h.pages[p]) && h.mptr % PGSIZE == 0 && n % 4 == 0
    requires IsFree(h.pages, h.mptr / PGSIZE, Last(h.mptr, n) - h.mptr / PGSIZE + 1)
    ensures var h' := FreshBlock(h, n); h'.ref.Keys == (set p | p in h'.pages && !h'.pages[p])
  {
    hide Last, First;
    FreshArith(h.mptr, n);
    var h' := FreshBlock(h, n);
    forall p ensures p in h'.ref <==> p in h'.pages && !h'.pages[p] {}
  }

  lemma FreshCursor(h: Heap, n: nat)
    requires CursorOk(h) && h.mptr % PGSIZE == 0 && n % 4 == 0 && h.mptr !in h.blocks
    requires IsFree(h.pages, h.mptr / PGSIZE, Last(h.mptr, n) - h.mptr / PGSIZE + 1)
    requires forall v :: v in h.blocks ==> v + h.blocks[v] <= h.mptr || (Last(h.mptr, n) + 1) * PGSIZE <= v
    requires forall v :: v in h.blocks ==> Last(v, h.blocks[v]) in h.pages
    ensures CursorOk(FreshBlock(h, n))
  {
    hide Last, First;
    FreshArith(h.mptr, n);
    assert Last(h.mptr, n) !in h.pages && Last(h.mptr, n) < PEND;
  }

  // ---------------------------------------------------------------- giving up a reference

  /** The end of free: one reference less, and the page is unmapped when none is left. */
  function Unref(h: Heap, p: nat): Heap
    requires p in h.ref && h.ref[p] > 0
  {
    if h.ref[p] == 1 then h.(ref := h.ref - {p}, pages := h.pages - {p})
    else h.(ref := h.ref[p := h.ref[p] - 1])
  }

  /** h is as it should be except that page p counts one holder too many. */
  ghost predicate Owing(h: Heap, p: nat) {
    && (forall q :: q in h.pages ==> PBEGIN <= q < PEND)
    && BlocksOk(h) && Disjoint(h) && ContinuedOk(h) && CursorOk(h) && p in h.ref
    && h.ref.Keys == (set q | q in h.pages && !h.pages[q])
    && (forall q :: q in h.ref ==> h.ref[q] == Holders(h, q) + (if q == p then 1 else 0) && 0 < h.ref[q] < REFS)
    && (forall q :: q in h.zeros || q in h.leaked ==> q in h.ref)
  }

  lemma UnrefInv(h: Heap, p: nat)
    requires Owing(h, p)
    ensures Inv(Unref(h, p))
  {
    hide BlocksOk, Disjoint, ContinuedOk, Last, First, CursorOk;
    var h' := Unref(h, p);
    assert forall q :: Holders(h', q) == Holders(h, q);
    if h.ref[p] == 1 {
      UnmapBlocks(h, p);
      UnmapCursor(h, p);
    } else {
      UnrefRest(h, h', p);
    }
  }

  lemma UnrefRest(h: Heap, h': Heap, p: nat)
    requires Owing(h, p) && h' == h.(ref := h'.ref) && h'.ref.Keys == h.ref.Keys
    ensures BlocksOk(h') && Disjoint(h') && ContinuedOk(h') && CursorOk(h')
  {
    hide Last, First, Holders;
    forall v | v in h.blocks ensures BlockOk(h', v, h.blocks[v]) { assert BlockOk(h, v, h.blocks[v]); }
  }

  /** A page nobody holds is used by no block and by no cursor. */
  lemma UnmapBlocks(h: Heap, p: nat)
    requires Owing(h, p) && Holders(h, p) == 0
    ensures var h' := h.(ref := h.ref - {p}, pages := h.pages - {p});
            BlocksOk(h') && Disjoint(h') && ContinuedOk(h')
  {
    hide Last, First, CursorOk;
    var h' := h.(ref := h.ref - {p}, pages := h.pages - {p});
    assert Ending(h.blocks, p) == {};
    forall v | v in h.blocks ensures BlockOk(h', v, h.blocks[v]) {
      assert BlockOk(h, v, h.blocks[v]);
      assert v !in Ending(h.blocks, p);
    }
    forall q | q in h'.pages && h'.pages[q]
      ensures exists v :: v in h'.blocks && First(v) <= q < Last(v, h'.blocks[v])
    {
      assert q in h.pages && h.pages[q];
    }
  }

  lemma UnmapCursor(h: Heap, p: nat)
    requires CursorOk(h) && Holders(h, p) == 0
    ensures CursorOk(h.(ref := h.ref - {p}, pages := h.pages - {p}))
  {
    hide Last;
  }

  // ---------------------------------------------------------------- the cursor moves on

  /** free(mptr) and the move to the next page. */
  lemma DropCursorInv(h: Heap)
    requires Inv(h) && h.mptr % PGSIZE != 0
    ensures var p := h.mptr / PGSIZE; var h1 := h.(mptr := (p + 1) * PGSIZE);
            p in h.ref && h.ref[p] > 0 && Inv(Unref(h1, p)) && Unref(h, p).(mptr := (p + 1) * PGSIZE) == Unref(h1, p)
            && (p + 1) * PGSIZE == (h.mptr + PGSIZE) / PGSIZE * PGSIZE && h1.mptr <= MEND && MBEGIN <= h1.mptr
  {
    hide BlocksOk, BlockOk, Disjoint, ContinuedOk, Last, First, Holders;
    var p := h.mptr / PGSIZE;
    InPageApart(h);
    var h1 := h.(mptr := (p + 1) * PGSIZE);
    CursorArith(h.mptr);
    MovedBlocks(h, h1);
    CursorOwing(h, h1);
    UnrefInv(h1, p);
  }

  lemma CursorArith(m: nat)
    requires MBEGIN <= m && m / PGSIZE < PEND
    ensures (m / PGSIZE + 1) * PGSIZE == (m + PGSIZE) / PGSIZE * PGSIZE && (m / PGSIZE + 1) * PGSIZE % PGSIZE == 0
    ensures MBEGIN <= (m / PGSIZE + 1) * PGSIZE <= MEND && (m / PGSIZE + 1) * PGSIZE % 4 == 0
  {
  }

  lemma CursorOwing(h: Heap, h1: Heap)
    requires RefsOk(h) && h.mptr % PGSIZE != 0 && h1 == h.(mptr := h1.mptr) && h1.mptr % PGSIZE == 0
    ensures forall q :: q in h.ref ==> h.ref[q] == Holders(h1, q) + (if q == h.mptr / PGSIZE then 1 else 0)
  {
    hide Last, First;
  }

  lemma MovedBlocks(h: Heap, h1: Heap)
    requires BlocksOk(h) && Disjoint(h) && ContinuedOk(h) && h1 == h.(mptr := h1.mptr)
    ensures BlocksOk(h1) && Disjoint(h1) && ContinuedOk(h1)
  {
    hide Last, First;
    forall v | v in h1.blocks ensures BlockOk(h1, v, h1.blocks[v]) { assert BlockOk(h, v, h.blocks[v]); }
  }

  lemma MovedHolders(h: Heap, m: nat, q: nat)
    requires h.mptr % PGSIZE == 0 && m % PGSIZE == 0
    ensures Holders(h.(mptr := m), q) == Holders(h, q)
  {
  }

  lemma MoveInv(h: Heap, m: nat)
    requires Inv(h) && h.mptr % PGSIZE == 0 && m % PGSIZE == 0 && MBEGIN <= m < WORD
    ensures Inv(h.(mptr := m))
  {
    hide BlocksOk, Disjoint, ContinuedOk, RefsOk, CursorOk;
    MovedBlocks(h, h.(mptr := m));
    MovedRefs(h, m);
    MovedCursor(h, m);
  }

  lemma MovedRefs(h: Heap, m: nat)
    requires RefsOk(h) && h.mptr % PGSIZE == 0 && m % PGSIZE == 0
    ensures RefsOk(h.(mptr := m))
  {
    hide Holders;
    forall q ensures Holders(h.(mptr := m), q) == Holders(h, q) { MovedHolders(h, m, q); }
  }

  lemma MovedCursor(h: Heap, m: nat)
    requires m % PGSIZE == 0 && MBEGIN <= m < WORD
    ensures CursorOk(h.(mptr := m))
  {
    hide Last;
    assert m == 4 * (1024 * (m / PGSIZE));
  }

  // ---------------------------------------------------------------- freeing a block

  /** The continued pages of the block at v are unmapped. */
  function Unchained(h: Heap, v: nat): Heap
    requires v in h.blocks
  {
    var n := h.blocks[v];
    h.(pages := map p | p in h.pages && !(First(v) <= p < Last(v, n)) :: h.pages[p], blocks := h.blocks - {v})
  }

  /** Two live blocks share no continued page. */
  lemma ChainsApart(h: Heap, v: nat, w: nat)
    requires BlocksOk(h) && Disjoint(h) && v in h.blocks && w in h.blocks && v != w
    ensures First(v) >= Last(v, h.blocks[v]) || Last(v, h.blocks[v]) <= First(w) || Last(w, h.blocks[w]) < First(v)
  {
    hide Last, First;
    BlockSpan(h, v);
    BlockSpan(h, w);
    assert BlockOk(h, v, h.blocks[v]) && BlockOk(h, w, h.blocks[w]);
  }

  lemma UnchainedOwing(h: Heap, v: nat)
    requires Inv(h) && v in h.blocks
    ensures Owing(Unchained(h, v), Last(v, h.blocks[v]))
  {
    hide BlocksOk, BlockOk, Disjoint, ContinuedOk, Last, First, Ending;
    UnchainedBlocks(h, v);
    UnchainedRefs(h, v);
  }

  lemma UnchainedBlock(h: Heap, v: nat, w: nat)
    requires BlocksOk(h) && Disjoint(h) && v in h.blocks && w in h.blocks && v != w
    ensures BlockOk(Unchained(h, v), w, h.blocks[w])
  {
    hide Last, First, BlocksOk, Disjoint;
    ChainsApart(h, v, w);
    BlockSpan(h, w);
    assert BlockOk(h, w, h.blocks[w]) by { BlockIsOk(h, w); }
  }

  lemma BlockIsOk(h: Heap, v: nat)
    requires BlocksOk(h) && v in h.blocks
    ensures BlockOk(h, v, h.blocks[v])
  {
  }

  lemma UnchainedBlocks(h: Heap, v: nat)
    requires BlocksOk(h) && Disjoint(h) && ContinuedOk(h) && v in h.blocks
    ensures BlocksOk(Unchained(h, v)) && Disjoint(Unchained(h, v)) && ContinuedOk(Unchained(h, v))
  {
    hide Last, First, BlockOk;
    var h' := Unchained(h, v);
    forall w | w in h'.blocks ensures BlockOk(h', w, h'.blocks[w]) {
      UnchainedBlock(h, v, w);
    }
    forall p | p in h'.pages && h'.pages[p]
      ensures exists w :: w in h'.blocks && First(w) <= p < Last(w, h'.blocks[w])
    {
      var w :| w in h.blocks && First(w) <= p < Last(w, h.blocks[w]);
      assert w in h'.blocks;
    }
  }

  lemma UnchainedRefs(h: Heap, v: nat)
    requires BlocksOk(h) && RefsOk(h) && CursorOk(h) && v in h.blocks
    ensures var h' := Unchained(h, v); var last := Last(v, h.blocks[v]);
            && CursorOk(h') && last in h.ref && h'.ref.Keys == (set q | q in h'.pages && !h'.pages[q])
            && (forall q :: q in h.ref ==> h.ref[q] == Holders(h', q) + if q == last then 1 else 0)
  {
    hide Last, First;
    assert BlockOk(h, v, h.blocks[v]);
    var h', last := Unchained(h, v), Last(v, h.blocks[v]);
    assert Ending(h.blocks, last) == Ending(h'.blocks, last) + {v};
    forall q | q != last ensures Ending(h'.blocks, q) == Ending(h.blocks, q) {}
  }

  lemma FreeInv(h: Heap, v: nat)
    requires Inv(h) && v in h.blocks
    ensures var last := Last(v, h.blocks[v]); var h1 := Unchained(h, v);
            last in h1.ref && h1.ref[last] > 0 && Inv(Unref(h1, last))
  {
    hide Last, First, Inv;
    UnchainedOwing(h, v);
    UnrefInv(Unchained(h, v), Last(v, h.blocks[v]));
  }

  lemma FreeZeroInv(h: Heap, p: nat)
    requires Inv(h) && p in h.zeros
    ensures var h1 := h.(zeros := h.zeros - multiset{p});
            p in h.ref && h.ref[p] > 0 && Inv(Unref(h1, p))
  {
    hide BlocksOk, BlockOk, Disjoint, ContinuedOk, Last, First;
    var h1 := h.(zeros := h.zeros - multiset{p});
    ZerosBlocks(h, h1);
    UnrefInv(h1, p);
  }

  lemma ZerosBlocks(h: Heap, h1: Heap)
    requires BlocksOk(h) && Disjoint(h) && ContinuedOk(h) && h1 == h.(zeros := h1.zeros)
    ensures BlocksOk(h1) && Disjoint(h1) && ContinuedOk(h1)
  {
    hide Last, First;
    forall v | v in h1.blocks ensures BlockOk(h1, v, h1.blocks[v]) { assert BlockOk(h, v, h.blocks[v]); }
  }
}
