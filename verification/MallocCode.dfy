/** The functions of lib/malloc.c over the heap of module Malloc. */
module MallocCode {
  import opened Malloc

  /** ROUNDUP(n, 4) on 64-bit words. */
  function Rounded(n: nat): nat {
    (n + 3) % WORD - (n + 3) % WORD % 4
  }

  /** The rounding wraps: a request is rounded up to at least its size exactly when it is at
      most 2^64 - 4, and any larger one is served as a request for nothing. */
  lemma RoundedIff(n: nat)
    requires n < WORD
    ensures Rounded(n) % 4 == 0 && (Rounded(n) >= n <==> n <= WORD - 4)
    ensures n <= WORD - 4 ==> Rounded(n) < n + 4
    ensures n > WORD - 4 ==> Rounded(n) == 0
  {
  }

  const UTOP: nat := 0x80_0080_0000

  /** Where the search for address space begins. */
  function SearchStart(h: Heap): nat {
    if h.mptr % PGSIZE == 0 then h.mptr else (h.mptr / PGSIZE + 1) * PGSIZE
  }

  /** How many pages a block of n bytes and its reference word take. */
  function Span(n: nat): nat { (n + 3) / PGSIZE + 1 }

  lemma SpanIs(m: nat, n: nat)
    requires m % PGSIZE == 0
    ensures Last(m, n) - m / PGSIZE + 1 == Span(n) > 0
  {
    assert m + n + 3 == (m / PGSIZE + (n + 3) / PGSIZE) * PGSIZE + (n + 3) % PGSIZE;
  }

  /** No place in the heap region is free for k pages. */
  ghost predicate NoRoom(pages: map<nat, bool>, k: nat) {
    forall p :: PBEGIN <= p < PEND ==> !IsFree(pages, p, k)
  }

  lemma FreeReady(h: Heap, v: nat, n: nat, zero: bool)
    requires Inv(h) && (if zero then n == 0 && Last(v, 0) in h.zeros && MBEGIN <= v && Last(v, 0) == v / PGSIZE else v in h.blocks && h.blocks[v] == n)
    ensures MBEGIN <= v && v / PGSIZE <= Last(v, n) < PEND && Last(v, n) in h.pages && !h.pages[Last(v, n)]
    ensures Last(v, n) in h.ref && h.ref[Last(v, n)] > 0
    ensures forall p :: v / PGSIZE <= p < Last(v, n) ==> p in h.pages && h.pages[p]
  {
    hide Disjoint, ContinuedOk, Holders;
    if !zero { assert BlockOk(h, v, n); }
  }

  /** The effect of FreePages, as the heap transitions of module Malloc say it. */
  lemma UnrefIs(h: Heap, first: nat, last: nat)
    requires last in h.ref && h.ref[last] > 0 && first <= last
    ensures Unref(h, last) == h.(
              ref := if h.ref[last] == 1 then h.ref - {last} else h.ref[last := h.ref[last] - 1],
              pages := h.pages - (if h.ref[last] == 1 then {last} else {}))
    ensures first == last ==> (map p | p in h.pages && !(first <= p < last) :: h.pages[p]) == h.pages
  {
  }

  lemma UnchainedIs(h: Heap, v: nat)
    requires v in h.blocks && Last(v, h.blocks[v]) in h.ref && h.ref[Last(v, h.blocks[v])] > 0
    ensures var last := Last(v, h.blocks[v]);
            Unref(Unchained(h, v), last) == h.(
              blocks := h.blocks - {v},
              ref := if h.ref[last] == 1 then h.ref - {last} else h.ref[last := h.ref[last] - 1],
              pages := (map p | p in h.pages && !(v / PGSIZE <= p < last) :: h.pages[p])
                       - (if h.ref[last] == 1 then {last} else {}))
  {
    hide Last;
  }

  /** What isfree(v, n) says, its end address being a 64-bit word. */
  ghost predicate SeemsFree(pages: map<nat, bool>, v: nat, n: nat) {
    v + n >= WORD || IsFree(pages, v / PGSIZE, (n + PGSIZE - 1) / PGSIZE)
  }

  /** The cursor after i unsuccessful rounds of the search loop. */
  function Probed(m: nat, i: nat): nat {
    if i == 0 then m
    else
      var next := (Probed(m, i - 1) + PGSIZE) % WORD;
      if next == MEND then MBEGIN else next
  }

  /** From the end of the region on the wrap test does not fire, and every round fails until the end
      address of the request wraps round: a request of less than a page with its reference word is
      refused by all of them, and the cursor itself comes round to address 0. */
  lemma {:induction false} LostBeyondEnd(pages: map<nat, bool>, n: nat, i: nat)
    requires n + 4 < WORD && MEND + i * PGSIZE < WORD
    ensures Probed(MEND, i) == MEND + i * PGSIZE
    ensures SeemsFree(pages, Probed(MEND, i), n + 4) <==> MEND + i * PGSIZE + n + 4 >= WORD
    ensures n + 4 < PGSIZE ==> !SeemsFree(pages, Probed(MEND, i), n + 4)
    ensures MEND + (i + 1) * PGSIZE == WORD ==> Probed(MEND, i + 1) == 0
  {
    if i > 0 { LostBeyondEnd(pages, n, i - 1); }
    BeyondIff(pages, MEND + i * PGSIZE, n);
    Aligned(WORD - MEND, i);
  }

  lemma Aligned(m: nat, i: nat)
    requires m % PGSIZE == 0 && i * PGSIZE < m
    ensures (i + 1) * PGSIZE <= m
  {
    assert m == m / PGSIZE * PGSIZE;
  }

  /** One block in the last page of the region, and the cursor behind it. */
  const LAST_PAGE: Heap :=
    Heap(MEND - 8, map[PEND - 1 := false], map[PEND - 1 := 2], map[MEND - PGSIZE := PGSIZE - 8], multiset{}, {})

  /** Nothing in the invariant keeps a search from starting there: for any request over one word, the
      next one from this heap does. */
  lemma StartsAtEnd(n: nat)
    requires n > 4
    ensures Inv(LAST_PAGE) && !Fits(LAST_PAGE, n) && SearchStart(LAST_PAGE) == MEND
  {
    var b := LAST_PAGE.blocks;
    assert Last(MEND - PGSIZE, PGSIZE - 8) == PEND - 1 && First(MEND - PGSIZE) == PEND - 1;
    assert BlockOk(LAST_PAGE, MEND - PGSIZE, PGSIZE - 8);
    assert Ending(b, PEND - 1) == {MEND - PGSIZE};
    assert CursorIn(LAST_PAGE, PEND - 1);
  }

  /** The search leaves the region and comes round to address 0. */
  predicate Strays(h: Heap, n: nat) {
    n < MAXMALLOC && !Fits(h, n) && SearchStart(h) >= MEND && n + 4 < PGSIZE
  }

  /** The block would go where the cursor stands, and the page's reference word is all ones. */
  predicate Overflows(h: Heap, n: nat) {
    n < MAXMALLOC && Fits(h, n) && h.mptr / PGSIZE in h.ref && h.ref[h.mptr / PGSIZE] + 1 == REFS
  }

  /** A request that does not fit behind the cursor. */
  lemma Leaving(h: Heap, n: nat)
    requires !Strays(h, n)
    ensures n >= MAXMALLOC || !Fits(h, n) ==> !Overflows(h, n)
    ensures n < MAXMALLOC && !Fits(h, n) && SearchStart(h) >= MEND ==> n + 4 >= PGSIZE
    ensures h.mptr % PGSIZE == 0 ==> SearchStart(h) == h.mptr
  {
    hide Fits;
  }

  /** The first j of k pages from first on, all continued but the very last. */
  function Chained(first: nat, j: nat, k: nat): map<nat, bool> {
    if j == 0 then map[] else Chained(first, j - 1, k)[first + j - 1 := j < k]
  }

  lemma {:induction false} ChainedKeys(first: nat, j: nat, k: nat)
    ensures forall p :: p in Chained(first, j, k) <==> first <= p < first + j
    ensures forall p :: p in Chained(first, j, k) ==> Chained(first, j, k)[p] == (p + 1 < first + k)
  {
    if j > 0 { ChainedKeys(first, j - 1, k); }
  }

  lemma ChainedAll(first: nat, k: nat)
    requires k > 0
    ensures Chained(first, k, k) == NewPages(first, first + k - 1)
  {
    ChainedKeys(first, k, k);
    forall p: nat ensures p in NewPages(first, first + k - 1) <==> p in Chained(first, k, k) {
      assert Between(p, first, first + k - 1) <==> first <= p < first + k;
    }
  }

  lemma ChainedBack(m: map<nat, bool>, first: nat, j: nat, k: nat)
    requires 0 < j <= k && IsFree(m, first, k)
    ensures (m + Chained(first, j, k)) - {first + j - 1} == m + Chained(first, j - 1, k)
  {
    ChainedKeys(first, j - 1, k);
    assert first + j - 1 !in m;
  }

  lemma ChainedEnd(m: map<nat, bool>, first: nat, j: nat, k: nat)
    requires j < k && IsFree(m, first, k)
    ensures (m + Chained(first, j, k)) - {first + j} == m + Chained(first, j, k)
  {
    ChainedKeys(first, j, k);
    assert first + j !in m;
  }

  lemma ChainedStart(m: map<nat, bool>, first: nat, k: nat)
    ensures m + Chained(first, 0, k) == m
  {
  }

  lemma ChainedNext(m: map<nat, bool>, first: nat, j: nat, k: nat)
    ensures (m + Chained(first, j, k))[first + j := j + 1 < k] == m + Chained(first, j + 1, k)
  {
  }

  lemma BeyondIff(pages: map<nat, bool>, v: nat, n: nat)
    requires v >= MEND
    ensures SeemsFree(pages, v, n + 4) <==> v + n + 4 >= WORD
  {
    FreeNone(pages, v / PGSIZE);
    FreeStep(pages, v / PGSIZE, 0, (n + 4 + PGSIZE - 1) / PGSIZE);
  }

  lemma FreeNone(pages: map<nat, bool>, p: nat)
    ensures IsFree(pages, p, 0)
  {
  }

  lemma FreeStep(pages: map<nat, bool>, p: nat, j: nat, k: nat)
    requires IsFree(pages, p, j) && j < k
    ensures if p + j >= PEND || p + j in pages then !IsFree(pages, p, k) else IsFree(pages, p, j + 1)
  {
    if p + j >= PEND || p + j in pages { assert p <= p + j < p + k && (p + j !in pages || p + j in pages); }
  }

  lemma CursorRange(h: Heap)
    requires Inv(h)
    ensures MBEGIN <= h.mptr < WORD && h.mptr % 4 == 0
  {
  }

  lemma FitsIs(h: Heap, n: nat)
    ensures Fits(h, n) <==> h.mptr % PGSIZE != 0 && h.mptr / PGSIZE == (h.mptr + n + 3) / PGSIZE
  {
  }

  lemma CursorReady(h: Heap)
    requires Inv(h) && h.mptr % PGSIZE != 0
    ensures var p := h.mptr / PGSIZE;
            MBEGIN <= h.mptr && p < PEND && p in h.pages && !h.pages[p] && p in h.ref && 0 < h.ref[p] < REFS
  {
  }

  lemma InPageIs(h: Heap, n: nat)
    requires h.mptr / PGSIZE in h.ref
    ensures InPage(h, n) == h.(
              ref := h.ref[h.mptr / PGSIZE := (h.ref[h.mptr / PGSIZE] + 1) % REFS], mptr := h.mptr + n,
              blocks := if n == 0 then h.blocks else h.blocks[h.mptr := n],
              zeros := if n == 0 then h.zeros + multiset{Last(h.mptr, 0)} else h.zeros)
  {
  }

  lemma FreshIs(h: Heap, n: nat)
    requires h.mptr % PGSIZE == 0
    ensures var first := h.mptr / PGSIZE; var last := first + Span(n) - 1;
            last == Last(h.mptr, n) && FreshBlock(h, n) == h.(
              pages := h.pages + NewPages(first, last), ref := h.ref[last := 2], mptr := h.mptr + n,
              blocks := if n == 0 then h.blocks else h.blocks[h.mptr := n],
              zeros := if n == 0 then h.zeros + multiset{Last(h.mptr, 0)} else h.zeros,
              leaked := if n % PGSIZE == 0 then h.leaked + {last} else h.leaked)
  {
    SpanIs(h.mptr, n);
  }

  class Allocator {
    var mptr: nat
    var pages: map<nat, bool>
    var ref: map<nat, nat>
    ghost var blocks: map<nat, nat>
    ghost var zeros: multiset<nat>
    ghost var leaked: set<nat>

    /** A null cursor stands for the beginning of the region. */
    ghost function H(): Heap
      reads this
    {
      Heap(if mptr == 0 then MBEGIN else mptr, pages, ref, blocks, zeros, leaked)
    }

    constructor ()
      ensures H() == FRESH && Inv(H()) && mptr == 0
    {
      mptr, pages, ref := 0, map[], map[];
      blocks, zeros, leaked := map[], multiset{}, {};
      new;
      FreshInv();
    }

    method CheckFree(v: nat, n: nat) returns (b: bool)
      requires v % PGSIZE == 0 && v < WORD && n < WORD
      ensures b <==> SeemsFree(pages, v, n)
    {
      var va, end := v, (v + n) % WORD;
      ghost var j: nat := 0;
      hide IsFree;
      FreeNone(pages, v / PGSIZE);
      while va < end
        invariant v + n < WORD ==> va == v + j * PGSIZE && j <= (n + PGSIZE - 1) / PGSIZE && IsFree(pages, v / PGSIZE, j)
        invariant v + n >= WORD ==> va == v && end < v
        decreases end - va
      {
        assert va / PGSIZE == v / PGSIZE + j && j < (n + PGSIZE - 1) / PGSIZE;
        FreeStep(pages, v / PGSIZE, j, (n + PGSIZE - 1) / PGSIZE);
        if va >= MEND || va / PGSIZE in pages {
          return false;
        }
        va, j := (va + PGSIZE) % WORD, j + 1;
      }
      assert v + n < WORD ==> j == (n + PGSIZE - 1) / PGSIZE;
      return true;
    }

    /** The page part of free: the continued pages from v's page up to last are unmapped and
        last loses a reference. */
    method FreePages(v: nat, ghost last: nat)
      requires MBEGIN <= v && v / PGSIZE <= last < PEND && last in pages && !pages[last] && last in ref && ref[last] > 0
      requires forall p :: v / PGSIZE <= p < last ==> p in pages && pages[p]
      modifies this`pages, this`ref
      ensures ref == if old(ref)[last] == 1 then old(ref) - {last} else old(ref)[last := old(ref)[last] - 1]
      ensures pages == (map p | p in old(pages) && !(v / PGSIZE <= p < last) :: old(pages)[p])
                       - (if old(ref)[last] == 1 then {last} else {})
    {
      assert MBEGIN <= v < MEND;
      var c: nat := v / PGSIZE;
      while c in pages && pages[c]
        invariant v / PGSIZE <= c <= last && ref == old(ref)
        invariant pages == map p | p in old(pages) && !(v / PGSIZE <= p < c) :: old(pages)[p]
        decreases last - c
      {
        pages := pages - {c};
        c := c + 1;
        assert PBEGIN <= c < PEND;
      }
      assert c == last;
      ref := ref[c := ref[c] - 1];
      if ref[c] == 0 {
        ref := ref - {c};
        pages := pages - {c};
      }
    }

    /** Frees a live block, or a zero-sized one, or nothing. */
    method Free(v: nat, ghost zero: bool)
      requires Inv(H())
      requires v != 0 ==> if zero then Last(v, 0) in zeros && MBEGIN <= v && Last(v, 0) == v / PGSIZE else v in blocks
      modifies this
      ensures Inv(H()) && mptr == old(mptr) && leaked == old(leaked)
      ensures v == 0 ==> H() == old(H())
      ensures v != 0 && !zero ==> blocks == old(blocks) - {v} && zeros == old(zeros)
      ensures v != 0 && zero ==> blocks == old(blocks) && zeros == old(zeros) - multiset{Last(v, 0)}
    {
      hide Inv, Last, First, Unchained, Unref;
      ghost var h := H();
      if v == 0 {
        return;
      }
      ghost var n := if zero then 0 else blocks[v];
      ghost var last := Last(v, n);
      FreeReady(h, v, n, zero);
      FreePages(v, last);
      if zero {
        FreeZeroInv(h, last);
        zeros := zeros - multiset{last};
        UnrefIs(h.(zeros := zeros), v / PGSIZE, last);
        assert H() == Unref(h.(zeros := zeros), last);
      } else {
        FreeInv(h, v);
        blocks := blocks - {v};
        UnchainedIs(h, v);
        assert H() == Unref(Unchained(h, v), last);
      }
    }

    /** Maps k pages, or none if fewer than k can be had; both calls refuse addresses from UTOP on. */
    method AllocPages(first: nat, k: nat, avail: nat) returns (ok: bool)
      requires k > 0 && (first * PGSIZE >= UTOP || IsFree(pages, first, k))
      modifies this`pages
      ensures ok <==> k <= avail && first * PGSIZE < UTOP
      ensures pages == if ok then old(pages) + NewPages(first, first + k - 1) else old(pages)
    {
      if first * PGSIZE >= UTOP {
        return false;
      }
      hide IsFree, Chained, NewPages;
      ghost var m := pages;
      var j: nat := 0;
      ChainedAll(first, k);
      ChainedStart(m, first, k);
      while j < k
        invariant j <= k && j <= avail && pages == m + Chained(first, j, k)
      {
        if j == avail {
          ChainedEnd(m, first, j, k);
          pages := pages - {first + j};
          while j > 0
            invariant j <= k && pages == m + Chained(first, j, k)
          {
            ChainedBack(m, first, j, k);
            j := j - 1;
            pages := pages - {first + j};
          }
          return false;
        }
        ChainedNext(m, first, j, k);
        pages := pages[first + j := j + 1 < k];
        j := j + 1;
      }
      return true;
    }

    /** malloc, where avail says how many pages sys_page_alloc will still hand out.  A search that
        starts beyond the region finds nothing but leaves the cursor lost for good. */
    method Alloc(size: nat, avail: nat) returns (v: nat)
      requires Inv(H()) && size < WORD && !Strays(H(), Rounded(size))
      modifies this
      ensures Inv(H()) <==> !Overflows(old(H()), Rounded(size))
      ensures Rounded(size) >= MAXMALLOC ==> v == 0 && H() == old(H())
      ensures v == 0 ==>
                && blocks == old(blocks) && zeros == old(zeros) && leaked == old(leaked)
                && (|| Rounded(size) >= MAXMALLOC || NoRoom(pages, Span(Rounded(size))) || avail < Span(Rounded(size))
                    || SearchStart(old(H())) >= MEND)
      ensures v != 0 && Rounded(size) > 0 ==>
                v !in old(blocks) && blocks == old(blocks)[v := Rounded(size)] && zeros == old(zeros)
      ensures v != 0 && Rounded(size) == 0 ==>
                blocks == old(blocks) && zeros == old(zeros) + multiset{Last(v, 0)}
      ensures Rounded(size) < MAXMALLOC && Fits(old(H()), Rounded(size)) ==> v == old(H()).mptr && pages == old(pages)
      ensures Rounded(size) < MAXMALLOC && !Fits(old(H()), Rounded(size)) && SearchStart(old(H())) >= MEND ==>
                v == 0 && mptr + Rounded(size) + 4 >= WORD
      ensures old(leaked) <= leaked && (leaked != old(leaked) ==> Rounded(size) % PGSIZE == 0)
    {
      hide Inv, InPage, FreshBlock, Unref, Last, First, Fits, Rounded, IsFree, NoRoom, Strays, Overflows, SearchStart, Span;
      ghost var h := H();
      if mptr == 0 {
        mptr := MBEGIN;
      }
      var n := Rounded(size);
      RoundedIff(size);
      CursorRange(h);
      Leaving(h, n);
      if n >= MAXMALLOC {
        return 0;
      }
      if mptr % PGSIZE != 0 {
        FitsIs(h, n);
        if mptr / PGSIZE == (mptr + n + 3) / PGSIZE {
          v := TakeInPage(n);
          return;
        }
        LeavePage();
      } else {
        FitsIs(h, n);
      }
      v := AllocNew(n, avail);
    }

    /** The search from the page-aligned cursor, and the allocation there. */
    method AllocNew(n: nat, avail: nat) returns (v: nat)
      requires Inv(H()) && mptr % PGSIZE == 0 && MBEGIN <= mptr < WORD && n % 4 == 0 && n < MAXMALLOC
      requires mptr >= MEND ==> n + 4 >= PGSIZE
      modifies this
      ensures Inv(H())
      ensures v == 0 ==>
                && blocks == old(blocks) && zeros == old(zeros) && leaked == old(leaked)
                && (NoRoom(pages, Span(n)) || avail < Span(n) || old(mptr) >= MEND)
      ensures v != 0 && n > 0 ==> v !in old(blocks) && blocks == old(blocks)[v := n] && zeros == old(zeros)
      ensures v != 0 && n == 0 ==> blocks == old(blocks) && zeros == old(zeros) + multiset{Last(v, 0)}
      ensures old(mptr) >= MEND ==> v == 0 && mptr + n + 4 >= WORD
      ensures old(leaked) <= leaked && (leaked != old(leaked) ==> n % PGSIZE == 0)
    {
      hide Inv, Last, IsFree, NoRoom, Span;
      var found := Search(n);
      if found {
        v := AllocHere(n, avail);
      } else {
        v := 0;
      }
    }

    /** Puts the block behind the cursor, which stays in its page. */
    method TakeInPage(n: nat) returns (v: nat)
      requires Inv(H()) && mptr != 0 && n % 4 == 0 && n < MAXMALLOC && Fits(H(), n)
      modifies this
      ensures Inv(H()) <==> !Overflows(old(H()), n)
      ensures v == old(mptr) && pages == old(pages) && leaked == old(leaked)
      ensures n > 0 ==> v !in old(blocks) && blocks == old(blocks)[v := n] && zeros == old(zeros)
      ensures n == 0 ==> blocks == old(blocks) && zeros == old(zeros) + multiset{Last(v, 0)}
    {
      hide Inv, InPage, Last;
      ghost var h := H();
      InPageIff(h, n);
      InPageIs(h, n);
      CursorReady(h);
      ref := ref[mptr / PGSIZE := (ref[mptr / PGSIZE] + 1) % REFS];
      v := mptr;
      mptr := mptr + n;
      if n == 0 { zeros := zeros + multiset{Last(v, 0)}; } else { blocks := blocks[v := n]; }
      assert H() == InPage(h, n);
    }

    /** Drops the cursor's reference to its page and moves on to the next. */
    method LeavePage()
      requires Inv(H()) && mptr % PGSIZE != 0
      modifies this
      ensures Inv(H()) && mptr == SearchStart(old(H())) && MBEGIN <= mptr <= MEND && mptr % PGSIZE == 0
      ensures blocks == old(blocks) && zeros == old(zeros) && leaked == old(leaked)
    {
      hide Inv, Unref;
      ghost var h := H();
      DropCursorInv(h);
      CursorReady(h);
      FreePages(mptr, mptr / PGSIZE);
      UnrefIs(h, h.mptr / PGSIZE, h.mptr / PGSIZE);
      mptr := (mptr + PGSIZE) / PGSIZE * PGSIZE;
      assert H() == Unref(h, h.mptr / PGSIZE).(mptr := (h.mptr / PGSIZE + 1) * PGSIZE);
    }

    /** Maps the pages at the cursor and puts the block there. */
    method AllocHere(n: nat, avail: nat) returns (v: nat)
      requires Inv(H()) && mptr % PGSIZE == 0 && n % 4 == 0 && MBEGIN <= mptr < WORD
      requires mptr >= UTOP || (mptr < MEND && IsFree(pages, mptr / PGSIZE, Span(n)))
      modifies this
      ensures Inv(H())
      ensures v == 0 <==> avail < Span(n) || old(mptr) >= UTOP
      ensures v == 0 ==> H() == old(H())
      ensures v != 0 && n > 0 ==> v !in old(blocks) && blocks == old(blocks)[v := n] && zeros == old(zeros)
      ensures v != 0 && n == 0 ==> blocks == old(blocks) && zeros == old(zeros) + multiset{Last(v, 0)}
      ensures old(leaked) <= leaked && (leaked != old(leaked) ==> n % PGSIZE == 0)
    {
      hide Inv, FreshBlock, Last, First, IsFree, Span, NewPages;
      ghost var h := H();
      SpanIs(mptr, n);
      var ok := AllocPages(mptr / PGSIZE, Span(n), avail);
      if !ok {
        return 0;
      }
      FreshBlockInv(h, n);
      FreshIs(h, n);
      ref := ref[mptr / PGSIZE + Span(n) - 1 := 2];
      v := mptr;
      mptr := mptr + n;
      ghost var f := FreshBlock(h, n);
      blocks, zeros, leaked := f.blocks, f.zeros, f.leaked;
      assert H() == f;
    }

    /** Looks for Span(n) free pages, from the cursor on and round twice; from beyond the region, for an
        address so near the end that the request seems to fit. */
    method Search(n: nat) returns (found: bool)
      requires Inv(H()) && mptr % PGSIZE == 0 && MBEGIN <= mptr < WORD && n < MAXMALLOC
      requires mptr >= MEND ==> n + 4 >= PGSIZE
      modifies this`mptr
      ensures Inv(H()) && mptr % PGSIZE == 0 && MBEGIN <= mptr < WORD
      ensures found && old(mptr) < MEND ==> mptr < MEND && IsFree(pages, mptr / PGSIZE, Span(n))
      ensures !found ==> old(mptr) < MEND && NoRoom(pages, Span(n))
      ensures old(mptr) >= MEND ==> found && mptr + n + 4 >= WORD
    {
      hide Inv, IsFree;
      var nwrap := 0;
      while true
        invariant Inv(H()) && mptr % PGSIZE == 0 && MBEGIN <= mptr < WORD && 0 <= nwrap < 2
        invariant mptr < MEND <==> old(mptr) < MEND
        invariant nwrap == 1 ==> old(mptr) < MEND && forall p :: PBEGIN <= p < mptr / PGSIZE ==> !IsFree(pages, p, Span(n))
        decreases 2 - nwrap, WORD - mptr
      {
        var b := CheckFree(mptr, n + 4);
        assert (n + 4 + PGSIZE - 1) / PGSIZE == Span(n);
        if mptr >= MEND { BeyondIff(pages, mptr, n); }
        if b {
          return true;
        }
        ghost var h := H();
        MoveInv(h, mptr + PGSIZE);
        MoveInv(h, MBEGIN);
        assert (mptr + PGSIZE) / PGSIZE == mptr / PGSIZE + 1;
        mptr := mptr + PGSIZE;
        if mptr == MEND {
          mptr := MBEGIN;
          nwrap := nwrap + 1;
          if nwrap == 2 {
            return false;
          }
        }
      }
    }
  }
}
