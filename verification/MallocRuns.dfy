/** Whole runs of lib/malloc.c: any sequence of malloc and free by a program that frees only what it
    was given. */
module MallocRuns {
  import opened Malloc
  import opened MallocCode

  /** avail is how many pages the kernel has left at the time. */
  datatype Op = Allocate(size: nat, avail: nat) | Release(v: nat) | ReleaseEmpty(v: nat)

  /** A pointer to a zero-sized block. */
  predicate IsEmpty(zeros: multiset<nat>, v: nat) {
    MBEGIN <= v && Last(v, 0) == v / PGSIZE && Last(v, 0) in zeros
  }

  /** Frees are of live blocks; requests are such that no reference word wraps and no search strays to
      address 0. */
  ghost predicate Allowed(op: Op, h: Heap) {
    match op
    case Allocate(size, _) => size < WORD && !Strays(h, Rounded(size)) && !Overflows(h, Rounded(size))
    case Release(v) => v in h.blocks
    case ReleaseEmpty(v) => IsEmpty(h.zeros, v)
  }

  /** What malloc does to the blocks when it returns v. */
  ghost predicate Gives(h: Heap, h': Heap, n: nat, avail: nat, v: nat) {
    if v == 0 then
      && h'.blocks == h.blocks && h'.zeros == h.zeros && h'.leaked == h.leaked
      && (n >= MAXMALLOC || NoRoom(h'.pages, Span(n)) || avail < Span(n) || SearchStart(h) >= MEND)
    else
      && h'.blocks == (if n == 0 then h.blocks else h.blocks[v := n])
      && h'.zeros == (if n == 0 then h.zeros + multiset{Last(v, 0)} else h.zeros)
      && (n > 0 ==> v !in h.blocks)
  }

  /** One call, which returns v; one that the program may not make is not made. */
  ghost predicate Does(op: Op, h: Heap, h': Heap, v: nat) {
    if !Allowed(op, h) then h' == h
    else
      match op
      case Allocate(size, avail) => Gives(h, h', Rounded(size), avail, v)
      case Release(w) => h'.blocks == h.blocks - {w} && h'.zeros == h.zeros && h'.leaked == h.leaked
      case ReleaseEmpty(w) => h'.blocks == h.blocks && h'.zeros == h.zeros - multiset{Last(w, 0)} && h'.leaked == h.leaked
  }

  /** The states of a run and what each call returned. */
  ghost predicate IsRun(ops: seq<Op>, trace: seq<Heap>, results: seq<nat>) {
    && |trace| == |ops| + 1 == |results| + 1 && trace[0] == FRESH
    && (forall i :: 0 <= i < |ops| ==> Does(ops[i], trace[i], trace[i + 1], results[i]))
    && (forall i :: 0 <= i < |trace| ==> Inv(trace[i]))
  }

  /** live and empty mirror what the program has been given and not freed. */
  method Call(a: Allocator, op: Op, live: set<nat>, empty: multiset<nat>) returns (v: nat, live': set<nat>, empty': multiset<nat>)
    requires Inv(a.H()) && live == a.blocks.Keys && empty == a.zeros
    modifies a
    ensures Inv(a.H()) && live' == a.blocks.Keys && empty' == a.zeros && Does(op, old(a.H()), a.H(), v)
  {
    hide Inv, Last, Rounded, Fits, NoRoom, Span, SearchStart, Strays, Overflows;
    v, live', empty' := 0, live, empty;
    match op {
      case Allocate(size, avail) =>
        if size < WORD {
          var n := Rounded(size);
          var here := Heap(if a.mptr == 0 then MBEGIN else a.mptr, a.pages, a.ref, map[], multiset{}, {});
          SameCursor(here, a.H(), n);
          if !Strays(here, n) && !Overflows(here, n) {
            v := a.Alloc(size, avail);
            if v != 0 {
              if n == 0 { empty' := empty + multiset{Last(v, 0)}; } else { live' := live + {v}; }
            }
          }
        }
      case Release(w) =>
        if w in live {
          NotNull(a.H(), w);
          a.Free(w, false);
          live' := live - {w};
        }
      case ReleaseEmpty(w) =>
        if IsEmpty(empty, w) {
          a.Free(w, true);
          empty' := empty - multiset{Last(w, 0)};
        }
    }
  }

  lemma SameCursor(h: Heap, h': Heap, n: nat)
    requires h.mptr == h'.mptr && h.ref == h'.ref
    ensures Strays(h, n) == Strays(h', n) && Overflows(h, n) == Overflows(h', n)
  {
  }

  lemma NotNull(h: Heap, v: nat)
    requires Inv(h) && v in h.blocks
    ensures v != 0
  {
    assert BlockOk(h, v, h.blocks[v]);
  }

  /** From the first call on, for any sequence of calls: in every state blocks are disjoint, mapped and
      clear of reference words, and reference words count their holders. */
  method Run(ops: seq<Op>) returns (a: Allocator, ghost trace: seq<Heap>, ghost results: seq<nat>)
    ensures IsRun(ops, trace, results) && trace[|ops|] == a.H()
  {
    hide Inv, Does;
    a := new Allocator();
    trace, results := [a.H()], [];
    var live: set<nat>, empty: multiset<nat>, i := {}, multiset{}, 0;
    while i < |ops|
      invariant 0 <= i <= |ops| && IsRun(ops[..i], trace, results) && trace[i] == a.H() && fresh(a)
      invariant live == a.blocks.Keys && empty == a.zeros
    {
      var v;
      v, live, empty := Call(a, ops[i], live, empty);
      trace, results := trace + [a.H()], results + [v];
      i := i + 1;
    }
    assert ops[..i] == ops;
  }

  /** A block that was given out stays where it is, whatever else is called, until it is freed. */
  lemma {:induction false} BlockStays(ops: seq<Op>, trace: seq<Heap>, results: seq<nat>, i: nat, j: nat, v: nat)
    requires IsRun(ops, trace, results) && i <= j < |trace| && v in trace[i].blocks
    requires forall k :: i <= k < j ==> ops[k] != Release(v)
    ensures v in trace[j].blocks && trace[j].blocks[v] == trace[i].blocks[v]
    decreases j - i
  {
    hide Inv;
    if i < j {
      BlockStays(ops, trace, results, i, j - 1, v);
      assert Does(ops[j - 1], trace[j - 1], trace[j], results[j - 1]);
    }
  }
}
