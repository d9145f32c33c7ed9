/** Singly linked free lists threaded through an array of descriptors
    (pp_link in kern/pmap.c, env_link in kern/env.c). */
module FreeList {
  import opened Wrappers

  function Next(xs: seq<nat>, i: nat): Option<nat> {
    if i + 1 < |xs| then Some(xs[i + 1]) else None
  }

  /** Following the links from head visits exactly xs, in order, and then null. */
  ghost predicate Chain(head: Option<nat>, link: seq<Option<nat>>, xs: seq<nat>) {
    && (forall i, j :: 0 <= i < j < |xs| ==> xs[i] != xs[j])
    && (forall i :: 0 <= i < |xs| ==> xs[i] < |link|)
    && head == (if |xs| == 0 then None else Some(xs[0]))
    && (forall i {:trigger link[xs[i]]} :: 0 <= i < |xs| ==> link[xs[i]] == Next(xs, i))
  }

  lemma EmptyChain(link: seq<Option<nat>>)
    ensures Chain(None, link, [])
  {
  }

  lemma Pop(head: Option<nat>, link: seq<Option<nat>>, xs: seq<nat>)
    requires Chain(head, link, xs) && |xs| > 0
    ensures Chain(link[xs[0]], link[xs[0] := None], xs[1..])
    ensures forall q :: q in xs <==> q == xs[0] || q in xs[1..]
    ensures xs[0] !in xs[1..]
  {
    var ys := xs[1..];
    var link' := link[xs[0] := None];
    forall i | 0 <= i < |ys|
      ensures link'[ys[i]] == Next(ys, i)
    {
      assert ys[i] == xs[i + 1] && xs[i + 1] != xs[0];
      if i + 1 < |ys| { assert ys[i + 1] == xs[i + 2]; }
      LinkAt(head, link, xs, i + 1);
    }
  }

  lemma Push(head: Option<nat>, link: seq<Option<nat>>, xs: seq<nat>, p: nat)
    requires Chain(head, link, xs) && p < |link| && p !in xs
    ensures Chain(Some(p), link[p := head], [p] + xs)
  {
    var ys := [p] + xs;
    var link' := link[p := head];
    forall i | 0 <= i < |ys|
      ensures link'[ys[i]] == Next(ys, i)
    {
      if i > 0 {
        assert ys[i] == xs[i - 1] && xs[i - 1] != p;
      }
      if i + 1 < |ys| { assert ys[i + 1] == xs[i]; }
    }
  }

  lemma Append(head: Option<nat>, link: seq<Option<nat>>, xs: seq<nat>, p: nat)
    requires Chain(head, link, xs) && p < |link| && p !in xs && link[p] == None
    ensures xs == [] ==> Chain(Some(p), link, [p])
    ensures xs != [] ==> Chain(head, link[xs[|xs| - 1] := Some(p)], xs + [p])
  {
    if xs != [] {
      var ys := xs + [p];
      var link' := link[xs[|xs| - 1] := Some(p)];
      forall i | 0 <= i < |ys|
        ensures link'[ys[i]] == Next(ys, i)
      {
        if i < |xs| { LinkAt(head, link, xs, i); }
      }
    }
  }

  /** One link, spelled out (an instance of the last clause of Chain). */
  lemma LinkAt(head: Option<nat>, link: seq<Option<nat>>, xs: seq<nat>, i: nat)
    requires Chain(head, link, xs) && i < |xs|
    ensures link[xs[i]] == Next(xs, i)
  {
  }

  /** Pushing a node that is already the last one of the list ties the list into a cycle:
      no sequence of nodes is a list from the new head any more. */
  lemma PushTailIsCyclic(head: Option<nat>, link: seq<Option<nat>>, xs: seq<nat>, p: nat, ys: seq<nat>)
    requires Chain(head, link, xs) && |xs| > 0 && p == xs[|xs| - 1]
    ensures !Chain(Some(p), link[p := head], ys)
  {
    if Chain(Some(p), link[p := head], ys) {
      FollowCycle(head, link, xs, p, ys, |xs| - 1);
      assert false;
    }
  }

  lemma {:induction false} FollowCycle(head: Option<nat>, link: seq<Option<nat>>, xs: seq<nat>, p: nat, ys: seq<nat>, k: nat)
    requires Chain(head, link, xs) && k < |xs| && p == xs[|xs| - 1]
    requires Chain(Some(p), link[p := head], ys)
    ensures k + 1 < |ys| && ys[k + 1] == xs[k]
  {
    var link' := link[p := head];
    if k == 0 {
      LinkAt(Some(p), link', ys, 0);
    } else {
      FollowCycle(head, link, xs, p, ys, k - 1);
      assert xs[k - 1] != p;
      LinkAt(Some(p), link', ys, k);
      LinkAt(head, link, xs, k - 1);
    }
  }
}
