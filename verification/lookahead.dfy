/**
 * The fixed-depth peek buffer `Lookahead<N, I>` that the older scanner puts
 * in front of its character iterator. The wrapped iterator is a finite
 * sequence of items read front to back which answers `None` once exhausted
 * (the iterators it wraps are fused); `pulled` counts the calls made to it.
 * The buffer holds the items already pulled but not yet handed out.
 */
module Lookahead {
  import opened Wrappers

  datatype Lookahead<T> = Lookahead(cap: nat, items: seq<T>, pulled: nat, buffer: seq<Option<T>>)
  {
    /** The buffered entries are exactly the most recent items pulled from the iterator. */
    ghost predicate Valid() {
      && |buffer| <= pulled
      && forall i :: 0 <= i < |buffer| ==> buffer[i] == ItemAt(items, pulled - |buffer| + i)
    }
  }

  /** What the k-th call to the wrapped iterator's `next` returns. */
  function ItemAt<T>(items: seq<T>, k: nat): Option<T> {
    if k < |items| then Some(items[k]) else None
  }

  /**
   * The item the (k+1)-th `next` call from now will return: buffered entries
   * first, then the iterator's items.
   */
  function Yield<T>(l: Lookahead<T>, k: nat): Option<T> {
    if k < |l.buffer| then l.buffer[k] else ItemAt(l.items, l.pulled + (k - |l.buffer|))
  }

  /** `Lookahead::new` with capacity N over an iterator. */
  function New<T>(cap: nat, items: seq<T>): (l: Lookahead<T>)
    ensures l.Valid() && l.buffer == [] && l.cap == cap
    ensures forall k: nat :: Yield(l, k) == ItemAt(items, k)
  {
    Lookahead(cap, items, 0, [])
  }

  /** `Iterator::next`: the front of the buffer if it is non-empty, else the iterator's next item. */
  function Next<T>(l: Lookahead<T>): (r: (Option<T>, Lookahead<T>))
    requires l.Valid()
    ensures r.1.Valid() && r.1.cap == l.cap && r.1.items == l.items
    ensures r.0 == Yield(l, 0)
    ensures forall k: nat :: Yield(r.1, k) == Yield(l, k + 1)
    ensures |r.1.buffer| == if |l.buffer| > 0 then |l.buffer| - 1 else 0
  {
    if |l.buffer| > 0 then (l.buffer[0], l.(buffer := l.buffer[1..]))
    else (ItemAt(l.items, l.pulled), l.(pulled := l.pulled + 1))
  }

  /** Pull `count` items from the iterator onto the back of the buffer. */
  function Fill<T>(l: Lookahead<T>, count: nat): (r: Lookahead<T>)
    requires l.Valid()
    ensures r.Valid() && r.cap == l.cap && r.items == l.items
    ensures |r.buffer| == |l.buffer| + count
    ensures forall k: nat :: Yield(r, k) == Yield(l, k)
    decreases count
  {
    if count == 0 then l
    else
      var l1 := l.(pulled := l.pulled + 1, buffer := l.buffer + [ItemAt(l.items, l.pulled)]);
      assert forall i :: 0 <= i < |l1.buffer| ==> l1.buffer[i] == ItemAt(l.items, l1.pulled - |l1.buffer| + i);
      Fill(l1, count - 1)
  }

  /**
   * `Lookahead::lookahead(n)`: the item n places ahead, without consuming
   * anything. Asking beyond the capacity is an assertion failure in the
   * source, hence a precondition here.
   */
  function Peek<T>(l: Lookahead<T>, n: nat): (r: (Option<T>, Lookahead<T>))
    requires l.Valid() && n < l.cap
    ensures r.1.Valid() && r.1.cap == l.cap && r.1.items == l.items
    ensures r.0 == Yield(l, n)
    ensures forall k: nat :: Yield(r.1, k) == Yield(l, k)
    ensures |r.1.buffer| >= n + 1
    ensures |r.1.buffer| == if |l.buffer| < n + 1 then n + 1 else |l.buffer|
  {
    var l1 := Fill(l, if n + 1 > |l.buffer| then n + 1 - |l.buffer| else 0);
    assert Yield(l1, n) == l1.buffer[n];
    (l1.buffer[n], l1)
  }

  /** A call on the buffer: `next`, or `lookahead(n)`. */
  datatype Op = NextOp | PeekOp(n: nat)

  ghost predicate OpsFit(ops: seq<Op>, cap: nat) {
    forall i :: 0 <= i < |ops| ==> (ops[i].PeekOp? ==> ops[i].n < cap)
  }

  /** How many `next` calls a run of operations makes. */
  function CountNext(ops: seq<Op>): nat {
    if ops == [] then 0 else (if ops[0].NextOp? then 1 else 0) + CountNext(ops[1..])
  }

  /** Perform `ops` in order, collecting what each `next` call returns. */
  function Run<T>(l: Lookahead<T>, ops: seq<Op>): (r: (seq<Option<T>>, Lookahead<T>))
    requires l.Valid() && OpsFit(ops, l.cap)
    ensures r.1.Valid() && r.1.cap == l.cap && r.1.items == l.items
    ensures |r.0| == CountNext(ops)
    ensures |l.buffer| <= l.cap ==> |r.1.buffer| <= l.cap
    decreases |ops|
  {
    if ops == [] then ([], l)
    else
      match ops[0]
      case NextOp =>
        var (x, l1) := Next(l);
        var (xs, l2) := Run(l1, ops[1..]);
        ([x] + xs, l2)
      case PeekOp(n) =>
        Run(Peek(l, n).1, ops[1..])
  }

  /** The i-th `next` in a run returns the item i places ahead of where the run started. */
  lemma {:induction false} RunYieldsInOrder<T>(l: Lookahead<T>, ops: seq<Op>)
    requires l.Valid() && OpsFit(ops, l.cap)
    ensures forall i :: 0 <= i < |Run(l, ops).0| ==> Run(l, ops).0[i] == Yield(l, i)
    decreases |ops|
  {
    if ops != [] {
      match ops[0]
      case NextOp =>
        var (x, l1) := Next(l);
        RunYieldsInOrder(l1, ops[1..]);
      case PeekOp(n) =>
        RunYieldsInOrder(Peek(l, n).1, ops[1..]);
    }
  }

  /** The `next` calls of a run with every `lookahead` call removed. */
  function NextsOnly(ops: seq<Op>): (r: seq<Op>)
    ensures forall i :: 0 <= i < |r| ==> r[i].NextOp?
    ensures CountNext(r) == CountNext(ops) == |r|
  {
    if ops == [] then []
    else
      var rest := NextsOnly(ops[1..]);
      if ops[0].NextOp? then
        assert ([NextOp] + rest)[1..] == rest;
        [NextOp] + rest
      else rest
  }

  /**
   * Peeking is transparent: interleaving `lookahead` calls anywhere in a run
   * never changes the items the `next` calls of that run return.
   */
  lemma PeekingIsTransparent<T>(l: Lookahead<T>, ops: seq<Op>)
    requires l.Valid() && OpsFit(ops, l.cap)
    ensures Run(l, ops).0 == Run(l, NextsOnly(ops)).0
  {
    RunYieldsInOrder(l, ops);
    RunYieldsInOrder(l, NextsOnly(ops));
  }

  /** `lookahead(n)` returns exactly what the (n+1)-th subsequent `next` call yields. */
  lemma PeekPredictsNext<T>(l: Lookahead<T>, n: nat)
    requires l.Valid() && n < l.cap
    ensures var out := Run(l, seq(n + 1, _ => NextOp)).0;
      |out| == n + 1 && Peek(l, n).0 == out[n]
  {
    var ops := seq(n + 1, _ => NextOp);
    assert CountNext(ops) == n + 1 by { CountAllNext(n + 1); }
    RunYieldsInOrder(l, ops);
  }

  lemma {:induction false} CountAllNext(k: nat)
    ensures CountNext(seq(k, _ => NextOp)) == k
  {
    if k > 0 {
      assert seq(k, _ => NextOp)[1..] == seq(k - 1, _ => NextOp);
      CountAllNext(k - 1);
    }
  }
}
