/**
 Greedy packing of a sequence, in order, into blocks of bounded size.

 Both the hunk splitter and the LLM batcher pack this way.  No order-preserving packing under the same
 bounds uses fewer blocks.
 */
module Packing {

  function Total<T>(w: T -> nat, xs: seq<T>): nat {
    if xs == [] then 0 else w(xs[0]) + Total(w, xs[1..])
  }

  function Flatten<T>(blocks: seq<seq<T>>): seq<T> {
    if blocks == [] then [] else blocks[0] + Flatten(blocks[1..])
  }

  /** A block may hold one element of any weight, or several within both bounds. */
  predicate Fits<T>(w: T -> nat, maxCount: int, maxTotal: int, block: seq<T>) {
    && block != []
    && (|block| == 1 || (|block| <= maxCount && Total(w, block) <= maxTotal))
  }

  ghost predicate Feasible<T>(w: T -> nat, maxCount: int, maxTotal: int, blocks: seq<seq<T>>, xs: seq<T>) {
    && Flatten(blocks) == xs
    && forall i :: 0 <= i < |blocks| ==> Fits(w, maxCount, maxTotal, blocks[i])
  }

  /** No room in the open block for `x`. */
  predicate Closes<T>(w: T -> nat, maxCount: int, maxTotal: int, open_: seq<T>, x: T) {
    open_ != [] && (|open_| >= maxCount || Total(w, open_) + w(x) > maxTotal)
  }

  /** Blocks for the open block and what is still to be packed. */
  function Pack<T>(w: T -> nat, maxCount: int, maxTotal: int, open_: seq<T>, rest: seq<T>): seq<seq<T>>
    decreases |rest|
  {
    if rest == [] then (if open_ == [] then [] else [open_])
    else if Closes(w, maxCount, maxTotal, open_, rest[0]) then
      [open_] + Pack(w, maxCount, maxTotal, [rest[0]], rest[1..])
    else
      Pack(w, maxCount, maxTotal, open_ + [rest[0]], rest[1..])
  }

  /** What packing does with the i-th element, and what it does at the end. */
  lemma {:induction false} PackStep<T>(w: T -> nat, maxCount: int, maxTotal: int, open_: seq<T>, xs: seq<T>, i: nat)
    requires i <= |xs|
    ensures i == |xs| ==> Pack(w, maxCount, maxTotal, open_, xs[i..]) == if open_ == [] then [] else [open_]
    ensures i < |xs| ==>
              Pack(w, maxCount, maxTotal, open_, xs[i..])
              == if Closes(w, maxCount, maxTotal, open_, xs[i])
                 then [open_] + Pack(w, maxCount, maxTotal, [xs[i]], xs[i + 1..])
                 else Pack(w, maxCount, maxTotal, open_ + [xs[i]], xs[i + 1..])
  {
    hide Closes;
    if i < |xs| {
      assert xs[i..][0] == xs[i] && xs[i..][1..] == xs[i + 1..];
    }
  }

  lemma {:induction false} TotalAppend<T>(w: T -> nat, a: seq<T>, b: seq<T>)
    ensures Total(w, a + b) == Total(w, a) + Total(w, b)
  {
    if a == [] {
      assert a + b == b;
    } else {
      assert (a + b)[1..] == a[1..] + b;
      TotalAppend(w, a[1..], b);
    }
  }

  lemma {:induction false} PackIsFeasible<T>(w: T -> nat, maxCount: int, maxTotal: int, open_: seq<T>, rest: seq<T>)
    requires open_ == [] || Fits(w, maxCount, maxTotal, open_)
    ensures Feasible(w, maxCount, maxTotal, Pack(w, maxCount, maxTotal, open_, rest), open_ + rest)
    decreases |rest|
  {
    var blocks := Pack(w, maxCount, maxTotal, open_, rest);
    if rest == [] {
      assert blocks != [] ==> blocks[1..] == [];
      assert Flatten(blocks) == open_ + rest;
    } else {
      var x := [rest[0]];
      TotalAppend(w, open_, x);
      if Closes(w, maxCount, maxTotal, open_, rest[0]) {
        PackIsFeasible(w, maxCount, maxTotal, x, rest[1..]);
        assert blocks[1..] == Pack(w, maxCount, maxTotal, x, rest[1..]);
        assert open_ + (x + rest[1..]) == open_ + rest;
      } else {
        assert Total(w, x) == w(rest[0]);
        PackIsFeasible(w, maxCount, maxTotal, open_ + x, rest[1..]);
        assert open_ + x + rest[1..] == open_ + rest;
      }
    }
  }

  /** Part of a block fits wherever the block does. */
  lemma {:induction false} PartFits<T>(w: T -> nat, maxCount: int, maxTotal: int, a: seq<T>, part: seq<T>, b: seq<T>)
    requires part != [] && Fits(w, maxCount, maxTotal, a + part + b)
    ensures Fits(w, maxCount, maxTotal, part)
  {
    TotalAppend(w, a + part, b);
    TotalAppend(w, a, part);
  }

  /** While the open block is shorter than the rest of a feasible block, there is room for the next one. */
  lemma {:induction false} RoomLeft<T>(w: T -> nat, maxCount: int, maxTotal: int, a: seq<T>, open_: seq<T>, x: T, b: seq<T>)
    requires Fits(w, maxCount, maxTotal, a + (open_ + [x]) + b)
    ensures !Closes(w, maxCount, maxTotal, open_, x)
  {
    PartFits(w, maxCount, maxTotal, a, open_ + [x], b);
    TotalAppend(w, open_, [x]);
    assert Total(w, [x]) == w(x);
  }

  /** Greedy stays ahead: packing any tail of a feasible packing takes no more blocks than it. */
  lemma {:induction false} GreedyStaysAhead<T>(w: T -> nat, maxCount: int, maxTotal: int, skipped: seq<T>,
                                               open_: seq<T>, rest: seq<T>, other: seq<seq<T>>)
    requires Feasible(w, maxCount, maxTotal, other, skipped + open_ + rest)
    ensures |Pack(w, maxCount, maxTotal, open_, rest)| <= |other|
    decreases |other|, |rest|
  {
    if other == [] {
      assert open_ == [] && rest == [];
    } else if |skipped| >= |other[0]| {
      var n := |other[0]|;
      assert skipped + open_ + rest == other[0] + Flatten(other[1..]);
      assert (skipped + open_ + rest)[n..] == skipped[n..] + open_ + rest;
      GreedyStaysAhead(w, maxCount, maxTotal, skipped[n..], open_, rest, other[1..]);
    } else if rest != [] {
      var x := [rest[0]];
      assert skipped + (open_ + x) + rest[1..] == skipped + open_ + rest;
      if Closes(w, maxCount, maxTotal, open_, rest[0]) {
        ClosedBlockReaches(w, maxCount, maxTotal, skipped, open_, rest, other);
        var n := |other[0]|;
        var gone := (skipped + open_)[n..];
        assert (skipped + open_ + rest)[n..] == gone + x + rest[1..];
        GreedyStaysAhead(w, maxCount, maxTotal, gone, x, rest[1..], other[1..]);
      } else {
        GreedyStaysAhead(w, maxCount, maxTotal, skipped, open_ + x, rest[1..], other);
      }
    }
  }

  /** A block closed by the greedy packer reaches at least as far as the feasible one. */
  lemma {:induction false} ClosedBlockReaches<T>(w: T -> nat, maxCount: int, maxTotal: int, skipped: seq<T>, open_: seq<T>,
                              rest: seq<T>, other: seq<seq<T>>)
    requires Feasible(w, maxCount, maxTotal, other, skipped + open_ + rest)
    requires other != [] && rest != [] && |skipped| < |other[0]|
    requires Closes(w, maxCount, maxTotal, open_, rest[0])
    ensures |other[0]| <= |skipped| + |open_|
    ensures skipped + open_ + rest == other[0] + Flatten(other[1..])
  {
    var all, n := skipped + open_ + rest, |skipped| + |open_|;
    if |other[0]| > n {
      assert other[0] == all[..|other[0]|];
      var tail := all[n + 1..|other[0]|];
      assert other[0] == skipped + (open_ + [rest[0]]) + tail;
      RoomLeft(w, maxCount, maxTotal, skipped, open_, rest[0], tail);
    }
  }

  /** Greedy packing is feasible and no feasible packing of the same sequence is shorter. */
  lemma {:induction false} GreedyIsOptimal<T>(w: T -> nat, maxCount: int, maxTotal: int, xs: seq<T>, other: seq<seq<T>>)
    requires Feasible(w, maxCount, maxTotal, other, xs)
    ensures Feasible(w, maxCount, maxTotal, Pack(w, maxCount, maxTotal, [], xs), xs)
    ensures |Pack(w, maxCount, maxTotal, [], xs)| <= |other|
  {
    PackIsFeasible(w, maxCount, maxTotal, [], xs);
    assert [] + xs == xs && [] + [] + xs == xs;
    GreedyStaysAhead(w, maxCount, maxTotal, [], [], xs, other);
  }

  /** When everything fits in one block, greedy uses one block. */
  lemma {:induction false} PackOfOneBlock<T>(w: T -> nat, maxCount: int, maxTotal: int, open_: seq<T>, rest: seq<T>)
    requires open_ + rest != [] && |open_ + rest| <= maxCount && Total(w, open_ + rest) <= maxTotal
    ensures Pack(w, maxCount, maxTotal, open_, rest) == [open_ + rest]
    decreases |rest|
  {
    if rest == [] {
      assert open_ + rest == open_;
    } else {
      var x := [rest[0]];
      assert open_ + rest == open_ + x + rest[1..];
      TotalAppend(w, open_ + x, rest[1..]);
      TotalAppend(w, open_, x);
      assert Total(w, x) == w(rest[0]) + Total(w, x[1..]);
      PackOfOneBlock(w, maxCount, maxTotal, open_ + x, rest[1..]);
    }
  }
}
