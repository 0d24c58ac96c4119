/** Sequences cut into blocks: the arrays the face loop of loader.c fills
    are runs of fixed-size blocks, one per face, written one block at a time
    over an allocated background. */
module Blocks {

  /** `n` copies of `x`: what an array initialised to `x` holds. */
  function Fill<T>(n: nat, x: T): (r: seq<T>)
    ensures |r| == n && forall t :: 0 <= t < n ==> r[t] == x
  {
    if n == 0 then [] else Fill(n - 1, x) + [x]
  }

  /** The blocks of `bs`, one after the other. */
  function Concat<T>(bs: seq<seq<T>>): (r: seq<T>)
  {
    if |bs| == 0 then [] else Concat(bs[..|bs| - 1]) + bs[|bs| - 1]
  }

  /** The last block of `bs`, or `d` when there is none. */
  function LastBlock<T>(bs: seq<seq<T>>, d: seq<T>): seq<T>
  {
    if |bs| == 0 then d else bs[|bs| - 1]
  }

  /** The last block of every entry of `bss`. */
  function LastBlocks<T>(bss: seq<seq<seq<T>>>, d: seq<T>): (r: seq<seq<T>>)
    ensures |r| == |bss|
  {
    if |bss| == 0 then [] else LastBlocks(bss[..|bss| - 1], d) + [LastBlock(bss[|bss| - 1], d)]
  }

  /** Entry `k` of the last blocks is the last block of entry `k`. */
  lemma {:induction false} LastBlocksAt<T>(bss: seq<seq<seq<T>>>, d: seq<T>, k: int)
    requires 0 <= k < |bss|
    ensures LastBlocks(bss, d)[k] == LastBlock(bss[k], d)
  {
    var m := |bss| - 1;
    if k < m {
      LastBlocksAt(bss[..m], d, k);
    }
  }

  /** Every block of every entry of `bss` has `w` elements. */
  ghost predicate Widths<T>(bss: seq<seq<seq<T>>>, w: int)
  {
    forall k, g :: 0 <= k < |bss| && 0 <= g < |bss[k]| ==> |bss[k][g]| == w
  }

  /** The last block of entry `k` keeps the width of the blocks. */
  lemma LastBlockWidth<T>(bss: seq<seq<seq<T>>>, d: seq<T>, k: int)
    requires Widths(bss, |d|) && 0 <= k < |bss|
    ensures |LastBlock(bss[k], d)| == |d|
  {
    if bss[k] != [] {
      assert |bss[k][|bss[k]| - 1]| == |d|;
    }
  }

  /** The last blocks keep the width of the blocks. */
  lemma LastBlocksWidth<T>(bss: seq<seq<seq<T>>>, d: seq<T>)
    requires Widths(bss, |d|)
    ensures forall k :: 0 <= k < |bss| ==> |LastBlocks(bss, d)[k]| == |d|
  {
    forall k | 0 <= k < |bss|
      ensures |LastBlocks(bss, d)[k]| == |d|
    {
      LastBlocksAt(bss, d, k);
      LastBlockWidth(bss, d, k);
    }
  }

  /** The last blocks of a prefix are a prefix of the last blocks. */
  lemma LastBlocksPrefix<T>(bss: seq<seq<seq<T>>>, i: int, d: seq<T>)
    requires 0 <= i <= |bss|
    ensures LastBlocks(bss, d)[..i] == LastBlocks(bss[..i], d)
  {
    forall k | 0 <= k < i
      ensures LastBlocks(bss, d)[k] == LastBlocks(bss[..i], d)[k]
    {
      LastBlocksAt(bss, d, k);
      LastBlocksAt(bss[..i], d, k);
    }
  }

  /** The last blocks of a prefix take as much room as a prefix of the last
      blocks. */
  lemma LastBlocksPrefixLength<T>(bss: seq<seq<seq<T>>>, i: int, d: seq<T>)
    requires 0 <= i <= |bss|
    ensures |Concat(LastBlocks(bss, d)[..i])| == |Concat(LastBlocks(bss[..i], d))|
  {
    LastBlocksPrefix(bss, i, d);
  }

  /** One more entry adds its last block to the concatenation. */
  lemma LastBlocksStep<T>(bss: seq<seq<seq<T>>>, i: int, d: seq<T>)
    requires 0 <= i < |bss|
    ensures Concat(LastBlocks(bss[..i + 1], d)) == Concat(LastBlocks(bss[..i], d)) + LastBlock(bss[i], d)
  {
    assert bss[..i + 1][..i] == bss[..i];
  }

  lemma MulSucc(w: int, n: int)
    ensures w * (n + 1) == w * n + w
  {
  }

  /** Blocks of width `w` concatenate to `w` elements per block. */
  lemma {:induction false} ConcatLength<T>(bs: seq<seq<T>>, w: nat)
    requires forall k :: 0 <= k < |bs| ==> |bs[k]| == w
    ensures |Concat(bs)| == w * |bs|
  {
    if bs != [] {
      ConcatLength(bs[..|bs| - 1], w);
      MulSucc(w, |bs| - 1);
    }
  }

  /** The last blocks of entries `0 .. i - 1` take `w` elements each. */
  lemma BlocksLength<T>(bss: seq<seq<seq<T>>>, i: int, d: seq<T>)
    requires 0 <= i <= |bss| && Widths(bss, |d|)
    ensures |Concat(LastBlocks(bss[..i], d))| == |d| * i
  {
    LastBlocksWidth(bss[..i], d);
    ConcatLength(LastBlocks(bss[..i], d), |d|);
  }

  /** Element `t` of block `i` follows the blocks before it. */
  lemma {:induction false} ConcatAt<T>(bs: seq<seq<T>>, i: int, t: int, before: int)
    requires 0 <= i < |bs| && 0 <= t < |bs[i]|
    requires before == |Concat(bs[..i])|
    ensures before + t < |Concat(bs)| && Concat(bs)[before + t] == bs[i][t]
  {
    var m := |bs| - 1;
    if i < m {
      assert bs[..m][..i] == bs[..i];
      ConcatAt(bs[..m], i, t, before);
    } else {
      assert bs[..m] == bs[..i];
    }
  }

  /** Element `t` of the last block of entry `i` follows the last blocks of
      the entries before it. */
  lemma ConcatLastAt<T>(bss: seq<seq<seq<T>>>, d: seq<T>, i: int, t: int, before: int)
    requires 0 <= i < |bss| && 0 <= t < |LastBlock(bss[i], d)|
    requires before == |Concat(LastBlocks(bss[..i], d))|
    ensures before + t < |Concat(LastBlocks(bss, d))|
    ensures Concat(LastBlocks(bss, d))[before + t] == LastBlock(bss[i], d)[t]
  {
    LastBlocksAt(bss, d, i);
    LastBlocksPrefixLength(bss, i, d);
    ConcatAt(LastBlocks(bss, d), i, t, before);
  }

  /** `m` copies of `d` are `d` followed by `m - 1` copies. */
  lemma {:induction false} ConcatFillFront<T>(m: nat, d: seq<T>)
    requires m >= 1
    ensures Concat(Fill(m, d)) == d + Concat(Fill(m - 1, d))
  {
    assert Fill(m, d)[..m - 1] == Fill(m - 1, d);
    if m > 1 {
      assert Fill(m - 1, d)[..m - 2] == Fill(m - 2, d);
      ConcatFillFront(m - 1, d);
    }
  }

  /** `p` copies of `x` followed by `q` copies are `p + q` copies. */
  lemma FillAppend<T>(p: nat, q: nat, x: T)
    ensures Fill(p, x) + Fill(q, x) == Fill(p + q, x)
  {
    var r := Fill(p, x) + Fill(q, x);
    assert forall t :: 0 <= t < p + q ==> r[t] == x;
  }

  /** `m` copies of a block of `w` copies of `x` are `w * m` copies of `x`. */
  lemma {:induction false} ConcatFill<T>(m: nat, w: nat, x: T)
    ensures Concat(Fill(m, Fill(w, x))) == Fill(w * m, x)
  {
    if m > 0 {
      assert Fill(m, Fill(w, x))[..m - 1] == Fill(m - 1, Fill(w, x));
      ConcatFill(m - 1, w, x);
      MulSucc(w, m - 1);
      FillAppend(w * (m - 1), w, x);
    }
  }

  /** The last blocks of entries `0 .. i - 1`, then `n - i` copies of the
      block `d`, still as allocated. */
  function Progress<T>(bss: seq<seq<seq<T>>>, i: int, d: seq<T>, n: int): seq<T>
    requires 0 <= i <= |bss| && i <= n
  {
    Concat(LastBlocks(bss[..i], d)) + Concat(Fill(n - i, d))
  }

  /** Once every entry is taken, nothing is left as allocated. */
  lemma ProgressDone<T>(bss: seq<seq<seq<T>>>, d: seq<T>)
    ensures Progress(bss, |bss|, d, |bss|) == Concat(LastBlocks(bss, d))
  {
    assert bss[..|bss|] == bss;
    assert Fill(0, d) == [];
  }

  /** Entry `i` takes the first block still as allocated. */
  lemma ProgressStep<T>(bss: seq<seq<seq<T>>>, i: int, d: seq<T>, n: int, before: int, w: int)
    requires 0 <= i < |bss| && i < n && |LastBlock(bss[i], d)| == |d|
    requires before == |Concat(LastBlocks(bss[..i], d))| && w == |d|
    ensures 0 <= before && before + w <= |Progress(bss, i, d, n)|
    ensures Progress(bss, i, d, n)[before..before + w] == d
    ensures Progress(bss, i + 1, d, n) == Splice(Progress(bss, i, d, n), before, LastBlock(bss[i], d))
  {
    var p, r, rest := Concat(LastBlocks(bss[..i], d)), LastBlock(bss[i], d), Concat(Fill(n - i - 1, d));
    ProgressParts(bss, i, d, n);
    SpliceFront(p, d, rest, r);
  }

  /** The two sides of the step, as concatenations. */
  lemma ProgressParts<T>(bss: seq<seq<seq<T>>>, i: int, d: seq<T>, n: int)
    requires 0 <= i < |bss| && i < n
    ensures Progress(bss, i, d, n) == Concat(LastBlocks(bss[..i], d)) + (d + Concat(Fill(n - i - 1, d)))
    ensures Progress(bss, i + 1, d, n) == (Concat(LastBlocks(bss[..i], d)) + LastBlock(bss[i], d)) + Concat(Fill(n - i - 1, d))
  {
    var p := Concat(LastBlocks(bss[..i], d));
    assert Progress(bss, i, d, n) == p + Concat(Fill(n - i, d));
    ConcatFillFront(n - i, d);
    assert Progress(bss, i + 1, d, n) == Concat(LastBlocks(bss[..i + 1], d)) + Concat(Fill(n - i - 1, d));
    LastBlocksStep(bss, i, d);
  }


  /** `s` with `r` written over it from position `at` on. */
  function Splice<T>(s: seq<T>, at: int, r: seq<T>): (u: seq<T>)
    requires 0 <= at && at + |r| <= |s|
    ensures |u| == |s|
    ensures forall t :: 0 <= t < |s| ==> u[t] == if at <= t < at + |r| then r[t - at] else s[t]
  {
    s[..at] + r + s[at + |r|..]
  }

  /** The second of two writes to the same slots wins. */
  lemma SpliceTwice<T>(s: seq<T>, at: int, r1: seq<T>, r2: seq<T>)
    requires 0 <= at && at + |r1| <= |s| && |r2| == |r1|
    ensures Splice(Splice(s, at, r1), at, r2) == Splice(s, at, r2)
  {
  }

  /** Two adjacent writes are one write of both. */
  lemma SpliceAppend<T>(s: seq<T>, at: int, r1: seq<T>, r2: seq<T>)
    requires 0 <= at && at + |r1| + |r2| <= |s|
    ensures Splice(Splice(s, at, r1), at + |r1|, r2) == Splice(s, at, r1 + r2)
  {
  }

  /** Writing what is already there changes nothing. */
  lemma SpliceSame<T>(s: seq<T>, at: int, r: seq<T>)
    requires 0 <= at && at + |r| <= |s| && s[at..at + |r|] == r
    ensures Splice(s, at, r) == s
  {
    assert forall t :: at <= t < at + |r| ==> s[t] == s[at..at + |r|][t - at];
  }

  /** Writing `r` over the block `d` that follows a prefix `p` replaces it. */
  lemma SpliceFront<T>(p: seq<T>, d: seq<T>, rest: seq<T>, r: seq<T>)
    requires |r| == |d|
    ensures (p + (d + rest))[|p|..|p| + |d|] == d
    ensures Splice(p + (d + rest), |p|, r) == (p + r) + rest
  {
    assert (p + (d + rest))[|p|..|p| + |d|] == d;
  }
}
