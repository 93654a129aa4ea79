/** Merkle roots and branches as mining uses them: the root over a list of leaves, the branch that
    leads from the first leaf to the root, and the fold a miner does along it. */
module Merkle {

  type Hash = string
  type Combine = (Hash, Hash) -> Hash

  /** The next level up; an odd last leaf is combined with itself. */
  function Up(h: Combine, leaves: seq<Hash>): (r: seq<Hash>)
    ensures |r| == (|leaves| + 1) / 2
  {
    if leaves == [] then []
    else if |leaves| == 1 then [h(leaves[0], leaves[0])]
    else [h(leaves[0], leaves[1])] + Up(h, leaves[2..])
  }

  lemma {:induction false} PairsAbove(h: Combine, leaves: seq<Hash>, i: nat)
    requires i < |Up(h, leaves)|
    ensures Up(h, leaves)[i] == h(leaves[2 * i], leaves[if 2 * i + 1 < |leaves| then 2 * i + 1 else 2 * i])
  {
    if |leaves| >= 2 && i > 0 {
      PairsAbove(h, leaves[2..], i - 1);
    }
  }

  function Root(h: Combine, leaves: seq<Hash>): Hash
    requires leaves != []
    decreases |leaves|
  {
    if |leaves| == 1 then leaves[0] else Root(h, Up(h, leaves))
  }

  lemma RootOfPair(h: Combine, a: Hash, b: Hash)
    ensures Root(h, [a]) == a && Root(h, [a, b]) == h(a, b)
  {
    assert [a, b][2..] == [] && Up(h, [a, b]) == [h(a, b)];
    assert Root(h, [h(a, b)]) == h(a, b);
  }

  /** The roots of three, four and five leaves. */
  lemma SmallRoots(h: Combine, a: Hash, b: Hash, c: Hash, d: Hash, e: Hash)
    ensures Root(h, [a, b, c]) == h(h(a, b), h(c, c)) && Root(h, [a, b, c, d]) == h(h(a, b), h(c, d))
    ensures Root(h, [a, b, c, d, e]) == h(h(h(a, b), h(c, d)), h(h(e, e), h(e, e)))
  {
    var x, y, z := h(a, b), h(c, d), h(e, e);
    assert Up(h, [a, b, c]) == [x, h(c, c)] by { assert [a, b, c][2..] == [c]; }
    assert Up(h, [c, d]) == [y] by { assert [c, d][2..] == []; }
    assert Up(h, [a, b, c, d]) == [x, y] by { assert [a, b, c, d][2..] == [c, d]; }
    assert Up(h, [c, d, e]) == [y, z] by { assert [c, d, e][2..] == [e]; }
    assert Up(h, [a, b, c, d, e]) == [x, y, z] by { assert [a, b, c, d, e][2..] == [c, d, e]; }
    assert Up(h, [x, y, z]) == [h(x, y), h(z, z)] by { assert [x, y, z][2..] == [z]; }
    RootOfPair(h, x, h(c, c));
    RootOfPair(h, x, y);
    RootOfPair(h, h(x, y), h(z, z));
  }

  /** The branch of the first leaf, from the other leaves alone. */
  function Branch(h: Combine, others: seq<Hash>): seq<Hash>
    decreases |others|
  {
    if others == [] then [] else [others[0]] + Branch(h, Up(h, others[1..]))
  }

  function Fold(h: Combine, leaf: Hash, branch: seq<Hash>): Hash
    decreases |branch|
  {
    if branch == [] then leaf else Fold(h, h(leaf, branch[0]), branch[1..])
  }

  /** Folding any first leaf into the branch of the others gives the root of all of them in order. */
  lemma {:induction false} FoldOfBranchIsRoot(h: Combine, first: Hash, others: seq<Hash>)
    ensures Fold(h, first, Branch(h, others)) == Root(h, [first] + others)
    decreases |others|
  {
    if others != [] {
      var all, rest := [first] + others, Up(h, others[1..]);
      assert all[2..] == others[1..];
      assert Up(h, all) == [h(first, others[0])] + rest;
      assert Branch(h, others)[1..] == Branch(h, rest);
      FoldOfBranchIsRoot(h, h(first, others[0]), rest);
    } else {
      assert [first] + others == [first];
    }
  }
}
