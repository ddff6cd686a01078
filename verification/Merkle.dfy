/**
  Merkle trees over lists of byte strings: the root as a function of the leaf hashes, membership paths, and the
  builder that works level by level (common/merkle_tree.go). The hash function is a parameter.
*/
module Merkle {
  import opened Bits
  import opened Results

  type Bytes = seq<Byte>
  type Hash = Bytes -> Bytes

  /** The second node of the pair that starts at j: the next one, or the same when there is none. */
  function Partner(j: nat, n: nat): nat {
    if j + 1 < n then j + 1 else j
  }

  /** The hashes of one level up. */
  function Up(H: Hash, hs: seq<Bytes>): (u: seq<Bytes>)
    ensures |u| == (|hs| + 1) / 2
  {
    seq((|hs| + 1) / 2, k requires 0 <= k < (|hs| + 1) / 2 => UpAt(H, hs, k))
  }

  /** What is hashed for node k of the level above. */
  function Pair(hs: seq<Bytes>, k: nat): Bytes
    requires 2 * k < |hs|
  {
    hs[2 * k] + hs[Partner(2 * k, |hs|)]
  }

  function UpAt(H: Hash, hs: seq<Bytes>, k: nat): Bytes
    requires 2 * k < |hs|
  {
    H(Pair(hs, k))
  }

  function Root(H: Hash, hs: seq<Bytes>): Bytes
    requires hs != []
    decreases |hs|
  {
    if |hs| == 1 then hs[0] else Root(H, Up(H, hs))
  }

  function LeafHashes(H: Hash, data: seq<Bytes>): (hs: seq<Bytes>)
    ensures |hs| == |data|
  {
    seq(|data|, i requires 0 <= i < |data| => H(data[i]))
  }

  /** The list with its last element repeated if its length is odd. */
  function Padded<T>(s: seq<T>): (p: seq<T>)
    ensures s != [] ==> p != [] && |p| % 2 == 0
  {
    if |s| % 2 == 1 then s + [s[|s| - 1]] else s
  }

  /** Repeating an odd last leaf changes nothing further up. */
  lemma PaddedRoot(H: Hash, hs: seq<Bytes>)
    requires |hs| >= 2
    ensures Root(H, Padded(hs)) == Root(H, hs)
  {
    PaddedUp(H, hs);
    hide Up;
  }

  lemma PaddedUp(H: Hash, hs: seq<Bytes>)
    ensures Up(H, Padded(hs)) == Up(H, hs)
  {
    var ps := Padded(hs);
    forall k: nat | 2 * k < |hs| ensures UpAt(H, ps, k) == UpAt(H, hs, k) {
      assert ps[2 * k] == hs[2 * k];
      assert ps[Partner(2 * k, |ps|)] == hs[Partner(2 * k, |hs|)];
    }
    hide UpAt;
  }

  /** A single leaf is its own root, but not when it is repeated. */
  lemma SingleLeaf(H: Hash, h: Bytes)
    ensures Root(H, [h]) == h && Root(H, Padded([h])) == H(h + h)
  {
    assert Padded([h]) == [h, h];
    assert UpAt(H, [h, h], 0) == H(h + h);
    assert Up(H, [h, h]) == [H(h + h)];
  }

  /** Pairs are hashed in their order, and on every level the last node without a partner is its own. */
  lemma RootOfFive(H: Hash, a: Bytes, b: Bytes, c: Bytes, d: Bytes, e: Bytes)
    ensures Root(H, [a, b, c, d, e]) == H(H(H(a + b) + H(c + d)) + H(H(e + e) + H(e + e)))
  {
    var u, ee := [H(a + b), H(c + d), H(e + e)], H(H(e + e) + H(e + e));
    assert Up(H, [a, b, c, d, e]) == u;
    var v := [H(H(a + b) + H(c + d)), ee];
    assert Up(H, u) == v;
    assert Up(H, v) == [H(v[0] + v[1])];
    assert Root(H, u) == Root(H, v) == Root(H, Up(H, v));
  }

  // ---------------------------------------------------------------------------------------
  // Membership paths
  // ---------------------------------------------------------------------------------------

  /** What is hashed in a step of a path: the sibling stands on the right if the index is one, else on the left. */
  function Joined(h: Bytes, sibling: Bytes, index: int): Bytes {
    if index == 1 then h + sibling else sibling + h
  }

  function Step(H: Hash, h: Bytes, sibling: Bytes, index: int): Bytes {
    H(Joined(h, sibling, index))
  }

  function Fold(H: Hash, h: Bytes, path: seq<Bytes>, index: seq<int>): Bytes
    requires |path| == |index|
  {
    if path == [] then h
    else
      var n := |path| - 1;
      Step(H, Fold(H, h, path[..n], index[..n]), path[n], index[n])
  }

  /** Two different strings with the same hash. */
  predicate Collide(H: Hash, x: Bytes, y: Bytes) {
    x != y && H(x) == H(y)
  }

  ghost predicate Fixed(H: Hash, size: nat) {
    forall x :: |H(x)| == size
  }

  /** In some step, two paths of the same shape hash different strings to the same hash. */
  predicate PathsCollide(H: Hash, h: Bytes, g: Bytes, path: seq<Bytes>, other: seq<Bytes>, index: seq<int>)
    requires |path| == |other| == |index|
  {
    path != [] &&
    var n := |path| - 1;
    var a, b := Fold(H, h, path[..n], index[..n]), Fold(H, g, other[..n], index[..n]);
    Collide(H, Joined(a, path[n], index[n]), Joined(b, other[n], index[n])) ||
    PathsCollide(H, h, g, path[..n], other[..n], index[..n])
  }

  /** Two paths of the same shape to the same root are the same, or the collision is in one of their steps. */
  lemma {:induction false} PathBinds(H: Hash, size: nat, h: Bytes, g: Bytes, path: seq<Bytes>, other: seq<Bytes>,
                                     index: seq<int>)
    requires Fixed(H, size) && |h| == |g| == size && |path| == |other| == |index|
    requires forall s <- path :: |s| == size
    requires forall s <- other :: |s| == size
    requires Fold(H, h, path, index) == Fold(H, g, other, index)
    ensures (h == g && path == other) || PathsCollide(H, h, g, path, other, index)
    decreases |path|
  {
    hide Fold;
    hide Fixed;
    hide Joined;
    NoStep(H, h);
    NoStep(H, g);
    if path != [] {
      var n := |path| - 1;
      var a, b := Fold(H, h, path[..n], index[..n]), Fold(H, g, other[..n], index[..n]);
      LastStep(H, h, path, index);
      LastStep(H, g, other, index);
      FoldSize(H, size, h, path[..n], index[..n]);
      FoldSize(H, size, g, other[..n], index[..n]);
      if Joined(a, path[n], index[n]) == Joined(b, other[n], index[n]) {
        JoinedBinds(a, b, path[n], other[n], index[n]);
      }
      if a == b && path[n] == other[n] {
        PathBinds(H, size, h, g, path[..n], other[..n], index[..n]);
        assert path == path[..n] + [path[n]] && other == other[..n] + [other[n]];
      }
    }
  }

  lemma NoStep(H: Hash, h: Bytes)
    ensures Fold(H, h, [], []) == h
  {
  }

  lemma LastStep(H: Hash, h: Bytes, path: seq<Bytes>, index: seq<int>)
    requires |path| == |index| > 0
    ensures var n := |path| - 1;
            Fold(H, h, path, index) == Step(H, Fold(H, h, path[..n], index[..n]), path[n], index[n])
  {
  }

  lemma JoinedBinds(a: Bytes, b: Bytes, p: Bytes, q: Bytes, index: int)
    requires |a| == |b| && |p| == |q| && Joined(a, p, index) == Joined(b, q, index)
    ensures a == b && p == q
  {
    if index == 1 {
      Halves(a, p, b, q);
    } else {
      Halves(p, a, q, b);
    }
  }

  lemma FoldSize(H: Hash, size: nat, h: Bytes, path: seq<Bytes>, index: seq<int>)
    requires Fixed(H, size) && |h| == size && |path| == |index|
    ensures |Fold(H, h, path, index)| == size
  {
  }

  lemma Halves(a: Bytes, b: Bytes, c: Bytes, d: Bytes)
    requires |a| == |c| && a + b == c + d
    ensures a == c && b == d
  {
    assert a == (a + b)[..|a|] && b == (a + b)[|a|..];
    assert c == (c + d)[..|c|] && d == (c + d)[|c|..];
  }

  /** Somewhere in the trees over two lists, different strings are hashed at the same place to the same hash. */
  ghost predicate TreesCollide(H: Hash, hs: seq<Bytes>, gs: seq<Bytes>)
    requires |hs| == |gs|
    decreases |hs|
  {
    |hs| > 1 &&
    ((exists k: nat :: 2 * k < |hs| && Collide(H, Pair(hs, k), Pair(gs, k))) ||
     TreesCollide(H, Up(H, hs), Up(H, gs)))
  }

  /** Equally many leaves with the same root are the same leaves, or the collision is in their trees. */
  lemma {:induction false} RootBinds(H: Hash, size: nat, hs: seq<Bytes>, gs: seq<Bytes>)
    requires Fixed(H, size) && |hs| == |gs| > 0 && Root(H, hs) == Root(H, gs)
    requires forall h <- hs :: |h| == size
    requires forall g <- gs :: |g| == size
    ensures hs == gs || TreesCollide(H, hs, gs)
    decreases |hs|
  {
    hide UpAt;
    hide Pair;
    if |hs| == 1 {
      assert hs == [hs[0]] && gs == [gs[0]];
    } else {
      UpSize(H, size, hs);
      UpSize(H, size, gs);
      RootBinds(H, size, Up(H, hs), Up(H, gs));
      if Up(H, hs) == Up(H, gs) && !TreesCollide(H, hs, gs) {
        forall i | 0 <= i < |hs| ensures hs[i] == gs[i] {
          PairBinds(H, hs, gs, i);
        }
      }
    }
  }

  lemma UpSize(H: Hash, size: nat, hs: seq<Bytes>)
    requires Fixed(H, size)
    ensures forall u <- Up(H, hs) :: |u| == size
  {
  }

  lemma PairBinds(H: Hash, hs: seq<Bytes>, gs: seq<Bytes>, i: nat)
    requires |hs| == |gs| && i < |hs| && Up(H, hs) == Up(H, gs)
    requires forall j :: 0 <= j < |hs| ==> |hs[j]| == |gs[j]|
    ensures hs[i] == gs[i] || Collide(H, Pair(hs, i / 2), Pair(gs, i / 2))
  {
    var j := 2 * (i / 2);
    var k := Partner(j, |hs|);
    assert Up(H, hs)[i / 2] == UpAt(H, hs, i / 2) && Up(H, gs)[i / 2] == UpAt(H, gs, i / 2);
    if hs[j] + hs[k] == gs[j] + gs[k] {
      Halves(hs[j], hs[k], gs[j], gs[k]);
    }
  }

  /** Without the same number of leaves the root does not tell the leaves apart. */
  lemma RootDoesNotBindLength(H: Hash, a: Bytes, b: Bytes, c: Bytes)
    ensures Root(H, [a, b, c]) == Root(H, [a, b, c, c]) && [a, b, c] != [a, b, c, c]
  {
    assert Padded([a, b, c]) == [a, b, c, c];
    PaddedRoot(H, [a, b, c]);
  }

  // ---------------------------------------------------------------------------------------
  // The builder that works level by level
  // ---------------------------------------------------------------------------------------

  datatype MerkleNode = MerkleNode(left: Option<MerkleNode>, right: Option<MerkleNode>, data: Bytes)

  method NewMerkleNode(H: Hash, left: Option<MerkleNode>, right: Option<MerkleNode>, data: Bytes)
    returns (node: MerkleNode)
    requires left.Some? <==> right.Some?
    ensures node.left == left && node.right == right
    ensures node.data == if left.None? then H(data) else H(left.value.data + right.value.data)
  {
    if left.None? && right.None? {
      return MerkleNode(left, right, H(data));
    }
    return MerkleNode(left, right, H(left.value.data + right.value.data));
  }


  /** Every inner node has the hash of its children's hashes. */
  predicate WellHashed(H: Hash, node: MerkleNode) {
    match (node.left, node.right)
    case (None, None) => true
    case (Some(l), Some(r)) => node.data == H(l.data + r.data) && WellHashed(H, l) && WellHashed(H, r)
    case _ => false
  }

  method NewMerkleTree(H: Hash, data: seq<Bytes>) returns (root: MerkleNode)
    ensures root.data == if data == [] then H([]) else Root(H, LeafHashes(H, data))
    ensures WellHashed(H, root)
  {
    if |data| == 0 {
      root := NewMerkleNode(H, None, None, []);
      return;
    }
    var nodes: seq<MerkleNode> := [];
    var i := 0;
    while i < |data|
      invariant 0 <= i <= |data| == i + (|data| - |nodes|)
      invariant forall j :: 0 <= j < i ==> nodes[j] == MerkleNode(None, None, H(data[j]))
    {
      var node := NewMerkleNode(H, None, None, data[i]);
      nodes := nodes + [node];
      i := i + 1;
    }
    assert Datas(nodes) == LeafHashes(H, data);
    while |nodes| != 1
      invariant nodes != [] && Root(H, Datas(nodes)) == Root(H, LeafHashes(H, data))
      invariant forall n <- nodes :: WellHashed(H, n)
      decreases |nodes|
    {
      var newLevel: seq<MerkleNode> := [];
      var j := 0;
      while j < |nodes|
        invariant 0 <= j <= |nodes| + 1 && j == 2 * |newLevel|
        invariant forall k :: 0 <= k < |newLevel| ==>
          var l, r := nodes[2 * k], nodes[Partner(2 * k, |nodes|)];
          newLevel[k] == MerkleNode(Some(l), Some(r), H(l.data + r.data))
      {
        var node;
        if j + 1 == |nodes| {
          node := NewMerkleNode(H, Some(nodes[j]), Some(nodes[j]), []);
        } else {
          node := NewMerkleNode(H, Some(nodes[j]), Some(nodes[j + 1]), []);
        }
        newLevel := newLevel + [node];
        j := j + 2;
      }
      assert Datas(newLevel) == Up(H, Datas(nodes));
      nodes := newLevel;
    }
    return nodes[0];
  }

  function Datas(nodes: seq<MerkleNode>): (d: seq<Bytes>)
    ensures |d| == |nodes|
  {
    seq(|nodes|, i requires 0 <= i < |nodes| => nodes[i].data)
  }
}
