/**
  The pointer tree (lib/net/blockhandler.go): nodes with links to their parents, a repeated last leaf when their
  number is odd, membership paths and verification.
*/
module MerkleTree {
  import opened Merkle
  import opened Results

  class Node {
    var parent: Node?
    const left: Node?
    const right: Node?
    const leaf: bool
    const dup: bool
    const hash: Bytes
    const content: Bytes

    constructor Leaf(hash: Bytes, content: Bytes, dup: bool)
      ensures parent == left == right == null && leaf && this.dup == dup
      ensures this.hash == hash && this.content == content
    {
      parent, left, right := null, null, null;
      leaf, this.dup, this.hash, this.content := true, dup, hash, content;
    }

    constructor Inner(left: Node, right: Node, hash: Bytes)
      ensures parent == null && this.left == left && this.right == right && !leaf && !dup && this.hash == hash
    {
      parent, this.left, this.right := null, left, right;
      leaf, dup, this.hash, content := false, false, hash, [];
    }
  }

  ghost predicate Distinct(level: seq<Node>) {
    forall i, j :: 0 <= i < j < |level| ==> level[i] != level[j]
  }

  /** n is the inner node number k over a level. */
  ghost predicate Over(lower: seq<Node>, n: Node, k: nat) {
    2 * k < |lower| && !n.leaf && n.left == lower[2 * k] && n.right == lower[Partner(2 * k, |lower|)]
  }

  ghost predicate Linked(lower: seq<Node>, upper: seq<Node>)
    reads lower
  {
    |lower| >= 2 && |upper| == (|lower| + 1) / 2 &&
    (forall j :: 0 <= j < |lower| ==> lower[j].parent == upper[j / 2]) &&
    (forall k :: 0 <= k < |upper| ==> Over(lower, upper[k], k))
  }

  /** The recorded hash of a node is that of its content or its children's hashes. */
  ghost predicate Hashed(H: Hash, n: Node) {
    if n.leaf then n.hash == H(n.content)
    else n.left != null && n.right != null && n.hash == H(n.left.hash + n.right.hash)
  }

  ghost predicate AllHashed(H: Hash, levels: seq<seq<Node>>) {
    forall k, i :: 0 <= k < |levels| && 0 <= i < |levels[k]| ==> Hashed(H, levels[k][i])
  }

  ghost function Nodes(levels: seq<seq<Node>>): set<Node> {
    set k, i | 0 <= k < |levels| && 0 <= i < |levels[k]| :: levels[k][i]
  }

  ghost predicate IsTop(level: seq<Node>)
    reads level
  {
    |level| == 1 && level[0].parent == null
  }

  /** The levels of a tree, from the leaves to the root. */
  ghost predicate Tower(levels: seq<seq<Node>>)
    reads Nodes(levels)
  {
    levels != [] && IsTop(levels[|levels| - 1]) &&
    forall k :: 0 <= k < |levels| - 1 ==> Linked(levels[k], levels[k + 1])
  }

  /** The first level are the leaves; that there are leaves nowhere else is part of Tower. */
  ghost predicate Shape(levels: seq<seq<Node>>)
    reads Nodes(levels)
  {
    Tower(levels) && forall n <- levels[0] :: n.leaf
  }

  function Contents(level: seq<Node>): (cs: seq<Bytes>)
    ensures |cs| == |level|
  {
    seq(|level|, i requires 0 <= i < |level| => level[i].content)
  }

  lemma IsOver(H: Hash, lower: seq<Node>, n: Node, k: nat, right: nat)
    requires 2 * k < |lower| && right == Partner(2 * k, |lower|)
    requires !n.leaf && n.left == lower[2 * k] && n.right == lower[right]
    requires n.hash == H(lower[2 * k].hash + lower[right].hash)
    ensures Over(lower, n, k) && Hashed(H, n)
  {
  }

  /** A node over every pair of a level, whose nodes get it as their parent. */
  method BuildLevel(H: Hash, nl: seq<Node>) returns (nodes: seq<Node>)
    requires |nl| >= 2 && Distinct(nl)
    modifies nl
    ensures Linked(nl, nodes) && Distinct(nodes)
    ensures forall k :: 0 <= k < |nodes| ==> Hashed(H, nodes[k])
    ensures fresh(nodes) && forall n <- nodes :: n.parent == null
  {
    hide Hashed;
    hide Over;
    nodes := [];
    var i := 0;
    while i < |nl|
      invariant 0 <= i <= |nl| + 1 && i == 2 * |nodes|
      invariant fresh(nodes) && forall n <- nodes :: n.parent == null
      invariant forall k :: 0 <= k < |nodes| ==> Over(nl, nodes[k], k) && Hashed(H, nodes[k])
      invariant forall j :: 0 <= j < i && j < |nl| ==> nl[j].parent == nodes[j / 2]
      invariant Distinct(nodes)
    {
      var left, right := i, i + 1;
      if i + 1 == |nl| {
        right := i;
      }
      var n := new Node.Inner(nl[left], nl[right], H(nl[left].hash + nl[right].hash));
      IsOver(H, nl, n, |nodes|, right);
      nodes := nodes + [n];
      nl[left].parent := n;
      nl[right].parent := n;
      i := i + 2;
    }
  }

  /**
    One level of inner nodes after the other, until there is one over a level of two. It ends for two or more
    nodes; a level of one would lead to another level of one.
  */
  method BuildIntermediate(H: Hash, nl: seq<Node>) returns (root: Node, ghost levels: seq<seq<Node>>)
    requires |nl| >= 2 && Distinct(nl) && forall n <- nl :: Hashed(H, n)
    modifies nl
    ensures Tower(levels) && levels[0] == nl && levels[|levels| - 1] == [root] && AllHashed(H, levels)
    ensures forall k, n :: 0 < k < |levels| && n in levels[k] ==> fresh(n)
    decreases |nl|
  {
    hide Hashed;
    hide AllHashed;
    hide Linked;
    hide Tower;
    var nodes := BuildLevel(H, nl);
    NextLevel(nl, nodes);
    if |nl| == 2 {
      levels := [nodes];
      TowerOfOne(H, nodes);
      root := nodes[0];
      assert nodes == [root];
    } else {
      root, levels := BuildIntermediate(H, nodes);
    }
    TowerOver(H, nl, levels);
    levels := [nl] + levels;
  }

  lemma NextLevel(lower: seq<Node>, upper: seq<Node>)
    requires Linked(lower, upper)
    ensures |upper| == (|lower| + 1) / 2
  {
  }

  lemma TowerOfOne(H: Hash, nodes: seq<Node>)
    requires IsTop(nodes) && Hashed(H, nodes[0])
    ensures Tower([nodes]) && AllHashed(H, [nodes])
  {
  }

  lemma TowerOver(H: Hash, lower: seq<Node>, levels: seq<seq<Node>>)
    requires Tower(levels) && Linked(lower, levels[0]) && AllHashed(H, levels) && forall n <- lower :: Hashed(H, n)
    ensures Tower([lower] + levels) && AllHashed(H, [lower] + levels)
    ensures levels != []
  {
    hide Linked;
    hide Hashed;
  }

  lemma ChildrenOf(levels: seq<seq<Node>>, k: nat, i: nat)
    requires Shape(levels) && k + 1 < |levels| && i < |levels[k + 1]|
    ensures Over(levels[k], levels[k + 1][i], i)
  {
    assert Linked(levels[k], levels[k + 1]);
  }

  lemma ParentOf(levels: seq<seq<Node>>, k: nat, i: nat)
    requires Shape(levels) && k < |levels| && i < |levels[k]|
    ensures k + 1 == |levels| ==> levels[k][i].parent == null
    ensures k + 1 < |levels| ==>
      var j := i / 2;
      j < |levels[k + 1]| && levels[k][i].parent == levels[k + 1][j] && Over(levels[k], levels[k + 1][j], j) &&
      (i == 2 * j || i == Partner(2 * j, |levels[k]|))
  {
    if k + 1 < |levels| {
      assert Linked(levels[k], levels[k + 1]);
    }
  }

  // ---------------------------------------------------------------------------------------
  // What the hashes are
  // ---------------------------------------------------------------------------------------

  /** The hashes of a level, computed from those of the leaves. */
  function Computed(H: Hash, hs: seq<Bytes>, k: nat): seq<Bytes> {
    if k == 0 then hs else Up(H, Computed(H, hs, k - 1))
  }

  /** Levels that are linked have the sizes of computed levels. */
  lemma {:induction false} ComputedSize(H: Hash, levels: seq<seq<Node>>, k: nat)
    requires Tower(levels) && k < |levels|
    ensures |Computed(H, LeafHashes(H, Contents(levels[0])), k)| == |levels[k]|
  {
    if k > 0 {
      ComputedSize(H, levels, k - 1);
      assert Linked(levels[k - 1], levels[k]);
    }
  }

  lemma {:induction false} ComputedRoot(H: Hash, hs: seq<Bytes>, k: nat)
    requires Computed(H, hs, k) != [] && forall j :: 0 <= j < k ==> |Computed(H, hs, j)| > 1
    ensures hs != [] && Root(H, Computed(H, hs, k)) == Root(H, hs)
  {
    if k > 0 {
      ComputedRoot(H, hs, k - 1);
    }
  }

  /** The hash computed at the top of a tower is the root of its leaf hashes. */
  lemma TopIsRoot(H: Hash, levels: seq<seq<Node>>)
    requires Tower(levels)
    ensures var hs := LeafHashes(H, Contents(levels[0]));
            hs != [] && Computed(H, hs, |levels| - 1) == [Root(H, hs)]
  {
    var hs := LeafHashes(H, Contents(levels[0]));
    forall k | 0 <= k < |levels| ensures |Computed(H, hs, k)| == |levels[k]| && (k + 1 < |levels| ==> |levels[k]| > 1) {
      ComputedSize(H, levels, k);
      assert k + 1 < |levels| ==> Linked(levels[k], levels[k + 1]);
    }
    ComputedRoot(H, hs, |levels| - 1);
  }

  /** When the recorded hashes are right they are the computed ones. */
  lemma {:induction false} RecordedIsComputed(H: Hash, levels: seq<seq<Node>>, k: nat, i: nat)
    requires Shape(levels) && AllHashed(H, levels) && k < |levels| && i < |levels[k]|
    ensures i < |Computed(H, LeafHashes(H, Contents(levels[0])), k)|
    ensures levels[k][i].hash == Computed(H, LeafHashes(H, Contents(levels[0])), k)[i]
  {
    var hs := LeafHashes(H, Contents(levels[0]));
    ComputedSize(H, levels, k);
    assert Hashed(H, levels[k][i]);
    if k > 0 {
      ChildrenOf(levels, k - 1, i);
      ComputedSize(H, levels, k - 1);
      var n := |levels[k - 1]|;
      RecordedIsComputed(H, levels, k - 1, 2 * i);
      RecordedIsComputed(H, levels, k - 1, Partner(2 * i, n));
      assert Computed(H, hs, k)[i] == UpAt(H, Computed(H, hs, k - 1), i);
    }
  }

  /** Leaf nodes for some contents, with the last one repeated if their number is odd, and the levels over them. */
  method BuildWithContent(H: Hash, cs: seq<Bytes>)
    returns (r: Option<(Node, seq<Node>)>, ghost levels: seq<seq<Node>>)
    ensures r.None? <==> cs == []
    ensures r.Some? ==>
      var (root, leafs) := r.value;
      && Shape(levels) && AllHashed(H, levels) && levels[0] == leafs && levels[|levels| - 1] == [root]
      && Contents(leafs) == Padded(cs)
      && forall k, n :: 0 <= k < |levels| && n in levels[k] ==> fresh(n)
  {
    if |cs| == 0 {
      return None, [];
    }
    var leafs: seq<Node> := [];
    for i := 0 to |cs|
      invariant |leafs| == i && fresh(leafs) && Distinct(leafs)
      invariant forall j :: 0 <= j < i ==> leafs[j].leaf && leafs[j].hash == H(cs[j]) && leafs[j].content == cs[j]
    {
      var leaf := new Node.Leaf(H(cs[i]), cs[i], false);
      leafs := leafs + [leaf];
    }
    if |leafs| % 2 == 1 {
      var last := leafs[|leafs| - 1];
      var duplicate := new Node.Leaf(last.hash, last.content, true);
      leafs := leafs + [duplicate];
    }
    assert Contents(leafs) == Padded(cs);
    hide Padded;
    hide Tower;
    hide AllHashed;
    var root;
    root, levels := BuildIntermediate(H, leafs);
    return Some((root, leafs)), levels;
  }

  /** The hash of a subtree from the contents of its leaves, whatever hashes are recorded in its nodes. */
  method VerifyNode(H: Hash, n: Node, ghost levels: seq<seq<Node>>, ghost k: nat, ghost i: nat) returns (h: Bytes)
    requires Shape(levels) && k < |levels| && i < |levels[k]| && n == levels[k][i]
    ensures var c := Computed(H, LeafHashes(H, Contents(levels[0])), k);
            i < |c| && h == c[i]
    decreases k
  {
    ComputedSize(H, levels, k);
    if k > 0 {
      ChildrenOf(levels, k - 1, i);
      ComputedSize(H, levels, k - 1);
    }
    if n.leaf {
      return H(n.content);
    }
    var rightBytes := VerifyNode(H, n.right, levels, k - 1, Partner(2 * i, |levels[k - 1]|));
    var leftBytes := VerifyNode(H, n.left, levels, k - 1, 2 * i);
    ghost var below := Computed(H, LeafHashes(H, Contents(levels[0])), k - 1);
    assert Up(H, below)[i] == UpAt(H, below, i);
    return H(leftBytes + rightBytes);
  }

  /** The hash of a node from its content, or from the hashes recorded in its children. */
  function CalculateNodeHash(H: Hash, n: Node): (h: Bytes)
    requires n.leaf || (n.left != null && n.right != null)
    ensures h == n.hash <==> Hashed(H, n)
  {
    if n.leaf then H(n.content) else H(n.left.hash + n.right.hash)
  }

  ghost predicate HasHash(n: Node?) {
    n != null && (n.leaf || (n.left != null && n.right != null))
  }

  /** Every node above node i of level k has the hash that its grandchildren's recorded hashes give. */
  ghost predicate PathHashed(H: Hash, levels: seq<seq<Node>>, k: nat, i: nat)
    decreases |levels| - k
  {
    k + 1 < |levels| && i / 2 < |levels[k + 1]| ==>
      var p := levels[k + 1][i / 2];
      HasHash(p.left) && HasHash(p.right) &&
      p.hash == H(CalculateNodeHash(H, p.left) + CalculateNodeHash(H, p.right)) && PathHashed(H, levels, k + 1, i / 2)
  }

  /** One step of the way up from a node. */
  lemma StepUp(H: Hash, levels: seq<seq<Node>>, k: nat, i: nat)
    requires Shape(levels) && k + 1 < |levels| && i < |levels[k]|
    ensures i / 2 < |levels[k + 1]|
    ensures
      var n, p := levels[k][i], levels[k + 1][i / 2];
      && n.parent == p && HasHash(p.left) && HasHash(p.right) && (n == p.left || n == p.right)
      && (PathHashed(H, levels, k, i) <==>
          && p.hash == H(CalculateNodeHash(H, p.left) + CalculateNodeHash(H, p.right))
          && PathHashed(H, levels, k + 1, i / 2))
  {
    ParentOf(levels, k, i);
    HasChildren(levels, k, 2 * (i / 2));
    HasChildren(levels, k, Partner(2 * (i / 2), |levels[k]|));
  }

  lemma HasChildren(levels: seq<seq<Node>>, k: nat, i: nat)
    requires Shape(levels) && k < |levels| && i < |levels[k]|
    ensures HasHash(levels[k][i])
  {
    if k > 0 {
      ChildrenOf(levels, k - 1, i);
    }
  }

  /** The top has no parent, and it alone. */
  lemma OnlyTop(levels: seq<seq<Node>>, k: nat, i: nat)
    requires Shape(levels) && k < |levels| && i < |levels[k]|
    ensures levels[k][i].parent == null <==> k + 1 == |levels|
  {
    ParentOf(levels, k, i);
  }

  lemma NothingAbove(H: Hash, levels: seq<seq<Node>>, k: nat, i: nat)
    requires k + 1 == |levels|
    ensures PathHashed(H, levels, k, i) && forall h :: Critical(H, levels, k, i, h) == h
  {
  }

  /** When the recorded hashes are right, every path is. */
  lemma {:induction false} PathsHashed(H: Hash, levels: seq<seq<Node>>, k: nat, i: nat)
    requires Shape(levels) && AllHashed(H, levels) && k < |levels| && i < |levels[k]|
    ensures PathHashed(H, levels, k, i)
    decreases |levels| - k
  {
    if k + 1 == |levels| {
      NothingAbove(H, levels, k, i);
    } else {
      StepUp(H, levels, k, i);
      var p := levels[k + 1][i / 2];
      ParentOf(levels, k, i);
      assert Hashed(H, p);
      assert Hashed(H, levels[k][2 * (i / 2)]) && Hashed(H, levels[k][Partner(2 * (i / 2), |levels[k]|)]);
      PathsHashed(H, levels, k + 1, i / 2);
      hide PathHashed;
      hide Shape;
    }
  }

  // What the comment on VerifyContent describes, for the path from node i of level k to the root.

  /** The root hash calculated from h with the hashes recorded beside the path. */
  ghost function Critical(H: Hash, levels: seq<seq<Node>>, k: nat, i: nat, h: Bytes): Bytes
    decreases |levels| - k
  {
    if k + 1 < |levels| && i < |levels[k]| && i / 2 < |levels[k + 1]| then
      var p := levels[k + 1][i / 2];
      if p.left == null || p.right == null then h
      else Critical(H, levels, k + 1, i / 2, if p.left == levels[k][i] then H(h + p.right.hash) else H(p.left.hash + h))
    else h
  }

  /** The hashes recorded on and beside the path, below the root, are right. */
  ghost predicate Recorded(H: Hash, levels: seq<seq<Node>>, k: nat, i: nat)
    decreases |levels| - k
  {
    k + 1 < |levels| && i / 2 < |levels[k + 1]| ==>
      var p := levels[k + 1][i / 2];
      p.left != null && p.right != null && Hashed(H, p.left) && Hashed(H, p.right) && Recorded(H, levels, k + 1, i / 2)
  }

  /** The definitions of Critical and Recorded for one step. */
  lemma CriticalStep(H: Hash, levels: seq<seq<Node>>, k: nat, i: nat)
    requires Shape(levels) && k + 1 < |levels| && i < |levels[k]|
    ensures i / 2 < |levels[k + 1]|
    ensures
      var n, p := levels[k][i], levels[k + 1][i / 2];
      && !p.leaf && p.left != null && p.right != null
      && (Recorded(H, levels, k, i) ==>
          && Hashed(H, n) && Hashed(H, p.left) && Hashed(H, p.right) && Recorded(H, levels, k + 1, i / 2)
          && Critical(H, levels, k, i, n.hash) == Critical(H, levels, k + 1, i / 2, H(p.left.hash + p.right.hash)))
  {
    StepUp(H, levels, k, i);
    ParentOf(levels, k, i);
  }

  /** With the right hashes recorded below it, the root's own hash decides. */
  lemma {:induction false} RootDecides(H: Hash, levels: seq<seq<Node>>, k: nat, i: nat)
    requires Shape(levels) && Recorded(H, levels, k, i) && k < |levels| && i < |levels[k]|
    ensures var top := levels[|levels| - 1][0];
            && (PathHashed(H, levels, k, i) <==> Critical(H, levels, k, i, levels[k][i].hash) == top.hash)
            && (k + 1 < |levels| ==> (PathHashed(H, levels, k, i) <==> Hashed(H, top)))
    decreases |levels| - k
  {
    hide Linked;
    hide PathHashed;
    hide Recorded;
    hide Critical;
    if k + 1 == |levels| {
      NothingAbove(H, levels, k, i);
    } else {
      StepUp(H, levels, k, i);
      CriticalStep(H, levels, k, i);
      RootDecides(H, levels, k + 1, i / 2);
      if k + 2 < |levels| {
        CriticalStep(H, levels, k + 1, i / 2);
      } else {
        NothingAbove(H, levels, k + 1, i / 2);
      }
    }
  }

  /** The first leaf with a content. */
  ghost function FirstLeaf(leafs: seq<Node>, content: Bytes): (i: nat)
    requires content in Contents(leafs)
    ensures i < |leafs| && leafs[i].content == content
    ensures forall j :: 0 <= j < i ==> leafs[j].content != content
  {
    if leafs[0].content == content then 0
    else
      assert Contents(leafs) == [leafs[0].content] + Contents(leafs[1..]);
      1 + FirstLeaf(leafs[1..], content)
  }

  class Tree {
    const H: Hash
    var root: Node
    var merkleRoot: Bytes
    var leafs: seq<Node>
    ghost var levels: seq<seq<Node>>

    /** The nodes are linked as they should be; nothing is said about hashes. */
    ghost predicate WellLinked()
      reads this, Nodes(levels)
    {
      levels != [] && Shape(levels) && levels[0] == leafs && levels[|levels| - 1] == [root]
    }

    /** All hashes are those of a tree that was built from its leaves. */
    ghost predicate Valid()
      reads this, Nodes(levels)
    {
      WellLinked() && AllHashed(H, levels) && merkleRoot == root.hash && leafs != [] && |leafs| % 2 == 0
    }

    ghost function LeafRoot(): Bytes
      requires leafs != []
      reads this
    {
      Root(H, LeafHashes(H, Contents(leafs)))
    }

    lemma RecordedRoot()
      requires Valid()
      ensures merkleRoot == LeafRoot()
    {
      TopIsRoot(H, levels);
      RecordedIsComputed(H, levels, |levels| - 1, 0);
    }

    constructor (H: Hash, root: Node, leafs: seq<Node>, ghost levels: seq<seq<Node>>)
      ensures this.H == H && this.root == root && this.leafs == leafs && merkleRoot == root.hash
      ensures this.levels == levels
    {
      this.H, this.root, this.leafs, this.merkleRoot, this.levels := H, root, leafs, root.hash, levels;
    }

    /** Puts a tree of other contents in the place of this one, unless there are none. */
    method RebuildTreeWith(cs: seq<Bytes>) returns (ok: bool)
      requires Valid()
      modifies this
      ensures Valid() && ok == (cs != [])
      ensures Contents(leafs) == if ok then Padded(cs) else old(Contents(leafs))
      ensures merkleRoot == LeafRoot()
    {
      var r, ls := BuildWithContent(H, cs);
      if r.Some? {
        root, leafs, merkleRoot, levels := r.value.0, r.value.1, r.value.0.hash, ls;
      }
      RecordedRoot();
      return r.Some?;
    }

    /** Builds the tree again from the contents of its leaves: new nodes, but the same root. */
    method RebuildTree() returns (ok: bool)
      requires Valid()
      modifies this
      ensures Valid() && ok && merkleRoot == old(merkleRoot) && Contents(leafs) == old(Contents(leafs))
    {
      RecordedRoot();
      var cs: seq<Bytes> := [];
      var i := 0;
      while i < |leafs|
        invariant 0 <= i <= |leafs| && cs == Contents(leafs)[..i] && unchanged(this)
      {
        cs := cs + [leafs[i].content];
        i := i + 1;
      }
      assert cs == Contents(leafs);
      ok := RebuildTreeWith(cs);
    }

    /** Tells whether the recorded root is the root of the contents, whatever is recorded in between. */
    method VerifyTree() returns (ok: bool)
      requires WellLinked()
      ensures leafs != [] && ok == (merkleRoot == LeafRoot())
    {
      var calculated := VerifyNode(H, root, levels, |levels| - 1, 0);
      TopIsRoot(H, levels);
      return merkleRoot == calculated;
    }

    /** In a tree as it was built, that is any leaf's content. */
    lemma ContentVerifies(content: Bytes)
      requires Valid() && content in Contents(leafs)
      ensures PathHashed(H, levels, 0, FirstLeaf(leafs, content))
    {
      PathsHashed(H, levels, 0, FirstLeaf(leafs, content));
    }

    /** Tells whether there is a leaf with the content whose ancestors all have the right hashes. */
    method VerifyContent(content: Bytes) returns (ok: bool)
      requires WellLinked()
      ensures ok <==> content in Contents(leafs) && PathHashed(H, levels, 0, FirstLeaf(leafs, content))
    {
      hide Shape;
      hide PathHashed;
      hide CalculateNodeHash;
      hide Hashed;
      var n := 0;
      while n < |leafs|
        invariant 0 <= n <= |leafs| && forall j :: 0 <= j < n ==> leafs[j].content != content
      {
        if leafs[n].content == content {
          IsFirst(leafs, content, n);
          ok := VerifyAbove(n);
          return;
        }
        n := n + 1;
      }
      return false;
    }

    /**
      What the comment describes for a leaf: its hash and those recorded on and beside its path are right, and the
      root calculated along the path is the expected one.
    */
    ghost predicate Documented(n: nat)
      requires WellLinked() && n < |leafs|
      reads this, Nodes(levels)
    {
      && Hashed(H, leafs[n]) && Recorded(H, levels, 0, n) && Hashed(H, root)
      && Critical(H, levels, 0, n, H(leafs[n].content)) == merkleRoot
    }

    /** The comparisons that the code leaves out: recorded with calculated hashes, and the two roots. */
    ghost predicate Compared(n: nat)
      requires WellLinked() && n < |leafs|
      reads this, Nodes(levels)
    {
      Hashed(H, leafs[n]) && Recorded(H, levels, 0, n) && merkleRoot == root.hash
    }

    /**
      What is documented is never missed, and a leaf that verifies is as documented exactly when the comparisons
      hold that the code leaves out. If they do, the answer is whether the calculated root is the expected one.
    */
    lemma WhenVerifyContentIsRight(n: nat)
      requires WellLinked() && n < |leafs|
      ensures Documented(n) ==> PathHashed(H, levels, 0, n)
      ensures PathHashed(H, levels, 0, n) ==> (Documented(n) <==> Compared(n))
      ensures Compared(n) ==>
        (PathHashed(H, levels, 0, n) <==> Critical(H, levels, 0, n, H(leafs[n].content)) == merkleRoot)
    {
      if Recorded(H, levels, 0, n) {
        RootDecides(H, levels, 0, n);
      }
    }

    method VerifyAbove(n: nat) returns (ok: bool)
      requires WellLinked() && n < |leafs|
      ensures ok == PathHashed(H, levels, 0, n)
    {
      hide Linked;
      hide IsTop;
      hide PathHashed;
      hide CalculateNodeHash;
      hide Hashed;
      var currentParent := leafs[n].parent;
      ghost var k: nat, i: nat := 0, n;
      OnlyTop(levels, k, i);
      while currentParent != null
        invariant k < |levels| && i < |levels[k]| && currentParent == levels[k][i].parent
        invariant k + 1 == |levels| <==> currentParent == null
        invariant PathHashed(H, levels, 0, n) == PathHashed(H, levels, k, i)
        decreases |levels| - k
      {
        StepUp(H, levels, k, i);
        var rightBytes := CalculateNodeHash(H, currentParent.right);
        var leftBytes := CalculateNodeHash(H, currentParent.left);
        if H(leftBytes + rightBytes) != currentParent.hash {
          return false;
        }
        k, i := k + 1, i / 2;
        OnlyTop(levels, k, i);
        currentParent := currentParent.parent;
      }
      NothingAbove(H, levels, k, i);
      return true;
    }

    /**
      The hashes beside the way from a leaf to the root lead from its content to the recorded root, and the index says
      on which side they stand.
    */
    method GetMerklePath(content: Bytes) returns (r: Option<(seq<Bytes>, seq<int>)>)
      requires Valid()
      ensures r.Some? <==> content in Contents(leafs)
      ensures r.Some? ==> |r.value.0| == |r.value.1| && Fold(H, H(content), r.value.0, r.value.1) == merkleRoot
      ensures r.Some? ==> BesideTheWay(levels, FirstLeaf(leafs, content), r.value.0, r.value.1)
      ensures r.Some? ==> |r.value.0| + 1 == |levels|
    {
      hide Shape;
      hide BesideTheWay;
      hide Fold;
      var n := 0;
      while n < |leafs|
        invariant 0 <= n <= |leafs| && forall j :: 0 <= j < n ==> leafs[j].content != content
      {
        if leafs[n].content == content {
          IsFirst(leafs, content, n);
          var path, index := PathAbove(n);
          return Some((path, index));
        }
        n := n + 1;
      }
      return None;
    }

    method PathAbove(n: nat) returns (merklePath: seq<Bytes>, index: seq<int>)
      requires Valid() && n < |leafs|
      ensures |merklePath| == |index| && Fold(H, H(leafs[n].content), merklePath, index) == merkleRoot
      ensures BesideTheWay(levels, n, merklePath, index) && |merklePath| + 1 == |levels|
    {
      hide Linked;
      hide Beside;
      hide IsTop;
      hide Fold;
      hide Step;
      hide AllHashed;
      hide Hashed;
      var current: Node, currentParent := leafs[n], leafs[n].parent;
      merklePath, index := [], [];
      ghost var h := H(leafs[n].content);
      ghost var k: nat, i: nat := 0, n;
      FirstIsLeaf(H, levels, n);
      NoStep(H, h);
      OnlyTop(levels, k, i);
      while currentParent != null
        invariant k < |levels| && i < |levels[k]| && current == levels[k][i] && currentParent == current.parent
        invariant k + 1 == |levels| <==> currentParent == null
        invariant |merklePath| == |index| && Fold(H, h, merklePath, index) == current.hash
        invariant |index| == k && i == Above(n, k) && BesideTheWay(levels, n, merklePath, index)
        decreases |levels| - k
      {
        SidesOf(levels, k, i);
        ParentHash(H, levels, k, i);
        OneMoreStep(H, h, merklePath, index, currentParent.right.hash, 1);
        OneMoreStep(H, h, merklePath, index, currentParent.left.hash, 0);
        if currentParent.left.hash == current.hash {
          merklePath := merklePath + [currentParent.right.hash];
          index := index + [1];
        } else {
          merklePath := merklePath + [currentParent.left.hash];
          index := index + [0];
        }
        k, i := k + 1, i / 2;
        OnlyTop(levels, k, i);
        current := currentParent;
        currentParent := currentParent.parent;
      }
    }
  }

  /** The place of the node that many levels above a leaf. */
  function Above(n: nat, levels: nat): nat {
    if levels == 0 then n else Above(n, levels - 1) / 2
  }

  /**
    The other child beside node i of a level, and its side: 1 beside a left child, 0 beside a right one, and 1 also
    where both have the same hash.
  */
  ghost predicate Beside(levels: seq<seq<Node>>, k: nat, i: nat, sibling: Bytes, ix: int) {
    && k < |levels| && i < |levels[k]|
    && var left, right := levels[k][2 * (i / 2)], levels[k][Partner(2 * (i / 2), |levels[k]|)];
    && ix == (if i % 2 == 0 || left.hash == right.hash then 1 else 0)
    && sibling == (if ix == 1 then right.hash else left.hash)
  }

  ghost predicate BesideTheWay(levels: seq<seq<Node>>, n: nat, path: seq<Bytes>, index: seq<int>)
    requires |path| == |index|
  {
    forall k :: 0 <= k < |index| ==> Beside(levels, k, Above(n, k), path[k], index[k])
  }

  lemma SidesOf(levels: seq<seq<Node>>, k: nat, i: nat)
    requires Shape(levels) && k + 1 < |levels| && i < |levels[k]|
    ensures
      var n := levels[k][i];
      && n.parent != null && n.parent.left != null && n.parent.right != null
      && if n.parent.left.hash == n.hash then Beside(levels, k, i, n.parent.right.hash, 1)
         else Beside(levels, k, i, n.parent.left.hash, 0)
  {
    hide Shape;
    ParentOf(levels, k, i);
    var j := i / 2;
    assert i % 2 == 0 <==> i == 2 * j;
  }

  /** The hash of a parent is a step of a path from either child. */
  lemma ParentHash(H: Hash, levels: seq<seq<Node>>, k: nat, i: nat)
    requires Shape(levels) && AllHashed(H, levels) && k + 1 < |levels| && i < |levels[k]|
    ensures i / 2 < |levels[k + 1]|
    ensures
      var n, p := levels[k][i], levels[k + 1][i / 2];
      && n.parent == p && p.left != null && p.right != null
      && p.hash == if p.left.hash == n.hash then Step(H, n.hash, p.right.hash, 1) else Step(H, n.hash, p.left.hash, 0)
  {
    StepUp(H, levels, k, i);
    assert Hashed(H, levels[k + 1][i / 2]);
  }

  lemma IsFirst(leafs: seq<Node>, content: Bytes, n: nat)
    requires n < |leafs| && leafs[n].content == content && forall j :: 0 <= j < n ==> leafs[j].content != content
    ensures content in Contents(leafs) && FirstLeaf(leafs, content) == n
  {
    assert Contents(leafs)[n] == content;
  }

  lemma FirstIsLeaf(H: Hash, levels: seq<seq<Node>>, n: nat)
    requires Shape(levels) && AllHashed(H, levels) && n < |levels[0]|
    ensures levels[0][n].hash == H(levels[0][n].content)
  {
    assert Hashed(H, levels[0][n]);
  }

  lemma OneMoreStep(H: Hash, h: Bytes, path: seq<Bytes>, index: seq<int>, sibling: Bytes, ix: int)
    requires |path| == |index|
    ensures Fold(H, h, path + [sibling], index + [ix]) == Step(H, Fold(H, h, path, index), sibling, ix)
  {
    assert (path + [sibling])[..|path|] == path && (index + [ix])[..|path|] == index;
  }

  /** A tree for some contents, or none when there are none. */
  method NewTree(H: Hash, cs: seq<Bytes>) returns (t: Tree?)
    ensures t == null <==> cs == []
    ensures t != null ==> fresh(t) && t.Valid() && t.H == H && Contents(t.leafs) == Padded(cs)
    ensures t != null ==> t.merkleRoot == Root(H, LeafHashes(H, Padded(cs)))
  {
    var r, levels := BuildWithContent(H, cs);
    if r.None? {
      return null;
    }
    t := new Tree(H, r.value.0, r.value.1, levels);
    t.RecordedRoot();
  }

  /** A tree with a wrong expected root, in which contents verify all the same. */
  method WrongRootVerifies(H: Hash, a: Bytes, b: Bytes, wrong: Bytes) returns (t: Tree, ok: bool)
    requires wrong != Root(H, LeafHashes(H, [a, b]))
    ensures fresh(t) && t.WellLinked() && t.merkleRoot == wrong && Contents(t.leafs) == [a, b]
    ensures ok && !t.Documented(0)
  {
    var built := NewTree(H, [a, b]);
    t := built;
    assert Padded([a, b]) == [a, b];
    assert Contents(t.leafs)[0] == t.leafs[0].content == a;
    t.ContentVerifies(a);
    assert FirstLeaf(t.leafs, a) == 0;
    t.merkleRoot := wrong;
    t.WhenVerifyContentIsRight(0);
    ok := t.VerifyContent(a);
  }

  /** The builders agree on the root of two or more leaves, and for a single one only by accident. */
  lemma BuildersAgree(H: Hash, data: seq<Bytes>)
    requires data != []
    ensures Root(H, LeafHashes(H, Padded(data))) == Root(H, LeafHashes(H, data))
       <==> |data| >= 2 || H(H(data[0]) + H(data[0])) == H(data[0])
  {
    var hs := LeafHashes(H, data);
    assert LeafHashes(H, Padded(data)) == Padded(hs);
    if |data| >= 2 {
      PaddedRoot(H, hs);
    } else {
      assert hs == [H(data[0])];
      SingleLeaf(H, H(data[0]));
    }
  }
}
