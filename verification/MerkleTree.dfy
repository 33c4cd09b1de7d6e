/**
 RFC 6962 Merkle trees (sections 2.1 and 2.1.1) and the inclusion verifier of
 section 2.1.3.2 of RFC 9162, over arbitrary leaf and node hash functions.

 The tree hash and the audit path are built top-down by splitting at a power of
 two; the verifier walks bottom-up by shifting indices. `PairUp`, which hashes one
 level of the tree, is what relates the two directions.
 */
module MerkleTree {
  import opened Primitives

  /** The two hash functions of the tree; `H` is the type of hashes. */
  datatype Hasher<!H> = Hasher(leaf: Bytes -> H, node: (H, H) -> H)

  // ----- the split point -----

  predicate PowerOf2(p: nat) {
    p == 1 || (p >= 2 && p % 2 == 0 && PowerOf2(p / 2))
  }

  /** The largest power of two below `n`. */
  function Split(n: nat): (k: nat)
    requires n >= 2
    ensures k < n <= 2 * k
  {
    if n == 2 then 1 else 2 * Split((n + 1) / 2)
  }

  lemma {:induction false} SplitIsPowerOf2(n: nat)
    requires n >= 2
    ensures PowerOf2(Split(n))
  {
    if n > 2 {
      SplitIsPowerOf2((n + 1) / 2);
    }
  }

  lemma {:induction false} SplitUnique(n: nat, p: nat)
    requires n >= 2 && PowerOf2(p) && p < n <= 2 * p
    ensures p == Split(n)
  {
    if n > 2 {
      SplitUnique((n + 1) / 2, p / 2);
    }
  }

  method LargestPow2Lt(n: nat) returns (p: nat)
    requires n >= 2
    ensures p == Split(n)
  {
    p := 1;
    while p * 2 < n
      invariant PowerOf2(p) && p < n
      decreases n - p
    {
      p := p * 2;
    }
    SplitUnique(n, p);
  }

  // ----- tree hash and audit path, top-down -----

  function Mth<H>(h: Hasher<H>, leaves: seq<Bytes>): H
    requires leaves != []
  {
    if |leaves| == 1 then h.leaf(leaves[0])
    else
      var k := Split(|leaves|);
      h.node(Mth(h, leaves[..k]), Mth(h, leaves[k..]))
  }

  function MerkleTreeHash<H>(h: Hasher<H>, leaves: seq<Bytes>): Option<H> {
    if leaves == [] then None else Some(Mth(h, leaves))
  }

  function AuditPath<H>(h: Hasher<H>, leaves: seq<Bytes>, index: nat): seq<H>
    requires index < |leaves|
  {
    if |leaves| == 1 then []
    else
      var k := Split(|leaves|);
      if index < k then AuditPath(h, leaves[..k], index) + [Mth(h, leaves[k..])]
      else AuditPath(h, leaves[k..], index - k) + [Mth(h, leaves[..k])]
  }

  method FillAuditPath<H>(h: Hasher<H>, leaves: seq<Bytes>, index: nat, path: seq<H>) returns (filled: seq<H>)
    requires index < |leaves|
    ensures filled == path + AuditPath(h, leaves, index)
    decreases |leaves|
  {
    filled := path;
    if |leaves| <= 1 {
      return;
    }
    var k := LargestPow2Lt(|leaves|);
    if index < k {
      filled := FillAuditPath(h, leaves[..k], index, filled);
      filled := filled + [Mth(h, leaves[k..])];
    } else {
      filled := FillAuditPath(h, leaves[k..], index - k, filled);
      filled := filled + [Mth(h, leaves[..k])];
    }
  }

  method BuildAuditPath<H>(h: Hasher<H>, leaves: seq<Bytes>, index: nat) returns (path: Option<seq<H>>)
    ensures path == if index < |leaves| then Some(AuditPath(h, leaves, index)) else None
  {
    if index >= |leaves| {
      return None;
    }
    var filled := FillAuditPath(h, leaves, index, []);
    assert [] + AuditPath(h, leaves, index) == AuditPath(h, leaves, index);
    path := Some(filled);
  }

  // ----- one level at a time, bottom-up -----

  function LeafLevel<H>(h: Hasher<H>, leaves: seq<Bytes>): seq<H> {
    Map(h.leaf, leaves)
  }

  /** Hash adjacent pairs; an odd last node moves up unchanged. */
  function PairUp<H>(h: Hasher<H>, nodes: seq<H>): (up: seq<H>)
    ensures 2 * |up| == |nodes| || 2 * |up| == |nodes| + 1
  {
    if |nodes| <= 1 then nodes else [h.node(nodes[0], nodes[1])] + PairUp(h, nodes[2..])
  }

  /** The hash that is left when every level has been paired up. */
  function Root<H>(h: Hasher<H>, nodes: seq<H>): H
    requires nodes != []
    decreases |nodes|
  {
    if |nodes| == 1 then nodes[0] else Root(h, PairUp(h, nodes))
  }

  /** The sibling of node `i` on its own level, if it has one. */
  function Sibling<H>(nodes: seq<H>, i: nat): Option<H>
    requires i < |nodes|
  {
    if i % 2 == 1 then Some(nodes[i - 1]) else if i + 1 < |nodes| then Some(nodes[i + 1]) else None
  }

  /** A path as a list, which grows at either end without any reasoning about indices. */
  datatype Steps<H> = End | Step(sibling: H, rest: Steps<H>) {
    function Then(x: H): Steps<H> {
      match this
      case End => Step(x, End)
      case Step(s, rest) => Step(s, rest.Then(x))
    }

    function ToSeq(): seq<H> {
      match this
      case End => []
      case Step(s, rest) => [s] + rest.ToSeq()
    }

    lemma {:induction false} ThenToSeq(x: H)
      ensures Then(x).ToSeq() == ToSeq() + [x]
    {
      if Step? {
        rest.ThenToSeq(x);
      }
    }
  }

  /** The siblings met on the way up from node `i`. */
  function Path<H>(h: Hasher<H>, nodes: seq<H>, i: nat): Steps<H>
    requires i < |nodes|
    decreases |nodes|
  {
    if |nodes| == 1 then End
    else
      var above := Path(h, PairUp(h, nodes), i / 2);
      match Sibling(nodes, i)
      case Some(s) => Step(s, above)
      case None => above
  }

  // ----- top-down equals bottom-up -----

  /** Splitting at an even point commutes with moving up a level. */
  lemma {:induction false} PairUpSplits<H>(h: Hasher<H>, nodes: seq<H>, m: nat)
    requires 2 * m <= |nodes|
    ensures PairUp(h, nodes)[..m] == PairUp(h, nodes[..2 * m])
    ensures PairUp(h, nodes)[m..] == PairUp(h, nodes[2 * m..])
    decreases m
  {
    if m > 0 {
      PairUpSplits(h, nodes[2..], m - 1);
      assert nodes[..2 * m][2..] == nodes[2..][..2 * (m - 1)];
      assert nodes[2 * m..] == nodes[2..][2 * (m - 1)..];
    }
  }

  lemma {:induction false} PairUpAppends<H>(h: Hasher<H>, nodes: seq<H>, left: seq<H>, right: seq<H>, m: nat)
    requires nodes == left + right && |left| == 2 * m
    ensures PairUp(h, nodes) == PairUp(h, left) + PairUp(h, right)
  {
    PairUpSplits(h, nodes, m);
    assert nodes[..2 * m] == left && nodes[2 * m..] == right;
  }

  /** Moving up a level keeps the split. */
  lemma {:induction false} SplitLevel<H>(h: Hasher<H>, nodes: seq<H>, left: seq<H>, right: seq<H>, m: nat)
    requires nodes == left + right && |nodes| > 2 && |left| == Split(|nodes|) && m == Split((|nodes| + 1) / 2)
    ensures |left| == 2 * m && PairUp(h, nodes) == PairUp(h, left) + PairUp(h, right)
    ensures |PairUp(h, left)| == m == Split(|PairUp(h, nodes)|) && 2 <= |PairUp(h, nodes)| < |nodes|
    ensures 2 * |PairUp(h, right)| >= |right|
  {
    PairUpAppends(h, nodes, left, right, m);
  }

  lemma {:induction false} PairUpAt<H>(h: Hasher<H>, nodes: seq<H>, j: nat)
    requires 2 * j < |nodes|
    ensures PairUp(h, nodes)[j] == if 2 * j + 1 < |nodes| then h.node(nodes[2 * j], nodes[2 * j + 1]) else nodes[2 * j]
    decreases j
  {
    if j > 0 {
      PairUpAt(h, nodes[2..], j - 1);
    }
  }

  lemma {:induction false} RootOfLevelAbove<H>(h: Hasher<H>, nodes: seq<H>)
    requires nodes != []
    ensures Root(h, PairUp(h, nodes)) == Root(h, nodes)
  {
    if |nodes| == 1 {
      assert PairUp(h, nodes) == nodes;
    }
  }

  lemma {:induction false} RootSplits<H>(h: Hasher<H>, nodes: seq<H>, left: seq<H>, right: seq<H>)
    requires nodes == left + right && |nodes| >= 2 && |left| == Split(|nodes|)
    ensures Root(h, nodes) == h.node(Root(h, left), Root(h, right))
    decreases |nodes|
  {
    if |nodes| > 2 {
      var m := Split((|nodes| + 1) / 2);
      PairUpAppends(h, nodes, left, right, m);
      RootSplits(h, PairUp(h, nodes), PairUp(h, left), PairUp(h, right));
      RootOfLevelAbove(h, left);
      RootOfLevelAbove(h, right);
    }
  }

  lemma {:induction false} SiblingAtLeft<H>(nodes: seq<H>, left: seq<H>, right: seq<H>, m: nat, i: nat)
    requires nodes == left + right && i < |left| == 2 * m
    ensures Sibling(nodes, i) == Sibling(left, i)
  {
  }

  lemma {:induction false} SiblingAtRight<H>(nodes: seq<H>, left: seq<H>, right: seq<H>, m: nat, i: nat, j: nat)
    requires nodes == left + right && |left| == 2 * m && j < |right| && i == 2 * m + j
    ensures Sibling(nodes, i) == Sibling(right, j)
  {
  }

  lemma {:induction false} HalfSum(m: nat, i: nat, j: nat)
    requires i == 2 * m + j
    ensures i / 2 == m + j / 2
  {
  }

  lemma {:induction false} PathUnfolds<H>(h: Hasher<H>, nodes: seq<H>, i: nat, above: Steps<H>)
    requires i < |nodes| && |nodes| > 1 && above == Path(h, PairUp(h, nodes), i / 2)
    ensures Path(h, nodes, i) == match Sibling(nodes, i) case Some(s) => Step(s, above) case None => above
  {
  }

  lemma {:induction false} PathStep<H>(h: Hasher<H>, nodes: seq<H>, i: nat, above: Steps<H>,
                    part: seq<H>, j: nat, partAbove: Steps<H>, x: H)
    requires i < |nodes| && |nodes| > 1 && j < |part| && Sibling(nodes, i) == Sibling(part, j)
    requires above == Path(h, PairUp(h, nodes), i / 2) && partAbove == Path(h, PairUp(h, part), j / 2)
    requires above == partAbove.Then(x)
    ensures Path(h, nodes, i) == Path(h, part, j).Then(x)
  {
    PathUnfolds(h, nodes, i, above);
    if |part| > 1 {
      PathUnfolds(h, part, j, partAbove);
    } else {
      assert PairUp(h, part) == part;
    }
  }

  /** A path through one part of the tree ends with the root of the other part. */
  lemma {:induction false} PathSplitsLeft<H>(h: Hasher<H>, nodes: seq<H>, left: seq<H>, right: seq<H>, i: nat)
    requires nodes == left + right && i < |left| && |nodes| >= 2 && |left| == Split(|nodes|)
    ensures Path(h, nodes, i) == Path(h, left, i).Then(Root(h, right))
    decreases |nodes|
  {
    if |nodes| > 2 {
      var m := Split((|nodes| + 1) / 2);
      SplitLevel(h, nodes, left, right, m);
      PathSplitsLeft(h, PairUp(h, nodes), PairUp(h, left), PairUp(h, right), i / 2);
      RootOfLevelAbove(h, right);
      SiblingAtLeft(nodes, left, right, m, i);
      PathStep(h, nodes, i, Path(h, PairUp(h, nodes), i / 2), left, i, Path(h, PairUp(h, left), i / 2), Root(h, right));
    }
  }

  lemma {:induction false} PathSplitsRight<H>(h: Hasher<H>, nodes: seq<H>, left: seq<H>, right: seq<H>, i: nat, j: nat)
    requires nodes == left + right && i == |left| + j && j < |right| && |nodes| >= 2 && |left| == Split(|nodes|)
    ensures Path(h, nodes, i) == Path(h, right, j).Then(Root(h, left))
    decreases |nodes|
  {
    if |nodes| > 2 {
      var m := Split((|nodes| + 1) / 2);
      SplitLevel(h, nodes, left, right, m);
      HalfSum(m, i, j);
      PathSplitsRight(h, PairUp(h, nodes), PairUp(h, left), PairUp(h, right), i / 2, j / 2);
      RootOfLevelAbove(h, left);
      SiblingAtRight(nodes, left, right, m, i, j);
      PathStep(h, nodes, i, Path(h, PairUp(h, nodes), i / 2), right, j, Path(h, PairUp(h, right), j / 2),
               Root(h, left));
    }
  }

  lemma {:induction false} LeafLevelSplits<H>(h: Hasher<H>, leaves: seq<Bytes>, k: nat)
    requires k <= |leaves|
    ensures LeafLevel(h, leaves) == LeafLevel(h, leaves[..k]) + LeafLevel(h, leaves[k..])
  {
  }

  /** The recursive tree hash is what pairing up the leaf hashes leads to. */
  lemma {:induction false} MthIsRoot<H>(h: Hasher<H>, leaves: seq<Bytes>)
    requires leaves != []
    ensures Mth(h, leaves) == Root(h, LeafLevel(h, leaves))
    decreases |leaves|
  {
    if |leaves| > 1 {
      var k := Split(|leaves|);
      MthIsRoot(h, leaves[..k]);
      MthIsRoot(h, leaves[k..]);
      LeafLevelSplits(h, leaves, k);
      RootSplits(h, LeafLevel(h, leaves), LeafLevel(h, leaves[..k]), LeafLevel(h, leaves[k..]));
    }
  }

  ghost predicate PathsAgree<H>(h: Hasher<H>, leaves: seq<Bytes>, i: nat)
    requires i < |leaves|
  {
    AuditPath(h, leaves, i) == Path(h, LeafLevel(h, leaves), i).ToSeq()
  }

  lemma {:induction false} PathsAgreeLeft<H>(h: Hasher<H>, leaves: seq<Bytes>, k: nat, i: nat)
    requires |leaves| > 1 && i < k == Split(|leaves|) && PathsAgree(h, leaves[..k], i)
    ensures PathsAgree(h, leaves, i)
  {
    var left, right := LeafLevel(h, leaves[..k]), LeafLevel(h, leaves[k..]);
    LeafLevelSplits(h, leaves, k);
    MthIsRoot(h, leaves[k..]);
    PathSplitsLeft(h, LeafLevel(h, leaves), left, right, i);
    Path(h, left, i).ThenToSeq(Root(h, right));
  }

  lemma {:induction false} AuditPathAtRight<H>(h: Hasher<H>, leaves: seq<Bytes>, k: nat, i: nat, j: nat)
    requires |leaves| > 1 && k == Split(|leaves|) && i == k + j < |leaves|
    ensures AuditPath(h, leaves, i) == AuditPath(h, leaves[k..], j) + [Mth(h, leaves[..k])]
  {
    assert i - k == j;
  }

  lemma {:induction false} PathAtRight<H>(h: Hasher<H>, leaves: seq<Bytes>, k: nat, i: nat, j: nat)
    requires |leaves| > 1 && k == Split(|leaves|) && i == k + j < |leaves|
    ensures Path(h, LeafLevel(h, leaves), i).ToSeq()
         == Path(h, LeafLevel(h, leaves[k..]), j).ToSeq() + [Mth(h, leaves[..k])]
  {
    var left, right := LeafLevel(h, leaves[..k]), LeafLevel(h, leaves[k..]);
    LeafLevelSplits(h, leaves, k);
    MthIsRoot(h, leaves[..k]);
    PathSplitsRight(h, LeafLevel(h, leaves), left, right, i, j);
    Path(h, right, j).ThenToSeq(Root(h, left));
  }

  lemma {:induction false} PathsAgreeRight<H>(h: Hasher<H>, leaves: seq<Bytes>, k: nat, i: nat, j: nat)
    requires |leaves| > 1 && k == Split(|leaves|) && i == k + j < |leaves| && PathsAgree(h, leaves[k..], j)
    ensures PathsAgree(h, leaves, i)
  {
    AuditPathAtRight(h, leaves, k, i, j);
    PathAtRight(h, leaves, k, i, j);
  }

  /** The recursive audit path lists the siblings met on the way up. */
  lemma {:induction false} AuditPathIsPath<H>(h: Hasher<H>, leaves: seq<Bytes>, i: nat)
    requires i < |leaves|
    ensures PathsAgree(h, leaves, i)
    decreases |leaves|
  {
    if |leaves| > 1 {
      var k := Split(|leaves|);
      if i < k {
        AuditPathIsPath(h, leaves[..k], i);
        PathsAgreeLeft(h, leaves, k, i);
      } else {
        AuditPathIsPath(h, leaves[k..], i - k);
        PathsAgreeRight(h, leaves, k, i, i - k);
      }
    }
  }

  // ----- the verifier -----

  /** A node with no sibling on its level: the even last node. */
  predicate Lone(fn: nat, sn: nat) {
    fn == sn && fn % 2 == 0
  }

  /** The hash of `r` and its sibling, in the order the parity of the index dictates. */
  function Join<H>(h: Hasher<H>, fn: nat, r: H, sibling: H): H {
    if fn % 2 == 1 then h.node(sibling, r) else h.node(r, sibling)
  }

  /** The root that `path` leads to from hash `r` at index `fn` on a level whose last index is `sn`;
      `None` when the path is too long or too short. */
  function Climb<H>(h: Hasher<H>, r: H, fn: nat, sn: nat, path: seq<H>): Option<H>
    decreases sn
  {
    if sn == 0 then (if path == [] then Some(r) else None)
    else if Lone(fn, sn) then Climb(h, r, fn / 2, sn / 2, path)
    else if path == [] then None
    else Climb(h, Join(h, fn, r, path[0]), fn / 2, sn / 2, path[1..])
  }

  predicate Accepts<H(==)>(h: Hasher<H>, leaf: Bytes, index: nat, size: nat, path: seq<H>, root: H) {
    index < size && Climb(h, h.leaf(leaf), index, size - 1, path) == Some(root)
  }

  lemma {:induction false} ClimbNeedsPath<H>(h: Hasher<H>, r: H, fn: nat, sn: nat)
    requires fn <= sn && sn > 0
    ensures Climb(h, r, fn, sn, []) == None
    decreases sn
  {
    if Lone(fn, sn) {
      ClimbNeedsPath(h, r, fn / 2, sn / 2);
    }
  }

  method VerifyInclusion<H(==)>(h: Hasher<H>, leaf: Bytes, index: nat, size: nat, path: seq<H>, root: H)
    returns (ok: bool)
    ensures ok <==> Accepts(h, leaf, index, size, path, root)
  {
    if size == 0 || index >= size {
      return false;
    }
    var r := h.leaf(leaf);
    var fn: nat, sn: nat := index, size - 1;
    ghost var goal := Climb(h, r, fn, sn, path);
    var i := 0;
    while i < |path|
      invariant 0 <= i <= |path| && fn <= sn
      invariant Climb(h, r, fn, sn, path[i..]) == goal
    {
      if sn == 0 {
        return false;
      }
      var sibling := path[i];
      ghost var r0, rest := r, path[i..];
      if fn % 2 == 1 || fn == sn {
        r := h.node(sibling, r);
        if fn % 2 == 0 {
          while fn % 2 == 0 && sn != 0
            invariant fn == sn && sn > 0
            invariant Climb(h, r0, fn, sn, rest) == goal
            decreases sn
          {
            fn := fn / 2;
            sn := sn / 2;
          }
        }
      } else {
        r := h.node(r, sibling);
      }
      assert rest[0] == sibling && rest[1..] == path[i + 1..];
      fn := fn / 2;
      sn := sn / 2;
      i := i + 1;
    }
    assert path[i..] == [];
    if sn > 0 {
      ClimbNeedsPath(h, r, fn, sn);
    }
    ok := sn == 0 && r == root;
  }

  /** What one level contributes: a lone node moves up as it is, any other is joined with its sibling. */
  lemma {:induction false} LevelStep<H>(h: Hasher<H>, nodes: seq<H>, i: nat)
    requires i < |nodes| && |nodes| > 1
    ensures |PairUp(h, nodes)| - 1 == (|nodes| - 1) / 2 && i / 2 < |PairUp(h, nodes)| < |nodes|
    ensures Lone(i, |nodes| - 1) <==> Sibling(nodes, i).None?
    ensures PairUp(h, nodes)[i / 2] ==
            match Sibling(nodes, i) case None => nodes[i] case Some(s) => Join(h, i, nodes[i], s)
  {
    PairUpAt(h, nodes, i / 2);
  }

  ghost predicate ClimbsTo<H>(h: Hasher<H>, r: H, nodes: seq<H>, i: nat, path: seq<H>) {
    i < |nodes| && Climb(h, r, i, |nodes| - 1, path) == Some(Root(h, nodes))
  }

  /** A climb to the root of `nodes` is a climb to the root of the level above. */
  lemma {:induction false} ClimbStep<H>(h: Hasher<H>, r: H, nodes: seq<H>, i: nat, path: seq<H>)
    requires i < |nodes| && |nodes| > 1
    ensures Lone(i, |nodes| - 1) ==>
      (ClimbsTo(h, r, nodes, i, path) <==> ClimbsTo(h, r, PairUp(h, nodes), i / 2, path))
    ensures !Lone(i, |nodes| - 1) && path == [] ==> !ClimbsTo(h, r, nodes, i, path)
    ensures !Lone(i, |nodes| - 1) && path != [] ==>
      (ClimbsTo(h, r, nodes, i, path)
       <==> ClimbsTo(h, Join(h, i, r, path[0]), PairUp(h, nodes), i / 2, path[1..]))
  {
    RootOfLevelAbove(h, nodes);
    LevelStep(h, nodes, i);
  }

  // ----- completeness -----

  lemma {:induction false} ClimbReachesRoot<H>(h: Hasher<H>, nodes: seq<H>, i: nat)
    requires i < |nodes|
    ensures ClimbsTo(h, nodes[i], nodes, i, Path(h, nodes, i).ToSeq())
    decreases |nodes|
  {
    if |nodes| > 1 {
      LevelStep(h, nodes, i);
      ClimbReachesRoot(h, PairUp(h, nodes), i / 2);
      ClimbStep(h, nodes[i], nodes, i, Path(h, nodes, i).ToSeq());
    }
  }

  /** Completeness: the verifier accepts every path the builder produces, for every size and index. */
  lemma {:induction false} InclusionComplete<H>(h: Hasher<H>, leaves: seq<Bytes>, index: nat)
    requires index < |leaves|
    ensures Accepts(h, leaves[index], index, |leaves|, AuditPath(h, leaves, index), Mth(h, leaves))
  {
    MthIsRoot(h, leaves);
    AuditPathIsPath(h, leaves, index);
    ClimbReachesRoot(h, LeafLevel(h, leaves), index);
  }

  // ----- soundness -----

  /** Two different hash inputs and, implicitly, the claim that they hash to the same value. */
  datatype Clash<H> = LeafClash(d: Bytes, d': Bytes) | NodeClash(l: H, r: H, l': H, r': H)

  ghost predicate Clashes<H>(h: Hasher<H>, c: Clash<H>) {
    match c
    case LeafClash(d, d') => d != d' && h.leaf(d) == h.leaf(d')
    case NodeClash(l, r, l', r') => (l != l' || r != r') && h.node(l, r) == h.node(l', r')
  }

  /** The inputs to `Join`, side by side with the genuine ones. */
  function JoinClash<H>(fn: nat, r: H, sibling: H, r': H, sibling': H): Clash<H> {
    if fn % 2 == 1 then NodeClash(sibling, r, sibling', r') else NodeClash(r, sibling, r', sibling')
  }

  /** Retrace a climb next to the genuine tree and report the first pair of node inputs, from the top,
      that differ although their hashes agree. */
  function ClimbClash<H(==)>(h: Hasher<H>, r: H, nodes: seq<H>, i: nat, path: seq<H>): Option<Clash<H>>
    requires i < |nodes|
    decreases |nodes|
  {
    if |nodes| == 1 then None
    else if Sibling(nodes, i).None? then ClimbClash(h, r, PairUp(h, nodes), i / 2, path)
    else if path == [] then None
    else
      match ClimbClash(h, Join(h, i, r, path[0]), PairUp(h, nodes), i / 2, path[1..])
      case Some(c) => Some(c)
      case None =>
        var sibling := Sibling(nodes, i).value;
        if r == nodes[i] && path[0] == sibling then None else Some(JoinClash(i, r, path[0], nodes[i], sibling))
  }

  ghost predicate GenuineOrClash<H>(h: Hasher<H>, r: H, nodes: seq<H>, i: nat, path: seq<H>)
    requires i < |nodes|
  {
    match ClimbClash(h, r, nodes, i, path)
    case None => r == nodes[i] && path == Path(h, nodes, i).ToSeq()
    case Some(c) => Clashes(h, c)
  }

  lemma {:induction false} ClimbClashSound<H>(h: Hasher<H>, r: H, nodes: seq<H>, i: nat, path: seq<H>)
    requires ClimbsTo(h, r, nodes, i, path)
    ensures GenuineOrClash(h, r, nodes, i, path)
    decreases |nodes|
  {
    if |nodes| > 1 {
      LevelStep(h, nodes, i);
      ClimbStep(h, r, nodes, i, path);
      if Sibling(nodes, i).None? {
        ClimbClashSound(h, r, PairUp(h, nodes), i / 2, path);
      } else {
        ClimbClashSound(h, Join(h, i, r, path[0]), PairUp(h, nodes), i / 2, path[1..]);
        assert path == [path[0]] + path[1..];
      }
    }
  }

  /** Soundness: an accepted proof against a genuine root either is the built proof of the genuine
      leaf, or yields a hash collision that this function computes. */
  function InclusionClash<H(==)>(h: Hasher<H>, leaves: seq<Bytes>, leaf: Bytes, index: nat, path: seq<H>)
    : (c: Option<Clash<H>>)
    requires leaves != []
    requires Accepts(h, leaf, index, |leaves|, path, Mth(h, leaves))
    ensures c.None? ==> leaf == leaves[index] && path == AuditPath(h, leaves, index)
    ensures c.Some? ==> Clashes(h, c.value)
  {
    var nodes := LeafLevel(h, leaves);
    MthIsRoot(h, leaves);
    AuditPathIsPath(h, leaves, index);
    ClimbClashSound(h, h.leaf(leaf), nodes, index, path);
    match ClimbClash(h, h.leaf(leaf), nodes, index, path)
    case Some(c) => Some(c)
    case None => if leaf == leaves[index] then None else Some(LeafClash(leaf, leaves[index]))
  }

  // ----- path length, with no assumption on the hash -----

  function PathLength(fn: nat, sn: nat): nat
    decreases sn
  {
    if sn == 0 then 0 else (if Lone(fn, sn) then 0 else 1) + PathLength(fn / 2, sn / 2)
  }

  function Pow2(k: nat): nat {
    if k == 0 then 1 else 2 * Pow2(k - 1)
  }

  /** The least `k` with `n <= 2^k`. */
  function CeilLog2(n: nat): (k: nat)
    ensures n <= Pow2(k)
    ensures k > 0 ==> Pow2(k - 1) < n
  {
    if n <= 1 then 0 else 1 + CeilLog2((n + 1) / 2)
  }

  lemma {:induction false} ClimbLength<H>(h: Hasher<H>, r: H, fn: nat, sn: nat, path: seq<H>)
    requires Climb(h, r, fn, sn, path).Some?
    ensures |path| == PathLength(fn, sn)
    decreases sn
  {
    if sn == 0 {
    } else if Lone(fn, sn) {
      ClimbLength(h, r, fn / 2, sn / 2, path);
    } else {
      ClimbLength(h, Join(h, fn, r, path[0]), fn / 2, sn / 2, path[1..]);
    }
  }

  lemma {:induction false} PathLengthBound(fn: nat, sn: nat)
    ensures PathLength(fn, sn) <= CeilLog2(sn + 1)
    ensures fn == 0 ==> PathLength(fn, sn) == CeilLog2(sn + 1)
    decreases sn
  {
    if sn > 0 {
      PathLengthBound(fn / 2, sn / 2);
      assert (sn + 2) / 2 == sn / 2 + 1;
    }
  }

  /** An accepted path has the one length fixed by index and size, at most ceil(log2 size), whatever
      the hash functions; index 0 attains the bound. */
  lemma {:induction false} AcceptedPathLength<H>(h: Hasher<H>, leaf: Bytes, index: nat, size: nat, path: seq<H>,
                                                 root: H)
    requires Accepts(h, leaf, index, size, path, root)
    ensures |path| == PathLength(index, size - 1) <= CeilLog2(size)
    ensures index == 0 ==> |path| == CeilLog2(size)
  {
    ClimbLength(h, h.leaf(leaf), index, size - 1, path);
    PathLengthBound(index, size - 1);
  }
}
