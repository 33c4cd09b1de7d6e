/** The SHA-256 instance of the tree, and proofs against an `EventProofTarget`. */
module MerkleProof {
  import opened Primitives
  import opened MerkleTree
  import opened Model

  const LEAF_PREFIX: byte := 0
  const NODE_PREFIX: byte := 1

  function LeafInput(data: Bytes): Bytes {
    [LEAF_PREFIX] + data
  }

  function NodeInput(left: Hash, right: Hash): Bytes {
    [NODE_PREFIX] + left + right
  }

  function Rfc6962(sha: Bytes -> Hash): Hasher<Hash> {
    Hasher(data => sha(LeafInput(data)), (left, right) => sha(NodeInput(left, right)))
  }

  lemma {:induction false} LeafInputInjective(a: Bytes, b: Bytes)
    requires LeafInput(a) == LeafInput(b)
    ensures a == b
  {
    assert LeafInput(a)[1..] == a && LeafInput(b)[1..] == b;
  }

  lemma {:induction false} NodeInputInjective(a: Hash, b: Hash, c: Hash, d: Hash)
    requires NodeInput(a, b) == NodeInput(c, d)
    ensures a == c && b == d
  {
    assert NodeInput(a, b)[1..33] == a && NodeInput(c, d)[1..33] == c;
    assert NodeInput(a, b)[33..] == b && NodeInput(c, d)[33..] == d;
  }

  /** Leaf inputs start with a zero byte and node inputs with a one, so that no string is both; either determines what
      it was made of. */
  lemma {:induction false} InputsAreSeparate(data: Bytes, data': Bytes, l: Hash, r: Hash, l': Hash, r': Hash)
    ensures LeafInput(data) == [0] + data && NodeInput(l, r) == [1] + l + r
    ensures LeafInput(data) != NodeInput(l, r)
    ensures LeafInput(data) == LeafInput(data') ==> data == data'
    ensures NodeInput(l, r) == NodeInput(l', r') ==> l == l' && r == r'
  {
    assert LeafInput(data)[0] != NodeInput(l, r)[0];
    if LeafInput(data) == LeafInput(data') {
      LeafInputInjective(data, data');
    }
    if NodeInput(l, r) == NodeInput(l', r') {
      NodeInputInjective(l, r, l', r');
    }
  }

  /** The two byte strings behind a clash collide under the hash function itself. */
  function CollidingInputs(sha: Bytes -> Hash, c: Clash<Hash>): (p: (Bytes, Bytes))
    requires Clashes(Rfc6962(sha), c)
    ensures Collision(sha, p.0, p.1)
  {
    match c
    case LeafClash(d, d') =>
      assert LeafInput(d) != LeafInput(d') by { if LeafInput(d) == LeafInput(d') { LeafInputInjective(d, d'); } }
      (LeafInput(d), LeafInput(d'))
    case NodeClash(l, r, l', r') =>
      assert NodeInput(l, r) != NodeInput(l', r') by {
        if NodeInput(l, r) == NodeInput(l', r') { NodeInputInjective(l, r, l', r'); }
      }
      (NodeInput(l, r), NodeInput(l', r'))
  }

  predicate Hashes(path: seq<Bytes>) {
    forall h | h in path :: |h| == 32
  }

  /** What `VerifyProof` accepts. */
  predicate Proves(sha: Bytes -> Hash, leaf: Bytes, leafIndex: nat, target: EventProofTarget, auditPath: seq<Bytes>) {
    && |target.root| == 32
    && Hashes(auditPath)
    && Accepts(Rfc6962(sha), leaf, leafIndex, target.leafCount, auditPath, target.root)
  }

  method VerifyProof(sha: Bytes -> Hash, leaf: Bytes, leafIndex: nat, target: EventProofTarget, auditPath: seq<Bytes>)
    returns (ok: bool)
    ensures ok <==> Proves(sha, leaf, leafIndex, target, auditPath)
  {
    if leafIndex >= target.leafCount || |target.root| != 32 || !Hashes(auditPath) {
      return false;
    }
    ok := VerifyInclusion(Rfc6962(sha), leaf, leafIndex, target.leafCount, auditPath, target.root);
  }

  /** A target that commits to `signatures` in the given order. */
  predicate CommitsTo(sha: Bytes -> Hash, target: EventProofTarget, signatures: seq<Bytes>) {
    && signatures != []
    && target.leafCount == |signatures|
    && target.root == Mth(Rfc6962(sha), signatures)
  }

  /** A proof against a committed list is the built proof of the list's member at its index, or else
      this function computes two byte strings that collide under `sha`. */
  function ProofCollision(sha: Bytes -> Hash, leaf: Bytes, leafIndex: nat, target: EventProofTarget,
                          auditPath: seq<Bytes>, signatures: seq<Bytes>): (p: Option<(Bytes, Bytes)>)
    requires CommitsTo(sha, target, signatures)
    requires Proves(sha, leaf, leafIndex, target, auditPath)
    ensures leafIndex < |signatures|
    ensures p.None? ==>
      leaf == signatures[leafIndex] && auditPath == AuditPath(Rfc6962(sha), signatures, leafIndex)
    ensures p.Some? ==> Collision(sha, p.value.0, p.value.1)
  {
    var path: seq<Hash> := auditPath;
    match InclusionClash(Rfc6962(sha), signatures, leaf, leafIndex, path)
    case None => None
    case Some(c) => Some(CollidingInputs(sha, c))
  }

  /** A root determines its list, whatever the lengths: two lists with the same root are the same list, or this function
      computes two byte strings that collide under `sha`. */
  function RootCollision(sha: Bytes -> Hash, a: seq<Bytes>, b: seq<Bytes>): (p: Option<(Bytes, Bytes)>)
    requires a != [] && b != [] && Mth(Rfc6962(sha), a) == Mth(Rfc6962(sha), b)
    ensures p.None? ==> a == b
    ensures p.Some? ==> Collision(sha, p.value.0, p.value.1)
    decreases |a|
  {
    if |a| == 1 && |b| == 1 then LeavesCollision(sha, a[0], b[0])
    else if |a| == 1 then Some((LeafInput(a[0]), RootInput(sha, b)))
    else if |b| == 1 then Some((LeafInput(b[0]), RootInput(sha, a)))
    else if RootInput(sha, a) != RootInput(sha, b) then Some((RootInput(sha, a), RootInput(sha, b)))
    else
      HalvesAgree(sha, a, b);
      var (l, r, l', r') := (Left(a), Right(a), Left(b), Right(b));
      match RootCollision(sha, l, l')
      case Some(p) => Some(p)
      case None => RootCollision(sha, r, r')
  }

  /** The two parts into which the tree splits a list. */
  function Left(a: seq<Bytes>): (l: seq<Bytes>)
    requires |a| >= 2
    ensures 1 <= |l| < |a|
  {
    a[..Split(|a|)]
  }

  function Right(a: seq<Bytes>): (r: seq<Bytes>)
    requires |a| >= 2
    ensures 1 <= |r| < |a| && a == Left(a) + r
  {
    a[Split(|a|)..]
  }

  /** The input whose hash is the root of a list of two or more leaves. */
  function RootInput(sha: Bytes -> Hash, a: seq<Bytes>): (input: Bytes)
    requires |a| >= 2
    ensures sha(input) == Mth(Rfc6962(sha), a) && input != [] && input[0] == NODE_PREFIX != LEAF_PREFIX
  {
    NodeInput(Mth(Rfc6962(sha), Left(a)), Mth(Rfc6962(sha), Right(a)))
  }

  lemma {:induction false} HalvesAgree(sha: Bytes -> Hash, a: seq<Bytes>, b: seq<Bytes>)
    requires |a| >= 2 && |b| >= 2 && RootInput(sha, a) == RootInput(sha, b)
    ensures Mth(Rfc6962(sha), Left(a)) == Mth(Rfc6962(sha), Left(b))
    ensures Mth(Rfc6962(sha), Right(a)) == Mth(Rfc6962(sha), Right(b))
  {
    var h := Rfc6962(sha);
    NodeInputInjective(Mth(h, Left(a)), Mth(h, Right(a)), Mth(h, Left(b)), Mth(h, Right(b)));
  }

  function LeavesCollision(sha: Bytes -> Hash, d: Bytes, d': Bytes): (p: Option<(Bytes, Bytes)>)
    requires Rfc6962(sha).leaf(d) == Rfc6962(sha).leaf(d')
    ensures p.None? ==> d == d'
    ensures p.Some? ==> Collision(sha, p.value.0, p.value.1)
  {
    if d == d' then None else CollidingLeaves(sha, d, d')
  }

  function CollidingLeaves(sha: Bytes -> Hash, d: Bytes, d': Bytes): (p: Option<(Bytes, Bytes)>)
    requires d != d' && sha(LeafInput(d)) == sha(LeafInput(d'))
    ensures p.Some? && Collision(sha, p.value.0, p.value.1)
  {
    assert LeafInput(d) != LeafInput(d') by { if LeafInput(d) == LeafInput(d') { LeafInputInjective(d, d'); } }
    Some((LeafInput(d), LeafInput(d')))
  }

  /** Two targets with the same root commit to the same list, and so to the same number of leaves, or a collision is
      computed. */
  function TargetCollision(sha: Bytes -> Hash, s: EventProofTarget, t: EventProofTarget, a: seq<Bytes>, b: seq<Bytes>)
    : (p: Option<(Bytes, Bytes)>)
    requires CommitsTo(sha, s, a) && CommitsTo(sha, t, b) && s.root == t.root
    ensures p.None? ==> a == b && s.leafCount == t.leafCount
    ensures p.Some? ==> Collision(sha, p.value.0, p.value.1)
  {
    RootCollision(sha, a, b)
  }

  /** Every member of a committed list has a proof: the path built for its index. */
  lemma {:induction false} ProofComplete(sha: Bytes -> Hash, leafIndex: nat, target: EventProofTarget,
                                         signatures: seq<Bytes>)
    requires CommitsTo(sha, target, signatures) && leafIndex < |signatures|
    ensures Proves(sha, signatures[leafIndex], leafIndex, target, AuditPath(Rfc6962(sha), signatures, leafIndex))
  {
    InclusionComplete(Rfc6962(sha), signatures, leafIndex);
  }
}
