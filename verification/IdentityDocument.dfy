/** Keys and revocations of a single identity document, and the clock positions it defines. */
module IdentityDocument {
  import opened Primitives
  import opened Model

  function Dedup(keys: seq<PublicKey>, seen: set<PublicKey>): (r: seq<PublicKey>)
    ensures forall k :: k in r <==> k in keys && k !in seen
    ensures forall i, j | 0 <= i < j < |r| :: r[i] != r[j]
  {
    if keys == [] then []
    else if keys[0] in seen then Dedup(keys[1..], seen)
    else [keys[0]] + Dedup(keys[1..], seen + {keys[0]})
  }

  /** Rotation keys then signing keys, first occurrence wins. Vector clock positions follow this order. */
  function DeduplicatedKeys(doc: Identity): (r: seq<PublicKey>)
    ensures forall k :: k in r <==> AuthorizesSigner(doc, k)
    ensures forall i, j | 0 <= i < j < |r| :: r[i] != r[j]
  {
    Dedup(doc.rotationKeys + doc.signingKeys, {})
  }

  /** `i` is the first place of `x`. */
  ghost predicate FirstAt<T>(s: seq<T>, x: T, i: nat) {
    i < |s| && s[i] == x && forall k | 0 <= k < i :: s[k] != x
  }

  /** Clock positions follow the first occurrences in the rotation keys and then the signing keys. */
  lemma {:induction false} PositionsFollowDocument(doc: Identity, p: nat, q: nat, i: nat, j: nat)
    requires p < |DeduplicatedKeys(doc)| && q < |DeduplicatedKeys(doc)|
    requires FirstAt(doc.rotationKeys + doc.signingKeys, DeduplicatedKeys(doc)[p], i)
    requires FirstAt(doc.rotationKeys + doc.signingKeys, DeduplicatedKeys(doc)[q], j)
    ensures p < q <==> i < j
  {
    var all := doc.rotationKeys + doc.signingKeys;
    if p < q {
      DedupAscends(all, {}, p, q, i, j);
    } else if q < p {
      DedupAscends(all, {}, q, p, j, i);
    }
  }

  lemma {:induction false} DedupAscends(keys: seq<PublicKey>, seen: set<PublicKey>, p: nat, q: nat, i: nat, j: nat)
    requires p < q < |Dedup(keys, seen)|
    requires FirstAt(keys, Dedup(keys, seen)[p], i) && FirstAt(keys, Dedup(keys, seen)[q], j)
    ensures i < j
    decreases |keys|
  {
    var rest := keys[1..];
    if keys[0] in seen {
      assert i > 0 && j > 0;
      DedupAscends(rest, seen, p, q, i - 1, j - 1);
    } else if p > 0 {
      var more := Dedup(rest, seen + {keys[0]});
      assert more[p - 1] != keys[0] && more[q - 1] != keys[0];
      DedupAscends(rest, seen + {keys[0]}, p - 1, q - 1, i - 1, j - 1);
    } else {
      assert i == 0 && j != 0;
    }
  }

  predicate AuthorizesSigner(doc: Identity, key: PublicKey) {
    key in doc.rotationKeys + doc.signingKeys
  }

  predicate AuthorizesRotation(doc: Identity, key: PublicKey) {
    key in doc.rotationKeys
  }

  function FindBound(bounds: seq<RevocationBound>, signer: PublicKey): Option<RevocationBound> {
    if bounds == [] then None
    else if bounds[0].revokedKey == Some(signer) then Some(bounds[0])
    else FindBound(bounds[1..], signer)
  }

  function FindTarget(targets: seq<EventProofTarget>, collection: int): Option<EventProofTarget> {
    if targets == [] then None
    else if targets[0].collection == collection then Some(targets[0])
    else FindTarget(targets[1..], collection)
  }

  /** The target recorded for the collection by the first bound on the signer. */
  function RevocationTargetFor(doc: Identity, signer: PublicKey, collection: int): Option<EventProofTarget> {
    match FindBound(doc.revocationBounds, signer)
    case None => None
    case Some(bound) => FindTarget(bound.targets, collection)
  }

  /** The target at place `j` of the bound at place `i`: the first bound on the signer, and the first target of that
      bound with the collection. */
  ghost predicate RecordedAt(doc: Identity, signer: PublicKey, collection: int, i: nat, j: nat) {
    && i < |doc.revocationBounds| && j < |doc.revocationBounds[i].targets|
    && doc.revocationBounds[i].revokedKey == Some(signer)
    && (forall k | 0 <= k < i :: doc.revocationBounds[k].revokedKey != Some(signer))
    && doc.revocationBounds[i].targets[j].collection == collection
    && (forall k | 0 <= k < j :: doc.revocationBounds[i].targets[k].collection != collection)
  }

  ghost predicate Records(doc: Identity, signer: PublicKey, collection: int, target: EventProofTarget) {
    exists i: nat, j: nat :: RecordedAt(doc, signer, collection, i, j) && doc.revocationBounds[i].targets[j] == target
  }

  ghost predicate RecordsNone(doc: Identity, signer: PublicKey, collection: int) {
    forall i: nat, j: nat :: !RecordedAt(doc, signer, collection, i, j)
  }

  lemma {:induction false} FirstBound(bounds: seq<RevocationBound>, signer: PublicKey) returns (i: nat)
    ensures FindBound(bounds, signer).None? ==> forall k | 0 <= k < |bounds| :: bounds[k].revokedKey != Some(signer)
    ensures FindBound(bounds, signer).Some? ==>
              && i < |bounds| && FindBound(bounds, signer) == Some(bounds[i])
              && bounds[i].revokedKey == Some(signer) && forall k | 0 <= k < i :: bounds[k].revokedKey != Some(signer)
  {
    i := 0;
    if bounds != [] && bounds[0].revokedKey != Some(signer) {
      i := FirstBound(bounds[1..], signer);
      i := i + 1;
    }
  }

  lemma {:induction false} FirstTarget(targets: seq<EventProofTarget>, collection: int) returns (j: nat)
    ensures FindTarget(targets, collection).None? ==>
              forall k | 0 <= k < |targets| :: targets[k].collection != collection
    ensures FindTarget(targets, collection).Some? ==>
              && j < |targets| && FindTarget(targets, collection) == Some(targets[j])
              && targets[j].collection == collection && forall k | 0 <= k < j :: targets[k].collection != collection
  {
    j := 0;
    if targets != [] && targets[0].collection != collection {
      j := FirstTarget(targets[1..], collection);
      j := j + 1;
    }
  }

  /** The target found is the recorded one, by position; there is at most one. */
  lemma {:induction false} TargetIsRecorded(doc: Identity, signer: PublicKey, collection: int, target: EventProofTarget)
    ensures RevocationTargetFor(doc, signer, collection) == Some(target) <==> Records(doc, signer, collection, target)
  {
    var bounds := doc.revocationBounds;
    var i := FirstBound(bounds, signer);
    if FindBound(bounds, signer).Some? {
      var j := FirstTarget(bounds[i].targets, collection);
      if RevocationTargetFor(doc, signer, collection) == Some(target) {
        assert RecordedAt(doc, signer, collection, i, j);
      }
      if m: nat, n: nat :| RecordedAt(doc, signer, collection, m, n) && bounds[m].targets[n] == target {
        assert m == i;
        assert n == j;
      }
    }
  }

  lemma {:induction false} NoneIsRecorded(doc: Identity, signer: PublicKey, collection: int)
    ensures RevocationTargetFor(doc, signer, collection) == None <==> RecordsNone(doc, signer, collection)
  {
    var bounds := doc.revocationBounds;
    match RevocationTargetFor(doc, signer, collection)
    case Some(target) => TargetIsRecorded(doc, signer, collection, target);
    case None =>
      forall i: nat, j: nat ensures !RecordedAt(doc, signer, collection, i, j) {
        if RecordedAt(doc, signer, collection, i, j) {
          TargetIsRecorded(doc, signer, collection, bounds[i].targets[j]);
        }
      }
  }

  function IndexOf(keys: seq<PublicKey>, key: PublicKey): (r: Option<nat>)
    ensures r.None? <==> key !in keys
    ensures r.Some? ==> r.value < |keys| && keys[r.value] == key
  {
    if keys == [] then None
    else if keys[0] == key then Some(0)
    else match IndexOf(keys[1..], key)
      case None => None
      case Some(i) => Some(i + 1)
  }

  /** A signer's position in the clock: the clock must match the document's key list and carry the
      event's own sequence at the signer's position. */
  function GetSignerPosition(clock: seq<u64>, doc: Identity, signer: PublicKey, expected: u64): (r: Result<nat>)
    ensures r.Ok? <==>
      && |clock| == |DeduplicatedKeys(doc)|
      && AuthorizesSigner(doc, signer)
      && exists i :: 0 <= i < |clock| && DeduplicatedKeys(doc)[i] == signer && clock[i] == expected
    ensures r.Ok? ==>
      && r.value < |clock| == |DeduplicatedKeys(doc)|
      && DeduplicatedKeys(doc)[r.value] == signer && clock[r.value] == expected
  {
    var keys := DeduplicatedKeys(doc);
    if |clock| != |keys| then Err
    else match IndexOf(keys, signer)
      case None => Err
      case Some(i) => if clock[i] != expected then Err else Ok(i)
  }
}
