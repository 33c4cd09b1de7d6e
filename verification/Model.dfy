/**
 The protocol's messages after decoding, and the operations on bytes that this
 model leaves uninterpreted: hashing, signature checking and the codec.
 */
module Model {
  import opened Primitives
  import opened Ordering

  // ----- reserved collections and enum values -----

  const IDENTITY: int := 1
  const SOCIAL_GRAPH: int := 5

  const KEY_TYPE_ED25519: int := 1
  const DIGEST_TYPE_SHA256: int := 1

  // ----- messages -----

  datatype PublicKey = PublicKey(keyType: int, key: Bytes)

  datatype EventProofTarget = EventProofTarget(collection: int, signature: Bytes, root: Bytes, leafCount: u64)

  datatype RevocationBound = RevocationBound(revokedKey: Option<PublicKey>, targets: seq<EventProofTarget>)

  /** The identity document. */
  datatype Identity = Identity(
    rotationKeys: seq<PublicKey>,
    signingKeys: seq<PublicKey>,
    revocationBounds: seq<RevocationBound>,
    servers: Option<seq<Text>>,
    recoveryKey: Option<PublicKey>,
    recoverySignature: Option<Bytes>)

  /** The event key of the wire format; the signer may be missing. */
  datatype WireKey = WireKey(collection: int, identity: Text, signedBy: Option<PublicKey>, sequence: u64)

  datatype ContentDigest = ContentDigest(kind: int, value: Bytes)

  datatype Event = Event(
    key: Option<WireKey>,
    identitySequence: u64,
    vectorClock: Option<seq<u64>>,
    previousSignature: Bytes,
    previousRoot: Bytes,
    contentDigest: Option<ContentDigest>,
    createdAt: u64)

  datatype SignedEvent = SignedEvent(signature: Bytes, eventBytes: Bytes)

  /** The content bodies that the modelled code tells apart. */
  datatype ContentBody =
    | IdentityBody(document: Identity)
    | DeleteBody(target: Option<WireKey>)
    | BlockBody(blocked: Text)
    | PostBody(replyParent: Option<WireKey>)
    | RepostBody(post: Option<WireKey>)
    | OtherBody(bytes: Bytes)

  /** A decoded `Content`; its body may be missing. */
  datatype Content = Content(body: Option<ContentBody>)

  datatype EventProof = EventProof(targetSignature: Bytes, leafIndex: u64, auditPath: seq<Bytes>)

  datatype EventBundle = EventBundle(
    signedEvent: Option<SignedEvent>,
    serializedContent: Option<Bytes>,
    eventProofs: seq<EventProof>)

  // ----- uninterpreted operations -----

  /** Every theorem holds for every choice of these functions. */
  datatype Env = Env(
    sha: Bytes -> Hash,
    verifySignature: (Bytes, Bytes, Bytes) -> bool,
    decodeEvent: Bytes -> Option<Event>,
    decodeContent: Bytes -> Option<Content>,
    documentKey: Identity -> Text)
  {
    /** Only Ed25519 keys verify anything. */
    predicate SigMatches(key: PublicKey, signature: Bytes, message: Bytes) {
      key.keyType == KEY_TYPE_ED25519 && verifySignature(key.key, signature, message)
    }

    predicate DigestMatches(digest: ContentDigest, bytes: Bytes) {
      digest.kind == DIGEST_TYPE_SHA256 && digest.value == sha(bytes)
    }

    /** The event of a signed event, once its signature has been checked. */
    function Open(signed: SignedEvent): Option<Event> {
      match decodeEvent(signed.eventBytes)
      case None => None
      case Some(event) =>
        if event.key.None? || event.key.value.signedBy.None? then None
        else if !SigMatches(event.key.value.signedBy.value, signed.signature, signed.eventBytes) then None
        else Some(event)
    }
  }

  // ----- store keys -----

  /** The key of a stored event. The signer is always present. */
  datatype EventKey = EventKey(identity: Text, collection: int, signer: PublicKey, sequence: u64)

  function ToEventKey(key: WireKey): Option<EventKey> {
    match key.signedBy
    case None => None
    case Some(signer) => Some(EventKey(key.identity, key.collection, signer, key.sequence))
  }

  function KeyOf(event: Event): Option<EventKey> {
    match event.key
    case None => None
    case Some(key) => ToEventKey(key)
  }

  function KeyOfSigned(env: Env, signed: SignedEvent): Option<EventKey> {
    match env.decodeEvent(signed.eventBytes)
    case None => None
    case Some(event) => KeyOf(event)
  }

  /** The derived order of keys: by key type, then by key bytes. */
  function CompareSigners(a: PublicKey, b: PublicKey): Ordering {
    CompareInt(a.keyType, b.keyType).ThenWith(CompareSeq(a.key, b.key))
  }

  /** The order of the event map: identity, collection, signer, sequence. */
  function CompareKeys(a: EventKey, b: EventKey): Ordering {
    CompareSeq(a.identity, b.identity)
    .ThenWith(CompareInt(a.collection, b.collection))
    .ThenWith(CompareSigners(a.signer, b.signer))
    .ThenWith(CompareInt(a.sequence, b.sequence))
  }

  lemma {:induction false} SignersOrdered(a: PublicKey, b: PublicKey, c: PublicKey)
    ensures CompareSigners(a, b) == Equal <==> a == b
    ensures CompareSigners(b, a) == CompareSigners(a, b).Reverse()
    ensures Chains(CompareSigners(a, b), CompareSigners(b, c), CompareSigners(a, c))
  {
    CompareSeqOrder(a.key, b.key, c.key);
  }

  /** Signers compare by key type first, and event keys by identity, collection, signer and sequence. */
  lemma {:induction false} ComparisonMeaning(a: EventKey, b: EventKey)
    ensures CompareSigners(a.signer, b.signer) == Less
       <==> a.signer.keyType < b.signer.keyType
            || (a.signer.keyType == b.signer.keyType && BytesBefore(a.signer.key, b.signer.key))
    ensures CompareKeys(a, b) == Less
       <==> BytesBefore(a.identity, b.identity)
            || (a.identity == b.identity && a.collection < b.collection)
            || (a.identity == b.identity && a.collection == b.collection
                && CompareSigners(a.signer, b.signer) == Less)
            || (a.identity == b.identity && a.collection == b.collection && a.signer == b.signer
                && a.sequence < b.sequence)
  {
    CompareSeqMeaning(a.signer.key, b.signer.key);
    CompareSeqMeaning(a.identity, b.identity);
    CompareSeqOrder(a.signer.key, b.signer.key, a.signer.key);
    CompareSeqOrder(a.identity, b.identity, a.identity);
    CompareSeqOrder(a.signer.key, a.signer.key, a.signer.key);
    CompareSeqOrder(a.identity, a.identity, a.identity);
  }

  lemma {:induction false} KeysOrdered(a: EventKey, b: EventKey, c: EventKey)
    ensures CompareKeys(a, b) == Equal <==> a == b
    ensures CompareKeys(b, a) == CompareKeys(a, b).Reverse()
    ensures Chains(CompareKeys(a, b), CompareKeys(b, c), CompareKeys(a, c))
  {
    CompareSeqOrder(a.identity, b.identity, c.identity);
    SignersOrdered(a.signer, b.signer, c.signer);
  }
}
