/**
 What the client derives from its stores: identity chains, the validity of an event,
 visible events, the blocked set, sequences and vector clocks. Every function here
 computes from the stores alone; the client class caches two of them.
 */
module Validation {
  import opened Primitives
  import opened Model
  import opened IdentityDocument
  import opened IdentityChain
  import opened MerkleProof
  import opened Stores

  // ----- identity chains -----

  /** The candidate of a stored identity event whose content is also stored, preprocessed. */
  function ChainEvent(env: Env, identity: Text, contents: map<ContentDigest, Bytes>): Entry -> Option<IdentityEvent> {
    (e: Entry) =>
      match CandidateOf(env, contents, e.event)
      case None => None
      case Some(c) => Preprocess(env, identity, c)
  }

  function CandidateOf(env: Env, contents: map<ContentDigest, Bytes>, signed: SignedEvent): Option<IdentityCandidate> {
    match env.decodeEvent(signed.eventBytes)
    case None => None
    case Some(event) =>
      if event.contentDigest.None? || event.contentDigest.value !in contents then None
      else Some(IdentityCandidate(signed.eventBytes, contents[event.contentDigest.value], signed.signature))
  }

  function ChainEvents(env: Env, identity: Text, s: Stores): seq<IdentityEvent> {
    FilterMap(ChainEvent(env, identity, s.contents), ByCollection(s.events, identity, IDENTITY))
  }

  /** The chain resolved from the stores. */
  function FreshChain(env: Env, identity: Text, s: Stores): (c: Option<Chain>)
    ensures c.Some? ==> c.value != []
  {
    Resolve(env, identity, ChainEvents(env, identity, s))
  }

  function StateAt(chain: Chain, sequence: u64): Option<Identity> {
    if 1 <= sequence <= |chain| then Some(chain[sequence - 1].document) else None
  }

  // ----- validation -----

  function FindProof(proofs: seq<EventProof>, targetSignature: Bytes): (p: Option<EventProof>)
    ensures p.Some? ==> p.value in proofs && p.value.targetSignature == targetSignature
  {
    if proofs == [] then None
    else if proofs[0].targetSignature == targetSignature then Some(proofs[0])
    else FindProof(proofs[1..], targetSignature)
  }

  /** A signer the head no longer lists needs the recorded target to vouch for the signature. */
  predicate SurvivesRevocation(env: Env, head: Identity, signer: PublicKey, collection: int,
                               signature: Bytes, proofs: seq<EventProof>)
  {
    AuthorizesSigner(head, signer) ||
    match RevocationTargetFor(head, signer, collection)
    case None => false
    case Some(target) =>
      signature == target.signature ||
      match FindProof(proofs, target.signature)
      case None => false
      case Some(proof) => Proves(env.sha, signature, proof.leafIndex, target, proof.auditPath)
  }

  predicate ValidInChain(env: Env, chain: Chain, event: Event, signer: PublicKey, signed: SignedEvent,
                         proofs: seq<EventProof>)
    requires chain != [] && event.key.Some?
  {
    var key := event.key.value;
    if key.collection == IDENTITY then
      exists e | e in chain :: e.sequence == key.sequence && e.signer == signer
    else
      match (event.vectorClock, StateAt(chain, event.identitySequence))
      case (Some(clock), Some(document)) =>
        && AuthorizesSigner(document, signer)
        && SurvivesRevocation(env, chain[|chain| - 1].document, signer, key.collection, signed.signature, proofs)
        && GetSignerPosition(clock, document, signer, key.sequence).Ok?
      case _ => false
  }

  /** An event is valid against the chain of the identity it names. */
  predicate ValidEvent(env: Env, s: Stores, signed: SignedEvent, proofs: seq<EventProof>) {
    match env.decodeEvent(signed.eventBytes)
    case None => false
    case Some(event) =>
      event.key.Some? && event.key.value.signedBy.Some? &&
      match FreshChain(env, event.key.value.identity, s)
      case None => false
      case Some(chain) => ValidInChain(env, chain, event, event.key.value.signedBy.value, signed, proofs)
  }

  function IsValid(env: Env, s: Stores): Entry -> bool {
    (e: Entry) => ValidEvent(env, s, e.event, ProofsOf(s, e.key))
  }

  // ----- bundles, tombstones and blocks -----

  function ContentOf(env: Env, s: Stores, signed: SignedEvent): Option<Bytes> {
    match env.decodeEvent(signed.eventBytes)
    case None => None
    case Some(event) =>
      if event.contentDigest.None? || event.contentDigest.value !in s.contents then None
      else Some(s.contents[event.contentDigest.value])
  }

  function BundleFor(env: Env, s: Stores, e: Entry, includeProofs: bool): EventBundle {
    EventBundle(Some(e.event), ContentOf(env, s, e.event), if includeProofs then ProofsOf(s, e.key) else [])
  }

  function BodyOf(env: Env, bundle: EventBundle): Option<ContentBody> {
    match bundle.serializedContent
    case None => None
    case Some(bytes) =>
      match env.decodeContent(bytes)
      case None => None
      case Some(content) => content.body
  }

  /** The key a delete event hides. */
  function DeleteTarget(env: Env, bundle: EventBundle): Option<EventKey> {
    match BodyOf(env, bundle)
    case Some(DeleteBody(Some(target))) => ToEventKey(target)
    case _ => None
  }

  function BlockTarget(env: Env, bundle: EventBundle): Option<Text> {
    match BodyOf(env, bundle)
    case Some(BlockBody(blocked)) => Some(blocked)
    case _ => None
  }

  // ----- what entries and bundles mean -----

  /** The event of the entry states a digest under which the store holds these bytes. */
  ghost predicate RefersTo(env: Env, s: Stores, e: Entry, bytes: Bytes) {
    match env.decodeEvent(e.event.eventBytes)
    case None => false
    case Some(event) =>
      match event.contentDigest
      case None => false
      case Some(digest) => digest in s.contents && s.contents[digest] == bytes
  }

  /** The bundle carries the event of the entry, and its content exactly if the store holds it. */
  ghost predicate Carries(env: Env, s: Stores, e: Entry, b: EventBundle) {
    && b.signedEvent == Some(e.event)
    && forall bytes :: b.serializedContent == Some(bytes) <==> RefersTo(env, s, e, bytes)
  }

  lemma {:induction false} BundleCarries(env: Env, s: Stores, e: Entry, includeProofs: bool)
    ensures Carries(env, s, e, BundleFor(env, s, e, includeProofs))
    ensures BundleFor(env, s, e, includeProofs).eventProofs
         == if includeProofs && e.key in s.proofs then s.proofs[e.key] else []
  {
  }

  /** The stored content of `d` decodes to a delete that names `key`. */
  ghost predicate Deletes(env: Env, s: Stores, d: Entry, key: EventKey) {
    exists bytes :: RefersTo(env, s, d, bytes)
      && env.decodeContent(bytes)
         == Some(Content(Some(DeleteBody(Some(WireKey(key.collection, key.identity, Some(key.signer), key.sequence))))))
  }

  /** The stored content of `x` decodes to a block of `blocked`. */
  ghost predicate BlocksIdentity(env: Env, s: Stores, x: Entry, blocked: Text) {
    exists bytes :: RefersTo(env, s, x, bytes) && env.decodeContent(bytes) == Some(Content(Some(BlockBody(blocked))))
  }

  lemma {:induction false} TargetsMeaning(env: Env, s: Stores, e: Entry, key: EventKey, blocked: Text)
    ensures DeleteTarget(env, BundleFor(env, s, e, true)) == Some(key) <==> Deletes(env, s, e, key)
    ensures BlockTarget(env, BundleFor(env, s, e, true)) == Some(blocked) <==> BlocksIdentity(env, s, e, blocked)
  {
    var content := BundleFor(env, s, e, true).serializedContent;
    BundleCarries(env, s, e, true);
    assert forall bytes | RefersTo(env, s, e, bytes) :: content == Some(bytes);
    if content.Some? {
      assert RefersTo(env, s, e, content.value);
      KeyAsWired(key);
    }
  }

  lemma {:induction false} KeyAsWired(key: EventKey)
    ensures forall w: WireKey ::
              ToEventKey(w) == Some(key) <==> w == WireKey(key.collection, key.identity, Some(key.signer), key.sequence)
  {
  }

  function ValidEntries(env: Env, s: Stores, identity: Text, collection: int): EventStore {
    Filter(IsValid(env, s), ByCollection(s.events, identity, collection))
  }

  predicate Tombstoned(env: Env, s: Stores, valid: EventStore, key: EventKey) {
    exists d | d in valid :: DeleteTarget(env, BundleFor(env, s, d, true)) == Some(key)
  }

  function Untombstoned(env: Env, s: Stores, valid: EventStore): Entry -> bool {
    (e: Entry) => !Tombstoned(env, s, valid, e.key)
  }

  /** The valid entries of a collection that no valid delete of the same collection targets. */
  function VisibleEntries(env: Env, s: Stores, identity: Text, collection: int): EventStore {
    var valid := ValidEntries(env, s, identity, collection);
    Filter(Untombstoned(env, s, valid), valid)
  }

  function Bundled(env: Env, s: Stores): Entry -> EventBundle {
    (e: Entry) => BundleFor(env, s, e, true)
  }

  function VisibleBundles(env: Env, s: Stores, identity: Text, collection: int): seq<EventBundle> {
    Map(Bundled(env, s), VisibleEntries(env, s, identity, collection))
  }

  function BlockTargets(env: Env, bundles: seq<EventBundle>): set<Text> {
    set b | b in bundles && BlockTarget(env, b).Some? :: BlockTarget(env, b).value
  }

  /** The identities the active identity blocks. */
  function FreshBlocked(env: Env, s: Stores, active: Option<Text>): set<Text> {
    match active
    case None => {}
    case Some(identity) => BlockTargets(env, VisibleBundles(env, s, identity, SOCIAL_GRAPH))
  }

  // ----- sequences and clocks -----

  function MaxSequence(events: EventStore): (m: nat)
    ensures forall e | e in events :: e.key.sequence <= m
    ensures events != [] ==> exists e | e in events :: e.key.sequence == m
    ensures m < U64_LIMIT
  {
    if events == [] then 0
    else
      var rest := MaxSequence(events[1..]);
      assert events == [events[0]] + events[1..];
      if events[0].key.sequence > rest || |events| == 1 then events[0].key.sequence else rest
  }

  /** Addition of 1 to a `u64`. */
  function Successor64(x: u64): u64 {
    if x + 1 == U64_LIMIT then 0 else x + 1
  }

  /** One above the largest valid sequence, or 1; the addition wraps at 64 bits. */
  function NextSequence(env: Env, s: Stores, identity: Text, collection: int): u64 {
    NextAfter(ValidEntries(env, s, identity, collection))
  }

  function NextAfter(valid: EventStore): u64 {
    if valid == [] then 1 else Successor64(MaxSequence(valid))
  }

  /** One past the largest of the given sequences, modulo 2^64, and 1 after none. */
  lemma {:induction false} NextAfterMeaning(valid: EventStore, m: u64)
    ensures NextAfter([]) == 1
    ensures (exists x :: x in valid && x.key.sequence == m) && (forall x | x in valid :: x.key.sequence <= m) ==>
              NextAfter(valid) == (m + 1) % U64_LIMIT
  {
  }

  /** The sequence of the last entry of a stream that satisfies `p`, or 0. */
  function LastWhere(p: Entry -> bool, stream: EventStore): u64 {
    if stream == [] then 0
    else
      var last := stream[|stream| - 1];
      if p(last) then last.key.sequence else LastWhere(p, stream[..|stream| - 1])
  }

  /** The sequence of the last valid entry of an ascending stream, or 0. */
  function LatestValid(env: Env, s: Stores, stream: EventStore): u64 {
    LastWhere(IsValid(env, s), stream)
  }

  function ClockEntry(env: Env, s: Stores, identity: Text, collection: int, signer: PublicKey, sequence: u64)
    : PublicKey -> u64
  {
    (key: PublicKey) =>
      if key == signer then sequence else LatestValid(env, s, ByStream(s.events, identity, collection, key, 0))
  }

  /** One entry per key of the document: the signer's own sequence, and the latest valid sequence of the others. */
  function ClockFor(env: Env, s: Stores, identity: Text, collection: int, signer: PublicKey, sequence: u64,
                    document: Identity): seq<u64>
  {
    Map(ClockEntry(env, s, identity, collection, signer, sequence), DeduplicatedKeys(document))
  }

  function BuildVectorClock(env: Env, s: Stores, identity: Text, collection: int, identitySequence: u64,
                            signer: PublicKey, sequence: u64, document: Option<Identity>): Result<seq<u64>>
  {
    match FreshChain(env, identity, s)
    case None => Err
    case Some(chain) =>
      match if document.Some? then document else StateAt(chain, identitySequence)
      case None => Err
      case Some(doc) => Ok(ClockFor(env, s, identity, collection, signer, sequence, doc))
  }

  /** Whether the event at clock position `i` is one of another key that the store lacks. */
  predicate IsMissing(events: EventStore, clock: seq<u64>, keys: seq<PublicKey>, identity: Text, collection: int,
                      self: nat, i: nat)
    requires i < |clock| == |keys|
  {
    && i != self && clock[i] != 0
    && forall e | e in ByStream(events, identity, collection, keys[i], 0) :: e.key.sequence != clock[i]
  }

  /** The events a clock refers to that are not in the store, by position. */
  function MissingFrom(events: EventStore, clock: seq<u64>, keys: seq<PublicKey>, identity: Text, collection: int,
                       self: nat, i: nat): seq<EventKey>
    requires i <= |clock| == |keys|
    decreases |clock| - i
  {
    if i == |clock| then []
    else (if IsMissing(events, clock, keys, identity, collection, self, i)
          then [EventKey(identity, collection, keys[i], clock[i])] else [])
         + MissingFrom(events, clock, keys, identity, collection, self, i + 1)
  }

  /** A key is reported missing exactly if the clock observes it at a position other than the signer's own, and the
      store has no event under it. */
  lemma {:induction false} MissingExactly(events: EventStore, clock: seq<u64>, keys: seq<PublicKey>, identity: Text,
                                          collection: int, self: nat, from: nat, key: EventKey)
    requires from <= |clock| == |keys|
    ensures key in MissingFrom(events, clock, keys, identity, collection, self, from)
       <==> SomeObserves(clock, keys, identity, collection, self, from, key) && forall e | e in events :: e.key != key
    decreases |clock| - from
  {
    if from < |clock| {
      MissingExactly(events, clock, keys, identity, collection, self, from + 1, key);
      MissingMeaning(events, clock, keys, identity, collection, self, from);
      var rest := MissingFrom(events, clock, keys, identity, collection, self, from + 1);
      assert SomeObserves(clock, keys, identity, collection, self, from, key)
        <==> Observes(clock, keys, identity, collection, self, from, key)
             || SomeObserves(clock, keys, identity, collection, self, from + 1, key);
      assert key in MissingFrom(events, clock, keys, identity, collection, self, from)
        <==> key in rest || (IsMissing(events, clock, keys, identity, collection, self, from)
                             && key == EventKey(identity, collection, keys[from], clock[from]));
    }
  }

  /** The clock says at position `i`, which is not the signer's own, that the event of the key has been observed. */
  predicate Observes(clock: seq<u64>, keys: seq<PublicKey>, identity: Text, collection: int, self: nat, i: nat,
                     key: EventKey)
    requires i < |clock| == |keys|
  {
    i != self && clock[i] != 0 && key == EventKey(identity, collection, keys[i], clock[i])
  }

  ghost predicate SomeObserves(clock: seq<u64>, keys: seq<PublicKey>, identity: Text, collection: int, self: nat,
                               from: nat, key: EventKey)
    requires |clock| == |keys|
  {
    exists i :: from <= i < |clock| && Observes(clock, keys, identity, collection, self, i, key)
  }

  lemma {:induction false} MissingMeaning(events: EventStore, clock: seq<u64>, keys: seq<PublicKey>, identity: Text,
                                          collection: int, self: nat, i: nat)
    requires i < |clock| == |keys|
    ensures IsMissing(events, clock, keys, identity, collection, self, i)
       <==> i != self && clock[i] != 0
            && forall e | e in events :: e.key != EventKey(identity, collection, keys[i], clock[i])
  {
    var stream := ByStream(events, identity, collection, keys[i], 0);
    if clock[i] != 0 {
      forall e | e in events && e.key == EventKey(identity, collection, keys[i], clock[i]) ensures e in stream {
      }
    }
  }

  lemma {:induction false} MissingUnfolds(events: EventStore, clock: seq<u64>, keys: seq<PublicKey>, identity: Text,
                                          collection: int, self: nat, i: nat, found: seq<EventKey>)
    requires i < |clock| == |keys|
    ensures var rest := MissingFrom(events, clock, keys, identity, collection, self, i + 1);
            found + MissingFrom(events, clock, keys, identity, collection, self, i)
            == (if IsMissing(events, clock, keys, identity, collection, self, i)
                then found + [EventKey(identity, collection, keys[i], clock[i])] else found) + rest
  {
    var rest, key := MissingFrom(events, clock, keys, identity, collection, self, i + 1),
                     EventKey(identity, collection, keys[i], clock[i]);
    assert found + ([key] + rest) == (found + [key]) + rest;
    assert found + ([] + rest) == found + rest;
  }

  method VerifyVectorClock(events: EventStore, clock: seq<u64>, document: Identity, identity: Text, collection: int,
                           signer: PublicKey, expected: u64) returns (r: Result<seq<EventKey>>)
    ensures r.Ok? <==> GetSignerPosition(clock, document, signer, expected).Ok?
    ensures r.Ok? ==> |clock| == |DeduplicatedKeys(document)|
    ensures r.Ok? ==>
      r.value == MissingFrom(events, clock, DeduplicatedKeys(document), identity, collection,
                             GetSignerPosition(clock, document, signer, expected).value, 0)
  {
    var position := GetSignerPosition(clock, document, signer, expected);
    if position.Err? {
      return Err;
    }
    var keys := DeduplicatedKeys(document);
    var missing := [];
    var i := 0;
    while i < |clock|
      invariant 0 <= i <= |clock| == |keys|
      invariant missing + MissingFrom(events, clock, keys, identity, collection, position.value, i)
             == MissingFrom(events, clock, keys, identity, collection, position.value, 0)
    {
      MissingUnfolds(events, clock, keys, identity, collection, position.value, i, missing);
      var observed := clock[i];
      if i != position.value && observed != 0 {
        var seen := exists e | e in ByStream(events, identity, collection, keys[i], 0) :: e.key.sequence == observed;
        if !seen {
          missing := missing + [EventKey(identity, collection, keys[i], observed)];
        }
      }
      i := i + 1;
    }
    r := Ok(missing);
  }
}
