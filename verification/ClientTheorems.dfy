/** Properties that span the client's operations: revocation, clocks, publishing and tombstones. */
module ClientTheorems {
  import opened Primitives
  import opened Model
  import opened IdentityDocument
  import opened IdentityChain
  import opened ChainTheorems
  import opened MerkleTree
  import opened MerkleProof
  import opened Stores
  import opened Validation
  import Client

  // ----- revocation -----

  /** A non-identity event whose signer the head of its chain no longer authorizes, with the target the
      head records for it. */
  ghost predicate FromRevokedSigner(env: Env, s: Stores, signed: SignedEvent, target: EventProofTarget) {
    match env.decodeEvent(signed.eventBytes)
    case Some(Event(Some(WireKey(collection, identity, Some(signer), _)), _, _, _, _, _, _)) =>
      collection != IDENTITY &&
      (match FreshChain(env, identity, s)
       case Some(chain) =>
         && !AuthorizesSigner(chain[|chain| - 1].document, signer)
         && Records(chain[|chain| - 1].document, signer, collection, target)
       case None => false)
    case _ => false
  }

  lemma {:induction false} TargetOfRevoked(env: Env, s: Stores, signed: SignedEvent, target: EventProofTarget)
    requires FromRevokedSigner(env, s, signed, target)
    ensures var key := env.decodeEvent(signed.eventBytes).value.key.value;
            var chain := FreshChain(env, key.identity, s).value;
            RevocationTargetFor(chain[|chain| - 1].document, key.signedBy.value, key.collection) == Some(target)
  {
    var key := env.decodeEvent(signed.eventBytes).value.key.value;
    var chain := FreshChain(env, key.identity, s).value;
    TargetIsRecorded(chain[|chain| - 1].document, key.signedBy.value, key.collection, target);
  }

  /** Revocation end to end: when the target commits to a list of signatures, an event of the revoked
      signer validates only with the target's own signature or a member of the list, unless this
      function computes a collision. */
  function RevokedSignerCollision(env: Env, s: Stores, signed: SignedEvent, proofs: seq<EventProof>,
                                  target: EventProofTarget, signatures: seq<Bytes>): (c: Option<(Bytes, Bytes)>)
    requires FromRevokedSigner(env, s, signed, target) && CommitsTo(env.sha, target, signatures)
    requires ValidEvent(env, s, signed, proofs)
    ensures c.None? ==> signed.signature == target.signature || signed.signature in signatures
    ensures c.Some? ==> Collision(env.sha, c.value.0, c.value.1)
  {
    TargetOfRevoked(env, s, signed, target);
    if signed.signature == target.signature then None
    else
      var proof := FindProof(proofs, target.signature).value;
      ProofCollision(env.sha, signed.signature, proof.leafIndex, target, proof.auditPath, signatures)
  }

  /** Without a recorded target a revoked signer's events never validate. */
  lemma {:induction false} RevokedWithoutTarget(env: Env, s: Stores, signed: SignedEvent, proofs: seq<EventProof>,
                                                event: Event, signer: PublicKey, chain: Chain)
    requires env.decodeEvent(signed.eventBytes) == Some(event) && event.key.Some?
    requires event.key.value.signedBy == Some(signer) && event.key.value.collection != IDENTITY
    requires FreshChain(env, event.key.value.identity, s) == Some(chain)
    requires !AuthorizesSigner(chain[|chain| - 1].document, signer)
    requires RecordsNone(chain[|chain| - 1].document, signer, event.key.value.collection)
    ensures !ValidEvent(env, s, signed, proofs)
  {
    ValidEventIff(env, s, signed, proofs, event, signer, chain);
  }

  lemma {:induction false} ProofSurvives(env: Env, head: Identity, signer: PublicKey, collection: int, signature: Bytes,
                                         target: EventProofTarget, proof: EventProof)
    requires RevocationTargetFor(head, signer, collection) == Some(target)
    requires proof.targetSignature == target.signature
    requires Proves(env.sha, signature, proof.leafIndex, target, proof.auditPath)
    ensures SurvivesRevocation(env, head, signer, collection, signature, [proof])
  {
    assert FindProof([proof], target.signature) == Some(proof);
  }

  /** Conversely a member of the committed list validates with the proof built for its place, when the
      signer was authorized by the document the event refers to and the clock is sound. */
  lemma {:induction false} RevokedSignerKeepsHistory(env: Env, s: Stores, signed: SignedEvent, target: EventProofTarget,
                                                     signatures: seq<Bytes>, i: nat)
    requires FromRevokedSigner(env, s, signed, target) && CommitsTo(env.sha, target, signatures)
    requires i < |signatures| && signatures[i] == signed.signature
    requires match env.decodeEvent(signed.eventBytes)
             case Some(Event(Some(WireKey(_, identity, Some(signer), sequence)), idSeq, Some(clock), _, _, _, _)) =>
               (match FreshChain(env, identity, s)
                case Some(chain) =>
                  && StateAt(chain, idSeq).Some?
                  && GetSignerPosition(clock, StateAt(chain, idSeq).value, signer, sequence).Ok?
                case None => false)
             case _ => false
    ensures ValidEvent(env, s, signed, [BuiltProof(env, target, signatures, i)])
  {
    ProofComplete(env.sha, i, target, signatures);
    TargetOfRevoked(env, s, signed, target);
    var event := env.decodeEvent(signed.eventBytes).value;
    var key := event.key.value;
    var chain := FreshChain(env, key.identity, s).value;
    ProofSurvives(env, chain[|chain| - 1].document, key.signedBy.value, key.collection, signed.signature, target,
                  BuiltProof(env, target, signatures, i));
  }

  /** The proof against `target` for place `i` of the committed list. */
  function BuiltProof(env: Env, target: EventProofTarget, signatures: seq<Bytes>, i: nat): EventProof
    requires i < |signatures| && |signatures| < U64_LIMIT
  {
    EventProof(target.signature, i, AuditPath(Rfc6962(env.sha), signatures, i))
  }

  /** The head lists the signer, or the signature is the one that the head records for the revoked signer. */
  ghost predicate NeedsNoProof(env: Env, s: Stores, x: Entry) {
    match FreshChain(env, x.key.identity, s)
    case None => false
    case Some(chain) =>
      var head := chain[|chain| - 1].document;
      || AuthorizesSigner(head, x.key.signer)
      || exists target :: Records(head, x.key.signer, x.key.collection, target) && x.event.signature == target.signature
  }

  /** A restart copies events and contents back into the core, and no proofs. What was valid stays valid if and only if
      it is an identity event or needs no proof. */
  lemma {:induction false} WithoutProofs(env: Env, s: Stores, x: Entry)
    requires KeyOfSigned(env, x.event) == Some(x.key)
    ensures IsValid(env, s.(proofs := map[]))(x)
       <==> IsValid(env, s)(x) && (x.key.collection == IDENTITY || NeedsNoProof(env, s, x))
  {
    var t := s.(proofs := map[]);
    assert FreshChain(env, x.key.identity, t) == FreshChain(env, x.key.identity, s);
    var event := env.decodeEvent(x.event.eventBytes).value;
    match FreshChain(env, x.key.identity, s)
    case None =>
    case Some(chain) => WithoutProofsInChain(env, chain, event, x.key.signer, x.event, ProofsOf(s, x.key));
  }

  lemma {:induction false} WithoutProofsInChain(env: Env, chain: Chain, event: Event, signer: PublicKey,
                                                signed: SignedEvent, proofs: seq<EventProof>)
    requires chain != [] && event.key.Some?
    ensures var head := chain[|chain| - 1].document;
            ValidInChain(env, chain, event, signer, signed, [])
            <==> ValidInChain(env, chain, event, signer, signed, proofs)
                 && (event.key.value.collection == IDENTITY
                     || AuthorizesSigner(head, signer)
                     || exists target :: Records(head, signer, event.key.value.collection, target)
                                         && signed.signature == target.signature)
  {
    var head, collection := chain[|chain| - 1].document, event.key.value.collection;
    SurvivesUnproved(env, head, signer, collection, signed.signature, proofs);
  }

  /** Without proofs only the recorded signature itself survives, and it survives with any proofs. */
  lemma {:induction false} SurvivesUnproved(env: Env, head: Identity, signer: PublicKey, collection: int,
                                            signature: Bytes, proofs: seq<EventProof>)
    ensures SurvivesRevocation(env, head, signer, collection, signature, [])
       <==> AuthorizesSigner(head, signer)
            || exists target :: Records(head, signer, collection, target) && signature == target.signature
    ensures SurvivesRevocation(env, head, signer, collection, signature, []) ==>
              SurvivesRevocation(env, head, signer, collection, signature, proofs)
  {
    forall target
      ensures RevocationTargetFor(head, signer, collection) == Some(target)
         <==> Records(head, signer, collection, target)
    {
      TargetIsRecorded(head, signer, collection, target);
    }
  }

  // ----- validity -----

  /** An event that validates is backed by the chain: an identity event is in it, and any other event was signed by a
      key of the document it refers to and carries its own sequence at that key's place in the clock. */
  lemma {:induction false} ValidEventIsAuthorized(env: Env, s: Stores, signed: SignedEvent, proofs: seq<EventProof>,
                                                  event: Event, signer: PublicKey)
    requires ValidEvent(env, s, signed, proofs)
    requires env.decodeEvent(signed.eventBytes) == Some(event) && event.key.value.signedBy == Some(signer)
    ensures FreshChain(env, event.key.value.identity, s).Some?
    ensures Backed(FreshChain(env, event.key.value.identity, s).value, event, signer)
  {
    var identity := event.key.value.identity;
    var chain := FreshChain(env, identity, s).value;
    FreshSequences(env, identity, s, chain);
    ValidIsBacked(env, chain, event, signer, signed, proofs);
  }

  /** `k` is the place of the first proof for the signature. */
  ghost predicate FirstProofAt(proofs: seq<EventProof>, signature: Bytes, k: nat) {
    && k < |proofs| && proofs[k].targetSignature == signature
    && forall j | 0 <= j < k :: proofs[j].targetSignature != signature
  }

  /** The head lists the signer, or the target that it records for the signer and the collection is of this very
      signature, or the first proof for that target proves the signature. */
  ghost predicate StillVouched(env: Env, head: Identity, signer: PublicKey, collection: int, signature: Bytes,
                               proofs: seq<EventProof>) {
    || signer in head.rotationKeys || signer in head.signingKeys
    || exists target :: Records(head, signer, collection, target)
         && (signature == target.signature
             || exists k: nat :: FirstProofAt(proofs, target.signature, k)
                  && Proves(env.sha, signature, proofs[k].leafIndex, target, proofs[k].auditPath))
  }

  lemma {:induction false} FirstProof(proofs: seq<EventProof>, signature: Bytes) returns (k: nat)
    ensures FindProof(proofs, signature).Some? ==>
              FirstProofAt(proofs, signature, k) && FindProof(proofs, signature) == Some(proofs[k])
    ensures FindProof(proofs, signature).None? ==>
              forall j | 0 <= j < |proofs| :: proofs[j].targetSignature != signature
  {
    k := 0;
    if proofs != [] && proofs[0].targetSignature != signature {
      k := FirstProof(proofs[1..], signature);
      k := k + 1;
    }
  }

  lemma {:induction false} SurvivesMeaning(env: Env, head: Identity, signer: PublicKey, collection: int,
                                           signature: Bytes, proofs: seq<EventProof>)
    ensures SurvivesRevocation(env, head, signer, collection, signature, proofs)
       <==> StillVouched(env, head, signer, collection, signature, proofs)
  {
    forall target
      ensures RevocationTargetFor(head, signer, collection) == Some(target)
         <==> Records(head, signer, collection, target)
    {
      TargetIsRecorded(head, signer, collection, target);
    }
    match RevocationTargetFor(head, signer, collection)
    case None =>
    case Some(target) =>
      var k := FirstProof(proofs, target.signature);
  }

  /** An event of another collection than the identity's validates if and only if it was signed by a key of the chain
      document it refers to, with a fitting clock, and the head still lists the key or vouches for the signature. */
  lemma {:induction false} ValidEventIff(env: Env, s: Stores, signed: SignedEvent, proofs: seq<EventProof>,
                                         event: Event, signer: PublicKey, chain: Chain)
    requires env.decodeEvent(signed.eventBytes) == Some(event) && event.key.Some?
    requires event.key.value.signedBy == Some(signer) && event.key.value.collection != IDENTITY
    requires FreshChain(env, event.key.value.identity, s) == Some(chain)
    ensures ValidEvent(env, s, signed, proofs)
       <==> Backed(chain, event, signer)
            && StillVouched(env, chain[|chain| - 1].document, signer, event.key.value.collection, signed.signature,
                            proofs)
  {
    SurvivesMeaning(env, chain[|chain| - 1].document, signer, event.key.value.collection, signed.signature, proofs);
    FreshSequences(env, event.key.value.identity, s, chain);
    if ValidInChain(env, chain, event, signer, signed, proofs) {
      ValidIsBacked(env, chain, event, signer, signed, proofs);
    }
    if Backed(chain, event, signer) {
      BackedByState(chain, event, signer);
    }
  }

  lemma {:induction false} FreshSequences(env: Env, identity: Text, s: Stores, chain: Chain)
    requires FreshChain(env, identity, s) == Some(chain)
    ensures forall i | 0 <= i < |chain| :: chain[i].sequence == i + 1
  {
    ResolveIsGreedy(env, identity, ChainEvents(env, identity, s));
    forall i | 0 <= i < |chain| ensures chain[i].sequence == i + 1 {
      ChainSequence(env, identity, Pool(ChainEvents(env, identity, s)), chain, i);
    }
  }

  lemma {:induction false} BackedByState(chain: Chain, event: Event, signer: PublicKey)
    requires event.key.Some? && event.key.value.collection != IDENTITY && Backed(chain, event, signer)
    requires forall i | 0 <= i < |chain| :: chain[i].sequence == i + 1
    ensures StateAt(chain, event.identitySequence).Some? && event.vectorClock.Some?
    ensures AuthorizesSigner(StateAt(chain, event.identitySequence).value, signer)
    ensures GetSignerPosition(event.vectorClock.value, StateAt(chain, event.identitySequence).value, signer,
                              event.key.value.sequence).Ok?
  {
    var e :| e in chain && SignedUnder(e, event, signer);
    var i :| 0 <= i < |chain| && chain[i] == e;
    assert i + 1 == event.identitySequence;
  }

  ghost predicate Backed(chain: Chain, event: Event, signer: PublicKey)
    requires event.key.Some?
  {
    exists e | e in chain ::
      if event.key.value.collection == IDENTITY then e.sequence == event.key.value.sequence && e.signer == signer
      else SignedUnder(e, event, signer)
  }

  lemma {:induction false} ValidIsBacked(env: Env, chain: Chain, event: Event, signer: PublicKey, signed: SignedEvent,
                                         proofs: seq<EventProof>)
    requires chain != [] && event.key.Some? && ValidInChain(env, chain, event, signer, signed, proofs)
    requires forall i | 0 <= i < |chain| :: chain[i].sequence == i + 1
    ensures Backed(chain, event, signer)
  {
    if event.key.value.collection != IDENTITY {
      var e := chain[event.identitySequence - 1];
      assert e in chain && SignedUnder(e, event, signer);
    }
  }

  /** `e` is the chain event that `event` refers to; its document lists the signer, and the clock fits the document. */
  ghost predicate SignedUnder(e: IdentityEvent, event: Event, signer: PublicKey) {
    && e.sequence == event.identitySequence && event.key.Some? && event.vectorClock.Some?
    && (signer in e.document.rotationKeys || signer in e.document.signingKeys)
    && |event.vectorClock.value| == |DeduplicatedKeys(e.document)|
    && exists i :: 0 <= i < |event.vectorClock.value| && DeduplicatedKeys(e.document)[i] == signer
                   && event.vectorClock.value[i] == event.key.value.sequence
  }

  // ----- chains in the stores -----

  /** The entry is filed under this place of the identity's chain, its signer's Ed25519 key verifies its signature, and
      stored content of its digest decodes to the document. */
  ghost predicate AttestedBy(env: Env, s: Stores, identity: Text, x: Entry, e: IdentityEvent) {
    && x in s.events && x.key == EventKey(identity, IDENTITY, e.signer, e.sequence)
    && e.signer.keyType == KEY_TYPE_ED25519
    && env.verifySignature(e.signer.key, x.event.signature, x.event.eventBytes)
    && exists bytes :: RefersTo(env, s, x, bytes)
                       && env.decodeContent(bytes) == Some(Content(Some(IdentityBody(e.document))))
  }

  lemma {:induction false} AttestedMeaning(env: Env, s: Stores, identity: Text, x: Entry, e: IdentityEvent)
    requires ValidStores(env, s) && x in ByCollection(s.events, identity, IDENTITY)
    ensures ChainEvent(env, identity, s.contents)(x) == Some(e) <==> AttestedBy(env, s, identity, x, e)
  {
    assert KeyOfSigned(env, x.event) == Some(x.key);
    match CandidateOf(env, s.contents, x.event)
    case None =>
    case Some(c) =>
      PreprocessedIsAttested(env, identity, c, e);
      assert RefersTo(env, s, x, c.contentBytes);
  }

  /** The candidates of an identity are exactly the identity events that some stored entry attests. */
  lemma {:induction false} CandidatesAreAttested(env: Env, s: Stores, identity: Text, e: IdentityEvent)
    requires ValidStores(env, s)
    ensures e in ChainEvents(env, identity, s) <==> exists x :: AttestedBy(env, s, identity, x, e)
  {
    var f, entries := ChainEvent(env, identity, s.contents), ByCollection(s.events, identity, IDENTITY);
    FilterMapMembers(f, entries, e);
    forall x | x in entries ensures f(x) == Some(e) <==> AttestedBy(env, s, identity, x, e) {
      AttestedMeaning(env, s, identity, x, e);
    }
  }

  /** Hence every event of a resolved chain is attested by a stored entry: nobody without the private key of a listed
      signer can extend a chain. */
  lemma {:induction false} ChainIsAttested(env: Env, s: Stores, identity: Text, chain: Chain, e: IdentityEvent)
    requires ValidStores(env, s) && FreshChain(env, identity, s) == Some(chain) && e in chain
    ensures exists x :: AttestedBy(env, s, identity, x, e)
  {
    ResolveIsGreedy(env, identity, ChainEvents(env, identity, s));
    assert e in Pool(ChainEvents(env, identity, s));
    CandidatesAreAttested(env, s, identity, e);
  }

  // ----- vector clocks -----

  /** `LastWhere` is 0 or the sequence of an entry that satisfies `p`. */
  lemma {:induction false} LastWhereIsStored(p: Entry -> bool, stream: EventStore)
    ensures LastWhere(p, stream) == 0 || exists e | e in stream :: p(e) && e.key.sequence == LastWhere(p, stream)
  {
    if stream != [] {
      var last := stream[|stream| - 1];
      assert stream == stream[..|stream| - 1] + [last];
      LastWhereIsStored(p, stream[..|stream| - 1]);
    }
  }

  /** In an ascending stream it is at least the sequence of every entry that satisfies `p`. */
  lemma {:induction false} LastWhereIsGreatest(p: Entry -> bool, stream: EventStore, e: Entry)
    requires forall i, j | 0 <= i < j < |stream| :: stream[i].key.sequence < stream[j].key.sequence
    requires e in stream && p(e)
    ensures e.key.sequence <= LastWhere(p, stream)
    decreases |stream|
  {
    var front, last := stream[..|stream| - 1], stream[|stream| - 1];
    assert stream == front + [last];
    if e in front {
      LastWhereIsGreatest(p, front, e);
    }
  }

  /** The entry of another authorized key in a built clock bounds the valid events of that key. */
  lemma {:induction false} BuiltClockIsLatest(env: Env, s: Stores, identity: Text, collection: int, signer: PublicKey,
                                              sequence: u64, document: Identity, i: nat, e: Entry)
    requires ValidStores(env, s)
    requires i < |DeduplicatedKeys(document)| && DeduplicatedKeys(document)[i] != signer
    requires e in ByStream(s.events, identity, collection, DeduplicatedKeys(document)[i], 0) && IsValid(env, s)(e)
    ensures e.key.sequence <= ClockFor(env, s, identity, collection, signer, sequence, document)[i]
  {
    var key := DeduplicatedKeys(document)[i];
    var stream := ByStream(s.events, identity, collection, key, 0);
    forall i, j | 0 <= i < j < |stream| ensures stream[i].key.sequence < stream[j].key.sequence {
      StreamAscends(s.events, identity, collection, key, 0, i, j);
    }
    LastWhereIsGreatest(IsValid(env, s), stream, e);
  }

  lemma {:induction false} NothingMissing(events: EventStore, clock: seq<u64>, keys: seq<PublicKey>, identity: Text,
                                          collection: int, self: nat, i: nat)
    requires i <= |clock| == |keys|
    requires forall j | i <= j < |clock| :: !IsMissing(events, clock, keys, identity, collection, self, j)
    ensures MissingFrom(events, clock, keys, identity, collection, self, i) == []
    decreases |clock| - i
  {
    if i < |clock| {
      NothingMissing(events, clock, keys, identity, collection, self, i + 1);
    }
  }

  /** A built clock passes structural verification against the same document exactly when the document
      lists the signer. */
  lemma {:induction false} BuiltClockVerifies(env: Env, s: Stores, identity: Text, collection: int, signer: PublicKey,
                                              sequence: u64, document: Identity)
    ensures var clock := ClockFor(env, s, identity, collection, signer, sequence, document);
      GetSignerPosition(clock, document, signer, sequence).Ok? <==> AuthorizesSigner(document, signer)
  {
    var clock := ClockFor(env, s, identity, collection, signer, sequence, document);
    var keys := DeduplicatedKeys(document);
    if AuthorizesSigner(document, signer) {
      var i :| 0 <= i < |keys| && keys[i] == signer;
      assert clock[i] == ClockEntry(env, s, identity, collection, signer, sequence)(keys[i]) == sequence;
    }
  }

  /** A built clock reports nothing missing, now and after any growth of the event store. */
  lemma {:induction false} BuiltClockIsComplete(env: Env, s: Stores, grown: EventStore, identity: Text, collection: int,
                             signer: PublicKey, sequence: u64, document: Identity)
    requires AuthorizesSigner(document, signer)
    requires forall e | e in s.events :: e in grown
    ensures var clock := ClockFor(env, s, identity, collection, signer, sequence, document);
      && GetSignerPosition(clock, document, signer, sequence).Ok?
      && |clock| == |DeduplicatedKeys(document)|
      && MissingFrom(grown, clock, DeduplicatedKeys(document), identity, collection,
                     GetSignerPosition(clock, document, signer, sequence).value, 0) == []
  {
    BuiltClockVerifies(env, s, identity, collection, signer, sequence, document);
    var clock := ClockFor(env, s, identity, collection, signer, sequence, document);
    var keys := DeduplicatedKeys(document);
    var self := GetSignerPosition(clock, document, signer, sequence).value;
    forall j | 0 <= j < |clock| ensures !IsMissing(grown, clock, keys, identity, collection, self, j) {
      assert clock[j] == ClockEntry(env, s, identity, collection, signer, sequence)(keys[j]);
      if keys[j] != signer {
        var stream := ByStream(s.events, identity, collection, keys[j], 0);
        LastWhereIsStored(IsValid(env, s), stream);
        if clock[j] != 0 {
          var e :| e in stream && e.key.sequence == clock[j];
          assert e in ByStream(grown, identity, collection, keys[j], 0);
        }
      }
    }
    NothingMissing(grown, clock, keys, identity, collection, self, 0);
  }

  /** The document a clock is built for: the given one, or that of the chain at the given sequence. */
  function ClockDocument(chain: Chain, identitySequence: u64, document: Option<Identity>): Option<Identity> {
    if document.Some? then document else StateAt(chain, identitySequence)
  }

  /** The clock round trip: a clock is built exactly when the chain resolves and the document exists; it verifies
      against that document if and only if the document lists the signer, and then nothing is missing, however the
      store grows. */
  lemma {:induction false} ClockRoundTrip(env: Env, s: Stores, grown: EventStore, identity: Text, collection: int,
                                          identitySequence: u64, signer: PublicKey, sequence: u64,
                                          given: Option<Identity>)
    requires forall e | e in s.events :: e in grown
    ensures BuildVectorClock(env, s, identity, collection, identitySequence, signer, sequence, given).Ok?
       <==> FreshChain(env, identity, s).Some?
            && ClockDocument(FreshChain(env, identity, s).value, identitySequence, given).Some?
    ensures match BuildVectorClock(env, s, identity, collection, identitySequence, signer, sequence, given)
            case Err => true
            case Ok(clock) =>
              var document := ClockDocument(FreshChain(env, identity, s).value, identitySequence, given).value;
              var position := GetSignerPosition(clock, document, signer, sequence);
              && (position.Ok? <==> AuthorizesSigner(document, signer))
              && (position.Ok? ==>
                    [] == MissingFrom(grown, clock, DeduplicatedKeys(document), identity, collection,
                                      position.value, 0))
  {
    var built := BuildVectorClock(env, s, identity, collection, identitySequence, signer, sequence, given);
    if built.Ok? {
      var document := ClockDocument(FreshChain(env, identity, s).value, identitySequence, given).value;
      BuiltClockVerifies(env, s, identity, collection, signer, sequence, document);
      if AuthorizesSigner(document, signer) {
        BuiltClockIsComplete(env, s, grown, identity, collection, signer, sequence, document);
      }
    }
  }

  // ----- publishing an identity event -----

  /** A preprocessed event keeps the sequence and signer of the key it is stored under. */
  lemma {:induction false} ChainEventKeepsKey(env: Env, contents: map<ContentDigest, Bytes>, x: Entry, identity: Text,
                                              e: IdentityEvent)
    requires KeyOfSigned(env, x.event) == Some(x.key) && ChainEvent(env, identity, contents)(x) == Some(e)
    ensures e.sequence == x.key.sequence && e.signer == x.key.signer
  {
  }

  /** The entry behind an event of a resolved chain. */
  lemma {:induction false} ChainEventIsStored(env: Env, s: Stores, identity: Text, e: IdentityEvent)
    requires ValidStores(env, s) && e in ChainEvents(env, identity, s)
    ensures exists x :: x in ByCollection(s.events, identity, IDENTITY)
                        && x.key.sequence == e.sequence && x.key.signer == e.signer
  {
    FilterMapMembers(ChainEvent(env, identity, s.contents), ByCollection(s.events, identity, IDENTITY), e);
    var x :| x in ByCollection(s.events, identity, IDENTITY) && ChainEvent(env, identity, s.contents)(x) == Some(e);
    ChainEventKeepsKey(env, s.contents, x, identity, e);
  }

  lemma {:induction false} ValidByChain(env: Env, s: Stores, chain: Chain, x: Entry)
    requires KeyOfSigned(env, x.event) == Some(x.key) && x.key.collection == IDENTITY
    requires FreshChain(env, x.key.identity, s) == Some(chain)
    ensures IsValid(env, s)(x) <==> exists e :: e in chain && e.sequence == x.key.sequence && e.signer == x.key.signer
  {
  }

  /** An identity entry is valid exactly when the chain holds an event with its sequence and signer. */
  lemma {:induction false} ValidIdentityEntry(env: Env, s: Stores, identity: Text, chain: Chain, x: Entry)
    requires ValidStores(env, s) && FreshChain(env, identity, s) == Some(chain)
    requires x in ByCollection(s.events, identity, IDENTITY)
    ensures x in ValidEntries(env, s, identity, IDENTITY)
      <==> exists e :: e in chain && e.sequence == x.key.sequence && e.signer == x.key.signer
  {
    ValidByChain(env, s, chain, x);
    assert x in ValidEntries(env, s, identity, IDENTITY) <==> IsValid(env, s)(x);
  }

  lemma {:induction false} HeadIsValid(env: Env, s: Stores, identity: Text, chain: Chain)
    requires ValidStores(env, s) && FreshChain(env, identity, s) == Some(chain)
    ensures exists x :: x in ValidEntries(env, s, identity, IDENTITY) && x.key.sequence == |chain|
  {
    var events, head := ChainEvents(env, identity, s), chain[|chain| - 1];
    ResolveIsGreedy(env, identity, events);
    ChainSequence(env, identity, Pool(events), chain, |chain| - 1);
    assert head in chain && head in Pool(events);
    ChainEventIsStored(env, s, identity, head);
    var x :| x in ByCollection(s.events, identity, IDENTITY)
             && x.key.sequence == head.sequence && x.key.signer == head.signer;
    ValidIdentityEntry(env, s, identity, chain, x);
  }

  lemma {:induction false} ValidIsInChain(env: Env, s: Stores, identity: Text, chain: Chain, x: Entry)
    requires ValidStores(env, s) && FreshChain(env, identity, s) == Some(chain)
    requires x in ValidEntries(env, s, identity, IDENTITY)
    ensures x.key.sequence <= |chain|
  {
    var events := ChainEvents(env, identity, s);
    ResolveIsGreedy(env, identity, events);
    ValidIdentityEntry(env, s, identity, chain, x);
    var e :| e in chain && e.sequence == x.key.sequence && e.signer == x.key.signer;
    var i :| 0 <= i < |chain| && chain[i] == e;
    ChainSequence(env, identity, Pool(events), chain, i);
  }

  lemma {:induction false} MaxSequenceIs(events: EventStore, m: nat)
    requires exists x :: x in events && x.key.sequence == m
    requires forall x | x in events :: x.key.sequence <= m
    ensures MaxSequence(events) == m
  {
  }

  /** A sequence taken from `NextSequence` is positive and above every valid event of the collection, up to the wrap. */
  lemma {:induction false} NextSequenceIsAbove(env: Env, s: Stores, identity: Text, collection: int, e: Entry)
    requires e in ByCollection(s.events, identity, collection) && IsValid(env, s)(e)
    ensures e.key.sequence < NextSequence(env, s, identity, collection)
         || MaxSequence(ValidEntries(env, s, identity, collection)) == U64_LIMIT - 1
  {
    var valid := ValidEntries(env, s, identity, collection);
    assert e in valid;
  }

  /** The next sequence of the identity collection is one past the head of the chain. */
  lemma {:induction false} NextIdentitySequence(env: Env, s: Stores, identity: Text, chain: Chain)
    requires ValidStores(env, s) && FreshChain(env, identity, s) == Some(chain)
    ensures NextSequence(env, s, identity, IDENTITY) == if |chain| + 1 == U64_LIMIT then 0 else |chain| + 1
  {
    var valid := ValidEntries(env, s, identity, IDENTITY);
    HeadIsValid(env, s, identity, chain);
    forall x | x in valid ensures x.key.sequence <= |chain| {
      ValidIsInChain(env, s, identity, chain, x);
    }
    MaxSequenceIs(valid, |chain|);
  }

  /** Storing a new identity event adds exactly its preprocessed form to the candidates. */
  lemma {:induction false} NewCandidate(env: Env, s: Stores, signed: SignedEvent, key: EventKey, e: IdentityEvent)
    requires ValidStores(env, s) && KeyOfSigned(env, signed) == Some(key) && key.collection == IDENTITY
    requires Lookup(s.events, key).None?
    requires ChainEvent(env, key.identity, s.contents)(Entry(key, signed)) == Some(e)
    ensures Pool(ChainEvents(env, key.identity, PutEvent(env, s, signed)))
         == Pool(ChainEvents(env, key.identity, s)) + {e}
  {
    var f, entry := ChainEvent(env, key.identity, s.contents), Entry(key, signed);
    var before := ByCollection(s.events, key.identity, IDENTITY);
    var after := ByCollection(PutEvent(env, s, signed).events, key.identity, IDENTITY);
    InsertAtMembers(s.events, entry);
    assert forall x :: x in after <==> x in before || x == entry;
    forall y ensures y in FilterMap(f, after) <==> y in FilterMap(f, before) || y == e {
      FilterMapMembers(f, after, y);
      FilterMapMembers(f, before, y);
    }
  }

  lemma {:induction false} CandidateFollowsHead(env: Env, identity: Text, events: seq<IdentityEvent>, chain: Chain,
                                                e: IdentityEvent)
    requires Resolve(env, identity, events) == Some(chain)
    requires e.sequence == |chain| + 1 && AuthorizesRotation(chain[|chain| - 1].document, e.signer)
    ensures MayFollow(env, identity, chain[|chain| - 1], e)
  {
    ResolveIsGreedy(env, identity, events);
    ChainSequence(env, identity, Pool(events), chain, |chain| - 1);
  }

  lemma {:induction false} CandidateExtends(env: Env, identity: Text, events: seq<IdentityEvent>,
                                            events': seq<IdentityEvent>, chain: Chain, e: IdentityEvent)
    requires Resolve(env, identity, events) == Some(chain) && MayFollow(env, identity, chain[|chain| - 1], e)
    requires Pool(events') == Pool(events) + {e} && KeysIdentifyDocuments(env, Pool(events'))
    ensures Resolve(env, identity, events').Some? && chain + [e] <= Resolve(env, identity, events').value
  {
    assert Pool(events + [e]) == Pool(events');
    AddingSuccessor(env, identity, events, e);
    ResolveIgnoresOrderAndDuplicates(env, identity, events + [e], events');
  }

  /** What is stored at the next sequence of the chain under a rotation key of the head is no well-formed candidate:
      otherwise the chain would go on. */
  lemma {:induction false} OccupantIsMalformed(env: Env, s: Stores, key: EventKey, chain: Chain, occupant: SignedEvent)
    requires ValidStores(env, s) && FreshChain(env, key.identity, s) == Some(chain)
    requires key.collection == IDENTITY && key.sequence == |chain| + 1
    requires AuthorizesRotation(chain[|chain| - 1].document, key.signer)
    requires Lookup(s.events, key) == Some(occupant)
    ensures ChainEvent(env, key.identity, s.contents)(Entry(key, occupant)) == None
  {
    var x, f := Entry(key, occupant), ChainEvent(env, key.identity, s.contents);
    assert x in ByCollection(s.events, key.identity, IDENTITY);
    if f(x).Some? {
      ChainEventKeepsKey(env, s.contents, x, key.identity, f(x).value);
      NothingFollows(env, key.identity, ChainEvents(env, key.identity, s), chain, f(x).value);
      FilterMapMembers(f, ByCollection(s.events, key.identity, IDENTITY), f(x).value);
    }
  }

  lemma {:induction false} NothingFollows(env: Env, identity: Text, events: seq<IdentityEvent>, chain: Chain,
                                          e: IdentityEvent)
    requires Resolve(env, identity, events) == Some(chain)
    requires e.sequence == |chain| + 1 && AuthorizesRotation(chain[|chain| - 1].document, e.signer)
    ensures e !in events
  {
    CandidateFollowsHead(env, identity, events, chain, e);
    ResolveIsGreedy(env, identity, events);
    LastHasNoSuccessor(env, identity, Pool(events), chain, e);
  }

  lemma {:induction false} LastHasNoSuccessor(env: Env, identity: Text, pool: set<IdentityEvent>, chain: Chain,
                                              e: IdentityEvent)
    requires Greedy(env, identity, pool, chain) && MayFollow(env, identity, chain[|chain| - 1], e)
    ensures e !in pool
  {
  }

  function DigestOf(env: Env, signed: SignedEvent): Option<ContentDigest> {
    match env.decodeEvent(signed.eventBytes)
    case None => None
    case Some(event) => event.contentDigest
  }

  /** No identity event stored under another key waits for this content. */
  ghost predicate NoneWaits(env: Env, s: Stores, key: EventKey, digest: ContentDigest) {
    digest in s.contents
    || forall x | x in ByCollection(s.events, key.identity, IDENTITY) && x.key != key ::
         DigestOf(env, x.event) != Some(digest)
  }

  /** New content completes only the candidates that refer to it. */
  lemma {:induction false} ContentCompletes(env: Env, s: Stores, identity: Text, digest: ContentDigest, bytes: Bytes,
                                            x: Entry)
    requires digest in s.contents || DigestOf(env, x.event) != Some(digest)
    ensures ChainEvent(env, identity, PutContent(env, s, digest, bytes).contents)(x)
         == ChainEvent(env, identity, s.contents)(x)
  {
  }

  /** The stores after an event, and then its content, have been copied. */
  function WithContent(env: Env, s: Stores, signed: SignedEvent, digest: ContentDigest, bytes: Bytes): Stores {
    PutContent(env, PutEvent(env, s, signed), digest, bytes)
  }

  lemma {:induction false} StoredUnder(env: Env, s: Stores, signed: SignedEvent, key: EventKey)
    requires AscendingKeys(s.events) && KeyOfSigned(env, signed) == Some(key)
    ensures var stored := if Lookup(s.events, key).Some? then Lookup(s.events, key).value else signed;
            && Lookup(PutEvent(env, s, signed).events, key) == Some(stored)
            && forall x :: x in PutEvent(env, s, signed).events <==> x in s.events || x == Entry(key, stored)
  {
    InsertAtMembers(s.events, Entry(key, signed));
    var t := PutEvent(env, s, signed);
    KeysOrdered(key, key, key);
    assert AscendingKeys(t.events);
    if Lookup(s.events, key).None? {
      assert Entry(key, signed) in t.events;
      assert Lookup(t.events, key).Some?;
      assert Entry(key, Lookup(t.events, key).value) in t.events;
    } else {
      Client.InsertPresent(s.events, Entry(key, signed));
    }
  }

  /** The candidates after the copy are those of before and, if it is well-formed then, the event stored under the
      key. */
  lemma {:induction false} CommittedCandidates(env: Env, s: Stores, signed: SignedEvent, key: EventKey,
                                               digest: ContentDigest, bytes: Bytes, stored: SignedEvent,
                                               y: IdentityEvent)
    requires AscendingKeys(s.events) && KeyOfSigned(env, signed) == Some(key) && key.collection == IDENTITY
    requires NoneWaits(env, s, key, digest)
    requires Lookup(PutEvent(env, s, signed).events, key) == Some(stored)
    requires Entry(key, stored) in s.events ==>
               ChainEvent(env, key.identity, s.contents)(Entry(key, stored)) == None
    requires forall x | x in s.events && x.key == key :: x == Entry(key, stored)
    ensures var t := WithContent(env, s, signed, digest, bytes);
            y in ChainEvents(env, key.identity, t)
            <==> y in ChainEvents(env, key.identity, s)
                 || ChainEvent(env, key.identity, t.contents)(Entry(key, stored)) == Some(y)
  {
    var t := WithContent(env, s, signed, digest, bytes);
    var f, f' := ChainEvent(env, key.identity, s.contents), ChainEvent(env, key.identity, t.contents);
    var before, after := ByCollection(s.events, key.identity, IDENTITY), ByCollection(t.events, key.identity, IDENTITY);
    StoredUnder(env, s, signed, key);
    FilterMapMembers(f, before, y);
    FilterMapMembers(f', after, y);
    assert forall x :: x in after <==> x in before || x == Entry(key, stored);
    forall x | x in before && x.key != key ensures f'(x) == f(x) {
      ContentCompletes(env, s, key.identity, digest, bytes, x);
    }
  }

  /** Progress: an identity event at the next sequence, signed by a rotation key of the head, is committed, event first
      and content second. The chain goes on with what is stored under its key then, if that is well-formed: the event
      itself when the key was free, and otherwise the event that was there before, which the content may complete. If
      not, the chain stays as it was. */
  lemma {:induction false} PublishedRotationExtendsChain(env: Env, s: Stores, signed: SignedEvent, key: EventKey,
                                                         digest: ContentDigest, bytes: Bytes, chain: Chain)
    requires ValidStores(env, s) && FreshChain(env, key.identity, s) == Some(chain)
    requires KeyOfSigned(env, signed) == Some(key) && key.collection == IDENTITY
    requires |chain| + 1 < U64_LIMIT && key.sequence == NextSequence(env, s, key.identity, IDENTITY)
    requires AuthorizesRotation(chain[|chain| - 1].document, key.signer)
    requires NoneWaits(env, s, key, digest)
    requires KeysIdentifyDocuments(env,
                                   Pool(ChainEvents(env, key.identity, WithContent(env, s, signed, digest, bytes))))
    ensures var t := WithContent(env, s, signed, digest, bytes);
            var stored := if Lookup(s.events, key).Some? then Lookup(s.events, key).value else signed;
            match ChainEvent(env, key.identity, t.contents)(Entry(key, stored))
            case None => FreshChain(env, key.identity, t) == Some(chain)
            case Some(e) =>
              && FreshChain(env, key.identity, t).Some?
              && chain + [e] <= FreshChain(env, key.identity, t).value
  {
    NextIdentitySequence(env, s, key.identity, chain);
    var t := WithContent(env, s, signed, digest, bytes);
    var stored := if Lookup(s.events, key).Some? then Lookup(s.events, key).value else signed;
    CommittedPool(env, s, signed, key, digest, bytes, chain, stored);
    PoolGoesOn(env, key.identity, ChainEvents(env, key.identity, s), ChainEvents(env, key.identity, t), chain,
               ChainEvent(env, key.identity, t.contents)(Entry(key, stored)));
  }

  function Optional<T>(x: Option<T>): set<T> {
    match x case None => {} case Some(e) => {e}
  }

  lemma {:induction false} CommittedPool(env: Env, s: Stores, signed: SignedEvent, key: EventKey,
                                         digest: ContentDigest, bytes: Bytes, chain: Chain, stored: SignedEvent)
    requires ValidStores(env, s) && FreshChain(env, key.identity, s) == Some(chain)
    requires KeyOfSigned(env, signed) == Some(key) && key.collection == IDENTITY && key.sequence == |chain| + 1
    requires AuthorizesRotation(chain[|chain| - 1].document, key.signer) && NoneWaits(env, s, key, digest)
    requires stored == if Lookup(s.events, key).Some? then Lookup(s.events, key).value else signed
    ensures var t := WithContent(env, s, signed, digest, bytes);
            var e := ChainEvent(env, key.identity, t.contents)(Entry(key, stored));
            && Pool(ChainEvents(env, key.identity, t)) == Pool(ChainEvents(env, key.identity, s)) + Optional(e)
            && (e.Some? ==> e.value.sequence == key.sequence && e.value.signer == key.signer)
  {
    StoredFacts(env, s, signed, key, chain, stored);
    CommittedUnion(env, s, signed, key, digest, bytes, stored);
    var t := WithContent(env, s, signed, digest, bytes);
    if e: IdentityEvent :| ChainEvent(env, key.identity, t.contents)(Entry(key, stored)) == Some(e) {
      ChainEventKeepsKey(env, t.contents, Entry(key, stored), key.identity, e);
    }
  }

  lemma {:induction false} StoredFacts(env: Env, s: Stores, signed: SignedEvent, key: EventKey, chain: Chain,
                                       stored: SignedEvent)
    requires ValidStores(env, s) && FreshChain(env, key.identity, s) == Some(chain)
    requires KeyOfSigned(env, signed) == Some(key) && key.collection == IDENTITY && key.sequence == |chain| + 1
    requires AuthorizesRotation(chain[|chain| - 1].document, key.signer)
    requires stored == if Lookup(s.events, key).Some? then Lookup(s.events, key).value else signed
    ensures Lookup(PutEvent(env, s, signed).events, key) == Some(stored) && KeyOfSigned(env, stored) == Some(key)
    ensures Entry(key, stored) in s.events ==>
              ChainEvent(env, key.identity, s.contents)(Entry(key, stored)) == None
    ensures forall x | x in s.events && x.key == key :: x == Entry(key, stored)
  {
    StoredUnder(env, s, signed, key);
    KeyIsUnique(s.events, key);
    if Lookup(s.events, key).Some? {
      OccupantIsMalformed(env, s, key, chain, stored);
    }
  }

  lemma {:induction false} CommittedUnion(env: Env, s: Stores, signed: SignedEvent, key: EventKey,
                                          digest: ContentDigest, bytes: Bytes, stored: SignedEvent)
    requires AscendingKeys(s.events) && KeyOfSigned(env, signed) == Some(key) && key.collection == IDENTITY
    requires NoneWaits(env, s, key, digest)
    requires Lookup(PutEvent(env, s, signed).events, key) == Some(stored)
    requires Entry(key, stored) in s.events ==>
               ChainEvent(env, key.identity, s.contents)(Entry(key, stored)) == None
    requires forall x | x in s.events && x.key == key :: x == Entry(key, stored)
    ensures var t := WithContent(env, s, signed, digest, bytes);
            Pool(ChainEvents(env, key.identity, t))
            == Pool(ChainEvents(env, key.identity, s))
               + Optional(ChainEvent(env, key.identity, t.contents)(Entry(key, stored)))
  {
    var t := WithContent(env, s, signed, digest, bytes);
    var before, after := ChainEvents(env, key.identity, s), ChainEvents(env, key.identity, t);
    var e := ChainEvent(env, key.identity, t.contents)(Entry(key, stored));
    forall y ensures y in after <==> y in before || e == Some(y) {
      CommittedCandidates(env, s, signed, key, digest, bytes, stored, y);
    }
    PoolUnion(before, after, e);
  }

  lemma {:induction false} PoolUnion(before: seq<IdentityEvent>, after: seq<IdentityEvent>, e: Option<IdentityEvent>)
    requires forall y :: y in after <==> y in before || e == Some(y)
    ensures Pool(after) == Pool(before) + Optional(e)
  {
  }

  /** A resolved chain goes on with a candidate of a rotation key of the head at the next sequence. */
  lemma {:induction false} PoolGoesOn(env: Env, identity: Text, events: seq<IdentityEvent>, events': seq<IdentityEvent>,
                                      chain: Chain, e: Option<IdentityEvent>)
    requires Resolve(env, identity, events) == Some(chain) && KeysIdentifyDocuments(env, Pool(events'))
    requires Pool(events') == Pool(events) + Optional(e)
    requires e.Some? ==> e.value.sequence == |chain| + 1
                         && AuthorizesRotation(chain[|chain| - 1].document, e.value.signer)
    ensures match e
            case None => Resolve(env, identity, events') == Some(chain)
            case Some(f) =>
              Resolve(env, identity, events').Some? && chain + [f] <= Resolve(env, identity, events').value
  {
    match e
    case None => ResolveIgnoresOrderAndDuplicates(env, identity, events, events');
    case Some(f) =>
      CandidateFollowsHead(env, identity, events, chain, f);
      CandidateExtends(env, identity, events, events', chain, f);
  }

  lemma {:induction false} KeyIsUnique(events: EventStore, key: EventKey)
    requires AscendingKeys(events)
    ensures forall x | x in events && x.key == key :: Lookup(events, key) == Some(x.event)
  {
    KeysOrdered(key, key, key);
  }

  // ----- tombstones -----

  /** A valid entry of the collection. */
  ghost predicate ValidIn(env: Env, s: Stores, identity: Text, collection: int, x: Entry) {
    x in s.events && x.key.identity == identity && x.key.collection == collection && IsValid(env, s)(x)
  }

  /** No valid entry of the collection has stored content that decodes to a delete of the key. */
  ghost predicate Undeleted(env: Env, s: Stores, identity: Text, collection: int, key: EventKey) {
    !exists d :: ValidIn(env, s, identity, collection, d) && Deletes(env, s, d, key)
  }

  lemma {:induction false} UndeletedMeaning(env: Env, s: Stores, identity: Text, collection: int, key: EventKey)
    ensures Tombstoned(env, s, ValidEntries(env, s, identity, collection), key)
       <==> !Undeleted(env, s, identity, collection, key)
  {
    var valid := ValidEntries(env, s, identity, collection);
    assert forall d :: d in valid <==> ValidIn(env, s, identity, collection, d);
    forall d ensures DeleteTarget(env, BundleFor(env, s, d, true)) == Some(key) <==> Deletes(env, s, d, key) {
      TargetsMeaning(env, s, d, key, []);
    }
  }

  /** An entry is visible if and only if it is a valid entry of the collection that no valid entry of it deletes. */
  lemma {:induction false} VisibleExactly(env: Env, s: Stores, identity: Text, collection: int, x: Entry)
    ensures x in VisibleEntries(env, s, identity, collection)
       <==> ValidIn(env, s, identity, collection, x) && Undeleted(env, s, identity, collection, x.key)
  {
    UndeletedMeaning(env, s, identity, collection, x.key);
    assert x in ValidEntries(env, s, identity, collection) <==> ValidIn(env, s, identity, collection, x);
  }

  /** What is listed are bundles of the visible entries, one for each and in their order, with the stored content and
      proofs. */
  lemma {:induction false} VisibleBundlesCarry(env: Env, s: Stores, identity: Text, collection: int, i: nat)
    requires i < |VisibleEntries(env, s, identity, collection)|
    ensures |VisibleBundles(env, s, identity, collection)| == |VisibleEntries(env, s, identity, collection)|
    ensures var x := VisibleEntries(env, s, identity, collection)[i];
            var b := VisibleBundles(env, s, identity, collection)[i];
            && Carries(env, s, x, b)
            && b.eventProofs == if x.key in s.proofs then s.proofs[x.key] else []
  {
    BundleCarries(env, s, VisibleEntries(env, s, identity, collection)[i], true);
  }

  /** The active identity blocks exactly the identities that a visible entry with stored block content names, in the
      social graph, which is collection 5. */
  lemma {:induction false} BlockedExactly(env: Env, s: Stores, active: Text, blocked: Text)
    ensures blocked in FreshBlocked(env, s, Some(active)) <==>
      exists x :: ValidIn(env, s, active, 5, x) && Undeleted(env, s, active, 5, x.key)
                  && BlocksIdentity(env, s, x, blocked)
  {
    var visible := VisibleEntries(env, s, active, SOCIAL_GRAPH);
    BlockTargetsOf(env, s, visible, blocked);
    forall x: Entry
      ensures BlockTarget(env, BundleFor(env, s, x, true)) == Some(blocked) <==> BlocksIdentity(env, s, x, blocked)
    {
      TargetsMeaning(env, s, x, x.key, blocked);
    }
    forall x ensures x in visible <==> ValidIn(env, s, active, SOCIAL_GRAPH, x)
                                       && Undeleted(env, s, active, SOCIAL_GRAPH, x.key)
    {
      VisibleExactly(env, s, active, SOCIAL_GRAPH, x);
    }
  }

  lemma {:induction false} BlockTargetsOf(env: Env, s: Stores, visible: EventStore, blocked: Text)
    ensures blocked in BlockTargets(env, Map(Bundled(env, s), visible))
       <==> exists x :: x in visible && BlockTarget(env, BundleFor(env, s, x, true)) == Some(blocked)
  {
    var bundles := Map(Bundled(env, s), visible);
    if b :| b in bundles && BlockTarget(env, b) == Some(blocked) {
      var i :| 0 <= i < |bundles| && bundles[i] == b;
      assert visible[i] in visible;
    }
    if x :| x in visible && BlockTarget(env, BundleFor(env, s, x, true)) == Some(blocked) {
      var i :| 0 <= i < |visible| && visible[i] == x;
      assert bundles[i] == BundleFor(env, s, x, true) && bundles[i] in bundles;
    }
  }

  /** The store has grown: nothing stored before is lost or replaced. */
  ghost predicate Grows(s: Stores, t: Stores) {
    && (forall e | e in s.events :: e in t.events)
    && (forall e | e in s.events :: ProofsOf(s, e.key) == ProofsOf(t, e.key))
    && (forall d | d in s.contents :: d in t.contents && t.contents[d] == s.contents[d])
  }

  /** With the chain fixed, validity of a stored event does not change as the store grows. */
  lemma {:induction false} ValidityIsStable(env: Env, s: Stores, t: Stores, identity: Text, x: Entry)
    requires ValidStores(env, s) && Grows(s, t) && FreshChain(env, identity, s) == FreshChain(env, identity, t)
    requires x in s.events && x.key.identity == identity
    ensures IsValid(env, s)(x) <==> IsValid(env, t)(x)
  {
    assert KeyOfSigned(env, x.event) == Some(x.key);
  }

  /** A hidden event never reappears as the store grows, while the chain stays the same. */
  lemma {:induction false} HiddenStaysHidden(env: Env, s: Stores, t: Stores, identity: Text, collection: int, x: Entry)
    requires ValidStores(env, s) && Grows(s, t) && FreshChain(env, identity, s) == FreshChain(env, identity, t)
    requires x in ByCollection(s.events, identity, collection)
    requires x !in VisibleEntries(env, s, identity, collection)
    ensures x !in VisibleEntries(env, t, identity, collection)
  {
    VisibleExactly(env, s, identity, collection, x);
    VisibleExactly(env, t, identity, collection, x);
    ValidityIsStable(env, s, t, identity, x);
    if IsValid(env, s)(x) {
      var d :| ValidIn(env, s, identity, collection, d) && Deletes(env, s, d, x.key);
      ValidityIsStable(env, s, t, identity, d);
      assert Deletes(env, t, d, x.key);
      assert ValidIn(env, t, identity, collection, d);
    }
  }
}
