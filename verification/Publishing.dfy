/**
 Publishing: where a committed event ends up, when its sequence is new to its stream, and a fork
 after which a client uses a sequence again.
 */
module Publishing {
  import opened Primitives
  import opened Model
  import opened IdentityDocument
  import opened IdentityChain
  import opened ChainTheorems
  import opened Stores
  import opened Validation
  import opened ClientTheorems
  import opened Delivery
  import opened Sync
  import opened SyncProtocol
  import opened PullTheorems
  import Client
  import Pull

  // ----- committing an event -----

  /** What the core's stores become: the event first, then its content, if there is one. */
  function Committed(env: Env, s: Stores, signed: SignedEvent, content: Option<Bytes>): Stores {
    var stored := PutEvent(env, s, signed);
    match (env.decodeEvent(signed.eventBytes), content)
    case (Some(event), Some(bytes)) =>
      if event.contentDigest.None? then stored else PutContent(env, stored, event.contentDigest.value, bytes)
    case _ => stored
  }

  /** Save into the storage, which replaces the event of a taken key, and copy into the core, which keeps it. An event
      that the storage refuses is not copied. */
  method CommitEvent(core: Client.PolycentricClient, storage: Pull.Storage, signed: SignedEvent,
                     content: Option<Bytes>) returns (ok: bool)
    requires core.Valid() && storage.env == core.env
    modifies core, storage
    ensures core.Valid() && core.activeIdentity == old(core.activeIdentity)
    ensures ok <==> Pull.Saveable(core.env, Pull.SignedBundle(signed)).Some?
    ensures storage.Value() == Pull.Overwritten(core.env, old(storage.Value()), signed)
    ensures core.stores == if ok then Committed(core.env, old(core.stores), signed, content) else old(core.stores)
  {
    ok := storage.Commit(signed);
    if ok {
      var _ := core.CopyEvent(signed);
      var event := core.env.decodeEvent(signed.eventBytes);
      if content.Some? && event.Some? && event.value.contentDigest.Some? {
        var _ := core.CopyContent(event.value.contentDigest.value, content.value);
      }
    }
  }

  /** Committing is the protocol's step: the storage overwrites and the core inserts. */
  lemma {:induction false} CommitIsPublish(env: Env, s: Stores, disk: Pull.Disk, e: Entry, content: Option<Bytes>)
    requires ValidStores(env, s) && Pull.Saveable(env, Pull.SignedBundle(e.event)) == Some(e)
    ensures Entries(Pull.Overwritten(env, disk, e.event).events) == Overwrite(Entries(disk.events), e)
    ensures ReplicaOf(Committed(env, s, e.event, content).events, e.key.identity)
         == Insert(ReplicaOf(s.events, e.key.identity), {e})
  {
    OverwrittenEntries(disk.events, e);
    InsertedReplica(s.events, e);
    assert Committed(env, s, e.event, content).events == InsertAt(s.events, e);
  }

  /** After a commit the core holds the content that it held, and the committed content under the digest that the event
      states, if that is its SHA-256 value and the digest was free. Proofs stay as they were. */
  lemma {:induction false} CommittedContent(env: Env, s: Stores, signed: SignedEvent, content: Option<Bytes>,
                                            event: Event, digest: ContentDigest, bytes: Bytes)
    requires env.decodeEvent(signed.eventBytes) == Some(event)
    ensures HasContent(Committed(env, s, signed, content), digest, bytes)
       <==> HasContent(s, digest, bytes)
            || (digest !in s.contents && content == Some(bytes)
                && event.contentDigest == Some(digest) == Some(ContentDigest(DIGEST_TYPE_SHA256, env.sha(bytes))))
    ensures Committed(env, s, signed, content).proofs == s.proofs
  {
  }

  lemma {:induction false} InsertedReplica(events: EventStore, e: Entry)
    requires AscendingKeys(events)
    ensures ReplicaOf(InsertAt(events, e), e.key.identity) == Insert(ReplicaOf(events, e.key.identity), {e})
  {
    InsertAtMembers(events, e);
    var r := ReplicaOf(events, e.key.identity);
    assert Occupied(r, e.key) <==> Lookup(events, e.key).Some? by {
      if Lookup(events, e.key).Some? {
        assert Entry(e.key, Lookup(events, e.key).value) in r;
      }
    }
  }

  lemma {:induction false} OverwrittenEntries(events: map<EventKey, SignedEvent>, e: Entry)
    ensures Entries(events[e.key := e.event]) == Overwrite(Entries(events), e)
  {
    var after := events[e.key := e.event];
    assert e == Entry(e.key, after[e.key]);
    forall x | x in Entries(events) && x.key != e.key ensures x in Entries(after) {
      assert x == Entry(x.key, after[x.key]);
    }
  }

  // ----- when the next sequence is new -----

  /** The next sequence is positive and above everything that the core holds of the stream if and only if its
      computation does not wrap and it is above the stored events of the stream that do not validate. */
  lemma {:induction false} NextSequenceIsNewIff(env: Env, s: Stores, e: Entry)
    requires e.key.sequence == NextSequence(env, s, e.key.identity, e.key.collection)
    ensures e.key.sequence > 0 && Above(ReplicaOf(s.events, e.key.identity), e)
       <==> MaxSequence(ValidEntries(env, s, e.key.identity, e.key.collection)) < U64_LIMIT - 1
            && forall x | x in s.events && SameStream(x.key, e.key) && !IsValid(env, s)(x) ::
                 x.key.sequence < e.key.sequence
  {
    var valid := ValidEntries(env, s, e.key.identity, e.key.collection);
    assert forall x | x in s.events && SameStream(x.key, e.key) && IsValid(env, s)(x) :: x in valid;
    assert forall x | x in ReplicaOf(s.events, e.key.identity) :: x in s.events;
    assert forall x | x in s.events && SameStream(x.key, e.key) :: x in ReplicaOf(s.events, e.key.identity);
  }

  lemma {:induction false} ExtensionKeepsValid(env: Env, chain: Chain, chain': Chain, event: Event, signer: PublicKey,
                                               signed: SignedEvent, proofs: seq<EventProof>, proofs': seq<EventProof>)
    requires chain != [] && chain <= chain' && event.key.Some?
    requires AuthorizesSigner(chain'[|chain'| - 1].document, signer)
    ensures ValidInChain(env, chain, event, signer, signed, proofs) ==>
              ValidInChain(env, chain', event, signer, signed, proofs')
  {
    if event.key.value.collection == IDENTITY {
      assert forall e | e in chain :: e in chain';
    } else {
      assert StateAt(chain, event.identitySequence).Some? ==>
               StateAt(chain', event.identitySequence) == StateAt(chain, event.identitySequence);
    }
  }

  lemma {:induction false} ValidInItsChain(env: Env, s: Stores, x: Entry, event: Event, chain: Chain)
    requires env.decodeEvent(x.event.eventBytes) == Some(event) && KeyOf(event) == Some(x.key)
    requires FreshChain(env, x.key.identity, s) == Some(chain)
    ensures IsValid(env, s)(x) <==> ValidInChain(env, chain, event, x.key.signer, x.event, ProofsOf(s, x.key))
  {
  }

  /** An event that validated against a chain validates against every extension of it whose head lists the signer. */
  lemma {:induction false} ValidityGrows(env: Env, s: Stores, t: Stores, x: Entry, signer: PublicKey,
                                         chain: Chain, chain': Chain)
    requires KeyOfSigned(env, x.event) == Some(x.key) && x.key.signer == signer && IsValid(env, s)(x)
    requires FreshChain(env, x.key.identity, s) == Some(chain) && FreshChain(env, x.key.identity, t) == Some(chain')
    requires chain <= chain' && AuthorizesSigner(chain'[|chain'| - 1].document, signer)
    ensures IsValid(env, t)(x)
  {
    var event := env.decodeEvent(x.event.eventBytes).value;
    ValidInItsChain(env, s, x, event, chain);
    ValidInItsChain(env, t, x, event, chain');
    ExtensionKeepsValid(env, chain, chain', event, signer, x.event, ProofsOf(s, x.key), ProofsOf(t, x.key));
  }

  ghost predicate OwnKeys(env: Env, s: Stores) {
    forall x | x in s.events :: KeyOfSigned(env, x.event) == Some(x.key)
  }

  /** The event validated against the chain at some earlier time. */
  ghost predicate WasValid(env: Env, x: Entry, chain: Chain) {
    exists s: Stores, n: nat ::
      n <= |chain| && FreshChain(env, x.key.identity, s) == Some(chain[..n]) && IsValid(env, s)(x)
  }

  /** If every stored event of the stream validated at some time, the chain only grew since and its head still lists
      the signer, then the next sequence is new, up to the wrap. */
  lemma {:induction false} NextSequenceIsNew(env: Env, t: Stores, chain: Chain, e: Entry)
    requires OwnKeys(env, t) && FreshChain(env, e.key.identity, t) == Some(chain)
    requires AuthorizesSigner(chain[|chain| - 1].document, e.key.signer)
    requires forall x | x in t.events && SameStream(x.key, e.key) :: WasValid(env, x, chain)
    requires e.key.sequence == NextSequence(env, t, e.key.identity, e.key.collection) != 0
    ensures Above(ReplicaOf(t.events, e.key.identity), e)
  {
    forall x | x in t.events && SameStream(x.key, e.key) ensures IsValid(env, t)(x) {
      var s: Stores, n: nat :|
        n <= |chain| && FreshChain(env, x.key.identity, s) == Some(chain[..n]) && IsValid(env, s)(x);
      ValidityGrows(env, s, t, x, e.key.signer, chain[..n], chain);
    }
    NextSequenceIsNewIff(env, t, e);
  }

  /** An event whose clock was built for the document that it refers to validates if and only if the document lists the
      signer, and the head does too or vouches for the signature. */
  lemma {:induction false} BuiltEventValidIff(env: Env, built: Stores, s: Stores, signed: SignedEvent,
                                              proofs: seq<EventProof>, event: Event, key: EventKey, chain: Chain,
                                              document: Identity)
    requires env.decodeEvent(signed.eventBytes) == Some(event) && KeyOf(event) == Some(key)
    requires key.collection != IDENTITY && FreshChain(env, key.identity, s) == Some(chain)
    requires StateAt(chain, event.identitySequence) == Some(document)
    requires event.vectorClock
          == Some(ClockFor(env, built, key.identity, key.collection, key.signer, key.sequence, document))
    ensures ValidEvent(env, s, signed, proofs)
       <==> AuthorizesSigner(document, key.signer)
            && SurvivesRevocation(env, chain[|chain| - 1].document, key.signer, key.collection, signed.signature,
                                  proofs)
  {
    BuiltClockVerifies(env, built, key.identity, key.collection, key.signer, key.sequence, document);
    assert ValidEvent(env, s, signed, proofs) <==> ValidInChain(env, chain, event, key.signer, signed, proofs);
  }

  // ----- a device over time -----

  predicate OfStream(x: Entry, identity: Text, collection: int, signer: PublicKey) {
    x.key.identity == identity && x.key.collection == collection && x.key.signer == signer
  }

  /** The stores at one time, and the chain that they resolve to. */
  datatype Moment = Moment(stores: Stores, chain: Chain)

  ghost predicate StreamValid(env: Env, s: Stores, identity: Text, collection: int, signer: PublicKey) {
    forall x | x in s.events && OfStream(x, identity, collection, signer) :: IsValid(env, s)(x)
  }

  /** The chain grows, its head lists the signer, and what is new in the stream validates when it is stored. */
  ghost predicate Progresses(env: Env, m: Moment, n: Moment, identity: Text, collection: int, signer: PublicKey) {
    && OwnKeys(env, n.stores)
    && FreshChain(env, identity, m.stores) == Some(m.chain) && FreshChain(env, identity, n.stores) == Some(n.chain)
    && m.chain <= n.chain && AuthorizesSigner(n.chain[|n.chain| - 1].document, signer)
    && forall x | x in n.stores.events && OfStream(x, identity, collection, signer) ::
         x in m.stores.events || IsValid(env, n.stores)(x)
  }

  /** While a device's stores progress, no event of its stream becomes invalid, and so its next sequence is always new,
      up to the wrap. */
  lemma {:induction false} SequencesStayNew(env: Env, history: seq<Moment>, identity: Text, collection: int,
                                            signer: PublicKey, i: nat)
    requires i < |history| && StreamValid(env, history[0].stores, identity, collection, signer)
    requires forall j | 0 <= j < i :: Progresses(env, history[j], history[j + 1], identity, collection, signer)
    ensures StreamValid(env, history[i].stores, identity, collection, signer)
    ensures forall e | OfStream(e, identity, collection, signer)
                       && e.key.sequence == NextSequence(env, history[i].stores, identity, collection) != 0 ::
              Above(ReplicaOf(history[i].stores.events, identity), e)
  {
    if i > 0 {
      SequencesStayNew(env, history, identity, collection, signer, i - 1);
      ProgressKeepsValid(env, history[i - 1], history[i], identity, collection, signer);
    }
    ValidStreamIsBelow(env, history[i].stores, identity, collection, signer);
  }

  /** The next sequence is above a stream of which every event validates, up to the wrap. */
  lemma {:induction false} ValidStreamIsBelow(env: Env, s: Stores, identity: Text, collection: int, signer: PublicKey)
    requires StreamValid(env, s, identity, collection, signer)
    ensures forall e | OfStream(e, identity, collection, signer)
                       && e.key.sequence == NextSequence(env, s, identity, collection) != 0 ::
              Above(ReplicaOf(s.events, identity), e)
  {
    forall e | OfStream(e, identity, collection, signer)
               && e.key.sequence == NextSequence(env, s, identity, collection) != 0
      ensures Above(ReplicaOf(s.events, identity), e)
    {
      NextSequenceIsNewIff(env, s, e);
    }
  }

  lemma {:induction false} ProgressKeepsValid(env: Env, m: Moment, n: Moment, identity: Text, collection: int,
                                              signer: PublicKey)
    requires StreamValid(env, m.stores, identity, collection, signer)
    requires Progresses(env, m, n, identity, collection, signer)
    ensures StreamValid(env, n.stores, identity, collection, signer)
  {
    var p, q := IsValid(env, m.stores), IsValid(env, n.stores);
    ChainKeepsValid(env, m, n, identity, collection, signer);
    assert forall x | x in n.stores.events && OfStream(x, identity, collection, signer) && p(x) :: q(x);
  }

  lemma {:induction false} ChainKeepsValid(env: Env, m: Moment, n: Moment, identity: Text, collection: int,
                                           signer: PublicKey)
    requires OwnKeys(env, n.stores)
    requires FreshChain(env, identity, m.stores) == Some(m.chain)
    requires FreshChain(env, identity, n.stores) == Some(n.chain)
    requires m.chain <= n.chain && AuthorizesSigner(n.chain[|n.chain| - 1].document, signer)
    ensures forall x | x in n.stores.events && OfStream(x, identity, collection, signer) ::
              IsValid(env, m.stores)(x) ==> IsValid(env, n.stores)(x)
  {
    forall x
      | x in n.stores.events && OfStream(x, identity, collection, signer) && IsValid(env, m.stores)(x)
      ensures IsValid(env, n.stores)(x)
    {
      ValidityGrows(env, m.stores, n.stores, x, signer, m.chain, n.chain);
    }
  }

  // ----- a sequence used twice -----

  lemma {:induction false} TwoHeld(env: Env, identity: Text, s: Stores, p: Candidate, q: Candidate)
    requires HoldsCandidates(env, identity, s, {p, q})
    ensures Pool(ChainEvents(env, identity, s)) == {p.1, q.1}
  {
    var held := {p, q};
    HeldPool(env, identity, s, held);
    assert p in held && q in held;
  }

  lemma {:induction false} OneSuccessor(env: Env, identity: Text, g: IdentityEvent, loser: IdentityEvent,
                                        winner: IdentityEvent)
    requires IsFork(env, identity, g, loser, winner)
    ensures GreedySoFar(env, identity, {g, loser}, [g, loser])
  {
    SuccessorsOrdered(env, After(env, identity, g, loser), After(env, identity, g, loser),
                      After(env, identity, g, loser));
    SignersOrdered(g.signer, g.signer, g.signer);
    assert IsChain(env, identity, {g, loser}, [g, loser]);
  }

  lemma {:induction false} LoserAlone(env: Env, identity: Text, s: Stores, g: IdentityEvent, loser: IdentityEvent,
                                      winner: IdentityEvent, a1: Entry, a2: Entry)
    requires IsFork(env, identity, g, loser, winner) && KeysIdentifyDocuments(env, {g, loser})
    requires HoldsCandidates(env, identity, s, {(a1, g), (a2, loser)})
    ensures FreshChain(env, identity, s) == Some([g, loser])
  {
    var pool, chain := {g, loser}, [g, loser];
    TwoHeld(env, identity, s, (a1, g), (a2, loser));
    OneSuccessor(env, identity, g, loser, winner);
    assert forall e | e in pool :: !MayFollow(env, identity, loser, e);
    GreedyResolves(env, identity, s, pool, chain);
  }

  /** The identity event that a device refers to when it publishes: the last stored one of its own key, whether it
      validates or not. */
  function IdentitySequenceOf(s: Stores, identity: Text, signer: PublicKey): u64 {
    LastWhere((e: Entry) => true, ByStream(s.events, identity, IDENTITY, signer, 0))
  }

  /** It is the greatest sequence stored for the key, if there is any. */
  lemma {:induction false} IdentitySequenceIsLast(s: Stores, identity: Text, signer: PublicKey, x: Entry)
    requires AscendingKeys(s.events) && x in s.events && OfStream(x, identity, IDENTITY, signer) && x.key.sequence > 0
    requires forall y | y in s.events && OfStream(y, identity, IDENTITY, signer) :: y.key.sequence <= x.key.sequence
    ensures IdentitySequenceOf(s, identity, signer) == x.key.sequence
  {
    var stream := ByStream(s.events, identity, IDENTITY, signer, 0);
    forall i, j | 0 <= i < j < |stream| ensures stream[i].key.sequence < stream[j].key.sequence {
      StreamAscends(s.events, identity, IDENTITY, signer, 0, i, j);
    }
    LastWhereIsStored((e: Entry) => true, stream);
    LastWhereIsGreatest((e: Entry) => true, stream, x);
  }

  /** The device of the loser refers to its own identity event. */
  lemma {:induction false} LoserRefersToItself(env: Env, identity: Text, s: Stores, g: IdentityEvent,
                                               loser: IdentityEvent, a1: Entry, a2: Entry)
    requires AscendingKeys(s.events) && HoldsCandidates(env, identity, s, {(a1, g), (a2, loser)})
    requires g.sequence == 1 && loser.sequence == 2
    ensures IdentitySequenceOf(s, identity, loser.signer) == 2
  {
    var held: set<Candidate> := {(a1, g), (a2, loser)};
    HeldEntry(env, identity, s, held, a1, g);
    HeldEntry(env, identity, s, held, a2, loser);
    assert a2 in ByCollection(s.events, identity, IDENTITY);
    forall y | y in s.events && OfStream(y, identity, IDENTITY, loser.signer) ensures y.key.sequence <= 2 {
      assert y in ByCollection(s.events, identity, IDENTITY);
      var e :| (y, e) in held;
    }
    IdentitySequenceIsLast(s, identity, loser.signer, a2);
  }

  /** The first event of a collection, built by the loser of a fork under its own identity event. */
  ghost predicate BuiltUnderLoser(env: Env, identity: Text, collection: int, s: Stores, loser: IdentityEvent,
                                  f: Entry) {
    match env.decodeEvent(f.event.eventBytes)
    case None => false
    case Some(event) =>
      && KeyOf(event) == Some(f.key) && f.key == EventKey(identity, collection, loser.signer, 1)
      && event.identitySequence == IdentitySequenceOf(s, identity, loser.signer)
      && event.vectorClock == Some(ClockFor(env, s, identity, collection, loser.signer, 1, loser.document))
  }

  /** A device publishes an identity event that changes the number of keys, and then event 1 of a collection under the
      new document; that event validates. Then another identity event wins the fork. The event no longer validates,
      the next sequence is 1 again, and the core drops what is published with it. */
  lemma {:induction false} ForkReusesSequence(env: Env, identity: Text, collection: int, s: Stores, t: Stores,
                                              g: IdentityEvent, loser: IdentityEvent, winner: IdentityEvent,
                                              a1: Entry, a2: Entry, b2: Entry, f: Entry)
    requires IsFork(env, identity, g, loser, winner) && KeysIdentifyDocuments(env, {g, loser, winner})
    requires ValidStores(env, s) && HoldsCandidates(env, identity, s, {(a1, g), (a2, loser)})
    requires ValidStores(env, t) && HoldsCandidates(env, identity, t, {(a1, g), (a2, loser), (b2, winner)})
    requires AuthorizesSigner(loser.document, loser.signer)
    requires |DeduplicatedKeys(loser.document)| != |DeduplicatedKeys(winner.document)|
    requires collection != IDENTITY && BuiltUnderLoser(env, identity, collection, s, loser, f)
    requires ByCollection(s.events, identity, collection) == [] && ByCollection(t.events, identity, collection) == [f]
    ensures NextSequence(env, s, identity, collection) == 1
    ensures IsValid(env, PutEvent(env, s, f.event))(f)
    ensures !IsValid(env, t)(f) && NextSequence(env, t, identity, collection) == 1
    ensures forall signed | KeyOfSigned(env, signed) == Some(f.key) :: PutEvent(env, t, signed) == t
  {
    LoserAlone(env, identity, s, g, loser, winner, a1, a2);
    FirstChain(env, identity, t, g, loser, winner, a1, a2, b2);
    LoserRefersToItself(env, identity, s, g, loser, a1, a2);
    BuiltThenValid(env, identity, collection, s, g, loser, f);
    BuiltThenInvalid(env, identity, collection, s, t, g, loser, winner, f);
    assert f in ByCollection(t.events, identity, collection);
    assert Lookup(t.events, f.key).Some?;
    forall signed | KeyOfSigned(env, signed) == Some(f.key) ensures PutEvent(env, t, signed) == t {
      Client.InsertPresent(t.events, Entry(f.key, signed));
    }
  }

  lemma {:induction false} BuiltThenValid(env: Env, identity: Text, collection: int, s: Stores, g: IdentityEvent,
                                          loser: IdentityEvent, f: Entry)
    requires ValidStores(env, s) && FreshChain(env, identity, s) == Some([g, loser])
    requires collection != IDENTITY && BuiltUnderLoser(env, identity, collection, s, loser, f)
    requires IdentitySequenceOf(s, identity, loser.signer) == 2 && AuthorizesSigner(loser.document, loser.signer)
    ensures IsValid(env, PutEvent(env, s, f.event))(f)
  {
    var t := PutEvent(env, s, f.event);
    Client.EventChangesOneChain(env, s, f.event, identity);
    BuiltEventValidIff(env, s, t, f.event, ProofsOf(t, f.key), env.decodeEvent(f.event.eventBytes).value, f.key,
                       [g, loser], loser.document);
  }

  lemma {:induction false} BuiltThenInvalid(env: Env, identity: Text, collection: int, s: Stores, t: Stores,
                                            g: IdentityEvent, loser: IdentityEvent, winner: IdentityEvent, f: Entry)
    requires FreshChain(env, identity, t) == Some([g, winner])
    requires collection != IDENTITY && BuiltUnderLoser(env, identity, collection, s, loser, f)
    requires IdentitySequenceOf(s, identity, loser.signer) == 2
    requires |DeduplicatedKeys(loser.document)| != |DeduplicatedKeys(winner.document)|
    requires ByCollection(t.events, identity, collection) == [f]
    ensures !IsValid(env, t)(f) && NextSequence(env, t, identity, collection) == 1
  {
    WrongLength(env, t, f, [g, winner], winner.document);
    OnlyInvalid(env, t, identity, collection, f);
  }

  /** A clock of the wrong length never validates. */
  lemma {:induction false} WrongLength(env: Env, t: Stores, f: Entry, chain: Chain, document: Identity)
    requires KeyOfSigned(env, f.event) == Some(f.key) && f.key.collection != IDENTITY
    requires FreshChain(env, f.key.identity, t) == Some(chain)
    requires var event := env.decodeEvent(f.event.eventBytes).value;
             StateAt(chain, event.identitySequence) == Some(document)
             && event.vectorClock.Some? && |event.vectorClock.value| != |DeduplicatedKeys(document)|
    ensures !IsValid(env, t)(f)
  {
  }

  lemma {:induction false} OnlyInvalid(env: Env, t: Stores, identity: Text, collection: int, f: Entry)
    requires ByCollection(t.events, identity, collection) == [f] && !IsValid(env, t)(f)
    ensures NextSequence(env, t, identity, collection) == 1
  {
    assert [f][1..] == [];
    FilterNone(IsValid(env, t), [f]);
  }
}
