/** Both ends of a push: what arrives in a core when the bundles of a push are copied into it. */
module Transfer {
  import opened Primitives
  import opened Model
  import opened Stores
  import opened Validation
  import opened Client
  import opened Delivery
  import opened Sync
  import opened SyncProtocol
  import opened Ordering

  function Empty(): Stores {
    Stores([], map[], map[])
  }

  /** The event of the entry states the digest. */
  ghost predicate StatesDigest(env: Env, e: Entry, digest: ContentDigest) {
    match env.decodeEvent(e.event.eventBytes)
    case None => false
    case Some(event) => event.contentDigest == Some(digest)
  }

  ghost predicate WellSignedEntry(env: Env, e: Entry) {
    KeyOfSigned(env, e.event) == Some(e.key)
    && e.key.signer.keyType == KEY_TYPE_ED25519
    && env.verifySignature(e.key.signer.key, e.event.signature, e.event.eventBytes)
  }

  lemma {:induction false} Opens(env: Env, e: Entry)
    requires KeyOfSigned(env, e.event) == Some(e.key)
    ensures env.Open(e.event) == (if WellSignedEntry(env, e) then env.decodeEvent(e.event.eventBytes) else None)
  {
  }

  lemma {:induction false} PreparedMembers(env: Env, bundles: seq<EventBundle>, p: Prepared)
    ensures p in PreparedOf(env, bundles) <==> exists i :: 0 <= i < |bundles| && Prepare(env)(bundles[i]) == Some(p)
  {
    FilterMapMembers(Prepare(env), bundles, p);
    if b :| b in bundles && Prepare(env)(b) == Some(p) {
      var i :| 0 <= i < |bundles| && bundles[i] == b;
    }
  }

  /** A bundle of a well-signed entry is prepared, and one of any other entry is not. */
  lemma {:induction false} CarriedIsPrepared(env: Env, s: Stores, e: Entry, b: EventBundle)
    requires Carries(env, s, e, b) && KeyOfSigned(env, e.event) == Some(e.key)
    ensures Prepare(env)(b)
         == if WellSignedEntry(env,
                               e) then Some(Prepared(env.decodeEvent(e.event.eventBytes).value, e.event, b)) else None
  {
    Opens(env, e);
  }

  lemma {:induction false} EventsGiven(env: Env, s: Stores, sent: seq<Entry>, bundles: seq<EventBundle>, x: Entry)
    requires AllCarried(env, s, sent, bundles) && forall e | e in sent :: KeyOfSigned(env, e.event) == Some(e.key)
    ensures SomeGivesEvent(env, PreparedOf(env, bundles), x) <==> x in sent && WellSignedEntry(env, x)
  {
    if p :| p in PreparedOf(env, bundles) && GivesEvent(env, p, x) {
      PreparedMembers(env, bundles, p);
      var i :| 0 <= i < |bundles| && Prepare(env)(bundles[i]) == Some(p);
      CarriedIsPrepared(env, s, sent[i], bundles[i]);
      assert x == sent[i];
    }
    if x in sent && WellSignedEntry(env, x) {
      var i :| 0 <= i < |sent| && sent[i] == x;
      CarriedIsPrepared(env, s, sent[i], bundles[i]);
      var p := Prepare(env)(bundles[i]).value;
      PreparedMembers(env, bundles, p);
      assert GivesEvent(env, p, x);
    }
  }

  /** Some well-signed entry states the digest. */
  ghost predicate SomeStates(env: Env, sent: seq<Entry>, digest: ContentDigest) {
    exists e :: e in sent && WellSignedEntry(env, e) && StatesDigest(env, e, digest)
  }

  lemma {:induction false} ContentGiven(env: Env, s: Stores, sent: seq<Entry>, bundles: seq<EventBundle>,
                                        digest: ContentDigest, bytes: Bytes)
    requires ValidStores(env, s) && AllCarried(env, s, sent, bundles)
    requires forall e | e in sent :: KeyOfSigned(env, e.event) == Some(e.key)
    ensures SomeGivesContent(env, PreparedOf(env, bundles), digest, bytes)
       <==> HasContent(s, digest, bytes) && SomeStates(env, sent, digest)
  {
    if p :| p in PreparedOf(env, bundles) && GivesContent(env, p, digest, bytes) {
      PreparedMembers(env, bundles, p);
      var i :| 0 <= i < |bundles| && Prepare(env)(bundles[i]) == Some(p);
      CarriedIsPrepared(env, s, sent[i], bundles[i]);
      assert RefersTo(env, s, sent[i], bytes) && StatesDigest(env, sent[i], digest);
    }
    if HasContent(s, digest, bytes) && SomeStates(env, sent, digest) {
      var e :| e in sent && WellSignedEntry(env, e) && StatesDigest(env, e, digest);
      var i :| 0 <= i < |sent| && sent[i] == e;
      CarriedIsPrepared(env, s, sent[i], bundles[i]);
      var p := Prepare(env)(bundles[i]).value;
      PreparedMembers(env, bundles, p);
      assert RefersTo(env, s, e, bytes);
      assert GivesContent(env, p, digest, bytes);
    }
  }

  lemma {:induction false} NoProofsGiven(env: Env, s: Stores, sent: seq<Entry>, bundles: seq<EventBundle>,
                                         key: EventKey, proofs: seq<EventProof>)
    requires AllCarried(env, s, sent, bundles) && forall e | e in sent :: KeyOfSigned(env, e.event) == Some(e.key)
    ensures !SomeGivesProofs(PreparedOf(env, bundles), key, proofs)
  {
    forall p | p in PreparedOf(env, bundles) ensures p.bundle.eventProofs == [] {
      PreparedMembers(env, bundles, p);
      var i :| 0 <= i < |bundles| && Prepare(env)(bundles[i]) == Some(p);
      CarriedIsPrepared(env, s, sent[i], bundles[i]);
    }
  }

  /** The push law across both ends: the bundles that valid stores send, copied into an empty core, leave there exactly
      the well-signed entries among those sent, exactly the content that these refer to and the sender holds, and no
      proofs. */
  lemma {:induction false} PushArrives(env: Env, s: Stores, sent: seq<Entry>, bundles: seq<EventBundle>)
    requires ValidStores(env, s) && AllCarried(env, s, sent, bundles) && forall e | e in sent :: e in s.events
    ensures var t := PutBatch(env, Empty(), bundles);
            && (forall x :: x in t.events <==> x in sent && WellSignedEntry(env, x))
            && (forall d, b :: HasContent(t, d, b) <==> HasContent(s, d, b) && SomeStates(env, sent, d))
            && t.proofs == map[]
  {
    var ps, t := PreparedOf(env, bundles), PutBatch(env, Empty(), bundles);
    PushDelivers(env, s, sent, bundles);
    forall x ensures x in t.events <==> x in sent && WellSignedEntry(env, x) {
      EventsGiven(env, s, sent, bundles, x);
      assert x in t.events <==> SourceOfEvent(env, Empty(), ps, x);
    }
    forall d, b ensures HasContent(t, d, b) <==> HasContent(s, d, b) && SomeStates(env, sent, d) {
      ContentGiven(env, s, sent, bundles, d, b);
      assert HasContent(t, d, b) <==> SourceOfContent(env, Empty(), ps, d, b);
    }
    forall k, v ensures !HasProofs(t, k, v) {
      NoProofsGiven(env, s, sent, bundles, k, v);
      assert HasProofs(t, k, v) <==> SourceOfProofs(Empty(), ps, k, v);
    }
    NoProofs(t);
  }

  lemma {:induction false} NoProofs(t: Stores)
    requires forall k, v :: !HasProofs(t, k, v)
    ensures t.proofs == map[]
  {
    forall k ensures k !in t.proofs {
      assert HasProofs(t, k, ProofsOf(t, k)) <==> k in t.proofs;
    }
  }

  lemma {:induction false} PushDelivers(env: Env, s: Stores, sent: seq<Entry>, bundles: seq<EventBundle>)
    requires ValidStores(env, s) && AllCarried(env, s, sent, bundles) && forall e | e in sent :: e in s.events
    ensures Delivered(env, Empty(), PreparedOf(env, bundles), PutBatch(env, Empty(), bundles))
  {
    var ps := PreparedOf(env, bundles);
    forall x | SomeGivesEvent(env, ps, x) ensures x in sent {
      EventsGiven(env, s, sent, bundles, x);
    }
    forall d, b | SomeGivesContent(env, ps, d, b) ensures HasContent(s, d, b) {
      ContentGiven(env, s, sent, bundles, d, b);
    }
    forall k, v ensures !SomeGivesProofs(ps, k, v) {
      NoProofsGiven(env, s, sent, bundles, k, v);
    }
    PushAgrees(env, s, ps, sent);
    assert Delivered(env, Empty(), {}, Empty());
    assert {} + ps == ps;
    BatchDelivered(env, Empty(), {}, Empty(), bundles);
  }

  lemma {:induction false} PushAgrees(env: Env, s: Stores, ps: set<Prepared>, sent: seq<Entry>)
    requires ValidStores(env, s) && forall e | e in sent :: e in s.events
    requires forall x :: SomeGivesEvent(env, ps, x) ==> x in sent
    requires forall d, b :: SomeGivesContent(env, ps, d, b) ==> HasContent(s, d, b)
    requires forall k, v :: !SomeGivesProofs(ps, k, v)
    ensures Agree(env, Empty(), ps)
  {
    forall a, b | SourceOfEvent(env, Empty(), ps, a) && SourceOfEvent(env, Empty(), ps,
                                                                      b) && a.key == b.key ensures a == b {
      KeyIsUnique(s.events, a, b);
    }
  }

  lemma {:induction false} KeyIsUnique(events: EventStore, a: Entry, b: Entry)
    requires AscendingKeys(events) && a in events && b in events && a.key == b.key
    ensures a == b
  {
    KeysOrdered(a.key, a.key, a.key);
  }

  // ----- any batch -----

  /** The bundle brings the entry, under a valid signature. */
  ghost predicate Brings(env: Env, b: EventBundle, x: Entry) {
    b.signedEvent == Some(x.event) && WellSignedEntry(env, x)
  }

  ghost predicate BatchBrings(env: Env, bundles: seq<EventBundle>, x: Entry) {
    exists b :: b in bundles && Brings(env, b, x)
  }

  lemma {:induction false} PreparedBrings(env: Env, bundles: seq<EventBundle>, x: Entry)
    ensures BatchBrings(env, bundles, x) <==> exists p :: p in PreparedOf(env, bundles) && GivesEvent(env, p, x)
  {
    if b :| b in bundles && Brings(env, b, x) {
      Opens(env, x);
      var p := Prepared(env.decodeEvent(x.event.eventBytes).value, x.event, b);
      FilterMapMembers(Prepare(env), bundles, p);
      assert Prepare(env)(b) == Some(p) && p in PreparedOf(env, bundles) && GivesEvent(env, p, x);
    }
    if p :| p in PreparedOf(env, bundles) && GivesEvent(env, p, x) {
      FilterMapMembers(Prepare(env), bundles, p);
      var b :| b in bundles && Prepare(env)(b) == Some(p);
      Opens(env, x);
      assert Brings(env, b, x);
    }
  }

  /** Storing one prepared bundle adds at most its entry, under a free key, and leaves its key taken. */
  lemma {:induction false} OneAdds(env: Env, s: Stores, p: Prepared, key: EventKey)
    requires AscendingKeys(s.events) && KeyOfSigned(env, p.signed) == Some(key)
    ensures var t := PutBundle(env, s, p).events;
            && AscendingKeys(t) && (forall x | x in s.events :: x in t) && Lookup(t, key).Some?
            && forall x | x in t && x !in s.events :: Lookup(s.events, x.key).None? && x == Entry(key, p.signed)
  {
    InsertAtMembers(s.events, Entry(key, p.signed));
    var t := PutBundle(env, s, p).events;
    assert t == InsertAt(s.events, Entry(key, p.signed));
    if Lookup(s.events, key).Some? {
      assert Entry(key, Lookup(s.events, key).value) in t;
    }
  }

  lemma {:induction false} AllAscend(env: Env, s: Stores, ps: seq<Prepared>)
    requires AscendingKeys(s.events) && forall p | p in ps :: KeyOfSigned(env, p.signed).Some?
    ensures AscendingKeys(PutAll(env, s, ps).events)
    ensures forall x | x in s.events :: x in PutAll(env, s, ps).events
    decreases |ps|
  {
    if ps != [] {
      OneAdds(env, s, ps[0], KeyOfSigned(env, ps[0].signed).value);
      AllAscend(env, PutBundle(env, s, ps[0]), ps[1..]);
    }
  }

  /** Storing prepared bundles adds only entries that they give, under free keys. */
  lemma {:induction false} AllGiven(env: Env, s: Stores, ps: seq<Prepared>, x: Entry)
    requires AscendingKeys(s.events) && forall p | p in ps :: KeyOfSigned(env, p.signed).Some?
    requires x in PutAll(env, s, ps).events && x !in s.events
    ensures Lookup(s.events, x.key).None? && exists p :: p in ps && GivesEvent(env, p, x)
    decreases |ps|
  {
    var p, rest, t := ps[0], ps[1..], PutBundle(env, s, ps[0]);
    assert ps == [p] + rest;
    OneAdds(env, s, p, KeyOfSigned(env, p.signed).value);
    if x in t.events {
      assert GivesEvent(env, p, x);
    } else {
      AllGiven(env, t, rest, x);
      StillFree(s.events, t.events, x.key);
    }
  }

  lemma {:induction false} StillFree(s: EventStore, t: EventStore, key: EventKey)
    requires Lookup(t, key).None? && forall x | x in s :: x in t
    ensures Lookup(s, key).None?
  {
  }

  /** Afterwards every key given is taken. */
  lemma {:induction false} AllTaken(env: Env, s: Stores, ps: seq<Prepared>, p: Prepared)
    requires AscendingKeys(s.events) && forall p | p in ps :: KeyOfSigned(env, p.signed).Some?
    requires p in ps
    ensures exists y :: y in PutAll(env, s, ps).events && KeyOfSigned(env, p.signed) == Some(y.key)
    decreases |ps|
  {
    var first, rest, t := ps[0], ps[1..], PutBundle(env, s, ps[0]);
    assert ps == [first] + rest;
    OneAdds(env, s, first, KeyOfSigned(env, first.signed).value);
    if p == first {
      AllAscend(env, t, rest);
      var key := KeyOfSigned(env, p.signed).value;
      assert Entry(key, Lookup(t.events, key).value) in PutAll(env, t, rest).events;
    } else {
      AllTaken(env, t, rest, p);
    }
  }

  /** Copying a batch keeps what is stored, adds only entries under free keys that the batch brings with a valid
      signature, and leaves no key that it brings free. */
  lemma {:induction false} BatchAddsSigned(env: Env, s: Stores, bundles: seq<EventBundle>, x: Entry)
    requires AscendingKeys(s.events)
    ensures x in s.events ==> x in PutBatch(env, s, bundles).events
    ensures x in PutBatch(env, s, bundles).events && x !in s.events ==>
              Lookup(s.events, x.key).None? && BatchBrings(env, bundles, x)
    ensures BatchBrings(env, bundles, x) ==> exists y :: y in PutBatch(env, s, bundles).events && y.key == x.key
  {
    var prepared := FilterMap(Prepare(env), bundles);
    var batch := SortBy(CompareBundles, prepared);
    assert forall p :: p in batch <==> p in prepared by {
      assert forall p :: p in batch <==> p in multiset(batch);
      assert forall p :: p in prepared <==> p in multiset(prepared);
    }
    forall p | p in batch ensures KeyOfSigned(env, p.signed).Some? {
      PreparedIsWellSigned(env, bundles, p);
    }
    AllAscend(env, s, batch);
    PreparedBrings(env, bundles, x);
    if x in PutAll(env, s, batch).events && x !in s.events {
      AllGiven(env, s, batch, x);
    }
    if p :| p in PreparedOf(env, bundles) && GivesEvent(env, p, x) {
      AllTaken(env, s, batch, p);
    }
  }

  /** When the batch and the stores bring one event for each key, copying the batch is the protocol's insertion. */
  lemma {:induction false} BatchIsInsert(env: Env, s: Stores, bundles: seq<EventBundle>, identity: Text, more: Replica)
    requires AscendingKeys(s.events) && OnePerKey(more)
    requires forall x :: x in more <==> BatchBrings(env, bundles, x) && x.key.identity == identity
    ensures ReplicaOf(PutBatch(env, s, bundles).events, identity) == Insert(ReplicaOf(s.events, identity), more)
  {
    var r, after := ReplicaOf(s.events, identity), PutBatch(env, s, bundles).events;
    forall x: Entry | x.key.identity == identity ensures x in after <==> x in Insert(r, more) {
      InsertedIff(env, s, bundles, identity, more, x);
    }
    assert forall x | x in Insert(r, more) :: x.key.identity == identity;
  }

  lemma {:induction false} InsertedIff(env: Env, s: Stores, bundles: seq<EventBundle>, identity: Text, more: Replica,
                                       x: Entry)
    requires AscendingKeys(s.events) && OnePerKey(more) && x.key.identity == identity
    requires forall x :: x in more <==> BatchBrings(env, bundles, x) && x.key.identity == identity
    ensures x in PutBatch(env, s, bundles).events <==> x in Insert(ReplicaOf(s.events, identity), more)
  {
    var after := PutBatch(env, s, bundles).events;
    BatchAddsSigned(env, s, bundles, x);
    OccupiedMeaning(s.events, identity, x.key);
    if x in more && Lookup(s.events, x.key).None? {
      var y :| y in after && y.key == x.key;
      BatchAddsSigned(env, s, bundles, y);
      assert y == x;
    }
  }

  lemma {:induction false} OccupiedMeaning(events: EventStore, identity: Text, key: EventKey)
    requires key.identity == identity
    ensures Occupied(ReplicaOf(events, identity), key) <==> Lookup(events, key).Some?
  {
    if Lookup(events, key).Some? {
      assert Entry(key, Lookup(events, key).value) in ReplicaOf(events, identity);
    }
  }
}
