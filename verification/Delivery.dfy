/**
 Delivery of bundles: when no two of them disagree about a key or a digest, the stores
 depend only on which bundles were delivered, not on their order or batching.
 */
module Delivery {
  import opened Primitives
  import opened Ordering
  import opened Model
  import opened Stores
  import opened Validation
  import opened Client

  ghost predicate WellSigned(env: Env, p: Prepared) {
    env.Open(p.signed) == Some(p.event)
  }

  /** A well-signed event has a key. */
  function KeyOfPrepared(env: Env, p: Prepared): EventKey
    requires WellSigned(env, p)
  {
    KeyOfSigned(env, p.signed).value
  }

  // ----- what a bundle contributes -----

  ghost predicate GivesEvent(env: Env, p: Prepared, e: Entry) {
    KeyOfSigned(env, p.signed) == Some(e.key) && e.event == p.signed
  }

  ghost predicate GivesProofs(p: Prepared, key: EventKey, proofs: seq<EventProof>) {
    KeyOf(p.event) == Some(key) && p.bundle.eventProofs == proofs && proofs != []
  }

  ghost predicate GivesContent(env: Env, p: Prepared, digest: ContentDigest, bytes: Bytes) {
    && p.event.contentDigest == Some(digest) && p.bundle.serializedContent == Some(bytes)
    && env.DigestMatches(digest, bytes)
  }

  ghost predicate HasProofs(s: Stores, key: EventKey, proofs: seq<EventProof>) {
    key in s.proofs && s.proofs[key] == proofs
  }

  ghost predicate HasContent(s: Stores, digest: ContentDigest, bytes: Bytes) {
    digest in s.contents && s.contents[digest] == bytes
  }

  // ----- the stores that a set of deliveries leads to -----

  ghost predicate SomeGivesEvent(env: Env, ps: set<Prepared>, e: Entry) {
    exists p :: p in ps && GivesEvent(env, p, e)
  }

  ghost predicate SomeGivesProofs(ps: set<Prepared>, key: EventKey, proofs: seq<EventProof>) {
    exists p :: p in ps && GivesProofs(p, key, proofs)
  }

  ghost predicate SomeGivesContent(env: Env, ps: set<Prepared>, digest: ContentDigest, bytes: Bytes) {
    exists p :: p in ps && GivesContent(env, p, digest, bytes)
  }

  ghost predicate SourceOfEvent(env: Env, s: Stores, ps: set<Prepared>, e: Entry) {
    e in s.events || SomeGivesEvent(env, ps, e)
  }

  ghost predicate SourceOfProofs(s: Stores, ps: set<Prepared>, key: EventKey, proofs: seq<EventProof>) {
    HasProofs(s, key, proofs) || SomeGivesProofs(ps, key, proofs)
  }

  ghost predicate SourceOfContent(env: Env, s: Stores, ps: set<Prepared>, digest: ContentDigest, bytes: Bytes) {
    HasContent(s, digest, bytes) || SomeGivesContent(env, ps, digest, bytes)
  }

  /** `t` is `s` plus exactly what the bundles of `ps` contribute. */
  ghost predicate Delivered(env: Env, s: Stores, ps: set<Prepared>, t: Stores) {
    && AscendingKeys(t.events)
    && (forall e :: e in t.events <==> SourceOfEvent(env, s, ps, e))
    && (forall k, v :: HasProofs(t, k, v) <==> SourceOfProofs(s, ps, k, v))
    && (forall d, b :: HasContent(t, d, b) <==> SourceOfContent(env, s, ps, d, b))
  }

  /** The deliveries agree with the stores and with each other wherever they name the same key or digest. */
  ghost predicate Agree(env: Env, s: Stores, ps: set<Prepared>) {
    && (forall a, b | SourceOfEvent(env, s, ps, a) && SourceOfEvent(env, s, ps, b) && a.key == b.key :: a == b)
    && (forall k, v, w | SourceOfProofs(s, ps, k, v) && SourceOfProofs(s, ps, k, w) :: v == w)
    && (forall d, b, c | SourceOfContent(env, s, ps, d, b) && SourceOfContent(env, s, ps, d, c) :: b == c)
  }

  lemma {:induction false} MapsEqual<K, V>(m: map<K, V>, n: map<K, V>)
    requires forall k :: k in m <==> k in n
    requires forall k | k in m && k in n :: m[k] == n[k]
    ensures m == n
  {
  }

  /** The outcome is determined by the set of deliveries. */
  lemma {:induction false} DeliveredUnique(env: Env, s: Stores, ps: set<Prepared>, t: Stores, t': Stores)
    requires Delivered(env, s, ps, t) && Delivered(env, s, ps, t')
    ensures t == t'
  {
    SameEntriesSameStore(t.events, t'.events);
    forall k
      ensures k in t.proofs <==> k in t'.proofs
      ensures k in t.proofs && k in t'.proofs ==> t.proofs[k] == t'.proofs[k]
    {
      if k in t.proofs { assert HasProofs(t, k, t.proofs[k]); assert HasProofs(t', k, t.proofs[k]); }
      if k in t'.proofs { assert HasProofs(t', k, t'.proofs[k]); assert HasProofs(t, k, t'.proofs[k]); }
    }
    MapsEqual(t.proofs, t'.proofs);
    forall d
      ensures d in t.contents <==> d in t'.contents
      ensures d in t.contents && d in t'.contents ==> t.contents[d] == t'.contents[d]
    {
      if d in t.contents { assert HasContent(t, d, t.contents[d]); assert HasContent(t', d, t.contents[d]); }
      if d in t'.contents { assert HasContent(t', d, t'.contents[d]); assert HasContent(t, d, t'.contents[d]); }
    }
    MapsEqual(t.contents, t'.contents);
  }

  // ----- one bundle -----

  lemma {:induction false} StepEvents(env: Env, s: Stores, t: Stores, p: Prepared, e: Entry)
    requires WellSigned(env, p) && AscendingKeys(t.events)
    requires forall x | x in t.events && x.key == KeyOfPrepared(env, p) :: x.event == p.signed
    ensures AscendingKeys(PutBundle(env, t, p).events)
    ensures e in PutBundle(env, t, p).events <==> e in t.events || GivesEvent(env, p, e)
  {
    var mine := Entry(KeyOfPrepared(env, p), p.signed);
    InsertAtMembers(t.events, mine);
    if Lookup(t.events, mine.key).Some? {
      assert Entry(mine.key, Lookup(t.events, mine.key).value) in t.events;
    }
  }

  lemma {:induction false} StepProofs(env: Env, t: Stores, p: Prepared, k: EventKey, v: seq<EventProof>)
    requires WellSigned(env, p)
    requires forall w, u :: GivesProofs(p, k, w) && HasProofs(t, k, u) ==> w == u
    ensures HasProofs(PutBundle(env, t, p), k, v) <==> HasProofs(t, k, v) || GivesProofs(p, k, v)
  {
    if GivesProofs(p, k, p.bundle.eventProofs) && k in t.proofs {
      assert HasProofs(t, k, t.proofs[k]);
    }
  }

  lemma {:induction false} StepContent(env: Env, t: Stores, p: Prepared, d: ContentDigest, b: Bytes)
    requires WellSigned(env, p)
    requires forall c, c' :: GivesContent(env, p, d, c) && HasContent(t, d, c') ==> c == c'
    ensures HasContent(PutBundle(env, t, p), d, b) <==> HasContent(t, d, b) || GivesContent(env, p, d, b)
  {
    if p.event.contentDigest == Some(d) && p.bundle.serializedContent.Some? && d in t.contents {
      assert HasContent(t, d, t.contents[d]);
    }
  }

  lemma {:induction false} StepDelivered(env: Env, s: Stores, ps: set<Prepared>, t: Stores, p: Prepared)
    requires Delivered(env, s, ps, t) && WellSigned(env, p) && Agree(env, s, ps + {p})
    ensures Delivered(env, s, ps + {p}, PutBundle(env, t, p))
  {
    var qs := ps + {p};
    assert p in qs;
    forall e ensures SourceOfEvent(env, s, qs, e) <==> e in t.events || GivesEvent(env, p, e) {
      if SomeGivesEvent(env, ps, e) { var x :| x in ps && GivesEvent(env, x, e); assert x in qs; }
    }
    forall k, v ensures SourceOfProofs(s, qs, k, v) <==> HasProofs(t, k, v) || GivesProofs(p, k, v) {
      if SomeGivesProofs(ps, k, v) { var x :| x in ps && GivesProofs(x, k, v); assert x in qs; }
    }
    forall d, b ensures SourceOfContent(env, s, qs, d, b) <==> HasContent(t, d, b) || GivesContent(env, p, d, b) {
      if SomeGivesContent(env, ps, d, b) { var x :| x in ps && GivesContent(env, x, d, b); assert x in qs; }
    }
    forall x | x in t.events && x.key == KeyOfPrepared(env, p) ensures x.event == p.signed {
      var mine := Entry(KeyOfPrepared(env, p), p.signed);
      assert GivesEvent(env, p, mine);
      assert SourceOfEvent(env, s, qs, mine) && SourceOfEvent(env, s, qs, x);
    }
    forall k, w, u | GivesProofs(p, k, w) && HasProofs(t, k, u) ensures w == u {
      assert SourceOfProofs(s, qs, k, w) && SourceOfProofs(s, qs, k, u);
    }
    forall d, c, c' | GivesContent(env, p, d, c) && HasContent(t, d, c') ensures c == c' {
      assert SourceOfContent(env, s, qs, d, c) && SourceOfContent(env, s, qs, d, c');
    }
    forall e { StepEvents(env, s, t, p, e); }
    forall k, v { StepProofs(env, t, p, k, v); }
    forall d, b { StepContent(env, t, p, d, b); }
  }

  // ----- batches -----

  lemma {:induction false} AllDelivered(env: Env, s: Stores, ps: set<Prepared>, t: Stores, batch: seq<Prepared>)
    requires Delivered(env, s, ps, t)
    requires forall p | p in batch :: WellSigned(env, p)
    requires forall qs :: ps <= qs <= ps + (set p | p in batch) ==> Agree(env, s, qs)
    ensures Delivered(env, s, ps + (set p | p in batch), PutAll(env, t, batch))
    decreases |batch|
  {
    if batch == [] {
      assert ps + (set p | p in batch) == ps;
    } else {
      var first, rest := batch[0], batch[1..];
      assert batch == [first] + rest;
      StepDelivered(env, s, ps, t, first);
      assert ps + (set p | p in batch) == (ps + {first}) + (set p | p in rest);
      AllDelivered(env, s, ps + {first}, PutBundle(env, t, first), rest);
    }
  }

  /** Agreement is inherited by subsets. */
  lemma {:induction false} SubsetAgrees(env: Env, s: Stores, ps: set<Prepared>, qs: set<Prepared>)
    requires Agree(env, s, ps) && qs <= ps
    ensures Agree(env, s, qs)
  {
    forall e | SourceOfEvent(env, s, qs, e) ensures SourceOfEvent(env, s, ps, e) {
      if SomeGivesEvent(env, qs, e) { var x :| x in qs && GivesEvent(env, x, e); assert x in ps; }
    }
    forall k, v | SourceOfProofs(s, qs, k, v) ensures SourceOfProofs(s, ps, k, v) {
      if SomeGivesProofs(qs, k, v) { var x :| x in qs && GivesProofs(x, k, v); assert x in ps; }
    }
    forall d, b | SourceOfContent(env, s, qs, d, b) ensures SourceOfContent(env, s, ps, d, b) {
      if SomeGivesContent(env, qs, d, b) { var x :| x in qs && GivesContent(env, x, d, b); assert x in ps; }
    }
  }

  function PreparedOf(env: Env, bundles: seq<EventBundle>): set<Prepared> {
    set p | p in FilterMap(Prepare(env), bundles)
  }

  /** A run: batches delivered one after the other. */
  function PutBatches(env: Env, s: Stores, batches: seq<seq<EventBundle>>): Stores
    decreases |batches|
  {
    if batches == [] then s else PutBatches(env, PutBatch(env, s, batches[0]), batches[1..])
  }

  function AllPrepared(env: Env, batches: seq<seq<EventBundle>>): set<Prepared>
    decreases |batches|
  {
    if batches == [] then {} else PreparedOf(env, batches[0]) + AllPrepared(env, batches[1..])
  }

  lemma {:induction false} PreparedIsWellSigned(env: Env, bundles: seq<EventBundle>, p: Prepared)
    requires p in FilterMap(Prepare(env), bundles)
    ensures WellSigned(env, p)
  {
    FilterMapMembers(Prepare(env), bundles, p);
    var b :| b in bundles && Prepare(env)(b) == Some(p);
  }

  lemma {:induction false} BatchDelivered(env: Env, s: Stores, ps: set<Prepared>, t: Stores, bundles: seq<EventBundle>)
    requires Delivered(env, s, ps, t) && Agree(env, s, ps + PreparedOf(env, bundles))
    ensures Delivered(env, s, ps + PreparedOf(env, bundles), PutBatch(env, t, bundles))
  {
    var prepared := FilterMap(Prepare(env), bundles);
    var batch := SortBy(CompareBundles, prepared);
    assert forall p :: p in batch <==> p in prepared by {
      assert forall p :: p in batch <==> p in multiset(batch);
      assert forall p :: p in prepared <==> p in multiset(prepared);
    }
    assert (set p | p in batch) == PreparedOf(env, bundles);
    forall p | p in batch ensures WellSigned(env, p) { PreparedIsWellSigned(env, bundles, p); }
    forall qs | ps <= qs <= ps + (set p | p in batch) ensures Agree(env, s, qs) {
      SubsetAgrees(env, s, ps + PreparedOf(env, bundles), qs);
    }
    AllDelivered(env, s, ps, t, batch);
  }

  lemma {:induction false} RunDelivered(env: Env, s: Stores, ps: set<Prepared>, t: Stores,
                                        batches: seq<seq<EventBundle>>)
    requires Delivered(env, s, ps, t) && Agree(env, s, ps + AllPrepared(env, batches))
    ensures Delivered(env, s, ps + AllPrepared(env, batches), PutBatches(env, t, batches))
    decreases |batches|
  {
    if batches == [] {
      assert ps + AllPrepared(env, batches) == ps;
    } else {
      var first, rest := batches[0], batches[1..];
      var now := ps + PreparedOf(env, first);
      assert ps + AllPrepared(env, batches) == now + AllPrepared(env, rest);
      SubsetAgrees(env, s, ps + AllPrepared(env, batches), now);
      BatchDelivered(env, s, ps, t, first);
      RunDelivered(env, s, now, PutBatch(env, t, first), rest);
    }
  }

  lemma {:induction false} BundlesOrdered()
    ensures TotalPreorder(CompareBundles)
  {
  }

  /** A batch is stored identity events first, and by sequence within either group. */
  lemma {:induction false} BatchInOrder(env: Env, bundles: seq<EventBundle>, i: nat, j: nat)
    requires i < j < |SortBy(CompareBundles, FilterMap(Prepare(env), bundles))|
    ensures var batch := SortBy(CompareBundles, FilterMap(Prepare(env), bundles));
            var a, b := batch[i].event, batch[j].event;
            && (CollectionOf(b) == IDENTITY ==> CollectionOf(a) == IDENTITY)
            && ((CollectionOf(a) == IDENTITY <==> CollectionOf(b) == IDENTITY) ==> SequenceOf(a) <= SequenceOf(b))
  {
    BundlesOrdered();
    SortBySorts(CompareBundles, FilterMap(Prepare(env), bundles));
    var batch := SortBy(CompareBundles, FilterMap(Prepare(env), bundles));
    assert CompareBundles(batch[i], batch[j]) != Greater;
  }

  /** Confluence: two runs that deliver the same bundles, in any order and any batches, end in the same
      stores, and so agree on everything derived from them. */
  lemma {:induction false} DeliveryConfluence(env: Env, s: Stores, run: seq<seq<EventBundle>>,
                                              run': seq<seq<EventBundle>>)
    requires ValidStores(env, s)
    requires AllPrepared(env, run) == AllPrepared(env, run') && Agree(env, s, AllPrepared(env, run))
    ensures PutBatches(env, s, run) == PutBatches(env, s, run')
  {
    assert Delivered(env, s, {}, s);
    assert {} + AllPrepared(env, run) == AllPrepared(env, run);
    RunDelivered(env, s, {}, s, run);
    RunDelivered(env, s, {}, s, run');
    DeliveredUnique(env, s, AllPrepared(env, run), PutBatches(env, s, run), PutBatches(env, s, run'));
  }

  /** In particular the visible events do not depend on delivery order or batching. */
  lemma {:induction false} VisibleIgnoresDelivery(env: Env, s: Stores, run: seq<seq<EventBundle>>,
                                                  run': seq<seq<EventBundle>>, identity: Text, collection: int)
    requires ValidStores(env, s)
    requires AllPrepared(env, run) == AllPrepared(env, run') && Agree(env, s, AllPrepared(env, run))
    ensures VisibleBundles(env, PutBatches(env, s, run), identity, collection)
         == VisibleBundles(env, PutBatches(env, s, run'), identity, collection)
  {
    DeliveryConfluence(env, s, run, run');
  }
}
