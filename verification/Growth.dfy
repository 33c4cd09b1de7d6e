/** When a run of deliveries only adds to the stores, and what stays hidden then. */
module Growth {
  import opened Primitives
  import opened Ordering
  import opened Model
  import opened Stores
  import opened Validation
  import opened Client
  import opened ClientTheorems
  import opened Delivery

  /** The bundles of a run in the order in which they are stored. */
  function InOrder(env: Env, batches: seq<seq<EventBundle>>): seq<Prepared> {
    if batches == [] then []
    else SortBy(CompareBundles, FilterMap(Prepare(env), batches[0])) + InOrder(env, batches[1..])
  }

  lemma {:induction false} PutAllConcat(env: Env, s: Stores, a: seq<Prepared>, b: seq<Prepared>)
    ensures PutAll(env, s, a + b) == PutAll(env, PutAll(env, s, a), b)
    decreases |a|
  {
    if a == [] {
      assert a + b == b;
    } else {
      assert (a + b)[1..] == a[1..] + b;
      PutAllConcat(env, PutBundle(env, s, a[0]), a[1..], b);
    }
  }

  lemma {:induction false} RunIsPutAll(env: Env, s: Stores, batches: seq<seq<EventBundle>>)
    ensures PutBatches(env, s, batches) == PutAll(env, s, InOrder(env, batches))
    decreases |batches|
  {
    if batches != [] {
      var first := SortBy(CompareBundles, FilterMap(Prepare(env), batches[0]));
      PutAllConcat(env, s, first, InOrder(env, batches[1..]));
      RunIsPutAll(env, PutBatch(env, s, batches[0]), batches[1..]);
    }
  }

  /** The last non-empty proofs given for a key, or none. */
  function LastGiven(ps: seq<Prepared>, key: EventKey): seq<EventProof>
    decreases |ps|
  {
    if ps == [] then []
    else
      var later := LastGiven(ps[1..], key);
      if later != [] then later else if KeyOf(ps[0].event) == Some(key) then ps[0].bundle.eventProofs else []
  }

  lemma {:induction false} BundleProofs(env: Env, s: Stores, p: Prepared, key: EventKey)
    ensures ProofsOf(PutBundle(env, s, p), key)
         == if KeyOf(p.event) == Some(key) && p.bundle.eventProofs != [] then p.bundle.eventProofs else ProofsOf(s, key)
  {
  }

  /** The proofs of a key after a run are the last given ones, or the old ones. */
  lemma {:induction false} ProofsAfter(env: Env, s: Stores, ps: seq<Prepared>, key: EventKey)
    ensures ProofsOf(PutAll(env, s, ps), key)
         == if LastGiven(ps, key) != [] then LastGiven(ps, key) else ProofsOf(s, key)
    decreases |ps|
  {
    if ps != [] {
      BundleProofs(env, s, ps[0], key);
      ProofsAfter(env, PutBundle(env, s, ps[0]), ps[1..], key);
    }
  }

  /** Events and contents are only added. */
  ghost predicate Adds(s: Stores, t: Stores) {
    && (forall e | e in s.events :: e in t.events)
    && (forall d | d in s.contents :: d in t.contents && t.contents[d] == s.contents[d])
  }

  lemma {:induction false} BundleAdds(env: Env, s: Stores, p: Prepared)
    requires AscendingKeys(s.events)
    ensures AscendingKeys(PutBundle(env, s, p).events) && Adds(s, PutBundle(env, s, p))
  {
    var before := PutBundleProofs(PutBundleContent(env, s, p), p);
    assert before.events == s.events && Adds(s, before);
    match KeyOfSigned(env, p.signed)
    case None =>
    case Some(key) => InsertAtMembers(s.events, Entry(key, p.signed));
  }

  lemma {:induction false} RunAdds(env: Env, s: Stores, ps: seq<Prepared>)
    requires AscendingKeys(s.events)
    ensures Adds(s, PutAll(env, s, ps))
    decreases |ps|
  {
    if ps != [] {
      BundleAdds(env, s, ps[0]);
      RunAdds(env, PutBundle(env, s, ps[0]), ps[1..]);
    }
  }

  /** The last proofs that a run gives for each stored event are those already stored, if it gives any. */
  ghost predicate KeepsProofs(env: Env, s: Stores, batches: seq<seq<EventBundle>>) {
    forall e | e in s.events ::
      LastGiven(InOrder(env, batches), e.key) == [] || LastGiven(InOrder(env, batches), e.key) == ProofsOf(s, e.key)
  }

  /** A run of deliveries makes the stores grow if and only if it leaves the proofs of every stored event as they
      were. */
  lemma {:induction false} RunGrowsIff(env: Env, s: Stores, batches: seq<seq<EventBundle>>)
    requires ValidStores(env, s)
    ensures Grows(s, PutBatches(env, s, batches)) <==> KeepsProofs(env, s, batches)
  {
    var ps := InOrder(env, batches);
    RunIsPutAll(env, s, batches);
    RunAdds(env, s, ps);
    forall e | e in s.events
      ensures ProofsOf(PutAll(env, s, ps), e.key)
           == if LastGiven(ps, e.key) != [] then LastGiven(ps, e.key) else ProofsOf(s, e.key)
    {
      ProofsAfter(env, s, ps, e.key);
    }
  }

  /** An event hidden before a run of deliveries is hidden after it, if the run keeps the proofs of stored events and
      the chain still resolves as before. */
  lemma {:induction false} HiddenAfterDeliveries(env: Env, s: Stores, batches: seq<seq<EventBundle>>, identity: Text,
                                                 collection: int, x: Entry)
    requires ValidStores(env, s) && KeepsProofs(env, s, batches)
    requires FreshChain(env, identity, s) == FreshChain(env, identity, PutBatches(env, s, batches))
    requires x in ByCollection(s.events, identity, collection)
    requires x !in VisibleEntries(env, s, identity, collection)
    ensures x !in VisibleEntries(env, PutBatches(env, s, batches), identity, collection)
  {
    RunGrowsIff(env, s, batches);
    HiddenStaysHidden(env, s, PutBatches(env, s, batches), identity, collection, x);
  }
}
