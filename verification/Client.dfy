/**
 The client's state: the stores and the two caches derived from them. Every mutation
 keeps the caches in agreement with a fresh computation from the stores.
 */
module Client {
  import opened Primitives
  import opened Ordering
  import opened Model
  import opened IdentityChain
  import opened Stores
  import opened Validation

  // ----- what a stored event or content can change -----

  lemma {:induction false} FilterMapSame<A, B>(f: A -> Option<B>, g: A -> Option<B>, s: seq<A>)
    requires forall x | x in s :: f(x) == g(x)
    ensures FilterMap(f, s) == FilterMap(g, s)
  {
    if s != [] {
      assert s == [s[0]] + s[1..];
      FilterMapSame(f, g, s[1..]);
    }
  }

  lemma {:induction false} InsertPresent(events: EventStore, e: Entry)
    requires AscendingKeys(events) && Lookup(events, e.key).Some?
    ensures InsertAt(events, e) == events
  {
    KeysOrdered(e.key, events[0].key, e.key);
    if events[0].key != e.key {
      var found := Lookup(events[1..], e.key).value;
      assert Entry(e.key, found) in events[1..];
      InsertPresent(events[1..], e);
    }
  }

  /** Only a new identity event changes a chain, and only the chain of its own identity. */
  lemma {:induction false} EventChangesOneChain(env: Env, s: Stores, signed: SignedEvent, identity: Text)
    requires ValidStores(env, s)
    requires match KeyOfSigned(env, signed)
             case None => true
             case Some(key) => key.collection != IDENTITY || key.identity != identity || Lookup(s.events, key).Some?
    ensures FreshChain(env, identity, PutEvent(env, s, signed)) == FreshChain(env, identity, s)
  {
    match KeyOfSigned(env, signed)
    case None =>
    case Some(key) =>
      if Lookup(s.events, key).Some? {
        InsertPresent(s.events, Entry(key, signed));
      } else {
        InsertAtFilter(InCollection(identity, IDENTITY), s.events, Entry(key, signed));
      }
  }

  predicate IsIdentityContent(env: Env, bytes: Bytes) {
    match env.decodeContent(bytes)
    case Some(Content(Some(IdentityBody(_)))) => true
    case _ => false
  }

  /** Content that is not an identity document changes no chain. */
  lemma {:induction false} OtherContentChangesNoChain(env: Env, s: Stores, digest: ContentDigest, bytes: Bytes,
                                                      identity: Text)
    requires !IsIdentityContent(env, bytes)
    ensures FreshChain(env, identity, PutContent(env, s, digest, bytes)) == FreshChain(env, identity, s)
  {
    var contents := PutContent(env, s, digest, bytes).contents;
    FilterMapSame(ChainEvent(env, identity, contents), ChainEvent(env, identity, s.contents),
                  ByCollection(s.events, identity, IDENTITY));
  }

  ghost predicate ChainsAgree(env: Env, s: Stores, chains: map<Text, Chain>) {
    forall identity | identity in chains :: FreshChain(env, identity, s) == Some(chains[identity])
  }

  lemma {:induction false} PutEventKeepsChains(env: Env, s: Stores, signed: SignedEvent, chains: map<Text, Chain>)
    requires ValidStores(env, s) && ChainsAgree(env, s, chains)
    ensures match KeyOfSigned(env, signed)
            case None => ChainsAgree(env, PutEvent(env, s, signed), chains)
            case Some(key) =>
              if key.collection == IDENTITY && Lookup(s.events, key).None?
              then ChainsAgree(env, PutEvent(env, s, signed), chains - {key.identity})
              else ChainsAgree(env, PutEvent(env, s, signed), chains)
  {
    forall identity: Text |
      match KeyOfSigned(env, signed)
      case None => true
      case Some(key) => key.collection != IDENTITY || key.identity != identity || Lookup(s.events, key).Some?
      ensures FreshChain(env, identity, PutEvent(env, s, signed)) == FreshChain(env, identity, s)
    {
      EventChangesOneChain(env, s, signed, identity);
    }
  }

  lemma {:induction false} PutContentKeepsChains(env: Env, s: Stores, digest: ContentDigest, bytes: Bytes,
                                                 chains: map<Text, Chain>)
    requires ChainsAgree(env, s, chains) && !IsIdentityContent(env, bytes)
    ensures ChainsAgree(env, PutContent(env, s, digest, bytes), chains)
  {
    forall identity: Text { OtherContentChangesNoChain(env, s, digest, bytes, identity); }
  }

  // ----- loops over entries -----

  /** Advance a loop that filters `s` one element at a time. */
  lemma {:induction false} FilterNext(p: Entry -> bool, s: EventStore, i: nat, kept: EventStore)
    requires i < |s| && kept + Filter(p, s[i..]) == Filter(p, s)
    ensures (if p(s[i]) then kept + [s[i]] else kept) + Filter(p, s[i + 1..]) == Filter(p, s)
  {
    var rest := Filter(p, s[i + 1..]);
    assert s[i..][1..] == s[i + 1..];
    assert (kept + [s[i]]) + rest == kept + ([s[i]] + rest);
  }

  lemma {:induction false} TombstonedAppend(env: Env, s: Stores, valid: EventStore, e: Entry, key: EventKey)
    ensures Tombstoned(env, s, valid + [e], key)
       <==> Tombstoned(env, s, valid, key) || DeleteTarget(env, BundleFor(env, s, e, true)) == Some(key)
  {
    if Tombstoned(env, s, valid, key) {
      var d :| d in valid && DeleteTarget(env, BundleFor(env, s, d, true)) == Some(key);
      assert d in valid + [e];
    }
    assert e in valid + [e];
  }

  ghost predicate TargetsOf(env: Env, s: Stores, valid: EventStore, tombstoned: set<EventKey>) {
    forall key :: key in tombstoned <==> Tombstoned(env, s, valid, key)
  }

  function AddTarget(env: Env, s: Stores, e: Entry, tombstoned: set<EventKey>): set<EventKey> {
    match DeleteTarget(env, BundleFor(env, s, e, true))
    case None => tombstoned
    case Some(target) => tombstoned + {target}
  }

  lemma {:induction false} AddTargetOf(env: Env, s: Stores, valid: EventStore, e: Entry, tombstoned: set<EventKey>)
    requires TargetsOf(env, s, valid, tombstoned)
    ensures TargetsOf(env, s, valid + [e], AddTarget(env, s, e, tombstoned))
  {
    forall key { TombstonedAppend(env, s, valid, e, key); }
  }

  // ----- batches of bundles -----

  /** A bundle whose event carries a valid signature. */
  datatype Prepared = Prepared(event: Event, signed: SignedEvent, bundle: EventBundle)

  function Prepare(env: Env): EventBundle -> Option<Prepared> {
    (b: EventBundle) =>
      match b.signedEvent
      case None => None
      case Some(signed) =>
        match env.Open(signed)
        case None => None
        case Some(event) => Some(Prepared(event, signed, b))
  }

  /** Identity events first, then by sequence. */
  function CompareBundles(a: Prepared, b: Prepared): Ordering {
    CompareInt(if CollectionOf(a.event) == IDENTITY then 0 else 1, if CollectionOf(b.event) == IDENTITY then 0 else 1)
    .ThenWith(CompareInt(SequenceOf(a.event), SequenceOf(b.event)))
  }

  function CollectionOf(event: Event): int {
    if event.key.Some? then event.key.value.collection else 0x7FFF_FFFF
  }

  function SequenceOf(event: Event): u64 {
    if event.key.Some? then event.key.value.sequence else 0
  }

  function PutBundleContent(env: Env, s: Stores, p: Prepared): Stores {
    match (p.event.contentDigest, p.bundle.serializedContent)
    case (Some(digest), Some(bytes)) => PutContent(env, s, digest, bytes)
    case _ => s
  }

  function PutBundleProofs(s: Stores, p: Prepared): Stores {
    match KeyOf(p.event)
    case Some(key) => PutProofs(s, key, p.bundle.eventProofs)
    case None => s
  }

  function PutBundle(env: Env, s: Stores, p: Prepared): Stores {
    PutEvent(env, PutBundleProofs(PutBundleContent(env, s, p), p), p.signed)
  }

  function PutAll(env: Env, s: Stores, ps: seq<Prepared>): Stores
    decreases |ps|
  {
    if ps == [] then s else PutAll(env, PutBundle(env, s, ps[0]), ps[1..])
  }

  /** The stores after a batch: its well-signed bundles in sorted order, one by one. */
  function PutBatch(env: Env, s: Stores, bundles: seq<EventBundle>): Stores {
    PutAll(env, s, SortBy(CompareBundles, FilterMap(Prepare(env), bundles)))
  }

  // ----- the client -----

  class PolycentricClient {
    const env: Env
    var activeIdentity: Option<Text>
    var blockedCache: Option<set<Text>>
    var chains: map<Text, Chain>
    var stores: Stores

    /** The stores are well-formed and every cached chain is the one the stores resolve to. */
    ghost predicate Consistent()
      reads this
    {
      && ValidStores(env, stores)
      && ChainsAgree(env, stores, chains)
    }

    /** Moreover a cached blocked set is the one a fresh computation gives. */
    ghost predicate Valid()
      reads this
    {
      && Consistent()
      && (blockedCache.Some? ==> blockedCache.value == FreshBlocked(env, stores, activeIdentity))
    }

    constructor (env: Env)
      ensures Valid()
      ensures this.env == env && stores == Stores([], map[], map[]) && activeIdentity == None
    {
      this.env := env;
      activeIdentity := None;
      blockedCache := None;
      chains := map[];
      stores := Stores([], map[], map[]);
    }

    method SetActiveIdentity(identity: Option<Text>)
      requires Valid()
      modifies this
      ensures Valid()
      ensures activeIdentity == identity && stores == old(stores) && blockedCache == None
    {
      activeIdentity := identity;
      blockedCache := None;
    }

    /** The chain of an identity, from the cache when it is there; failures are not cached. */
    method GetChain(identity: Text) returns (c: Option<Chain>)
      requires Consistent()
      modifies this`chains
      ensures Consistent()
      ensures c == FreshChain(env, identity, stores)
      ensures old(identity in chains) ==> chains == old(chains)
    {
      if identity in chains {
        return Some(chains[identity]);
      }
      c := FreshChain(env, identity, stores);
      if c.Some? {
        chains := chains[identity := c.value];
      }
    }

    method ValidateEvent(signed: SignedEvent, proofs: seq<EventProof>) returns (ok: bool)
      requires Consistent()
      modifies this`chains
      ensures Consistent()
      ensures ok <==> ValidEvent(env, stores, signed, proofs)
    {
      var event := env.decodeEvent(signed.eventBytes);
      if event.None? || event.value.key.None? || event.value.key.value.signedBy.None? {
        return false;
      }
      var chain := GetChain(event.value.key.value.identity);
      if chain.None? {
        return false;
      }
      ok := ValidInChain(env, chain.value, event.value, event.value.key.value.signedBy.value, signed, proofs);
    }

    /** The validated entries of a collection and the keys their deletes target. */
    method CollectValid(identity: Text, collection: int) returns (valid: EventStore, tombstoned: set<EventKey>)
      requires Consistent()
      modifies this`chains
      ensures Consistent()
      ensures valid == ValidEntries(env, stores, identity, collection)
      ensures forall key :: key in tombstoned <==> Tombstoned(env, stores, valid, key)
    {
      var entries := ByCollection(stores.events, identity, collection);
      valid, tombstoned := [], {};
      assert entries[0..] == entries;
      assert [] + Filter(IsValid(env, stores), entries) == Filter(IsValid(env, stores), entries);
      for i := 0 to |entries|
        invariant Consistent()
        invariant valid + Filter(IsValid(env, stores), entries[i..]) == Filter(IsValid(env, stores), entries)
        invariant TargetsOf(env, stores, valid, tombstoned)
      {
        FilterNext(IsValid(env, stores), entries, i, valid);
        var ok := ValidateEvent(entries[i].event, ProofsOf(stores, entries[i].key));
        if ok {
          AddTargetOf(env, stores, valid, entries[i], tombstoned);
          tombstoned := AddTarget(env, stores, entries[i], tombstoned);
          valid := valid + [entries[i]];
        }
      }
    }

    method ListValidEvents(identity: Text, collection: int) returns (bundles: seq<EventBundle>)
      requires Consistent()
      modifies this`chains
      ensures Consistent()
      ensures bundles == VisibleBundles(env, stores, identity, collection)
    {
      var valid, tombstoned := CollectValid(identity, collection);
      FilterSame((e: Entry) => e.key !in tombstoned, Untombstoned(env, stores, valid), valid);
      bundles := Map(Bundled(env, stores), Filter((e: Entry) => e.key !in tombstoned, valid));
    }

    method BlockedIdentities() returns (blocked: set<Text>)
      requires Valid()
      modifies this`chains, this`blockedCache
      ensures Valid()
      ensures blocked == FreshBlocked(env, stores, activeIdentity)
      ensures blockedCache == Some(blocked)
    {
      if blockedCache.Some? {
        return blockedCache.value;
      }
      blocked := {};
      if activeIdentity.Some? {
        var bundles := ListValidEvents(activeIdentity.value, SOCIAL_GRAPH);
        blocked := BlockTargets(env, bundles);
      }
      blockedCache := Some(blocked);
    }

    /** Store a signed event. Clears the blocked set, and the chain that a new identity event may change. */
    method CopyEvent(signed: SignedEvent) returns (ok: bool)
      requires Consistent()
      modifies this
      ensures Valid()
      ensures stores == PutEvent(env, old(stores), signed) && activeIdentity == old(activeIdentity)
      ensures ok <==> KeyOfSigned(env, signed).Some?
    {
      blockedCache := None;
      var key := KeyOfSigned(env, signed);
      if key.None? {
        return false;
      }
      var inserted := Lookup(stores.events, key.value).None?;
      PutKeepsValid(env, stores, signed, ContentDigest(0, []), []);
      PutEventKeepsChains(env, stores, signed, chains);
      stores := PutEvent(env, stores, signed);
      if inserted && key.value.collection == IDENTITY {
        chains := chains - {key.value.identity};
      }
      ok := true;
    }

    /** Store content under its digest, or reject it. Clears every chain when an identity document arrives. */
    method CopyContent(digest: ContentDigest, bytes: Bytes) returns (ok: bool)
      requires Valid()
      modifies this
      ensures Valid()
      ensures stores == PutContent(env, old(stores), digest, bytes) && activeIdentity == old(activeIdentity)
      ensures ok <==> env.DigestMatches(digest, bytes)
    {
      if !env.DigestMatches(digest, bytes) {
        return false;
      }
      blockedCache := None;
      ok := true;
      if digest in stores.contents {
        return;
      }
      PutKeepsValid(env, stores, SignedEvent([], []), digest, bytes);
      if IsIdentityContent(env, bytes) {
        chains := map[];
      } else {
        PutContentKeepsChains(env, stores, digest, bytes, chains);
      }
      stores := PutContent(env, stores, digest, bytes);
    }

    /** Sort the well-signed bundles of a batch and store them one by one. */
    method CopyBundles(bundles: seq<EventBundle>)
      requires Valid()
      modifies this
      ensures Valid()
      ensures stores == PutBatch(env, old(stores), bundles) && activeIdentity == old(activeIdentity)
    {
      var prepared := SortBy(CompareBundles, FilterMap(Prepare(env), bundles));
      for i := 0 to |prepared|
        invariant Valid() && activeIdentity == old(activeIdentity)
        invariant PutAll(env, stores, prepared[i..]) == PutBatch(env, old(stores), bundles)
      {
        CopyBundle(prepared[i]);
      }
    }

    method CopyBundle(p: Prepared)
      requires Valid()
      modifies this
      ensures Valid()
      ensures stores == PutBundle(env, old(stores), p) && activeIdentity == old(activeIdentity)
    {
      if p.event.contentDigest.Some? && p.bundle.serializedContent.Some? {
        var _ := CopyContent(p.event.contentDigest.value, p.bundle.serializedContent.value);
      }
      var key := KeyOf(p.event);
      if key.Some? {
        ghost var before := stores;
        stores := PutProofs(stores, key.value, p.bundle.eventProofs);
        forall identity: Text ensures FreshChain(env, identity, stores) == FreshChain(env, identity, before) {}
      }
      var _ := CopyEvent(p.signed);
    }
  }

  lemma {:induction false} FilterSame(p: Entry -> bool, q: Entry -> bool, s: EventStore)
    requires forall e | e in s :: p(e) == q(e)
    ensures Filter(p, s) == Filter(q, s)
  {
    if s != [] {
      assert s == [s[0]] + s[1..];
      FilterSame(p, q, s[1..]);
    }
  }
}
