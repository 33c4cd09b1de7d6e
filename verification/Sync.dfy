/**
 Pushing: which local events a client bundles for a server, given the heads the server
 reports.
 */
module Sync {
  import opened Primitives
  import opened Ordering
  import opened Model
  import opened Stores
  import opened Validation

  ghost predicate Distinct<T>(s: seq<T>) {
    forall i, j | 0 <= i < j < |s| :: s[i] != s[j]
  }

  predicate SameStream(a: EventKey, b: EventKey) {
    a.identity == b.identity && a.collection == b.collection && a.signer == b.signer
  }

  /** The sequence of the last head given for a stream, or 0. */
  function HeadOf(heads: seq<WireKey>, collection: int, signer: PublicKey): u64 {
    if heads == [] then 0
    else
      var last := heads[|heads| - 1];
      if last.collection == collection && last.signedBy == Some(signer) then last.sequence
      else HeadOf(heads[..|heads| - 1], collection, signer)
  }

  function SequenceIn(m: map<(int, PublicKey), u64>, collection: int, signer: PublicKey): u64 {
    if (collection, signer) in m then m[(collection, signer)] else 0
  }

  method HeadsMap(heads: seq<WireKey>) returns (m: map<(int, PublicKey), u64>)
    ensures forall c, s :: SequenceIn(m, c, s) == HeadOf(heads, c, s)
  {
    m := map[];
    for i := 0 to |heads|
      invariant forall c, s :: SequenceIn(m, c, s) == HeadOf(heads[..i], c, s)
    {
      assert heads[..i + 1][..i] == heads[..i];
      if heads[i].signedBy.Some? {
        m := m[(heads[i].collection, heads[i].signedBy.value) := heads[i].sequence];
      }
    }
    assert heads[..|heads|] == heads;
  }

  // ----- the streams of an identity -----

  /** The first position whose key is not passed: the start of a range of the ordered map. */
  function Seek(events: EventStore, passed: EventKey -> bool, from: nat): (i: nat)
    requires from <= |events|
    ensures from <= i <= |events|
    ensures forall j | from <= j < i :: passed(events[j].key)
    ensures i < |events| ==> !passed(events[i].key)
    decreases |events| - from
  {
    if from < |events| && passed(events[from].key) then Seek(events, passed, from + 1) else from
  }

  /** The largest key of the stream of `key`. */
  function StreamEnd(key: EventKey): EventKey {
    key.(sequence := U64_LIMIT - 1)
  }

  /** Between a key and the end of its stream there are only keys of that stream. */
  lemma {:induction false} BetweenInStream(a: EventKey, b: EventKey)
    requires CompareKeys(a, b) != Greater && CompareKeys(b, StreamEnd(a)) != Greater
    ensures SameStream(a, b)
  {
    CompareSeqOrder(a.identity, b.identity, a.identity);
    SignersOrdered(a.signer, b.signer, a.signer);
  }

  lemma {:induction false} IdentityAscends(a: EventKey, b: EventKey, identity: Text)
    requires CompareKeys(a, b) == Less && CompareSeq(a.identity, identity) == Greater
    ensures CompareSeq(b.identity, identity) == Greater
  {
    CompareSeqOrder(a.identity, b.identity, identity);
    CompareSeqOrder(identity, a.identity, b.identity);
    CompareSeqOrder(identity, b.identity, identity);
  }

  method Enumerate<T(==)>(s: set<T>) returns (order: seq<T>)
    ensures forall x :: x in order <==> x in s
    ensures Distinct(order)
  {
    order := [];
    var rest := s;
    while rest != {}
      invariant rest <= s
      invariant forall x :: x in order <==> x in s - rest
      invariant Distinct(order)
      decreases |rest|
    {
      var x :| x in rest;
      assert x !in order;
      order := order + [x];
      rest := rest - {x};
    }
  }

  /** The collections and signers of an identity's entries, each once, in no particular order. */
  method FindCollectionsAndSigners(events: EventStore, identity: Text)
    returns (collections: seq<int>, signers: seq<PublicKey>)
    requires AscendingKeys(events)
    ensures forall e | e in events && e.key.identity == identity ::
              e.key.collection in collections && e.key.signer in signers
    ensures forall c | c in collections :: exists e | e in events :: e.key.identity == identity && e.key.collection == c
    ensures forall s | s in signers :: exists e | e in events :: e.key.identity == identity && e.key.signer == s
    ensures Distinct(collections)
    ensures Distinct(signers)
  {
    var cs: set<int>, ks: set<PublicKey> := {}, {};
    var i := Seek(events, (k: EventKey) => CompareSeq(k.identity, identity) == Less, 0);
    CompareSeqOrder(identity, identity, identity);
    while i < |events| && events[i].key.identity == identity
      invariant i <= |events|
      invariant i < |events| ==> CompareSeq(events[i].key.identity, identity) != Less
      invariant forall j | 0 <= j < i && events[j].key.identity == identity ::
                  events[j].key.collection in cs && events[j].key.signer in ks
      invariant forall c | c in cs :: exists e | e in events :: e.key.identity == identity && e.key.collection == c
      invariant forall s | s in ks :: exists e | e in events :: e.key.identity == identity && e.key.signer == s
      decreases |events| - i
    {
      var key := events[i].key;
      cs, ks := cs + {key.collection}, ks + {key.signer};
      var next := Seek(events, (k: EventKey) => CompareKeys(k, StreamEnd(key)) != Greater, i);
      SkippedInStream(events, i, next);
      i := next;
    }
    forall j | i < j < |events| ensures events[j].key.identity != identity {
      CompareSeqOrder(events[i].key.identity, identity, identity);
      IdentityAscends(events[i].key, events[j].key, identity);
    }
    collections := Enumerate(cs);
    signers := Enumerate(ks);
  }

  /** A step of the search lands beyond the current stream, on an identity that is not smaller. */
  lemma {:induction false} SkippedInStream(events: EventStore, i: nat, next: nat)
    requires AscendingKeys(events) && i < |events| && i <= next <= |events|
    requires forall j | i <= j < next :: CompareKeys(events[j].key, StreamEnd(events[i].key)) != Greater
    requires next < |events| ==> CompareKeys(events[next].key, StreamEnd(events[i].key)) == Greater
    ensures i < next
    ensures forall j | i <= j < next :: SameStream(events[i].key, events[j].key)
    ensures next < |events| ==> CompareSeq(events[next].key.identity, events[i].key.identity) != Less
  {
    var key := events[i].key;
    CompareSeqOrder(key.identity, key.identity, key.identity);
    SignersOrdered(key.signer, key.signer, key.signer);
    forall j | i <= j < next ensures SameStream(key, events[j].key) {
      BetweenInStream(key, events[j].key);
    }
    if next < |events| {
      CompareSeqOrder(key.identity, events[next].key.identity, key.identity);
    }
  }

  // ----- bundling for a push -----

  predicate Unsent(identity: Text, heads: seq<WireKey>, e: Entry) {
    e.key.identity == identity && e.key.sequence > HeadOf(heads, e.key.collection, e.key.signer)
  }

  function Bare(env: Env, s: Stores): Entry -> EventBundle {
    (e: Entry) => BundleFor(env, s, e, false)
  }

  /** One bundle for each entry, with its event, the stored content it refers to, and no proofs. */
  ghost predicate AllCarried(env: Env, s: Stores, sent: seq<Entry>, bundles: seq<EventBundle>) {
    && |bundles| == |sent|
    && forall i | 0 <= i < |sent| :: Carries(env, s, sent[i], bundles[i]) && bundles[i].eventProofs == []
  }

  lemma {:induction false} BareCarries(env: Env, s: Stores, sent: seq<Entry>)
    ensures AllCarried(env, s, sent, Map(Bare(env, s), sent))
  {
    forall i | 0 <= i < |sent|
      ensures Carries(env, s, sent[i], Bare(env, s)(sent[i])) && Bare(env, s)(sent[i]).eventProofs == []
    {
      BundleCarries(env, s, sent[i], false);
    }
  }

  predicate Decodes(env: Env, e: Entry) {
    env.decodeEvent(e.event.eventBytes).Some?
  }

  /** Identity events come first, and the events of a stream ascend, so that none is sent twice. */
  ghost predicate InPushOrder(sent: seq<Entry>) {
    && (forall i, j | 0 <= i < j < |sent| :: sent[j].key.collection == IDENTITY ==> sent[i].key.collection == IDENTITY)
    && StreamsAscend(sent)
  }

  /** The unsent events of one collection, signer by signer. */
  ghost function UnsentIn(events: EventStore, identity: Text, heads: seq<WireKey>, c: int,
                          signers: seq<PublicKey>): seq<Entry> {
    if signers == [] then []
    else
      var k := signers[|signers| - 1];
      UnsentIn(events, identity, heads, c, signers[..|signers| - 1])
      + ByStream(events, identity, c, k, HeadOf(heads, c, k))
  }

  /** The unsent events of several collections, in the order of the two nested loops. */
  ghost function AllUnsent(events: EventStore, identity: Text, heads: seq<WireKey>, cs: seq<int>,
                           signers: seq<PublicKey>): seq<Entry> {
    if cs == [] then []
    else
      AllUnsent(events, identity, heads, cs[..|cs| - 1], signers)
      + UnsentIn(events, identity, heads, cs[|cs| - 1], signers)
  }

  lemma {:induction false} ButLast<T>(s: seq<T>)
    requires s != [] && Distinct(s)
    ensures Distinct(s[..|s| - 1]) && s[|s| - 1] !in s[..|s| - 1]
    ensures forall x :: x in s <==> x in s[..|s| - 1] || x == s[|s| - 1]
  {
    assert s == s[..|s| - 1] + [s[|s| - 1]];
  }

  ghost predicate StreamsAscend(s: seq<Entry>) {
    forall i, j | 0 <= i < j < |s| :: SameStream(s[i].key, s[j].key) ==> s[i].key.sequence < s[j].key.sequence
  }

  lemma {:induction false} JoinAscending(s: seq<Entry>, t: seq<Entry>)
    requires StreamsAscend(s) && StreamsAscend(t)
    requires forall x, y | x in s && y in t :: !SameStream(x.key, y.key)
    ensures StreamsAscend(s + t)
  {
    var all := s + t;
    forall i, j | 0 <= i < j < |all|
      ensures SameStream(all[i].key, all[j].key) ==> all[i].key.sequence < all[j].key.sequence
    {
      assert i < |s| <= j ==> all[i] in s && all[j] in t;
    }
  }

  lemma {:induction false} UnsentInExact(events: EventStore, identity: Text, heads: seq<WireKey>, c: int,
                                         signers: seq<PublicKey>)
    requires AscendingKeys(events) && Distinct(signers)
    ensures forall e :: e in UnsentIn(events, identity, heads, c, signers)
                   <==> e in events && Unsent(identity, heads, e) && e.key.collection == c && e.key.signer in signers
    ensures StreamsAscend(UnsentIn(events, identity, heads, c, signers))
    decreases |signers|
  {
    if signers != [] {
      ButLast(signers);
      var k, front := signers[|signers| - 1], signers[..|signers| - 1];
      UnsentInExact(events, identity, heads, c, front);
      var stream := ByStream(events, identity, c, k, HeadOf(heads, c, k));
      forall i, j | 0 <= i < j < |stream| ensures stream[i].key.sequence < stream[j].key.sequence {
        StreamAscends(events, identity, c, k, HeadOf(heads, c, k), i, j);
      }
      JoinAscending(UnsentIn(events, identity, heads, c, front), stream);
    }
  }

  /** Over all collections and signers, the loops gather exactly the unsent events, in push order. */
  lemma {:induction false} AllUnsentExact(events: EventStore, identity: Text, heads: seq<WireKey>, cs: seq<int>,
                                          signers: seq<PublicKey>)
    requires AscendingKeys(events) && Distinct(signers) && Distinct(cs)
    requires forall i | 0 <= i < |cs| :: cs[i] == IDENTITY ==> i == 0
    ensures forall e :: e in AllUnsent(events, identity, heads, cs, signers)
                   <==> e in events && Unsent(identity, heads, e) && e.key.collection in cs && e.key.signer in signers
    ensures InPushOrder(AllUnsent(events, identity, heads, cs, signers))
    decreases |cs|
  {
    if cs != [] {
      ButLast(cs);
      var c, front := cs[|cs| - 1], cs[..|cs| - 1];
      AllUnsentExact(events, identity, heads, front, signers);
      UnsentInExact(events, identity, heads, c, signers);
      var s, t := AllUnsent(events, identity, heads, front, signers), UnsentIn(events, identity, heads, c, signers);
      JoinAscending(s, t);
      assert c == IDENTITY ==> front == [];
      assert forall i | 0 <= i < |t| :: t[i] in t && t[i].key.collection == c;
    }
  }

  /** Bundle every event above the server's heads. */
  method BundleUnsentEvents(env: Env, s: Stores, identity: Text, heads: seq<WireKey>)
    returns (r: Result<seq<EventBundle>>, ghost sent: seq<Entry>)
    requires AscendingKeys(s.events)
    ensures r.Err? <==> exists e | e in s.events :: Unsent(identity, heads, e) && !Decodes(env, e)
    ensures r.Ok? ==> r.value == Map(Bare(env, s), sent) && AllCarried(env, s, sent, r.value)
    ensures r.Ok? ==> (forall e :: e in sent <==> e in s.events && Unsent(identity, heads, e)) && InPushOrder(sent)
  {
    var latest := HeadsMap(heads);
    var collections, signers := FindCollectionsAndSigners(s.events, identity);
    collections := IdentityFirst(collections);

    AllUnsentExact(s.events, identity, heads, collections, signers);
    sent := AllUnsent(s.events, identity, heads, collections, signers);
    r := BundleStreams(env, s, identity, heads, latest, collections, signers);
    BareCarries(env, s, sent);
  }

  /** The outer loop, over collections. */
  method BundleStreams(env: Env, s: Stores, identity: Text, heads: seq<WireKey>, latest: map<(int, PublicKey), u64>,
                       collections: seq<int>, signers: seq<PublicKey>)
    returns (r: Result<seq<EventBundle>>)
    requires forall c, k :: SequenceIn(latest, c, k) == HeadOf(heads, c, k)
    ensures r.Err? <==> exists e | e in AllUnsent(s.events, identity, heads, collections, signers) :: !Decodes(env, e)
    ensures r.Ok? ==> r.value == Map(Bare(env, s), AllUnsent(s.events, identity, heads, collections, signers))
  {
    var bundles := [];
    ghost var sent: seq<Entry> := [];
    for c := 0 to |collections|
      invariant sent == AllUnsent(s.events, identity, heads, collections[..c], signers)
      invariant AllBundled(env, s, sent, bundles)
    {
      assert collections[..c + 1][..c] == collections[..c];
      ghost var more := UnsentIn(s.events, identity, heads, collections[c], signers);
      r := BundleSigners(env, s, identity, heads, latest, collections[c], signers);
      if r.Err? {
        CollectionIsUnsent(s.events, identity, heads, collections, signers, c);
        return;
      }
      BundledMore(env, s, sent, bundles, more, r.value);
      bundles, sent := bundles + r.value, sent + more;
    }
    assert collections[..|collections|] == collections;
    r := Ok(bundles);
  }

  /** The inner loop, over the signers of one collection. */
  method BundleSigners(env: Env, s: Stores, identity: Text, heads: seq<WireKey>, latest: map<(int, PublicKey), u64>,
                       collection: int, signers: seq<PublicKey>)
    returns (r: Result<seq<EventBundle>>)
    requires forall c, k :: SequenceIn(latest, c, k) == HeadOf(heads, c, k)
    ensures r.Err? <==> exists e | e in UnsentIn(s.events, identity, heads, collection, signers) :: !Decodes(env, e)
    ensures r.Ok? ==> AllBundled(env, s, UnsentIn(s.events, identity, heads, collection, signers), r.value)
  {
    var bundles := [];
    ghost var sent: seq<Entry> := [];
    for k := 0 to |signers|
      invariant sent == UnsentIn(s.events, identity, heads, collection, signers[..k])
      invariant AllBundled(env, s, sent, bundles)
    {
      assert signers[..k + 1][..k] == signers[..k];
      var stream := ByStream(s.events, identity, collection, signers[k], SequenceIn(latest, collection, signers[k]));
      r := BundleStream(env, s, stream);
      if r.Err? {
        StreamIsUnsent(s.events, identity, heads, collection, signers, k);
        return;
      }
      BundledMore(env, s, sent, bundles, stream, r.value);
      bundles, sent := bundles + r.value, sent + stream;
    }
    assert signers[..|signers|] == signers;
    r := Ok(bundles);
  }

  ghost predicate AllBundled(env: Env, s: Stores, sent: seq<Entry>, bundles: seq<EventBundle>) {
    bundles == Map(Bare(env, s), sent) && forall e | e in sent :: Decodes(env, e)
  }

  lemma {:induction false} BundledMore(env: Env, s: Stores, sent: seq<Entry>, bundles: seq<EventBundle>,
                                       stream: seq<Entry>, more: seq<EventBundle>)
    requires AllBundled(env, s, sent, bundles) && AllBundled(env, s, stream, more)
    ensures AllBundled(env, s, sent + stream, bundles + more)
  {
    MapConcat(Bare(env, s), sent, stream);
  }

  lemma {:induction false} MapConcat<A, B>(f: A -> B, s: seq<A>, t: seq<A>)
    ensures Map(f, s + t) == Map(f, s) + Map(f, t)
  {
  }

  lemma {:induction false} CollectionIsUnsent(events: EventStore, identity: Text, heads: seq<WireKey>, cs: seq<int>,
                                              signers: seq<PublicKey>, c: nat)
    requires c < |cs|
    ensures forall e | e in UnsentIn(events, identity, heads, cs[c], signers) ::
              e in AllUnsent(events, identity, heads, cs, signers)
    decreases |cs|
  {
    if c < |cs| - 1 {
      CollectionIsUnsent(events, identity, heads, cs[..|cs| - 1], signers, c);
    }
  }

  lemma {:induction false} StreamIsUnsent(events: EventStore, identity: Text, heads: seq<WireKey>, c: int,
                                          signers: seq<PublicKey>, k: nat)
    requires k < |signers|
    ensures forall e | e in ByStream(events, identity, c, signers[k], HeadOf(heads, c, signers[k])) ::
              e in UnsentIn(events, identity, heads, c, signers)
    decreases |signers|
  {
    if k < |signers| - 1 {
      StreamIsUnsent(events, identity, heads, c, signers[..|signers| - 1], k);
    }
  }

  method BundleStream(env: Env, s: Stores, stream: seq<Entry>) returns (r: Result<seq<EventBundle>>)
    ensures r.Err? <==> exists e | e in stream :: !Decodes(env, e)
    ensures r.Ok? ==> r.value == Map(Bare(env, s), stream)
  {
    var bundles := [];
    for n := 0 to |stream|
      invariant |bundles| == n
      invariant forall i | 0 <= i < n :: bundles[i] == Bare(env, s)(stream[i]) && Decodes(env, stream[i])
    {
      if !Decodes(env, stream[n]) {
        return Err;
      }
      bundles := bundles + [BundleFor(env, s, stream[n], false)];
    }
    r := Ok(bundles);
  }

  /** Swap the identity collection to the front, if it is there. */
  method IdentityFirst(collections: seq<int>) returns (r: seq<int>)
    requires Distinct(collections)
    ensures forall c :: c in r <==> c in collections
    ensures Distinct(r)
    ensures forall i | 0 <= i < |r| :: r[i] == IDENTITY ==> i == 0
  {
    r := collections;
    if IDENTITY in r {
      var at :| 0 <= at < |r| && r[at] == IDENTITY;
      r := r[0 := r[at]][at := r[0]];
      assert r[0] == collections[at] && r[at] == collections[0];
      forall c ensures c in r <==> c in collections {
        if c in collections {
          var i :| 0 <= i < |collections| && collections[i] == c;
          assert r[if i == 0 then at else if i == at then 0 else i] == c;
        }
      }
    }
  }

  /** Bundle every event of the identity, in key order. */
  method BundleLocalEvents(env: Env, s: Stores, identity: Text) returns (r: Result<seq<EventBundle>>)
    ensures r.Err? <==> exists e | e in s.events :: e.key.identity == identity && !Decodes(env, e)
    ensures r.Ok? ==> r.value == Map(Bare(env, s), Filter((e: Entry) => e.key.identity == identity, s.events))
    ensures r.Ok? ==> AllCarried(env, s, Filter((e: Entry) => e.key.identity == identity, s.events), r.value)
  {
    r := BundleStream(env, s, Filter((e: Entry) => e.key.identity == identity, s.events));
    BareCarries(env, s, Filter((e: Entry) => e.key.identity == identity, s.events));
  }
}
