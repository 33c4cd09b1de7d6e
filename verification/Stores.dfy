/** The client's stores: an ordered event map, event proofs, and contents keyed by digest. */
module Stores {
  import opened Primitives
  import opened Ordering
  import opened Model

  /** One entry of the event map. */
  datatype Entry = Entry(key: EventKey, event: SignedEvent)

  /** The event map, as its entries in ascending key order. */
  type EventStore = seq<Entry>

  ghost predicate AscendingKeys(events: EventStore) {
    forall i, j | 0 <= i < j < |events| :: CompareKeys(events[i].key, events[j].key) == Less
  }

  function Lookup(events: EventStore, key: EventKey): (r: Option<SignedEvent>)
    ensures r.Some? ==> Entry(key, r.value) in events
    ensures r.None? ==> forall e | e in events :: e.key != key
  {
    if events == [] then None
    else if events[0].key == key then Some(events[0].event)
    else Lookup(events[1..], key)
  }

  /** Insert in key order; an entry already present under the key is kept. */
  function InsertAt(events: EventStore, e: Entry): EventStore {
    if events == [] then [e]
    else match CompareKeys(e.key, events[0].key)
      case Less => [e] + events
      case Equal => events
      case Greater => [events[0]] + InsertAt(events[1..], e)
  }

  lemma {:induction false} InsertAtMembers(events: EventStore, e: Entry)
    requires AscendingKeys(events)
    ensures AscendingKeys(InsertAt(events, e))
    ensures forall x :: x in InsertAt(events, e) <==> x in events || (x == e && Lookup(events, e.key).None?)
    decreases |events|
  {
    if events != [] {
      var first, rest := events[0], events[1..];
      assert events == [first] + rest;
      KeysOrdered(e.key, first.key, first.key);
      match CompareKeys(e.key, first.key)
      case Less =>
        forall x | x in events ensures CompareKeys(e.key, x.key) == Less {
          KeysOrdered(e.key, first.key, x.key);
        }
        assert Lookup(events, e.key).None? by {
          KeysOrdered(e.key, e.key, e.key);
        }
      case Equal =>
      case Greater =>
        InsertAtMembers(rest, e);
        assert forall x | x in InsertAt(rest, e) :: CompareKeys(first.key, x.key) == Less;
    }
  }

  lemma {:induction false} HeadIsLeast(events: EventStore, x: Entry)
    requires AscendingKeys(events) && events != []
    ensures x in events <==> x == events[0] || x in events[1..]
    ensures x in events[1..] ==> CompareKeys(events[0].key, x.key) == Less && x != events[0]
  {
    assert events == [events[0]] + events[1..];
    KeysOrdered(x.key, x.key, x.key);
  }

  /** Two ordered stores with the same entries are the same store. */
  lemma {:induction false} SameEntriesSameStore(s: EventStore, t: EventStore)
    requires AscendingKeys(s) && AscendingKeys(t)
    requires forall x :: x in s <==> x in t
    ensures s == t
  {
    if s == [] {
      HeadIn(t);
    } else {
      assert s[0] in t;
      var a, b := s[0], t[0];
      HeadIsLeast(s, b);
      HeadIsLeast(t, a);
      KeysOrdered(a.key, b.key, a.key);
      assert a == b;
      forall x ensures x in s[1..] <==> x in t[1..] {
        HeadIsLeast(s, x);
        HeadIsLeast(t, x);
      }
      SameEntriesSameStore(s[1..], t[1..]);
      assert s == [a] + s[1..] && t == [b] + t[1..];
    }
  }

  lemma {:induction false} InsertAtFilter(p: Entry -> bool, events: EventStore, e: Entry)
    requires !p(e)
    ensures Filter(p, InsertAt(events, e)) == Filter(p, events)
  {
    if events != [] && CompareKeys(e.key, events[0].key) == Greater {
      InsertAtFilter(p, events[1..], e);
      assert InsertAt(events, e)[1..] == InsertAt(events[1..], e);
    }
  }

  function InCollection(identity: Text, collection: int): Entry -> bool {
    (e: Entry) => e.key.identity == identity && e.key.collection == collection
  }

  /** All entries of (identity, collection), by signer and sequence. */
  function ByCollection(events: EventStore, identity: Text, collection: int): EventStore {
    Filter(InCollection(identity, collection), events)
  }

  function InStream(identity: Text, collection: int, signer: PublicKey, after: nat): Entry -> bool {
    (e: Entry) => e.key.identity == identity && e.key.collection == collection && e.key.signer == signer
                  && e.key.sequence > after
  }

  /** The entries of one signer's stream with a sequence strictly above `after`, in ascending order. */
  function ByStream(events: EventStore, identity: Text, collection: int, signer: PublicKey, after: nat): EventStore {
    Filter(InStream(identity, collection, signer, after), events)
  }

  lemma {:induction false} FilterKeepsOrder(p: Entry -> bool, events: EventStore)
    requires AscendingKeys(events)
    ensures AscendingKeys(Filter(p, events))
  {
    if events != [] {
      FilterKeepsOrder(p, events[1..]);
      forall x | x in Filter(p, events[1..]) ensures CompareKeys(events[0].key, x.key) == Less {
        HeadIsLeast(events, x);
      }
      if p(events[0]) {
        AscendingCons(events[0], Filter(p, events[1..]));
      }
    }
  }

  lemma {:induction false} AscendingCons(first: Entry, rest: EventStore)
    requires AscendingKeys(rest) && forall x | x in rest :: CompareKeys(first.key, x.key) == Less
    ensures AscendingKeys([first] + rest)
  {
  }

  /** Within a stream the order of keys is the order of sequences. */
  lemma {:induction false} StreamAscends(events: EventStore, identity: Text, collection: int, signer: PublicKey,
                                         after: nat, i: nat, j: nat)
    requires AscendingKeys(events) && i < j < |ByStream(events, identity, collection, signer, after)|
    ensures ByStream(events, identity, collection, signer, after)[i].key.sequence
          < ByStream(events, identity, collection, signer, after)[j].key.sequence
  {
    var s := ByStream(events, identity, collection, signer, after);
    FilterKeepsOrder(InStream(identity, collection, signer, after), events);
    assert s[i] in s && s[j] in s;
    KeysOrdered(s[i].key, s[i].key, s[j].key);
    CompareSeqOrder(identity, identity, identity);
    SignersOrdered(signer, signer, signer);
  }

  // ----- the three stores together -----

  datatype Stores = Stores(
    events: EventStore,
    proofs: map<EventKey, seq<EventProof>>,
    contents: map<ContentDigest, Bytes>)

  function ProofsOf(s: Stores, key: EventKey): seq<EventProof> {
    if key in s.proofs then s.proofs[key] else []
  }

  /** Every event is filed under its own key, in order, and every content hashes to its digest. */
  ghost predicate ValidStores(env: Env, s: Stores) {
    && AscendingKeys(s.events)
    && (forall e | e in s.events :: KeyOfSigned(env, e.event) == Some(e.key))
    && (forall d | d in s.contents :: env.DigestMatches(d, s.contents[d]))
  }

  /** Store an event under its key; an undecodable event or a key that is taken changes nothing. */
  function PutEvent(env: Env, s: Stores, signed: SignedEvent): Stores {
    match KeyOfSigned(env, signed)
    case None => s
    case Some(key) => s.(events := InsertAt(s.events, Entry(key, signed)))
  }

  /** Store content that hashes to its digest; the first content under a digest is kept. */
  function PutContent(env: Env, s: Stores, digest: ContentDigest, bytes: Bytes): Stores {
    if !env.DigestMatches(digest, bytes) || digest in s.contents then s
    else s.(contents := s.contents[digest := bytes])
  }

  /** The last non-empty list of proofs stored for a key wins. */
  function PutProofs(s: Stores, key: EventKey, proofs: seq<EventProof>): Stores {
    if proofs == [] then s else s.(proofs := s.proofs[key := proofs])
  }

  lemma {:induction false} PutKeepsValid(env: Env, s: Stores, signed: SignedEvent, digest: ContentDigest, bytes: Bytes)
    requires ValidStores(env, s)
    ensures ValidStores(env, PutEvent(env, s, signed))
    ensures ValidStores(env, PutContent(env, s, digest, bytes))
  {
    match KeyOfSigned(env, signed)
    case None =>
    case Some(key) => InsertAtMembers(s.events, Entry(key, signed));
  }
}
