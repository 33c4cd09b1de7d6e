/**
 How the concrete pull relates to the replication protocol, and an event that a fork of the
 identity chain keeps from ever reaching a device's storage.
 */
module PullTheorems {
  import opened Primitives
  import opened Ordering
  import opened Model
  import opened IdentityDocument
  import opened IdentityChain
  import opened ChainTheorems
  import opened Stores
  import opened Validation
  import opened ClientTheorems
  import opened Sync
  import opened SyncProtocol
  import Blocks
  import Pull

  /** The entries a storage holds. */
  function Entries(events: map<EventKey, SignedEvent>): Replica {
    set k | k in events :: Entry(k, events[k])
  }

  /** The bundles carry exactly the entries of the page. */
  ghost predicate Carries(env: Env, bundles: seq<EventBundle>, page: Replica) {
    && (forall b | b in bundles :: Pull.Saveable(env, b).Some? && Pull.Saveable(env, b).value in page)
    && (forall e | e in page :: exists b :: b in bundles && Pull.Saveable(env, b) == Some(e))
  }

  lemma {:induction false} FirstForMember(env: Env, bundles: seq<EventBundle>, key: EventKey)
    ensures Pull.FirstFor(env, bundles, key).Some? ==>
              exists b :: b in bundles
                && Pull.Saveable(env, b) == Some(Entry(key, Pull.FirstFor(env, bundles, key).value))
    ensures Pull.FirstFor(env, bundles, key).None? ==>
              forall b, e | b in bundles && Pull.Saveable(env, b) == Some(e) :: e.key != key
  {
    if bundles != [] {
      var front, last := bundles[..|bundles| - 1], bundles[|bundles| - 1];
      assert forall b :: b in bundles <==> b in front || b == last by { assert bundles == front + [last]; }
      FirstForMember(env, front, key);
      if Pull.FirstFor(env, front, key).Some? {
        var b :| b in front && Pull.Saveable(env, b) == Some(Entry(key, Pull.FirstFor(env, front, key).value));
        assert b in bundles;
      }
    }
  }

  lemma {:induction false} SavedEntries(env: Env, disk: Pull.Disk, kept: seq<EventBundle>, carried: Replica)
    requires Carries(env, kept, carried) && OnePerKey(carried)
    ensures Entries(Pull.SaveAll(env, disk, kept).events) == Insert(Entries(disk.events), carried)
  {
    var after := Pull.SaveAll(env, disk, kept).events;
    forall e ensures e in Entries(after) <==> e in Insert(Entries(disk.events), carried) {
      Pull.FirstIsKept(env, disk, kept, e.key);
      FirstForMember(env, kept, e.key);
      if e.key in disk.events {
        assert Entry(e.key, disk.events[e.key]) in Entries(disk.events);
      }
      if e in carried {
        var b :| b in kept && Pull.Saveable(env, b) == Some(e);
      }
    }
  }

  /** The merged bundles carry one entry for each key. */
  lemma {:induction false} MergedCarriesOnce(env: Env, bundles: seq<EventBundle>, page: Replica)
    requires Carries(env, Pull.MergeAll(env, bundles), page)
    ensures OnePerKey(page)
  {
    var merged := Pull.MergeAll(env, bundles);
    Pull.MergedKeysDistinct(env, bundles);
    forall x, y | x in page && y in page && x.key == y.key ensures x == y {
      var b :| b in merged && Pull.Saveable(env, b) == Some(x);
      var c :| c in merged && Pull.Saveable(env, c) == Some(y);
      assert Blocks.DedupKey(env, b) == Some(x.key) == Blocks.DedupKey(env, c);
    }
  }

  lemma {:induction false} KeptCarries(env: Env, merged: seq<EventBundle>, p: EventBundle -> bool, page: Replica,
                                       valid: Entry -> bool)
    requires Carries(env, merged, page)
    requires forall b | b in merged :: p(b) <==> valid(Pull.Saveable(env, b).value)
    ensures Carries(env, Filter(p, merged), Saved(page, valid))
  {
    forall e | e in Saved(page, valid) ensures exists b :: b in Filter(p, merged) && Pull.Saveable(env, b) == Some(e) {
      var b :| b in merged && Pull.Saveable(env, b) == Some(e);
      assert b in Filter(p, merged);
    }
  }

  /** What a pull saves is what the protocol's `Accept` adds to the storage: the listed events that validate on the
      core after the answers were copied into it, except under keys that are taken. */
  lemma {:induction false} PullIsAccept(env: Env, s: Stores, disk: Pull.Disk, listings: seq<Pull.Listing>,
                                        page: Replica, valid: Entry -> bool)
    requires Carries(env, Pull.MergeAll(env, Pull.Concatenated(listings)), page)
    requires forall b | b in Pull.MergeAll(env, Pull.Concatenated(listings)) ::
               Pull.Admitted(env, s)(b) <==> valid(Pull.Saveable(env, b).value)
    ensures Entries(Pull.SaveAll(env, disk, Pull.Retained(env, s, listings)).events)
         == Insert(Entries(disk.events), Saved(page, valid))
  {
    MergedCarriesOnce(env, Pull.Concatenated(listings), page);
    KeptCarries(env, Pull.MergeAll(env, Pull.Concatenated(listings)), Pull.Admitted(env, s), page, valid);
    SavedEntries(env, disk, Pull.Retained(env, s, listings), Saved(page, valid));
  }

  /** What a pull saves, in terms of what validates: a merged bundle is retained if and only if it carries an event that
      is backed by the chain of its identity and, outside the identity collection, is still vouched for with the
      proofs that the bundle itself carries. */
  lemma {:induction false} RetainedIff(env: Env, s: Stores, listings: seq<Pull.Listing>, b: EventBundle,
                                       signed: SignedEvent, event: Event, signer: PublicKey, chain: Chain)
    requires b.signedEvent == Some(signed) && env.decodeEvent(signed.eventBytes) == Some(event)
    requires event.key.Some? && event.key.value.signedBy == Some(signer)
    requires FreshChain(env, event.key.value.identity, s) == Some(chain)
    ensures b in Pull.Retained(env, s, listings)
       <==> b in Pull.MergeAll(env, Pull.Concatenated(listings)) && Backed(chain, event, signer)
            && (event.key.value.collection == IDENTITY
                || StillVouched(env, chain[|chain| - 1].document, signer, event.key.value.collection, signed.signature,
                                b.eventProofs))
  {
    assert Pull.Admitted(env, s)(b) <==> ValidEvent(env, s, signed, b.eventProofs);
    if event.key.value.collection != IDENTITY {
      ValidEventIff(env, s, signed, b.eventProofs, event, signer, chain);
    }
  }

  // ----- a fork of the chain -----

  lemma {:induction false} ResolvedSequences(env: Env, identity: Text, s: Stores, chain: Chain)
    requires FreshChain(env, identity, s) == Some(chain)
    ensures forall i | 0 <= i < |chain| :: chain[i].sequence == i + 1
  {
    var events := ChainEvents(env, identity, s);
    ResolveIsGreedy(env, identity, events);
    forall i | 0 <= i < |chain| ensures chain[i].sequence == i + 1 {
      ChainSequence(env, identity, Pool(events), chain, i);
    }
  }

  lemma {:induction false} AtItsSequence(chain: Chain, sequence: u64, signer: PublicKey)
    requires forall i | 0 <= i < |chain| :: chain[i].sequence == i + 1
    ensures (exists e | e in chain :: e.sequence == sequence && e.signer == signer)
       <==> 1 <= sequence <= |chain| && chain[sequence - 1].signer == signer
  {
  }

  /** An identity event validates if and only if the resolved chain has an event of its signer at its sequence. */
  lemma {:induction false} IdentityEntryValidIff(env: Env, s: Stores, chain: Chain, x: Entry)
    requires x.key.collection == IDENTITY && KeyOfSigned(env, x.event) == Some(x.key)
    requires FreshChain(env, x.key.identity, s) == Some(chain)
    ensures IsValid(env, s)(x)
       <==> 1 <= x.key.sequence <= |chain| && chain[x.key.sequence - 1].signer == x.key.signer
  {
    ResolvedSequences(env, x.key.identity, s, chain);
    AtItsSequence(chain, x.key.sequence, x.key.signer);
  }

  /** An identity event of one key at one place of the chain. */
  ghost predicate IsIdentityEntry(env: Env, identity: Text, x: Entry, signer: PublicKey, sequence: u64) {
    x.key == EventKey(identity, IDENTITY, signer, sequence) && KeyOfSigned(env, x.event) == Some(x.key)
  }

  /** A fork at sequence 2: two rotation keys of the genesis document publish, and the greater key wins. */
  ghost predicate IsFork(env: Env, identity: Text, g: IdentityEvent, loser: IdentityEvent, winner: IdentityEvent) {
    && IsGenesis(env, identity, g) && loser.sequence == 2 && winner.sequence == 2
    && AuthorizesRotation(g.document, loser.signer) && AuthorizesRotation(g.document, winner.signer)
    && CompareSigners(loser.signer, winner.signer) == Less
  }

  lemma {:induction false} WinnerBeatsLoser(env: Env, identity: Text, g: IdentityEvent, loser: IdentityEvent,
                                            winner: IdentityEvent)
    requires IsFork(env, identity, g, loser, winner)
    ensures CompareAfter(env, identity, g, loser, winner) == Less
    ensures CompareAfter(env, identity, g, winner, winner) == Equal
    ensures SignerOrder(g, g) == Equal
  {
    SuccessorsOrdered(env, After(env, identity, g, winner), After(env, identity, g, winner),
                      After(env, identity, g, winner));
    SignersOrdered(g.signer, g.signer, g.signer);
  }

  lemma {:induction false} ForkSoFar(env: Env, identity: Text, pool: set<IdentityEvent>, g: IdentityEvent,
                                     loser: IdentityEvent, winner: IdentityEvent)
    requires IsFork(env, identity, g, loser, winner) && g in pool && winner in pool
    requires forall e | e in pool :: e == g || e == loser || e == winner || e.sequence == 3
    ensures GreedySoFar(env, identity, pool, [g, winner])
  {
    WinnerBeatsLoser(env, identity, g, loser, winner);
    assert IsChain(env, identity, pool, [g, winner]);
  }

  lemma {:induction false} GreedyResolves(env: Env, identity: Text, s: Stores, pool: set<IdentityEvent>, chain: Chain)
    requires Pool(ChainEvents(env, identity, s)) == pool && KeysIdentifyDocuments(env, pool)
    requires Greedy(env, identity, pool, chain)
    ensures FreshChain(env, identity, s) == Some(chain)
  {
    ResolveIsGreedy(env, identity, ChainEvents(env, identity, s));
    assert chain[0] in pool;
    GreedyUnique(env, identity, pool, chain, FreshChain(env, identity, s).value);
  }

  /** The stores resolve the fork to the winner, and a later event of the loser's key that the winner's document
      authorizes continues the chain. */
  lemma {:induction false} ForkResolves(env: Env, identity: Text, s: Stores, g: IdentityEvent, loser: IdentityEvent,
                                        winner: IdentityEvent)
    requires IsFork(env, identity, g, loser, winner)
    requires Pool(ChainEvents(env, identity, s)) == {g, loser, winner} && KeysIdentifyDocuments(env, {g, loser, winner})
    ensures FreshChain(env, identity, s) == Some([g, winner])
  {
    var pool, chain := {g, loser, winner}, [g, winner];
    ForkSoFar(env, identity, pool, g, loser, winner);
    assert forall e | e in pool :: !MayFollow(env, identity, winner, e);
    GreedyResolves(env, identity, s, pool, chain);
  }

  lemma {:induction false} ForkContinues(env: Env, identity: Text, s: Stores, g: IdentityEvent, loser: IdentityEvent,
                                         winner: IdentityEvent, third: IdentityEvent)
    requires IsFork(env, identity, g, loser, winner)
    requires third.sequence == 3 && AuthorizesRotation(winner.document, third.signer)
    requires Pool(ChainEvents(env, identity, s)) == {g, loser, winner, third}
    requires KeysIdentifyDocuments(env, {g, loser, winner, third})
    ensures FreshChain(env, identity, s) == Some([g, winner, third])
  {
    var pool, chain := {g, loser, winner, third}, [g, winner, third];
    ForkSoFar(env, identity, pool, g, loser, winner);
    assert MayFollow(env, identity, winner, third);
    var last := After(env, identity, winner, third);
    SuccessorsOrdered(env, last, last, last);
    GreedyExtends(env, identity, pool, [g, winner], third);
    assert [g, winner] + [third] == chain;
    assert forall e | e in pool :: !MayFollow(env, identity, third, e);
    GreedyResolves(env, identity, s, pool, chain);
  }

  /** The storage lacks a published event that lies below its heads. */
  ghost predicate HasHole(storage: Replica, published: Replica, e: Entry) {
    e in published && e !in storage && !Above(storage, e) && !IsPrefix(storage, published)
  }

  /** What two pulls save: the first misses `a2`, although all events fit into a page, and the second leaves it in a
      hole. */
  ghost predicate Loses(first: Replica, second: Replica, a1: Entry, a2: Entry, a3: Entry, b2: Entry) {
    && first == {a1, b2} != {a1, a2, b2} && |{a1, a2, b2}| <= PAGE_LIMIT
    && first + second == {a1, b2, a3}
    && HasHole(first + second, {a1, a2, b2, a3}, a2)
  }

  /** Two pulls into an empty storage, with the events of the fork and then with the next one, whatever pages the server
      draws. */
  ghost predicate PullsLose(valid: Entry -> bool, valid': Entry -> bool, a1: Entry, a2: Entry, a3: Entry, b2: Entry) {
    forall page, page' | IsPage(Listed({a1, a2, b2}, {}), page)
                         && IsPage(Listed({a1, a2, b2, a3}, Saved(page, valid)), page') ::
      Loses(Saved(page, valid), Saved(page', valid'), a1, a2, a3, b2)
  }

  lemma {:induction false} ChainsLose(env: Env, identity: Text, s: Stores, s': Stores,
                                      g: IdentityEvent, winner: IdentityEvent, third: IdentityEvent,
                                      a1: Entry, a2: Entry, a3: Entry, b2: Entry)
    requires FreshChain(env, identity, s) == Some([g, winner])
    requires FreshChain(env, identity, s') == Some([g, winner, third])
    requires g.signer == third.signer != winner.signer
    requires IsIdentityEntry(env, identity, a1, g.signer, 1) && IsIdentityEntry(env, identity, a2, g.signer, 2)
    requires IsIdentityEntry(env, identity, a3, g.signer, 3) && IsIdentityEntry(env, identity, b2, winner.signer, 2)
    ensures PullsLose(IsValid(env, s), IsValid(env, s'), a1, a2, a3, b2)
  {
    IdentityEntryValidIff(env, s, [g, winner], a1);
    IdentityEntryValidIff(env, s, [g, winner], a2);
    IdentityEntryValidIff(env, s, [g, winner], b2);
    IdentityEntryValidIff(env, s', [g, winner, third], a2);
    IdentityEntryValidIff(env, s', [g, winner, third], a3);
    ForkPages(a1, a2, a3, b2, IsValid(env, s), IsValid(env, s'));
  }

  /** An identity entry, and the candidate that its event and content make. */
  type Candidate = (Entry, IdentityEvent)

  /** The stores hold these identity entries, under their own keys, and no others. */
  ghost predicate HoldsCandidates(env: Env, identity: Text, s: Stores, held: set<Candidate>) {
    && (forall x :: x in ByCollection(s.events, identity, IDENTITY) <==> exists e :: (x, e) in held)
    && (forall c | c in held :: KeyOfSigned(env, c.0.event) == Some(c.0.key))
    && (forall c | c in held :: ChainEvent(env, identity, s.contents)(c.0) == Some(c.1))
  }

  lemma {:induction false} HeldPool(env: Env, identity: Text, s: Stores, held: set<Candidate>)
    requires HoldsCandidates(env, identity, s, held)
    ensures Pool(ChainEvents(env, identity, s)) == set c | c in held :: c.1
  {
    var f, entries := ChainEvent(env, identity, s.contents), ByCollection(s.events, identity, IDENTITY);
    forall e ensures e in ChainEvents(env, identity, s) <==> exists c | c in held :: c.1 == e {
      FilterMapMembers(f, entries, e);
      if e in ChainEvents(env, identity, s) {
        var x :| x in entries && f(x) == Some(e);
        var e' :| (x, e') in held;
        assert (x, e) in held;
      }
      if c :| c in held && c.1 == e {
        assert (c.0, c.1) in held;
        assert c.0 in entries && f(c.0) == Some(e);
      }
    }
  }

  lemma {:induction false} HeldEntry(env: Env, identity: Text, s: Stores, held: set<Candidate>, x: Entry,
                                     e: IdentityEvent)
    requires HoldsCandidates(env, identity, s, held) && (x, e) in held
    ensures IsIdentityEntry(env, identity, x, e.signer, e.sequence)
  {
    assert x in ByCollection(s.events, identity, IDENTITY);
    assert ChainEvent(env, identity, s.contents)((x, e).0) == Some((x, e).1);
    assert KeyOfSigned(env, (x, e).0.event) == Some(x.key);
    ChainEventKeepsKey(env, s.contents, x, identity, e);
  }

  /** Two rotation keys of the genesis document publish identity sequence 2, and the key that signed the genesis loses.
      A fresh device that holds all three events pulls far fewer than a page, does not save the loser, and so does not
      equal the server. Once the losing key publishes sequence 3, the storage of the device has a hole, and the loser
      lies below its heads. */
  lemma {:induction false} ForkLoserIsLost(env: Env, identity: Text, s: Stores, s': Stores,
                                           g: IdentityEvent, loser: IdentityEvent, winner: IdentityEvent,
                                           third: IdentityEvent, a1: Entry, a2: Entry, a3: Entry, b2: Entry)
    requires IsFork(env, identity, g, loser, winner) && loser.signer == g.signer
    requires third.sequence == 3 && third.signer == g.signer && AuthorizesRotation(winner.document, g.signer)
    requires KeysIdentifyDocuments(env, {g, loser, winner, third})
    requires HoldsCandidates(env, identity, s, {(a1, g), (a2, loser), (b2, winner)})
    requires HoldsCandidates(env, identity, s', {(a1, g), (a2, loser), (b2, winner), (a3, third)})
    ensures PullsLose(IsValid(env, s), IsValid(env, s'), a1, a2, a3, b2)
  {
    ForkChains(env, identity, s, s', g, loser, winner, third, a1, a2, a3, b2);
    ChainsLose(env, identity, s, s', g, winner, third, a1, a2, a3, b2);
  }

  lemma {:induction false} ForkChains(env: Env, identity: Text, s: Stores, s': Stores,
                                      g: IdentityEvent, loser: IdentityEvent, winner: IdentityEvent,
                                      third: IdentityEvent, a1: Entry, a2: Entry, a3: Entry, b2: Entry)
    requires IsFork(env, identity, g, loser, winner) && KeysIdentifyDocuments(env, {g, loser, winner, third})
    requires third.sequence == 3 && AuthorizesRotation(winner.document, third.signer)
    requires HoldsCandidates(env, identity, s, {(a1, g), (a2, loser), (b2, winner)})
    requires HoldsCandidates(env, identity, s', {(a1, g), (a2, loser), (b2, winner), (a3, third)})
    ensures FreshChain(env, identity, s) == Some([g, winner])
    ensures FreshChain(env, identity, s') == Some([g, winner, third])
    ensures loser.signer != winner.signer
    ensures IsIdentityEntry(env, identity, a1, g.signer, 1) && IsIdentityEntry(env, identity, a2, loser.signer, 2)
    ensures IsIdentityEntry(env, identity, a3, third.signer, 3) && IsIdentityEntry(env, identity, b2, winner.signer, 2)
  {
    FirstChain(env, identity, s, g, loser, winner, a1, a2, b2);
    SecondChain(env, identity, s', g, loser, winner, third, a1, a2, a3, b2);
    SignersOrdered(loser.signer, winner.signer, winner.signer);
  }

  lemma {:induction false} ThreeImages(p: Candidate, q: Candidate, r: Candidate)
    ensures (set c | c in {p, q, r} :: c.1) == {p.1, q.1, r.1}
  {
    var held := {p, q, r};
    assert p in held && q in held && r in held;
  }

  lemma {:induction false} FourImages(p: Candidate, q: Candidate, r: Candidate, s: Candidate)
    ensures (set c | c in {p, q, r, s} :: c.1) == {p.1, q.1, r.1, s.1}
  {
    var held := {p, q, r, s};
    assert p in held && q in held && r in held && s in held;
  }

  lemma {:induction false} FirstChain(env: Env, identity: Text, s: Stores, g: IdentityEvent, loser: IdentityEvent,
                                      winner: IdentityEvent, a1: Entry, a2: Entry, b2: Entry)
    requires IsFork(env, identity, g, loser, winner) && KeysIdentifyDocuments(env, {g, loser, winner})
    requires HoldsCandidates(env, identity, s, {(a1, g), (a2, loser), (b2, winner)})
    ensures FreshChain(env, identity, s) == Some([g, winner])
  {
    var held: set<Candidate> := {(a1, g), (a2, loser), (b2, winner)};
    HeldPool(env, identity, s, held);
    ThreeImages((a1, g), (a2, loser), (b2, winner));
    ForkResolves(env, identity, s, g, loser, winner);
  }

  lemma {:induction false} SecondChain(env: Env, identity: Text, s: Stores, g: IdentityEvent, loser: IdentityEvent,
                                       winner: IdentityEvent, third: IdentityEvent,
                                       a1: Entry, a2: Entry, a3: Entry, b2: Entry)
    requires IsFork(env, identity, g, loser, winner) && KeysIdentifyDocuments(env, {g, loser, winner, third})
    requires third.sequence == 3 && AuthorizesRotation(winner.document, third.signer)
    requires HoldsCandidates(env, identity, s, {(a1, g), (a2, loser), (b2, winner), (a3, third)})
    ensures FreshChain(env, identity, s) == Some([g, winner, third])
    ensures IsIdentityEntry(env, identity, a1, g.signer, 1) && IsIdentityEntry(env, identity, a2, loser.signer, 2)
    ensures IsIdentityEntry(env, identity, a3, third.signer, 3) && IsIdentityEntry(env, identity, b2, winner.signer, 2)
  {
    var held: set<Candidate> := {(a1, g), (a2, loser), (b2, winner), (a3, third)};
    HeldPool(env, identity, s, held);
    FourImages((a1, g), (a2, loser), (b2, winner), (a3, third));
    HeldEntry(env, identity, s, held, a1, g);
    HeldEntry(env, identity, s, held, a2, loser);
    HeldEntry(env, identity, s, held, b2, winner);
    HeldEntry(env, identity, s, held, a3, third);
    ForkContinues(env, identity, s, g, loser, winner, third);
  }

  lemma {:induction false} FirstPull(a1: Entry, a2: Entry, b2: Entry, page: Replica, valid: Entry -> bool)
    requires valid(a1) && valid(b2) && !valid(a2) && IsPage(Listed({a1, a2, b2}, {}), page)
    ensures |{a1, a2, b2}| <= 3 && Saved(page, valid) == {a1, b2} != {a1, a2, b2}
  {
    var server := {a1, a2, b2};
    assert Listed(server, {}) == server;
    assert |server| <= 3;
    PageIsComplete(server, page);
    assert a2 in server;
  }

  lemma {:induction false} SecondPull(a1: Entry, a2: Entry, a3: Entry, b2: Entry, page: Replica, valid: Entry -> bool)
    requires SameStream(a1.key, a2.key) && SameStream(a2.key, a3.key) && !SameStream(a1.key, b2.key)
    requires a1.key.sequence == 1 && a2.key.sequence == 2 && a3.key.sequence == 3
    requires valid(a3) && !valid(a2) && IsPage(Listed({a1, a2, b2, a3}, {a1, b2}), page)
    ensures Saved(page, valid) == {a3}
  {
    var more := Listed({a1, a2, b2, a3}, {a1, b2});
    assert more == {a2, a3};
    assert |more| <= 2;
    PageIsComplete(more, page);
  }

  /** The same on the level of sets, for any validation that says so. */
  lemma {:induction false} ForkPages(a1: Entry, a2: Entry, a3: Entry, b2: Entry, valid: Entry -> bool,
                                     valid': Entry -> bool)
    requires SameStream(a1.key, a2.key) && SameStream(a2.key, a3.key) && !SameStream(a1.key, b2.key)
    requires a1.key.sequence == 1 && a2.key.sequence == 2 && a3.key.sequence == 3
    requires valid(a1) && valid(b2) && !valid(a2) && valid'(a3) && !valid'(a2)
    ensures PullsLose(valid, valid', a1, a2, a3, b2)
  {
    forall page, page' | IsPage(Listed({a1, a2, b2}, {}), page)
                         && IsPage(Listed({a1, a2, b2, a3}, Saved(page, valid)), page')
      ensures Loses(Saved(page, valid), Saved(page', valid'), a1, a2, a3, b2)
    {
      FirstPull(a1, a2, b2, page, valid);
      SecondPull(a1, a2, a3, b2, page', valid');
      BothPulls(a1, a2, a3, b2, Saved(page, valid), Saved(page', valid'));
    }
  }

  lemma {:induction false} BothPulls(a1: Entry, a2: Entry, a3: Entry, b2: Entry, first: Replica, second: Replica)
    requires SameStream(a2.key, a3.key) && a2.key.sequence == 2 && a3.key.sequence == 3
    requires first == {a1, b2} != {a1, a2, b2} && second == {a3} && |{a1, a2, b2}| <= 3
    ensures Loses(first, second, a1, a2, a3, b2)
  {
    var storage, published := first + second, {a1, a2, b2, a3};
    assert storage == {a1, b2, a3};
    assert a3 in storage && a2 !in storage && a2 in published;
  }
}
