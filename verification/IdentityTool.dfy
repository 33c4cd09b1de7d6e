/**
 The identity command-line tool: a chain of identity events, all signed by the genesis key,
 that grows by one event per command.
 */
module IdentityTool {
  import opened Primitives
  import opened Model
  import opened Ordering
  import opened IdentityDocument
  import opened IdentityChain
  import opened VectorClocks
  import opened CanonicalOrder
  import opened MerkleTree
  import opened MerkleProof

  /** Encoding and signing, the inverses of what `Env` decodes and checks. */
  datatype Tools = Tools(
    env: Env,
    encodeEvent: Event -> Bytes,
    encodeContent: Content -> Bytes,
    publicOf: Bytes -> Bytes,
    sign: (Bytes, Bytes) -> Bytes)
  {
    /** What is encoded decodes again, and what a private key signs verifies under its public key. */
    ghost predicate Lawful() {
      && (forall e :: env.decodeEvent(encodeEvent(e)) == Some(e))
      && (forall c :: env.decodeContent(encodeContent(c)) == Some(c))
      && (forall secret, m :: env.verifySignature(publicOf(secret), sign(secret, m), m))
    }

    function PublicOf(secret: Bytes): PublicKey {
      PublicKey(KEY_TYPE_ED25519, publicOf(secret))
    }
  }

  datatype KeyKind = RotationKey | SigningKey

  /** One event file with its content file. */
  datatype StoredEvent = StoredEvent(sequence: u64, signed: SignedEvent, content: Bytes)

  // ----- documents -----

  function GenesisDocument(primary: PublicKey): Identity {
    Identity([primary], [], [], None, None, None)
  }

  function WithKey(doc: Identity, kind: KeyKind, key: PublicKey): Identity {
    match kind
    case RotationKey => doc.(rotationKeys := doc.rotationKeys + [key])
    case SigningKey => doc.(signingKeys := doc.signingKeys + [key])
  }

  function RemoveKey(keys: seq<PublicKey>, target: Bytes): (r: seq<PublicKey>)
    ensures forall k :: k in r <==> k in keys && k.key != target
  {
    Filter((k: PublicKey) => k.key != target, keys)
  }

  /** The kind under which a key is removed: rotation keys are searched first. */
  function KindOf(doc: Identity, target: Bytes): Option<KeyKind> {
    if exists k | k in doc.rotationKeys :: k.key == target then Some(RotationKey)
    else if exists k | k in doc.signingKeys :: k.key == target then Some(SigningKey)
    else None
  }

  function WithoutKey(doc: Identity, kind: KeyKind, target: Bytes): Identity {
    var kept := match kind
      case RotationKey => doc.(rotationKeys := RemoveKey(doc.rotationKeys, target))
      case SigningKey => doc.(signingKeys := RemoveKey(doc.signingKeys, target));
    kept.(revocationBounds := doc.revocationBounds + [RevocationBound(Some(PublicKey(KEY_TYPE_ED25519, target)), [])])
  }

  // ----- events -----

  function SignerBytes(env: Env, signed: SignedEvent): Option<(Bytes, u64)> {
    match env.decodeEvent(signed.eventBytes)
    case None => None
    case Some(event) =>
      if event.key.None? || event.key.value.signedBy.None? then None
      else Some((event.key.value.signedBy.value.key, event.key.value.sequence))
  }

  function SequenceIn(m: map<Bytes, u64>, signer: Bytes): u64 {
    if signer in m then m[signer] else 0
  }

  /** The highest sequence each signer reached; events that do not decode or name no signer are skipped. */
  function MaxBySigner(env: Env, events: seq<SignedEvent>): map<Bytes, u64> {
    if events == [] then map[]
    else
      var m, last := MaxBySigner(env, events[..|events| - 1]), SignerBytes(env, events[|events| - 1]);
      match last
      case None => m
      case Some((signer, sequence)) => if signer !in m || m[signer] < sequence then m[signer := sequence] else m
  }

  method MaxSequenceBySigner(env: Env, events: seq<SignedEvent>) returns (m: map<Bytes, u64>)
    ensures m == MaxBySigner(env, events)
  {
    m := map[];
    for i := 0 to |events|
      invariant m == MaxBySigner(env, events[..i])
    {
      assert events[..i + 1][..i] == events[..i];
      var reached := SignerBytes(env, events[i]);
      if reached.Some? {
        var (signer, sequence) := reached.value;
        if signer !in m || m[signer] < sequence {
          m := m[signer := sequence];
        }
      }
    }
    assert events[..|events|] == events;
  }

  /** The event decodes, and its key names a signer with these key bytes and the sequence. */
  predicate Names(env: Env, e: SignedEvent, signer: Bytes, sequence: u64) {
    match env.decodeEvent(e.eventBytes)
    case Some(Event(Some(WireKey(_, _, Some(PublicKey(_, bytes)), n)), _, _, _, _, _,
                    _)) => bytes == signer && n == sequence
    case _ => false
  }

  lemma {:induction false} SignerBytesMeaning(env: Env, e: SignedEvent, signer: Bytes, sequence: u64)
    ensures SignerBytes(env, e) == Some((signer, sequence)) <==> Names(env, e, signer, sequence)
  {
  }

  /** The entry of a signer is the sequence of one of its events and bounds all of them. */
  lemma {:induction false} MaxIsAttained(env: Env, events: seq<SignedEvent>, signer: Bytes)
    ensures signer in MaxBySigner(env, events) <==> exists e, n: u64 :: e in events && Names(env, e, signer, n)
    ensures signer in MaxBySigner(env, events) ==>
              exists e | e in events :: Names(env, e, signer, MaxBySigner(env, events)[signer])
    ensures forall e, n: u64 | e in events && Names(env, e, signer, n) ::
              n <= SequenceIn(MaxBySigner(env, events), signer)
  {
    forall e, n: u64 ensures SignerBytes(env, e) == Some((signer, n)) <==> Names(env, e, signer, n) {
      SignerBytesMeaning(env, e, signer, n);
    }
    if events != [] {
      var front, last := events[..|events| - 1], events[|events| - 1];
      assert forall e :: e in events <==> e in front || e == last by { assert events == front + [last]; }
      MaxIsAttained(env, front, signer);
    }
  }

  /** One entry per key of the document: the signer's own sequence, and what the other keys reached before. */
  function ClockOf(doc: Identity, signer: PublicKey, sequence: u64, priorMax: map<Bytes, u64>): seq<u64> {
    Map((k: PublicKey) => if k == signer then sequence else SequenceIn(priorMax, k.key), DeduplicatedKeys(doc))
  }

  function SignedEvents(events: seq<StoredEvent>): seq<SignedEvent> {
    Map((e: StoredEvent) => e.signed, events)
  }

  function ContentBytes(t: Tools, doc: Identity): Bytes {
    t.encodeContent(Content(Some(IdentityBody(doc))))
  }

  function BuildEvent(t: Tools, identity: Text, signer: PublicKey, sequence: u64, identitySequence: u64, doc: Identity,
                      clock: seq<u64>, prior: seq<SignedEvent>, now: u64): Event
  {
    Event(Some(WireKey(IDENTITY, identity, Some(signer), sequence)), identitySequence, Some(clock),
          PreviousSignature(t.env, prior), PreviousRoot(t.env, prior),
          Some(ContentDigest(DIGEST_TYPE_SHA256, t.env.sha(ContentBytes(t, doc)))), now)
  }

  /** What a command appends: a document, the key that signs it and the time. */
  datatype Append = Append(secret: Bytes, doc: Identity, now: u64)

  function WrittenAs(t: Tools, identity: Text, sequence: u64, identitySequence: u64, a: Append, prior: seq<SignedEvent>,
                     priorMax: map<Bytes, u64>): StoredEvent
  {
    var signer := t.PublicOf(a.secret);
    var bytes := t.encodeEvent(BuildEvent(t, identity, signer, sequence, identitySequence, a.doc,
                                          ClockOf(a.doc, signer, sequence, priorMax), prior, a.now));
    StoredEvent(sequence, SignedEvent(t.sign(a.secret, bytes), bytes), ContentBytes(t, a.doc))
  }

  /** The stored events after one more, built with the maxima and the anchor of the ones before. */
  function Appended(t: Tools, events: seq<StoredEvent>, identity: Text, sequence: u64, identitySequence: u64, a: Append)
    : seq<StoredEvent>
  {
    var prior := SignedEvents(events);
    events + [WrittenAs(t, identity, sequence, identitySequence, a, prior, MaxBySigner(t.env, prior))]
  }

  /** The event written as number `sequence` when no other key has signed before: the genesis event refers to itself,
      every later one to its predecessor. */
  function Written(t: Tools, identity: Text, sequence: u64, a: Append, prior: seq<SignedEvent>): StoredEvent {
    WrittenAs(t, identity, sequence, if sequence <= 1 then 1 else sequence - 1, a, prior, map[])
  }

  // ----- what the commands keep -----

  predicate AllEd25519(doc: Identity) {
    forall k | k in doc.rotationKeys + doc.signingKeys :: k.keyType == KEY_TYPE_ED25519
  }

  /** The documents of a chain that starts with the genesis document; every later one keeps the genesis key. */
  ghost predicate Documents(t: Tools, identity: Text, genesis: PublicKey, log: seq<Append>) {
    && log != []
    && log[0].doc == GenesisDocument(genesis)
    && t.env.documentKey(log[0].doc) == identity
    && forall a | a in log :: t.PublicOf(a.secret) == genesis && genesis in a.doc.rotationKeys && AllEd25519(a.doc)
  }

  ghost predicate WrittenAt(t: Tools, identity: Text, log: seq<Append>, events: seq<StoredEvent>, i: nat)
    requires i < |log| == |events| < U64_LIMIT
  {
    events[i] == Written(t, identity, i + 1, log[i], SignedEvents(events[..i]))
  }

  /** The stored events are those that `log` wrote, in order. */
  ghost predicate History(t: Tools, identity: Text, genesis: PublicKey, log: seq<Append>, events: seq<StoredEvent>) {
    && Documents(t, identity, genesis, log)
    && |log| == |events| < U64_LIMIT
    && forall i | 0 <= i < |log| :: WrittenAt(t, identity, log, events, i)
  }

  lemma {:induction false} StillWritten(t: Tools, identity: Text, log: seq<Append>, events: seq<StoredEvent>, a: Append,
                                        e: StoredEvent, i: nat)
    requires i < |log| == |events| && |events| + 1 < U64_LIMIT && WrittenAt(t, identity, log, events, i)
    ensures WrittenAt(t, identity, log + [a], events + [e], i)
  {
    assert (events + [e])[..i] == events[..i];
  }

  lemma {:induction false} DocumentsExtend(t: Tools, identity: Text, genesis: PublicKey, log: seq<Append>, a: Append)
    requires Documents(t, identity, genesis, log)
    requires t.PublicOf(a.secret) == genesis && genesis in a.doc.rotationKeys && AllEd25519(a.doc)
    ensures Documents(t, identity, genesis, log + [a])
  {
  }

  lemma {:induction false} HistoryExtends(t: Tools, identity: Text, genesis: PublicKey, log: seq<Append>,
                                          events: seq<StoredEvent>, a: Append)
    requires History(t, identity, genesis, log, events) && |events| + 1 < U64_LIMIT
    requires t.PublicOf(a.secret) == genesis && genesis in a.doc.rotationKeys && AllEd25519(a.doc)
    ensures History(t, identity, genesis, log + [a],
                    events + [Written(t, identity, |events| + 1, a, SignedEvents(events))])
  {
    var e := Written(t, identity, |events| + 1, a, SignedEvents(events));
    DocumentsExtend(t, identity, genesis, log, a);
    forall i | 0 <= i < |log| ensures WrittenAt(t, identity, log + [a], events + [e], i) {
      StillWritten(t, identity, log, events, a, e, i);
    }
    assert (events + [e])[..|events|] == events;
    assert WrittenAt(t, identity, log + [a], events + [e], |log|);
  }

  lemma {:induction false} FirstEvent(t: Tools, identity: Text, a: Append, events: seq<StoredEvent>)
    requires a.doc == GenesisDocument(t.PublicOf(a.secret)) && t.env.documentKey(a.doc) == identity
    requires events == [Written(t, identity, 1, a, SignedEvents([]))]
    ensures History(t, identity, t.PublicOf(a.secret), [a], events)
  {
    assert events[..0] == [];
    assert WrittenAt(t, identity, [a], events, 0);
  }

  /** What was written decodes to the event that was built, signed by the genesis key. */
  lemma {:induction false} WrittenDecodes(t: Tools, identity: Text, genesis: PublicKey, log: seq<Append>,
                                          events: seq<StoredEvent>, i: nat)
    requires t.Lawful() && History(t, identity, genesis, log, events) && i < |log|
    ensures var prior := SignedEvents(events[..i]);
            t.env.decodeEvent(events[i].signed.eventBytes)
            == Some(BuildEvent(t, identity, genesis, i + 1, if i == 0 then 1 else i, log[i].doc,
                               ClockOf(log[i].doc, genesis, i + 1, map[]), prior, log[i].now))
    ensures t.env.SigMatches(genesis, events[i].signed.signature, events[i].signed.eventBytes)
    ensures t.env.decodeContent(events[i].content) == Some(Content(Some(IdentityBody(log[i].doc))))
    ensures events[i].content == ContentBytes(t, log[i].doc) && events[i].sequence == i + 1
  {
    assert WrittenAt(t, identity, log, events, i);
    assert log[i] in log;
  }

  /** What event `i` of a history states once it is decoded: its place in the identity collection, the identity event it
      refers to, the time, the digest of its content, and a clock with its own sequence for the genesis key and 0 for
      every other. */
  lemma {:induction false} EventStates(t: Tools, identity: Text, genesis: PublicKey, log: seq<Append>,
                                       events: seq<StoredEvent>, i: nat, k: nat)
    requires t.Lawful() && History(t, identity, genesis, log, events) && i < |log|
    requires k < |DeduplicatedKeys(log[i].doc)|
    ensures match t.env.decodeEvent(events[i].signed.eventBytes)
            case None => false
            case Some(event) =>
              && event.key == Some(WireKey(IDENTITY, identity, Some(genesis), i + 1))
              && event.identitySequence == (if i == 0 then 1 else i) && event.createdAt == log[i].now
              && event.contentDigest == Some(ContentDigest(DIGEST_TYPE_SHA256, t.env.sha(events[i].content)))
              && event.vectorClock.Some? && |event.vectorClock.value| == |DeduplicatedKeys(log[i].doc)|
              && event.vectorClock.value[k] == if DeduplicatedKeys(log[i].doc)[k] == genesis then i + 1 else 0
  {
    WrittenDecodes(t, identity, genesis, log, events, i);
  }

  // ----- the resolver accepts the chain -----

  /** The exported candidates. */
  function Export(events: seq<StoredEvent>): seq<IdentityCandidate> {
    Map((e: StoredEvent) => IdentityCandidate(e.signed.eventBytes, e.content, e.signed.signature), events)
  }

  function ChainOf(genesis: PublicKey, log: seq<Append>): (c: Chain)
    requires |log| < U64_LIMIT
    ensures |c| == |log|
    ensures forall i | 0 <= i < |log| :: c[i] == IdentityEvent(i + 1, genesis, log[i].doc)
  {
    seq(|log|, i requires 0 <= i < |log| => IdentityEvent(i + 1, genesis, log[i].doc))
  }

  lemma {:induction false} ExportIsCandidate(t: Tools, identity: Text, genesis: PublicKey, log: seq<Append>,
                                             events: seq<StoredEvent>, i: nat)
    requires t.Lawful() && History(t, identity, genesis, log, events) && i < |log|
    ensures Preprocess(t.env, identity, Export(events)[i]) == Some(IdentityEvent(i + 1, genesis, log[i].doc))
  {
    WrittenDecodes(t, identity, genesis, log, events, i);
  }

  lemma {:induction false} FilterMapAll<A, B>(f: A -> Option<B>, s: seq<A>, r: seq<B>)
    requires |s| == |r| && forall i | 0 <= i < |s| :: f(s[i]) == Some(r[i])
    ensures FilterMap(f, s) == r
    decreases |s|
  {
    if s != [] {
      FilterMapAll(f, s[1..], r[1..]);
    }
  }

  lemma {:induction false} ExportIsChain(t: Tools, identity: Text, genesis: PublicKey, log: seq<Append>,
                                         events: seq<StoredEvent>)
    requires t.Lawful() && History(t, identity, genesis, log, events)
    ensures FilterMap(Candidates(t.env, identity), Export(events)) == ChainOf(genesis, log)
  {
    var chain := ChainOf(genesis, log);
    forall i | 0 <= i < |log| ensures Candidates(t.env, identity)(Export(events)[i]) == Some(chain[i]) {
      ExportIsCandidate(t, identity, genesis, log, events, i);
    }
    FilterMapAll(Candidates(t.env, identity), Export(events), chain);
  }

  /** A list whose sequences are 1, 2, 3 and so on has one event at each sequence. */
  lemma {:induction false} OneAtSequence(chain: Chain, from: nat, s: nat)
    requires forall i | 0 <= i < |chain| :: chain[i].sequence == from + i
    ensures AtSequence(chain, s) == if from <= s < from + |chain| then [chain[s - from]] else []
    decreases |chain|
  {
    if chain != [] {
      OneAtSequence(chain[1..], from + 1, s);
    }
  }

  lemma {:induction false} WalkTakesAll(env: Env, identity: Text, chain: Chain, n: nat)
    requires 0 < n <= |chain|
    requires forall i | 0 <= i < |chain| :: chain[i].sequence == i + 1
    requires forall i | 0 < i < |chain| :: AuthorizesRotation(chain[i - 1].document, chain[i].signer)
    ensures Walk(env, identity, chain, chain[..n]) == chain
    decreases |chain| - n
  {
    var head := chain[n - 1];
    OneAtSequence(chain, 1, n + 1);
    var next := PickNext(env, identity, head, AtSequence(chain, head.sequence + 1));
    WalkStep(env, identity, chain, chain[..n], next);
    if n < |chain| {
      SoleSuccessor(env, identity, head, chain[n]);
      assert chain[..n] + [chain[n]] == chain[..n + 1];
      WalkTakesAll(env, identity, chain, n + 1);
    } else {
      assert chain[..n] == chain;
    }
  }

  lemma {:induction false} SoleSuccessor(env: Env, identity: Text, head: IdentityEvent, e: IdentityEvent)
    requires AuthorizesRotation(head.document, e.signer)
    ensures PickNext(env, identity, head, [e]) == Some(Successor(e, SuccessionReason.Rotation))
  {
    var s := Successor(e, SuccessionReason.Rotation);
    FilterMapAll(Justified(env, identity, head), [e], [s]);
    assert [s][..0] == [];
  }

  lemma {:induction false} SoleGenesis(env: Env, identity: Text, g: IdentityEvent)
    requires env.documentKey(g.document) == identity && AuthorizesRotation(g.document, g.signer)
    ensures PickGenesis(env, identity, [g]) == Some(g)
  {
    var valid := GenesisCandidates(env, identity, [g]);
    assert g in [g] && g in valid;
    assert MaxBy(SignerOrder, valid).value in valid;
  }

  /** A list that is a rotation chain in itself resolves to itself. */
  lemma {:induction false} RotationChainResolves(env: Env, identity: Text, chain: Chain)
    requires chain != [] && env.documentKey(chain[0].document) == identity
    requires AuthorizesRotation(chain[0].document, chain[0].signer)
    requires forall i | 0 <= i < |chain| :: chain[i].sequence == i + 1
    requires forall i | 0 < i < |chain| :: AuthorizesRotation(chain[i - 1].document, chain[i].signer)
    ensures Resolve(env, identity, chain) == Some(chain)
  {
    OneAtSequence(chain, 1, 1);
    SoleGenesis(env, identity, chain[0]);
    assert chain[..1] == [chain[0]];
    WalkTakesAll(env, identity, chain, 1);
  }

  lemma {:induction false} ChainIsRotationChain(t: Tools, identity: Text, genesis: PublicKey, log: seq<Append>)
    requires Documents(t, identity, genesis, log) && |log| < U64_LIMIT
    ensures t.env.documentKey(ChainOf(genesis, log)[0].document) == identity
    ensures forall i | 0 <= i < |log| :: AuthorizesRotation(ChainOf(genesis, log)[i].document, genesis)
  {
    forall i | 0 <= i < |log| ensures genesis in log[i].doc.rotationKeys {
      assert log[i] in log;
    }
  }

  function Resolved(env: Env, identity: Text, events: seq<StoredEvent>): Option<Chain> {
    Resolve(env, identity, FilterMap(Candidates(env, identity), Export(events)))
  }

  /** The shared resolver accepts everything the tool wrote: the chain has one event per command, the head document
      is the last one written, and every event is signed by the genesis key. */
  lemma {:induction false} ResolverAcceptsAll(t: Tools, identity: Text, genesis: PublicKey, log: seq<Append>,
                                              events: seq<StoredEvent>)
    requires t.Lawful() && History(t, identity, genesis, log, events)
    ensures Resolved(t.env, identity, events) == Some(ChainOf(genesis, log))
    ensures ChainOf(genesis, log)[|log| - 1].document == log[|log| - 1].doc
  {
    ExportIsChain(t, identity, genesis, log, events);
    ChainIsRotationChain(t, identity, genesis, log);
    RotationChainResolves(t.env, identity, ChainOf(genesis, log));
  }

  // ----- the anchors -----

  function OneHot(signer: PublicKey, n: u64): PublicKey -> u64 {
    (k: PublicKey) => if k == signer then n else 0
  }

  lemma {:induction false} SumOneHot(keys: seq<PublicKey>, signer: PublicKey, n: u64)
    requires forall i, j | 0 <= i < j < |keys| :: keys[i] != keys[j]
    ensures Sum(Map(OneHot(signer, n), keys)) == if signer in keys then n else 0
    decreases |keys|
  {
    if keys != [] {
      assert keys == [keys[0]] + keys[1..];
      SumOneHot(keys[1..], signer, n);
      var rest := Map(OneHot(signer, n), keys[1..]);
      assert Map(OneHot(signer, n), keys) == [OneHot(signer, n)(keys[0])] + rest;
      assert ([OneHot(signer, n)(keys[0])] + rest)[1..] == rest;
    }
  }

  /** Since only the genesis key signs, the entries of its clock add up to the sequence. */
  lemma {:induction false} ClockSum(doc: Identity, signer: PublicKey, n: u64)
    requires AuthorizesSigner(doc, signer)
    ensures Sum(ClockOf(doc, signer, n, map[])) == n && WrappedSum(ClockOf(doc, signer, n, map[])) == n
  {
    var keys := DeduplicatedKeys(doc);
    assert ClockOf(doc, signer, n, map[]) == Map(OneHot(signer, n), keys);
    SumOneHot(keys, signer, n);
  }

  function AnchorKeys(log: seq<Append>, events: seq<StoredEvent>): (r: seq<SortKey>)
    requires |log| == |events| < U64_LIMIT
    ensures |r| == |log|
    ensures forall i | 0 <= i < |log| :: r[i] == SortKey(i + 1, log[i].now, events[i].signed.signature)
  {
    seq(|log|, i requires 0 <= i < |log| => SortKey(i + 1, log[i].now, events[i].signed.signature))
  }

  lemma {:induction false} WrittenSortKey(t: Tools, identity: Text, genesis: PublicKey, log: seq<Append>,
                                          events: seq<StoredEvent>, i: nat)
    requires t.Lawful() && History(t, identity, genesis, log, events) && i < |log|
    ensures Decoded(t.env)(events[i].signed) == Some(SortKey(i + 1, log[i].now, events[i].signed.signature))
  {
    WrittenDecodes(t, identity, genesis, log, events, i);
    assert log[i] in log;
    ClockSum(log[i].doc, genesis, i + 1);
  }

  lemma {:induction false} AlreadySorted(keys: seq<SortKey>)
    requires forall i, j | 0 <= i < j < |keys| :: keys[i].sum < keys[j].sum
    ensures SortBy(CompareSortKeys, keys) == keys
  {
    SortKeysTotallyOrdered();
    SortBySorts(CompareSortKeys, keys);
    SortedUnique(CompareSortKeys, SortBy(CompareSortKeys, keys), keys);
  }

  function Signatures(events: seq<StoredEvent>): seq<Bytes> {
    Map((e: StoredEvent) => e.signed.signature, events)
  }

  lemma {:induction false} WrittenSortKeys(t: Tools, identity: Text, genesis: PublicKey, log: seq<Append>,
                                           events: seq<StoredEvent>)
    requires t.Lawful() && History(t, identity, genesis, log, events)
    ensures FilterMap(Decoded(t.env), SignedEvents(events)) == AnchorKeys(log, events)
  {
    forall i | 0 <= i < |log| ensures Decoded(t.env)(SignedEvents(events)[i]) == Some(AnchorKeys(log, events)[i]) {
      WrittenSortKey(t, identity, genesis, log, events, i);
    }
    FilterMapAll(Decoded(t.env), SignedEvents(events), AnchorKeys(log, events));
  }

  /** The canonical order of the tool's events is their sequence order. */
  lemma {:induction false} CanonicalIsSequenceOrder(t: Tools, identity: Text, genesis: PublicKey, log: seq<Append>,
                                                    events: seq<StoredEvent>)
    requires t.Lawful() && History(t, identity, genesis, log, events)
    ensures CanonicalSignatures(t.env, SignedEvents(events)) == Signatures(events)
  {
    WrittenSortKeys(t, identity, genesis, log, events);
    AlreadySorted(AnchorKeys(log, events));
  }

  lemma {:induction false} HistoryPrefix(t: Tools, identity: Text, genesis: PublicKey, log: seq<Append>,
                                         events: seq<StoredEvent>, n: nat)
    requires History(t, identity, genesis, log, events) && 0 < n <= |log|
    ensures History(t, identity, genesis, log[..n], events[..n])
  {
    forall i | 0 <= i < n ensures WrittenAt(t, identity, log[..n], events[..n], i) {
      assert WrittenAt(t, identity, log, events, i);
      assert events[..n][..i] == events[..i];
    }
  }

  /** Event number `i + 1` anchors the tree hash of the first `i` signatures in sequence order and repeats the last of
      them. */
  lemma {:induction false} AnchorsHistory(t: Tools, identity: Text, genesis: PublicKey, log: seq<Append>,
                                          events: seq<StoredEvent>, i: nat, e: Event)
    requires t.Lawful() && History(t, identity, genesis, log, events) && i < |log|
    requires t.env.decodeEvent(events[i].signed.eventBytes) == Some(e)
    ensures i == 0 ==> e.previousRoot == [] && e.previousSignature == []
    ensures i > 0 ==> MerkleTreeHash(Rfc6962(t.env.sha), Signatures(events[..i])) == Some(e.previousRoot)
    ensures i > 0 ==> e.previousSignature == events[i - 1].signed.signature
  {
    WrittenDecodes(t, identity, genesis, log, events, i);
    if i > 0 {
      HistoryPrefix(t, identity, genesis, log, events, i);
      CanonicalIsSequenceOrder(t, identity, genesis, log[..i], events[..i]);
    } else {
      assert events[..0] == [] && SignedEvents([]) == [];
    }
  }

  // ----- clocks -----

  /** Every clock the tool writes passes the structural check against its own document. */
  lemma {:induction false} ClockVerifies(doc: Identity, signer: PublicKey, n: u64, m: map<Bytes, u64>)
    requires AuthorizesSigner(doc, signer)
    ensures GetSignerPosition(ClockOf(doc, signer, n, m), doc, signer, n).Ok?
  {
    var keys := DeduplicatedKeys(doc);
    assert signer in keys;
    var i :| 0 <= i < |keys| && keys[i] == signer;
    assert ClockOf(doc, signer, n, m)[i] == n;
  }

  /** In a written clock the entry of another key is 0 when that key signed nothing before, and otherwise the highest
      sequence it signed. */
  lemma {:induction false} OtherEntryIsLatest(env: Env, doc: Identity, signer: PublicKey, n: u64,
                                              prior: seq<SignedEvent>, i: nat)
    requires i < |DeduplicatedKeys(doc)| && DeduplicatedKeys(doc)[i] != signer
    ensures var key, entry := DeduplicatedKeys(doc)[i].key, ClockOf(doc, signer, n, MaxBySigner(env, prior))[i];
            && (forall e, n: u64 | e in prior && Names(env, e, key, n) :: n <= entry)
            && (entry == 0 || exists e | e in prior :: Names(env, e, key, entry))
  {
    MaxIsAttained(env, prior, DeduplicatedKeys(doc)[i].key);
  }

  /** What one appended event states, whoever signed before: its key, the identity event it refers to, the time, the
      digest of the content, and a clock with one entry for each key of its document: its own sequence for the signer,
      and for another key the highest sequence that an earlier event names it with, or 0. It verifies under the signer's
      key, and its content decodes to the document. */
  lemma {:induction false} AppendedStates(t: Tools, events: seq<StoredEvent>, identity: Text, sequence: u64,
                                          identitySequence: u64, a: Append, k: nat)
    requires t.Lawful() && k < |DeduplicatedKeys(a.doc)|
    ensures var after := Appended(t, events, identity, sequence, identitySequence, a);
            && |after| == |events| + 1 && after[..|events|] == events
            && t.env.decodeContent(after[|events|].content) == Some(Content(Some(IdentityBody(a.doc))))
            && t.env.SigMatches(t.PublicOf(a.secret), after[|events|].signed.signature,
                                after[|events|].signed.eventBytes)
            && match t.env.decodeEvent(after[|events|].signed.eventBytes)
               case None => false
               case Some(event) =>
                 && event.key == Some(WireKey(IDENTITY, identity, Some(t.PublicOf(a.secret)), sequence))
                 && event.identitySequence == identitySequence && event.createdAt == a.now
                 && event.contentDigest
                    == Some(ContentDigest(DIGEST_TYPE_SHA256, t.env.sha(after[|events|].content)))
                 && event.vectorClock.Some? && |event.vectorClock.value| == |DeduplicatedKeys(a.doc)|
                 && EntryIsLatest(t.env, SignedEvents(events), t.PublicOf(a.secret), sequence,
                                  DeduplicatedKeys(a.doc)[k], event.vectorClock.value[k])
  {
    var prior, signer := SignedEvents(events), t.PublicOf(a.secret);
    if DeduplicatedKeys(a.doc)[k] != signer {
      OtherEntryIsLatest(t.env, a.doc, signer, sequence, prior, k);
    }
  }

  /** The clock entry of a key: the sequence if it is the signer, and else the highest that an earlier event names. */
  ghost predicate EntryIsLatest(env: Env, prior: seq<SignedEvent>, signer: PublicKey, sequence: u64, key: PublicKey,
                                entry: u64) {
    if key == signer then entry == sequence
    else
      && (forall e, n: u64 | e in prior && Names(env, e, key.key, n) :: n <= entry)
      && (entry == 0 || exists e | e in prior :: Names(env, e, key.key, entry))
  }

  /** What the signer itself reached before does not enter its clock. */
  lemma {:induction false} OwnMaximumIsUnused(doc: Identity, signer: PublicKey, n: u64, m: map<Bytes, u64>)
    requires AllEd25519(doc) && signer.keyType == KEY_TYPE_ED25519
    requires forall k | k in m :: k == signer.key
    ensures ClockOf(doc, signer, n, m) == ClockOf(doc, signer, n, map[])
  {
    forall k | k in DeduplicatedKeys(doc) && k != signer ensures k.key !in m {
      assert k.keyType == KEY_TYPE_ED25519;
    }
  }

  lemma {:induction false} OnlyGenesisSigned(t: Tools, identity: Text, genesis: PublicKey, log: seq<Append>,
                                             events: seq<StoredEvent>)
    requires t.Lawful() && History(t, identity, genesis, log, events)
    ensures forall e | e in SignedEvents(events) ::
              SignerBytes(t.env, e).Some? && SignerBytes(t.env, e).value.0 == genesis.key
  {
    forall i | 0 <= i < |events| ensures SignerBytes(t.env, events[i].signed) == Some((genesis.key, i + 1)) {
      WrittenDecodes(t, identity, genesis, log, events, i);
    }
  }

  /** When only the signer has signed before, its clock is the one of `Written`. */
  lemma {:induction false} SoleSignerClock(env: Env, doc: Identity, signer: PublicKey, n: u64, prior: seq<SignedEvent>)
    requires AllEd25519(doc) && signer.keyType == KEY_TYPE_ED25519
    requires forall e | e in prior && SignerBytes(env, e).Some? :: SignerBytes(env, e).value.0 == signer.key
    ensures ClockOf(doc, signer, n, MaxBySigner(env, prior)) == ClockOf(doc, signer, n, map[])
  {
    forall k | k in MaxBySigner(env, prior) ensures k == signer.key {
      MaxIsAttained(env, prior, k);
      var e, n: u64 :| e in prior && Names(env, e, k, n);
      SignerBytesMeaning(env, e, k, n);
    }
    OwnMaximumIsUnused(doc, signer, n, MaxBySigner(env, prior));
  }

  /** The event that the tool builds next, with the clock maxima of the stored events, extends the history. */
  lemma {:induction false} NextExtends(t: Tools, identity: Text, genesis: PublicKey, log: seq<Append>,
                                       events: seq<StoredEvent>, a: Append)
    requires t.Lawful() && History(t, identity, genesis, log, events) && |events| + 1 < U64_LIMIT
    requires t.PublicOf(a.secret) == genesis && genesis in a.doc.rotationKeys && AllEd25519(a.doc)
    ensures History(t, identity, genesis, log + [a], Appended(t, events, identity, |events| + 1, |events|, a))
  {
    var prior := SignedEvents(events);
    OnlyGenesisSigned(t, identity, genesis, log, events);
    SoleSignerClock(t.env, a.doc, genesis, |events| + 1, prior);
    assert WrittenAs(t, identity, |events| + 1, |events|, a, prior, MaxBySigner(t.env, prior))
        == Written(t, identity, |events| + 1, a, prior);
    HistoryExtends(t, identity, genesis, log, events, a);
  }

  // ----- what the commands do to a document -----

  lemma {:induction false} AddedKeyFits(doc: Identity, kind: KeyKind, key: PublicKey, genesis: PublicKey)
    requires AllEd25519(doc) && key.keyType == KEY_TYPE_ED25519 && genesis in doc.rotationKeys
    ensures AllEd25519(WithKey(doc, kind, key)) && genesis in WithKey(doc, kind, key).rotationKeys
  {
  }

  lemma {:induction false} RemovedKeyFits(doc: Identity, kind: KeyKind, target: Bytes, genesis: PublicKey)
    requires AllEd25519(doc) && genesis in doc.rotationKeys && genesis.key != target
    ensures AllEd25519(WithoutKey(doc, kind, target)) && genesis in WithoutKey(doc, kind, target).rotationKeys
  {
  }

  /** The genesis document lists its key as the one rotation key, and nothing else. */
  lemma {:induction false} GenesisListsOne(primary: PublicKey)
    ensures var doc := GenesisDocument(primary);
            && DeduplicatedKeys(doc) == [primary] && doc.rotationKeys == [primary] && doc.signingKeys == []
            && doc.revocationBounds == [] && doc.servers.None? && doc.recoveryKey.None? && doc.recoverySignature.None?
  {
    var doc := GenesisDocument(primary);
    var all := doc.rotationKeys + doc.signingKeys;
    assert all == [primary] && all[1..] == [];
    assert Dedup(all[1..], {} + {all[0]}) == [];
  }

  /** An added key joins the listed keys; it may rotate if and only if it was added as a rotation key. Nothing else
      changes. */
  lemma {:induction false} AddedKey(doc: Identity, kind: KeyKind, key: PublicKey, k: PublicKey)
    ensures var after := WithKey(doc, kind, key);
            && (AuthorizesSigner(after, k) <==> AuthorizesSigner(doc, k) || k == key)
            && (k in after.rotationKeys <==> k in doc.rotationKeys || (kind == RotationKey && k == key))
            && after.(rotationKeys := doc.rotationKeys, signingKeys := doc.signingKeys) == doc
  {
  }

  /** The kind under which a key is removed, and what remains: the keys with other bytes, and the keys of the other
      list. One bound without targets is appended. */
  lemma {:induction false} RemovedKey(doc: Identity, target: Bytes, k: PublicKey)
    ensures KindOf(doc, target) == Some(RotationKey) <==> exists r | r in doc.rotationKeys :: r.key == target
    ensures KindOf(doc, target) == Some(SigningKey)
       <==> (forall r | r in doc.rotationKeys :: r.key != target) && exists r | r in doc.signingKeys :: r.key == target
    ensures KindOf(doc, target).Some? ==>
              var kind := KindOf(doc, target).value;
              var after := WithoutKey(doc, kind, target);
              && (k in after.rotationKeys <==> k in doc.rotationKeys && (kind == RotationKey ==> k.key != target))
              && (k in after.signingKeys <==> k in doc.signingKeys && (kind == SigningKey ==> k.key != target))
              && after.revocationBounds
                 == doc.revocationBounds + [RevocationBound(Some(PublicKey(KEY_TYPE_ED25519, target)), [])]
              && after.(rotationKeys := doc.rotationKeys, signingKeys := doc.signingKeys,
                        revocationBounds := doc.revocationBounds) == doc
  {
  }

  /** A revocation by the tool records no target in any collection: with `RevokedWithoutTarget`, nothing that the key
      signed outside the identity collection validates once the document no longer lists it. */
  lemma {:induction false} RevocationRecordsNothing(doc: Identity, kind: KeyKind, target: Bytes, collection: int)
    requires forall b | b in doc.revocationBounds :: b.targets == []
    ensures RecordsNone(WithoutKey(doc, kind, target), PublicKey(KEY_TYPE_ED25519, target), collection)
    ensures forall b | b in WithoutKey(doc, kind, target).revocationBounds :: b.targets == []
  {
    var bounds := WithoutKey(doc, kind, target).revocationBounds;
    forall i | 0 <= i < |bounds| ensures bounds[i].targets == [] {
      if i < |doc.revocationBounds| {
        assert bounds[i] == doc.revocationBounds[i] && doc.revocationBounds[i] in doc.revocationBounds;
      }
    }
  }

  // ----- revocation -----

  /** A key is gone after its revocation unless it was both a rotation and a signing key: then it may still sign. */
  lemma {:induction false} RevokedUnlessBoth(doc: Identity, target: Bytes, key: PublicKey)
    requires key.key == target && KindOf(doc, target).Some?
    ensures var after := WithoutKey(doc, KindOf(doc, target).value, target);
            && !AuthorizesRotation(after, key)
            && (AuthorizesSigner(after, key) <==> KindOf(doc, target) == Some(RotationKey) && key in doc.signingKeys)
  {
  }

  // ----- the store -----

  datatype ChainEntry = ChainEntry(sequence: u64, signer: Bytes, doc: Identity)

  function LoadDocument(env: Env, content: Bytes): Option<Identity> {
    match env.decodeContent(content)
    case Some(Content(Some(IdentityBody(doc)))) => Some(doc)
    case _ => None
  }

  /** A stored event as an entry of the chain; an event without a signer has an empty one. */
  function LoadEntry(env: Env, stored: StoredEvent): Option<ChainEntry> {
    match (env.decodeEvent(stored.signed.eventBytes), LoadDocument(env, stored.content))
    case (Some(event), Some(doc)) =>
      var named := event.key.Some? && event.key.value.signedBy.Some?;
      var signer := if named then event.key.value.signedBy.value.key else [];
      Some(ChainEntry(stored.sequence, signer, doc))
    case _ => None
  }

  lemma {:induction false} EntryLoads(t: Tools, identity: Text, genesis: PublicKey, log: seq<Append>,
                                      events: seq<StoredEvent>, i: nat)
    requires t.Lawful() && History(t, identity, genesis, log, events) && i < |log|
    ensures LoadEntry(t.env, events[i]) == Some(ChainEntry(i + 1, genesis.key, log[i].doc))
  {
    WrittenDecodes(t, identity, genesis, log, events, i);
  }

  class IdentityStore {
    const tools: Tools
    var identity: Option<Text>
    var keys: map<Bytes, Bytes>
    var events: seq<StoredEvent>
    ghost var log: seq<Append>

    ghost function Genesis(): PublicKey
      reads this
    {
      if log != [] && log[0].doc.rotationKeys != [] then log[0].doc.rotationKeys[0] else PublicKey(0, [])
    }

    /** The events are those that the commands so far have written, and the genesis key can still sign. */
    ghost predicate Recorded()
      reads this
    {
      identity.Some? && History(tools, identity.value, Genesis(), log, events) && Genesis().key in keys
    }

    /** Private keys are filed under their public keys, and an identity exists exactly when there is a record of it. */
    ghost predicate Valid()
      reads this
    {
      && (forall p | p in keys :: tools.publicOf(keys[p]) == p)
      && (identity.None? ==> events == [] && log == [])
      && (identity.Some? <==> Recorded())
    }

    ghost function Head(): Identity
      reads this
      requires log != []
    {
      log[|log| - 1].doc
    }

    constructor (tools: Tools)
      ensures Valid() && this.tools == tools && identity == None && events == []
    {
      this.tools, identity, keys, events, log := tools, None, map[], [], [];
    }

    /** The chain as stored, genesis first. */
    method LoadChain() returns (r: Result<seq<ChainEntry>>)
      requires tools.Lawful() && Valid()
      ensures r.Ok? && |r.value| == |log| == |events|
      ensures forall i | 0 <= i < |log| :: r.value[i] == ChainEntry(i + 1, Genesis().key, log[i].doc)
    {
      var entries := [];
      for i := 0 to |events|
        invariant |entries| == i && |log| == |events|
        invariant forall j | 0 <= j < i :: entries[j] == ChainEntry(j + 1, Genesis().key, log[j].doc)
      {
        EntryLoads(tools, identity.value, Genesis(), log, events, i);
        var entry := LoadEntry(tools.env, events[i]);
        if entry.None? {
          return Err;
        }
        entries := entries + [entry.value];
      }
      r := Ok(entries);
    }

    /** Build, sign and store one event, whoever signed the events before it. */
    method AppendEvent(id: Text, secret: Bytes, sequence: u64, identitySequence: u64, doc: Identity, now: u64)
      modifies this`events
      ensures events == Appended(tools, old(events), id, sequence, identitySequence, Append(secret, doc, now))
    {
      var prior := SignedEvents(events);
      var priorMax := MaxSequenceBySigner(tools.env, prior);
      events := events
        + [WrittenAs(tools, id, sequence, identitySequence, Append(secret, doc, now), prior, priorMax)];
    }

    /** The private key of the genesis key, which roots the chain. */
    method GenesisSecret(chain: seq<ChainEntry>) returns (secret: Option<Bytes>)
      requires Valid() && identity.Some?
      requires chain != [] && chain[0].doc == log[0].doc
      ensures secret == Some(keys[Genesis().key]) && tools.PublicOf(secret.value) == Genesis()
    {
      var public := chain[0].doc.rotationKeys[0].key;
      assert log[0] in log;
      secret := if public in keys then Some(keys[public]) else None;
    }

    /** Append the next event of an existing chain, signed by the genesis key. */
    method AppendNext(chain: seq<ChainEntry>, doc: Identity, now: u64) returns (ok: bool)
      requires tools.Lawful() && Valid() && identity.Some? && |events| + 1 < U64_LIMIT
      requires chain != [] && chain[0].doc == log[0].doc && chain[|chain| - 1].sequence == |log|
      requires AllEd25519(doc) && Genesis() in doc.rotationKeys
      modifies this`events, this`log
      ensures ok && Valid() && Genesis() == old(Genesis())
      ensures log == old(log) + [Append(keys[Genesis().key], doc, now)]
    {
      var secret := GenesisSecret(chain);
      if secret.None? {
        return false;
      }
      var sequence := chain[|chain| - 1].sequence + 1;
      ghost var a := Append(secret.value, doc, now);
      NextExtends(tools, identity.value, Genesis(), log, events, a);
      AppendEvent(identity.value, secret.value, sequence, sequence - 1, doc, now);
      log := log + [a];
      ok := true;
    }

    /** Create the identity from a fresh primary key, unless there is one already. */
    method CreateIdentity(secret: Bytes, now: u64) returns (r: Result<Text>)
      requires tools.Lawful() && Valid()
      modifies this
      ensures Valid()
      ensures r.Err? <==> old(identity).Some?
      ensures r.Err? ==> identity == old(identity) && keys == old(keys) && events == old(events) && log == old(log)
      ensures r.Ok? ==> identity == Some(r.value)
      ensures r.Ok? ==> r.value == tools.env.documentKey(GenesisDocument(tools.PublicOf(secret)))
      ensures r.Ok? ==> log == [Append(secret, GenesisDocument(tools.PublicOf(secret)), now)]
      ensures r.Ok? ==> keys == old(keys)[tools.publicOf(secret) := secret]
    {
      if identity.Some? {
        return Err;
      }
      var primary := tools.PublicOf(secret);
      keys := keys[primary.key := secret];
      var doc := GenesisDocument(primary);
      var id := tools.env.documentKey(doc);
      AppendEvent(id, secret, 1, 1, doc, now);
      identity := Some(id);
      log := [Append(secret, doc, now)];
      FirstEvent(tools, id, log[0], events);
      r := Ok(id);
    }

    /** Add a fresh key to the document. */
    method AddKey(kind: KeyKind, secret: Bytes, now: u64) returns (r: Result<Bytes>)
      requires tools.Lawful() && Valid() && |events| + 1 < U64_LIMIT
      modifies this
      ensures Valid() && identity == old(identity)
      ensures r.Err? <==> old(identity).None?
      ensures r.Err? ==> keys == old(keys) && events == old(events) && log == old(log)
      ensures r.Ok? ==> r.value == tools.publicOf(secret) && keys == old(keys)[r.value := secret]
      ensures r.Ok? ==>
                log == old(log) + [Append(keys[Genesis().key], WithKey(old(Head()), kind, tools.PublicOf(secret)), now)]
    {
      var chain := LoadChain();
      if chain.value == [] {
        return Err;
      }
      var head := chain.value[|chain.value| - 1].doc;
      assert log[|log| - 1] in log;
      var key := tools.PublicOf(secret);
      keys := keys[key.key := secret];
      AddedKeyFits(head, kind, key, Genesis());
      var ok := AppendNext(chain.value, WithKey(head, kind, key), now);
      r := Ok(key.key);
    }

    /** Revoke a key, given by its decoded hexadecimal form. */
    method RevokeKey(target: Option<Bytes>, now: u64) returns (r: Result<KeyKind>)
      requires tools.Lawful() && Valid() && |events| + 1 < U64_LIMIT
      modifies this
      ensures Valid() && identity == old(identity) && keys == old(keys)
      ensures r.Ok? <==> target.Some? && target.value != [] && old(identity).Some?
                         && target.value != old(Genesis()).key && KindOf(old(Head()), target.value).Some?
      ensures r.Err? ==> events == old(events) && log == old(log)
      ensures r.Ok? ==> r.value == KindOf(old(Head()), target.value).value
      ensures r.Ok? ==>
                log == old(log) + [Append(keys[Genesis().key], WithoutKey(old(Head()), r.value, target.value), now)]
    {
      if target.None? || target.value == [] {
        return Err;
      }
      var chain := LoadChain();
      if chain.value == [] {
        return Err;
      }
      assert chain.value[0].doc == GenesisDocument(Genesis());
      if chain.value[0].doc.rotationKeys[0].key == target.value {
        return Err;
      }
      var head := chain.value[|chain.value| - 1].doc;
      assert head == Head() && log[|log| - 1] in log;
      var kind := KindOf(head, target.value);
      if kind.None? {
        return Err;
      }
      RemovedKeyFits(head, kind.value, target.value, Genesis());
      var ok := AppendNext(chain.value, WithoutKey(head, kind.value, target.value), now);
      r := Ok(kind.value);
    }

    /** The document of the last event. */
    method CurrentDocument() returns (r: Result<Identity>)
      requires tools.Lawful() && Valid()
      ensures r.Ok? <==> identity.Some?
      ensures r.Ok? ==> r.value == Head()
    {
      var chain := LoadChain();
      if chain.value == [] {
        return Err;
      }
      r := Ok(chain.value[|chain.value| - 1].doc);
    }

    /** In every state the commands reach, the shared resolver accepts the whole store, and the head it resolves
        carries the current document. */
    lemma {:induction false} StoreResolves()
      requires tools.Lawful() && Valid() && identity.Some?
      ensures Resolved(tools.env, identity.value, events) == Some(ChainOf(Genesis(), log))
      ensures ChainOf(Genesis(), log)[|log| - 1].document == Head()
    {
      ResolverAcceptsAll(tools, identity.value, Genesis(), log, events);
    }
  }
}
