/**
 Resolution of an identity's chain from untrusted candidates: the greedy walk of
 `resolve_chain`, what the walk maximises, and who can change what along it.
 */
module IdentityChain {
  import opened Primitives
  import opened Ordering
  import opened Model
  import opened IdentityDocument

  datatype IdentityCandidate = IdentityCandidate(eventBytes: Bytes, contentBytes: Bytes, signature: Bytes)

  datatype IdentityEvent = IdentityEvent(sequence: u64, signer: PublicKey, document: Identity)

  /** Genesis first; the event at index `i` has sequence `i + 1`. */
  type Chain = seq<IdentityEvent>

  /** In increasing order of precedence. */
  datatype SuccessionReason = Republish | Recovery | Rotation {
    function Rank(): nat {
      match this case Republish => 0 case Recovery => 1 case Rotation => 2
    }
  }

  // ----- candidates -----

  /** The identity event of a candidate that is well-formed, signed and hashes to its digest. */
  function Preprocess(env: Env, identity: Text, c: IdentityCandidate): Option<IdentityEvent> {
    match (env.decodeEvent(c.eventBytes), env.decodeContent(c.contentBytes))
    case (Some(Event(Some(WireKey(collection, id, Some(signer), sequence)), _, _, _, _, Some(digest), _)),
          Some(Content(Some(IdentityBody(document))))) =>
      if id != identity || collection != IDENTITY then None
      else if !env.SigMatches(signer, c.signature, c.eventBytes) then None
      else if !env.DigestMatches(digest, c.contentBytes) then None
      else Some(IdentityEvent(sequence, signer, document))
    case _ => None
  }

  function Candidates(env: Env, identity: Text): IdentityCandidate -> Option<IdentityEvent> {
    (c: IdentityCandidate) => Preprocess(env, identity, c)
  }

  /** The candidate attests the identity event: it is the decoded key of its event bytes and the decoded document of its
      content bytes, the signer's Ed25519 key verifies the signature over the event bytes, and the content bytes have
      the SHA-256 value that the event states. The identity collection, Ed25519 and SHA-256 all have number 1. */
  ghost predicate Attests(env: Env, identity: Text, c: IdentityCandidate, e: IdentityEvent) {
    match env.decodeEvent(c.eventBytes)
    case None => false
    case Some(event) =>
      && event.key == Some(WireKey(1, identity, Some(e.signer), e.sequence))
      && e.signer.keyType == 1 && env.verifySignature(e.signer.key, c.signature, c.eventBytes)
      && event.contentDigest == Some(ContentDigest(1, env.sha(c.contentBytes)))
      && env.decodeContent(c.contentBytes) == Some(Content(Some(IdentityBody(e.document))))
  }

  /** Preprocessing admits exactly the attested events. */
  lemma {:induction false} PreprocessedIsAttested(env: Env, identity: Text, c: IdentityCandidate, e: IdentityEvent)
    ensures Preprocess(env, identity, c) == Some(e) <==> Attests(env, identity, c, e)
  {
  }

  ghost predicate SomeAttests(env: Env, identity: Text, candidates: seq<IdentityCandidate>, e: IdentityEvent) {
    exists c :: c in candidates && Attests(env, identity, c, e)
  }

  lemma {:induction false} PreprocessedMembers(env: Env, identity: Text, candidates: seq<IdentityCandidate>,
                                               e: IdentityEvent)
    ensures e in FilterMap(Candidates(env, identity), candidates) <==> SomeAttests(env, identity, candidates, e)
  {
    FilterMapMembers(Candidates(env, identity), candidates, e);
    forall c ensures Candidates(env, identity)(c) == Some(e) <==> Attests(env, identity, c, e) {
      PreprocessedIsAttested(env, identity, c, e);
    }
  }

  // ----- succession -----

  /** The part of a document that only rotation and recovery may change. */
  function Substance(doc: Identity): Identity {
    doc.(recoverySignature := None)
  }

  predicate IsRepublish(from: IdentityEvent, to: IdentityEvent) {
    AuthorizesSigner(from.document, to.signer) && Substance(from.document) == Substance(to.document)
  }

  /** A 32-bit integer in network byte order. */
  function BigEndian32(x: int): Bytes {
    var u := x % 0x1_0000_0000;
    [u / 0x100_0000 % 256, u / 0x1_0000 % 256, u / 0x100 % 256, u % 256]
  }

  function RecoveryPayload(identity: Text, key: PublicKey): Bytes {
    identity + BigEndian32(key.keyType) + key.key
  }

  /** The head's recovery key vouches for the candidate's signer, itself a rotation key of the candidate. */
  predicate Vouched(env: Env, identity: Text, head: IdentityEvent, candidate: IdentityEvent) {
    && AuthorizesRotation(candidate.document, candidate.signer)
    && head.document.recoveryKey.Some?
    && candidate.document.recoverySignature.Some?
    && env.SigMatches(head.document.recoveryKey.value, candidate.document.recoverySignature.value,
                      RecoveryPayload(identity, candidate.signer))
  }

  function JustifySuccession(env: Env, identity: Text, head: IdentityEvent, candidate: IdentityEvent)
    : Option<SuccessionReason>
  {
    if AuthorizesRotation(head.document, candidate.signer) then Some(Rotation)
    else if IsRepublish(head, candidate) then Some(Republish)
    else if !AuthorizesRotation(candidate.document, candidate.signer) then None
    else match (head.document.recoveryKey, candidate.document.recoverySignature)
      case (Some(key), Some(signature)) =>
        if env.SigMatches(key, signature, RecoveryPayload(identity, candidate.signer)) then Some(Recovery) else None
      case _ => None
  }

  /** The number that bytes stand for, the most significant one first. */
  function Number(bytes: Bytes): nat {
    if bytes == [] then 0 else 256 * Number(bytes[..|bytes| - 1]) + bytes[|bytes| - 1]
  }

  function Weighted(a: int, b: int, c: int, d: int): int {
    0x100_0000 * a + 0x1_0000 * b + 0x100 * c + d
  }

  lemma {:induction false} NumberOfFour(d: Bytes)
    requires |d| == 4
    ensures Number(d) == Weighted(d[0], d[1], d[2], d[3])
  {
    assert d[..3][..2] == d[..2] && d[..2][..1] == d[..1] && d[..1][..0] == [];
    assert Number(d[..1]) == d[0];
    assert Number(d[..2]) == 256 * Number(d[..1]) + d[1];
    assert Number(d[..3]) == 256 * Number(d[..2]) + d[2];
  }

  lemma {:induction false} BigEndianValue(x: int)
    ensures |BigEndian32(x)| == 4 && Number(BigEndian32(x)) == x % 0x1_0000_0000
  {
    NumberOfFour(BigEndian32(x));
    DigitsAddUp(x % 0x1_0000_0000);
  }

  lemma {:induction false} QuotientsChain(u: nat)
    ensures u / 0x1_0000 == u / 0x100 / 256
    ensures u / 0x100_0000 == u / 0x1_0000 / 256
  {
  }

  lemma {:induction false} DigitsAddUp(u: nat)
    requires u < 0x1_0000_0000
    ensures Weighted(u / 0x100_0000 % 256, u / 0x1_0000 % 256, u / 0x100 % 256, u % 256) == u
  {
    QuotientsChain(u);
    var q, r := u / 0x100, u / 0x1_0000;
    assert u == 256 * q + u % 256;
    assert q == 256 * r + q % 256;
    assert r == 256 * (r / 256) + r % 256;
    assert r / 256 < 256;
  }

  /** The parts of the payload, and that a recovery signature for an identity names one key: two keys with the same
      payload have the same key bytes and the same 32-bit key type. */
  lemma {:induction false} PayloadNamesKey(identity: Text, a: PublicKey, b: PublicKey)
    ensures var n, p := |identity|, RecoveryPayload(identity, a);
            && |p| == n + 4 + |a.key| && p[..n] == identity && p[n + 4..] == a.key
            && Number(p[n..n + 4]) == a.keyType % 0x1_0000_0000
    ensures RecoveryPayload(identity, a) == RecoveryPayload(identity, b) ==>
              a.key == b.key && a.keyType % 0x1_0000_0000 == b.keyType % 0x1_0000_0000
  {
    PayloadParts(identity, a);
    PayloadParts(identity, b);
  }

  lemma {:induction false} PayloadParts(identity: Text, a: PublicKey)
    ensures var n, p := |identity|, RecoveryPayload(identity, a);
            && |p| == n + 4 + |a.key| && p[..n] == identity && p[n + 4..] == a.key
            && Number(p[n..n + 4]) == a.keyType % 0x1_0000_0000
  {
    BigEndianValue(a.keyType);
    var n, p := |identity|, RecoveryPayload(identity, a);
    assert p[n..n + 4] == BigEndian32(a.keyType);
  }

  /** Who may succeed a head, and why: a rotation key of the head; otherwise a listed key that changes nothing but the
      recovery signature; otherwise a rotation key of the new document for which the head's recovery key signed. */
  lemma {:induction false} SuccessionMeaning(env: Env, identity: Text, head: IdentityEvent, e: IdentityEvent)
    ensures var doc, doc' := head.document, e.document;
            var rotates := e.signer in doc.rotationKeys;
            var republishes := (e.signer in doc.rotationKeys || e.signer in doc.signingKeys)
                               && doc == doc'.(recoverySignature := doc.recoverySignature);
            var recovers := e.signer in doc'.rotationKeys
                            && doc.recoveryKey.Some? && doc'.recoverySignature.Some?
                            && doc.recoveryKey.value.keyType == KEY_TYPE_ED25519
                            && env.verifySignature(doc.recoveryKey.value.key, doc'.recoverySignature.value,
                                                   RecoveryPayload(identity, e.signer));
            JustifySuccession(env, identity, head, e)
            == if rotates then Some(Rotation) else if republishes then Some(Republish)
               else if recovers then Some(Recovery) else None
  {
    var doc, doc' := head.document, e.document;
    assert Substance(doc) == Substance(doc') <==> doc == doc'.(recoverySignature := doc.recoverySignature);
  }

  /** A candidate together with the reason it may succeed the head. */
  datatype Successor = Successor(event: IdentityEvent, reason: SuccessionReason)

  function CompareSuccessors(env: Env, a: Successor, b: Successor): Ordering {
    CompareInt(a.event.sequence, b.event.sequence)
    .ThenWith(CompareInt(a.reason.Rank(), b.reason.Rank()))
    .ThenWith(CompareSigners(a.event.signer, b.event.signer))
    .ThenWith(CompareSeq(env.documentKey(a.event.document), env.documentKey(b.event.document)))
  }

  /** The last of the greatest elements, as `Iterator::max_by` picks it. */
  function MaxBy<T>(cmp: (T, T) -> Ordering, s: seq<T>): (r: Option<T>)
    ensures r.None? <==> s == []
    ensures r.Some? ==> r.value in s
  {
    if s == [] then None
    else
      var last := s[|s| - 1];
      match MaxBy(cmp, s[..|s| - 1])
      case None => Some(last)
      case Some(best) => if cmp(best, last) == Greater then Some(best) else Some(last)
  }

  /** The part of a total order that `MaxBy` needs. */
  ghost predicate Comparable<T(!new)>(cmp: (T, T) -> Ordering) {
    && (forall a, b :: cmp(b, a) == cmp(a, b).Reverse())
    && (forall a, b, c :: Chains(cmp(a, b), cmp(b, c), cmp(a, c)))
  }

  /** The place of the selected element: every later one is strictly smaller. */
  lemma {:induction false} MaxByIsLast<T(!new)>(cmp: (T, T) -> Ordering, s: seq<T>) returns (i: nat)
    requires Comparable(cmp) && s != []
    ensures i < |s| && MaxBy(cmp, s) == Some(s[i]) && forall j | i < j < |s| :: cmp(s[j], s[i]) == Less
  {
    var rest := s[..|s| - 1];
    i := |s| - 1;
    if rest != [] && MaxBy(cmp, s) != Some(s[|s| - 1]) {
      i := MaxByIsLast(cmp, rest);
    }
  }

  lemma {:induction false} MaxByIsMaximal<T(!new)>(cmp: (T, T) -> Ordering, s: seq<T>)
    requires Comparable(cmp)
    ensures MaxBy(cmp, s).Some? ==> forall x | x in s :: cmp(x, MaxBy(cmp, s).value) != Greater
  {
    if s != [] {
      var rest, last := s[..|s| - 1], s[|s| - 1];
      assert s == rest + [last];
      MaxByIsMaximal(cmp, rest);
      forall x | x in s ensures cmp(x, MaxBy(cmp, s).value) != Greater {
        assert cmp(last, last) == Equal;
        if x in rest {
          assert Chains(cmp(x, MaxBy(cmp, rest).value), cmp(MaxBy(cmp, rest).value, last), cmp(x, last));
        }
      }
    }
  }

  function SignerOrder(a: IdentityEvent, b: IdentityEvent): Ordering {
    CompareSigners(a.signer, b.signer)
  }

  function SuccessorOrder(env: Env): (Successor, Successor) -> Ordering {
    (a: Successor, b: Successor) => CompareSuccessors(env, a, b)
  }

  lemma {:induction false} SignersComparable()
    ensures Comparable(SignerOrder)
  {
    forall a: IdentityEvent, b: IdentityEvent, c: IdentityEvent
      ensures Chains(SignerOrder(a, b), SignerOrder(b, c), SignerOrder(a, c)) &&
              SignerOrder(b, a) == SignerOrder(a, b).Reverse()
    {
      SignersOrdered(a.signer, b.signer, c.signer);
    }
  }

  lemma {:induction false} SuccessorsOrdered(env: Env, a: Successor, b: Successor, c: Successor)
    ensures CompareSuccessors(env, a, b) == Equal <==>
      && a.event.sequence == b.event.sequence && a.reason == b.reason && a.event.signer == b.event.signer
      && env.documentKey(a.event.document) == env.documentKey(b.event.document)
    ensures CompareSuccessors(env, b, a) == CompareSuccessors(env, a, b).Reverse()
    ensures Chains(CompareSuccessors(env, a, b), CompareSuccessors(env, b, c), CompareSuccessors(env, a, c))
  {
    SignersOrdered(a.event.signer, b.event.signer, c.event.signer);
    CompareSeqOrder(env.documentKey(a.event.document), env.documentKey(b.event.document),
                    env.documentKey(c.event.document));
  }

  lemma {:induction false} SuccessorsComparable(env: Env)
    ensures Comparable(SuccessorOrder(env))
  {
    forall a: Successor, b: Successor, c: Successor
      ensures Chains(SuccessorOrder(env)(a, b), SuccessorOrder(env)(b, c), SuccessorOrder(env)(a, c)) &&
              SuccessorOrder(env)(b, a) == SuccessorOrder(env)(a, b).Reverse()
    {
      SuccessorsOrdered(env, a, b, c);
    }
  }

  // ----- the walk -----

  function AtSequence(events: seq<IdentityEvent>, sequence: nat): (r: seq<IdentityEvent>)
    ensures forall e :: e in r <==> e in events && e.sequence == sequence
  {
    Filter((e: IdentityEvent) => e.sequence == sequence, events)
  }

  predicate IsGenesis(env: Env, identity: Text, e: IdentityEvent) {
    && e.sequence == 1
    && env.documentKey(e.document) == identity
    && AuthorizesRotation(e.document, e.signer)
  }

  /** The genesis filter, applied to candidates with sequence 1. */
  function GenesisCandidates(env: Env, identity: Text, atOne: seq<IdentityEvent>): seq<IdentityEvent> {
    Filter((e: IdentityEvent) =>
             env.documentKey(e.document) == identity && AuthorizesRotation(e.document, e.signer), atOne)
  }

  function PickGenesis(env: Env, identity: Text, atOne: seq<IdentityEvent>): Option<IdentityEvent> {
    MaxBy(SignerOrder, GenesisCandidates(env, identity, atOne))
  }

  function Justified(env: Env, identity: Text, head: IdentityEvent): IdentityEvent -> Option<Successor> {
    (e: IdentityEvent) =>
      match JustifySuccession(env, identity, head, e)
      case None => None
      case Some(reason) => Some(Successor(e, reason))
  }

  function PickNext(env: Env, identity: Text, head: IdentityEvent, atNext: seq<IdentityEvent>): Option<Successor> {
    MaxBy(SuccessorOrder(env), FilterMap(Justified(env, identity, head), atNext))
  }

  function LastSequence(events: seq<IdentityEvent>): (m: nat)
    ensures forall e | e in events :: e.sequence <= m
  {
    if events == [] then 0
    else
      var rest := LastSequence(events[1..]);
      if events[0].sequence > rest then events[0].sequence else rest
  }

  lemma {:induction false} PickNextIsMember(env: Env, identity: Text, head: IdentityEvent, events: seq<IdentityEvent>,
                                            sequence: nat)
    requires PickNext(env, identity, head, AtSequence(events, sequence)).Some?
    ensures var next := PickNext(env, identity, head, AtSequence(events, sequence)).value;
      && next.event in events && next.event.sequence == sequence
      && JustifySuccession(env, identity, head, next.event) == Some(next.reason)
  {
    var next := PickNext(env, identity, head, AtSequence(events, sequence)).value;
    FilterMapMembers(Justified(env, identity, head), AtSequence(events, sequence), next);
  }

  /** Extend `chain` until no candidate may succeed its head. */
  function Walk(env: Env, identity: Text, events: seq<IdentityEvent>, chain: Chain): (r: Chain)
    requires chain != []
    ensures r != []
    decreases LastSequence(events) - chain[|chain| - 1].sequence
  {
    var head := chain[|chain| - 1];
    match PickNext(env, identity, head, AtSequence(events, head.sequence + 1))
    case None => chain
    case Some(next) =>
      PickNextIsMember(env, identity, head, events, head.sequence + 1);
      Walk(env, identity, events, chain + [next.event])
  }

  /** The chain resolved from preprocessed events, in their order of arrival. */
  function Resolve(env: Env, identity: Text, events: seq<IdentityEvent>): (r: Option<Chain>)
    ensures r.Some? ==> r.value != []
  {
    match PickGenesis(env, identity, AtSequence(events, 1))
    case None => None
    case Some(genesis) => Some(Walk(env, identity, events, [genesis]))
  }

  // ----- the walk as the code runs it -----

  ghost predicate Grouped(bySeq: map<int, seq<IdentityEvent>>, events: seq<IdentityEvent>, from: nat) {
    && (forall s: nat | s in bySeq && s >= from :: bySeq[s] == AtSequence(events, s))
    && (forall e | e in events && e.sequence >= from :: e.sequence in bySeq)
  }

  lemma {:induction false} AtSequenceAppend(events: seq<IdentityEvent>, e: IdentityEvent, s: nat)
    ensures AtSequence(events + [e], s) == AtSequence(events, s) + (if e.sequence == s then [e] else [])
  {
    if events == [] {
      assert events + [e] == [e];
    } else {
      assert (events + [e])[1..] == events[1..] + [e];
      AtSequenceAppend(events[1..], e, s);
    }
  }

  lemma {:induction false} NoneAtSequence(events: seq<IdentityEvent>, s: nat)
    requires forall e | e in events :: e.sequence != s
    ensures AtSequence(events, s) == []
  {
    FilterNone((e: IdentityEvent) => e.sequence == s, events);
  }

  lemma {:induction false} GroupedRemove(bySeq: map<int, seq<IdentityEvent>>, events: seq<IdentityEvent>, s: nat)
    requires Grouped(bySeq, events, s)
    ensures Grouped(bySeq - {s}, events, s + 1)
    ensures s !in bySeq ==> AtSequence(events, s) == []
  {
    if s !in bySeq { NoneAtSequence(events, s); }
  }

  lemma {:induction false} WalkStep(env: Env, identity: Text, events: seq<IdentityEvent>, chain: Chain,
                                    next: Option<Successor>)
    requires chain != []
    requires next == PickNext(env, identity, chain[|chain| - 1], AtSequence(events, chain[|chain| - 1].sequence + 1))
    ensures next.None? ==> Walk(env, identity, events, chain) == chain
    ensures next.Some? ==>
      && next.value.event.sequence == chain[|chain| - 1].sequence + 1 <= LastSequence(events)
      && Walk(env, identity, events, chain) == Walk(env, identity, events, chain + [next.value.event])
  {
    if next.Some? {
      PickNextIsMember(env, identity, chain[|chain| - 1], events, chain[|chain| - 1].sequence + 1);
    }
  }

  method GroupBySequence(env: Env, identity: Text, candidates: seq<IdentityCandidate>)
    returns (bySeq: map<int, seq<IdentityEvent>>)
    ensures Grouped(bySeq, FilterMap(Candidates(env, identity), candidates), 0)
  {
    bySeq := map[];
    for i := 0 to |candidates|
      invariant Grouped(bySeq, FilterMap(Candidates(env, identity), candidates[..i]), 0)
    {
      ghost var events := FilterMap(Candidates(env, identity), candidates[..i]);
      assert candidates[..i + 1] == candidates[..i] + [candidates[i]];
      FilterMapConcat(Candidates(env, identity), candidates[..i], [candidates[i]]);
      match Preprocess(env, identity, candidates[i]) {
        case None =>
          assert FilterMap(Candidates(env, identity), candidates[..i + 1]) == events;
        case Some(decoded) =>
          forall s: nat { AtSequenceAppend(events, decoded, s); }
          var present := if decoded.sequence in bySeq then bySeq[decoded.sequence] else [];
          if decoded.sequence !in bySeq { NoneAtSequence(events, decoded.sequence); }
          bySeq := bySeq[decoded.sequence := present + [decoded]];
          assert FilterMap(Candidates(env, identity), candidates[..i + 1]) == events + [decoded];
      }
    }
    assert candidates[..|candidates|] == candidates;
  }

  /** The loop of `ResolveChain`: take the candidates for the next sequence out of the map and pick one. */
  method WalkMap(env: Env, identity: Text, grouped: map<int, seq<IdentityEvent>>, genesis: IdentityEvent,
                 ghost events: seq<IdentityEvent>)
    returns (chain: Chain)
    requires Grouped(grouped, events, genesis.sequence + 1)
    ensures chain == Walk(env, identity, events, [genesis])
  {
    var bySeq := grouped;
    chain := [genesis];
    while true
      invariant chain != []
      invariant Grouped(bySeq, events, chain[|chain| - 1].sequence + 1)
      invariant Walk(env, identity, events, chain) == Walk(env, identity, events, [genesis])
      decreases LastSequence(events) - chain[|chain| - 1].sequence
    {
      var head := chain[|chain| - 1];
      var nextSeq := head.sequence + 1;
      GroupedRemove(bySeq, events, nextSeq);
      if nextSeq !in bySeq {
        WalkStep(env, identity, events, chain, None);
        break;
      }
      var next := PickNext(env, identity, head, bySeq[nextSeq]);
      bySeq := bySeq - {nextSeq};
      WalkStep(env, identity, events, chain, next);
      if next.None? {
        break;
      }
      chain := chain + [next.value.event];
    }
  }

  /** Whatever resolves is made of attested events. */
  lemma {:induction false} WalkAdmits(env: Env, identity: Text, events: seq<IdentityEvent>, chain: Chain)
    requires chain != [] && forall e | e in chain :: e in events
    ensures forall e | e in Walk(env, identity, events, chain) :: e in events
    decreases LastSequence(events) - chain[|chain| - 1].sequence
  {
    var head := chain[|chain| - 1];
    var next := PickNext(env, identity, head, AtSequence(events, head.sequence + 1));
    WalkStep(env, identity, events, chain, next);
    if next.Some? {
      PickNextIsMember(env, identity, head, events, head.sequence + 1);
      WalkAdmits(env, identity, events, chain + [next.value.event]);
    }
  }

  lemma {:induction false} ResolveAdmits(env: Env, identity: Text, candidates: seq<IdentityCandidate>, chain: Chain)
    requires Resolve(env, identity, FilterMap(Candidates(env, identity), candidates)) == Some(chain)
    ensures forall e | e in chain :: SomeAttests(env, identity, candidates, e)
  {
    var events := FilterMap(Candidates(env, identity), candidates);
    var genesis := PickGenesis(env, identity, AtSequence(events, 1)).value;
    assert genesis in events;
    WalkAdmits(env, identity, events, [genesis]);
    forall e | e in chain ensures SomeAttests(env, identity, candidates, e) {
      PreprocessedMembers(env, identity, candidates, e);
    }
  }

  method ResolveChain(env: Env, identity: Text, candidates: seq<IdentityCandidate>) returns (r: Option<Chain>)
    ensures r == Resolve(env, identity, FilterMap(Candidates(env, identity), candidates))
    ensures r.Some? ==> forall e | e in r.value :: SomeAttests(env, identity, candidates, e)
  {
    ghost var events := FilterMap(Candidates(env, identity), candidates);
    var bySeq := GroupBySequence(env, identity, candidates);
    GroupedRemove(bySeq, events, 1);
    if 1 !in bySeq {
      return None;
    }
    var genesis := PickGenesis(env, identity, bySeq[1]);
    bySeq := bySeq - {1};
    if genesis.None? {
      return None;
    }
    var chain := WalkMap(env, identity, bySeq, genesis.value, events);
    ResolveAdmits(env, identity, candidates, chain);
    r := Some(chain);
  }
}
