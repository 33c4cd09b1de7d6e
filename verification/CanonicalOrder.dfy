/** The canonical order of an event stream and the Merkle anchor derived from it. */
module CanonicalOrder {
  import opened Primitives
  import opened Ordering
  import opened Model
  import opened VectorClocks
  import opened MerkleTree
  import opened MerkleProof

  datatype SortKey = SortKey(sum: u64, createdAt: u64, signature: Bytes)

  function CompareSortKeys(a: SortKey, b: SortKey): Ordering {
    CompareInt(a.sum, b.sum)
    .ThenWith(CompareInt(a.createdAt, b.createdAt))
    .ThenWith(CompareSeq(a.signature, b.signature))
  }

  lemma {:induction false} SortKeysTotallyOrdered()
    ensures TotalOrder(CompareSortKeys)
  {
    forall a: SortKey, b: SortKey { CompareSeqOrder(a.signature, b.signature, b.signature); }
    forall a: SortKey, b: SortKey, c: SortKey { CompareSeqOrder(a.signature, b.signature, c.signature); }
  }

  /** A missing clock sums to zero. */
  function SortKeyOf(event: Event, signature: Bytes): SortKey {
    var sum := match event.vectorClock case Some(clock) => WrappedSum(clock) case None => 0;
    SortKey(sum, event.createdAt, signature)
  }

  function Decoded(env: Env): SignedEvent -> Option<SortKey> {
    (item: SignedEvent) =>
      match env.decodeEvent(item.eventBytes)
      case None => None
      case Some(event) => Some(SortKeyOf(event, item.signature))
  }

  /** The decodable events in canonical order; undecodable ones are skipped. */
  function SortedKeys(env: Env, items: seq<SignedEvent>): seq<SortKey> {
    SortBy(CompareSortKeys, FilterMap(Decoded(env), items))
  }

  function CanonicalSignatures(env: Env, items: seq<SignedEvent>): seq<Bytes> {
    Map((k: SortKey) => k.signature, SortedKeys(env, items))
  }

  function PreviousRoot(env: Env, items: seq<SignedEvent>): Bytes {
    match MerkleTreeHash(Rfc6962(env.sha), CanonicalSignatures(env, items))
    case Some(root) => root
    case None => []
  }

  function PreviousSignature(env: Env, items: seq<SignedEvent>): Bytes {
    var signatures := CanonicalSignatures(env, items);
    if signatures == [] then [] else signatures[|signatures| - 1]
  }

  /** The output is a sorted rearrangement of the decodable inputs. */
  lemma {:induction false} CanonicalIsSortedPermutation(env: Env, items: seq<SignedEvent>)
    ensures Sorted(CompareSortKeys, SortedKeys(env, items))
    ensures multiset(SortedKeys(env, items)) == multiset(FilterMap(Decoded(env), items))
    ensures |CanonicalSignatures(env, items)| == |SortedKeys(env, items)|
    ensures forall i | 0 <= i < |SortedKeys(env, items)| ::
      CanonicalSignatures(env, items)[i] == SortedKeys(env, items)[i].signature
  {
    SortKeysTotallyOrdered();
    SortBySorts(CompareSortKeys, FilterMap(Decoded(env), items));
  }

  /** Any permutation of the input has the same canonical form, so replicas that hold the same events
      compute the same anchor. */
  lemma {:induction false} AnchorIgnoresArrivalOrder(env: Env, items: seq<SignedEvent>, items': seq<SignedEvent>)
    requires multiset(items) == multiset(items')
    ensures CanonicalSignatures(env, items) == CanonicalSignatures(env, items')
    ensures PreviousRoot(env, items) == PreviousRoot(env, items')
    ensures PreviousSignature(env, items) == PreviousSignature(env, items')
  {
    SortKeysTotallyOrdered();
    FilterMapPermutes(Decoded(env), items, items');
    SortByPermutation(CompareSortKeys, FilterMap(Decoded(env), items), FilterMap(Decoded(env), items'));
  }

  /** An anchor determines the history: two streams with the same previous root have the same canonical signatures, and
      so the same previous signature, or a collision is computed. The root is empty only without decodable events. */
  function AnchorCollision(env: Env, items: seq<SignedEvent>, items': seq<SignedEvent>): (p: Option<(Bytes, Bytes)>)
    requires PreviousRoot(env, items) == PreviousRoot(env, items')
    ensures p.None? ==> CanonicalSignatures(env, items) == CanonicalSignatures(env, items')
    ensures p.None? ==> PreviousSignature(env, items) == PreviousSignature(env, items')
    ensures p.Some? ==> Collision(env.sha, p.value.0, p.value.1)
    ensures PreviousRoot(env, items) == [] <==> CanonicalSignatures(env, items) == []
  {
    var a, b := CanonicalSignatures(env, items), CanonicalSignatures(env, items');
    if a == [] || b == [] then None else RootCollision(env.sha, a, b)
  }

  /** The keys are compared by clock sum, then by time, then by signature, smaller ones first. */
  lemma {:induction false} EarlierKeysFirst(a: SortKey, b: SortKey)
    ensures CompareSortKeys(a, b) == Less
       <==> a.sum < b.sum
            || (a.sum == b.sum && a.createdAt < b.createdAt)
            || (a.sum == b.sum && a.createdAt == b.createdAt && BytesBefore(a.signature, b.signature))
  {
    CompareSeqMeaning(a.signature, b.signature);
  }

  /** Where two events with equal wrapped sums end up: the one created earlier comes first; of two created at the same
      time, the one with the smaller signature. An event without a clock counts as one with sum 0. */
  lemma {:induction false} TiesBreakByTime(env: Env, items: seq<SignedEvent>, a: Event, b: Event, p: nat, q: nat,
                                           s: Bytes, t: Bytes)
    requires ClockSum(a) == ClockSum(b)
    requires p < |SortedKeys(env, items)| && SortedKeys(env, items)[p] == SortKeyOf(a, s)
    requires q < |SortedKeys(env, items)| && SortedKeys(env, items)[q] == SortKeyOf(b, t)
    ensures a.createdAt < b.createdAt ==> p < q
    ensures a.createdAt == b.createdAt && BytesBefore(s, t) ==> p < q
  {
    CanonicalIsSortedPermutation(env, items);
    var keys := SortedKeys(env, items);
    SortKeyMeaning(a, s);
    SortKeyMeaning(b, t);
    EarlierKeysFirst(keys[p], keys[q]);
    CompareSeqOrder(s, t, s);
    CompareSeqOrder(t, s, t);
    assert q < p ==> CompareSortKeys(keys[q], keys[p]) != Greater;
  }

  /** What an event is ordered by. */
  lemma {:induction false} SortKeyMeaning(event: Event, signature: Bytes)
    ensures SortKeyOf(event, signature).sum == ClockSum(event)
    ensures SortKeyOf(event, signature).createdAt == event.createdAt
    ensures SortKeyOf(event, signature).signature == signature
  {
  }

  function ClockSum(event: Event): u64 {
    if event.vectorClock.None? then 0 else Sum(event.vectorClock.value) % U64_LIMIT
  }

  /** Wherever two events end up, the one with the smaller wrapped clock sum comes first. Between a cause and its effect
      whose sums are less than 2^64 apart, the cause comes first if and only if no carry out of 64 bits separates the
      sums; in particular whenever the effect's sum fits in 64 bits. */
  lemma {:induction false} CausesComeFirst(env: Env, items: seq<SignedEvent>, a: Event, b: Event, p: nat, q: nat,
                                           s: Bytes, t: Bytes)
    requires a.vectorClock.Some? && b.vectorClock.Some?
    requires HappensBefore(a.vectorClock.value, b.vectorClock.value)
    requires p < |SortedKeys(env, items)| && SortedKeys(env, items)[p] == SortKeyOf(a, s)
    requires q < |SortedKeys(env, items)| && SortedKeys(env, items)[q] == SortKeyOf(b, t)
    ensures WrappedSum(a.vectorClock.value) != WrappedSum(b.vectorClock.value) ==>
              (p < q <==> WrappedSum(a.vectorClock.value) < WrappedSum(b.vectorClock.value))
    ensures Sum(b.vectorClock.value) - Sum(a.vectorClock.value) < U64_LIMIT ==>
              (p < q <==> Sum(a.vectorClock.value) / U64_LIMIT == Sum(b.vectorClock.value) / U64_LIMIT)
    ensures Sum(b.vectorClock.value) < U64_LIMIT ==> p < q
  {
    var x, y := a.vectorClock.value, b.vectorClock.value;
    PositionsFollowSums(env, items, p, q);
    HappensBeforeSum(x, y);
    if Sum(y) - Sum(x) < U64_LIMIT {
      WrappedSumIncreases(x, y);
      WrappedSumsDiffer(x, y);
    }
  }

  lemma {:induction false} WrappedSumsDiffer(x: Clock, y: Clock)
    requires Sum(x) < Sum(y) < Sum(x) + U64_LIMIT
    ensures WrappedSum(x) != WrappedSum(y)
  {
    var m, n := Sum(x) / U64_LIMIT, Sum(y) / U64_LIMIT;
    assert Sum(y) - Sum(x) == U64_LIMIT * (n - m) + (WrappedSum(y) - WrappedSum(x));
  }

  lemma {:induction false} PositionsFollowSums(env: Env, items: seq<SignedEvent>, p: nat, q: nat)
    requires p < |SortedKeys(env, items)| && q < |SortedKeys(env, items)|
    ensures SortedKeys(env, items)[p].sum < SortedKeys(env, items)[q].sum ==> p < q
    ensures SortedKeys(env, items)[p].sum > SortedKeys(env, items)[q].sum ==> q < p
  {
    CanonicalIsSortedPermutation(env, items);
    var keys := SortedKeys(env, items);
    assert q < p ==> CompareSortKeys(keys[q], keys[p]) != Greater;
    assert p < q ==> CompareSortKeys(keys[p], keys[q]) != Greater;
  }

  ghost predicate IsCause(a: Event, b: Event) {
    a.vectorClock.Some? && b.vectorClock.Some? && HappensBefore(a.vectorClock.value, b.vectorClock.value)
  }

  /** The canonical order places every possible cause of an event before it if and only if the event's clock sum fits
      in 64 bits. */
  lemma {:induction false} CausesComeFirstIff(b: Event, t: Bytes)
    requires b.vectorClock.Some?
    ensures (forall a, s | IsCause(a, b) :: CompareSortKeys(SortKeyOf(a, s), SortKeyOf(b, t)) == Less)
       <==> Sum(b.vectorClock.value) < U64_LIMIT
  {
    var clock := b.vectorClock.value;
    WrappedSumExceedsCausesIff(clock);
    if Sum(clock) >= U64_LIMIT {
      var a := b.(vectorClock := Some(OverflowingCause(clock)));
      CompareSeqOrder(t, t, t);
      assert IsCause(a, b) && CompareSortKeys(SortKeyOf(a, t), SortKeyOf(b, t)) != Less;
    } else {
      forall a, s | IsCause(a, b) ensures CompareSortKeys(SortKeyOf(a, s), SortKeyOf(b, t)) == Less {
        assert WrappedSum(a.vectorClock.value) < WrappedSum(clock);
      }
    }
  }

  /** Without the bound the claim fails: this pair is placed effect first. */
  lemma {:induction false} OverflowPutsEffectFirst(a: Event, b: Event, s: Bytes, t: Bytes)
    requires a.vectorClock == Some([U64_LIMIT - 1, 0]) && b.vectorClock == Some([U64_LIMIT - 1, 1])
    ensures HappensBefore(a.vectorClock.value, b.vectorClock.value)
    ensures CompareSortKeys(SortKeyOf(b, t), SortKeyOf(a, s)) == Less
  {
    WrappedSumMisorders();
  }
}
