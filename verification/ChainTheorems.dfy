/**
 What `Resolve` computes: the greatest justified chain over the set of candidates.
 Convergence, monotonicity, non-interference, progress and the conservation of
 authority follow.
 */
module ChainTheorems {
  import opened Primitives
  import opened Ordering
  import opened Model
  import opened IdentityDocument
  import opened IdentityChain

  // ----- justified chains -----

  ghost predicate MayFollow(env: Env, identity: Text, head: IdentityEvent, e: IdentityEvent) {
    e.sequence == head.sequence + 1 && JustifySuccession(env, identity, head, e).Some?
  }

  /** A non-empty chain over `pool`: a genesis, and every later event justified by its predecessor. */
  ghost predicate IsChain(env: Env, identity: Text, pool: set<IdentityEvent>, c: Chain) {
    && c != []
    && (forall e | e in c :: e in pool)
    && IsGenesis(env, identity, c[0])
    && forall i | 1 <= i < |c| :: MayFollow(env, identity, c[i - 1], c[i])
  }

  lemma {:induction false} ChainSequence(env: Env, identity: Text, pool: set<IdentityEvent>, c: Chain, i: nat)
    requires IsChain(env, identity, pool, c) && i < |c|
    ensures c[i].sequence == i + 1
  {
    if i > 0 {
      ChainSequence(env, identity, pool, c, i - 1);
      assert MayFollow(env, identity, c[i - 1], c[i]);
    }
  }

  // ----- the order on chains -----

  /** An event with its reason to succeed `head`; only meaningful where it has one. */
  function After(env: Env, identity: Text, head: IdentityEvent, e: IdentityEvent): Successor {
    match JustifySuccession(env, identity, head, e)
    case Some(reason) => Successor(e, reason)
    case None => Successor(e, Republish)
  }

  /** How two events compare as successors of the same head. */
  function CompareAfter(env: Env, identity: Text, head: IdentityEvent, a: IdentityEvent, b: IdentityEvent): Ordering {
    CompareSuccessors(env, After(env, identity, head, a), After(env, identity, head, b))
  }

  /** `c` is at most `d` in the lexicographic order on chains, given that they agree before index `i`. The
      first difference decides, by signer at the genesis and as successors of the shared head later;
      an extension is above its prefix. */
  ghost predicate AtMost(env: Env, identity: Text, c: Chain, d: Chain, i: nat)
    decreases |c| - i
  {
    i < |c| ==>
      && i < |d|
      && (if c[i] == d[i] then AtMost(env, identity, c, d, i + 1)
          else if i == 0 then SignerOrder(c[0], d[0]) == Less
          else && JustifySuccession(env, identity, c[i - 1], c[i]).Some?
               && JustifySuccession(env, identity, c[i - 1], d[i]).Some?
               && CompareAfter(env, identity, c[i - 1], c[i], d[i]) == Less)
  }

  /** The order is antisymmetric: two chains each at most the other are equal. */
  lemma {:induction false} AtMostAntisymmetric(env: Env, identity: Text, c: Chain, d: Chain, i: nat)
    requires i <= |c| && i <= |d| && c[..i] == d[..i]
    requires AtMost(env, identity, c, d, i) && AtMost(env, identity, d, c, i)
    ensures c == d
    decreases |c| - i
  {
    if i == |c| || i == |d| {
      assert |c| == |d|;
      assert c == c[..i] && d == d[..i];
    } else if c[i] == d[i] {
      assert c[..i + 1] == c[..i] + [c[i]] && d[..i + 1] == d[..i] + [d[i]];
      AtMostAntisymmetric(env, identity, c, d, i + 1);
    } else if i == 0 {
      SignersOrdered(c[0].signer, d[0].signer, d[0].signer);
    } else {
      assert c[i - 1] == c[..i][i - 1] == d[i - 1];
      var head := c[i - 1];
      SuccessorsOrdered(env, After(env, identity, head, c[i]),
                        After(env, identity, head, d[i]),
                        After(env, identity, head, d[i]));
    }
  }

  // ----- the walk is locally greatest -----

  /** Every event of the chain beats its rivals, and nothing may follow the last one. */
  ghost predicate Greedy(env: Env, identity: Text, pool: set<IdentityEvent>, c: Chain) {
    && IsChain(env, identity, pool, c)
    && (forall e | e in pool && IsGenesis(env, identity, e) :: SignerOrder(e, c[0]) != Greater)
    && (forall i, e | 1 <= i < |c| && e in pool && MayFollow(env, identity, c[i - 1], e) ::
          CompareAfter(env, identity, c[i - 1], e, c[i]) != Greater)
    && (forall e | e in pool :: !MayFollow(env, identity, c[|c| - 1], e))
  }

  function Pool(events: seq<IdentityEvent>): set<IdentityEvent> {
    set e | e in events
  }

  /** The part of `Greedy` that holds of a walk in progress. */
  ghost predicate GreedySoFar(env: Env, identity: Text, pool: set<IdentityEvent>, c: Chain) {
    && IsChain(env, identity, pool, c)
    && (forall e | e in pool && IsGenesis(env, identity, e) :: SignerOrder(e, c[0]) != Greater)
    && (forall i, e | 1 <= i < |c| && e in pool && MayFollow(env, identity, c[i - 1], e) ::
          CompareAfter(env, identity, c[i - 1], e, c[i]) != Greater)
  }

  lemma {:induction false} BestSuccessor(env: Env, rivals: seq<Successor>, x: Successor)
    requires x in rivals
    ensures MaxBy(SuccessorOrder(env), rivals).Some?
    ensures CompareSuccessors(env, x, MaxBy(SuccessorOrder(env), rivals).value) != Greater
  {
    SuccessorsComparable(env);
    MaxByIsMaximal(SuccessorOrder(env), rivals);
  }

  lemma {:induction false} JustifiedIsRival(env: Env, identity: Text, head: IdentityEvent, atNext: seq<IdentityEvent>,
                                            e: IdentityEvent)
    requires e in atNext && JustifySuccession(env, identity, head, e).Some?
    ensures After(env, identity, head, e) in FilterMap(Justified(env, identity, head), atNext)
  {
    assert Justified(env, identity, head)(e) == Some(After(env, identity, head, e));
    FilterMapMembers(Justified(env, identity, head), atNext, After(env, identity, head, e));
  }

  lemma {:induction false} PickNextIsGreatest(env: Env, identity: Text, head: IdentityEvent, events: seq<IdentityEvent>,
                                              e: IdentityEvent)
    requires e in events && MayFollow(env, identity, head, e)
    ensures var next := PickNext(env, identity, head, AtSequence(events, head.sequence + 1));
      && next.Some? && MayFollow(env, identity, head, next.value.event)
      && CompareAfter(env, identity, head, e, next.value.event) != Greater
  {
    var atNext := AtSequence(events, head.sequence + 1);
    JustifiedIsRival(env, identity, head, atNext, e);
    BestSuccessor(env, FilterMap(Justified(env, identity, head), atNext), After(env, identity, head, e));
    PickNextIsMember(env, identity, head, events, head.sequence + 1);
  }

  lemma {:induction false} GreedyExtends(env: Env, identity: Text, pool: set<IdentityEvent>, c: Chain,
                                         next: IdentityEvent)
    requires GreedySoFar(env, identity, pool, c)
    requires next in pool && MayFollow(env, identity, c[|c| - 1], next)
    requires forall e | e in pool && MayFollow(env, identity, c[|c| - 1], e) ::
      CompareAfter(env, identity, c[|c| - 1], e, next) != Greater
    ensures GreedySoFar(env, identity, pool, c + [next])
  {
  }

  lemma {:induction false} WalkIsGreedy(env: Env, identity: Text, events: seq<IdentityEvent>, c: Chain)
    requires GreedySoFar(env, identity, Pool(events), c)
    ensures Greedy(env, identity, Pool(events), Walk(env, identity, events, c))
    ensures c <= Walk(env, identity, events, c)
    decreases LastSequence(events) - c[|c| - 1].sequence
  {
    var head := c[|c| - 1];
    var next := PickNext(env, identity, head, AtSequence(events, head.sequence + 1));
    WalkStep(env, identity, events, c, next);
    forall e | e in events && MayFollow(env, identity, head, e)
      ensures next.Some? && CompareAfter(env, identity, head, e, next.value.event) != Greater
    {
      PickNextIsGreatest(env, identity, head, events, e);
    }
    if next.Some? {
      PickNextIsMember(env, identity, head, events, head.sequence + 1);
      GreedyExtends(env, identity, Pool(events), c, next.value.event);
      WalkIsGreedy(env, identity, events, c + [next.value.event]);
    }
  }

  lemma {:induction false} PickGenesisIsGreatest(env: Env, identity: Text, events: seq<IdentityEvent>)
    ensures var g := PickGenesis(env, identity, AtSequence(events, 1));
      && (g.None? <==> forall e | e in events :: !IsGenesis(env, identity, e))
      && (g.Some? ==> g.value in events && IsGenesis(env, identity, g.value)
                      && forall e | e in events && IsGenesis(env, identity, e) :: SignerOrder(e, g.value) != Greater)
  {
    var valid := GenesisCandidates(env, identity, AtSequence(events, 1));
    assert forall e | e in events && IsGenesis(env, identity, e) :: e in valid;
    SignersComparable();
    MaxByIsMaximal(SignerOrder, valid);
    if valid != [] {
      assert IsGenesis(env, identity, valid[0]);
    }
  }

  /** The resolved chain is greedy over its candidates; without a genesis nothing resolves. */
  lemma {:induction false} ResolveIsGreedy(env: Env, identity: Text, events: seq<IdentityEvent>)
    ensures match Resolve(env, identity, events)
            case None => forall e | e in events :: !IsGenesis(env, identity, e)
            case Some(c) => Greedy(env, identity, Pool(events), c)
  {
    PickGenesisIsGreatest(env, identity, events);
    var g := PickGenesis(env, identity, AtSequence(events, 1));
    if g.Some? {
      WalkIsGreedy(env, identity, events, [g.value]);
    }
  }

  /** A chain starts with an event of sequence 1 whose own document lists its signer as a rotation key and has the
      identity as its document key; nothing resolves exactly when there is no such event. */
  lemma {:induction false} GenesisMeaning(env: Env, identity: Text, events: seq<IdentityEvent>)
    ensures match Resolve(env, identity, events)
            case None =>
              forall e | e in events && e.sequence == 1 ::
                !(env.documentKey(e.document) == identity && e.signer in e.document.rotationKeys)
            case Some(c) =>
              && c[0] in events && c[0].sequence == 1
              && env.documentKey(c[0].document) == identity && c[0].signer in c[0].document.rotationKeys
  {
    ResolveIsGreedy(env, identity, events);
    match Resolve(env, identity, events)
    case None =>
    case Some(c) =>
      assert c[0] in c && c[0] in Pool(events);
  }

  // ----- the walk is globally greatest -----

  /** Within the pool a document key names one document. */
  ghost predicate KeysIdentifyDocuments(env: Env, pool: set<IdentityEvent>) {
    forall a, b | a in pool && b in pool && env.documentKey(a.document) == env.documentKey(b.document) ::
      a.document == b.document
  }

  /** Ties between different events are impossible. */
  lemma {:induction false} NoTies(env: Env, identity: Text, pool: set<IdentityEvent>, head: IdentityEvent,
                                  a: IdentityEvent, b: IdentityEvent)
    requires KeysIdentifyDocuments(env, pool) && a in pool && b in pool && a.sequence == b.sequence
    ensures IsGenesis(env, identity, a) && IsGenesis(env, identity, b) && SignerOrder(a, b) == Equal ==> a == b
    ensures CompareAfter(env, identity, head, a, b) == Equal ==> a == b
  {
    SignersOrdered(a.signer, b.signer, b.signer);
    SuccessorsOrdered(env, After(env, identity, head, a), After(env, identity, head, b), After(env, identity, head, b));
  }

  /** Every justified chain is at most the greedy one. */
  lemma {:induction false} GreedyIsGreatest(env: Env, identity: Text, pool: set<IdentityEvent>, c: Chain, r: Chain,
                                            i: nat)
    requires IsChain(env, identity, pool, c) && Greedy(env, identity, pool, r)
    requires KeysIdentifyDocuments(env, pool)
    requires i <= |c| && i <= |r| && c[..i] == r[..i]
    ensures AtMost(env, identity, c, r, i)
    decreases |c| - i
  {
    if i < |c| {
      if i == 0 {
        GenesisAtMost(env, identity, pool, c, r);
      } else {
        assert c[i - 1] == c[..i][i - 1] == r[i - 1];
        SuccessorAtMost(env, identity, pool, c, r, i);
      }
      if c[i] == r[i] {
        assert c[..i + 1] == c[..i] + [c[i]] && r[..i + 1] == r[..i] + [r[i]];
        GreedyIsGreatest(env, identity, pool, c, r, i + 1);
      }
    }
  }

  lemma {:induction false} GenesisAtMost(env: Env, identity: Text, pool: set<IdentityEvent>, c: Chain, r: Chain)
    requires IsChain(env, identity, pool, c) && Greedy(env, identity, pool, r) && KeysIdentifyDocuments(env, pool)
    ensures c[0] == r[0] || SignerOrder(c[0], r[0]) == Less
  {
    assert c[0] in c && r[0] in r;
    NoTies(env, identity, pool, c[0], c[0], r[0]);
  }

  lemma {:induction false} SuccessorAtMost(env: Env, identity: Text, pool: set<IdentityEvent>, c: Chain, r: Chain,
                                           i: nat)
    requires IsChain(env, identity, pool, c) && Greedy(env, identity, pool, r) && KeysIdentifyDocuments(env, pool)
    requires 1 <= i < |c| && i <= |r| && c[i - 1] == r[i - 1]
    ensures i < |r| && JustifySuccession(env, identity, c[i - 1], c[i]).Some?
    ensures JustifySuccession(env, identity, c[i - 1], r[i]).Some?
    ensures c[i] == r[i] || CompareAfter(env, identity, c[i - 1], c[i], r[i]) == Less
  {
    assert c[i] in c && MayFollow(env, identity, r[i - 1], c[i]);
    assert i < |r| && r[i] in r;
    assert MayFollow(env, identity, r[i - 1], r[i]);
    NoTies(env, identity, pool, r[i - 1], c[i], r[i]);
  }

  lemma {:induction false} NoGenesisNoChain(env: Env, identity: Text, pool: set<IdentityEvent>, r: Chain)
    requires forall e | e in pool :: !IsGenesis(env, identity, e)
    ensures !IsChain(env, identity, pool, r)
  {
    assert r != [] ==> r[0] in r;
  }

  /** The specification: `r` is justified over the pool and every justified chain is at most `r`. */
  ghost predicate IsGreatestChain(env: Env, identity: Text, pool: set<IdentityEvent>, r: Chain) {
    && IsChain(env, identity, pool, r)
    && forall c | IsChain(env, identity, pool, c) :: AtMost(env, identity, c, r, 0)
  }

  /** Resolution returns a chain exactly when it is the greatest justified chain over the candidates. */
  lemma {:induction false} ResolveIsGreatestChain(env: Env, identity: Text, events: seq<IdentityEvent>, r: Chain)
    requires KeysIdentifyDocuments(env, Pool(events))
    ensures Resolve(env, identity, events) == Some(r) <==> IsGreatestChain(env, identity, Pool(events), r)
  {
    ResolveIsGreedy(env, identity, events);
    var pool := Pool(events);
    match Resolve(env, identity, events)
    case None =>
      NoGenesisNoChain(env, identity, pool, r);
    case Some(best) =>
      forall c | IsChain(env, identity, pool, c) ensures AtMost(env, identity, c, best, 0) {
        GreedyIsGreatest(env, identity, pool, c, best, 0);
      }
      if IsGreatestChain(env, identity, pool, r) {
        AtMostAntisymmetric(env, identity, best, r, 0);
      }
  }

  /** Only the set of candidates matters: neither order nor duplicates change the result. */
  lemma {:induction false} ResolveIgnoresOrderAndDuplicates(env: Env, identity: Text, events: seq<IdentityEvent>,
                                                            events': seq<IdentityEvent>)
    requires Pool(events) == Pool(events') && KeysIdentifyDocuments(env, Pool(events))
    ensures Resolve(env, identity, events) == Resolve(env, identity, events')
  {
    match Resolve(env, identity, events) {
      case Some(r) =>
        ResolveIsGreatestChain(env, identity, events, r);
        ResolveIsGreatestChain(env, identity, events', r);
      case None =>
        match Resolve(env, identity, events')
        case None =>
        case Some(r) =>
          ResolveIsGreatestChain(env, identity, events, r);
          ResolveIsGreatestChain(env, identity, events', r);
    }
  }

  /** More candidates never move the result down. */
  lemma {:induction false} ResolveMovesUp(env: Env, identity: Text, events: seq<IdentityEvent>,
                                          events': seq<IdentityEvent>)
    requires Pool(events) <= Pool(events') && KeysIdentifyDocuments(env, Pool(events'))
    requires Resolve(env, identity, events).Some?
    ensures Resolve(env, identity, events').Some?
    ensures AtMost(env, identity, Resolve(env, identity, events).value, Resolve(env, identity, events').value, 0)
  {
    var r := Resolve(env, identity, events).value;
    ResolveIsGreedy(env, identity, events);
    ResolveIsGreedy(env, identity, events');
    assert IsChain(env, identity, Pool(events'), r);
    assert r[0] in Pool(events');
    ResolveIsGreatestChain(env, identity, events', Resolve(env, identity, events').value);
  }

  lemma {:induction false} GreedyUnique(env: Env, identity: Text, pool: set<IdentityEvent>, c: Chain, d: Chain)
    requires Greedy(env, identity, pool, c) && Greedy(env, identity, pool, d) && KeysIdentifyDocuments(env, pool)
    ensures c == d
  {
    GreedyIsGreatest(env, identity, pool, c, d, 0);
    GreedyIsGreatest(env, identity, pool, d, c, 0);
    AtMostAntisymmetric(env, identity, c, d, 0);
  }

  // ----- adding one candidate -----

  /** `e` is justified where it would stand in `r`, and nothing in `r` holds that place against it. */
  ghost predicate Displaces(env: Env, identity: Text, r: Chain, e: IdentityEvent)
    requires r != []
  {
    || (IsGenesis(env, identity, e) && SignerOrder(e, r[0]) == Greater)
    || MayFollow(env, identity, r[|r| - 1], e)
    || exists i :: 1 <= i < |r| && MayFollow(env, identity, r[i - 1], e) && MayFollow(env, identity, r[i - 1], r[i])
                   && CompareAfter(env, identity, r[i - 1], e, r[i]) == Greater
  }

  lemma {:induction false} GreedySurvives(env: Env, identity: Text, pool: set<IdentityEvent>, r: Chain,
                                          e: IdentityEvent)
    requires Greedy(env, identity, pool, r)
    ensures Greedy(env, identity, pool + {e}, r) <==> !Displaces(env, identity, r, e)
  {
    assert forall x | x in r :: x in pool + {e};
    assert forall i | 1 <= i < |r| :: MayFollow(env, identity, r[i - 1], r[i]);
    if Greedy(env, identity, pool + {e}, r) {
      assert e in pool + {e};
    }
  }

  /** Non-interference, exactly: a new candidate leaves the resolved chain as it is if and only if it does
      not displace an event of the chain or extend it. An unjustified candidate never does. */
  lemma {:induction false} AddingCandidate(env: Env, identity: Text, events: seq<IdentityEvent>, e: IdentityEvent)
    requires KeysIdentifyDocuments(env, Pool(events + [e]))
    requires Resolve(env, identity, events).Some?
    ensures Resolve(env, identity, events + [e]) == Resolve(env, identity, events)
            <==> !Displaces(env, identity, Resolve(env, identity, events).value, e)
  {
    var r := Resolve(env, identity, events).value;
    var pool := Pool(events + [e]);
    assert pool == Pool(events) + {e};
    ResolveIsGreedy(env, identity, events);
    ResolveIsGreedy(env, identity, events + [e]);
    GreedySurvives(env, identity, Pool(events), r, e);
    if !Displaces(env, identity, r, e) {
      assert r[0] in pool;
      GreedyUnique(env, identity, pool, r, Resolve(env, identity, events + [e]).value);
    }
  }

  /** Progress: an event that may follow the head becomes the next event of the chain. */
  lemma {:induction false} AddingSuccessor(env: Env, identity: Text, events: seq<IdentityEvent>, e: IdentityEvent)
    requires KeysIdentifyDocuments(env, Pool(events + [e]))
    requires Resolve(env, identity, events).Some?
    requires var r := Resolve(env, identity, events).value; r != [] && MayFollow(env, identity, r[|r| - 1], e)
    ensures Resolve(env, identity, events + [e]).Some?
    ensures Resolve(env, identity, events).value + [e] <= Resolve(env, identity, events + [e]).value
  {
    var r := Resolve(env, identity, events).value;
    var pool := Pool(events + [e]);
    assert pool == Pool(events) + {e};
    ResolveIsGreedy(env, identity, events);
    ResolveIsGreedy(env, identity, events + [e]);
    assert r[0] in pool;
    ExtendedIsGreedySoFar(env, identity, Pool(events), r, e);
    WalkIsGreedy(env, identity, events + [e], r + [e]);
    GreedyUnique(env, identity, pool, Walk(env, identity, events + [e], r + [e]),
                 Resolve(env, identity, events + [e]).value);
  }

  lemma {:induction false} ExtendedIsGreedySoFar(env: Env, identity: Text, pool: set<IdentityEvent>, r: Chain,
                                                 e: IdentityEvent)
    requires Greedy(env, identity, pool, r) && MayFollow(env, identity, r[|r| - 1], e)
    ensures GreedySoFar(env, identity, pool + {e}, r + [e])
  {
    var c := r + [e];
    forall x | x in c ensures x in pool + {e} {}
    ChainSequence(env, identity, pool, r, |r| - 1);
    var mine := After(env, identity, r[|r| - 1], e);
    SuccessorsOrdered(env, mine, mine, mine);
    forall i, x | 1 <= i < |c| && x in pool + {e} && MayFollow(env, identity, c[i - 1], x)
      ensures CompareAfter(env, identity, c[i - 1], x, c[i]) != Greater
    {
      if i < |r| && x == e {
        ChainSequence(env, identity, pool, r, i - 1);
      }
    }
  }

  // ----- authority -----

  /** A key of the predecessor document signed the step, or its recovery key vouched for the signer. */
  predicate Authorized(env: Env, identity: Text, head: IdentityEvent, e: IdentityEvent) {
    AuthorizesRotation(head.document, e.signer) || Vouched(env, identity, head, e)
  }

  lemma {:induction false} StepNeedsAuthority(env: Env, identity: Text, head: IdentityEvent, e: IdentityEvent)
    requires JustifySuccession(env, identity, head, e).Some?
    ensures Authorized(env, identity, head, e)
      || (AuthorizesSigner(head.document, e.signer)
          && head.document == e.document.(recoverySignature := head.document.recoverySignature))
  {
    SuccessionMeaning(env, identity, head, e);
  }

  /** Conservation of authority along a chain: if keys, revocation bounds, servers or recovery key differ
      between two places, some step in between was signed by a rotation key of its predecessor or
      vouched for by its predecessor's recovery key. */
  lemma {:induction false} ChangeNeedsAuthority(env: Env, identity: Text, pool: set<IdentityEvent>, c: Chain, i: nat,
                                                j: nat)
    requires IsChain(env, identity, pool, c) && i <= j < |c|
    requires c[i].document != c[j].document.(recoverySignature := c[i].document.recoverySignature)
    ensures exists k :: i < k <= j && Authorized(env, identity, c[k - 1], c[k])
    decreases j - i
  {
    assert i < j;
    assert MayFollow(env, identity, c[j - 1], c[j]);
    StepNeedsAuthority(env, identity, c[j - 1], c[j]);
    if !Authorized(env, identity, c[j - 1], c[j]) {
      ChangeNeedsAuthority(env, identity, pool, c, i, j - 1);
    }
  }

  /** A rotation is never swallowed: where a rotation key of the head has published a successor, the
      resolved chain continues with a rotation. */
  lemma {:induction false} RotationWins(env: Env, identity: Text, pool: set<IdentityEvent>, c: Chain, i: nat,
                                        e: IdentityEvent)
    requires Greedy(env, identity, pool, c) && 1 <= i <= |c|
    requires e in pool && e.sequence == c[i - 1].sequence + 1 && AuthorizesRotation(c[i - 1].document, e.signer)
    ensures i < |c| && AuthorizesRotation(c[i - 1].document, c[i].signer)
  {
    assert MayFollow(env, identity, c[i - 1], e);
    assert i < |c|;
    assert MayFollow(env, identity, c[i - 1], c[i]);
    assert CompareAfter(env, identity, c[i - 1], e, c[i]) != Greater;
  }

  /** Nor is a recovery: where the head's recovery key has vouched for a rotation key of a new document, the resolved
      chain continues with a rotation or a recovery. */
  lemma {:induction false} RecoveryWins(env: Env, identity: Text, pool: set<IdentityEvent>, c: Chain, i: nat,
                                        e: IdentityEvent)
    requires Greedy(env, identity, pool, c) && 1 <= i <= |c|
    requires e in pool && e.sequence == c[i - 1].sequence + 1 && Vouched(env, identity, c[i - 1], e)
    requires e.document != c[i - 1].document.(recoverySignature := e.document.recoverySignature)
    ensures i < |c| && Authorized(env, identity, c[i - 1], c[i])
  {
    SuccessionMeaning(env, identity, c[i - 1], e);
    assert MayFollow(env, identity, c[i - 1], e);
    assert i < |c|;
    SuccessionMeaning(env, identity, c[i - 1], c[i]);
    assert MayFollow(env, identity, c[i - 1], c[i]);
    assert CompareAfter(env, identity, c[i - 1], e, c[i]) != Greater;
  }

  /** Among candidates for one place that have the same reason, the chain takes one with the greatest key, and among
      those one with the greatest document key. The genesis has the greatest key. */
  lemma {:induction false} TiesBreakUpwards(env: Env, identity: Text, pool: set<IdentityEvent>, c: Chain, i: nat,
                                            e: IdentityEvent)
    requires Greedy(env, identity, pool, c) && i < |c| && e in pool
    requires if i == 0 then IsGenesis(env, identity, e)
             else e.sequence == c[i - 1].sequence + 1
                  && JustifySuccession(env, identity, c[i - 1], e).Some?
                  && JustifySuccession(env, identity, c[i - 1], e) == JustifySuccession(env, identity, c[i - 1], c[i])
    ensures e.signer == c[i].signer || KeyBefore(e.signer, c[i].signer)
    ensures i > 0 && e.signer == c[i].signer ==>
              !BytesBefore(env.documentKey(c[i].document), env.documentKey(e.document))
  {
    SignersMeaning(e.signer, c[i].signer);
    SignersOrdered(e.signer, c[i].signer, c[i].signer);
    if i == 0 {
      assert SignerOrder(e, c[0]) != Greater;
    } else {
      assert MayFollow(env, identity, c[i - 1], c[i]);
      assert CompareAfter(env, identity, c[i - 1], e, c[i]) != Greater;
      CompareSeqMeaning(env.documentKey(c[i].document), env.documentKey(e.document));
      CompareSeqOrder(env.documentKey(c[i].document), env.documentKey(e.document), []);
    }
  }

  /** By key type and then by key bytes. */
  ghost predicate KeyBefore(a: PublicKey, b: PublicKey) {
    a.keyType < b.keyType || (a.keyType == b.keyType && BytesBefore(a.key, b.key))
  }

  lemma {:induction false} SignersMeaning(a: PublicKey, b: PublicKey)
    ensures CompareSigners(a, b) != Greater <==> a == b || KeyBefore(a, b)
  {
    ComparisonMeaning(EventKey([], 0, a, 0), EventKey([], 0, b, 0));
    SignersOrdered(a, b, b);
  }
}
