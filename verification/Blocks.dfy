/**
 Filtering a merged list of bundles by the blocked identities, with a cascade from a dropped
 post to its replies.
 */
module Blocks {
  import opened Primitives
  import opened Model
  import opened Validation

  function Author(env: Env, b: EventBundle): Option<Text> {
    match b.signedEvent
    case None => None
    case Some(signed) =>
      match env.decodeEvent(signed.eventBytes)
      case None => None
      case Some(event) => if event.key.None? then None else Some(event.key.value.identity)
  }

  /** The key a bundle is deduplicated by. */
  function DedupKey(env: Env, b: EventBundle): Option<EventKey> {
    match b.signedEvent
    case None => None
    case Some(signed) => KeyOfSigned(env, signed)
  }

  function ReplyParent(env: Env, b: EventBundle): Option<EventKey> {
    match BodyOf(env, b)
    case Some(PostBody(Some(parent))) => ToEventKey(parent)
    case _ => None
  }

  predicate IsBlockedAuthor(env: Env, blocked: set<Text>, b: EventBundle) {
    var author := Author(env, b);
    author.Some? && author.value in blocked
  }

  predicate RepostsBlockedTarget(env: Env, blocked: set<Text>, b: EventBundle) {
    match BodyOf(env, b)
    case Some(RepostBody(Some(post))) => post.identity in blocked
    case _ => false
  }

  predicate IsBlockedBundle(env: Env, blocked: set<Text>, b: EventBundle) {
    IsBlockedAuthor(env, blocked, b) || RepostsBlockedTarget(env, blocked, b)
  }

  /** Whether the cascade takes a bundle once the keys in `dropped` are gone. */
  predicate Falls(env: Env, blocked: set<Text>, cascade: bool, dropped: set<EventKey>, b: EventBundle) {
    var parent := ReplyParent(env, b);
    || IsBlockedBundle(env, blocked, b)
    || (cascade && parent.Some? && (parent.value.identity in blocked || parent.value in dropped))
  }

  // ----- what the parts mean -----

  ghost predicate HasEvent(env: Env, b: EventBundle, event: Event) {
    b.signedEvent.Some? && env.decodeEvent(b.signedEvent.value.eventBytes) == Some(event)
  }

  ghost predicate HasBody(env: Env, b: EventBundle, body: ContentBody) {
    b.serializedContent.Some? && env.decodeContent(b.serializedContent.value) == Some(Content(Some(body)))
  }

  /** Written under a blocked identity, or a repost of a post of one. */
  ghost predicate BlockedOutright(env: Env, blocked: set<Text>, b: EventBundle) {
    || (exists event :: HasEvent(env, b, event) && event.key.Some? && event.key.value.identity in blocked)
    || (exists post :: HasBody(env, b, RepostBody(Some(post))) && post.identity in blocked)
  }

  /** A post that replies to `parent`, whose signer is given. */
  ghost predicate RepliesTo(env: Env, b: EventBundle, parent: WireKey) {
    HasBody(env, b, PostBody(Some(parent))) && parent.signedBy.Some?
  }

  /** A post that replies to the event of `c`. */
  ghost predicate Answers(env: Env, b: EventBundle, c: EventBundle) {
    exists parent :: RepliesTo(env, b, parent) && exists event :: HasEvent(env, c, event) && event.key == Some(parent)
  }

  /** What takes a bundle: it is blocked outright, or the cascade finds that it replies to a blocked identity or to a
      dropped key. */
  lemma {:induction false} FallsMeaning(env: Env, blocked: set<Text>, cascade: bool, dropped: set<EventKey>,
                                        b: EventBundle)
    ensures Falls(env, blocked, cascade, dropped, b)
       <==> BlockedOutright(env, blocked, b)
            || (cascade && exists parent :: RepliesTo(env, b, parent)
                             && (parent.identity in blocked
                                 || EventKey(parent.identity, parent.collection, parent.signedBy.value,
                                             parent.sequence) in dropped))
  {
    BlockedMeaning(env, blocked, b);
    ReplyMeaning(env, b);
  }

  lemma {:induction false} BlockedMeaning(env: Env, blocked: set<Text>, b: EventBundle)
    ensures IsBlockedBundle(env, blocked, b) <==> BlockedOutright(env, blocked, b)
  {
    if IsBlockedAuthor(env, blocked, b) {
      assert HasEvent(env, b, env.decodeEvent(b.signedEvent.value.eventBytes).value);
    }
    if RepostsBlockedTarget(env, blocked, b) {
      assert HasBody(env, b, BodyOf(env, b).value);
    }
  }

  lemma {:induction false} ReplyMeaning(env: Env, b: EventBundle)
    ensures forall parent | RepliesTo(env, b, parent) :: ReplyParent(env, b) == ToEventKey(parent) != None
    ensures ReplyParent(env, b).Some? ==> exists parent :: RepliesTo(env, b, parent)
  {
    match BodyOf(env, b)
    case Some(PostBody(Some(parent))) =>
      assert HasBody(env, b, PostBody(Some(parent)));
      assert parent.signedBy.Some? ==> RepliesTo(env, b, parent);
    case _ =>
  }

  lemma {:induction false} AnswersMeaning(env: Env, b: EventBundle, c: EventBundle)
    ensures Answers(env, b, c) <==> ReplyParent(env, b).Some? && ReplyParent(env, b) == DedupKey(env, c)
  {
    ReplyMeaning(env, b);
    if ReplyParent(env, b).Some? && ReplyParent(env, b) == DedupKey(env, c) {
      var parent :| RepliesTo(env, b, parent);
      var event := env.decodeEvent(c.signedEvent.value.eventBytes).value;
      assert HasEvent(env, c, event) && event.key == Some(parent);
    }
  }

  // ----- what is hidden, declaratively -----

  /** A reply chain in the list: each bundle answers the event before it, and the first is blocked outright
      or answers a blocked identity. */
  ghost predicate HidingChain(env: Env, blocked: set<Text>, cascade: bool, bundles: seq<EventBundle>,
                              chain: seq<EventBundle>) {
    && chain != []
    && (forall b | b in chain :: b in bundles)
    && Falls(env, blocked, cascade, {}, chain[0])
    && (|chain| > 1 ==> cascade)
    && forall i | 0 < i < |chain| ::
         ReplyParent(env, chain[i]).Some? && ReplyParent(env, chain[i]) == DedupKey(env, chain[i - 1])
  }

  ghost predicate Hidden(env: Env, blocked: set<Text>, cascade: bool, bundles: seq<EventBundle>, b: EventBundle) {
    exists chain :: HidingChain(env, blocked, cascade, bundles, chain) && chain[|chain| - 1] == b
  }

  /** The first bundle of a reply chain is blocked outright, or the cascade finds a reply to a blocked identity. */
  ghost predicate StartsHidden(env: Env, blocked: set<Text>, cascade: bool, b: EventBundle) {
    || BlockedOutright(env, blocked, b)
    || (cascade && exists parent :: RepliesTo(env, b, parent) && parent.identity in blocked)
  }

  lemma {:induction false} StartMeaning(env: Env, blocked: set<Text>, cascade: bool, b: EventBundle)
    ensures Falls(env, blocked, cascade, {}, b) <==> StartsHidden(env, blocked, cascade, b)
  {
    FallsMeaning(env, blocked, cascade, {}, b);
  }

  /** A hiding chain in terms of what events and contents say. */
  lemma {:induction false} HidingChainMeaning(env: Env, blocked: set<Text>, cascade: bool, bundles: seq<EventBundle>,
                                              chain: seq<EventBundle>)
    requires chain != []
    ensures HidingChain(env, blocked, cascade, bundles, chain)
       <==> (forall b | b in chain :: b in bundles) && StartsHidden(env, blocked, cascade, chain[0])
            && (|chain| > 1 ==> cascade)
            && (forall i | 0 < i < |chain| :: Answers(env, chain[i], chain[i - 1]))
  {
    StartMeaning(env, blocked, cascade, chain[0]);
    forall i | 0 < i < |chain|
      ensures Answers(env, chain[i], chain[i - 1])
         <==> ReplyParent(env, chain[i]).Some? && ReplyParent(env, chain[i]) == DedupKey(env, chain[i - 1])
    {
      AnswersMeaning(env, chain[i], chain[i - 1]);
    }
    if forall i | 0 < i < |chain| :: Answers(env, chain[i], chain[i - 1]) {
      forall i | 0 < i < |chain|
        ensures ReplyParent(env, chain[i]).Some? && ReplyParent(env, chain[i]) == DedupKey(env, chain[i - 1])
      {
        assert Answers(env, chain[i], chain[i - 1]);
      }
    }
    assert Falls(env, blocked, cascade, {}, chain[0]) <==> StartsHidden(env, blocked, cascade, chain[0]);
  }

  lemma {:induction false} ChainFalls(env: Env, blocked: set<Text>, cascade: bool, bundles: seq<EventBundle>,
                                      gone: set<EventBundle>, dropped: set<EventKey>, chain: seq<EventBundle>)
    requires forall b | b in bundles && Falls(env, blocked, cascade, dropped, b) :: b in gone
    requires dropped == KeysOf(env, gone)
    requires HidingChain(env, blocked, cascade, bundles, chain)
    ensures chain[|chain| - 1] in gone
    decreases |chain|
  {
    var last := chain[|chain| - 1];
    if |chain| > 1 {
      var front := chain[..|chain| - 1];
      ChainFalls(env, blocked, cascade, bundles, gone, dropped, front);
      assert front[|front| - 1] == chain[|chain| - 2];
      assert ReplyParent(env, last) == DedupKey(env, chain[|chain| - 2]);
    }
  }

  lemma {:induction false} FallsExtends(env: Env, blocked: set<Text>, cascade: bool, bundles: seq<EventBundle>,
                                        dropped: set<EventKey>, b: EventBundle)
    requires b in bundles && Falls(env, blocked, cascade, dropped, b)
    requires forall k | k in dropped ::
               exists d :: Hidden(env, blocked, cascade, bundles, d) && DedupKey(env, d) == Some(k)
    ensures Hidden(env, blocked, cascade, bundles, b)
  {
    if Falls(env, blocked, cascade, {}, b) {
      var chain := [b];
      assert HidingChain(env, blocked, cascade, bundles, chain);
    } else {
      var d :| Hidden(env, blocked, cascade, bundles, d) && DedupKey(env, d) == Some(ReplyParent(env, b).value);
      var chain :| HidingChain(env, blocked, cascade, bundles, chain) && chain[|chain| - 1] == d;
      var longer := chain + [b];
      assert longer[|longer| - 1] == b;
      assert HidingChain(env, blocked, cascade, bundles, longer);
    }
  }

  // ----- the retain loop -----

  ghost function Shown(env: Env, blocked: set<Text>, cascade: bool, bundles: seq<EventBundle>): EventBundle -> bool {
    (b: EventBundle) => !Hidden(env, blocked, cascade, bundles, b)
  }

  function KeysOf(env: Env, bundles: set<EventBundle>): set<EventKey> {
    set b | b in bundles && DedupKey(env, b).Some? :: DedupKey(env, b).value
  }

  /** Whatever is gone is hidden, still falls, and has its key among the dropped ones. */
  ghost predicate GoneIsHidden(env: Env, blocked: set<Text>, cascade: bool, bundles: seq<EventBundle>,
                               dropped: set<EventKey>, gone: set<EventBundle>)
  {
    && (forall b | b in gone :: Hidden(env, blocked, cascade, bundles, b) && Falls(env, blocked, cascade, dropped, b))
    && dropped == KeysOf(env, gone)
  }

  /** What holds while the loop shrinks `bundles` to `kept`. */
  ghost predicate Cascading(env: Env, blocked: set<Text>, cascade: bool, bundles: seq<EventBundle>,
                            kept: seq<EventBundle>, dropped: set<EventKey>, gone: set<EventBundle>)
  {
    && GoneIsHidden(env, blocked, cascade, bundles, dropped, gone)
    && (forall b | b in bundles :: b in kept || b in gone)
    && (forall b | b in kept :: b in bundles)
    && Filter(Shown(env, blocked, cascade, bundles), kept) == Filter(Shown(env, blocked, cascade, bundles), bundles)
  }

  function Drop(env: Env, dropped: set<EventKey>, b: EventBundle): set<EventKey> {
    match DedupKey(env, b)
    case None => dropped
    case Some(key) => dropped + {key}
  }

  lemma {:induction false} FilterConcat<T(!new)>(p: T -> bool, s: seq<T>, t: seq<T>)
    ensures Filter(p, s + t) == Filter(p, s) + Filter(p, t)
  {
    if s == [] {
      assert s + t == t;
    } else {
      assert (s + t)[1..] == s[1..] + t;
      FilterConcat(p, s[1..], t);
    }
  }

  lemma {:induction false} FilterAll<T(!new)>(p: T -> bool, s: seq<T>)
    requires forall x | x in s :: p(x)
    ensures Filter(p, s) == s
  {
    if s != [] {
      assert s == [s[0]] + s[1..];
      FilterAll(p, s[1..]);
    }
  }

  lemma {:induction false} FilterWithout<T(!new)>(p: T -> bool, s: seq<T>, x: T, t: seq<T>)
    requires !p(x)
    ensures Filter(p, s + [x] + t) == Filter(p, s + t)
  {
    FilterConcat(p, s + [x], t);
    FilterConcat(p, s, [x]);
    FilterConcat(p, s, t);
  }

  lemma {:induction false} DropHidden(env: Env, blocked: set<Text>, cascade: bool, bundles: seq<EventBundle>,
                                      b: EventBundle, dropped: set<EventKey>, gone: set<EventBundle>)
    requires GoneIsHidden(env, blocked, cascade, bundles, dropped, gone)
    requires b in bundles && Falls(env, blocked, cascade, dropped, b)
    ensures Hidden(env, blocked, cascade, bundles, b)
    ensures GoneIsHidden(env, blocked, cascade, bundles, Drop(env, dropped, b), gone + {b})
  {
    FallsExtends(env, blocked, cascade, bundles, dropped, b);
  }

  lemma {:induction false} DropOne(env: Env, blocked: set<Text>, cascade: bool, bundles: seq<EventBundle>,
                                   out: seq<EventBundle>, b: EventBundle, rest: seq<EventBundle>,
                                   dropped: set<EventKey>, gone: set<EventBundle>)
    requires Cascading(env, blocked, cascade, bundles, out + [b] + rest, dropped, gone)
    requires Falls(env, blocked, cascade, dropped, b)
    ensures Cascading(env, blocked, cascade, bundles, out + rest, Drop(env, dropped, b), gone + {b})
  {
    assert b in out + [b] + rest;
    DropHidden(env, blocked, cascade, bundles, b, dropped, gone);
    FilterWithout(Shown(env, blocked, cascade, bundles), out, b, rest);
  }

  /** One pass of `retain`: a bundle that falls leaves at once, and its key takes part in the rest of the pass. */
  function Pass(env: Env, blocked: set<Text>, cascade: bool, list: seq<EventBundle>,
                dropped: set<EventKey>): (seq<EventBundle>, set<EventKey>)
    decreases |list|
  {
    if list == [] then ([], dropped)
    else if Falls(env, blocked, cascade, dropped, list[0]) then
      Pass(env, blocked, cascade, list[1..], Drop(env, dropped, list[0]))
    else
      var (kept, dropped') := Pass(env, blocked, cascade, list[1..], dropped);
      ([list[0]] + kept, dropped')
  }

  /** A pass that drops nothing found nothing that falls. */
  lemma {:induction false} QuietPass(env: Env, blocked: set<Text>, cascade: bool, list: seq<EventBundle>,
                                     dropped: set<EventKey>)
    ensures |Pass(env, blocked, cascade, list, dropped).0| <= |list|
    ensures |Pass(env, blocked, cascade, list, dropped).0| == |list| ==>
              && Pass(env, blocked, cascade, list, dropped) == (list, dropped)
              && forall b | b in list :: !Falls(env, blocked, cascade, dropped, b)
    decreases |list|
  {
    if list != [] {
      assert list == [list[0]] + list[1..];
      QuietPass(env, blocked, cascade, list[1..], dropped);
      QuietPass(env, blocked, cascade, list[1..], Drop(env, dropped, list[0]));
    }
  }

  type Invariant = (seq<EventBundle>, set<EventKey>, set<EventBundle>) -> bool

  /** Dropping one bundle that falls keeps the invariant. */
  ghost predicate KeptByDrops(env: Env, blocked: set<Text>, cascade: bool, inv: Invariant) {
    forall out, b, rest, dropped, gone
      | inv(out + [b] + rest, dropped, gone) && Falls(env, blocked, cascade, dropped, b) ::
      inv(out + rest, Drop(env, dropped, b), gone + {b})
  }

  /** What every drop keeps, every pass keeps. */
  lemma {:induction false} PassKeeps(env: Env, blocked: set<Text>, cascade: bool, inv: Invariant, out: seq<EventBundle>,
                                     list: seq<EventBundle>, dropped: set<EventKey>, gone: set<EventBundle>)
    returns (gone': set<EventBundle>)
    requires KeptByDrops(env, blocked, cascade, inv) && inv(out + list, dropped, gone)
    ensures inv(out + Pass(env, blocked, cascade, list, dropped).0, Pass(env, blocked, cascade, list, dropped).1, gone')
    decreases |list|
  {
    if list == [] {
      gone' := gone;
    } else {
      var b, rest := list[0], list[1..];
      assert out + list == out + [b] + rest;
      if Falls(env, blocked, cascade, dropped, b) {
        gone' := PassKeeps(env, blocked, cascade, inv, out, rest, Drop(env, dropped, b), gone + {b});
      } else {
        gone' := PassKeeps(env, blocked, cascade, inv, out + [b], rest, dropped, gone);
        var kept := Pass(env, blocked, cascade, rest, dropped).0;
        assert out + [b] + kept == out + ([b] + kept);
      }
    }
  }

  lemma {:induction false} PassCascades(env: Env, blocked: set<Text>, cascade: bool, bundles: seq<EventBundle>,
                                        list: seq<EventBundle>, dropped: set<EventKey>, gone: set<EventBundle>)
    returns (gone': set<EventBundle>)
    requires Cascading(env, blocked, cascade, bundles, list, dropped, gone)
    ensures Cascading(env, blocked, cascade, bundles, Pass(env, blocked, cascade, list, dropped).0,
                      Pass(env, blocked, cascade, list, dropped).1, gone')
  {
    var inv: Invariant := (kept, d, g) => Cascading(env, blocked, cascade, bundles, kept, d, g);
    forall out, b, rest, d, g | inv(out + [b] + rest, d, g) && Falls(env, blocked, cascade, d, b)
      ensures inv(out + rest, Drop(env, d, b), g + {b})
    {
      DropOne(env, blocked, cascade, bundles, out, b, rest, d, g);
    }
    assert [] + list == list;
    gone' := PassKeeps(env, blocked, cascade, inv, [], list, dropped, gone);
    var kept := Pass(env, blocked, cascade, list, dropped).0;
    assert [] + kept == kept;
  }

  /** The closure that `retain` calls on each bundle. */
  method Retains(env: Env, blocked: set<Text>, cascade: bool, b: EventBundle, dropped: set<EventKey>)
    returns (keep: bool, dropped': set<EventKey>)
    ensures keep <==> !Falls(env, blocked, cascade, dropped, b)
    ensures dropped' == if keep then dropped else Drop(env, dropped, b)
  {
    var parent := ReplyParent(env, b);
    var cascades := cascade && parent.Some? && (parent.value.identity in blocked || parent.value in dropped);
    if IsBlockedAuthor(env, blocked, b) || RepostsBlockedTarget(env, blocked, b) || cascades {
      return false, Drop(env, dropped, b);
    }
    return true, dropped;
  }

  method RetainPass(env: Env, blocked: set<Text>, cascade: bool, list: seq<EventBundle>, dropped: set<EventKey>)
    returns (kept: seq<EventBundle>, dropped': set<EventKey>)
    ensures (kept, dropped') == Pass(env, blocked, cascade, list, dropped)
  {
    kept, dropped' := [], dropped;
    ghost var all := Pass(env, blocked, cascade, list, dropped);
    assert list[0..] == list && [] + all.0 == all.0;
    for i := 0 to |list|
      invariant kept + Pass(env, blocked, cascade, list[i..], dropped').0 == all.0
      invariant Pass(env, blocked, cascade, list[i..], dropped').1 == all.1
    {
      assert list[i..][1..] == list[i + 1..];
      ghost var rest := Pass(env, blocked, cascade, list[i + 1..], dropped').0;
      var keep;
      keep, dropped' := Retains(env, blocked, cascade, list[i], dropped');
      if keep {
        assert kept + ([list[i]] + rest) == (kept + [list[i]]) + rest;
        kept := kept + [list[i]];
      }
    }
    assert list[|list|..] == [] && kept + [] == kept;
  }

  /** Once no kept bundle falls, the kept bundles are exactly the ones that are not hidden. */
  lemma {:induction false} CascadeEnds(env: Env, blocked: set<Text>, cascade: bool, bundles: seq<EventBundle>,
                                       kept: seq<EventBundle>, dropped: set<EventKey>, gone: set<EventBundle>)
    requires Cascading(env, blocked, cascade, bundles, kept, dropped, gone)
    requires forall b | b in kept :: !Falls(env, blocked, cascade, dropped, b)
    ensures kept == Filter(Shown(env, blocked, cascade, bundles), bundles)
  {
    forall b | b in kept ensures Shown(env, blocked, cascade, bundles)(b) {
      if Hidden(env, blocked, cascade, bundles, b) {
        var chain :| HidingChain(env, blocked, cascade, bundles, chain) && chain[|chain| - 1] == b;
        ChainFalls(env, blocked, cascade, bundles, gone, dropped, chain);
      }
    }
    FilterAll(Shown(env, blocked, cascade, bundles), kept);
  }

  lemma {:induction false} NothingBlocked(env: Env, cascade: bool, bundles: seq<EventBundle>)
    ensures Filter(Shown(env, {}, cascade, bundles), bundles) == bundles
  {
    forall b ensures !Falls(env, {}, cascade, {}, b) {}
    FilterAll(Shown(env, {}, cascade, bundles), bundles);
  }

  /** Drop bundles until none falls. What is left is the list without its hidden bundles, in the same order. */
  method RetainUnblocked(env: Env, blocked: set<Text>, bundles: seq<EventBundle>, cascade: bool)
    returns (kept: seq<EventBundle>)
    ensures kept == Filter(Shown(env, blocked, cascade, bundles), bundles)
  {
    if blocked == {} {
      NothingBlocked(env, cascade, bundles);
      return bundles;
    }
    kept := bundles;
    var dropped: set<EventKey>, done := {}, false;
    ghost var gone: set<EventBundle> := {};
    while !done
      invariant Cascading(env, blocked, cascade, bundles, kept, dropped, gone)
      invariant done ==> forall b | b in kept :: !Falls(env, blocked, cascade, dropped, b)
      decreases !done, |kept|
    {
      var remaining := |kept|;
      QuietPass(env, blocked, cascade, kept, dropped);
      gone := PassCascades(env, blocked, cascade, bundles, kept, dropped, gone);
      kept, dropped := RetainPass(env, blocked, cascade, kept, dropped);
      done := |kept| == remaining;
    }
    CascadeEnds(env, blocked, cascade, bundles, kept, dropped, gone);
  }

  // ----- the least fixpoint, independence of order, idempotence -----

  /** A set of bundles that the cascade cannot extend. */
  ghost predicate Closed(env: Env, blocked: set<Text>, cascade: bool, bundles: seq<EventBundle>,
                         gone: set<EventBundle>) {
    forall b | b in bundles && Falls(env, blocked, cascade, KeysOf(env, gone), b) :: b in gone
  }

  /** The hidden bundles are closed under the cascade, and every closed set contains them. */
  lemma {:induction false} HiddenIsLeastClosed(env: Env, blocked: set<Text>, cascade: bool, bundles: seq<EventBundle>)
    ensures Closed(env, blocked, cascade, bundles, set b | b in bundles && Hidden(env, blocked, cascade, bundles, b))
    ensures forall gone | Closed(env, blocked, cascade, bundles, gone) ::
              forall b | Hidden(env, blocked, cascade, bundles, b) :: b in gone
  {
    var hidden := set b | b in bundles && Hidden(env, blocked, cascade, bundles, b);
    forall b | b in bundles && Falls(env, blocked, cascade, KeysOf(env, hidden), b) ensures b in hidden {
      FallsExtends(env, blocked, cascade, bundles, KeysOf(env, hidden), b);
    }
    forall gone, b | Closed(env, blocked, cascade, bundles, gone) && Hidden(env, blocked, cascade, bundles, b)
      ensures b in gone
    {
      var chain :| HidingChain(env, blocked, cascade, bundles, chain) && chain[|chain| - 1] == b;
      ChainFalls(env, blocked, cascade, bundles, gone, KeysOf(env, gone), chain);
    }
  }

  /** Which bundles are hidden depends on the members of the list only, not on their order or number. */
  lemma {:induction false} HiddenIgnoresOrder(env: Env, blocked: set<Text>, cascade: bool, s: seq<EventBundle>,
                                              t: seq<EventBundle>, b: EventBundle)
    requires forall x :: x in s <==> x in t
    ensures Hidden(env, blocked, cascade, s, b) <==> Hidden(env, blocked, cascade, t, b)
  {
    forall chain
      ensures HidingChain(env, blocked, cascade, s, chain) <==> HidingChain(env, blocked, cascade, t, chain)
    {}
  }

  /** Filtering what is left once more changes nothing. */
  lemma {:induction false} RetainIsIdempotent(env: Env, blocked: set<Text>, cascade: bool, bundles: seq<EventBundle>)
    ensures var kept := Filter(Shown(env, blocked, cascade, bundles), bundles);
            Filter(Shown(env, blocked, cascade, kept), kept) == kept
  {
    var kept := Filter(Shown(env, blocked, cascade, bundles), bundles);
    forall b | b in kept ensures !Hidden(env, blocked, cascade, kept, b) {
      if chain :| HidingChain(env, blocked, cascade, kept, chain) && chain[|chain| - 1] == b {
        assert HidingChain(env, blocked, cascade, bundles, chain);
      }
    }
    FilterAll(Shown(env, blocked, cascade, kept), kept);
  }
}
